/** The file-name handling shared by the two upload services
    (video_understanding/video_understanding.py and
    latex_writing/latex_writing.py): `Path(name).name`, `Path(name).suffix`
    and get_unique_filename. Paths use `/` as separator. */
module UploadPaths {
  import opened Strings

  /** `Path(p).name`: the last path component, trailing separators and
      `.` components ignored; `""` when there is none. */
  function PathName(p: string): (r: string)
    ensures '/' !in r && r != "."
    ensures |r| <= |p|
    decreases |p|
  {
    var seg := LastSegment(p, '/');
    if seg != "" && seg != "." then seg
    else if |seg| < |p| then PathName(p[..|p| - |seg| - 1])
    else ""
  }

  /** A plain file name after a directory is the name. */
  lemma PathNameOfFile(dir: string, file: string)
    requires file != "" && file != "." && '/' !in file
    ensures PathName(dir + "/" + file) == file
  {
    LastSegmentAfter(dir + "/", file, '/');
  }

  /** A trailing separator does not change the name. */
  lemma PathNameTrailingSlash(p: string)
    ensures PathName(p + "/") == PathName(p)
  {
    var q := p + "/";
    assert LastSegment(q, '/') == "";
    assert q[..|q| - 1] == p;
  }

  /** Taking the name twice is taking it once. */
  lemma PathNameIdempotent(p: string)
    ensures PathName(PathName(p)) == PathName(p)
  {
    PathNameOfPlain(PathName(p));
  }

  /** A name without separators, other than `.`, is its own name. */
  lemma PathNameOfPlain(r: string)
    requires '/' !in r && r != "."
    ensures PathName(r) == r
  {
    LastSegmentWhole(r, '/');
  }

  /** `Path(name).suffix` on a file name: from its last `.` on, when that
      dot is neither the first nor the last character; `""` otherwise. */
  function Suffix(name: string): (r: string)
    ensures r != "" ==> |r| >= 2 && r[0] == '.' && '.' !in r[1..]
    ensures r != "" ==> |r| < |name| && EndsWith(name, r)
  {
    var ext := LastSegment(name, '.');
    if ext != "" && |ext| + 1 < |name| then
      assert name[|name| - |ext| - 1..] == "." + ext;
      "." + ext
    else ""
  }

  /** A name without separators has a suffix without separators. */
  lemma SlashFreeSuffix(name: string)
    requires '/' !in name
    ensures '/' !in Suffix(name)
  {
  }

  /** A name and an extension give that extension as suffix. */
  lemma SuffixOfExtension(base: string, ext: string)
    requires base != "" && ext != "" && '.' !in ext
    ensures Suffix(base + "." + ext) == "." + ext
  {
    LastSegmentAfter(base + ".", ext, '.');
  }

  /** A name without a dot, or a hidden file's name with only its leading
      dot, has no suffix. */
  lemma NoSuffix(name: string)
    requires '.' !in name || (|name| > 0 && name[0] == '.' && '.' !in name[1..])
    ensures Suffix(name) == ""
  {
    if '.' !in name {
      LastSegmentWhole(name, '.');
    } else {
      assert name == "." + name[1..];
      LastSegmentAfter(".", name[1..], '.');
    }
  }

  /** get_unique_filename: the generated id followed by the suffix of the
      original name. */
  function UniqueFilename(original: string, id: string): (r: string)
    ensures StartsWith(r, id) && EndsWith(r, Suffix(PathName(original)))
  {
    var ext := Suffix(PathName(original));
    assert (id + ext)[..|id|] == id && (id + ext)[|id + ext| - |ext|..] == ext;
    id + ext
  }

  /** A dot-free id followed by a suffix has that suffix. */
  lemma SuffixAfterId(id: string, ext: string)
    requires id != "" && '.' !in id
    requires ext == "" || (|ext| >= 2 && ext[0] == '.' && '.' !in ext[1..])
    ensures Suffix(id + ext) == ext
  {
    if ext == "" {
      assert id + ext == id;
      NoSuffix(id);
    } else {
      assert id + ext == id + "." + ext[1..] by { assert ext == "." + ext[1..]; }
      SuffixOfExtension(id, ext[1..]);
    }
  }

  /** The unique name keeps the original suffix when the id is a
      non-empty name without a dot, as a UUID is. */
  lemma UniqueFilenameKeepsSuffix(original: string, id: string)
    requires id != "" && '.' !in id
    ensures Suffix(UniqueFilename(original, id)) == Suffix(PathName(original))
  {
    SuffixAfterId(id, Suffix(PathName(original)));
  }

  /** The unique name is a plain file name: saving it lands in the upload
      directory itself. */
  lemma UniqueFilenameIsPlain(original: string, id: string)
    requires id != "" && '.' !in id && '/' !in id
    ensures PathName(UniqueFilename(original, id)) == UniqueFilename(original, id)
  {
    var ext := Suffix(PathName(original));
    SlashFreeSuffix(PathName(original));
    var r := id + ext;
    assert '/' !in r;
    assert r[0] == id[0];
    LastSegmentWhole(r, '/');
  }
}
