/** The LaTeX service (latex_writing/latex_writing.py): the bookkeeping of
    the multi-file upload endpoint and the task and language dispatch of
    `generate`. Saving a file is given as its outcome, the generated ids as
    a sequence of names, and the model call is left out: `generate`
    answers with what it would send. */
module LatexWriting {
  import opened Wrappers
  import opened Strings
  import opened UploadPaths

  // ---------------------------------------------------------------------
  // generate

  datatype Task = Format | Solve | Help | Explain
  datatype Language = En | Ro

  const Tasks := ["format", "solve", "help", "explain"]
  const Languages := ["en", "ro"]

  function TaskOf(task: string): (r: Option<Task>)
    ensures r.Some? <==> task in Tasks
  {
    if task == "format" then Some(Format)
    else if task == "solve" then Some(Solve)
    else if task == "help" then Some(Help)
    else if task == "explain" then Some(Explain)
    else None
  }

  function LanguageOf(language: string): (r: Option<Language>)
    ensures r.Some? <==> language in Languages
  {
    if language == "en" then Some(En) else if language == "ro" then Some(Ro) else None
  }

  /** What `generate` does: the ValueError of an unknown task, the
      invalid-mode message, the UnboundLocalError of a question never
      assigned (raised after the files were sent), or the files in order
      followed by the prompt for the task in the language, with that
      language's template. */
  datatype Reply = TaskRejected | InvalidMode | QuestionUnbound | Asked(files: seq<string>, task: Task, language: Language)

  const InvalidModeMessage := "Invalid mode or missing file"

  /** generate: the task is checked first, then the mode and the files,
      and the question is first needed once the files are uploaded. */
  function Generate(mode: string, task: string, files: seq<string>, language: string): (r: Reply)
    ensures r == TaskRejected <==> task !in Tasks
    ensures r == InvalidMode <==> task in Tasks && !(mode == "latex" && |files| > 0)
    ensures r == QuestionUnbound <==> task in Tasks && mode == "latex" && |files| > 0 && language !in Languages
    ensures r.Asked? ==> r.files == files && Some(r.task) == TaskOf(task) && Some(r.language) == LanguageOf(language)
  {
    match TaskOf(task)
    case None => TaskRejected
    case Some(t) =>
      if !(mode == "latex" && |files| > 0) then InvalidMode
      else match LanguageOf(language)
        case None => QuestionUnbound
        case Some(l) => Asked(files, t, l)
  }

  // ---------------------------------------------------------------------
  // upload_multiple_files

  /** One uploaded part: its name and type as sent, and what saving it
      would raise (None when it saves). */
  datatype Upload = Upload(filename: Option<string>, contentType: Option<string>, saveError: Option<string>)

  /** One entry of `saved_files`. */
  datatype FileInfo = FileInfo(filename: Option<string>, contentType: Option<string>, savedPath: Option<string>, error: Option<string>)

  const NoFilename := "No filename provided"
  const CouldNotSave := "Could not save file: "

  /** `if not file.filename`: a missing or empty name. */
  predicate Named(u: Upload) {
    u.filename.Some? && u.filename.value != ""
  }

  /** Where a named file is written: the upload directory and a generated
      name keeping the original suffix. */
  function StoredPath(dir: string, u: Upload, id: string): (r: string)
    requires Named(u)
    ensures StartsWith(r, dir + "/")
  {
    assert (dir + "/" + UniqueFilename(u.filename.value, id))[..|dir + "/"|] == dir + "/";
    dir + "/" + UniqueFilename(u.filename.value, id)
  }

  /** The entry for one file: the no-name error, the saved path, or the
      save error. */
  function InfoOf(u: Upload, dir: string, id: string): (r: FileInfo)
    ensures r.filename == u.filename && r.contentType == u.contentType
    ensures r.savedPath.Some? <==> Named(u) && u.saveError.None?
    ensures r.error.Some? <==> !r.savedPath.Some?
  {
    if !Named(u) then FileInfo(u.filename, u.contentType, None, Some(NoFilename))
    else match u.saveError
      case None => FileInfo(u.filename, u.contentType, Some(StoredPath(dir, u, id)), None)
      case Some(e) => FileInfo(u.filename, u.contentType, None, Some(CouldNotSave + e))
  }

  /** `saved_files` as intended: one entry per file, in order. */
  function Infos(us: seq<Upload>, dir: string, ids: seq<string>): (r: seq<FileInfo>)
    requires |ids| == |us|
    ensures |r| == |us|
    ensures forall i :: 0 <= i < |us| ==> r[i] == InfoOf(us[i], dir, ids[i])
  {
    if |us| == 0 then []
    else Infos(us[..|us| - 1], dir, ids[..|us| - 1]) + [InfoOf(us[|us| - 1], dir, ids[|us| - 1])]
  }

  /** `file_paths`: the path of every named file, saved or not. */
  function Paths(us: seq<Upload>, dir: string, ids: seq<string>): (r: seq<string>)
    requires |ids| == |us|
    ensures |r| <= |us|
  {
    if |us| == 0 then []
    else
      var n := |us| - 1;
      Paths(us[..n], dir, ids[..n]) + (if Named(us[n]) then [StoredPath(dir, us[n], ids[n])] else [])
  }

  /** `filenames`: the names of the files that were saved. */
  function SavedNames(us: seq<Upload>): (r: seq<string>)
    ensures |r| <= |us|
  {
    if |us| == 0 then []
    else
      var n := |us| - 1;
      SavedNames(us[..n]) + (if Named(us[n]) && us[n].saveError.None? then [us[n].filename.value] else [])
  }

  function NamelessCount(us: seq<Upload>): (r: nat)
    ensures r <= |us|
  {
    if |us| == 0 then 0
    else NamelessCount(us[..|us| - 1]) + (if Named(us[|us| - 1]) then 0 else 1)
  }

  /** What one pass of the loop appends for a file, as written. */
  function AppendedFor(u: Upload, info: FileInfo): (r: seq<FileInfo>)
    ensures |r| == if Named(u) then 1 else 2
  {
    if Named(u) then [info] else [info, info]
  }

  /** `saved_files` as the loop builds it: a file without a name is
      appended in the `continue` branch and again in `finally`. */
  function InfosAsWritten(us: seq<Upload>, dir: string, ids: seq<string>): (r: seq<FileInfo>)
    requires |ids| == |us|
    ensures |r| == |us| + NamelessCount(us)
  {
    if |us| == 0 then []
    else
      var n := |us| - 1;
      InfosAsWritten(us[..n], dir, ids[..n]) + AppendedFor(us[n], InfoOf(us[n], dir, ids[n]))
  }

  /** The response message: the number of entries in `saved_files`. */
  function ProcessedMessage(count: nat): string {
    "Successfully processed " + NatToString(count) + " file(s)."
  }

  /** As written, one file without a name is reported as two processed
      files, and the intended bookkeeping reports one. */
  lemma NamelessFileCountedTwice(u: Upload, dir: string, id: string)
    requires !Named(u)
    ensures InfosAsWritten([u], dir, [id]) == [InfoOf(u, dir, id), InfoOf(u, dir, id)]
    ensures Infos([u], dir, [id]) == [InfoOf(u, dir, id)]
    ensures ProcessedMessage(|InfosAsWritten([u], dir, [id])|) != ProcessedMessage(|Infos([u], dir, [id])|)
  {
    assert [u][..0] == [] && [id][..0] == [];
    var p := "Successfully processed ";
    assert NatToString(2) == "2" && NatToString(1) == "1";
    assert ProcessedMessage(2)[|p|] == '2';
    assert ProcessedMessage(1)[|p|] == '1';
  }

  /** Every named file's path is passed to generate, whether or not it was
      saved. */
  lemma PathsCoverNamed(us: seq<Upload>, dir: string, ids: seq<string>, i: nat)
    requires |ids| == |us| && i < |us| && Named(us[i])
    ensures StoredPath(dir, us[i], ids[i]) in Paths(us, dir, ids)
  {
    PathsStep(us, dir, ids, i);
    PathsPrefix(us, dir, ids, i + 1);
    var before := Paths(us[..i + 1], dir, ids[..i + 1]);
    assert before[|before| - 1] == StoredPath(dir, us[i], ids[i]);
    assert Paths(us, dir, ids)[|before| - 1] == before[|before| - 1];
  }

  /** The paths grow file by file. */
  lemma PathsStep(us: seq<Upload>, dir: string, ids: seq<string>, i: nat)
    requires |ids| == |us| && i < |us|
    ensures Paths(us[..i + 1], dir, ids[..i + 1]) ==
      Paths(us[..i], dir, ids[..i]) + (if Named(us[i]) then [StoredPath(dir, us[i], ids[i])] else [])
  {
    assert us[..i + 1][..i] == us[..i];
    assert ids[..i + 1][..i] == ids[..i];
  }

  /** The paths of the first files begin the list of paths. */
  lemma {:induction false} PathsPrefix(us: seq<Upload>, dir: string, ids: seq<string>, j: nat)
    requires |ids| == |us| && j <= |us|
    ensures Paths(us[..j], dir, ids[..j]) <= Paths(us, dir, ids)
    decreases |us| - j
  {
    if j < |us| {
      PathsPrefix(us, dir, ids, j + 1);
      PathsStep(us, dir, ids, j);
    } else {
      assert us[..j] == us && ids[..j] == ids;
    }
  }

  /** Only files that were saved are listed in `filenames`. */
  lemma {:induction false} SavedNamesSaved(us: seq<Upload>, name: string)
    requires name in SavedNames(us)
    ensures exists i :: 0 <= i < |us| && us[i].filename == Some(name) && us[i].saveError.None?
    decreases |us|
  {
    var n := |us| - 1;
    if name in SavedNames(us[..n]) {
      SavedNamesSaved(us[..n], name);
      var i :| 0 <= i < n && us[..n][i].filename == Some(name) && us[..n][i].saveError.None?;
      assert us[i] == us[..n][i];
    } else {
      assert us[n].filename == Some(name) && us[n].saveError.None?;
    }
  }

  lemma BookkeepingPrefix(us: seq<Upload>, dir: string, ids: seq<string>, i: nat)
    requires |ids| == |us| && i < |us|
    ensures Infos(us[..i + 1], dir, ids[..i + 1]) == Infos(us[..i], dir, ids[..i]) + [InfoOf(us[i], dir, ids[i])]
    ensures Paths(us[..i + 1], dir, ids[..i + 1]) ==
      Paths(us[..i], dir, ids[..i]) + (if Named(us[i]) then [StoredPath(dir, us[i], ids[i])] else [])
    ensures SavedNames(us[..i + 1]) ==
      SavedNames(us[..i]) + (if Named(us[i]) && us[i].saveError.None? then [us[i].filename.value] else [])
  {
    assert us[..i + 1][..i] == us[..i];
    assert ids[..i + 1][..i] == ids[..i];
  }

  /** What the endpoint answers: 400 for an empty upload, 500 when
      generate raises, and otherwise the message, the entries and the reply
      of generate (`filenames` is only logged). */
  datatype Response =
    | NoFiles
    | ServerError
    | Processed(message: string, savedFiles: seq<FileInfo>, filenames: seq<string>, reply: Reply)

  /** upload_multiple_files as evidently intended, with each file entered
      in `saved_files` once; `ids` are the generated names, one per file.
      As written, a file without a name is entered twice; that is
      `InfosAsWritten`. */
  method UploadFiles(us: seq<Upload>, ids: seq<string>, dir: string, task: string, language: string) returns (r: Response)
    requires |ids| == |us|
    ensures |us| == 0 <==> r == NoFiles
    ensures |us| > 0 ==> var reply := Generate("latex", task, Paths(us, dir, ids), language);
      if reply == TaskRejected || reply == QuestionUnbound then r == ServerError
      else r == Processed(ProcessedMessage(|us|), Infos(us, dir, ids), SavedNames(us), reply)
  {
    if |us| == 0 {
      return NoFiles;
    }
    var savedFiles: seq<FileInfo> := [];
    var filenames: seq<string> := [];
    var filePaths: seq<string> := [];
    var i := 0;
    while i < |us|
      invariant 0 <= i <= |us|
      invariant savedFiles == Infos(us[..i], dir, ids[..i])
      invariant filePaths == Paths(us[..i], dir, ids[..i])
      invariant filenames == SavedNames(us[..i])
    {
      BookkeepingPrefix(us, dir, ids, i);
      var u := us[i];
      if !Named(u) {
        savedFiles := savedFiles + [FileInfo(u.filename, u.contentType, None, Some(NoFilename))];
      } else {
        var location := dir + "/" + UniqueFilename(u.filename.value, ids[i]);
        filePaths := filePaths + [location];
        if u.saveError.None? {
          savedFiles := savedFiles + [FileInfo(u.filename, u.contentType, Some(location), None)];
          filenames := filenames + [u.filename.value];
        } else {
          savedFiles := savedFiles + [FileInfo(u.filename, u.contentType, None, Some(CouldNotSave + u.saveError.value))];
        }
      }
      i := i + 1;
    }
    assert us[..i] == us && ids[..i] == ids;
    var reply := Generate("latex", task, filePaths, language);
    if reply == TaskRejected || reply == QuestionUnbound {
      return ServerError;
    }
    r := Processed(ProcessedMessage(|savedFiles|), savedFiles, filenames, reply);
  }
}
