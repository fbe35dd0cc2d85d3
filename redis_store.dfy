/** The Redis database the Flask routes share, as a map from key to hash
    (field to value), with the key prefixes of web-interface/backend/config.py.
    Text fields are held as the text they decode to; the one binary field,
    `pdf_data`, is held as its raw bytes, one character per byte. */
module RedisStore {
  import opened Strings

  type Hash = map<string, string>

  /** Course documents, `doc:brasov-cursuri:*`. */
  const DocPrefix := "doc:brasov-cursuri:"
  /** Saved quizzes, `doc:brasov-tests:*`. */
  const TestsPrefix := "doc:brasov-tests:"
  /** Saved assignments, `brasov-assignments:*`. */
  const AssignmentsPrefix := "brasov-assignments:"
  /** The older quiz prefix that quiz deletion still falls back to. */
  const LegacyQuizPrefix := "brasov-quizzes:"
  /** Suffix of the per-document name keys that the material list skips. */
  const NameSuffix := ":name"

  /** The field that holds a course document's PDF file as raw bytes. */
  const BinaryField := "pdf_data"

  /** A UTF-8 continuation byte. */
  predicate Continuation(c: char) {
    0x80 <= c as int <= 0xBF
  }

  /** Well-formed UTF-8 as section 4 of RFC 3629 defines it (no overlong
      form, no surrogate, nothing above U+10FFFF), over bytes held one
      character per byte: exactly what a strict UTF-8 decode accepts. */
  predicate Utf8(b: string)
    decreases |b|
  {
    if |b| == 0 then true
    else
      var c := b[0] as int;
      if c <= 0x7F then Utf8(b[1..])
      else if 0xC2 <= c <= 0xDF then
        |b| >= 2 && Continuation(b[1]) && Utf8(b[2..])
      else if 0xE0 <= c <= 0xEF then
        |b| >= 3 && (if c == 0xE0 then 0xA0 else 0x80) <= b[1] as int <= (if c == 0xED then 0x9F else 0xBF) &&
        Continuation(b[2]) && Utf8(b[3..])
      else if 0xF0 <= c <= 0xF4 then
        |b| >= 4 && (if c == 0xF0 then 0x90 else 0x80) <= b[1] as int <= (if c == 0xF4 then 0x8F else 0xBF) &&
        Continuation(b[2]) && Continuation(b[3]) && Utf8(b[4..])
      else false
  }

  /** Every byte below 0x80. */
  predicate Ascii(b: string) {
    forall i :: 0 <= i < |b| ==> b[i] as int <= 0x7F
  }

  /** An ASCII prefix neither makes nor spoils well-formed UTF-8. */
  lemma {:induction false} AsciiPrefixUtf8(a: string, b: string)
    requires Ascii(a)
    ensures Utf8(a + b) <==> Utf8(b)
    decreases |a|
  {
    if |a| > 0 {
      assert (a + b)[0] == a[0] && a[0] as int <= 0x7F;
      assert (a + b)[1..] == a[1..] + b;
      assert Ascii(a[1..]) by {
        forall i | 0 <= i < |a[1..]|
          ensures a[1..][i] as int <= 0x7F
        {
          assert a[1..][i] == a[i + 1];
        }
      }
      AsciiPrefixUtf8(a[1..], b);
    } else {
      assert a + b == b;
    }
  }

  /** ASCII bytes are well-formed UTF-8. */
  lemma AsciiUtf8(a: string)
    requires Ascii(a)
    ensures Utf8(a)
  {
    AsciiPrefixUtf8(a, "");
    assert a + "" == a;
  }

  /** `HGETALL` on the connection that decodes responses decodes every
      value strictly: it succeeds exactly when the binary field, if there
      is one, holds well-formed UTF-8. */
  predicate TextReadable(h: Hash) {
    BinaryField in h ==> Utf8(h[BinaryField])
  }

  /** The opening of a PDF file: its header line, then the comment line of
      four bytes above 0x7F that marks the file as binary. */
  function PdfHeader(): (b: string)
    ensures |b| == 15 && b[..5] == "%PDF-"
  {
    "%PDF-1.4\n%" + [0xE2 as char, 0xE3 as char, 0xCF as char, 0xD3 as char] + "\n"
  }

  /** Those bytes are not UTF-8: 0xE2 opens a three-byte sequence that
      0xE3 cannot continue. */
  lemma PdfHeaderNotUtf8(rest: string)
    ensures !Utf8(PdfHeader() + rest)
  {
    var a := "%PDF-1.4\n%";
    var t := [0xE2 as char, 0xE3 as char, 0xCF as char, 0xD3 as char] + "\n" + rest;
    assert PdfHeader() + rest == a + t;
    AsciiPrefixUtf8(a, t);
    assert t[0] as int == 0xE2 && !Continuation(t[1]);
  }

  /** The keys of `data` that start with `prefix`. */
  function KeysWithPrefix(data: map<string, Hash>, prefix: string): (keys: set<string>)
    ensures keys <= data.Keys
    ensures forall k :: k in data && StartsWith(k, prefix) ==> k in keys
  {
    set k | k in data && StartsWith(k, prefix)
  }

  /** No element occurs twice. */
  predicate Distinct<T(==)>(s: seq<T>) {
    forall i, j :: 0 <= i < j < |s| ==> s[i] != s[j]
  }

  class Store {
    var data: map<string, Hash>

    constructor(init: map<string, Hash>)
      ensures data == init
    {
      data := init;
    }

    /** `KEYS prefix*`. */
    method Keys(prefix: string) returns (keys: set<string>)
      ensures keys == KeysWithPrefix(data, prefix)
    {
      keys := set k | k in data && StartsWith(k, prefix);
    }

    /** `KEYS prefix*` as the list Redis returns: every matching key once,
        in an order Redis does not specify. */
    method KeyList(prefix: string) returns (keys: seq<string>)
      ensures Distinct(keys)
      ensures forall k :: k in keys <==> k in KeysWithPrefix(data, prefix)
    {
      var todo := KeysWithPrefix(data, prefix);
      keys := [];
      while todo != {}
        invariant Distinct(keys)
        invariant forall k :: k in keys <==> k in KeysWithPrefix(data, prefix) && k !in todo
        invariant todo <= KeysWithPrefix(data, prefix)
        decreases |todo|
      {
        var k :| k in todo;
        keys := keys + [k];
        todo := todo - {k};
      }
    }

    /** `HSET key mapping`: the fields are added to (or overwrite those of)
        the hash, which is created when absent. */
    method HSet(key: string, fields: Hash)
      modifies this
      ensures data == old(data)[key := (if key in old(data) then old(data)[key] else map[]) + fields]
    {
      var h := if key in data then data[key] else map[];
      data := data[key := h + fields];
    }

    /** `DEL key`. */
    method Delete(key: string)
      modifies this
      ensures data == old(data) - {key}
    {
      data := data - {key};
    }
  }
}
