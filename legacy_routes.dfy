/** The legacy slice route of the Flask backend
    (web-interface/backend/legacy_routes.py): the course documents whose key
    ends in `:<digits>`, ordered by that number, and the half-open slice
    `[start:stop]` of them with their `content` field. */
module LegacyRoutes {
  import opened Wrappers
  import opened Strings
  import opened RedisStore
  import opened Sorting

  // ---------------------------------------------------------------------
  // extract_numeric_index

  /** The text `$` is matched against: Python's `$` also matches just before
      one final newline. */
  function BeforeFinalNewline(s: string): (t: string)
    ensures |t| <= |s| && t == s[..|t|]
  {
    if |s| > 0 && s[|s| - 1] == '\n' then s[..|s| - 1] else s
  }

  /** The longest run of digits that ends `s`. */
  function TrailingDigits(s: string): (r: string)
    ensures |r| <= |s| && r == s[|s| - |r|..]
    ensures AllDigits(r)
    ensures |r| < |s| ==> !IsDigit(s[|s| - |r| - 1])
  {
    if |s| == 0 || !IsDigit(s[|s| - 1]) then ""
    else TrailingDigits(s[..|s| - 1]) + [s[|s| - 1]]
  }

  /** The regular expression `:(\d+)$` matches `t` with its `:` at `i`. */
  predicate MatchesAt(t: string, i: nat) {
    i + 1 < |t| && t[i] == ':' && AllDigits(t[i + 1..])
  }

  /** extract_numeric_index: the number after a final `:<digits>`, or -1. */
  function ExtractNumericIndex(key: string): (r: int)
    ensures r >= -1
  {
    var t := BeforeFinalNewline(key);
    var d := TrailingDigits(t);
    var i := |t| - |d| - 1;
    if |d| > 0 && i >= 0 && t[i] == ':' then DigitsValue(d) else -1
  }

  /** extract_numeric_index agrees with `re.search(r':(\d+)$', key)`: it is
      -1 exactly when the expression does not match, and otherwise the match
      is unique and the result is the value of its digits. */
  lemma ExtractNumericIndexMatches(key: string)
    ensures ExtractNumericIndex(key) == -1 <==> forall i: nat :: !MatchesAt(BeforeFinalNewline(key), i)
    ensures forall i: nat :: MatchesAt(BeforeFinalNewline(key), i) ==>
      ExtractNumericIndex(key) == DigitsValue(BeforeFinalNewline(key)[i + 1..])
  {
    var t := BeforeFinalNewline(key);
    var d := TrailingDigits(t);
    var i := |t| - |d| - 1;
    if |d| > 0 && i >= 0 && t[i] == ':' {
      assert t[i + 1..] == d;
      assert MatchesAt(t, i);
      forall j: nat | MatchesAt(t, j)
        ensures t[j + 1..] == d
      {
        DigitsRunEnd(t, j, d);
      }
    } else {
      forall j: nat
        ensures !MatchesAt(t, j)
      {
        if MatchesAt(t, j) {
          DigitsRunEnd(t, j, d);
        }
      }
    }
  }

  /** A `:` followed only by digits up to the end sits just before the
      trailing run of digits. */
  lemma DigitsRunEnd(t: string, j: nat, d: string)
    requires MatchesAt(t, j)
    requires d == TrailingDigits(t)
    ensures j == |t| - |d| - 1
  {
  }

  /** The key of document `n` under any prefix reads back as `n`. */
  lemma ExtractNumericIndexOfKey(prefix: string, n: nat)
    ensures ExtractNumericIndex(prefix + [':'] + NatToString(n)) == n
  {
    var key := prefix + [':'] + NatToString(n);
    var i := |prefix|;
    assert key[i + 1..] == NatToString(n);
    assert key[|key| - 1] == NatToString(n)[|NatToString(n)| - 1];
    assert MatchesAt(BeforeFinalNewline(key), i);
    ExtractNumericIndexMatches(key);
    DigitsOfNatToString(n);
  }

  /** A key with no `:` never has an index. */
  lemma NoColonNoIndex(key: string)
    requires ':' !in key
    ensures ExtractNumericIndex(key) == -1
  {
    var t := BeforeFinalNewline(key);
    forall i: nat | i < |t|
      ensures t[i] != ':'
    {
      assert t[i] == key[i];
    }
    ExtractNumericIndexMatches(key);
  }

  // ---------------------------------------------------------------------
  // get_brasov_cursuri_slice

  /** The course documents the route lists: `KEY_PATTERN` keys with an index. */
  function IndexedKeys(data: map<string, Hash>): (keys: set<string>)
    ensures keys <= data.Keys
  {
    set k | k in data && StartsWith(k, DocPrefix) && ExtractNumericIndex(k) != -1
  }

  /** The keys of `keys` that have an index, in list order. */
  function Indexed(keys: seq<string>): (r: seq<string>)
    ensures forall k :: k in r <==> k in keys && ExtractNumericIndex(k) != -1
  {
    if |keys| == 0 then []
    else
      var rest := Indexed(keys[..|keys| - 1]);
      var k := keys[|keys| - 1];
      if ExtractNumericIndex(k) != -1 then rest + [k] else rest
  }

  /** One more key is kept at the end exactly when it is indexed. */
  lemma IndexedPrefix(keys: seq<string>, i: nat)
    requires i < |keys|
    ensures Indexed(keys[..i + 1]) ==
      if ExtractNumericIndex(keys[i]) != -1 then Indexed(keys[..i]) + [keys[i]] else Indexed(keys[..i])
  {
    assert keys[..i + 1][..i] == keys[..i];
  }

  /** Filtering a list without repeats leaves none. */
  lemma {:induction false} IndexedDistinct(keys: seq<string>)
    requires Distinct(keys)
    ensures Distinct(Indexed(keys))
  {
    if |keys| > 0 {
      var p := keys[..|keys| - 1];
      var k := keys[|keys| - 1];
      IndexedDistinct(p);
      assert k !in p;
    }
  }

  /** The value one fetched key contributes to the answer: `HGET key
      content`, or the placeholder when that is nil. */
  function ContentOrPlaceholder(data: map<string, Hash>, k: string): string {
    if k in data && "content" in data[k] then data[k]["content"] else "<content field missing or null>"
  }

  /** The answer for the fetched keys `keys`: each maps to its content, or to
      the placeholder when the hash has no `content` field. */
  function SliceOutput(data: map<string, Hash>, keys: seq<string>): (r: map<string, string>)
    ensures forall k :: k in r <==> k in keys
    ensures forall k :: k in r ==> r[k] == ContentOrPlaceholder(data, k)
  {
    if |keys| == 0 then map[]
    else
      var k := keys[|keys| - 1];
      var rest := SliceOutput(data, keys[..|keys| - 1]);
      rest[k := ContentOrPlaceholder(data, k)]
  }

  /** One entry per fetched key: a list without repeats gives an answer as
      long as the list. */
  lemma {:induction false} SliceOutputSize(data: map<string, Hash>, keys: seq<string>)
    requires Distinct(keys)
    ensures |SliceOutput(data, keys)| == |keys|
  {
    if |keys| > 0 {
      var p := keys[..|keys| - 1];
      var k := keys[|keys| - 1];
      SliceOutputSize(data, p);
      assert k !in p;
    }
  }

  /** `sorted` is a possible `sorted_keys`: every indexed document once, in
      ascending order of index (documents with the same index may come in
      any order, as KEYS returns them in an unspecified order). */
  ghost predicate IsSortedKeyList(data: map<string, Hash>, sorted: seq<string>) {
    Distinct(sorted) &&
    (forall k :: k in sorted <==> k in IndexedKeys(data)) &&
    SortedBy(sorted, ExtractNumericIndex)
  }

  /** Python's clamping of a non-negative slice bound. */
  function Clamp(b: int, n: nat): nat
    requires b >= 0
  {
    if b < n then b else n
  }

  /** A distinct list of the members of a set is as long as the set is large. */
  lemma {:induction false} DistinctCard(s: seq<string>, keys: set<string>)
    requires Distinct(s)
    requires forall k :: k in s <==> k in keys
    ensures |keys| == |s|
    decreases |s|
  {
    if |s| > 0 {
      var k := s[|s| - 1];
      var p := s[..|s| - 1];
      forall x | x in p
        ensures x != k
      {
        var j :| 0 <= j < |p| && p[j] == x;
      }
      assert forall x :: x in p <==> x in keys - {k} by {
        assert s == p + [k];
      }
      DistinctCard(p, keys - {k});
    }
  }

  /** A permutation of a list without repeats has no repeats. */
  lemma PermutationDistinct(s: seq<string>, t: seq<string>)
    requires Distinct(s) && multiset(t) == multiset(s)
    ensures Distinct(t)
  {
    forall i, j | 0 <= i < j < |t|
      ensures t[i] != t[j]
    {
      if t[i] == t[j] {
        var x := t[i];
        assert t == t[..j] + [t[j]] + t[j + 1..];
        assert x in t[..j];
        assert multiset(t)[x] >= 2;
        DistinctCount(s, x);
      }
    }
  }

  /** In a list without repeats each element occurs at most once. */
  lemma {:induction false} DistinctCount(s: seq<string>, x: string)
    requires Distinct(s)
    ensures multiset(s)[x] <= 1
    decreases |s|
  {
    if |s| > 0 {
      var p := s[..|s| - 1];
      assert s == p + [s[|s| - 1]];
      DistinctCount(p, x);
      if x == s[|s| - 1] {
        assert x !in p;
      }
    }
  }

  /** The range check of the handler: both bounds integers (`int()`),
      `start >= 0` and `stop >= start`; None is the 400 answer. */
  function SliceBounds(startText: string, stopText: string): (r: Option<(nat, nat)>)
    ensures r.Some? ==> r.value.0 <= r.value.1
  {
    match (ParseInt(startText), ParseInt(stopText))
    case (Some(start), Some(stop)) =>
      if start < 0 || stop < start then None else Some((start, stop))
    case _ => None
  }

  /** The range check answers 400 exactly when a bound is not an integer,
      start is negative or stop is below start; otherwise it passes both
      integers on unchanged. */
  lemma SliceBoundsChecks(startText: string, stopText: string)
    ensures SliceBounds(startText, stopText).None? <==>
      ParseInt(startText).None? || ParseInt(stopText).None? ||
      ParseInt(startText).value < 0 || ParseInt(stopText).value < ParseInt(startText).value
    ensures SliceBounds(startText, stopText).Some? ==>
      SliceBounds(startText, stopText).value == (ParseInt(startText).value, ParseInt(stopText).value)
  {
  }

  /** get_brasov_cursuri_slice. Bounds that fail the range check give 400
      and nothing else. Otherwise the indexed documents are ordered by index
      and the answer holds exactly the ones at positions `[start:stop]` of
      that order, so it has `min(stop, n) - min(start, n)` entries for `n`
      indexed documents. */
  method GetSlice(store: Store, startText: string, stopText: string)
    returns (status: int, output: map<string, string>, ghost sorted: seq<string>)
    ensures status == 200 || status == 400
    ensures status == 400 <==> SliceBounds(startText, stopText).None?
    ensures status == 400 ==> output == map[]
    ensures status == 200 ==>
      var bounds, n := SliceBounds(startText, stopText).value, |IndexedKeys(store.data)|;
      IsSortedKeyList(store.data, sorted) && |sorted| == n &&
      output == SliceOutput(store.data, sorted[Clamp(bounds.0, n)..Clamp(bounds.1, n)]) &&
      |output| == Clamp(bounds.1, n) - Clamp(bounds.0, n)
  {
    var bounds := SliceBounds(startText, stopText);
    if bounds.None? {
      return 400, map[], [];
    }
    output, sorted := SliceAnswer(store, bounds.value.0, bounds.value.1);
    status := 200;
  }

  /** The success path: order the indexed documents, take positions
      `[start:stop]`, fetch their content. */
  method SliceAnswer(store: Store, start: nat, stop: nat) returns (output: map<string, string>, ghost sorted: seq<string>)
    requires start <= stop
    ensures IsSortedKeyList(store.data, sorted) && |sorted| == |IndexedKeys(store.data)|
    ensures output == SliceOutput(store.data, sorted[Clamp(start, |sorted|)..Clamp(stop, |sorted|)])
    ensures |output| == Clamp(stop, |sorted|) - Clamp(start, |sorted|)
  {
    var ordered := SortedKeys(store);
    var n := |ordered|;
    var a, b := Clamp(start, n), Clamp(stop, n);
    var fetch := ordered[a..b];
    SliceDistinct(ordered, a, b);
    output := FetchContents(store, fetch);
    SliceOutputSize(store.data, fetch);
    sorted := ordered;
  }

  /** A slice of a list without repeats has none. */
  lemma SliceDistinct(s: seq<string>, a: nat, b: nat)
    requires Distinct(s)
    requires a <= b <= |s|
    ensures Distinct(s[a..b])
  {
  }

  /** `sorted_keys`: the indexed documents in ascending order of index. */
  method SortedKeys(store: Store) returns (ordered: seq<string>)
    ensures IsSortedKeyList(store.data, ordered)
    ensures |ordered| == |IndexedKeys(store.data)|
  {
    var keys := store.KeyList(DocPrefix);
    var indexed := FilterIndexed(keys);
    IndexedDistinct(keys);
    ordered := SortBy(indexed, ExtractNumericIndex);
    PermutationDistinct(indexed, ordered);
    forall k | true
      ensures k in ordered <==> k in IndexedKeys(store.data)
    {
      assert k in ordered <==> k in multiset(ordered);
      assert k in indexed <==> k in multiset(indexed);
    }
    DistinctCard(ordered, IndexedKeys(store.data));
  }

  /** The index loop: keeps the keys whose index is not -1, in list order. */
  method FilterIndexed(keys: seq<string>) returns (r: seq<string>)
    ensures r == Indexed(keys)
  {
    r := [];
    var i := 0;
    while i < |keys|
      invariant 0 <= i <= |keys|
      invariant r == Indexed(keys[..i])
    {
      IndexedPrefix(keys, i);
      if ExtractNumericIndex(keys[i]) != -1 {
        r := r + [keys[i]];
      }
      i := i + 1;
    }
    assert keys[..i] == keys;
  }

  /** The fetch loop over the pipelined `HGET key content` answers. */
  method FetchContents(store: Store, fetch: seq<string>) returns (output: map<string, string>)
    ensures output == SliceOutput(store.data, fetch)
  {
    output := map[];
    var i := 0;
    while i < |fetch|
      invariant 0 <= i <= |fetch|
      invariant output == SliceOutput(store.data, fetch[..i])
    {
      assert fetch[..i + 1][..i] == fetch[..i];
      var content := ContentOrPlaceholder(store.data, fetch[i]);
      output := output[fetch[i] := content];
      i := i + 1;
    }
    assert fetch[..i] == fetch;
  }
}
