/** The root-tag regular expressions the program uses to cut one XML
    document out of a model's free-text answer, written as explicit string
    search. A pattern `O[\s\S]*?C` (TypeScript) or `O.*?C` with DOTALL
    (Python) finds the leftmost opener `O` that is followed somewhere by a
    closer `C`, and then the earliest such closer: the lazy `*?`. `O` and `C`
    may each be a set of literal alternatives of one common length, compared
    case-insensitively when the pattern carries IGNORECASE. */
module TagMatch {
  import opened Wrappers
  import opened Strings

  /** `pat` occurs at `k`, compared after ASCII lower-casing when `ci`. */
  predicate IsAtFold(s: string, pat: string, ci: bool, k: nat) {
    k + |pat| <= |s| && (if ci then Lower(s[k..k + |pat|]) else s[k..k + |pat|]) == pat
  }

  /** One of the alternatives `pats` occurs at `k`. */
  predicate AnyAt(s: string, pats: seq<string>, ci: bool, k: nat)
    decreases |pats|
  {
    |pats| > 0 && (IsAtFold(s, pats[0], ci, k) || AnyAt(s, pats[1..], ci, k))
  }

  /** Alternatives of one length that occur at `k` end inside `s`. */
  lemma {:induction false} AnyAtFits(s: string, pats: seq<string>, ci: bool, k: nat)
    requires |pats| > 0 && forall i :: 0 <= i < |pats| ==> |pats[i]| == |pats[0]|
    requires AnyAt(s, pats, ci, k)
    ensures k + |pats[0]| <= |s|
    decreases |pats|
  {
    if !IsAtFold(s, pats[0], ci, k) {
      AnyAtFits(s, pats[1..], ci, k);
    }
  }

  /** AnyAt is the existence of an alternative occurring at `k`. */
  lemma {:induction false} AnyAtSome(s: string, pats: seq<string>, ci: bool, k: nat)
    ensures AnyAt(s, pats, ci, k) <==> exists i :: 0 <= i < |pats| && IsAtFold(s, pats[i], ci, k)
    decreases |pats|
  {
    if |pats| > 0 {
      AnyAtSome(s, pats[1..], ci, k);
      if exists i :: 0 <= i < |pats| && IsAtFold(s, pats[i], ci, k) {
        var i :| 0 <= i < |pats| && IsAtFold(s, pats[i], ci, k);
        if i > 0 {
          assert pats[1..][i - 1] == pats[i];
        }
      }
      if AnyAt(s, pats[1..], ci, k) {
        var i :| 0 <= i < |pats[1..]| && IsAtFold(s, pats[1..][i], ci, k);
        assert pats[i + 1] == pats[1..][i];
      }
    }
  }

  /** The leftmost position at or after `from` where an alternative occurs. */
  function FirstAny(s: string, pats: seq<string>, ci: bool, from: nat): (r: Option<nat>)
    ensures r.Some? ==> from <= r.value <= |s|
    decreases |s| + 1 - from
  {
    if from > |s| then None
    else if AnyAt(s, pats, ci, from) then Some(from)
    else FirstAny(s, pats, ci, from + 1)
  }

  /** FirstAny finds an occurrence with none before it, and None means
      there is no occurrence at or after `from`. */
  lemma {:induction false} FirstAnyLeftmost(s: string, pats: seq<string>, ci: bool, from: nat)
    ensures var r := FirstAny(s, pats, ci, from);
      r.Some? ==> AnyAt(s, pats, ci, r.value) && forall k :: from <= k < r.value ==> !AnyAt(s, pats, ci, k)
    ensures FirstAny(s, pats, ci, from).None? ==> forall k :: from <= k ==> !AnyAt(s, pats, ci, k)
    decreases |s| + 1 - from
  {
    if from > |s| {
      forall k | from <= k
        ensures !AnyAt(s, pats, ci, k)
      {
        AnyAtSome(s, pats, ci, k);
      }
    } else if !AnyAt(s, pats, ci, from) {
      FirstAnyLeftmost(s, pats, ci, from + 1);
    }
  }

  /** The alternatives of a root-tag pattern. */
  datatype Pattern = Pattern(opens: seq<string>, closes: seq<string>, ci: bool)

  /** Every opener has one length and every closer another. */
  predicate WellFormed(p: Pattern) {
    |p.opens| > 0 && |p.closes| > 0 &&
    (forall i :: 0 <= i < |p.opens| ==> |p.opens[i]| == |p.opens[0]|) &&
    (forall i :: 0 <= i < |p.closes| ==> |p.closes[i]| == |p.closes[0]|)
  }

  function OpenLen(p: Pattern): nat requires WellFormed(p) { |p.opens[0]| }
  function CloseLen(p: Pattern): nat requires WellFormed(p) { |p.closes[0]| }

  /** The TypeScript pattern `/<tag>[\s\S]*?<\/tag>/`. */
  function Single(tag: string): (p: Pattern)
    ensures WellFormed(p)
  {
    Pattern(["<" + tag + ">"], ["</" + tag + ">"], false)
  }

  /** The extent of a match: `s[start..end]`. */
  datatype Span = Span(start: nat, end: nat)

  /** `s.match(p)` / `re.search(p, s)`: the first lazy match, taking the
      leftmost opener and the earliest closer after it (FirstLazyMatches
      states what that means). */
  function FirstLazy(s: string, p: Pattern): Option<Span>
    requires WellFormed(p)
  {
    var i := FirstAny(s, p.opens, p.ci, 0);
    if i.None? then None
    else
      var j := FirstAny(s, p.closes, p.ci, i.value + OpenLen(p));
      if j.None? then None
      else Some(Span(i.value, j.value + CloseLen(p)))
  }

  /** A match holds its opener and closer and lies inside `s`. */
  lemma FirstLazyBounds(s: string, p: Pattern)
    requires WellFormed(p)
    ensures var r := FirstLazy(s, p);
      r.Some? ==> r.value.start + OpenLen(p) + CloseLen(p) <= r.value.end <= |s|
  {
    var r := FirstLazy(s, p);
    if r.Some? {
      var i := FirstAny(s, p.opens, p.ci, 0).value;
      var j := FirstAny(s, p.closes, p.ci, i + OpenLen(p)).value;
      LeftmostAt(s, p.closes, p.ci, i + OpenLen(p), j);
      AnyAtFits(s, p.closes, p.ci, j);
    }
  }

  /** What a first lazy match is: an opener at its start with no opener
      anywhere before it, a closer at its end with no closer between the
      two. */
  lemma FirstLazyFound(s: string, p: Pattern)
    requires WellFormed(p)
    ensures var r := FirstLazy(s, p); r.Some? ==>
      AnyAt(s, p.opens, p.ci, r.value.start) &&
      AnyAt(s, p.closes, p.ci, r.value.end - CloseLen(p)) &&
      (forall k :: 0 <= k < r.value.start ==> !AnyAt(s, p.opens, p.ci, k)) &&
      (forall k :: r.value.start + OpenLen(p) <= k < r.value.end - CloseLen(p) ==> !AnyAt(s, p.closes, p.ci, k))
  {
    var r := FirstLazy(s, p);
    if r.Some? {
      var i := FirstAny(s, p.opens, p.ci, 0).value;
      var j := FirstAny(s, p.closes, p.ci, i + OpenLen(p)).value;
      assert r.value == Span(i, j + CloseLen(p));
      LeftmostAt(s, p.opens, p.ci, 0, i);
      LeftmostAt(s, p.closes, p.ci, i + OpenLen(p), j);
    }
  }

  /** FirstAnyLeftmost for a known result. */
  lemma LeftmostAt(s: string, pats: seq<string>, ci: bool, from: nat, k: nat)
    requires FirstAny(s, pats, ci, from) == Some(k)
    ensures AnyAt(s, pats, ci, k)
    ensures forall m :: from <= m < k ==> !AnyAt(s, pats, ci, m)
  {
    FirstAnyLeftmost(s, pats, ci, from);
  }

  /** No match: no opener in `s` is followed by a closer. */
  lemma FirstLazyNone(s: string, p: Pattern)
    requires WellFormed(p)
    ensures FirstLazy(s, p).None? ==>
      forall i, j :: 0 <= i && i + OpenLen(p) <= j && AnyAt(s, p.opens, p.ci, i) ==> !AnyAt(s, p.closes, p.ci, j)
  {
    var first := FirstAny(s, p.opens, p.ci, 0);
    FirstAnyLeftmost(s, p.opens, p.ci, 0);
    if first.Some? {
      var f := first.value;
      FirstAnyLeftmost(s, p.closes, p.ci, f + OpenLen(p));
      if FirstLazy(s, p).None? {
        assert FirstAny(s, p.closes, p.ci, f + OpenLen(p)).None?;
        forall i, j | 0 <= i && i + OpenLen(p) <= j && AnyAt(s, p.opens, p.ci, i)
          ensures !AnyAt(s, p.closes, p.ci, j)
        {
          assert f <= i;
        }
      }
    }
  }

  /** The matched text itself. */
  function MatchText(s: string, p: Pattern): (r: Option<string>)
    requires WellFormed(p)
    ensures r.Some? <==> FirstLazy(s, p).Some?
    ensures r.Some? ==> |r.value| >= OpenLen(p) + CloseLen(p)
  {
    match FirstLazy(s, p)
    case None => None
    case Some(sp) =>
      FirstLazyBounds(s, p);
      Some(s[sp.start..sp.end])
  }

  /** FirstAny is determined by the position of the first occurrence. */
  lemma {:induction false} FirstAnyAt(s: string, pats: seq<string>, ci: bool, from: nat, k: nat)
    requires from <= k && AnyAt(s, pats, ci, k)
    requires forall m :: from <= m < k ==> !AnyAt(s, pats, ci, m)
    ensures FirstAny(s, pats, ci, from) == Some(k)
    decreases k - from
  {
    if from < k {
      FirstAnyAt(s, pats, ci, from + 1, k);
    } else {
      AnyAtSome(s, pats, ci, k);
    }
  }

  /** A literal whose only `<` is its first character cannot occur so that
      it overlaps a `<` at position `m` without starting there. */
  lemma NoOverlap(s: string, w: string, k: nat, m: nat)
    requires 0 < |w| && w[0] == '<' && '<' !in w[1..]
    requires k < m < |s| && s[m] == '<' && m < k + |w|
    ensures !IsAt(s, w, k)
  {
  }

  /** With one case-sensitive alternative, AnyAt is plain occurrence. */
  lemma AnyAtSingle(s: string, w: string, k: nat)
    ensures AnyAt(s, [w], false, k) <==> IsAt(s, w, k)
  {
    if IsAt(s, w, k) {
      assert IsAtFold(s, [w][0], false, k);
    }
  }

  /** The first occurrence of a literal whose only `<` is its first
      character, when no occurrence ends at or before `at`. */
  lemma {:induction false} FirstLiteral(s: string, w: string, from: nat, at: nat)
    requires 0 < |w| && w[0] == '<' && '<' !in w[1..]
    requires from <= at && IsAt(s, w, at)
    requires forall k :: from <= k && k + |w| <= at ==> !IsAt(s, w, k)
    ensures FirstAny(s, [w], false, from) == Some(at)
  {
    AnyAtSingle(s, w, at);
    forall m | from <= m < at
      ensures !AnyAt(s, [w], false, m)
    {
      AnyAtSingle(s, w, m);
      if m + |w| > at {
        NoOverlap(s, w, m, at);
      }
    }
    FirstAnyAt(s, [w], false, from, at);
  }

  /** Text free of `w` followed by `w` at position `|pre|`: that is the
      first occurrence. */
  lemma {:induction false} FirstAfterFree(s: string, pre: string, w: string, from: nat)
    requires 0 < |w| && w[0] == '<' && '<' !in w[1..]
    requires from + |pre| + |w| <= |s| && s[from..from + |pre|] == pre
    requires s[from + |pre|..from + |pre| + |w|] == w
    requires forall k :: !IsAt(pre, w, k)
    ensures FirstAny(s, [w], false, from) == Some(from + |pre|)
  {
    forall k: nat | from <= k && k + |w| <= from + |pre|
      ensures !IsAt(s, w, k)
    {
      var j: nat := k - from;
      assert !IsAt(pre, w, j);
      var here, there := s[k..k + |w|], pre[j..j + |w|];
      forall t | 0 <= t < |w|
        ensures here[t] == there[t]
      {
        assert pre[j + t] == s[from..from + |pre|][j + t];
      }
      assert here == there;
    }
    FirstLiteral(s, w, from, from + |pre|);
  }

  /** FirstLazy is fixed by where the opener and then the closer are
      first found. */
  lemma FirstLazyFrom(s: string, p: Pattern, i: nat, j: nat)
    requires WellFormed(p)
    requires FirstAny(s, p.opens, p.ci, 0) == Some(i)
    requires FirstAny(s, p.closes, p.ci, i + OpenLen(p)) == Some(j)
    ensures FirstLazy(s, p) == Some(Span(i, j + CloseLen(p)))
  {
  }

  /** The opener of a wrapped document is found where it was put. */
  lemma {:induction false} WrappedOpener(pre: string, o: string, body: string, c: string, post: string)
    requires 0 < |o| && o[0] == '<' && '<' !in o[1..]
    requires forall k :: !IsAt(pre, o, k)
    ensures FirstAny(pre + o + body + c + post, [o], false, 0) == Some(|pre|)
  {
    var s := pre + o + body + c + post;
    assert s[0..|pre|] == pre && s[|pre|..|pre| + |o|] == o;
    FirstAfterFree(s, pre, o, 0);
  }

  /** The closer of a wrapped document is found right after its body. */
  lemma {:induction false} WrappedCloser(head: string, body: string, c: string, post: string)
    requires 0 < |c| && c[0] == '<' && '<' !in c[1..]
    requires forall k :: !IsAt(body, c, k)
    ensures FirstAny(head + body + c + post, [c], false, |head|) == Some(|head| + |body|)
  {
    var s := head + body + c + post;
    var b := |head|;
    assert s[b..b + |body|] == body && s[b + |body|..b + |body| + |c|] == c;
    FirstAfterFree(s, body, c, b);
  }

  /** The `<` of a tag's opener and closer is their first character only. */
  lemma TagBrackets(tag: string)
    requires '<' !in tag
    ensures var o := "<" + tag + ">"; o[0] == '<' && '<' !in o[1..]
    ensures var c := "</" + tag + ">"; c[0] == '<' && '<' !in c[1..]
  {
    assert ("<" + tag + ">")[1..] == tag + ">";
    assert ("</" + tag + ">")[1..] == "/" + tag + ">";
  }

  /** Partner of FirstLazy for the TypeScript patterns: a document
      `<tag>body</tag>` embedded in text that holds no earlier opener, with
      no closer inside `body`, is cut out exactly. */
  lemma WrappedDocument(pre: string, tag: string, body: string, post: string)
    requires '<' !in tag
    requires forall k :: !IsAt(pre, "<" + tag + ">", k)
    requires forall k :: !IsAt(body, "</" + tag + ">", k)
    ensures var o, c := "<" + tag + ">", "</" + tag + ">";
      FirstLazy(pre + o + body + c + post, Single(tag)) ==
        Some(Span(|pre|, |pre| + |o| + |body| + |c|))
  {
    TagBrackets(tag);
    WrappedLiteral(pre, "<" + tag + ">", body, "</" + tag + ">", post);
  }

  /** The text MatchText cuts out of a wrapped document is the document. */
  lemma WrappedMatchText(pre: string, tag: string, body: string, post: string)
    requires '<' !in tag
    requires forall k :: !IsAt(pre, "<" + tag + ">", k)
    requires forall k :: !IsAt(body, "</" + tag + ">", k)
    ensures var o, c := "<" + tag + ">", "</" + tag + ">";
      MatchText(pre + (o + body + c) + post, Single(tag)) == Some(o + body + c)
  {
    var o, c := "<" + tag + ">", "</" + tag + ">";
    var doc := o + body + c;
    var s := pre + o + body + c + post;
    assert pre + doc + post == s;
    WrappedDocument(pre, tag, body, post);
    assert s[|pre|..|pre| + |doc|] == doc;
  }

  /** The same for any pair of literals whose only `<` is their first
      character. */
  lemma WrappedLiteral(pre: string, o: string, body: string, c: string, post: string)
    requires 0 < |o| && o[0] == '<' && '<' !in o[1..]
    requires 0 < |c| && c[0] == '<' && '<' !in c[1..]
    requires forall k :: !IsAt(pre, o, k)
    requires forall k :: !IsAt(body, c, k)
    ensures FirstLazy(pre + o + body + c + post, Pattern([o], [c], false)) ==
      Some(Span(|pre|, |pre| + |o| + |body| + |c|))
  {
    WrappedOpener(pre, o, body, c, post);
    WrappedCloser(pre + o, body, c, post);
    LazyFromParts(pre + o + body + c + post, o, c, |pre|, |pre| + |o| + |body|);
  }

  /** Text without the first character of `w`, followed by `w`: that is the
      first occurrence of `w`, overlapping or not. */
  lemma FirstAfterCharFree(s: string, pre: string, w: string, from: nat)
    requires 0 < |w|
    requires from + |pre| + |w| <= |s| && s[from..from + |pre|] == pre
    requires s[from + |pre|..from + |pre| + |w|] == w
    requires w[0] !in pre
    ensures FirstAny(s, [w], false, from) == Some(from + |pre|)
  {
    AnyAtSingle(s, w, from + |pre|);
    forall m | from <= m < from + |pre|
      ensures !AnyAt(s, [w], false, m)
    {
      AnyAtSingle(s, w, m);
      assert s[m] == s[from..from + |pre|][m - from];
    }
    FirstAnyAt(s, [w], false, from, from + |pre|);
  }

  /** Partner of FirstLazy for delimiters that may overlap themselves (such
      as a markdown fence): when the text before the opener lacks the
      opener's first character and the body lacks the closer's, the
      document is cut out exactly. */
  lemma WrappedCharFree(pre: string, o: string, body: string, c: string, post: string)
    requires 0 < |o| && 0 < |c|
    requires o[0] !in pre && c[0] !in body
    ensures FirstLazy(pre + o + body + c + post, Pattern([o], [c], false)) ==
      Some(Span(|pre|, |pre| + |o| + |body| + |c|))
  {
    CharFreeOpener(pre, o, body, c, post);
    CharFreeCloser(pre + o, body, c, post);
    LazyFromParts(pre + o + body + c + post, o, c, |pre|, |pre| + |o| + |body|);
  }

  /** FirstLazy of a single-literal pattern from its opener and closer. */
  lemma LazyFromParts(s: string, o: string, c: string, i: nat, j: nat)
    requires 0 < |o| && 0 < |c|
    requires FirstAny(s, [o], false, 0) == Some(i)
    requires FirstAny(s, [c], false, i + |o|) == Some(j)
    ensures FirstLazy(s, Pattern([o], [c], false)) == Some(Span(i, j + |c|))
  {
    FirstLazyFrom(s, Pattern([o], [c], false), i, j);
  }

  lemma CharFreeOpener(pre: string, o: string, body: string, c: string, post: string)
    requires 0 < |o| && o[0] !in pre
    ensures FirstAny(pre + o + body + c + post, [o], false, 0) == Some(|pre|)
  {
    var s := pre + o + body + c + post;
    assert s[0..|pre|] == pre && s[|pre|..|pre| + |o|] == o;
    FirstAfterCharFree(s, pre, o, 0);
  }

  lemma CharFreeCloser(head: string, body: string, c: string, post: string)
    requires 0 < |c| && c[0] !in body
    ensures FirstAny(head + body + c + post, [c], false, |head|) == Some(|head| + |body|)
  {
    var s := head + body + c + post;
    var b := |head|;
    assert s[b..b + |body|] == body && s[b + |body|..b + |body| + |c|] == c;
    FirstAfterCharFree(s, body, c, b);
  }

  /** With no occurrence of the single opener there is no match. */
  lemma NoOpenerNoMatch(s: string, o: string, c: string)
    requires 0 < |o| && 0 < |c|
    requires forall k :: !IsAt(s, o, k)
    ensures FirstLazy(s, Pattern([o], [c], false)).None?
  {
    var first := FirstAny(s, [o], false, 0);
    FirstAnyLeftmost(s, [o], false, 0);
    if first.Some? {
      AnyAtSingle(s, o, first.value);
    }
  }
}
