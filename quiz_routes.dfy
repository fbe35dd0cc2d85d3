/** The quiz routes of the Flask backend (web-interface/backend/quiz_routes.py):
    the server-side quiz XML parser, saving a quiz under the next free
    index, listing the saved quizzes, and deleting one. */
module QuizRoutes {
  import opened Wrappers
  import opened Strings
  import opened XmlTree
  import opened TagMatch
  import opened RedisStore
  import opened RequestModels
  import opened Sorting
  import opened SavedItems

  // ---------------------------------------------------------------------
  // parse_quiz_xml

  /** `(<(?:test|quiz)>.*?</(?:test|quiz)>)` with IGNORECASE and DOTALL:
      either opener may pair with either closer. */
  function QuizPattern(): (p: Pattern)
    ensures WellFormed(p) && OpenLen(p) == 6 && CloseLen(p) == 7
  {
    Pattern(["<test>", "<quiz>"], ["</test>", "</quiz>"], true)
  }

  /** The text handed to `ET.fromstring`: the first match, or the whole
      input when nothing matches. */
  function QuizDocumentText(xml: string): string {
    match MatchText(xml, QuizPattern())
    case Some(m) => m
    case None => xml
  }

  datatype QuizOption = QuizOption(text: string, correct: bool)
  datatype QuizQuestion = QuizQuestion(id: string, qtype: string, text: string, options: seq<QuizOption>)
  datatype ParsedQuiz = ParsedQuiz(topic: string, questions: seq<QuizQuestion>)

  /** `e.text.strip() if e is not None and e.text is not None else default`. */
  function StrippedTextOr(e: Option<Node>, default: string): string {
    if e.Some? && LeadingText(e.value).Some? then Trim(LeadingText(e.value).value) else default
  }

  /** One `<option>`, the `idx`-th of its question. Its `correct` attribute
      is compared case-insensitively and a missing one means false. */
  function OptionOf(o: Node, idx: nat): (r: QuizOption)
    ensures r.correct <==> Attr(o, "correct").Some? && Lower(Attr(o, "correct").value) == "true"
    ensures Attr(o, "correct").None? ==> !r.correct
    ensures LeadingText(o).Some? ==> r.text == Trim(LeadingText(o).value)
    ensures LeadingText(o).None? ==> r.text == "Option " + NatToString(idx + 1)
  {
    assert Lower("false") != "true" by { assert Lower("false")[0] == 'f'; }
    QuizOption(
      match LeadingText(o) case Some(t) => Trim(t) case None => "Option " + NatToString(idx + 1),
      Lower(Attr(o, "correct").GetOr("false")) == "true")
  }

  /** The options of a question: every descendant `<option>`, in order. */
  function OptionsOf(q: Node): (r: seq<QuizOption>)
    ensures |r| == |QueryAll(q, "option")|
  {
    OptionList(QueryAll(q, "option"))
  }

  /** `os` read as options numbered from 0 in order. */
  function OptionList(os: seq<Node>): (r: seq<QuizOption>)
    ensures |r| == |os|
  {
    if |os| == 0 then [] else OptionList(os[..|os| - 1]) + [OptionOf(os[|os| - 1], |os| - 1)]
  }

  /** The `i`-th option read is the `i`-th element, numbered `i`. */
  lemma {:induction false} OptionListAt(os: seq<Node>, i: nat)
    requires i < |os|
    ensures OptionList(os)[i] == OptionOf(os[i], i)
  {
    if i < |os| - 1 {
      OptionListAt(os[..|os| - 1], i);
    }
  }

  /** The `idx`-th `<question>`: id `q{idx+1}`, type `unknown` and text
      `No question text` when absent; an attribute that is present but empty
      is kept. */
  function QuestionOf(q: Node, idx: nat): (r: QuizQuestion)
    ensures Attr(q, "id").Some? ==> r.id == Attr(q, "id").value
    ensures Attr(q, "id").None? ==> r.id == "q" + NatToString(idx + 1)
    ensures Attr(q, "type").None? ==> r.qtype == "unknown"
    ensures Attr(q, "type").Some? ==> r.qtype == Attr(q, "type").value
    ensures FindChild(q, "text").None? ==> r.text == "No question text"
    ensures FindChild(q, "text").Some? && LeadingText(FindChild(q, "text").value).None? ==>
      r.text == "No question text"
    ensures FindChild(q, "text").Some? && LeadingText(FindChild(q, "text").value).Some? ==>
      r.text == Trim(LeadingText(FindChild(q, "text").value).value)
    ensures |r.options| == |QueryAll(q, "option")|
  {
    QuizQuestion(
      Attr(q, "id").GetOr("q" + NatToString(idx + 1)),
      Attr(q, "type").GetOr("unknown"),
      StrippedTextOr(FindChild(q, "text"), "No question text"),
      OptionsOf(q))
  }

  /** The quiz read from a parsed root: topic `Untitled Quiz` when the
      `<topic>` child or its text is missing; every descendant `<question>`
      in document order. */
  function QuizOf(root: Node): (r: ParsedQuiz)
    ensures FindChild(root, "topic").None? ==> r.topic == "Untitled Quiz"
    ensures FindChild(root, "topic").Some? && LeadingText(FindChild(root, "topic").value).None? ==>
      r.topic == "Untitled Quiz"
    ensures FindChild(root, "topic").Some? && LeadingText(FindChild(root, "topic").value).Some? ==>
      r.topic == Trim(LeadingText(FindChild(root, "topic").value).value)
    ensures |r.questions| == |QueryAll(root, "question")|
    ensures |r.questions| == 0 <==> forall x :: Below(x, root) ==> !IsElementNamed(x, "question")
  {
    QueryFirst(root, "question");
    ParsedQuiz(
      StrippedTextOr(FindChild(root, "topic"), "Untitled Quiz"),
      QuestionList(QueryAll(root, "question")))
  }

  /** `qs` read as questions numbered from 0 in order. */
  function QuestionList(qs: seq<Node>): (r: seq<QuizQuestion>)
    ensures |r| == |qs|
  {
    if |qs| == 0 then [] else QuestionList(qs[..|qs| - 1]) + [QuestionOf(qs[|qs| - 1], |qs| - 1)]
  }

  /** Reading one more question appends it, numbered by its position. */
  lemma QuestionListPrefix(qs: seq<Node>, i: nat)
    requires i < |qs|
    ensures QuestionList(qs[..i + 1]) == QuestionList(qs[..i]) + [QuestionOf(qs[i], i)]
  {
    assert qs[..i + 1][..i] == qs[..i];
  }

  /** The `i`-th question read is the `i`-th element, numbered `i`. */
  lemma {:induction false} QuestionListAt(qs: seq<Node>, i: nat)
    requires i < |qs|
    ensures QuestionList(qs)[i] == QuestionOf(qs[i], i)
  {
    if i < |qs| - 1 {
      QuestionListAt(qs[..|qs| - 1], i);
    }
  }

  /** The parsed quiz has one question per `<question>` element, in
      document order, the `i`-th numbered `i`. */
  lemma QuizQuestions(root: Node, i: nat)
    requires i < |QueryAll(root, "question")|
    ensures |QuizOf(root).questions| == |QueryAll(root, "question")|
    ensures QuizOf(root).questions[i] == QuestionOf(QueryAll(root, "question")[i], i)
  {
    QuestionListAt(QueryAll(root, "question"), i);
  }

  /** The option loop of parse_quiz_xml. */
  method ParseOptions(q: Node) returns (options: seq<QuizOption>)
    ensures options == OptionsOf(q)
  {
    var os := QueryAll(q, "option");
    options := [];
    var i := 0;
    while i < |os|
      invariant 0 <= i <= |os|
      invariant options == OptionList(os[..i])
    {
      assert os[..i + 1][..i] == os[..i];
      options := options + [OptionOf(os[i], i)];
      i := i + 1;
    }
    assert os[..i] == os;
  }

  /** One pass of the question loop of parse_quiz_xml. */
  method ParseQuestion(q: Node, idx: nat) returns (question: QuizQuestion)
    ensures question == QuestionOf(q, idx)
  {
    var options := ParseOptions(q);
    question := QuizQuestion(
      Attr(q, "id").GetOr("q" + NatToString(idx + 1)),
      Attr(q, "type").GetOr("unknown"),
      StrippedTextOr(FindChild(q, "text"), "No question text"),
      options);
  }

  /** parse_quiz_xml: None is the `ET.ParseError` it re-raises. `parse`
      stands for `ET.fromstring`. */
  method ParseQuizXml(xml: string, parse: string -> Option<Node>) returns (r: Option<ParsedQuiz>)
    ensures r.None? <==> parse(QuizDocumentText(xml)).None?
    ensures r.Some? ==> r.value == QuizOf(parse(QuizDocumentText(xml)).value)
  {
    var doc := parse(QuizDocumentText(xml));
    if doc.None? {
      return None;
    }
    var quiz := ReadQuiz(doc.value);
    r := Some(quiz);
  }

  /** The part of parse_quiz_xml after `ET.fromstring`: the topic, then the
      question loop. */
  method ReadQuiz(root: Node) returns (quiz: ParsedQuiz)
    ensures quiz == QuizOf(root)
  {
    var topic := StrippedTextOr(FindChild(root, "topic"), "Untitled Quiz");
    var qs := QueryAll(root, "question");
    var questions: seq<QuizQuestion> := [];
    var i := 0;
    while i < |qs|
      invariant 0 <= i <= |qs|
      invariant questions == QuestionList(qs[..i])
    {
      QuestionListPrefix(qs, i);
      var question := ParseQuestion(qs[i], i);
      questions := questions + [question];
      i := i + 1;
    }
    assert qs[..i] == qs;
    quiz := ParsedQuiz(topic, questions);
  }

  /** The extraction pattern pairs any opener with any closer, whatever
      their case: `<TEST>...</quiz>` is cut out as one document. */
  lemma MismatchedRootAccepted()
    ensures QuizDocumentText("<TEST>q</quiz>!") == "<TEST>q</quiz>"
  {
    var s := "<TEST>q</quiz>!";
    var p := QuizPattern();
    LowerIs(s[0..6], "<test>");
    assert IsAtFold(s, p.opens[0], true, 0);
    assert FirstAny(s, p.opens, true, 0) == Some(0);
    LowerIs(s[7..14], "</quiz>");
    assert IsAtFold(s, p.closes[1], true, 7);
    LowerAt(s[6..13], 0);
    assert !AnyAt(s, p.closes, true, 6);
    assert FirstAny(s, p.closes, true, 6) == Some(7);
  }

  /** An option marked `correct="TRUE"` counts as correct here. */
  lemma UpperCaseTrueIsCorrect()
    ensures OptionOf(Element("option", [("correct", "TRUE")], [Text("4")]), 0).correct
  {
    var o := Element("option", [("correct", "TRUE")], [Text("4")]);
    assert Attr(o, "correct") == Some("TRUE");
    LowerTrue();
  }

  lemma LowerTrue()
    ensures Lower("TRUE") == "true"
  {
    LowerIs("TRUE", "true");
  }

  // ---------------------------------------------------------------------
  // save_quiz

  /** The index of a quiz key: the integer third part of a key with exactly
      three `:`-separated parts; None for every other key. */
  function QuizKeyIndex(key: string): (r: Option<int>)
    ensures r.Some? ==> exists a, b, d :: (':' !in a && ':' !in b && ':' !in d &&
                                          key == a + [':'] + b + [':'] + d && ParseInt(d) == r)
    ensures ':' !in key ==> r.None?
  {
    var parts := Split(key, ':');
    if |parts| == 3 then
      JoinSplit(key, ':');
      assert parts[1..][0] == parts[1] && parts[1..][1..] == parts[2..] && parts[2..][0] == parts[2];
      assert Join(parts[2..], ':') == parts[2];
      assert Join(parts[1..], ':') == parts[1] + [':'] + parts[2];
      assert key == parts[0] + [':'] + parts[1] + [':'] + parts[2];
      ParseInt(parts[2])
    else
      SplitPlain(key, ':');
      None
  }

  /** The key save_quiz writes for index `n`. */
  function NewQuizKey(n: nat): (r: string)
    ensures StartsWith(r, TestsPrefix) && |r| > |TestsPrefix| && AllDigits(r[|TestsPrefix|..])
  {
    StartsWithConcat(TestsPrefix, NatToString(n));
    assert (TestsPrefix + NatToString(n))[|TestsPrefix|..] == NatToString(n);
    TestsPrefix + NatToString(n)
  }

  /** A quiz key splits into `doc`, `brasov-tests` and its suffix. */
  lemma QuizKeySplit(d: string)
    requires ':' !in d
    ensures Split(TestsPrefix + d, ':') == ["doc", "brasov-tests", d]
  {
    var a, b := "doc", "brasov-tests";
    assert ':' !in a && ':' !in b;
    SplitThree(a, b, d, ':');
    TestsPrefixFields();
  }

  lemma TestsPrefixFields()
    ensures "doc" + [':'] + "brasov-tests" + [':'] == TestsPrefix
  {
  }

  /** The key written for index `n` has index `n` again. */
  lemma NewQuizKeyIndex(n: nat)
    ensures QuizKeyIndex(NewQuizKey(n)) == Some(n)
  {
    NatToStringNoChar(n, ':');
    QuizKeySplit(NatToString(n));
    ParseIntOfNat(n);
  }

  /** The key for `highest + 1` is not among the keys the index was taken
      from, so saving never overwrites a quiz. */
  lemma NewQuizKeyFresh(keys: set<string>, highest: int)
    requires IsHighestIndex(keys, QuizKeyIndex, highest)
    ensures NewQuizKey(highest + 1) !in keys
  {
    NewQuizKeyIndex(highest + 1);
  }

  /** `key` is the key save_quiz picks in `data`: the one for one more than
      the highest index in use, which is not yet taken. */
  predicate NextQuizKey(data: map<string, Hash>, key: string, index: int) {
    IsHighestIndex(KeysWithPrefix(data, TestsPrefix), QuizKeyIndex, index - 1) &&
    key == NewQuizKey(index) && key !in data
  }

  /** save_quiz. `now` is `int(time.time())`. 400 for a missing or invalid
      body; otherwise one new hash under `doc:brasov-tests:{highest+1}`. */
  method SaveQuiz(store: Store, body: Option<JsonObject>, now: nat) returns (status: int, key: string, index: int)
    modifies store
    ensures status == 200 || status == 400
    ensures status == 400 <==> !ReadBody(body, SaveRequest).Accepted?
    ensures status == 400 ==> store.data == old(store.data)
    ensures status == 200 ==>
      var req := ReadBody(body, SaveRequest).value;
      NextQuizKey(old(store.data), key, index) &&
      store.data == old(store.data)[key := SavedHash(req.0, req.1, now)]
  {
    var req := ReadBody(body, SaveRequest);
    if !req.Accepted? {
      return 400, "", 0;
    }
    key, index := StoreNewQuiz(store, SavedHash(req.value.0, req.value.1, now));
    status := 200;
  }

  /** The success path of save_quiz: the next free index, then one HSET. */
  method StoreNewQuiz(store: Store, fields: Hash) returns (key: string, index: int)
    modifies store
    ensures NextQuizKey(old(store.data), key, index)
    ensures store.data == old(store.data)[key := fields]
  {
    var keys := store.Keys(TestsPrefix);
    var highest := HighestIndex(keys, QuizKeyIndex);
    NewQuizKeyFresh(keys, highest);
    index := highest + 1;
    key := NewQuizKey(index);
    StartsWithConcat(TestsPrefix, NatToString(index));
    assert key !in store.data;
    store.HSet(key, fields);
    assert map[] + fields == fields;
  }

  // ---------------------------------------------------------------------
  // get_quizzes

  /** get_quizzes as the code evidently intends it: every non-empty quiz
      hash with an integer timestamp, topic `Unnamed Quiz` when absent, once
      each, newest first. */
  method GetQuizzes(store: Store) returns (quizzes: seq<SavedItem>)
    ensures SortedBy(quizzes, NewestFirst)
    ensures multiset(quizzes) == multiset(ListedItems(store.data, KeysWithPrefix(store.data, TestsPrefix), "Unnamed Quiz"))
  {
    quizzes := ListItems(store, TestsPrefix, "Unnamed Quiz");
  }

  // ---------------------------------------------------------------------
  // delete_quiz

  /** The key delete_quiz looks up first: a key already carrying the quiz
      prefix is kept, a bare key without `:` gets the prefix, and any other
      key is used unchanged. */
  function NormaliseQuizKey(key: string): (r: string)
    ensures StartsWith(key, TestsPrefix) ==> r == key
    ensures !StartsWith(key, TestsPrefix) && ':' !in key ==> r == TestsPrefix + key
    ensures !StartsWith(key, TestsPrefix) && ':' in key ==> r == key
  {
    if StartsWith(key, TestsPrefix) then key
    else if ':' !in key then TestsPrefix + key
    else key
  }

  /** Normalising twice changes nothing more. */
  lemma NormaliseQuizKeyIdempotent(key: string)
    ensures NormaliseQuizKey(NormaliseQuizKey(key)) == NormaliseQuizKey(key)
  {
    if !StartsWith(key, TestsPrefix) && ':' !in key {
      assert (TestsPrefix + key)[..|TestsPrefix|] == TestsPrefix;
    }
  }

  /** The fallback key: the legacy prefix and the last `:` segment. */
  function LegacyQuizKey(key: string): (r: string)
    ensures StartsWith(r, LegacyQuizPrefix)
    ensures ':' !in key ==> r == LegacyQuizPrefix + key
  {
    StartsWithConcat(LegacyQuizPrefix, LastSegment(key, ':'));
    LastSegmentWhole(key, ':');
    LegacyQuizPrefix + LastSegment(key, ':')
  }

  /** A bare suffix and any `:`-prefixed key ending in it share one legacy
      key: `doc:brasov-tests:5` and `5` both fall back to
      `brasov-quizzes:5`. */
  lemma LegacyQuizKeySuffix(p: string, key: string)
    requires |p| > 0 && p[|p| - 1] == ':' && ':' !in key
    ensures LegacyQuizKey(p + key) == LegacyQuizKey(key) == LegacyQuizPrefix + key
  {
    LastSegmentAfter(p, key, ':');
  }

  /** The key delete_quiz removes, if any. */
  function QuizKeyToDelete(data: map<string, Hash>, key: string): (r: Option<string>)
    ensures r.Some? ==> r.value in data
    ensures r.None? <==> NormaliseQuizKey(key) !in data && LegacyQuizKey(key) !in data
    ensures NormaliseQuizKey(key) in data ==> r == Some(NormaliseQuizKey(key))
  {
    var primary := NormaliseQuizKey(key);
    if primary in data then Some(primary)
    else if LegacyQuizKey(key) in data then Some(LegacyQuizKey(key))
    else None
  }

  /** delete_quiz: OPTIONS answers 200 without touching the store; a
      missing or invalid body is 400; a key found under its normal or its
      legacy form is deleted (200); otherwise 404 and nothing changes. */
  method DeleteQuiz(store: Store, isOptions: bool, body: Option<JsonObject>) returns (status: int)
    modifies store
    ensures isOptions ==> status == 200 && store.data == old(store.data)
    ensures !isOptions && !ReadBody(body, KeyRequest).Accepted? ==> status == 400 && store.data == old(store.data)
    ensures !isOptions && ReadBody(body, KeyRequest).Accepted? ==>
      match QuizKeyToDelete(old(store.data), ReadBody(body, KeyRequest).value)
      case None => status == 404 && store.data == old(store.data)
      case Some(k) => status == 200 && store.data == old(store.data) - {k}
  {
    if isOptions {
      return 200;
    }
    var req := ReadBody(body, KeyRequest);
    if !req.Accepted? {
      return 400;
    }
    var target := QuizKeyToDelete(store.data, req.value);
    if target.None? {
      return 404;
    }
    store.Delete(target.value);
    status := 200;
  }

  /** A successful deletion removes exactly one existing key. */
  lemma DeleteRemovesOneKey(data: map<string, Hash>, key: string)
    requires QuizKeyToDelete(data, key).Some?
    ensures |data - {QuizKeyToDelete(data, key).value}| == |data| - 1
  {
    var k := QuizKeyToDelete(data, key).value;
    assert (data - {k}).Keys == data.Keys - {k};
  }
}
