/** The element tree that an XML parser hands back, and the queries the
    program runs over it: the DOM's `querySelector`, `querySelectorAll`,
    `getAttribute` and `textContent` (TypeScript), and ElementTree's `find`,
    `findall('.//x')`, `get` and `.text` (Python). The parsers themselves
    (DOMParser, `ET.fromstring`) are not modelled: the routes and dashboards
    take them as parameters. Adjacent text is assumed merged into one `Text`
    node, as both parsers present it. */
module XmlTree {
  import opened Wrappers

  datatype Node =
    | Element(name: string, attrs: seq<(string, string)>, children: seq<Node>)
    | Text(text: string)

  predicate IsElementNamed(n: Node, name: string) {
    n.Element? && n.name == name
  }

  /** The value of the first attribute called `a`, if any. */
  function AttrIn(attrs: seq<(string, string)>, a: string): (r: Option<string>)
    ensures r.None? <==> forall i :: 0 <= i < |attrs| ==> attrs[i].0 != a
    ensures r.Some? ==> exists i :: 0 <= i < |attrs| && attrs[i] == (a, r.value)
  {
    if |attrs| == 0 then None
    else if attrs[0].0 == a then Some(attrs[0].1)
    else
      var r := AttrIn(attrs[1..], a);
      assert forall i :: 1 <= i < |attrs| ==> attrs[i] == attrs[1..][i - 1];
      r
  }

  /** DOM `el.getAttribute(a)` and ElementTree `el.get(a)`: None for a text
      node or a missing attribute. */
  function Attr(n: Node, a: string): Option<string> {
    if n.Element? then AttrIn(n.attrs, a) else None
  }

  /** DOM `textContent`: every descendant text, in document order. */
  function TextContent(n: Node): string
    decreases n, 1
  {
    match n
    case Text(t) => t
    case Element(_, _, cs) => TextContentOf(cs)
  }

  function TextContentOf(cs: seq<Node>): string
    decreases cs, 0
  {
    if |cs| == 0 then "" else TextContent(cs[0]) + TextContentOf(cs[1..])
  }

  /** DOM `el.querySelectorAll(name)` and ElementTree `el.findall('.//name')`:
      the descendant elements called `name` (the element itself excluded), in
      document order. */
  function QueryAll(n: Node, name: string): (r: seq<Node>)
    ensures forall i :: 0 <= i < |r| ==> IsElementNamed(r[i], name)
    decreases n, 1
  {
    match n
    case Text(_) => []
    case Element(_, _, cs) => QueryAllOf(cs, name)
  }

  /** The elements called `name` among `cs` and their descendants, in
      document order. */
  function QueryAllOf(cs: seq<Node>, name: string): (r: seq<Node>)
    ensures forall i :: 0 <= i < |r| ==> IsElementNamed(r[i], name)
    decreases cs, 0
  {
    if |cs| == 0 then []
    else
      (if IsElementNamed(cs[0], name) then [cs[0]] else [])
      + QueryAll(cs[0], name) + QueryAllOf(cs[1..], name)
  }

  /** DOM `el.querySelector(name)`: the first of `QueryAll`. */
  function Query(n: Node, name: string): (r: Option<Node>)
    ensures r.Some? ==> IsElementNamed(r.value, name)
  {
    var all := QueryAll(n, name);
    if |all| > 0 then Some(all[0]) else None
  }

  /** `xmlDoc.querySelectorAll(name)` on a document: the root counts too. */
  function DocQueryAll(root: Node, name: string): (r: seq<Node>)
    ensures forall i :: 0 <= i < |r| ==> IsElementNamed(r[i], name)
  {
    QueryAllOf([root], name)
  }

  /** `xmlDoc.querySelector(name)` on a document. */
  function DocQuery(root: Node, name: string): (r: Option<Node>)
    ensures r.Some? ==> IsElementNamed(r.value, name)
  {
    var all := DocQueryAll(root, name);
    if |all| > 0 then Some(all[0]) else None
  }

  // ---------------------------------------------------------------------
  // The queries against document order

  /** Every proper descendant of `n`, each node before its own descendants
      and before its later siblings: document order. */
  function Descendants(n: Node): seq<Node>
    decreases n, 1
  {
    match n
    case Text(_) => []
    case Element(_, _, cs) => DescendantsOf(cs)
  }

  /** The nodes `cs` with their descendants, in document order. */
  function DescendantsOf(cs: seq<Node>): seq<Node>
    decreases cs, 0
  {
    if |cs| == 0 then [] else [cs[0]] + Descendants(cs[0]) + DescendantsOf(cs[1..])
  }

  /** `x` lies strictly below `n`: it is a child of `n` or below one. */
  ghost predicate Below(x: Node, n: Node)
    decreases n
  {
    n.Element? && exists i :: 0 <= i < |n.children| && (n.children[i] == x || Below(x, n.children[i]))
  }

  /** The elements called `name` among `ns`, in their order. */
  function NamedAmong(ns: seq<Node>, name: string): (r: seq<Node>)
    ensures |r| <= |ns|
  {
    if |ns| == 0 then []
    else (if IsElementNamed(ns[0], name) then [ns[0]] else []) + NamedAmong(ns[1..], name)
  }

  /** Selecting the named elements distributes over concatenation. */
  lemma {:induction false} NamedAmongConcat(a: seq<Node>, b: seq<Node>, name: string)
    ensures NamedAmong(a + b, name) == NamedAmong(a, name) + NamedAmong(b, name)
    decreases |a|
  {
    if |a| == 0 {
      assert a + b == b;
    } else {
      var head := if IsElementNamed(a[0], name) then [a[0]] else [];
      assert (a + b)[0] == a[0] && (a + b)[1..] == a[1..] + b;
      assert NamedAmong(a + b, name) == head + NamedAmong(a[1..] + b, name);
      NamedAmongConcat(a[1..], b, name);
      assert NamedAmong(a, name) == head + NamedAmong(a[1..], name);
    }
  }

  /** A node is selected exactly when it occurs and carries the name. */
  lemma {:induction false} NamedAmongMember(ns: seq<Node>, name: string, x: Node)
    ensures x in NamedAmong(ns, name) <==> x in ns && IsElementNamed(x, name)
    decreases |ns|
  {
    if |ns| > 0 {
      NamedAmongMember(ns[1..], name, x);
      assert x in ns <==> x == ns[0] || x in ns[1..];
    }
  }

  /** The first selected node is the first named node of `ns`; nothing is
      selected exactly when no node of `ns` is named. */
  lemma {:induction false} NamedAmongFirst(ns: seq<Node>, name: string)
    ensures |NamedAmong(ns, name)| == 0 <==> forall j :: 0 <= j < |ns| ==> !IsElementNamed(ns[j], name)
    ensures |NamedAmong(ns, name)| > 0 ==>
              exists k :: 0 <= k < |ns| && ns[k] == NamedAmong(ns, name)[0] &&
                          forall j :: 0 <= j < k ==> !IsElementNamed(ns[j], name)
    decreases |ns|
  {
    if |ns| > 0 {
      NamedAmongFirst(ns[1..], name);
      if !IsElementNamed(ns[0], name) {
        assert forall j :: 1 <= j < |ns| ==> ns[j] == ns[1..][j - 1];
        if |NamedAmong(ns, name)| > 0 {
          var k :| 0 <= k < |ns[1..]| && ns[1..][k] == NamedAmong(ns[1..], name)[0] &&
                   forall j :: 0 <= j < k ==> !IsElementNamed(ns[1..][j], name);
          assert ns[k + 1] == NamedAmong(ns, name)[0];
        }
      }
    }
  }

  /** `QueryAll` is the named elements among the descendants, in document
      order, each occurrence once. */
  lemma {:induction false} QueryAllInOrder(n: Node, name: string)
    ensures QueryAll(n, name) == NamedAmong(Descendants(n), name)
    decreases n, 1
  {
    match n
    case Text(_) =>
    case Element(_, _, cs) => QueryAllOfInOrder(cs, name);
  }

  lemma {:induction false} QueryAllOfInOrder(cs: seq<Node>, name: string)
    ensures QueryAllOf(cs, name) == NamedAmong(DescendantsOf(cs), name)
    decreases cs, 0
  {
    if |cs| > 0 {
      QueryAllInOrder(cs[0], name);
      QueryAllOfInOrder(cs[1..], name);
      NamedAmongConcat([cs[0]] + Descendants(cs[0]), DescendantsOf(cs[1..]), name);
      NamedAmongConcat([cs[0]], Descendants(cs[0]), name);
      assert [cs[0]][1..] == [];
    }
  }

  /** The descendants are exactly the nodes below. */
  lemma {:induction false} DescendantsBelow(n: Node, x: Node)
    ensures x in Descendants(n) <==> Below(x, n)
    decreases n, 1
  {
    match n
    case Text(_) =>
    case Element(_, _, cs) => DescendantsOfBelow(cs, x);
  }

  lemma {:induction false} DescendantsOfBelow(cs: seq<Node>, x: Node)
    ensures x in DescendantsOf(cs) <==> exists i :: 0 <= i < |cs| && (cs[i] == x || Below(x, cs[i]))
    decreases cs, 0
  {
    if |cs| > 0 {
      DescendantsBelow(cs[0], x);
      DescendantsOfBelow(cs[1..], x);
      if exists i :: 0 <= i < |cs| && (cs[i] == x || Below(x, cs[i])) {
        var i :| 0 <= i < |cs| && (cs[i] == x || Below(x, cs[i]));
        if i > 0 {
          assert cs[1..][i - 1] == cs[i];
        }
      }
      if exists i :: 0 <= i < |cs[1..]| && (cs[1..][i] == x || Below(x, cs[1..][i])) {
        var i :| 0 <= i < |cs[1..]| && (cs[1..][i] == x || Below(x, cs[1..][i]));
        assert cs[i + 1] == cs[1..][i];
      }
    }
  }

  /** `QueryAll` finds every element called `name` inside `n`, and nothing
      else. */
  lemma QueryAllMembers(n: Node, name: string, x: Node)
    ensures x in QueryAll(n, name) <==> IsElementNamed(x, name) && Below(x, n)
  {
    QueryAllInOrder(n, name);
    NamedAmongMember(Descendants(n), name, x);
    DescendantsBelow(n, x);
  }

  /** `Query` is the first named element in document order, and None only
      when no element inside `n` carries the name. */
  lemma QueryFirst(n: Node, name: string)
    ensures Query(n, name).None? <==> forall x :: Below(x, n) ==> !IsElementNamed(x, name)
    ensures Query(n, name).Some? ==>
              exists k :: 0 <= k < |Descendants(n)| && Descendants(n)[k] == Query(n, name).value &&
                          forall j :: 0 <= j < k ==> !IsElementNamed(Descendants(n)[j], name)
  {
    QueryAllInOrder(n, name);
    NamedAmongFirst(Descendants(n), name);
    forall x | Below(x, n) && IsElementNamed(x, name)
      ensures Query(n, name).Some?
    {
      QueryAllMembers(n, name, x);
    }
    if Query(n, name).Some? {
      QueryAllMembers(n, name, Query(n, name).value);
    }
  }

  /** On a document the root itself is a candidate, ahead of its
      descendants. */
  lemma DocQueryAllInOrder(root: Node, name: string)
    ensures DocQueryAll(root, name) == NamedAmong([root] + Descendants(root), name)
  {
    QueryAllOfInOrder([root], name);
    assert DescendantsOf([root][1..]) == [];
    assert [root] + Descendants(root) + [] == [root] + Descendants(root);
  }

  /** `DocQuery` is the root when it is named, else `Query` on the root. */
  lemma DocQueryFirst(root: Node, name: string)
    ensures IsElementNamed(root, name) ==> DocQuery(root, name) == Some(root)
    ensures !IsElementNamed(root, name) ==> DocQuery(root, name) == Query(root, name)
  {
    DocQueryAllInOrder(root, name);
    QueryAllInOrder(root, name);
    assert ([root] + Descendants(root))[1..] == Descendants(root);
  }

  /** ElementTree `el.find(name)`: the first CHILD element called `name`. */
  function FindChild(n: Node, name: string): (r: Option<Node>)
    ensures r.Some? ==> n.Element? && IsElementNamed(r.value, name) && r.value in n.children
    ensures r.None? && n.Element? ==> forall c :: c in n.children ==> !IsElementNamed(c, name)
    ensures r.Some? ==> exists i :: 0 <= i < |n.children| && n.children[i] == r.value &&
                                    forall j :: 0 <= j < i ==> !IsElementNamed(n.children[j], name)
  {
    if n.Text? then None else FindChildIn(n.children, name)
  }

  /** The first element called `name` among `cs`. */
  function FindChildIn(cs: seq<Node>, name: string): (r: Option<Node>)
    ensures r.Some? ==> IsElementNamed(r.value, name) && r.value in cs
    ensures r.Some? ==> exists i :: 0 <= i < |cs| && cs[i] == r.value &&
                                    forall j :: 0 <= j < i ==> !IsElementNamed(cs[j], name)
    ensures r.None? ==> forall c :: c in cs ==> !IsElementNamed(c, name)
  {
    if |cs| == 0 then None
    else if IsElementNamed(cs[0], name) then Some(cs[0])
    else
      var r := FindChildIn(cs[1..], name);
      assert forall c :: c in cs ==> c == cs[0] || c in cs[1..];
      if r.Some? then
        var i :| 0 <= i < |cs[1..]| && cs[1..][i] == r.value &&
                 forall j :: 0 <= j < i ==> !IsElementNamed(cs[1..][j], name);
        assert cs[i + 1] == r.value;
        assert forall j :: 0 <= j < i + 1 ==> !IsElementNamed(cs[j], name) by {
          forall j | 0 <= j < i + 1
            ensures !IsElementNamed(cs[j], name)
          {
            if j > 0 {
              assert cs[j] == cs[1..][j - 1];
            }
          }
        }
        r
      else r
  }

  /** ElementTree `el.text`: the text before the first child element, None
      when there is none. */
  function LeadingText(n: Node): (r: Option<string>)
    ensures r.Some? ==> r.value != ""
  {
    if n.Element? && |n.children| > 0 && n.children[0].Text? && n.children[0].text != ""
    then Some(n.children[0].text)
    else None
  }
}
