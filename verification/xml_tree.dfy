/** The slice of an XML document tree (libxml2's DOM) that the Asset Map walk
    looks at, with the tree queries it uses. Nodes are immutable values that
    hold their children in document order; there are no parent pointers, so
    "the next element sibling" is the next element of the parent's
    `children`. */
module XmlTree {
  import opened Results

  /** The node types the walk distinguishes (libxml2's xmlElementType, reduced). */
  datatype Kind = Element | Text | CData | Comment | Other

  /** `name` is the tag of an element; `text` is the character data of a
      text, CDATA or comment node. */
  datatype Node = Node(kind: Kind, name: string, text: string, children: seq<Node>)

  /** av_tolower: only the ASCII letters A-Z are folded. */
  function LowerAscii(ch: char): char
  {
    if 'A' <= ch <= 'Z' then (ch as int + 32) as char else ch
  }

  function Lower(s: string): (r: string)
    ensures |r| == |s|
    ensures forall i :: 0 <= i < |s| ==> r[i] == LowerAscii(s[i])
  {
    seq(|s|, i requires 0 <= i < |s| => LowerAscii(s[i]))
  }

  /** `av_strcasecmp(a, b) == 0`: equal after ASCII lower-casing. */
  predicate SameIgnoringCase(a: string, b: string)
  {
    Lower(a) == Lower(b)
  }

  /** Two names match ignoring case exactly when they have the same length and
      agree letter by letter once each letter is folded to lower case. */
  lemma SameIgnoringCaseLetterwise(a: string, b: string)
    ensures SameIgnoringCase(a, b) <==>
      |a| == |b| && forall i :: 0 <= i < |a| ==> LowerAscii(a[i]) == LowerAscii(b[i])
  {
  }

  predicate IsElementNamed(n: Node, name: string)
  {
    n.kind == Element && n.name == name
  }

  /** `n` is the first element of `cs` whose tag is exactly `name`. */
  predicate IsFirstNamed(cs: seq<Node>, name: string, n: Node)
  {
    exists k :: 0 <= k < |cs| && cs[k] == n && IsElementNamed(n, name) &&
      forall j :: 0 <= j < k ==> !IsElementNamed(cs[j], name)
  }

  /** Index of the first element in `cs` whose tag is exactly `name`. */
  function FindNamed(cs: seq<Node>, name: string): (r: Option<nat>)
    ensures r.Some? ==> r.value < |cs| && IsElementNamed(cs[r.value], name)
    ensures r.Some? ==> forall j :: 0 <= j < r.value ==> !IsElementNamed(cs[j], name)
    ensures r.None? <==> forall j :: 0 <= j < |cs| ==> !IsElementNamed(cs[j], name)
  {
    if cs == [] then None
    else if IsElementNamed(cs[0], name) then Some(0)
    else match FindNamed(cs[1..], name)
      case None => None
      case Some(k) => Some(k + 1)
  }

  /** xml_get_child_element_by_name: the first direct element child of
      `parent` whose tag is `name`, or NULL. */
  function ChildElementByName(parent: Node, name: string): (r: Option<Node>)
    ensures r.Some? ==> IsFirstNamed(parent.children, name, r.value)
    ensures forall n :: IsFirstNamed(parent.children, name, n) ==> r == Some(n)
    ensures r.None? <==> forall j :: 0 <= j < |parent.children| ==> !IsElementNamed(parent.children[j], name)
  {
    match FindNamed(parent.children, name)
    case None => None
    case Some(k) => Some(parent.children[k])
  }

  /** ASCII case-insensitive comparison is an equivalence: names compare
      the same in either order, and agreement carries over. */
  lemma SameIgnoringCaseIsEquivalence(a: string, b: string, c: string)
    ensures SameIgnoringCase(a, a)
    ensures SameIgnoringCase(a, b) ==> SameIgnoringCase(b, a)
    ensures SameIgnoringCase(a, b) && SameIgnoringCase(b, c) ==> SameIgnoringCase(a, c)
  {
  }

  /** Nodes after the first match never change which child is found. */
  lemma {:induction false} FindNamedIgnoresLaterNodes(cs: seq<Node>, extra: seq<Node>, name: string)
    requires FindNamed(cs, name).Some?
    ensures FindNamed(cs + extra, name) == FindNamed(cs, name)
  {
    var k := FindNamed(cs, name).value;
    assert (cs + extra)[k] == cs[k];
    assert forall j :: 0 <= j < |cs| ==> (cs + extra)[j] == cs[j];
  }

  /** The element children of a node in document order: the sequence
      xmlFirstElementChild / xmlNextElementSibling enumerate. */
  function ElementChildren(cs: seq<Node>): (r: seq<Node>)
    ensures |r| <= |cs|
    ensures forall n :: n in r <==> n in cs && n.kind == Element
  {
    if cs == [] then []
    else (if cs[0].kind == Element then [cs[0]] else []) + ElementChildren(cs[1..])
  }

  /** xmlNodeGetContent: the character data of the text and CDATA nodes below
      `n`, concatenated in document order (comments contribute nothing). */
  function TextContent(n: Node): string
    decreases n, 1, 0
  {
    match n.kind
    case Text => n.text
    case CData => n.text
    case Element => ChildrenText(n, 0)
    case Comment => ""
    case Other => ""
  }

  function ChildrenText(n: Node, i: nat): string
    requires i <= |n.children|
    decreases n, 0, |n.children| - i
  {
    if i == |n.children| then "" else TextContent(n.children[i]) + ChildrenText(n, i + 1)
  }

  /** The children text from position i onwards, with one more child at the
      end, is followed by that child's content. */
  lemma {:induction false} ChildrenTextAppend(n: Node, extra: Node, i: nat)
    requires i <= |n.children|
    ensures ChildrenText(n.(children := n.children + [extra]), i) == ChildrenText(n, i) + TextContent(extra)
    decreases |n.children| - i
  {
    var n' := n.(children := n.children + [extra]);
    if i == |n.children| {
      assert n'.children[i] == extra;
      assert ChildrenText(n', i + 1) == "";
    } else {
      assert n'.children[i] == n.children[i];
      ChildrenTextAppend(n, extra, i + 1);
    }
  }

  /** A child appended to an element adds its own content after the content
      the element already had; a comment child therefore adds nothing. */
  lemma AppendedChildExtendsText(n: Node, extra: Node)
    requires n.kind == Element
    ensures TextContent(n.(children := n.children + [extra])) == TextContent(n) + TextContent(extra)
    ensures extra.kind == Comment ==> TextContent(n.(children := n.children + [extra])) == TextContent(n)
  {
    ChildrenTextAppend(n, extra, 0);
  }

  /** Enumerating the element children of two runs of siblings one after the
      other gives the element children of the first run, then of the second:
      the filter keeps document order. */
  lemma {:induction false} ElementChildrenAppend(a: seq<Node>, b: seq<Node>)
    ensures ElementChildren(a + b) == ElementChildren(a) + ElementChildren(b)
    decreases |a|
  {
    if a == [] {
      assert a + b == b;
    } else {
      assert (a + b)[0] == a[0];
      assert (a + b)[1..] == a[1..] + b;
      ElementChildrenAppend(a[1..], b);
    }
  }
}
