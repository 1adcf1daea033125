/** An HTML fragment as the parser leaves it: a tree of elements and text
    runs. Tokenising markup into this tree is the HTML library's job and is
    not part of this model; the functions here are the two tree queries the
    description decomposer uses, `get_text` and `find_all`. */
module Html {

  /** An element with its tag name, attributes and children, or a text run. */
  datatype Node =
    | Element(name: string, attrs: map<string, string>, children: seq<Node>)
    | TextNode(text: string)

  /** `n` is an element with tag name `name`. */
  predicate IsNamed(n: Node, name: string) {
    n.Element? && n.name == name
  }

  /** `n` is an element carrying attribute `key`. This is how the model reads
      the source's `key in tag` test: as presence of an attribute key, the
      meaning its doc comment and its tests (tags mocked as dictionaries)
      give it. */
  predicate HasAttr(n: Node, key: string) {
    n.Element? && key in n.attrs
  }

  /** `get_text("", strip=False)`: every text run inside `n`, concatenated in
      document order with nothing inserted between runs. */
  function GetText(n: Node): string
    decreases n
  {
    match n
    case TextNode(s) => s
    case Element(_, _, cs) => GetTextAll(cs)
  }

  function GetTextAll(ns: seq<Node>): string
    decreases ns
  {
    if ns == [] then "" else GetText(ns[0]) + GetTextAll(ns[1..])
  }

  /** All proper descendants of `n`, in document (pre-)order. */
  function Descendants(n: Node): seq<Node>
    decreases n
  {
    match n
    case TextNode(_) => []
    case Element(_, _, cs) => DescendantsAll(cs)
  }

  /** Each node of `ns` followed by its own descendants, in order. */
  function DescendantsAll(ns: seq<Node>): seq<Node>
    decreases ns
  {
    if ns == [] then [] else [ns[0]] + Descendants(ns[0]) + DescendantsAll(ns[1..])
  }

  /** The elements of `ns` named `name`, in order. */
  function OnlyNamed(ns: seq<Node>, name: string): (r: seq<Node>)
    ensures forall i :: 0 <= i < |r| ==> IsNamed(r[i], name)
    ensures |r| <= |ns|
  {
    if ns == [] then []
    else (if IsNamed(ns[0], name) then [ns[0]] else []) + OnlyNamed(ns[1..], name)
  }

  /** The concatenated text of the text runs among `ns`. */
  function Texts(ns: seq<Node>): string {
    if ns == [] then "" else (if ns[0].TextNode? then ns[0].text else "") + Texts(ns[1..])
  }

  /** `n.find_all(name)`: the descendants of `n` named `name`, in document
      order; `n` itself is never among them. */
  function FindAll(n: Node, name: string): (r: seq<Node>)
    ensures forall i :: 0 <= i < |r| ==> IsNamed(r[i], name)
    decreases n
  {
    match n
    case TextNode(_) => []
    case Element(_, _, cs) => FindAllIn(cs, name)
  }

  function FindAllIn(ns: seq<Node>, name: string): (r: seq<Node>)
    ensures forall i :: 0 <= i < |r| ==> IsNamed(r[i], name)
    decreases ns
  {
    if ns == [] then []
    else (if IsNamed(ns[0], name) then [ns[0]] else []) + FindAll(ns[0], name) + FindAllIn(ns[1..], name)
  }

  /** Finding among a single node: the node itself if it has the name, then
      its own matches. */
  lemma FindAllInSingle(n: Node, name: string)
    ensures FindAllIn([n], name) == (if IsNamed(n, name) then [n] else []) + FindAll(n, name)
  {
    assert [n][1..] == [];
  }

  lemma {:induction false} OnlyNamedAppend(a: seq<Node>, b: seq<Node>, name: string)
    ensures OnlyNamed(a + b, name) == OnlyNamed(a, name) + OnlyNamed(b, name)
  {
    if a == [] {
      assert a + b == b;
    } else {
      assert (a + b)[1..] == a[1..] + b;
      OnlyNamedAppend(a[1..], b, name);
    }
  }

  lemma {:induction false} TextsAppend(a: seq<Node>, b: seq<Node>)
    ensures Texts(a + b) == Texts(a) + Texts(b)
  {
    if a == [] {
      assert a + b == b;
    } else {
      assert (a + b)[1..] == a[1..] + b;
      TextsAppend(a[1..], b);
    }
  }

  /** `find_all` agrees with its reference reading: walk all descendants in
      document order and keep those with the wanted name. */
  lemma {:induction false} FindAllIsNamedDescendants(n: Node, name: string)
    ensures FindAll(n, name) == OnlyNamed(Descendants(n), name)
    decreases n
  {
    match n
    case TextNode(_) =>
    case Element(_, _, cs) => FindAllInIsNamedDescendants(cs, name);
  }

  lemma {:induction false} FindAllInIsNamedDescendants(ns: seq<Node>, name: string)
    ensures FindAllIn(ns, name) == OnlyNamed(DescendantsAll(ns), name)
    decreases ns
  {
    if ns != [] {
      var x := ns[0];
      FindAllIsNamedDescendants(x, name);
      FindAllInIsNamedDescendants(ns[1..], name);
      OnlyNamedAppend([x] + Descendants(x), DescendantsAll(ns[1..]), name);
      OnlyNamedAppend([x], Descendants(x), name);
      assert OnlyNamed([x], name) == (if IsNamed(x, name) then [x] else []) by {
        assert [x][1..] == [];
      }
    }
  }

  /** `get_text` agrees with its reference reading: the text runs among the
      descendants, concatenated in document order. */
  lemma {:induction false} GetTextIsDescendantTexts(n: Node)
    requires n.Element?
    ensures GetText(n) == Texts(Descendants(n))
  {
    GetTextAllIsDescendantTexts(n.children);
  }

  lemma {:induction false} GetTextAllIsDescendantTexts(ns: seq<Node>)
    ensures GetTextAll(ns) == Texts(DescendantsAll(ns))
    decreases ns
  {
    if ns != [] {
      var x := ns[0];
      GetTextAllIsDescendantTexts(ns[1..]);
      TextsAppend([x] + Descendants(x), DescendantsAll(ns[1..]));
      TextsAppend([x], Descendants(x));
      assert Texts([x]) == (if x.TextNode? then x.text else "") by {
        assert [x][1..] == [];
      }
      match x
      case TextNode(_) =>
      case Element(_, _, cs) => GetTextAllIsDescendantTexts(cs);
    }
  }
}
