/** `FeedParser`: from the feed's `channel` element to a `Feed`. Each `item`
    child becomes a `FeedItem`; its description's markup is decomposed into
    text, image and link-list blocks by a small fixed set of rules. */
module Reader {
  import opened Results
  import opened Strings
  import opened Html
  import opened Models
  import Seqs

  // RSS 2.0 element names.
  const ChannelTag: string := "channel"
  const ItemTag: string := "item"
  const TitleTag: string := "title"
  const LinkTag: string := "link"
  const DescriptionTag: string := "description"

  // HTML element and attribute names the decomposer recognises.
  const ParagraphTag: string := "p"
  const DivTag: string := "div"
  const ImgTag: string := "img"
  const LinksTag: string := "ul"
  const UrlTag: string := "a"
  const ImgUrlAttr: string := "src"
  const LinkRefAttr: string := "href"

  /** An XML element as ElementTree holds it: its tag, its `.text` (absent
      when no character data precedes its first child) and its children. */
  datatype XmlElem = XmlElem(tag: string, text: Option<string>, children: seq<XmlElem>)

  /** What parsing raises instead of returning. */
  datatype ParseError =
    | NoElement(tag: string)  // an attribute read on the `None` a failed lookup of `tag` returned
    | NoMarkup                // the description element has no text to hand to the HTML parser

  // ---------------------------------------------------------------------
  // ElementTree lookups. A bare tag name as a path selects direct children.

  /** The position of the first element of `xs` with tag `tag`, or `|xs|`. */
  function FirstTagged(xs: seq<XmlElem>, tag: string): (k: nat)
    ensures k <= |xs|
    ensures forall j :: 0 <= j < k ==> xs[j].tag != tag
    ensures k < |xs| ==> xs[k].tag == tag
  {
    if xs == [] || xs[0].tag == tag then 0 else 1 + FirstTagged(xs[1..], tag)
  }

  /** `e.find(tag)`: the first child with that tag, if there is one. */
  function Find(e: XmlElem, tag: string): (r: Option<XmlElem>)
    ensures r.None? <==> forall i :: 0 <= i < |e.children| ==> e.children[i].tag != tag
    ensures r.Some? ==> r == Some(e.children[FirstTagged(e.children, tag)])
  {
    var k := FirstTagged(e.children, tag);
    if k < |e.children| then Some(e.children[k]) else None
  }

  /** `e.findall(tag)`: the children with that tag, in document order. */
  function FindChildren(xs: seq<XmlElem>, tag: string): (r: seq<XmlElem>)
    ensures forall i :: 0 <= i < |r| ==> r[i].tag == tag
    ensures forall x :: x in r <==> x in xs && x.tag == tag
    ensures (forall i :: 0 <= i < |xs| ==> xs[i].tag == tag) ==> r == xs
  {
    if xs == [] then []
    else
      assert xs == [xs[0]] + xs[1..];
      (if xs[0].tag == tag then [xs[0]] else []) + FindChildren(xs[1..], tag)
  }

  lemma {:induction false} FindChildrenAppend(a: seq<XmlElem>, b: seq<XmlElem>, tag: string)
    ensures FindChildren(a + b, tag) == FindChildren(a, tag) + FindChildren(b, tag)
  {
    if a == [] {
      assert a + b == b;
    } else {
      assert (a + b)[1..] == a[1..] + b;
      FindChildrenAppend(a[1..], b, tag);
    }
  }

  // ---------------------------------------------------------------------
  // Items and the feed.

  /** `.text` read from the result of a lookup: the text, possibly absent, of
      a found element; reading it from `None` raises. */
  function TextOf(e: Option<XmlElem>, tag: string): (r: Result<Option<string>, ParseError>)
    ensures e.None? <==> r == Fail(NoElement(tag))
    ensures e.Some? ==> r == Ok(e.value.text)
  {
    match e
    case None => Fail(NoElement(tag))
    case Some(x) => Ok(x.text)
  }

  /** `parse_title`: the title element's text, verbatim. */
  function ParseTitle(title: Option<XmlElem>): Result<Option<string>, ParseError> {
    TextOf(title, TitleTag)
  }

  /** `parse_link`: the link element's text, verbatim. */
  function ParseLink(link: Option<XmlElem>): Result<Option<string>, ParseError> {
    TextOf(link, LinkTag)
  }

  /** `parse_description`: the description element's text, parsed by the HTML
      library (`html`) into a fragment whose top-level nodes are decomposed. */
  function ParseDescription(description: Option<XmlElem>, html: string -> seq<Node>): (r: Result<seq<Block>, ParseError>)
    ensures description.None? ==> r == Fail(NoElement(DescriptionTag))
    ensures description.Some? && description.value.text.None? ==> r == Fail(NoMarkup)
    ensures r.Ok? ==> description.Some? && description.value.text.Some?
                      && r.value == Decompose(html(description.value.text.value))
    ensures (description.Some? && description.value.text.Some?) ==>
              r == Ok(Decompose(html(description.value.text.value)))
  {
    match description
    case None => Fail(NoElement(DescriptionTag))
    case Some(x) =>
      match x.text
      case None => Fail(NoMarkup)
      case Some(markup) => Ok(Decompose(html(markup)))
  }

  /** An item can be parsed: it has the three parts, and its description has
      markup. */
  predicate Parsable(item: XmlElem) {
    && Find(item, TitleTag).Some?
    && Find(item, LinkTag).Some?
    && Find(item, DescriptionTag).Some?
    && Find(item, DescriptionTag).value.text.Some?
  }

  /** `parse_item`. Title and link are the texts of the first `title` and
      `link` children, taken verbatim; the description is the decomposition
      of the first `description` child's markup. The three arguments are
      evaluated left to right, so a missing title is reported before a
      missing link, and that before a missing description. */
  function ParseItem(item: XmlElem, html: string -> seq<Node>): (r: Result<FeedItem, ParseError>)
    ensures r.Ok? <==> Parsable(item)
    ensures r.Ok? ==> && r.value.title == Find(item, TitleTag).value.text
                      && r.value.link == Find(item, LinkTag).value.text
                      && r.value.description == Decompose(html(Find(item, DescriptionTag).value.text.value))
    ensures Find(item, TitleTag).None? ==> r == Fail(NoElement(TitleTag))
    ensures Find(item, TitleTag).Some? && Find(item, LinkTag).None? ==> r == Fail(NoElement(LinkTag))
  {
    var title := ParseTitle(Find(item, TitleTag));
    var link := ParseLink(Find(item, LinkTag));
    var description := ParseDescription(Find(item, DescriptionTag), html);
    if title.Fail? then Fail(title.error)
    else if link.Fail? then Fail(link.error)
    else if description.Fail? then Fail(description.error)
    else Ok(FeedItem(title.value, link.value, description.value))
  }

  /** The list comprehension over the `item` elements: each is parsed in
      order, and the first failure is the one raised. It succeeds exactly
      when every item can be parsed; then the i-th result is the i-th item's,
      and otherwise the error is the one of the first item that cannot be. */
  function ParseItems(items: seq<XmlElem>, html: string -> seq<Node>): (r: Result<seq<FeedItem>, ParseError>)
    ensures r.Ok? <==> forall i :: 0 <= i < |items| ==> Parsable(items[i])
    ensures r.Ok? ==> |r.value| == |items|
                      && forall i :: 0 <= i < |items| ==> ParseItem(items[i], html) == Ok(r.value[i])
    ensures r.Fail? ==> exists k :: && 0 <= k < |items|
                                    && (forall j :: 0 <= j < k ==> Parsable(items[j]))
                                    && ParseItem(items[k], html) == Fail(r.error)
  {
    var f := (item: XmlElem) => ParseItem(item, html);
    var r := Traverse(items, f);
    TraverseSucceeds(items, f);
    var k := FirstFailure(items, f);
    assert forall j :: 0 <= j < k ==> f(items[j]).Ok?;
    if r.Ok? then
      TraversePointwise(items, f);
      r
    else
      TraverseFirstError(items, f);
      assert ParseItem(items[k], html) == Fail(r.error);
      r
  }

  /** `parse_feed`: one item per `item` child of the channel, in document
      order. The channel comes from a lookup that may have found nothing; the
      method is then called on `None` and raises. */
  function ParseFeed(channel: Option<XmlElem>, html: string -> seq<Node>): (r: Result<Feed, ParseError>)
    ensures channel.None? ==> r == Fail(NoElement(ChannelTag))
    ensures r.Ok? ==> channel.Some?
                      && |r.value.items| == |FindChildren(channel.value.children, ItemTag)|
                      && forall i :: 0 <= i < |r.value.items| ==>
                           Ok(r.value.items[i]) == ParseItem(FindChildren(channel.value.children, ItemTag)[i], html)
    ensures channel.Some? ==>
              (r.Ok? <==> forall x :: x in channel.value.children && x.tag == ItemTag ==> Parsable(x))
  {
    match channel
    case None => Fail(NoElement(ChannelTag))
    case Some(c) =>
      var items := FindChildren(c.children, ItemTag);
      var parsed := ParseItems(items, html);
      assert forall x :: x in items <==> exists i :: 0 <= i < |items| && items[i] == x;
      if parsed.Fail? then Fail(parsed.error) else Ok(Feed(parsed.value))
  }

  // ---------------------------------------------------------------------
  // The description decomposer.

  /** The paragraph rule's normalisation before the left strip: newlines are
      deleted, no-break spaces and tabs become plain spaces. All three are
      whitespace, so the result is blank exactly when the input is. */
  function Normalise(s: string): (r: string)
    ensures '\n' !in r && '\t' !in r && '\U{A0}' !in r
    ensures AllWs(r) <==> AllWs(s)
  {
    var a := Remove(s, '\n');
    var b := Replace(a, '\U{A0}', ' ');
    var c := Replace(b, '\t', ' ');
    AllWsRemove(s, '\n');
    AllWsReplace(a, '\U{A0}', ' ');
    AllWsReplace(b, '\t', ' ');
    ReplaceDrops(a, '\U{A0}', ' ', '\n');
    ReplaceDrops(b, '\t', ' ', '\n');
    ReplaceDrops(b, '\t', ' ', '\U{A0}');
    ReplaceDrops(b, '\t', ' ', '\t');
    ReplaceDrops(a, '\U{A0}', ' ', '\U{A0}');
    c
  }

  /** After replacing `a` by `b`, a character `x` other than `b` occurs only
      if it occurred before and is not `a`. */
  lemma ReplaceDrops(s: string, a: char, b: char, x: char)
    requires x != b && (x == a || x !in s)
    ensures x !in Replace(s, a, b)
  {
    var r := Replace(s, a, b);
    forall i | 0 <= i < |r| ensures r[i] != x {
      assert r[i] == (if s[i] == a then b else s[i]);
    }
  }

  /** What every emitted text block holds: a non-empty string with no
      newline, tab or no-break space, that does not start with whitespace. */
  predicate WellFormedText(s: string) {
    && s != []
    && '\n' !in s && '\t' !in s && '\U{A0}' !in s
    && !IsWs(s[0])
  }

  /** Every text block among `bs` is well formed. */
  predicate TextsWellFormed(bs: seq<Block>) {
    forall i :: 0 <= i < |bs| ==> bs[i].Text? ==> WellFormedText(bs[i].text)
  }

  lemma TextsWellFormedAppend(a: seq<Block>, b: seq<Block>)
    requires TextsWellFormed(a) && TextsWellFormed(b)
    ensures TextsWellFormed(a + b)
  {
    forall i | 0 <= i < |a + b| && (a + b)[i].Text? ensures WellFormedText((a + b)[i].text) {
      if i < |a| {
        assert (a + b)[i] == a[i];
      } else {
        assert (a + b)[i] == b[i - |a|];
      }
    }
  }

  lemma SingleTextWellFormed(t: string)
    requires WellFormedText(t)
    ensures TextsWellFormed([Text(t)])
  {
  }

  /** Left-stripping a normalised string keeps it free of newlines, tabs and
      no-break spaces; unless it was blank, what is left is well formed. */
  lemma LStripNormalised(n: string)
    requires '\n' !in n && '\t' !in n && '\U{A0}' !in n
    ensures AllWs(LStrip(n)) <==> AllWs(n)
    ensures !AllWs(n) ==> WellFormedText(LStrip(n))
  {
    var t := LStrip(n);
    var k := |n| - |t|;
    AllWsLStrip(n);
    NotInSuffix(n, k, '\n');
    NotInSuffix(n, k, '\t');
    NotInSuffix(n, k, '\U{A0}');
    assert n[k..] == t;
  }

  /** The `p` rule. A paragraph whose flattened text is blank yields nothing;
      any other yields one text block holding the normalised text with its
      leading whitespace stripped (trailing whitespace is kept). */
  function ParagraphBlocks(p: Node): (r: seq<Block>)
    ensures |r| <= 1
    ensures r == [] <==> AllWs(GetText(p))
    ensures r != [] ==> r[0] == Text(LStrip(Normalise(GetText(p))))
    ensures TextsWellFormed(r)
  {
    var g := GetText(p);
    var n := Normalise(g);
    var txt := LStrip(n);
    LStripNormalised(n);
    if Strip(txt) != [] then
      SingleTextWellFormed(txt);
      [Text(txt)]
    else []
  }

  /** The values of attribute `key` on the nodes of `ns` that carry it, in
      order; nodes without it are skipped. */
  function AttrValues(ns: seq<Node>, key: string): (r: seq<string>)
    ensures |r| <= |ns|
    ensures (forall i :: 0 <= i < |ns| ==> !HasAttr(ns[i], key)) ==> r == []
    ensures (forall i :: 0 <= i < |ns| ==> HasAttr(ns[i], key)) ==>
              |r| == |ns| && forall i :: 0 <= i < |ns| ==> r[i] == ns[i].attrs[key]
  {
    if ns == [] then []
    else
      var rest := AttrValues(ns[1..], key);
      if HasAttr(ns[0], key) then
        assert forall i :: 1 <= i < |ns| ==> ns[i] == ns[1..][i - 1];
        [ns[0].attrs[key]] + rest
      else rest
  }

  /** Skipping nodes without the attribute commutes with concatenation, so the
      values keep the document order of their nodes. */
  lemma {:induction false} AttrValuesAppend(a: seq<Node>, b: seq<Node>, key: string)
    ensures AttrValues(a + b, key) == AttrValues(a, key) + AttrValues(b, key)
  {
    if a == [] {
      assert a + b == b;
    } else {
      assert (a + b)[1..] == a[1..] + b;
      AttrValuesAppend(a[1..], b, key);
    }
  }

  /** The `href`s of the anchors inside one list. */
  function ListUrls(ul: Node): seq<string> {
    AttrValues(FindAll(ul, UrlTag), LinkRefAttr)
  }

  function LinksBlocks(uls: seq<Node>): (r: seq<Block>)
    ensures |r| == |uls|
    ensures forall i :: 0 <= i < |uls| ==> r[i] == Links(ListUrls(uls[i]))
  {
    seq(|uls|, i requires 0 <= i < |uls| => Links(ListUrls(uls[i])))
  }

  function ImageBlocks(urls: seq<string>): (r: seq<Block>)
    ensures |r| == |urls|
    ensures forall i :: 0 <= i < |urls| ==> r[i] == Image(urls[i])
  {
    seq(|urls|, i requires 0 <= i < |urls| => Image(urls[i]))
  }

  /** The `div` rule: the image blocks, then the links blocks (their layout
      is `DivBlocksImages` and `DivBlocksLinks`). */
  function DivBlocks(d: Node): (r: seq<Block>)
    ensures |r| == |AttrValues(FindAll(d, ImgTag), ImgUrlAttr)| + |FindAll(d, LinksTag)|
  {
    ImageBlocks(AttrValues(FindAll(d, ImgTag), ImgUrlAttr)) + LinksBlocks(FindAll(d, LinksTag))
  }

  /** A `div` yields first one image block per `img` descendant that carries
      `src`, in document order, ... */
  lemma DivBlocksImages(d: Node)
    ensures var srcs := AttrValues(FindAll(d, ImgTag), ImgUrlAttr);
            forall i :: 0 <= i < |srcs| ==> DivBlocks(d)[i] == Image(srcs[i])
  {
    var srcs := AttrValues(FindAll(d, ImgTag), ImgUrlAttr);
    var a := ImageBlocks(srcs);
    var b := LinksBlocks(FindAll(d, LinksTag));
    assert DivBlocks(d) == a + b;
    forall i | 0 <= i < |srcs| ensures DivBlocks(d)[i] == Image(srcs[i]) {
      assert (a + b)[i] == a[i];
    }
  }

  /** ... then one links block per `ul` descendant, even an empty one,
      holding the `href`s of that list's anchors that carry one. */
  lemma DivBlocksLinks(d: Node)
    ensures var srcs := AttrValues(FindAll(d, ImgTag), ImgUrlAttr);
            var uls := FindAll(d, LinksTag);
            forall j :: 0 <= j < |uls| ==> DivBlocks(d)[|srcs| + j] == Links(ListUrls(uls[j]))
  {
    var srcs := AttrValues(FindAll(d, ImgTag), ImgUrlAttr);
    var uls := FindAll(d, LinksTag);
    var a := ImageBlocks(srcs);
    var b := LinksBlocks(uls);
    assert DivBlocks(d) == a + b;
    forall j | 0 <= j < |uls| ensures DivBlocks(d)[|srcs| + j] == Links(ListUrls(uls[j])) {
      assert (a + b)[|a| + j] == b[j];
    }
  }

  /** A `div` yields no text block. */
  lemma DivBlocksHaveNoText(d: Node)
    ensures forall i :: 0 <= i < |DivBlocks(d)| ==> !DivBlocks(d)[i].Text?
    ensures TextsWellFormed(DivBlocks(d))
  {
    var r := DivBlocks(d);
    var srcs := AttrValues(FindAll(d, ImgTag), ImgUrlAttr);
    DivBlocksImages(d);
    DivBlocksLinks(d);
    forall i | 0 <= i < |r| ensures !r[i].Text? {
      if i < |srcs| {
        assert r[i] == Image(srcs[i]);
      } else {
        assert r[|srcs| + (i - |srcs|)].Links?;
      }
    }
  }

  /** The blocks one top-level node contributes: by the `p` rule, by the
      `div` rule, or none at all for any other node, text runs included. */
  function ChildBlocks(c: Node): (r: seq<Block>)
    ensures TextsWellFormed(r)
    ensures !IsNamed(c, ParagraphTag) && !IsNamed(c, DivTag) ==> r == []
  {
    if IsNamed(c, ParagraphTag) then ParagraphBlocks(c)
    else if IsNamed(c, DivTag) then
      DivBlocksHaveNoText(c);
      DivBlocks(c)
    else []
  }

  /** The decomposition of a fragment: each top-level node's blocks, in
      document order. Every text block it emits is well formed. */
  function Decompose(children: seq<Node>): (r: seq<Block>)
    ensures TextsWellFormed(r)
  {
    if children == [] then []
    else
      var h := ChildBlocks(children[0]);
      var t := Decompose(children[1..]);
      TextsWellFormedAppend(h, t);
      h + t
  }

  /** Decomposition distributes over concatenation of fragments. */
  lemma {:induction false} DecomposeAppend(xs: seq<Node>, ys: seq<Node>)
    ensures Decompose(xs + ys) == Decompose(xs) + Decompose(ys)
  {
    if xs == [] {
      assert xs + ys == ys;
    } else {
      var h := ChildBlocks(xs[0]);
      DecomposeCons(xs[0], xs[1..] + ys);
      Seqs.ConsSplit(xs, ys);
      DecomposeAppend(xs[1..], ys);
      Seqs.Associate(h, Decompose(xs[1..]), Decompose(ys));
    }
  }

  /** One step of the decomposition: a leading node's blocks come first. */
  lemma DecomposeCons(c: Node, rest: seq<Node>)
    ensures Decompose([c] + rest) == ChildBlocks(c) + Decompose(rest)
  {
    assert ([c] + rest)[0] == c;
    assert ([c] + rest)[1..] == rest;
  }

  /** The top-level `p` and `div` elements of a fragment, in order. */
  function BlockSources(children: seq<Node>): (r: seq<Node>)
    ensures forall i :: 0 <= i < |r| ==> IsNamed(r[i], ParagraphTag) || IsNamed(r[i], DivTag)
  {
    if children == [] then []
    else
      (if IsNamed(children[0], ParagraphTag) || IsNamed(children[0], DivTag) then [children[0]] else [])
      + BlockSources(children[1..])
  }

  /** Nodes other than `p` and `div` contribute nothing: dropping them all
      leaves the decomposition unchanged. */
  lemma {:induction false} DecomposeIgnoresOthers(children: seq<Node>)
    ensures Decompose(BlockSources(children)) == Decompose(children)
  {
    if children != [] {
      var c := children[0];
      DecomposeIgnoresOthers(children[1..]);
      if IsNamed(c, ParagraphTag) || IsNamed(c, DivTag) {
        DecomposeAppend([c], BlockSources(children[1..]));
        assert [c][1..] == [];
      } else {
        assert BlockSources(children) == BlockSources(children[1..]);
      }
    }
  }
}
