/** The description pinned by the decomposer's unit test: an empty
    paragraph, a filled paragraph and a `div` holding an image with `src`,
    an image without it, and a list of three anchors of which two carry
    `href`. */
module ReaderCases {
  import opened Strings
  import opened Html
  import opened Models
  import opened Reader
  import Seqs

  const FilledText: string := "abc\n\U{A0}\tdef"
  const FilledResult: string := "abc  def"
  const EmptyText: string := "\n\U{A0}\t"

  function Paragraph(s: string): Node {
    Element(ParagraphTag, map[], [TextNode(s)])
  }

  // The intermediate strings of the normalisation, named so that the
  // solver does not evaluate the string functions on literals.
  const NoNewline: string := "abc\U{A0}\tdef"
  const NoBreakReplaced: string := "abc \tdef"

  lemma RemoveFilled()
    ensures Remove(FilledText, '\n') == NoNewline
  {
    var a, b := "abc", "\U{A0}\tdef";
    assert FilledText == a + ['\n'] + b;
    assert a + b == NoNewline;
    RemoveOnce(a, '\n', b);
  }

  const Abc: string := "abc"
  const TabDef: string := "\tdef"
  const AbcSpace: string := "abc "
  const Def: string := "def"

  lemma NormalisationPieces()
    ensures NoNewline == Abc + ['\U{A0}'] + TabDef
    ensures Abc + [' '] + TabDef == NoBreakReplaced
    ensures NoBreakReplaced == AbcSpace + ['\t'] + Def
    ensures AbcSpace + [' '] + Def == FilledResult
    ensures '\U{A0}' !in Abc && '\U{A0}' !in TabDef
    ensures '\t' !in AbcSpace && '\t' !in Def
  {
  }

  lemma ReplaceNoBreak()
    ensures Replace(NoNewline, '\U{A0}', ' ') == NoBreakReplaced
  {
    NormalisationPieces();
    ReplaceOnce(Abc, '\U{A0}', TabDef, ' ');
  }

  lemma ReplaceTab()
    ensures Replace(NoBreakReplaced, '\t', ' ') == FilledResult
  {
    NormalisationPieces();
    ReplaceOnce(AbcSpace, '\t', Def, ' ');
  }

  lemma NormaliseFilled()
    ensures Normalise(FilledText) == FilledResult
  {
    RemoveFilled();
    ReplaceNoBreak();
    ReplaceTab();
  }

  lemma ParagraphText(s: string)
    ensures GetText(Paragraph(s)) == s
  {
    assert GetTextAll([TextNode(s)]) == s + GetTextAll([]);
  }

  /** A paragraph of one non-blank text run yields one text block. */
  lemma NonBlankParagraph(s: string)
    requires !AllWs(s)
    ensures ParagraphBlocks(Paragraph(s)) == [Text(LStrip(Normalise(s)))]
  {
    ParagraphText(s);
  }

  lemma FilledNotBlank()
    ensures !AllWs(FilledText)
  {
    assert !IsWs(FilledText[0]);
  }

  lemma FilledResultStripped()
    ensures LStrip(FilledResult) == FilledResult
  {
    assert !IsWs(FilledResult[0]);
  }

  /** The filled paragraph becomes one text block: the newline is dropped,
      the no-break space and the tab become two spaces. */
  lemma FilledParagraph()
    ensures ParagraphBlocks(Paragraph(FilledText)) == [Text(FilledResult)]
  {
    FilledNotBlank();
    NonBlankParagraph(FilledText);
    NormaliseFilled();
    FilledResultStripped();
  }

  /** The paragraph of a newline, a no-break space and a tab yields nothing. */
  lemma EmptyParagraph()
    ensures ParagraphBlocks(Paragraph(EmptyText)) == []
  {
    ParagraphText(EmptyText);
    assert AllWs(EmptyText) by {
      assert IsWs(EmptyText[0]) && IsWs(EmptyText[1]) && IsWs(EmptyText[2]);
    }
  }

  const ImageWithSrc: Node := Element(ImgTag, map[ImgUrlAttr := "image_url"], [])
  const ImageWithout: Node := Element(ImgTag, map["test" := "invalid_image_url"], [])
  const Anchor1: Node := Element(UrlTag, map[LinkRefAttr := "link_url_1"], [])
  const Anchor2: Node := Element(UrlTag, map[LinkRefAttr := "link_url_2"], [])
  const Anchor3: Node := Element(UrlTag, map["test" := "invalid_link_url"], [])
  const List: Node := Element(LinksTag, map[], [Anchor1, Anchor2, Anchor3])
  const Div: Node := Element(DivTag, map[], [ImageWithSrc, ImageWithout, List])

  /** An element without children has no descendants to find. */
  lemma LeafFindAll(n: Node, name: string)
    requires n.Element? && n.children == []
    ensures FindAll(n, name) == []
  {
  }

  /** Finding over one childless element: itself if it has the name. */
  lemma LeafFindAllIn(n: Node, rest: seq<Node>, name: string)
    requires n.Element? && n.children == []
    ensures FindAllIn([n] + rest, name) == (if n.name == name then [n] else []) + FindAllIn(rest, name)
  {
    LeafFindAll(n, name);
    assert ([n] + rest)[0] == n && ([n] + rest)[1..] == rest;
  }

  /** Over childless elements, finding is filtering by name. */
  lemma {:induction false} LeavesFind(ns: seq<Node>, name: string)
    requires forall i :: 0 <= i < |ns| ==> ns[i].Element? && ns[i].children == []
    ensures FindAllIn(ns, name) == OnlyNamed(ns, name)
  {
    if ns != [] {
      LeafFindAll(ns[0], name);
      LeavesFind(ns[1..], name);
    }
  }

  lemma OnlyNamedCons(n: Node, rest: seq<Node>, name: string)
    ensures OnlyNamed([n] + rest, name) == (if IsNamed(n, name) then [n] else []) + OnlyNamed(rest, name)
  {
    assert ([n] + rest)[0] == n && ([n] + rest)[1..] == rest;
  }

  /** Filtering the three anchors by `name`. */
  lemma AnchorsNamed(name: string)
    ensures OnlyNamed([Anchor1, Anchor2, Anchor3], name)
         == if name == UrlTag then [Anchor1, Anchor2, Anchor3] else []
  {
    SameNamedThree(Anchor1, Anchor2, Anchor3, name);
  }

  /** Three nodes that all carry the name, or all lack it, are kept or
      dropped together. */
  lemma SameNamedThree(a: Node, b: Node, c: Node, name: string)
    requires IsNamed(a, name) == IsNamed(b, name) && IsNamed(b, name) == IsNamed(c, name)
    ensures OnlyNamed([a, b, c], name) == if IsNamed(a, name) then [a, b, c] else []
  {
    OnlyNamedCons(c, [], name);
    Seqs.ConsDisplays(c, c, c);
    OnlyNamedCons(b, [c], name);
    Seqs.ConsDisplays(b, c, c);
    OnlyNamedCons(a, [b, c], name);
    Seqs.ConsDisplays(a, b, c);
  }

  lemma AnchorsFindOther(name: string)
    requires name != UrlTag
    ensures FindAllIn([Anchor1, Anchor2, Anchor3], name) == []
  {
    LeavesFind([Anchor1, Anchor2, Anchor3], name);
    AnchorsNamed(name);
  }

  lemma ListAnchors()
    ensures FindAll(List, UrlTag) == [Anchor1, Anchor2, Anchor3]
  {
    assert FindAll(List, UrlTag) == FindAllIn([Anchor1, Anchor2, Anchor3], UrlTag);
    LeavesFind([Anchor1, Anchor2, Anchor3], UrlTag);
    AnchorsNamed(UrlTag);
  }

  /** The list's links block holds the two `href`s and skips the anchor
      without one. */
  lemma ListLinks()
    ensures ListUrls(List) == ["link_url_1", "link_url_2"]
  {
    ListAnchors();
    var ns := [Anchor1, Anchor2, Anchor3];
    assert ns[1..] == [Anchor2, Anchor3] && ns[1..][1..] == [Anchor3];
    assert AttrValues([Anchor3], LinkRefAttr) == [];
    assert AttrValues([Anchor2, Anchor3], LinkRefAttr) == ["link_url_2"];
  }

  /** A search of the `div` for anything but anchors: the images, then the
      list, whichever carry the name. */
  lemma DivFind(name: string)
    requires name != UrlTag
    ensures FindAll(Div, name)
         == (if name == ImgTag then [ImageWithSrc, ImageWithout] else [])
          + (if name == LinksTag then [List] else [])
  {
    AnchorsFindOther(name);
    assert FindAll(List, name) == [];
    assert FindAllIn([List], name) == (if name == LinksTag then [List] else []) by {
      assert [List][1..] == [];
    }
    LeafFindAllIn(ImageWithout, [List], name);
    LeafFindAllIn(ImageWithSrc, [ImageWithout, List], name);
  }

  lemma DivImages()
    ensures FindAll(Div, ImgTag) == [ImageWithSrc, ImageWithout]
  {
    DivFind(ImgTag);
  }

  lemma DivLists()
    ensures FindAll(Div, LinksTag) == [List]
  {
    DivFind(LinksTag);
  }

  /** The `div` yields the image with `src` and then the list's links. */
  lemma DivCase()
    ensures DivBlocks(Div) == [Image("image_url"), Links(["link_url_1", "link_url_2"])]
  {
    DivImages();
    DivLists();
    ListLinks();
    var ns := [ImageWithSrc, ImageWithout];
    assert ns[1..] == [ImageWithout];
    assert AttrValues([ImageWithout], ImgUrlAttr) == [];
    assert AttrValues(ns, ImgUrlAttr) == ["image_url"];
  }

  lemma DecomposeOne(c: Node)
    ensures Decompose([c]) == ChildBlocks(c)
  {
    Seqs.ConsDisplays(c, c, c);
    DecomposeCons(c, []);
  }

  lemma DecomposeTwo(b: Node, c: Node)
    ensures Decompose([b, c]) == ChildBlocks(b) + ChildBlocks(c)
  {
    Seqs.ConsDisplays(b, c, c);
    DecomposeOne(c);
    DecomposeCons(b, [c]);
  }

  lemma DecomposeThree(a: Node, b: Node, c: Node)
    ensures Decompose([a, b, c]) == ChildBlocks(a) + ChildBlocks(b) + ChildBlocks(c)
  {
    Seqs.ConsDisplays(a, b, c);
    DecomposeTwo(b, c);
    DecomposeCons(a, [b, c]);
    Seqs.Associate(ChildBlocks(a), ChildBlocks(b), ChildBlocks(c));
  }

  lemma ParagraphChild(s: string)
    ensures ChildBlocks(Paragraph(s)) == ParagraphBlocks(Paragraph(s))
  {
  }

  lemma DivChild()
    ensures ChildBlocks(Div) == DivBlocks(Div)
  {
  }

  /** The whole description decomposes into exactly the three blocks the
      test expects, in that order. */
  lemma DescriptionCase()
    ensures Decompose([Paragraph(EmptyText), Paragraph(FilledText), Div])
         == [Text(FilledResult), Image("image_url"), Links(["link_url_1", "link_url_2"])]
  {
    var e, f := Paragraph(EmptyText), Paragraph(FilledText);
    DecomposeThree(e, f, Div);
    ParagraphChild(EmptyText);
    ParagraphChild(FilledText);
    DivChild();
    EmptyParagraph();
    FilledParagraph();
    DivCase();
    Seqs.ThreeParts(ChildBlocks(e), ChildBlocks(f), ChildBlocks(Div),
                Text(FilledResult), Image("image_url"), Links(["link_url_1", "link_url_2"]));
  }
}
