/** The `div` rule as the source writes it. The tests `"src" in img` and
    `"href" in a` go through the HTML library's `Tag.__contains__`, which asks
    whether the string is one of the tag's children, not whether it is an
    attribute. A child text run equal to the attribute name passes the test;
    an attribute does not. Reading the attribute (`img["src"]`) then raises a
    `KeyError` when the attribute is missing. `Reader.DivBlocks` is the
    corrected rule, which tests attribute presence. */
module AsWritten {
  import opened Results
  import opened Html
  import opened Models
  import Reader

  /** `key in tag`: some direct child of the element is a text run equal to
      `key`. */
  predicate ContainsText(n: Node, key: string) {
    n.Element? && exists i :: 0 <= i < |n.children| && n.children[i] == TextNode(key)
  }

  /** What the as-written rule raises. */
  datatype Raised = KeyError(key: string)

  /** `[tag[key] for tag in tags if key in tag]`, raising where the test
      passes but the attribute is missing. */
  function ValuesAsWritten(tags: seq<Node>, key: string): (r: Result<seq<string>, Raised>)
    ensures r.Ok? ==> |r.value| <= |tags|
    ensures r.Fail? <==> exists i :: 0 <= i < |tags| && ContainsText(tags[i], key) && !HasAttr(tags[i], key)
    ensures r.Fail? ==> r.error == KeyError(key)
  {
    if tags == [] then Ok([])
    else
      var t := tags[0];
      assert forall i :: 1 <= i < |tags| ==> tags[i] == tags[1..][i - 1];
      if ContainsText(t, key) then
        if HasAttr(t, key) then
          match ValuesAsWritten(tags[1..], key)
          case Fail(e) => Fail(e)
          case Ok(vs) => Ok([t.attrs[key]] + vs)
        else Fail(KeyError(key))
      else ValuesAsWritten(tags[1..], key)
  }

  /** `[a[key] for a in ul.find_all("a") if key in a]` for one list, as
      written. */
  function ListAsWritten(ul: Node): Result<seq<string>, Raised> {
    ValuesAsWritten(FindAll(ul, Reader.UrlTag), Reader.LinkRefAttr)
  }

  /** One links block per list, as written. */
  function LinksAsWritten(uls: seq<Node>): (r: Result<seq<Block>, Raised>)
    ensures r.Ok? ==> |r.value| == |uls|
    ensures r.Ok? ==> forall i :: 0 <= i < |uls| ==>
              r.value[i].Links? && ListAsWritten(uls[i]) == Ok(r.value[i].urls)
    ensures r.Fail? <==> exists i :: 0 <= i < |uls| && ListAsWritten(uls[i]).Fail?
    ensures r.Fail? ==> r.error == KeyError(Reader.LinkRefAttr)
  {
    if uls == [] then Ok([])
    else
      var h := ListAsWritten(uls[0]);
      var t := LinksAsWritten(uls[1..]);
      assert forall i :: 1 <= i < |uls| ==> uls[i] == uls[1..][i - 1];
      if h.Fail? then Fail(h.error)
      else if t.Fail? then Fail(t.error)
      else Ok([Links(h.value)] + t.value)
  }

  /** The `div` rule as written: the image loop, then the list loop. */
  function DivBlocksAsWritten(d: Node): (r: Result<seq<Block>, Raised>)
    ensures r.Ok? ==> |r.value| >= |FindAll(d, Reader.LinksTag)|
    ensures r.Fail? ==> r.error == KeyError(Reader.ImgUrlAttr) || r.error == KeyError(Reader.LinkRefAttr)
    ensures r.Fail? <==> ValuesAsWritten(FindAll(d, Reader.ImgTag), Reader.ImgUrlAttr).Fail?
                         || LinksAsWritten(FindAll(d, Reader.LinksTag)).Fail?
  {
    match ValuesAsWritten(FindAll(d, Reader.ImgTag), Reader.ImgUrlAttr)
    case Fail(e) => Fail(e)
    case Ok(srcs) =>
      match LinksAsWritten(FindAll(d, Reader.LinksTag))
      case Fail(e) => Fail(e)
      case Ok(links) => Ok(Reader.ImageBlocks(srcs) + links)
  }

  /** When no tag has a child text run equal to `key`, the as-written test
      never passes: nothing is collected, whatever attributes the tags
      carry. For real markup this is the usual case (`img` has no children at
      all), so no image block is ever produced. */
  lemma {:induction false} ValuesAsWrittenNeverMatch(tags: seq<Node>, key: string)
    requires forall i :: 0 <= i < |tags| ==> !ContainsText(tags[i], key)
    ensures ValuesAsWritten(tags, key) == Ok([])
  {
    if tags != [] {
      ValuesAsWrittenNeverMatch(tags[1..], key);
    }
  }

  /** Where the membership test and attribute presence agree on every tag,
      the as-written rule and the corrected one collect the same values: the
      discrepancy is exactly the membership test. */
  lemma {:induction false} ValuesAsWrittenAgree(tags: seq<Node>, key: string)
    requires forall i :: 0 <= i < |tags| ==> (ContainsText(tags[i], key) <==> HasAttr(tags[i], key))
    ensures ValuesAsWritten(tags, key) == Ok(Reader.AttrValues(tags, key))
  {
    if tags != [] {
      ValuesAsWrittenAgree(tags[1..], key);
    }
  }

  /** The membership test and attribute presence agree on every `a` inside
      every list of `uls`. */
  predicate AnchorsAgree(uls: seq<Node>) {
    forall i, j :: 0 <= i < |uls| && 0 <= j < |FindAll(uls[i], Reader.UrlTag)| ==>
      (ContainsText(FindAll(uls[i], Reader.UrlTag)[j], Reader.LinkRefAttr)
       <==> HasAttr(FindAll(uls[i], Reader.UrlTag)[j], Reader.LinkRefAttr))
  }

  lemma {:induction false} LinksAsWrittenAgree(uls: seq<Node>)
    requires AnchorsAgree(uls)
    ensures LinksAsWritten(uls) == Ok(Reader.LinksBlocks(uls))
  {
    if uls != [] {
      var tags := FindAll(uls[0], Reader.UrlTag);
      AnchorsAgreeHead(uls);
      ValuesAsWrittenAgree(tags, Reader.LinkRefAttr);
      AnchorsAgreeTail(uls);
      LinksAsWrittenAgree(uls[1..]);
      LinksBlocksCons(uls);
    }
  }

  lemma AnchorsAgreeHead(uls: seq<Node>)
    requires uls != [] && AnchorsAgree(uls)
    ensures var tags := FindAll(uls[0], Reader.UrlTag);
            forall j :: 0 <= j < |tags| ==>
              (ContainsText(tags[j], Reader.LinkRefAttr) <==> HasAttr(tags[j], Reader.LinkRefAttr))
  {
  }

  lemma AnchorsAgreeTail(uls: seq<Node>)
    requires uls != [] && AnchorsAgree(uls)
    ensures AnchorsAgree(uls[1..])
  {
    forall i, j | 0 <= i < |uls[1..]| && 0 <= j < |FindAll(uls[1..][i], Reader.UrlTag)|
      ensures ContainsText(FindAll(uls[1..][i], Reader.UrlTag)[j], Reader.LinkRefAttr)
              <==> HasAttr(FindAll(uls[1..][i], Reader.UrlTag)[j], Reader.LinkRefAttr)
    {
      assert uls[1..][i] == uls[i + 1];
    }
  }

  lemma LinksBlocksCons(uls: seq<Node>)
    requires uls != []
    ensures Reader.LinksBlocks(uls) == [Links(Reader.ListUrls(uls[0]))] + Reader.LinksBlocks(uls[1..])
  {
  }

  /** Where the membership tests and attribute presence agree on every `img`
      and every anchor of a `div`, the as-written rule gives exactly the
      corrected rule's blocks: the two differ only through those tests. */
  lemma DivAsWrittenAgree(d: Node)
    requires forall j :: 0 <= j < |FindAll(d, Reader.ImgTag)| ==>
               (ContainsText(FindAll(d, Reader.ImgTag)[j], Reader.ImgUrlAttr)
                <==> HasAttr(FindAll(d, Reader.ImgTag)[j], Reader.ImgUrlAttr))
    requires AnchorsAgree(FindAll(d, Reader.LinksTag))
    ensures DivBlocksAsWritten(d) == Ok(Reader.DivBlocks(d))
  {
    ValuesAsWrittenAgree(FindAll(d, Reader.ImgTag), Reader.ImgUrlAttr);
    LinksAsWrittenAgree(FindAll(d, Reader.LinksTag));
  }

  const ImgWithSrc: Node := Element(Reader.ImgTag, map[Reader.ImgUrlAttr := "image_url"], [])
  const DivWithImage: Node := Element(Reader.DivTag, map[], [ImgWithSrc])

  lemma DivWithImageFinds()
    ensures FindAll(DivWithImage, Reader.ImgTag) == [ImgWithSrc]
    ensures FindAll(DivWithImage, Reader.LinksTag) == []
  {
    FindAllInSingle(ImgWithSrc, Reader.ImgTag);
    FindAllInSingle(ImgWithSrc, Reader.LinksTag);
  }

  /** An `<img src="image_url">` inside a `div`: the as-written rule yields no
      block at all, the corrected rule yields the image. */
  lemma ImageDropped()
    ensures DivBlocksAsWritten(DivWithImage) == Ok([])
    ensures Reader.DivBlocks(DivWithImage) == [Image("image_url")]
  {
    DivWithImageFinds();
    assert !ContainsText(ImgWithSrc, Reader.ImgUrlAttr);
    ValuesAsWrittenNeverMatch([ImgWithSrc], Reader.ImgUrlAttr);
    assert [ImgWithSrc][1..] == [];
    assert Reader.AttrValues([ImgWithSrc], Reader.ImgUrlAttr) == ["image_url"];
  }

  const AnchorNamedHref: Node := Element(Reader.UrlTag, map[], [TextNode(Reader.LinkRefAttr)])
  const ListWithAnchor: Node := Element(Reader.LinksTag, map[], [AnchorNamedHref])
  const DivWithList: Node := Element(Reader.DivTag, map[], [ListWithAnchor])

  lemma AnchorFinds(name: string)
    ensures FindAll(AnchorNamedHref, name) == []
  {
    FindAllInSingle(TextNode(Reader.LinkRefAttr), name);
  }

  lemma DivWithListFinds()
    ensures FindAll(DivWithList, Reader.ImgTag) == []
    ensures FindAll(DivWithList, Reader.LinksTag) == [ListWithAnchor]
    ensures FindAll(ListWithAnchor, Reader.UrlTag) == [AnchorNamedHref]
  {
    AnchorFinds(Reader.ImgTag);
    AnchorFinds(Reader.LinksTag);
    AnchorFinds(Reader.UrlTag);
    FindAllInSingle(AnchorNamedHref, Reader.ImgTag);
    FindAllInSingle(AnchorNamedHref, Reader.LinksTag);
    FindAllInSingle(AnchorNamedHref, Reader.UrlTag);
    FindAllInSingle(ListWithAnchor, Reader.ImgTag);
    FindAllInSingle(ListWithAnchor, Reader.LinksTag);
  }

  /** `<a>href</a>` (an anchor whose only content is the word `href`, with no
      `href` attribute) inside a list: the as-written rule raises
      `KeyError('href')`; the corrected rule yields one empty links block. */
  lemma AnchorRaises()
    ensures DivBlocksAsWritten(DivWithList) == Fail(KeyError(Reader.LinkRefAttr))
    ensures Reader.DivBlocks(DivWithList) == [Links([])]
  {
    DivWithListFinds();
    assert AnchorNamedHref.children[0] == TextNode(Reader.LinkRefAttr);
    assert ContainsText(AnchorNamedHref, Reader.LinkRefAttr);
    assert [AnchorNamedHref][1..] == [];
    assert Reader.AttrValues([AnchorNamedHref], Reader.LinkRefAttr) == [];
    assert [ListWithAnchor][1..] == [];
  }
}
