/** The parsed feed and its two serialisations: the dictionary form
    (`to_dict`) and the JSON-like text form (`to_json`). */
module Models {
  import opened Results
  import opened Json
  import Strings
  import Seqs

  /** The three block kinds, as written into a block's `type` entry. */
  const TextType: string := "text"
  const ImageType: string := "image"
  const LinksType: string := "links"

  /** One block of an item's description. The kind is the constructor; the
      content is a paragraph's text, an image URL, or a list's link URLs. */
  datatype Block =
    | Text(text: string)
    | Image(url: string)
    | Links(urls: seq<string>)

  /** A feed item. Title and link are absent when their XML element has no
      text; the description is always a (possibly empty) list of blocks. */
  datatype FeedItem = FeedItem(title: Option<string>, link: Option<string>, description: seq<Block>)

  /** A parsed feed: its items, in document order, and nothing else. */
  datatype Feed = Feed(items: seq<FeedItem>)

  /** The block's `type` entry. */
  function TypeName(b: Block): string {
    match b
    case Text(_) => TextType
    case Image(_) => ImageType
    case Links(_) => LinksType
  }

  /** The three kind names are pairwise distinct, so a block's kind can be
      read back from its `type` entry. */
  lemma KindNamesDistinct()
    ensures TextType != ImageType && TextType != LinksType && ImageType != LinksType
    ensures forall b: Block, c: Block :: TypeName(b) == TypeName(c) ==> b.Text? == c.Text? && b.Image? == c.Image?
  {
    assert TextType[0] == 't' && ImageType[0] == 'i' && LinksType[0] == 'l';
  }

  function StrList(ss: seq<string>): (r: Value)
    ensures r.List? && |r.elems| == |ss|
    ensures forall i :: 0 <= i < |ss| ==> r.elems[i] == Str(ss[i])
  {
    List(seq(|ss|, i requires 0 <= i < |ss| => Str(ss[i])))
  }

  function OptStr(o: Option<string>): Value {
    match o
    case None => Null
    case Some(s) => Str(s)
  }

  /** `FeedItemDescriptionBlock.to_dict`: `{type, content}`. */
  function BlockToDict(b: Block): Value {
    Dict([("type", Str(TypeName(b))),
          ("content", match b
                      case Text(s) => Str(s)
                      case Image(u) => Str(u)
                      case Links(us) => StrList(us))])
  }

  /** `FeedItem.to_dict`: `{title, link, description}`. */
  function ItemToDict(it: FeedItem): Value {
    Dict([("title", OptStr(it.title)),
          ("link", OptStr(it.link)),
          ("description", List(BlockDicts(it.description)))])
  }

  function BlockDicts(bs: seq<Block>): (r: seq<Value>)
    ensures |r| == |bs|
    ensures forall i :: 0 <= i < |bs| ==> r[i] == BlockToDict(bs[i])
  {
    seq(|bs|, i requires 0 <= i < |bs| => BlockToDict(bs[i]))
  }

  /** `Feed.to_dict`: `{feed: [...]}`, one item dictionary per item. */
  function FeedToDict(f: Feed): Value {
    Dict([("feed", List(ItemDicts(f.items)))])
  }

  function ItemDicts(items: seq<FeedItem>): (r: seq<Value>)
    ensures |r| == |items|
    ensures forall i :: 0 <= i < |items| ==> r[i] == ItemToDict(items[i])
  {
    seq(|items|, i requires 0 <= i < |items| => ItemToDict(items[i]))
  }

  // Reading the dictionary form back. These are the partners of the
  // `to_dict` functions: each recovers exactly the value it was given.

  function StrsOf(vs: seq<Value>): Option<seq<string>> {
    if vs == [] then Some([])
    else if !vs[0].Str? then None
    else match StrsOf(vs[1..])
      case None => None
      case Some(t) => Some([vs[0].s] + t)
  }

  function BlockFromDict(v: Value): Option<Block> {
    if !v.Dict? || |v.entries| != 2 then None
    else
      var (k0, t) := v.entries[0];
      var (k1, c) := v.entries[1];
      if k0 != "type" || k1 != "content" || !t.Str? then None
      else if t.s == TextType && c.Str? then Some(Text(c.s))
      else if t.s == ImageType && c.Str? then Some(Image(c.s))
      else if t.s == LinksType && c.List? then
        match StrsOf(c.elems)
        case None => None
        case Some(us) => Some(Links(us))
      else None
  }

  function BlocksFromList(vs: seq<Value>): Option<seq<Block>> {
    if vs == [] then Some([])
    else match (BlockFromDict(vs[0]), BlocksFromList(vs[1..]))
      case (Some(b), Some(bs)) => Some([b] + bs)
      case _ => None
  }

  function OptStrFrom(v: Value): Option<Option<string>> {
    match v
    case Null => Some(None)
    case Str(s) => Some(Some(s))
    case _ => None
  }

  function ItemFromDict(v: Value): Option<FeedItem> {
    if !v.Dict? || |v.entries| != 3 then None
    else if v.entries[0].0 != "title" || v.entries[1].0 != "link" || v.entries[2].0 != "description" then None
    else if !v.entries[2].1.List? then None
    else match (OptStrFrom(v.entries[0].1), OptStrFrom(v.entries[1].1), BlocksFromList(v.entries[2].1.elems))
      case (Some(t), Some(l), Some(d)) => Some(FeedItem(t, l, d))
      case _ => None
  }

  function ItemsFromList(vs: seq<Value>): Option<seq<FeedItem>> {
    if vs == [] then Some([])
    else match (ItemFromDict(vs[0]), ItemsFromList(vs[1..]))
      case (Some(it), Some(its)) => Some([it] + its)
      case _ => None
  }

  function FeedFromDict(v: Value): Option<Feed> {
    if !v.Dict? || |v.entries| != 1 || v.entries[0].0 != "feed" || !v.entries[0].1.List? then None
    else match ItemsFromList(v.entries[0].1.elems)
      case None => None
      case Some(its) => Some(Feed(its))
  }

  lemma {:induction false} StrsOfStrList(ss: seq<string>)
    ensures StrsOf(StrList(ss).elems) == Some(ss)
  {
    if ss != [] {
      assert StrList(ss).elems[1..] == StrList(ss[1..]).elems;
      StrsOfStrList(ss[1..]);
      assert [ss[0]] + ss[1..] == ss;
    }
  }

  /** Round trip of `FeedItemDescriptionBlock.to_dict`: the dictionary holds
      exactly the `type` and `content` entries, and they determine the block,
      its kind and its content unchanged. */
  lemma BlockDictRoundTrip(b: Block)
    ensures BlockToDict(b).Dict? && |BlockToDict(b).entries| == 2
    ensures BlockToDict(b).entries[0].0 == "type" && BlockToDict(b).entries[1].0 == "content"
    ensures BlockFromDict(BlockToDict(b)) == Some(b)
  {
    KindNamesDistinct();
    if b.Links? {
      StrsOfStrList(b.urls);
    }
  }

  lemma {:induction false} BlocksRoundTrip(bs: seq<Block>)
    ensures BlocksFromList(BlockDicts(bs)) == Some(bs)
  {
    if bs != [] {
      BlockDictRoundTrip(bs[0]);
      BlocksRoundTrip(bs[1..]);
      assert BlockDicts(bs)[1..] == BlockDicts(bs[1..]);
      assert [bs[0]] + bs[1..] == bs;
    }
  }

  /** Round trip of `FeedItem.to_dict`: title and link pass through
      unchanged (an absent one as `null`), and the description list holds the
      blocks' dictionaries in the blocks' order, one per block. */
  lemma ItemDictRoundTrip(it: FeedItem)
    ensures ItemFromDict(ItemToDict(it)) == Some(it)
    ensures |ItemToDict(it).entries[2].1.elems| == |it.description|
  {
    var v := ItemToDict(it);
    BlocksRoundTrip(it.description);
    assert OptStrFrom(OptStr(it.title)) == Some(it.title);
    assert OptStrFrom(OptStr(it.link)) == Some(it.link);
  }

  lemma {:induction false} ItemsRoundTrip(items: seq<FeedItem>)
    ensures ItemsFromList(ItemDicts(items)) == Some(items)
  {
    if items != [] {
      ItemDictRoundTrip(items[0]);
      ItemsRoundTrip(items[1..]);
      assert ItemDicts(items)[1..] == ItemDicts(items[1..]);
      assert [items[0]] + items[1..] == items;
    }
  }

  /** Round trip of `Feed.to_dict`: one item dictionary per item, in order,
      under the single key `feed`; the feed is recovered exactly. */
  lemma FeedDictRoundTrip(f: Feed)
    ensures FeedFromDict(FeedToDict(f)) == Some(f)
    ensures FeedToDict(f).entries[0].1.elems == ItemDicts(f.items)
    ensures f.items == [] ==> FeedToDict(f) == Dict([("feed", List([]))])
  {
    ItemsRoundTrip(f.items);
  }

  // The JSON-like text form.

  const Opening: string := "{\"feed\": ["
  const Closing: string := "]}"

  /** One entry of the text form: a bare `"item": <dict>` pair. */
  function Entry(d: Value): (r: string)
    ensures |r| > 8 && r[..8] == "\"item\": "
  {
    "\"item\": " + Encode(d)
  }

  function Entries(ds: seq<Value>): (r: seq<string>)
    ensures |r| == |ds|
    ensures forall i :: 0 <= i < |ds| ==> r[i] == Entry(ds[i])
  {
    seq(|ds|, i requires 0 <= i < |ds| => Entry(ds[i]))
  }

  /** The entries joined with `","`: for one or more entries, the entries
      themselves plus one separator between each neighbouring pair. */
  function Middle(ds: seq<Value>): (r: string)
    ensures ds == [] <==> r == []
    ensures ds != [] ==> |r| == Strings.TotalLength(Entries(ds)) + |ds| - 1
    ensures ds != [] ==> r[..|Entry(ds[0])|] == Entry(ds[0])
  {
    Strings.Join(",", Entries(ds))
  }

  /** The text form of a list of item dictionaries: the entries joined with
      `","`, inside `{"feed": [` and `]}`. */
  function Envelope(ds: seq<Value>): (r: string)
    ensures |r| >= |Opening| + |Closing|
    ensures r[..|Opening|] == Opening
    ensures r[|r| - |Closing|..] == Closing
    ensures ds == [] <==> r == Opening + Closing
  {
    var r := Opening + Middle(ds) + Closing;
    assert r[..|Opening|] == Opening;
    assert r[|r| - |Closing|..] == Closing;
    r
  }

  /** `Feed.to_json`: not RFC 8259 JSON, because every element of the array is
      a bare `"item": ...` pair rather than a value. */
  function ToJson(f: Feed): (r: string)
    ensures |r| >= |Opening| + |Closing|
    ensures r[..|Opening|] == Opening && r[|r| - |Closing|..] == Closing
    ensures f.items == [] <==> r == "{\"feed\": []}"
  {
    Envelope(ItemDicts(f.items))
  }

  /** A feed of one item is written `{"feed": ["item": {...}]}`: the pair
      stands in the array with no braces of its own. */
  lemma ToJsonSingle(it: FeedItem)
    ensures ToJson(Feed([it])) == "{\"feed\": [\"item\": " + Encode(ItemToDict(it)) + "]}"
  {
    var d := ItemToDict(it);
    var e := Encode(d);
    assert ItemDicts([it]) == [d];
    assert Entries([d]) == [Entry(d)];
    assert Middle([d]) == "\"item\": " + e;
    assert Opening + ("\"item\": " + e) + Closing == "{\"feed\": [\"item\": " + e + "]}";
  }

  /** For a non-empty feed the text starts with the first item's bare pair. */
  lemma ToJsonStartsWithBarePair(f: Feed)
    requires f.items != []
    ensures var r := ToJson(f);
            |r| > 19 && r[..19] == "{\"feed\": [\"item\": {"
  {
    var m := Middle(ItemDicts(f.items));
    MiddleStartsWithBarePair(ItemDicts(f.items));
    var r := Opening + m + Closing;
    assert r[..19] == Opening + m[..9];
  }

  /** The middle part of a non-empty list starts with `"item": {`. */
  lemma MiddleStartsWithBarePair(ds: seq<Value>)
    requires ds != [] && ds[0].Dict?
    ensures var m := Middle(ds);
            |m| > 9 && m[..9] == "\"item\": {"
  {
    var e := Entry(ds[0]);
    var m := Middle(ds);
    assert Encode(ds[0])[0] == '{';
    assert e[8] == '{';
    assert m[..9] == e[..9];
    assert e[..9] == e[..8] + [e[8]];
  }

  lemma EntriesAppend(a: seq<Value>, b: seq<Value>)
    ensures Entries(a + b) == Entries(a) + Entries(b)
  {
    assert |Entries(a + b)| == |Entries(a) + Entries(b)|;
    forall i | 0 <= i < |a + b|
      ensures Entries(a + b)[i] == (Entries(a) + Entries(b))[i]
    {
      if i < |a| {
        assert (a + b)[i] == a[i];
      } else {
        assert (a + b)[i] == b[i - |a|];
      }
    }
  }

  lemma ItemDictsAppend(a: seq<FeedItem>, b: seq<FeedItem>)
    ensures ItemDicts(a + b) == ItemDicts(a) + ItemDicts(b)
  {
    assert |ItemDicts(a + b)| == |ItemDicts(a) + ItemDicts(b)|;
    forall i | 0 <= i < |a + b|
      ensures ItemDicts(a + b)[i] == (ItemDicts(a) + ItemDicts(b))[i]
    {
      if i < |a| {
        assert (a + b)[i] == a[i];
      } else {
        assert (a + b)[i] == b[i - |a|];
      }
    }
  }

  /** The text form of two non-empty feeds put together is each one's middle
      part, separated by a single `","`: the separators fall exactly between
      neighbouring items. */
  lemma ToJsonAppend(f: Feed, g: Feed)
    requires f.items != [] && g.items != []
    ensures ToJson(Feed(f.items + g.items))
         == Opening + Middle(ItemDicts(f.items)) + "," + Middle(ItemDicts(g.items)) + Closing
  {
    ItemDictsAppend(f.items, g.items);
    EnvelopeAppend(ItemDicts(f.items), ItemDicts(g.items));
  }

  lemma EnvelopeAppend(a: seq<Value>, b: seq<Value>)
    requires a != [] && b != []
    ensures Envelope(a + b) == Opening + Middle(a) + "," + Middle(b) + Closing
  {
    MiddleAppend(a, b);
    assert Envelope(a + b) == Opening + Middle(a + b) + Closing;
    Seqs.Regroup(Opening, Middle(a), ",", Middle(b), Closing);
  }

  /** Joining the middle parts of two non-empty lists takes one separator. */
  lemma MiddleAppend(a: seq<Value>, b: seq<Value>)
    requires a != [] && b != []
    ensures Middle(a + b) == Middle(a) + "," + Middle(b)
  {
    EntriesAppend(a, b);
    Strings.JoinAppend(",", Entries(a), Entries(b));
  }

  // The pinned one-item example. The strings are named constants so that
  // the solver compares them only where a lemma asks it to.

  /** The item dictionary `{"a": "a", "b": "b", "c": []}`. */
  predicate IsExampleDict(d: Value) {
    d == Dict([("a", Str("a")), ("b", Str("b")), ("c", List([]))])
  }

  const ExampleFirst: string := "\"a\": \"a\""
  const ExampleRest: string := "\"b\": \"b\", \"c\": []"
  const ExampleEntries: string := "\"a\": \"a\", \"b\": \"b\", \"c\": []"
  const ExampleEncoded: string := "{\"a\": \"a\", \"b\": \"b\", \"c\": []}"
  const ExampleHead: string := "{\"feed\": [\"item\": "
  const ExampleTail: string := "{\"a\": \"a\", \"b\": \"b\", \"c\": []}]}"
  /** `{"feed": ["item": {"a": "a", "b": "b", "c": []}]}`, in two pieces. */
  const ExampleOutput: string := ExampleHead + ExampleTail

  lemma ExampleLiterals()
    ensures ExampleFirst + ", " + ExampleRest == ExampleEntries
    ensures "{" + ExampleEntries + "}" == ExampleEncoded
  {
  }

  lemma ExampleOutputLiteral()
    ensures Opening + ("\"item\": " + ExampleEncoded) + Closing == ExampleOutput
  {
    ExampleHeadLiteral();
    ExampleTailLiteral();
    Seqs.Regroup4(Opening, "\"item\": ", ExampleEncoded, Closing);
  }

  lemma ExampleHeadLiteral()
    ensures Opening + "\"item\": " == ExampleHead
  {
  }

  lemma ExampleTailLiteral()
    ensures ExampleEncoded + Closing == ExampleTail
  {
  }

  lemma QuotePlain(s: string)
    requires forall i :: 0 <= i < |s| ==> Plain(s[i])
    ensures Quote(s) == "\"" + s + "\""
  {
    EscapePlain(s);
  }

  /** A one-character key or value of plain text is quoted as itself. */
  lemma QuoteSingle(c: char)
    requires Plain(c)
    ensures Quote([c]) == ['"', c, '"']
  {
    QuotePlain([c]);
  }

  lemma ExampleRestLiteral()
    ensures "\"b\"" + ": " + "\"b\"" + ", " + ("\"c\"" + ": " + "[]") == ExampleRest
  {
  }

  lemma ExampleLastEncoding(d: Value)
    requires IsExampleDict(d)
    ensures EncodeEntries(d, 2) == "\"c\"" + ": " + "[]"
  {
    QuoteSingle('c');
    assert Encode(List([])) == "[" + "" + "]";
  }

  lemma ExampleRestEncoding(d: Value)
    requires IsExampleDict(d)
    ensures EncodeEntries(d, 1) == ExampleRest
  {
    QuoteSingle('b');
    ExampleLastEncoding(d);
    assert Encode(Str("b")) == "\"b\"";
    assert EncodeEntries(d, 1) == "\"b\"" + ": " + "\"b\"" + ", " + EncodeEntries(d, 2);
    ExampleRestLiteral();
  }

  lemma ExampleFirstEncoding()
    ensures Quote("a") + ": " + Encode(Str("a")) == ExampleFirst
  {
    QuoteSingle('a');
    assert "\"a\"" + ": " + "\"a\"" == ExampleFirst;
  }

  lemma ExampleDictEncoding(d: Value)
    requires IsExampleDict(d)
    ensures Encode(d) == ExampleEncoded
  {
    ExampleFirstEncoding();
    ExampleRestEncoding(d);
    ExampleLiterals();
    assert EncodeEntries(d, 0) == ExampleEntries;
  }

  /** The exact output pinned for a one-item feed whose item dictionary is
      `{"a": "a", "b": "b", "c": []}`: the text
      `{"feed": ["item": {"a": "a", "b": "b", "c": []}]}`. */
  lemma EnvelopeExample(d: Value)
    requires IsExampleDict(d)
    ensures Envelope([d]) == ExampleOutput
  {
    ExampleDictEncoding(d);
    ExampleOutputLiteral();
    assert Entries([d]) == [Entry(d)];
    assert Middle([d]) == Entry(d);
  }
}
