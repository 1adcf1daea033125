# Feed reader core, modelled in Dafny

The feed reader fetches an RSS 2.0 document and turns its `channel` into a
`Feed` made of `FeedItem`s. Each item keeps its title and link verbatim. Its
description (HTML markup held as the text of the `description` element) is
split into a list of blocks:

- a `p` element becomes one text block, with newlines deleted, no-break
  spaces and tabs made plain spaces, and leading whitespace stripped;
  a blank paragraph yields nothing;
- a `div` element yields one image block per `img` inside it that carries
  `src`, then one links block per `ul` inside it, holding the `href`s of that
  list's anchors;
- any other top-level node yields nothing.

The feed is written out in two forms. `to_dict` gives nested dictionaries.
`to_json` gives a JSON-like text in which every element of the `feed` array
is a bare `"item": {...}` pair.

Modules, one per file:

- `Seqs` (`seqs.dfy`): shape facts about sequence concatenation that the
  other proofs invoke.
- `Results` (`results.dfy`): `Option`, `Result`, and `Traverse`, the
  "map, stopping at the first failure" that a Python list comprehension over
  a raising function amounts to.
- `Strings` (`strings.dfy`): `str.isspace`, `lstrip`, `strip`, `replace` of
  one character, and `join`.
- `Html` (`html.dfy`): the parsed HTML tree, `get_text`, and `find_all`
  (matching descendants, in document order).
- `Json` (`json.dfy`): `json.dumps(..., ensure_ascii=False)` restricted to
  dictionaries, lists, strings and `None`, with a decoder for string bodies.
- `Models` (`models.dfy`): `Feed`, `FeedItem`, the description block, their
  `to_dict` forms with readers for them, and `Feed.to_json`.
- `Reader` (`reader.dfy`): `FeedParser`.
- `ReaderCases` (`reader_cases.dfy`): the description that the parser's unit
  test pins, decomposed exactly.
- `AsWritten` (`as_written.dfy`): the `div` rule with its membership tests
  read the way the HTML library defines them (see Findings).

Parse errors are values. A Python attribute read on `None` (a failed lookup)
is `Fail(NoElement(tag))`. A description element without text, whose `None`
the HTML parser cannot take, is `Fail(NoMarkup)`.

## Model

| member | source | states |
|---|---|---|
| Reader.Find | src/feed/reader.py:50-52 | `item.find(tag)` is `None` exactly when no direct child has that tag; otherwise it is the first such child |
| Reader.FindChildren | src/feed/reader.py:39 | `findall` returns only children with the tag, and every child with the tag appears in it; it is the identity on a list whose children all have the tag |
| Reader.FindChildrenAppend | src/feed/reader.py:39 | `findall` distributes over concatenation of the child list, so the items keep document order |
| Reader.TextOf | src/feed/reader.py:57-75 | title and link are the found element's `.text`, verbatim and possibly absent; reading them from a failed lookup is an error naming the tag |
| Reader.ParseDescription | src/feed/reader.py:77-90 | a missing description element, or one without markup, fails; a present element with markup succeeds; and the result is then exactly the decomposition of the parsed markup |
| Reader.ParseItem | src/feed/reader.py:42-55 | an item parses exactly when title, link and description are present and the description has markup; the result carries those texts verbatim and the decomposition; a missing title is reported before a missing link |
| Reader.ParseItems | src/feed/reader.py:40 | the comprehension succeeds exactly when every item parses; the i-th result is the i-th item's; on failure the error is that of an item that does not parse while every item before it does |
| Reader.ParseFeed | src/feed/reader.py:31-40 | a missing channel fails; otherwise one feed item per `item` child, in order, each equal to that child's parse, and success exactly when every `item` child can be parsed |
| Reader.Normalise | src/feed/reader.py:94 | after the three `replace` calls no newline, tab or no-break space is left, and the text is blank exactly when the input was |
| Reader.LStripNormalised | src/feed/reader.py:94-95 | `lstrip` of the normalised text is blank exactly when the text was, and a non-blank result starts with a non-space and has no newline, tab or no-break space |
| Reader.ParagraphBlocks | src/feed/reader.py:93-96 | a paragraph yields at most one block; none exactly when its text is all whitespace; otherwise the normalised, left-stripped text, and that block is well formed |
| Reader.AttrValues | src/feed/reader.py:98-102 | the collected attribute values are at most one per node; none when no node carries the attribute; the values of all nodes, in order, when every node carries it |
| Reader.AttrValuesAppend | src/feed/reader.py:105-107 | collecting attribute values distributes over concatenation, so values follow their nodes' document order |
| Reader.LinksBlocks | src/feed/reader.py:103-107 | one links block per `ul`, holding that list's anchors' `href`s, even when there are none |
| Reader.DivBlocks | src/feed/reader.py:97-107 | a `div` yields as many blocks as there are `img`s with `src` plus the number of `ul`s |
| Reader.DivBlocksImages | src/feed/reader.py:98-102 | the first blocks of a `div` are the images' `src`s, one per `img` that carries it, in document order |
| Reader.DivBlocksLinks | src/feed/reader.py:103-107 | after the images come the links blocks, the j-th holding the `href`s of the j-th `ul` |
| Reader.DivBlocksHaveNoText | src/feed/reader.py:97-107 | a `div` never yields a text block |
| Reader.ChildBlocks | src/feed/reader.py:92-107 | every text block a top-level node yields is well formed; a node that is neither `p` nor `div` yields nothing |
| Reader.Decompose | src/feed/reader.py:90-108 | every text block of a description is well formed: non-empty, starting with a non-space, with no newline, tab or no-break space |
| Reader.DecomposeAppend | src/feed/reader.py:92-107 | the decomposition of two fragments side by side is the first's blocks followed by the second's |
| Reader.DecomposeCons | src/feed/reader.py:92 | a leading node's blocks come before the rest's |
| Reader.DecomposeIgnoresOthers | src/feed/reader.py:92-107 | dropping every top-level node other than `p` and `div` leaves the decomposition unchanged |
| ReaderCases.FilledParagraph | src/feed/reader.py:93-96 | the paragraph `"abc\n\xa0\tdef"` becomes the single text block `"abc  def"` |
| ReaderCases.EmptyParagraph | src/feed/reader.py:93-96 | the paragraph `"\n\xa0\t"` yields no block |
| ReaderCases.DivCase | src/feed/reader.py:97-107 | a `div` with an image that has `src`, one that lacks it, and a list of three anchors of which two carry `href` gives the image block and one links block of the two `href`s |
| ReaderCases.DescriptionCase | src/feed/reader.py:90-108 | the empty paragraph, the filled paragraph and that `div` together give exactly a text, an image and a links block, in that order |
| Models.KindNamesDistinct | src/feed/models.py:63-65 | the three type names `text`, `image` and `links` are pairwise distinct, so a block's kind is determined by its `type` entry |
| Models.BlockDictRoundTrip | src/feed/models.py:71-77 | a block's dictionary has exactly the keys `type` then `content`, and reading it back gives the same block |
| Models.ItemDictRoundTrip | src/feed/models.py:43-51 | an item's dictionary reads back as the same item, with one description entry per block |
| Models.FeedDictRoundTrip | src/feed/models.py:14-20 | a feed's dictionary reads back as the same feed; its list holds the items' dictionaries in order; an empty feed gives `{feed: []}` |
| Models.Middle | src/feed/models.py:29-30 | the entries joined by `,` are empty exactly for no items; otherwise their length is the entries' total length plus one separator per neighbouring pair, and they start with the first entry |
| Models.Envelope | src/feed/models.py:29-30 | the text always starts with `{"feed": [` and ends with `]}`, and is exactly those two pieces for no items |
| Models.ToJson | src/feed/models.py:22-30 | `to_json` always has the `{"feed": [` prefix and the `]}` suffix, and is `{"feed": []}` exactly when the feed is empty |
| Models.ToJsonSingle | src/feed/models.py:29-30 | a one-item feed is written `{"feed": ["item": <item's JSON>]}`, the pair bare inside the array |
| Models.ToJsonStartsWithBarePair | src/feed/models.py:29-30 | a non-empty feed's text starts with `{"feed": ["item": {` |
| Models.ToJsonAppend | src/feed/models.py:29-30 | joining two non-empty feeds puts exactly one `,` between their entries |
| Models.EnvelopeExample | src/feed/models.py:29-30 | an item dictionary `{"a": "a", "b": "b", "c": []}` gives exactly `{"feed": ["item": {"a": "a", "b": "b", "c": []}]}` |
| Json.Encode | src/feed/models.py:29 | `json.dumps` writes `None` as `null`; strings, lists and dictionaries open and close with their own delimiters; no raw control character appears |
| Json.EscapeChar | src/feed/models.py:29 | a character is written as itself or as a backslash escape, never as a raw control character |
| Json.UnescapeEscape | src/feed/models.py:29 | decoding the escaped body of any string gives that string back |
| Json.EscapePlain | src/feed/models.py:29 | a string without quotes, backslashes or control characters is written unchanged |
| AsWritten.ValuesAsWritten | src/feed/reader.py:100-107 | the comprehension as written collects at most one value per tag, and raises `KeyError(key)` exactly when some tag passes the membership test without carrying the attribute |
| AsWritten.LinksAsWritten | src/feed/reader.py:103-107 | the list loop as written gives one links block per `ul`, each holding that list's as-written values, and raises `KeyError('href')` exactly when some list's comprehension raises |
| AsWritten.DivBlocksAsWritten | src/feed/reader.py:97-107 | the `div` rule as written raises only `KeyError('src')` or `KeyError('href')`, and raises exactly when the image loop or the list loop does |
| AsWritten.DivAsWrittenAgree | src/feed/reader.py:97-107 | where the membership tests agree with attribute presence on every `img` and every anchor, the as-written rule gives exactly the corrected rule's blocks |
| AsWritten.ValuesAsWrittenNeverMatch | src/feed/reader.py:100 | when no tag has a child text equal to the attribute name, nothing is collected, whatever attributes the tags carry |
| AsWritten.ValuesAsWrittenAgree | src/feed/reader.py:100-107 | where the membership test and attribute presence agree on every tag, the as-written rule collects exactly the corrected rule's values |
| AsWritten.ImageDropped | src/feed/reader.py:100-102 | for `<div><img src="image_url"></div>` the rule as written yields no block, while the corrected rule yields the image |
| AsWritten.AnchorRaises | src/feed/reader.py:105-107 | for `<div><ul><a>href</a></ul></div>` the rule as written raises `KeyError('href')`, while the corrected rule yields one empty links block |
| Strings.Remove | src/feed/reader.py:94 | `replace('\n', '')` leaves no newline, keeps every other character, and keeps the multiset of the others |
| Strings.Replace | src/feed/reader.py:94 | replacing one character by another changes exactly the positions that held it |
| Strings.LStrip | src/feed/reader.py:94 | `lstrip` drops a whitespace prefix and leaves a suffix that is empty or starts with a non-space |
| Html.FindAllIsNamedDescendants | src/feed/reader.py:98 | `find_all(name)` is the descendants named `name`, in document order |
| Html.GetTextIsDescendantTexts | src/feed/reader.py:94 | `get_text("")` is the concatenation of the text runs among the descendants, in document order |
| Results.TraverseSucceeds | src/feed/reader.py:40 | a comprehension over a raising function succeeds exactly when the first failing position is past the end |

## Left out

- Fetching the feed over HTTP (`FeedReader.get_content`) and the XML parse
  that finds the channel (`FeedReader.get_feed_root`): the channel is an
  input to `Reader.ParseFeed`, possibly absent.
- HTML tokenising: `html.parser` as driven by the HTML library is the
  parameter `html: string -> seq<Node>` of `Reader.ParseDescription`. Comments,
  CDATA and other special string kinds are not distinguished from text runs.
- The web blueprint and the application factory (`src/feed/blueprint.py`,
  `src/app.py`) are not part of this model.
- `json.dumps` for numbers, booleans and lone surrogates: the dictionaries
  hold only strings, lists, `None` and dictionaries.
- Reader.DivBlocks: its contract states only the block count; the layout of
  the blocks is stated by `Reader.DivBlocksImages` and `Reader.DivBlocksLinks`.
- Reader.AttrValues: its contract covers the all-carry and none-carry cases
  and a length bound; the general case follows from `Reader.AttrValuesAppend`.
- These behaviours are modelled as the code implements them:
  - a missing channel makes `parse_feed` raise, because `findall` is called
    on `None`;
  - a missing `title` or `link` child makes `parse_item` raise, because
    `.text` is read from `None`;
  - `find` and `findall` with a bare tag look at direct children only;
  - a description element without text fails (`NoMarkup`).
- The `key in tag` tests at reader.py:100 and :107 are read as attribute
  presence everywhere except in `AsWritten`; see Findings.

## Findings

| source | as written | input that shows it | evidently intended | confidence | as-written member | corrected member |
|---|---|---|---|---|---|---|
| src/feed/reader.py:100 | `IMG_URL_ATTRB in img` asks the HTML library whether `"src"` is one of the tag's children, not one of its attributes | `<div><img src="image_url"></div>`: no image block is produced | one image block per `img` that carries a `src` attribute | not executed | AsWritten.ImageDropped | Reader.DivBlocksImages |
| src/feed/reader.py:107 | `LINK_REF_ATTRB in a` tests children too, and the `a[LINK_REF_ATTRB]` read that follows raises when the attribute is missing | `<div><ul><a>href</a></ul></div>`: `KeyError('href')` | anchors without `href` are skipped, giving one empty links block | not executed | AsWritten.AnchorRaises | Reader.DivBlocksLinks |
