/** The part of Python's `json.dumps(value, ensure_ascii=False)` the feed
    serialiser uses: dictionaries (in insertion order), lists, strings and
    `None`, with the default separators `", "` and `": "`. */
module Json {
  import opened Results
  import Strings

  /** A dictionary-shaped value as `to_dict` builds it. A dictionary keeps its
      keys in insertion order, which is the order `json.dumps` writes them. */
  datatype Value =
    | Null
    | Str(s: string)
    | List(elems: seq<Value>)
    | Dict(entries: seq<(string, Value)>)

  const HexDigits: string := "0123456789abcdef"

  /** The escape of one character inside a JSON string: backslash, quote and
      the C0 control characters are escaped (the short forms where JSON has
      one, `\u00XX` with lower-case hex otherwise); with `ensure_ascii=False`
      every other character, non-ASCII included, is written as itself. */
  function EscapeChar(c: char): (r: string)
    ensures |r| > 0
    ensures r[0] == '\\' || r == [c]
    ensures NoControl(r)
  {
    if c == '"' then "\\\""
    else if c == '\\' then "\\\\"
    else if c == '\n' then "\\n"
    else if c == '\r' then "\\r"
    else if c == '\t' then "\\t"
    else if c == '\U{8}' then "\\b"
    else if c == '\U{C}' then "\\f"
    else if (c as int) < 0x20 then
      "\\u00" + [HexDigits[(c as int) / 16], HexDigits[(c as int) % 16]]
    else [c]
  }

  /** No raw control character: what RFC 8259 section 7 demands of the
      characters between the quotes of a string. */
  predicate NoControl(s: string) {
    forall i :: 0 <= i < |s| ==> (s[i] as int) >= 0x20
  }

  lemma NoControlAppend(a: string, b: string)
    requires NoControl(a) && NoControl(b)
    ensures NoControl(a + b)
  {
    assert forall i :: |a| <= i < |a + b| ==> (a + b)[i] == b[i - |a|];
  }

  /** The body of the JSON string for `s`, quotes excluded. */
  function Escape(s: string): (r: string)
    ensures NoControl(r)
    ensures |r| >= |s|
  {
    if s == [] then []
    else
      var h := EscapeChar(s[0]);
      var t := Escape(s[1..]);
      NoControlAppend(h, t);
      h + t
  }

  /** The value of hexadecimal digit `d` (either case), if it is one. */
  function HexValue(d: char): Option<nat> {
    if '0' <= d <= '9' then Some(d as int - '0' as int)
    else if 'a' <= d <= 'f' then Some(d as int - 'a' as int + 10)
    else if 'A' <= d <= 'F' then Some(d as int - 'A' as int + 10)
    else None
  }

  /** Decodes the body of a JSON string (RFC 8259 section 7): reverses every
      escape, and fails on a raw quote, a raw control character, an unknown
      escape, or a `\u` escape naming a surrogate code unit. */
  function Unescape(s: string): (r: Option<string>)
    decreases |s|
  {
    if s == [] then Some([])
    else if s[0] == '"' || (s[0] as int) < 0x20 then None
    else if s[0] != '\\' then Prepend(s[0], Unescape(s[1..]))
    else if |s| < 2 then None
    else if s[1] == 'u' then
      if |s| < 6 then None
      else match (HexValue(s[2]), HexValue(s[3]), HexValue(s[4]), HexValue(s[5]))
        case (Some(a), Some(b), Some(c), Some(d)) =>
          var k := ((a * 16 + b) * 16 + c) * 16 + d;
          if 0xD800 <= k < 0xE000 then None
          else Prepend(k as char, Unescape(s[6..]))
        case _ => None
    else
      var e := s[1];
      var c :=
        if e == '"' then Some('"')
        else if e == '\\' then Some('\\')
        else if e == '/' then Some('/')
        else if e == 'n' then Some('\n')
        else if e == 'r' then Some('\r')
        else if e == 't' then Some('\t')
        else if e == 'b' then Some('\U{8}')
        else if e == 'f' then Some('\U{C}')
        else None;
      if c.None? then None else Prepend(c.value, Unescape(s[2..]))
  }

  function Prepend(c: char, o: Option<string>): Option<string> {
    match o
    case None => None
    case Some(t) => Some([c] + t)
  }

  lemma HexDigitValue(d: nat)
    requires d < 16
    ensures HexValue(HexDigits[d]) == Some(d)
  {
  }

  /** The characters JSON escapes with a two-character form. */
  predicate ShortEscaped(c: char) {
    c == '"' || c == '\\' || c == '\n' || c == '\r' || c == '\t' || c == '\U{8}' || c == '\U{C}'
  }

  /** Decoding undoes the escape of one character, whatever follows it. */
  lemma UnescapeEscapeChar(c: char, t: string)
    ensures Unescape(EscapeChar(c) + t) == Prepend(c, Unescape(t))
  {
    if ShortEscaped(c) {
      UnescapeShortEscape(c, t);
    } else if (c as int) < 0x20 {
      UnescapeHexEscape(c, t);
    } else {
      var s := EscapeChar(c) + t;
      assert s[1..] == t;
    }
  }

  lemma UnescapeShortEscape(c: char, t: string)
    requires ShortEscaped(c)
    ensures Unescape(EscapeChar(c) + t) == Prepend(c, Unescape(t))
  {
    var s := EscapeChar(c) + t;
    assert s[2..] == t;
  }

  lemma UnescapeHexEscape(c: char, t: string)
    requires !ShortEscaped(c) && (c as int) < 0x20
    ensures Unescape(EscapeChar(c) + t) == Prepend(c, Unescape(t))
  {
    var s := EscapeChar(c) + t;
    var k := c as int;
    HexDigitValue(k / 16);
    HexDigitValue(k % 16);
    assert s[..2] == "\\u";
    assert s[2] == '0' && s[3] == '0';
    assert s[4] == HexDigits[k / 16] && s[5] == HexDigits[k % 16];
    assert s[6..] == t;
    assert ((0 * 16 + 0) * 16 + k / 16) * 16 + k % 16 == k;
  }

  /** Round trip: decoding the escaped body of a string gives the string back. */
  lemma {:induction false} UnescapeEscape(s: string)
    ensures Unescape(Escape(s)) == Some(s)
  {
    if s != [] {
      UnescapeEscape(s[1..]);
      UnescapeEscapeChar(s[0], Escape(s[1..]));
      assert [s[0]] + s[1..] == s;
    }
  }

  /** A character JSON writes as itself inside a string. */
  predicate Plain(c: char) {
    c != '"' && c != '\\' && (c as int) >= 0x20
  }

  /** A string of plain characters is its own escape. */
  lemma {:induction false} EscapePlain(s: string)
    requires forall i :: 0 <= i < |s| ==> Plain(s[i])
    ensures Escape(s) == s
  {
    if s != [] {
      EscapePlain(s[1..]);
      assert [s[0]] + s[1..] == s;
    }
  }

  /** A JSON string literal. */
  function Quote(s: string): (r: string)
    ensures NoControl(r)
  {
    NoControlAppend("\"", Escape(s));
    NoControlAppend("\"" + Escape(s), "\"");
    "\"" + Escape(s) + "\""
  }

  /** `json.dumps(v, ensure_ascii=False)` with the default separators. Each
      kind of value opens and closes with its own delimiter, and the text
      never holds a raw control character. */
  function Encode(v: Value): (r: string)
    ensures |r| >= 2
    ensures v.Null? ==> r == "null"
    ensures v.Str? ==> r[0] == '"' && r[|r| - 1] == '"'
    ensures v.List? ==> r[0] == '[' && r[|r| - 1] == ']'
    ensures v.Dict? ==> r[0] == '{' && r[|r| - 1] == '}'
    ensures NoControl(r)
    decreases v, 1
  {
    match v
    case Null => "null"
    case Str(s) => Quote(s)
    case List(es) => "[" + EncodeElems(es) + "]"
    case Dict(_) => "{" + EncodeEntries(v, 0) + "}"
  }

  /** The elements of a list, encoded and joined with `", "`. */
  function EncodeElems(es: seq<Value>): (r: string)
    ensures NoControl(r)
    decreases es
  {
    if es == [] then ""
    else if |es| == 1 then Encode(es[0])
    else
      var h := Encode(es[0]);
      var t := EncodeElems(es[1..]);
      NoControlAppend(h, ", ");
      NoControlAppend(h + ", ", t);
      h + ", " + t
  }

  /** The entries of dictionary `d` from index `from` on, each encoded as the
      quoted key, `": "` and the encoded value, joined with `", "`. */
  function EncodeEntries(d: Value, from: nat): (r: string)
    requires d.Dict? && from <= |d.entries|
    ensures NoControl(r)
    decreases d, 0, |d.entries| - from
  {
    if from == |d.entries| then ""
    else
      var kv := d.entries[from];
      assert kv in d.entries;
      var q := Quote(kv.0);
      var e := Encode(kv.1);
      NoControlAppend(q, ": ");
      NoControlAppend(q + ": ", e);
      var entry := q + ": " + e;
      if from + 1 == |d.entries| then entry
      else
        var t := EncodeEntries(d, from + 1);
        NoControlAppend(entry, ", ");
        NoControlAppend(entry + ", ", t);
        entry + ", " + t
  }
}
