/** Character classes and the `str` methods the feed reader relies on:
    `lstrip`, `strip`, `replace` and `join`. */
module Strings {

  import Seqs

  /** Python's `str.isspace` for one character: the code points whose
      bidirectional class is WS, B or S, or whose category is Zs. */
  predicate IsWs(c: char) {
    var k := c as int;
    || 0x09 <= k <= 0x0D
    || 0x1C <= k <= 0x20
    || k == 0x85
    || k == 0xA0
    || k == 0x1680
    || 0x2000 <= k <= 0x200A
    || k == 0x2028
    || k == 0x2029
    || k == 0x202F
    || k == 0x205F
    || k == 0x3000
  }

  /** Every character of `s` is whitespace (trivially so for the empty string). */
  predicate AllWs(s: string) {
    forall i :: 0 <= i < |s| ==> IsWs(s[i])
  }

  /** `s.lstrip()`: the longest whitespace prefix is removed. */
  function LStrip(s: string): (r: string)
    ensures |r| <= |s| && r == s[|s| - |r|..]
    ensures AllWs(s[..|s| - |r|])
    ensures r == [] || !IsWs(r[0])
  {
    if s != [] && IsWs(s[0]) then LStrip(s[1..]) else s
  }

  /** `s.rstrip()`: the longest whitespace suffix is removed. */
  function RStrip(s: string): (r: string)
    ensures |r| <= |s| && r == s[..|r|]
    ensures AllWs(s[|r|..])
    ensures r == [] || !IsWs(r[|r| - 1])
  {
    if s != [] && IsWs(s[|s| - 1]) then
      var r := RStrip(s[..|s| - 1]);
      assert s[|r|..] == s[..|s| - 1][|r|..] + [s[|s| - 1]];
      r
    else s
  }

  /** `s.strip()`: it is empty exactly when `s` is blank. */
  function Strip(s: string): (r: string)
    ensures r == [] <==> AllWs(s)
  {
    var l := LStrip(s);
    assert s == s[..|s| - |l|] + l;
    RStrip(l)
  }

  /** `s.replace(c, '')`: every occurrence of `c` is deleted, the other
      characters keep their order. */
  function Remove(s: string, c: char): (r: string)
    ensures c !in r
    ensures forall x :: x != c ==> (x in r <==> x in s)
    ensures multiset(r) == multiset(s)[c := 0]
  {
    if s == [] then []
    else
      assert s == [s[0]] + s[1..];
      (if s[0] == c then [] else [s[0]]) + Remove(s[1..], c)
  }

  /** Deleting distributes over concatenation. */
  lemma {:induction false} RemoveAppend(a: string, b: string, c: char)
    ensures Remove(a + b, c) == Remove(a, c) + Remove(b, c)
  {
    if a == [] {
      assert a + b == b;
    } else {
      assert (a + b)[1..] == a[1..] + b;
      RemoveAppend(a[1..], b, c);
    }
  }

  /** Deleting a character that does not occur changes nothing. */
  lemma {:induction false} RemoveAbsent(s: string, c: char)
    requires c !in s
    ensures Remove(s, c) == s
  {
    if s != [] {
      assert c !in s[1..] by {
        forall i | 0 <= i < |s| - 1 ensures s[1..][i] != c {
          assert s[1..][i] == s[i + 1];
        }
      }
      RemoveAbsent(s[1..], c);
      assert s == [s[0]] + s[1..];
    }
  }

  lemma RemoveSelf(c: char)
    ensures Remove([c], c) == []
  {
    assert [c][1..] == [];
  }

  /** Deleting a character that occurs once takes out just that occurrence. */
  lemma RemoveOnce(a: string, c: char, b: string)
    requires c !in a && c !in b
    ensures Remove(a + [c] + b, c) == a + b
  {
    RemoveAppend(a + [c], b, c);
    RemoveAppend(a, [c], c);
    RemoveAbsent(a, c);
    RemoveAbsent(b, c);
    RemoveSelf(c);
    Seqs.DropEmpty(Remove(a + [c], c), Remove(a, c), Remove([c], c), Remove(b, c));
  }

  /** `s.replace(a, b)` for single characters `a` and `b`. */
  function Replace(s: string, a: char, b: char): (r: string)
    ensures |r| == |s|
    ensures forall i :: 0 <= i < |s| ==> r[i] == (if s[i] == a then b else s[i])
  {
    if s == [] then [] else [if s[0] == a then b else s[0]] + Replace(s[1..], a, b)
  }

  /** Replacing a character that occurs once changes just that occurrence. */
  lemma ReplaceOnce(a: string, x: char, b: string, y: char)
    requires x !in a && x !in b
    ensures Replace(a + [x] + b, x, y) == a + [y] + b
  {
    ReplaceAppend(a + [x], b, x, y);
    ReplaceAppend(a, [x], x, y);
    ReplaceAbsent(a, x, y);
    ReplaceAbsent(b, x, y);
    assert Replace([x], x, y) == [y];
  }

  lemma ReplaceAppend(a: string, b: string, x: char, y: char)
    ensures Replace(a + b, x, y) == Replace(a, x, y) + Replace(b, x, y)
  {
    var r, q := Replace(a + b, x, y), Replace(a, x, y) + Replace(b, x, y);
    forall i | 0 <= i < |a + b| ensures r[i] == q[i] {
      if i < |a| {
        assert (a + b)[i] == a[i];
      } else {
        assert (a + b)[i] == b[i - |a|];
      }
    }
  }

  lemma ReplaceAbsent(a: string, x: char, y: char)
    requires x !in a
    ensures Replace(a, x, y) == a
  {
    var r := Replace(a, x, y);
    forall i | 0 <= i < |a| ensures r[i] == a[i] {
      assert a[i] in a;
    }
  }

  /** Total length of a list of strings. */
  function TotalLength(parts: seq<string>): nat {
    if parts == [] then 0 else |parts[0]| + TotalLength(parts[1..])
  }

  /** `sep.join(parts)`: the parts in order, one separator between each
      neighbouring pair and none at either end. */
  function Join(sep: string, parts: seq<string>): (r: string)
    ensures parts == [] ==> r == []
    ensures |parts| > 0 ==> |r| == TotalLength(parts) + (|parts| - 1) * |sep|
    ensures |parts| > 0 ==> r[..|parts[0]|] == parts[0]
  {
    if parts == [] then []
    else if |parts| == 1 then parts[0]
    else parts[0] + sep + Join(sep, parts[1..])
  }

  /** Joining two non-empty lists is joining each and putting one separator
      between the halves. */
  lemma {:induction false} JoinAppend(sep: string, a: seq<string>, b: seq<string>)
    requires a != [] && b != []
    ensures Join(sep, a + b) == Join(sep, a) + sep + Join(sep, b)
  {
    if |a| == 1 {
      assert (a + b)[1..] == b;
    } else {
      assert (a + b)[1..] == a[1..] + b;
      JoinAppend(sep, a[1..], b);
    }
  }

  /** Stripping leading whitespace does not change whether a string is blank. */
  lemma AllWsLStrip(s: string)
    ensures AllWs(LStrip(s)) <==> AllWs(s)
  {
    var l := LStrip(s);
    var k := |s| - |l|;
    if l == [] {
      assert s == s[..k];
    } else {
      assert s[k] == l[0];
    }
  }

  /** A character absent from a string is absent from each of its suffixes. */
  lemma NotInSuffix(s: string, k: nat, c: char)
    requires k <= |s| && c !in s
    ensures c !in s[k..]
  {
    forall i | 0 <= i < |s| - k ensures s[k..][i] != c {
      assert s[k..][i] == s[k + i];
    }
  }

  /** Deleting a whitespace character does not change whether a string is blank. */
  lemma AllWsRemove(s: string, c: char)
    requires IsWs(c)
    ensures AllWs(Remove(s, c)) <==> AllWs(s)
  {
    var r := Remove(s, c);
    if AllWs(r) {
      forall i | 0 <= i < |s| ensures IsWs(s[i]) {
        if s[i] != c {
          assert s[i] in s;
          assert s[i] in r;
        }
      }
    }
    if AllWs(s) {
      forall i | 0 <= i < |r| ensures IsWs(r[i]) {
        assert r[i] in r;
        assert r[i] in s;
      }
    }
  }

  /** Replacing a whitespace character by another does not change whether a
      string is blank. */
  lemma AllWsReplace(s: string, a: char, b: char)
    requires IsWs(a) && IsWs(b)
    ensures AllWs(Replace(s, a, b)) <==> AllWs(s)
  {
    var r := Replace(s, a, b);
    if AllWs(r) {
      forall i | 0 <= i < |s| ensures IsWs(s[i]) {
        assert r[i] == (if s[i] == a then b else s[i]);
      }
    }
  }
}
