/**
 * Commit and change ids as templates show them: the lower-case hex encoding
 * of the id's bytes, its 12-digit short form, and the short form with the
 * shortest unique prefix set off by brackets.
 */
module Ids {
  import opened RepoView

  /** A lower-case hex digit. */
  predicate IsHexDigit(c: char)
  {
    '0' <= c <= '9' || 'a' <= c <= 'f'
  }

  /** The digit of a nibble. */
  function HexDigit(n: nat): (c: char)
    requires n < 16
    ensures IsHexDigit(c)
  {
    if n < 10 then ('0' as int + n) as char else ('a' as int + n - 10) as char
  }

  /** The nibble of a digit: the inverse of `HexDigit`. */
  function DigitValue(c: char): (n: nat)
    requires IsHexDigit(c)
    ensures n < 16 && HexDigit(n) == c
  {
    if '0' <= c <= '9' then c as int - '0' as int else c as int - 'a' as int + 10
  }

  lemma DigitValueOfHexDigit(n: nat)
    requires n < 16
    ensures DigitValue(HexDigit(n)) == n
  {
  }

  predicate IsHex(s: string)
  {
    forall i :: 0 <= i < |s| ==> IsHexDigit(s[i])
  }

  /** `hex::encode`: two lower-case digits per byte, the high nibble first. */
  function Hex(bytes: seq<byte>): (h: string)
    ensures |h| == 2 * |bytes|
    ensures IsHex(h)
  {
    if bytes == [] then ""
    else [HexDigit(bytes[0] as nat / 16), HexDigit(bytes[0] as nat % 16)] + Hex(bytes[1..])
  }

  /** Decoding an even-length hex string, the partner of `Hex`. */
  function Unhex(h: string): (bytes: seq<byte>)
    requires |h| % 2 == 0 && IsHex(h)
    ensures 2 * |bytes| == |h|
  {
    if h == [] then []
    else [(DigitValue(h[0]) * 16 + DigitValue(h[1])) as byte] + Unhex(h[2..])
  }

  lemma {:induction false} UnhexHex(bytes: seq<byte>)
    ensures Unhex(Hex(bytes)) == bytes
    decreases |bytes|
  {
    if bytes != [] {
      var h := Hex(bytes);
      var b := bytes[0] as nat;
      DigitValueOfHexDigit(b / 16);
      DigitValueOfHexDigit(b % 16);
      assert h[2..] == Hex(bytes[1..]);
      UnhexHex(bytes[1..]);
    }
  }

  lemma {:induction false} HexUnhex(h: string)
    requires |h| % 2 == 0 && IsHex(h)
    ensures Hex(Unhex(h)) == h
    decreases |h|
  {
    if h != [] {
      var bytes := Unhex(h);
      var b := DigitValue(h[0]) * 16 + DigitValue(h[1]);
      assert b / 16 == DigitValue(h[0]) && b % 16 == DigitValue(h[1]);
      assert bytes[1..] == Unhex(h[2..]);
      HexUnhex(h[2..]);
      assert h == [h[0], h[1]] + h[2..];
    }
  }

  /** Distinct ids have distinct hex forms. */
  lemma HexInjective(a: seq<byte>, b: seq<byte>)
    requires Hex(a) == Hex(b)
    ensures a == b
  {
    UnhexHex(a);
    UnhexHex(b);
  }

  /** The first `2k` digits encode the first `k` bytes. */
  lemma {:induction false} HexPrefix(bytes: seq<byte>, k: nat)
    requires k <= |bytes|
    ensures Hex(bytes)[..2 * k] == Hex(bytes[..k])
    decreases k
  {
    if k > 0 {
      HexPrefix(bytes[1..], k - 1);
      assert bytes[..k][1..] == bytes[1..][..k - 1];
      assert bytes[..k][0] == bytes[0];
    }
  }

  /** `String::truncate`: the first `n` characters, or all of them. */
  function Truncate(s: string, n: nat): (r: string)
    ensures |r| == if |s| <= n then |s| else n
    ensures r == s[..|r|]
  {
    if |s| <= n then s else s[..n]
  }

  const ShortLen: nat := 12

  /** `CommitOrChangeId::short`: at most twelve leading hex digits. */
  function Short(id: seq<byte>): (r: string)
    ensures |r| == if 2 * |id| <= ShortLen then 2 * |id| else ShortLen
    ensures r == Hex(id)[..|r|]
  {
    Truncate(Hex(id), ShortLen)
  }

  /** The short form depends only on the first six bytes. */
  lemma ShortUsesSixBytes(id: seq<byte>)
    requires |id| >= 6
    ensures Short(id) == Hex(id[..6])
  {
    HexPrefix(id, 6);
  }

  predicate IsBracket(c: char)
  {
    c == '[' || c == ']'
  }

  /** `highlight_shortest_prefix`: when the unique prefix is shorter than
      `totalLen - 2`, the prefix followed by the next digits in brackets,
      `totalLen` characters in all; otherwise the first `totalLen` digits.
      The slices demand enough digits, and `totalLen - 2` must not
      underflow. */
  function HighlightShortestPrefix(hex: string, totalLen: nat, prefixLen: nat): (r: string)
    requires 2 <= totalLen
    requires prefixLen < totalLen - 2 ==> totalLen - 2 <= |hex|
    ensures prefixLen < totalLen - 2 ==>
              && |r| == totalLen
              && r[prefixLen] == '[' && r[totalLen - 1] == ']'
              && r[..prefixLen] == hex[..prefixLen]
              && r[prefixLen + 1..totalLen - 1] == hex[prefixLen..totalLen - 2]
    ensures prefixLen >= totalLen - 2 ==> r == Truncate(hex, totalLen)
  {
    if prefixLen < totalLen - 2 then
      hex[..prefixLen] + "[" + hex[prefixLen..totalLen - 2] + "]"
    else
      Truncate(hex, totalLen)
  }

  /** `CommitOrChangeId::short_prefix_and_brackets`, given the length of the
      shortest prefix that is unique in the repository. */
  function ShortPrefixAndBrackets(id: seq<byte>, prefixLen: nat): (r: string)
    requires prefixLen < ShortLen - 2 ==> ShortLen - 2 <= 2 * |id|
    ensures |r| == if prefixLen < ShortLen - 2 then ShortLen else |Short(id)|
    ensures prefixLen < ShortLen - 2 ==> r[..prefixLen] == Short(id)[..prefixLen] && r[prefixLen] == '['
  {
    HighlightShortestPrefix(Hex(id), ShortLen, prefixLen)
  }

  /** The characters of `s` other than brackets. */
  function Unbracketed(s: string): string
  {
    if s == [] then [] else Unbracketed(s[..|s| - 1]) + (if IsBracket(s[|s| - 1]) then [] else [s[|s| - 1]])
  }

  lemma {:induction false} UnbracketedAppend(a: string, b: string)
    ensures Unbracketed(a + b) == Unbracketed(a) + Unbracketed(b)
    decreases |b|
  {
    if b != [] {
      var front := b[..|b| - 1];
      var last := b[|b| - 1];
      var tail := if IsBracket(last) then [] else [last];
      assert (a + b)[..|a + b| - 1] == a + front;
      assert (a + b)[|a + b| - 1] == last;
      UnbracketedAppend(a, front);
      calc {
        Unbracketed(a + b);
        Unbracketed(a + front) + tail;
        Unbracketed(a) + Unbracketed(front) + tail;
        Unbracketed(a) + (Unbracketed(front) + tail);
        Unbracketed(a) + Unbracketed(b);
      }
    } else {
      assert a + b == a;
    }
  }

  lemma {:induction false} UnbracketedHex(s: string)
    requires IsHex(s)
    ensures Unbracketed(s) == s
    decreases |s|
  {
    if s != [] {
      assert IsHexDigit(s[|s| - 1]);
      UnbracketedHex(s[..|s| - 1]);
    }
  }

  /** With the brackets taken out, the highlighted id is the short id, cut
      to ten digits when brackets were added; with a long unique prefix it
      is exactly the short id. */
  lemma ShortPrefixAndBracketsDigits(id: seq<byte>, prefixLen: nat)
    requires prefixLen < ShortLen - 2 ==> ShortLen - 2 <= 2 * |id|
    ensures prefixLen < ShortLen - 2 ==> Unbracketed(ShortPrefixAndBrackets(id, prefixLen)) == Short(id)[..ShortLen - 2]
    ensures prefixLen >= ShortLen - 2 ==> ShortPrefixAndBrackets(id, prefixLen) == Short(id)
  {
    var hex := Hex(id);
    if prefixLen < ShortLen - 2 {
      UnbracketedAround(hex[..prefixLen], hex[prefixLen..ShortLen - 2]);
      assert hex[..prefixLen] + hex[prefixLen..ShortLen - 2] == hex[..ShortLen - 2];
    }
  }

  /** Brackets around a run of digits come out again. */
  lemma UnbracketedAround(a: string, b: string)
    requires IsHex(a) && IsHex(b)
    ensures Unbracketed(a + "[" + b + "]") == a + b
  {
    UnbracketedAppend(a + "[" + b, "]");
    UnbracketedAppend(a + "[", b);
    UnbracketedAppend(a, "[");
    assert Unbracketed("[") == [] by { assert "["[..0] == []; }
    assert Unbracketed("]") == [] by { assert "]"[..0] == []; }
    UnbracketedHex(a);
    UnbracketedHex(b);
  }

  /** The id `abcdef012345...` with a four-digit unique prefix shows as
      `abcd[ef0123]`. */
  lemma HighlightExample(rest: seq<byte>)
    ensures ShortPrefixAndBrackets([0xab, 0xcd, 0xef, 0x01, 0x23, 0x45] + rest, 4) == "abcd[ef0123]"
  {
    var id: seq<byte> := [0xab, 0xcd, 0xef, 0x01, 0x23, 0x45] + rest;
    HexPrefix(id, 6);
    assert id[..6] == [0xab, 0xcd, 0xef, 0x01, 0x23, 0x45];
    var six: seq<byte> := [0xab, 0xcd, 0xef, 0x01, 0x23, 0x45];
    assert Hex(six[5..]) == "45";
    assert Hex(six[4..]) == "2345";
    assert Hex(six[3..]) == "012345";
    assert Hex(six[2..]) == "ef012345";
    assert Hex(six[1..]) == "cdef012345";
    assert Hex(six) == "abcdef012345";
    assert Hex(id)[..4] == "abcd";
    assert Hex(id)[4..10] == "ef0123";
  }
}
