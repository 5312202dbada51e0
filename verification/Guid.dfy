/** GUIDs and their canonical text (section 3 of RFC 4122). */
module Guid {
  import opened Wrappers
  import opened Bytes

  type Guid = g: seq<byte> | |g| == 16 witness seq(16, _ => 0)

  const NULL_GUID: Guid := [0, 0, 0, 0, 0, 0, 0, 0, 0, 0, 0, 0, 0, 0, 0, 0]

  const HYPHEN: byte := 0x2D

  function LowerHex(v: nat): (b: byte)
    requires v < 16
    ensures IsHexDigit(b) && HexValue(b) == v && b != HYPHEN
  {
    if v < 10 then 0x30 + v else 0x61 + (v - 10)
  }

  function High(b: byte): byte { LowerHex(b / 16) }

  function Low(b: byte): byte { LowerHex(b % 16) }

  predicate IsHyphenAt(k: nat) {
    k == 8 || k == 13 || k == 18 || k == 23
  }

  /** The character at position k of the text. */
  function TextAt(g: Guid, k: nat): byte
    requires k < 36
  {
    var hyphens := if k < 8 then 0 else if k < 13 then 1 else if k < 18 then 2 else if k < 23 then 3 else 4;
    if IsHyphenAt(k) then HYPHEN
    else if (k - hyphens) % 2 == 0 then High(g[(k - hyphens) / 2])
    else Low(g[(k - hyphens) / 2])
  }

  /** Lower-case hex in groups of 8, 4, 4, 4 and 12 digits. */
  function Format(g: Guid): (s: seq<byte>)
    ensures |s| == 36
  {
    seq(36, k requires 0 <= k < 36 => TextAt(g, k))
  }

  /** Where the two digits of byte i stand in the text. */
  function Position(i: nat): (k: nat)
    requires i < 16
    ensures k + 1 < 36
  {
    2 * i + (if i < 4 then 0 else if i < 6 then 1 else if i < 8 then 2 else if i < 10 then 3 else 4)
  }

  predicate IsHexPair(s: seq<byte>, k: nat)
    requires k + 1 < |s|
  {
    IsHexDigit(s[k]) && IsHexDigit(s[k + 1])
  }

  function HexPair(s: seq<byte>, k: nat): byte
    requires k + 1 < |s| && IsHexPair(s, k)
  {
    HexValue(s[k]) * 16 + HexValue(s[k + 1])
  }

  /** Reads the canonical 36-character form, in either case. */
  function Parse(s: seq<byte>): Option<Guid> {
    if |s| == 36 && s[8] == HYPHEN && s[13] == HYPHEN && s[18] == HYPHEN && s[23] == HYPHEN &&
       forall i :: 0 <= i < 16 ==> IsHexPair(s, Position(i))
    then Some(seq(16, i requires 0 <= i < 16 => HexPair(s, Position(i))))
    else None
  }

  lemma FormatAt(g: Guid, i: nat)
    requires i < 16
    ensures Format(g)[Position(i)] == High(g[i]) && Format(g)[Position(i) + 1] == Low(g[i])
  {
  }

  lemma ParseFormat(g: Guid)
    ensures Parse(Format(g)) == Some(g)
  {
    var s := Format(g);
    forall i | 0 <= i < 16
      ensures IsHexPair(s, Position(i)) && HexPair(s, Position(i)) == g[i]
    {
      FormatAt(g, i);
    }
    assert Parse(s).value == g;
  }

  predicate InAlphabet(b: byte) {
    0x30 <= b <= 0x39 || 0x61 <= b <= 0x66 || b == HYPHEN
  }

  /** The text uses only lower-case hex digits and hyphens. */
  lemma FormatAlphabet(g: Guid)
    ensures forall k :: 0 <= k < 36 ==> InAlphabet(Format(g)[k])
  {
  }

  // ---------- the text as it stands ----------

  const LOWER: seq<byte> :=
    [0x30, 0x31, 0x32, 0x33, 0x34, 0x35, 0x36, 0x37, 0x38, 0x39, 0x61, 0x62, 0x63, 0x64, 0x65, 0x66]

  /** Two lower-case hex digits for each byte. */
  function HexText(b: seq<byte>): (s: seq<byte>)
    ensures |s| == 2 * |b|
  {
    if b == [] then [] else [LOWER[b[0] / 16], LOWER[b[0] % 16]] + HexText(b[1..])
  }

  lemma {:induction false} HexTextAt(b: seq<byte>, i: nat)
    requires i < |b|
    ensures HexText(b)[2 * i] == LOWER[b[i] / 16] && HexText(b)[2 * i + 1] == LOWER[b[i] % 16]
  {
    if i > 0 {
      HexTextAt(b[1..], i - 1);
    }
  }

  lemma LowerIs(v: nat)
    requires v < 16
    ensures LowerHex(v) == LOWER[v]
  {
  }

  /** Five groups of hex digits with hyphens between. */
  lemma FormatIs(g: Guid)
    ensures Format(g) == HexText(g[0..4]) + [0x2D] + HexText(g[4..6]) + [0x2D] + HexText(g[6..8]) + [0x2D]
                         + HexText(g[8..10]) + [0x2D] + HexText(g[10..16])
  {
    var a, b, c, d, e := HexText(g[0..4]), HexText(g[4..6]), HexText(g[6..8]), HexText(g[8..10]), HexText(g[10..16]);
    var s := a + [0x2D] + b + [0x2D] + c + [0x2D] + d + [0x2D] + e;
    Groups(a, b, c, d, e, s);
    WholeGroup(g, s, 0, 4, 0);
    WholeGroup(g, s, 4, 6, 9);
    WholeGroup(g, s, 6, 8, 14);
    WholeGroup(g, s, 8, 10, 19);
    WholeGroup(g, s, 10, 16, 24);
    AtPositions(g, s);
  }

  lemma WholeGroup(g: Guid, s: seq<byte>, from: nat, to: nat, k: nat)
    requires from <= to <= 16 && |s| == 36 && k + 2 * (to - from) <= 36
    requires s[k..k + 2 * (to - from)] == HexText(g[from..to])
    requires forall i :: from <= i < to ==> Position(i) == k + 2 * (i - from)
    ensures forall i :: from <= i < to ==> s[Position(i)] == High(g[i]) && s[Position(i) + 1] == Low(g[i])
  {
    forall i | from <= i < to ensures s[Position(i)] == High(g[i]) && s[Position(i) + 1] == Low(g[i]) {
      InGroup(g, s, i, from, to, k);
      LowerIs(g[i] / 16);
      LowerIs(g[i] % 16);
    }
  }

  lemma Groups(a: seq<byte>, b: seq<byte>, c: seq<byte>, d: seq<byte>, e: seq<byte>, s: seq<byte>)
    requires |a| == 8 && |b| == |c| == |d| == 4 && |e| == 12
    requires s == a + [0x2D] + b + [0x2D] + c + [0x2D] + d + [0x2D] + e
    ensures |s| == 36 && s[8] == s[13] == s[18] == s[23] == 0x2D
    ensures s[0..8] == a && s[9..13] == b && s[14..18] == c && s[19..23] == d && s[24..36] == e
  {
  }

  /** The digits of byte i in the group that begins at byte `from` and at position k. */
  lemma InGroup(g: Guid, s: seq<byte>, i: nat, from: nat, to: nat, k: nat)
    requires from <= i < to <= 16 && |s| == 36 && k + 2 * (to - from) <= 36
    requires s[k..k + 2 * (to - from)] == HexText(g[from..to])
    ensures s[k + 2 * (i - from)] == LOWER[g[i] / 16] && s[k + 2 * (i - from) + 1] == LOWER[g[i] % 16]
  {
    var t, j := s[k..k + 2 * (to - from)], i - from;
    HexTextAt(g[from..to], j);
    assert t[2 * j] == s[k + 2 * j] && t[2 * j + 1] == s[k + 2 * j + 1];
  }

  /** The positions of the digits and of the hyphens are all there are. */
  lemma AtPositions(g: Guid, s: seq<byte>)
    requires |s| == 36 && s[8] == s[13] == s[18] == s[23] == HYPHEN
    requires forall i :: 0 <= i < 16 ==> s[Position(i)] == High(g[i]) && s[Position(i) + 1] == Low(g[i])
    ensures Format(g) == s
  {
    forall k | 0 <= k < 36 ensures TextAt(g, k) == s[k] {
      if !IsHyphenAt(k) {
        var i := ByteAt(k);
        assert s[Position(i)] == High(g[i]) && s[Position(i) + 1] == Low(g[i]);
      }
    }
  }

  /** Which byte stands at a position. */
  lemma ByteAt(k: nat) returns (i: nat)
    requires k < 36 && !IsHyphenAt(k)
    ensures i < 16 && (k == Position(i) || k == Position(i) + 1)
    ensures forall g: Guid :: TextAt(g, k) == if k == Position(i) then High(g[i]) else Low(g[i])
  {
    var hyphens := if k < 8 then 0 else if k < 13 then 1 else if k < 18 then 2 else if k < 23 then 3 else 4;
    i := (k - hyphens) / 2;
    assert k - hyphens == 2 * i || k - hyphens == 2 * i + 1;
  }

  /** A letter A to F in lower case; every other byte as it is. */
  function InLower(b: byte): byte {
    if 0x41 <= b <= 0x46 then b + 0x20 else b
  }

  lemma PairIff(x: byte, y: byte, b: byte)
    ensures IsHexDigit(x) && IsHexDigit(y) && HexValue(x) * 16 + HexValue(y) == b
            <==> InLower(x) == High(b) && InLower(y) == Low(b)
  {
    DigitIff(x, b / 16);
    DigitIff(y, b % 16);
  }

  lemma DigitIff(x: byte, v: nat)
    requires v < 16
    ensures IsHexDigit(x) && HexValue(x) == v <==> InLower(x) == LowerHex(v)
  {
  }

  /** A text parses as a GUID exactly when it is the canonical text of it but for upper-case digits. */
  lemma ParseIff(s: seq<byte>, g: Guid)
    ensures Parse(s) == Some(g) <==> |s| == 36 && forall k :: 0 <= k < 36 ==> InLower(s[k]) == Format(g)[k]
  {
    if |s| == 36 {
      forall i | 0 <= i < 16
        ensures IsHexPair(s, Position(i)) && HexPair(s, Position(i)) == g[i]
                <==> InLower(s[Position(i)]) == High(g[i]) && InLower(s[Position(i) + 1]) == Low(g[i])
      {
        PairIff(s[Position(i)], s[Position(i) + 1], g[i]);
      }
      forall i | 0 <= i < 16 ensures Format(g)[Position(i)] == High(g[i]) && Format(g)[Position(i) + 1] == Low(g[i]) {
        FormatAt(g, i);
      }
      var lower: seq<byte> := seq(36, k requires 0 <= k < 36 => InLower(s[k]));
      if Parse(s) == Some(g) {
        AtPositions(g, lower);
      }
      if forall k :: 0 <= k < 36 ==> InLower(s[k]) == Format(g)[k] {
        assert Parse(s).value == g;
      }
    }
  }
}
