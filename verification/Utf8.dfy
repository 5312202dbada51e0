/**
 UTF-8 over byte strings, as Go's unicode/utf8 reads and writes it (section 3 of RFC 3629):
 an ill-formed byte decodes to the replacement rune with size 1.
 */
module Utf8 {
  import opened Bytes

  const RUNE_ERROR: nat := 0xFFFD
  const MAX_RUNE: nat := 0x10FFFF

  predicate IsScalar(r: nat) {
    r <= MAX_RUNE && !(0xD800 <= r <= 0xDFFF)
  }

  predicate IsContinuation(b: byte) {
    0x80 <= b <= 0xBF
  }

  /** The range the second byte must lie in after the lead byte b0 of a sequence of two or more. */
  predicate SecondByteOk(b0: byte, b1: byte) {
    IsContinuation(b1) &&
    (b0 == 0xE0 ==> 0xA0 <= b1) &&
    (b0 == 0xED ==> b1 <= 0x9F) &&
    (b0 == 0xF0 ==> 0x90 <= b1) &&
    (b0 == 0xF4 ==> b1 <= 0x8F)
  }

  /** Six more bits, taken from a continuation byte. */
  function Join(high: nat, b: byte): nat
    requires IsContinuation(b)
  {
    high * 64 + (b - 0x80)
  }

  /** The continuation byte holding the low six bits of r. */
  function Low(r: nat): (b: byte)
    ensures IsContinuation(b) && Join(r / 64, b) == r
  {
    0x80 + r % 64
  }

  lemma SplitJoined(high: nat, b: byte)
    requires IsContinuation(b)
    ensures Join(high, b) / 64 == high && Low(Join(high, b)) == b
  {
  }

  /** utf8.DecodeRuneInString on a non-empty string: the rune and the bytes it takes. */
  function DecodeRune(s: seq<byte>): (d: (nat, nat))
    requires s != []
    ensures 1 <= d.1 <= |s| && d.1 <= 4
    ensures IsScalar(d.0)
  {
    var b0 := s[0];
    if b0 < 0x80 then
      (b0, 1)
    else if 0xC2 <= b0 <= 0xDF && |s| >= 2 && SecondByteOk(b0, s[1]) then
      (Join(b0 - 0xC0, s[1]), 2)
    else if 0xE0 <= b0 <= 0xEF && |s| >= 3 && SecondByteOk(b0, s[1]) && IsContinuation(s[2]) then
      (Join(Join(b0 - 0xE0, s[1]), s[2]), 3)
    else if 0xF0 <= b0 <= 0xF4 && |s| >= 4 && SecondByteOk(b0, s[1]) && IsContinuation(s[2])
        && IsContinuation(s[3]) then
      (Join(Join(Join(b0 - 0xF0, s[1]), s[2]), s[3]), 4)
    else
      (RUNE_ERROR, 1)
  }

  /** The bytes strings.Builder.WriteRune appends; a rune outside the scalar range becomes U+FFFD. */
  function EncodeRune(r: nat): (s: seq<byte>)
    ensures 1 <= |s| <= 4
  {
    if r < 0x80 then [r]
    else if r < 0x800 then [0xC0 + r / 64, Low(r)]
    else if !IsScalar(r) then [0xEF, 0xBF, 0xBD]
    else if r < 0x10000 then [0xE0 + r / 64 / 64, Low(r / 64), Low(r)]
    else [0xF0 + r / 64 / 64 / 64, Low(r / 64 / 64), Low(r / 64), Low(r)]
  }

  /** The first rune of s is the replacement for an ill-formed byte. */
  predicate Malformed(s: seq<byte>)
    requires s != []
  {
    DecodeRune(s) == (RUNE_ERROR, 1)
  }

  /** s is well-formed UTF-8. */
  predicate Valid(s: seq<byte>) {
    s == [] || (!Malformed(s) && Valid(s[DecodeRune(s).1..]))
  }

  /** s with every ill-formed byte replaced by U+FFFD (strings.ToValidUTF8, byte by byte). */
  function Sanitize(s: seq<byte>): seq<byte> {
    if s == [] then [] else EncodeRune(DecodeRune(s).0) + Sanitize(s[DecodeRune(s).1..])
  }

  /** What WriteRune wrote is read back, whatever follows it. */
  lemma DecodeEncoded(r: nat, t: seq<byte>)
    requires IsScalar(r)
    ensures DecodeRune(EncodeRune(r) + t) == (r, |EncodeRune(r)|)
  {
  }

  /** A well-formed leading rune is exactly the bytes WriteRune gives for it. */
  lemma EncodeDecoded(s: seq<byte>)
    requires s != [] && !Malformed(s)
    ensures s[..DecodeRune(s).1] == EncodeRune(DecodeRune(s).0)
  {
    var (r, n) := DecodeRune(s);
    var b0 := s[0];
    if n == 2 {
      SplitJoined(b0 - 0xC0, s[1]);
    } else if n == 3 {
      SplitJoined(b0 - 0xE0, s[1]);
      SplitJoined(Join(b0 - 0xE0, s[1]), s[2]);
    } else if n == 4 {
      SplitJoined(b0 - 0xF0, s[1]);
      SplitJoined(Join(b0 - 0xF0, s[1]), s[2]);
      SplitJoined(Join(Join(b0 - 0xF0, s[1]), s[2]), s[3]);
    }
  }

  /** WriteRune only ever writes well-formed text. */
  lemma ValidAfterRune(r: nat, t: seq<byte>)
    requires Valid(t)
    ensures Valid(EncodeRune(r) + t)
  {
    var scalar := if IsScalar(r) then r else RUNE_ERROR;
    assert EncodeRune(r) == EncodeRune(scalar);
    DecodeEncoded(scalar, t);
    assert (EncodeRune(r) + t)[|EncodeRune(r)|..] == t;
  }

  lemma {:induction false} SanitizeLength(s: seq<byte>)
    ensures |Sanitize(s)| >= |s|
    ensures Valid(s) <==> |Sanitize(s)| == |s|
  {
    if s != [] {
      var n := DecodeRune(s).1;
      SanitizeLength(s[n..]);
      if !Malformed(s) {
        EncodeDecoded(s);
        assert |EncodeRune(DecodeRune(s).0)| == n;
      }
    }
  }

  /** Replacing ill-formed bytes is the identity on exactly the well-formed strings. */
  lemma {:induction false} SanitizeFixesValid(s: seq<byte>)
    ensures Sanitize(s) == s <==> Valid(s)
  {
    if Valid(s) {
      if s != [] {
        EncodeDecoded(s);
        var (r, n) := DecodeRune(s);
        SanitizeFixesValid(s[n..]);
        assert Sanitize(s) == EncodeRune(r) + Sanitize(s[n..]);
        assert s == s[..n] + s[n..];
      }
    } else {
      SanitizeLength(s);
    }
  }
}
