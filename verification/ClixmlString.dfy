/**
 The CLIXML string codec: control characters, supplementary characters and literal `_x`
 prefixes travel as `_xHHHH_` UTF-16 code units inside UTF-8 text.
 */
module ClixmlString {
  import opened Bytes
  import opened Utf8

  const UNDERSCORE: byte := 0x5F

  predicate IsX(b: byte) {
    b == 0x78 || b == 0x58
  }

  function HexDigit(v: nat): (b: byte)
    requires v < 16
    ensures IsHexDigit(b) && HexValue(b) == v
  {
    if v < 10 then 0x30 + v else 0x41 + (v - 10)
  }

  predicate IsHex4(s: seq<byte>) {
    |s| == 4 && IsHexDigit(s[0]) && IsHexDigit(s[1]) && IsHexDigit(s[2]) && IsHexDigit(s[3])
  }

  function ParseHex4(s: seq<byte>): (v: uint16)
    requires IsHex4(s)
  {
    ((HexValue(s[0]) * 16 + HexValue(s[1])) * 16 + HexValue(s[2])) * 16 + HexValue(s[3])
  }

  /** The seven bytes of one `_xHHHH_` escape. */
  function Hex4(v: uint16): (s: seq<byte>)
    ensures |s| == 7
  {
    [UNDERSCORE, 0x78, HexDigit(v / 16 / 16 / 16), HexDigit(v / 16 / 16 % 16), HexDigit(v / 16 % 16),
     HexDigit(v % 16), UNDERSCORE]
  }

  /** Text that begins with an escape sequence. */
  predicate StartsEscape(s: seq<byte>) {
    |s| >= 7 && s[0] == UNDERSCORE && IsX(s[1]) && IsHex4(s[2..6]) && s[6] == UNDERSCORE
  }

  function Unit(s: seq<byte>): uint16
    requires StartsEscape(s)
  {
    ParseHex4(s[2..6])
  }

  predicate IsHighSurrogate(u: nat) {
    0xD800 <= u <= 0xDBFF
  }

  predicate IsLowSurrogate(u: nat) {
    0xDC00 <= u <= 0xDFFF
  }

  /** utf16.EncodeRune (section 2.1 of RFC 2781). */
  function Surrogates(r: nat): (p: (uint16, uint16))
    requires 0x10000 <= r <= MAX_RUNE
    ensures IsHighSurrogate(p.0) && IsLowSurrogate(p.1)
  {
    (0xD800 + (r - 0x10000) / 1024, 0xDC00 + (r - 0x10000) % 1024)
  }

  /** utf16.DecodeRune on a proper pair (section 2.2 of RFC 2781). */
  function FromSurrogates(high: nat, low: nat): (r: nat)
    requires IsHighSurrogate(high) && IsLowSurrogate(low)
    ensures 0x10000 <= r <= MAX_RUNE
  {
    0x10000 + (high - 0xD800) * 1024 + (low - 0xDC00)
  }

  predicate NeedsCharEscape(r: nat) {
    r <= 0x1F || 0x7F <= r <= 0x9F || 0xD800 <= r <= 0xDFFF || r > 0xFFFF
  }

  /** s begins with an underscore that an x follows. */
  predicate StartsUnderscoreX(s: seq<byte>) {
    |s| >= 2 && s[0] == UNDERSCORE && IsX(s[1])
  }

  // ---------- the encoder ----------

  /** What the encoder writes for the first rune of s. */
  function EncodeStep(s: seq<byte>): (out: seq<byte>)
    requires s != []
  {
    var r := DecodeRune(s).0;
    if StartsUnderscoreX(s) then Hex4(0x5F)
    else if r > 0xFFFF then Hex4(Surrogates(r).0) + Hex4(Surrogates(r).1)
    else if NeedsCharEscape(r) then Hex4(r)
    else EncodeRune(r)
  }

  /** The slow loop of the encoder. */
  function EncodeSlow(s: seq<byte>): seq<byte> {
    if s == [] then [] else EncodeStep(s) + EncodeSlow(s[DecodeRune(s).1..])
  }

  predicate NeedsEncoding(s: seq<byte>) {
    s != [] &&
    (NeedsCharEscape(DecodeRune(s).0) || StartsUnderscoreX(s) || NeedsEncoding(s[DecodeRune(s).1..]))
  }

  function Encode(s: seq<byte>): seq<byte> {
    if NeedsEncoding(s) then EncodeSlow(s) else s
  }

  // ---------- the decoder ----------

  /** What the decoder writes at the front of s, and how many bytes it takes there. */
  function DecodeStep(s: seq<byte>): (d: (seq<byte>, nat))
    requires s != []
    ensures 1 <= d.1 <= |s|
    ensures |d.0| <= d.1
  {
    if !StartsEscape(s) then ([s[0]], 1)
    else if IsHighSurrogate(Unit(s)) && StartsEscape(s[7..]) && IsLowSurrogate(Unit(s[7..])) then
      (EncodeRune(FromSurrogates(Unit(s), Unit(s[7..]))), 14)
    else (EncodeRune(Unit(s)), 7)
  }

  /** The slow loop of the decoder. */
  function DecodeSlow(s: seq<byte>): seq<byte> {
    if s == [] then [] else DecodeStep(s).0 + DecodeSlow(s[DecodeStep(s).1..])
  }

  predicate ContainsEscape(s: seq<byte>) {
    |s| >= 2 && (StartsUnderscoreX(s) || ContainsEscape(s[1..]))
  }

  function Decode(s: seq<byte>): seq<byte> {
    if ContainsEscape(s) then DecodeSlow(s) else s
  }

  // ---------- the loops of the source ----------

  method ParseHex4Loop(s: seq<byte>) returns (val: uint16)
    requires IsHex4(s)
    ensures val == ParseHex4(s)
  {
    val := 0;
    var i := 0;
    while i < |s|
      invariant 0 <= i <= 4
      invariant i == 0 ==> val == 0
      invariant i == 1 ==> val == HexValue(s[0])
      invariant i == 2 ==> val == HexValue(s[0]) * 16 + HexValue(s[1])
      invariant i == 3 ==> val == (HexValue(s[0]) * 16 + HexValue(s[1])) * 16 + HexValue(s[2])
      invariant i == 4 ==> val == ParseHex4(s)
    {
      var c := s[i];
      if 0x30 <= c <= 0x39 {
        val := val * 16 + (c - 0x30);
      } else if 0x61 <= c <= 0x66 {
        val := val * 16 + (c - 0x61 + 10);
      } else {
        val := val * 16 + (c - 0x41 + 10);
      }
      i := i + 1;
    }
  }

  /** Appends one escape to the builder through a seven-byte buffer. */
  method WriteHex4(b: seq<byte>, v: uint16) returns (b': seq<byte>)
    ensures b' == b + Hex4(v)
  {
    var buf := new byte[7];
    buf[0], buf[1] := UNDERSCORE, 0x78;
    buf[2] := HexDigit(v / 4096 % 16);
    buf[3] := HexDigit(v / 256 % 16);
    buf[4] := HexDigit(v / 16 % 16);
    buf[5] := HexDigit(v % 16);
    buf[6] := UNDERSCORE;
    assert v / 4096 % 16 == v / 16 / 16 / 16 && v / 256 == v / 16 / 16;
    assert buf[..] == Hex4(v);
    b' := b + buf[..];
  }

  method NeedsClixmlEncoding(s: seq<byte>) returns (needs: bool)
    ensures needs == NeedsEncoding(s)
  {
    var i := 0;
    while i < |s|
      invariant 0 <= i <= |s|
      invariant NeedsEncoding(s) == NeedsEncoding(s[i..])
    {
      var (r, size) := DecodeRune(s[i..]);
      if NeedsCharEscape(r) {
        return true;
      }
      if r == UNDERSCORE && i + size < |s| && IsX(s[i + size]) {
        return true;
      }
      assert s[i..][size..] == s[i + size..];
      i := i + size;
    }
    return false;
  }

  method ContainsClixmlEscape(s: seq<byte>) returns (found: bool)
    ensures found == ContainsEscape(s)
  {
    var i := 0;
    while i < |s| - 1
      invariant 0 <= i <= |s|
      invariant ContainsEscape(s) == ContainsEscape(s[i..])
    {
      if s[i] == UNDERSCORE && IsX(s[i + 1]) {
        return true;
      }
      assert s[i..][1..] == s[i + 1..];
      i := i + 1;
    }
    return false;
  }

  /** The body of the encoder's loop: appends what the rune at s[i] becomes. */
  method EncodeAt(s: seq<byte>, i: nat, b: seq<byte>) returns (b': seq<byte>, size: nat)
    requires i < |s|
    ensures b' == b + EncodeStep(s[i..]) && size == DecodeRune(s[i..]).1
  {
    var r := DecodeRune(s[i..]).0;
    size := DecodeRune(s[i..]).1;
    if r == UNDERSCORE && i + size < |s| && IsX(s[i + size]) {
      b' := b + [UNDERSCORE, 0x78, 0x30, 0x30, 0x35, 0x46, UNDERSCORE];
    } else if NeedsCharEscape(r) {
      if r > 0xFFFF {
        b' := WriteHex4(b, Surrogates(r).0);
        b' := WriteHex4(b', Surrogates(r).1);
      } else {
        b' := WriteHex4(b, r);
      }
    } else {
      b' := b + EncodeRune(r);
    }
  }

  lemma EncodeSlowAt(out: seq<byte>, s: seq<byte>, i: nat)
    requires i < |s|
    ensures out + EncodeSlow(s[i..]) == out + EncodeStep(s[i..]) + EncodeSlow(s[i + DecodeRune(s[i..]).1..])
  {
    var t, n := s[i..], DecodeRune(s[i..]).1;
    assert t[n..] == s[i + n..];
  }

  method EncodeClixmlString(s: seq<byte>) returns (out: seq<byte>)
    ensures out == Encode(s)
  {
    var needs := NeedsClixmlEncoding(s);
    if !needs {
      return s;
    }
    out := [];
    var i := 0;
    ghost var whole := EncodeSlow(s);
    assert s[0..] == s;
    while i < |s|
      invariant 0 <= i <= |s|
      invariant whole == out + EncodeSlow(s[i..])
    {
      EncodeSlowAt(out, s, i);
      var size;
      out, size := EncodeAt(s, i, out);
      i := i + size;
    }
  }

  /** The body of the decoder's loop: appends what stands at s[i] and says how far to go. */
  method DecodeAt(s: seq<byte>, i: nat, b: seq<byte>) returns (b': seq<byte>, size: nat)
    requires i < |s|
    ensures (b', size) == (b + DecodeStep(s[i..]).0, DecodeStep(s[i..]).1)
  {
    if !StartsEscape(s[i..]) {
      return b + [s[i]], 1;
    }
    var unit := ParseHex4Loop(s[i..][2..6]);
    if IsHighSurrogate(unit) && i + 14 <= |s| && StartsEscape(s[i..][7..]) {
      var low := ParseHex4Loop(s[i..][7..][2..6]);
      if IsLowSurrogate(low) {
        return b + EncodeRune(FromSurrogates(unit, low)), 14;
      }
    }
    return b + EncodeRune(unit), 7;
  }

  lemma DecodeSlowAt(out: seq<byte>, s: seq<byte>, i: nat)
    requires i < |s|
    ensures out + DecodeSlow(s[i..]) == out + DecodeStep(s[i..]).0 + DecodeSlow(s[i + DecodeStep(s[i..]).1..])
  {
    var t, n := s[i..], DecodeStep(s[i..]).1;
    assert t[n..] == s[i + n..];
  }

  method DecodeClixmlString(s: seq<byte>) returns (out: seq<byte>)
    ensures out == Decode(s)
  {
    var found := ContainsClixmlEscape(s);
    if !found {
      return s;
    }
    out := [];
    var i := 0;
    ghost var whole := DecodeSlow(s);
    assert s[0..] == s;
    while i < |s|
      invariant 0 <= i <= |s|
      invariant whole == out + DecodeSlow(s[i..])
    {
      DecodeSlowAt(out, s, i);
      var size;
      out, size := DecodeAt(s, i, out);
      i := i + size;
    }
  }

  // ---------- one escape ----------

  lemma ParseWritten(v: uint16)
    ensures IsHex4(Hex4(v)[2..6]) && ParseHex4(Hex4(v)[2..6]) == v
  {
    assert Hex4(v)[2..6] == [HexDigit(v / 16 / 16 / 16), HexDigit(v / 16 / 16 % 16), HexDigit(v / 16 % 16),
                             HexDigit(v % 16)];
    var a := v / 16;
    assert v == a * 16 + v % 16 && a == a / 16 * 16 + a % 16;
  }

  /** An escape the encoder wrote is read as that code unit, whatever follows. */
  lemma ReadsEscape(v: uint16, t: seq<byte>)
    ensures StartsEscape(Hex4(v) + t) && Unit(Hex4(v) + t) == v && (Hex4(v) + t)[7..] == t
  {
    ParseWritten(v);
    assert (Hex4(v) + t)[2..6] == Hex4(v)[2..6];
  }

  lemma SurrogatesJoin(r: nat)
    requires 0x10000 <= r <= MAX_RUNE
    ensures FromSurrogates(Surrogates(r).0, Surrogates(r).1) == r
  {
  }

  // ---------- the lockstep argument ----------

  /** Bytes other than an underscore are copied by the decoder. */
  lemma {:induction false} DecodeCopies(u: seq<byte>, t: seq<byte>)
    requires UNDERSCORE !in u
    ensures DecodeSlow(u + t) == u + DecodeSlow(t)
  {
    if u == [] {
      assert u + t == t && [] + DecodeSlow(t) == DecodeSlow(t);
    } else {
      var b, v := u[0], u[1..];
      DecodeCopies(v, t);
      assert u == [b] + v && b in u;
      DecodeCopiesByte(b, v + t);
      HeadJoins(u, b, v, t);
      HeadJoins(u, b, v, DecodeSlow(t));
    }
  }

  lemma HeadJoins(u: seq<byte>, b: byte, v: seq<byte>, t: seq<byte>)
    requires u == [b] + v
    ensures u + t == [b] + (v + t)
  {
  }

  lemma DecodeCopiesByte(b: byte, t: seq<byte>)
    requires b != UNDERSCORE
    ensures DecodeSlow([b] + t) == [b] + DecodeSlow(t)
  {
    var s := [b] + t;
    assert s[1..] == t && DecodeStep(s) == ([b], 1);
  }

  lemma NoUnderscoreInRune(r: nat)
    requires r != UNDERSCORE
    ensures UNDERSCORE !in EncodeRune(r)
  {
  }

  /** The first byte written for s is an x exactly when s itself begins with one. */
  lemma FirstByteX(s: seq<byte>)
    requires s != [] && EncodeSlow(s) != [] && IsX(EncodeSlow(s)[0])
    ensures IsX(s[0])
  {
    var r := DecodeRune(s).0;
    assert EncodeSlow(s)[0] == EncodeStep(s)[0];
    if !StartsUnderscoreX(s) && !NeedsCharEscape(r) {
      assert EncodeRune(r)[0] == EncodeStep(s)[0];
    }
  }

  /** A supplementary rune travels as two escapes and comes back as itself. */
  lemma DecodeUndoesPair(r: nat, rest: seq<byte>)
    requires 0x10000 <= r <= MAX_RUNE
    ensures var p := Surrogates(r); DecodeSlow(Hex4(p.0) + Hex4(p.1) + rest) == EncodeRune(r) + DecodeSlow(rest)
  {
    var (high, low) := Surrogates(r);
    var s := Hex4(high) + (Hex4(low) + rest);
    ReadsEscape(high, Hex4(low) + rest);
    ReadsEscape(low, rest);
    SurrogatesJoin(r);
    DecodePair(s);
    assert Hex4(high) + Hex4(low) + rest == s;
  }

  lemma DecodePair(s: seq<byte>)
    requires StartsEscape(s) && IsHighSurrogate(Unit(s))
    requires StartsEscape(s[7..]) && IsLowSurrogate(Unit(s[7..]))
    ensures DecodeSlow(s) == EncodeRune(FromSurrogates(Unit(s), Unit(s[7..]))) + DecodeSlow(s[7..][7..])
  {
    assert s[14..] == s[7..][7..];
  }

  /** An escaped rune of the basic plane comes back as itself. */
  lemma DecodeUndoesEscape(r: uint16, rest: seq<byte>)
    requires !IsHighSurrogate(r)
    ensures DecodeSlow(Hex4(r) + rest) == EncodeRune(r) + DecodeSlow(rest)
  {
    ReadsEscape(r, rest);
    assert DecodeStep(Hex4(r) + rest) == (EncodeRune(r), 7);
  }

  /** A rune written as it is comes back as itself, unless an underscore would start an escape. */
  lemma DecodeUndoesPlain(r: nat, rest: seq<byte>)
    requires r == UNDERSCORE ==> rest == [] || !IsX(rest[0])
    ensures DecodeSlow(EncodeRune(r) + rest) == EncodeRune(r) + DecodeSlow(rest)
  {
    if r == UNDERSCORE {
      assert DecodeStep([UNDERSCORE] + rest) == ([UNDERSCORE], 1);
      assert ([UNDERSCORE] + rest)[1..] == rest;
    } else {
      NoUnderscoreInRune(r);
      DecodeCopies(EncodeRune(r), rest);
    }
  }

  /** One encoder step and the decoder steps that undo it. */
  lemma DecodeUndoesStep(s: seq<byte>)
    requires s != []
    ensures var rest := EncodeSlow(s[DecodeRune(s).1..]);
            DecodeSlow(EncodeStep(s) + rest) == EncodeRune(DecodeRune(s).0) + DecodeSlow(rest)
  {
    var (r, n) := DecodeRune(s);
    var rest := EncodeSlow(s[n..]);
    if StartsUnderscoreX(s) {
      DecodeUndoesEscape(0x5F, rest);
    } else if r > 0xFFFF {
      DecodeUndoesPair(r, rest);
    } else if NeedsCharEscape(r) {
      DecodeUndoesEscape(r, rest);
    } else {
      if r == UNDERSCORE && rest != [] && IsX(rest[0]) {
        FirstByteX(s[n..]);
      }
      DecodeUndoesPlain(r, rest);
    }
  }

  /** On every byte string, decoding the slow encoding gives the string with ill-formed bytes replaced. */
  lemma {:induction false} DecodeEncodeSlow(s: seq<byte>)
    ensures DecodeSlow(EncodeSlow(s)) == Sanitize(s)
  {
    if s != [] {
      DecodeEncodeSlow(s[DecodeRune(s).1..]);
      DecodeUndoesStep(s);
    }
  }

  // ---------- the fast paths ----------

  /** The decoder's fast path returns what its slow loop would. */
  lemma {:induction false} DecodeFastPath(s: seq<byte>)
    ensures Decode(s) == DecodeSlow(s)
  {
    if !ContainsEscape(s) && s != [] {
      assert !StartsEscape(s);
      assert |s| == 1 ==> s[1..] == [];
      assert !ContainsEscape(s[1..]);
      DecodeFastPath(s[1..]);
      assert s == [s[0]] + s[1..];
    }
  }

  lemma {:induction false} UnescapedIsCopied(s: seq<byte>)
    requires Valid(s) && !NeedsEncoding(s)
    ensures EncodeSlow(s) == s
  {
    if s != [] {
      var n := DecodeRune(s).1;
      UnescapedIsCopied(s[n..]);
      EncodeDecoded(s);
      assert s == s[..n] + s[n..];
    }
  }

  lemma {:induction false} NoEscapeInsideRune(s: seq<byte>, n: nat)
    requires n <= |s| && UNDERSCORE !in s[..n]
    ensures ContainsEscape(s) == ContainsEscape(s[n..])
  {
    if n == 0 {
      assert s[0..] == s;
    } else {
      assert s[0] in s[..n];
      assert s[1..][..n - 1] == s[..n][1..];
      NoEscapeInsideRune(s[1..], n - 1);
      assert s[1..][n - 1..] == s[n..];
      assert |s| == 1 ==> s[1..] == [];
    }
  }

  /** An underscore followed by an x is seen by the rune-wise test, even in ill-formed text. */
  lemma {:induction false} NoEscapeWhenNotNeeded(s: seq<byte>)
    requires !NeedsEncoding(s)
    ensures !ContainsEscape(s)
    decreases |s|
  {
    if s != [] {
      var (r, n) := DecodeRune(s);
      NoEscapeWhenNotNeeded(s[n..]);
      if s[0] != UNDERSCORE {
        if !Malformed(s) {
          EncodeDecoded(s);
          NoUnderscoreInRune(r);
        } else {
          assert s[..1] == [s[0]];
        }
        NoEscapeInsideRune(s, n);
      }
    }
  }

  // ---------- main results ----------

  /**
   The round trip, on every byte string: it returns the string exactly when the string is
   well-formed UTF-8 or the encoder's fast path was taken.
   */
  lemma RoundTripIff(s: seq<byte>)
    ensures Decode(Encode(s)) == s <==> Valid(s) || !NeedsEncoding(s)
    ensures NeedsEncoding(s) ==> Decode(Encode(s)) == Sanitize(s)
  {
    DecodeFastPath(Encode(s));
    if NeedsEncoding(s) {
      DecodeEncodeSlow(s);
      SanitizeFixesValid(s);
    } else {
      NoEscapeWhenNotNeeded(s);
      DecodeFastPath(s);
    }
  }

  /** Different well-formed strings have different encodings. */
  lemma EncodeInjective(s: seq<byte>, t: seq<byte>)
    requires Valid(s) && Valid(t)
    requires Encode(s) == Encode(t)
    ensures s == t
  {
    RoundTripIff(s);
    RoundTripIff(t);
  }

  /** An escape is seven well-formed runes, none of which needs escaping. */
  lemma EscapeIsPlain(v: uint16, t: seq<byte>)
    ensures Valid(t) ==> Valid(Hex4(v) + t)
    ensures PlainRunes(t) ==> PlainRunes(Hex4(v) + t)
  {
    var e := Hex4(v);
    AsciiRun(e, t);
  }

  /** Every rune of s may stand in CLIXML text as it is. */
  predicate PlainRunes(s: seq<byte>) {
    s == [] || (!NeedsCharEscape(DecodeRune(s).0) && PlainRunes(s[DecodeRune(s).1..]))
  }

  lemma {:induction false} AsciiRun(u: seq<byte>, t: seq<byte>)
    requires forall i :: 0 <= i < |u| ==> 0x20 <= u[i] < 0x7F
    ensures Valid(t) ==> Valid(u + t)
    ensures PlainRunes(t) ==> PlainRunes(u + t)
  {
    if u == [] {
      assert u + t == t;
    } else {
      AsciiRun(u[1..], t);
      assert (u + t)[1..] == u[1..] + t;
    }
  }

  /** One encoder step writes well-formed text without runes that need escaping. */
  lemma StepIsPlain(s: seq<byte>, t: seq<byte>)
    requires s != [] && Valid(t) && PlainRunes(t)
    ensures Valid(EncodeStep(s) + t) && PlainRunes(EncodeStep(s) + t)
  {
    var r := DecodeRune(s).0;
    if StartsUnderscoreX(s) {
      EscapeIsPlain(0x5F, t);
    } else if r > 0xFFFF {
      PairIsPlain(Surrogates(r).0, Surrogates(r).1, t);
    } else if NeedsCharEscape(r) {
      EscapeIsPlain(r, t);
    } else {
      PlainRune(r, t);
    }
  }

  lemma StepLength(s: seq<byte>)
    requires s != []
    ensures |EncodeStep(s)| <= 7 * DecodeRune(s).1
  {
    PlainRuneLength(s);
  }

  lemma PairIsPlain(high: uint16, low: uint16, t: seq<byte>)
    requires Valid(t) && PlainRunes(t)
    ensures Valid(Hex4(high) + Hex4(low) + t) && PlainRunes(Hex4(high) + Hex4(low) + t)
  {
    EscapeIsPlain(low, t);
    EscapeIsPlain(high, Hex4(low) + t);
    assert Hex4(high) + Hex4(low) + t == Hex4(high) + (Hex4(low) + t);
  }

  lemma PlainRune(r: nat, t: seq<byte>)
    requires IsScalar(r) && !NeedsCharEscape(r) && Valid(t) && PlainRunes(t)
    ensures Valid(EncodeRune(r) + t) && PlainRunes(EncodeRune(r) + t)
  {
    ValidAfterRune(r, t);
    DecodeEncoded(r, t);
    assert (EncodeRune(r) + t)[|EncodeRune(r)|..] == t;
  }

  /** Escapes are seven bytes each; a replacement for an ill-formed byte is three. */
  lemma PlainRuneLength(s: seq<byte>)
    requires s != []
    ensures var (r, n) := DecodeRune(s);
            |EncodeRune(r)| <= 3 * n && (r > 0xFFFF ==> n == 4)
  {
  }

  lemma {:induction false} EncodeSlowIsPlain(s: seq<byte>)
    ensures Valid(EncodeSlow(s)) && PlainRunes(EncodeSlow(s))
    ensures |EncodeSlow(s)| <= 7 * |s|
  {
    if s != [] {
      var rest := s[DecodeRune(s).1..];
      EncodeSlowIsPlain(rest);
      StepIsPlain(s, EncodeSlow(rest));
      StepLength(s);
    }
  }

  lemma {:induction false} UnescapedIsPlain(s: seq<byte>)
    requires !NeedsEncoding(s)
    ensures PlainRunes(s)
  {
    if s != [] {
      UnescapedIsPlain(s[DecodeRune(s).1..]);
    }
  }

  /** The encoder's fast path returns what its slow loop would, but for ill-formed bytes that would be replaced. */
  lemma EncodeFastPath(s: seq<byte>)
    ensures Encode(s) == EncodeSlow(s) <==> Valid(s) || NeedsEncoding(s)
  {
    if !NeedsEncoding(s) {
      EncodeSlowIsPlain(s);
      if Valid(s) {
        UnescapedIsCopied(s);
      }
    }
  }

  /** Encoded text holds no control or supplementary character and grows at most sevenfold. */
  lemma EncodedTextIsPlain(s: seq<byte>)
    ensures PlainRunes(Encode(s)) && |Encode(s)| <= 7 * |s|
    ensures Valid(s) ==> Valid(Encode(s))
  {
    if NeedsEncoding(s) {
      EncodeSlowIsPlain(s);
    } else {
      UnescapedIsPlain(s);
    }
  }

  /** A suffix after ASCII bytes of well-formed text is well-formed. */
  lemma {:induction false} ValidAfterAscii(s: seq<byte>, n: nat)
    requires Valid(s) && n <= |s|
    requires forall i :: 0 <= i < n ==> s[i] < 0x80
    ensures Valid(s[n..])
  {
    if n > 0 {
      assert s[n..] == s[1..][n - 1..];
      ValidAfterAscii(s[1..], n - 1);
    } else {
      assert s[0..] == s;
    }
  }

  lemma EscapeIsAscii(s: seq<byte>)
    requires StartsEscape(s)
    ensures forall i :: 0 <= i < 7 ==> s[i] < 0x80
  {
    assert s[2..6] == [s[2], s[3], s[4], s[5]];
  }

  /** Where well-formed text holds a rune that starts no escape, the decoder copies that rune. */
  lemma DecodeCopiesRune(s: seq<byte>)
    requires s != [] && !Malformed(s) && !StartsEscape(s)
    ensures var n := DecodeRune(s).1; DecodeSlow(s) == EncodeRune(DecodeRune(s).0) + DecodeSlow(s[n..])
  {
    var (r, n) := DecodeRune(s);
    EncodeDecoded(s);
    assert s == s[..n] + s[n..];
    if r != UNDERSCORE {
      NoUnderscoreInRune(r);
      DecodeCopies(s[..n], s[n..]);
    }
  }

  lemma {:induction false} DecodeSlowShrinks(s: seq<byte>)
    ensures |DecodeSlow(s)| <= |s|
  {
    if s != [] {
      DecodeSlowShrinks(s[DecodeStep(s).1..]);
    }
  }

  const REPLACEMENT_CHARACTER: seq<byte> := [0xEF, 0xBF, 0xBD]

  predicate StartsPair(s: seq<byte>) {
    && StartsEscape(s) && IsHighSurrogate(Unit(s))
    && StartsEscape(s[7..]) && IsLowSurrogate(Unit(s[7..]))
  }

  /** What an escape in front decodes to: a proper pair to its rune, a lone surrogate to U+FFFD,
      any other unit to itself. */
  lemma DecodeInFront(s: seq<byte>)
    requires StartsEscape(s)
    ensures StartsPair(s) ==>
              Decode(s) == EncodeRune(FromSurrogates(Unit(s), Unit(s[7..]))) + Decode(s[14..])
    ensures !StartsPair(s) && (IsHighSurrogate(Unit(s)) || IsLowSurrogate(Unit(s))) ==>
              Decode(s) == REPLACEMENT_CHARACTER + Decode(s[7..])
    ensures !IsHighSurrogate(Unit(s)) && !IsLowSurrogate(Unit(s)) ==>
              IsScalar(Unit(s)) && Decode(s) == EncodeRune(Unit(s)) + Decode(s[7..])
  {
    DecodeFastPath(s);
    DecodeFastPath(s[7..]);
    if StartsPair(s) {
      DecodeFastPath(s[14..]);
    }
  }

  /** Decoding well-formed text gives well-formed text. */
  lemma {:induction false} DecodeSlowKeepsValid(s: seq<byte>)
    requires Valid(s)
    ensures Valid(DecodeSlow(s))
    decreases |s|
  {
    if s != [] {
      if StartsEscape(s) {
        var (out, n) := DecodeStep(s);
        EscapeIsAscii(s);
        ValidAfterAscii(s, 7);
        if n == 14 {
          EscapeIsAscii(s[7..]);
          ValidAfterAscii(s[7..], 7);
          assert s[7..][7..] == s[14..];
        }
        DecodeSlowKeepsValid(s[n..]);
        var r := if n == 14 then FromSurrogates(Unit(s), Unit(s[7..])) else Unit(s);
        ValidAfterRune(r, DecodeSlow(s[n..]));
      } else {
        var (r, n) := DecodeRune(s);
        DecodeSlowKeepsValid(s[n..]);
        DecodeCopiesRune(s);
        ValidAfterRune(r, DecodeSlow(s[n..]));
      }
    }
  }

  /** Decoded text is never longer than its input, and well-formed when its input is. */
  lemma DecodedTextIsValid(s: seq<byte>)
    ensures |Decode(s)| <= |s|
    ensures Valid(s) ==> Valid(Decode(s))
  {
    DecodeFastPath(s);
    DecodeSlowShrinks(s);
    if Valid(s) {
      DecodeSlowKeepsValid(s);
    }
  }
}
