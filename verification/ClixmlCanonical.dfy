/**
 The string codec the other way round: which texts decoding leaves alone, and which texts are
 encoded again as they were.
 */
module ClixmlCanonical {
  import opened Bytes
  import opened Utf8
  import opened ClixmlString

  // ---------- text that decoding leaves alone ----------

  /** A complete escape stands somewhere in s. */
  predicate HasEscape(s: seq<byte>) {
    s != [] && (StartsEscape(s) || HasEscape(s[1..]))
  }

  /** Decoding shortens text with an escape, and copies any other. */
  lemma {:induction false} EscapesShrink(s: seq<byte>)
    ensures if HasEscape(s) then |DecodeSlow(s)| < |s| else DecodeSlow(s) == s
  {
    if s != [] {
      if StartsEscape(s) {
        DecodeSlowShrinks(s[DecodeStep(s).1..]);
      } else {
        EscapesShrink(s[1..]);
        assert s == [s[0]] + s[1..];
      }
    }
  }

  /** Text is decoded to itself exactly when it holds no complete escape. */
  lemma DecodeFixedIff(s: seq<byte>)
    ensures Decode(s) == s <==> !HasEscape(s)
    ensures HasEscape(s) ==> |Decode(s)| < |s|
  {
    DecodeFastPath(s);
    EscapesShrink(s);
  }

  // ---------- text that is encoded again as it was ----------

  /**
   Every escape in s is spelled as the encoder spells it and is needed: for a control character, for a
   pair of surrogates, or for an underscore before an x. No other character wants an escape.
   */
  predicate Canonical(s: seq<byte>)
    decreases |s|
  {
    s == [] ||
    if StartsPair(s) then
      s[..7] == Hex4(Unit(s)) && s[7..14] == Hex4(Unit(s[7..])) && Canonical(s[14..])
    else if StartsEscape(s) then
      s[..7] == Hex4(Unit(s)) && EscapeNeeded(Unit(s), s[7..]) && Canonical(s[7..])
    else
      !NeedsCharEscape(DecodeRune(s).0) && !StartsUnderscoreX(s) && Canonical(s[DecodeRune(s).1..])
  }

  predicate StartsPair(s: seq<byte>) {
    StartsEscape(s) && IsHighSurrogate(Unit(s)) && StartsEscape(s[7..]) && IsLowSurrogate(Unit(s[7..]))
  }

  predicate EscapeNeeded(u: uint16, rest: seq<byte>) {
    if u == 0x5F then StartsX(rest) else NeedsCharEscape(u) && IsScalar(u)
  }

  predicate StartsX(s: seq<byte>) {
    s != [] && IsX(s[0])
  }

  /** The first byte written is an x exactly when the first byte of the text is. */
  lemma StartsXEncoded(s: seq<byte>)
    ensures StartsX(EncodeSlow(s)) <==> StartsX(s)
  {
    if s != [] {
      assert EncodeSlow(s)[0] == EncodeStep(s)[0];
      if StartsX(EncodeSlow(s)) {
        FirstByteX(s);
      }
    }
  }

  lemma SurrogatesApart(high: uint16, low: uint16)
    requires IsHighSurrogate(high) && IsLowSurrogate(low)
    ensures Surrogates(FromSurrogates(high, low)) == (high, low)
  {
  }

  /** How a rune in front of decoded text is encoded. */
  lemma EncodesRune(r: nat, d: seq<byte>)
    requires IsScalar(r)
    ensures var step := if r == UNDERSCORE && StartsX(d) then Hex4(0x5F)
                        else if r > 0xFFFF then Hex4(Surrogates(r).0) + Hex4(Surrogates(r).1)
                        else if NeedsCharEscape(r) then Hex4(r)
                        else EncodeRune(r);
            EncodeSlow(EncodeRune(r) + d) == step + EncodeSlow(d)
  {
    var s := EncodeRune(r) + d;
    DecodeEncoded(r, d);
    assert s[|EncodeRune(r)|..] == d;
    assert StartsUnderscoreX(s) <==> r == UNDERSCORE && StartsX(d);
  }

  lemma SameFront(a: seq<byte>, x: seq<byte>, s: seq<byte>)
    requires |a| <= |s|
    ensures a + x == s <==> a == s[..|a|] && x == s[|a|..]
  {
    assert s == s[..|a|] + s[|a|..];
    if a + x == s {
      assert s[..|a|] == (a + x)[..|a|] == a && s[|a|..] == (a + x)[|a|..] == x;
    }
  }

  /** The two parts in which a text comes back, for each way it can begin; rest is what follows. */
  lemma PairBack(s: seq<byte>, d: seq<byte>)
    requires StartsPair(s) && d == DecodeSlow(s[14..])
    ensures EncodeSlow(DecodeSlow(s)) == s <==>
              s[..7] == Hex4(Unit(s)) && s[7..14] == Hex4(Unit(s[7..])) && EncodeSlow(d) == s[14..]
  {
    var high, low := Unit(s), Unit(s[7..]);
    DecodePair(s);
    assert s[7..][7..] == s[14..];
    SurrogatesApart(high, low);
    EncodesRune(FromSurrogates(high, low), d);
    SameFront(Hex4(high) + Hex4(low), EncodeSlow(d), s);
    SameFront(Hex4(high), Hex4(low), s[..14]);
    assert s[..14][..7] == s[..7] && s[..14][7..] == s[7..14];
  }

  lemma EscapeBack(s: seq<byte>, d: seq<byte>)
    requires StartsEscape(s) && !StartsPair(s) && d == DecodeSlow(s[7..])
    ensures EncodeSlow(DecodeSlow(s)) == s <==>
              && s[..7] == Hex4(Unit(s)) && EncodeSlow(d) == s[7..]
              && (if Unit(s) == 0x5F then StartsX(d) else NeedsCharEscape(Unit(s)) && IsScalar(Unit(s)))
  {
    var u := Unit(s);
    var r := if IsScalar(u) then u else RUNE_ERROR;
    DecodeLoneEscape(s, r, d);
    EncodesRune(r, d);
    if (r == UNDERSCORE && StartsX(d)) || NeedsCharEscape(r) {
      SameFront(Hex4(r), EncodeSlow(d), s);
    } else {
      PlainNotEscape(s, r, d);
    }
  }

  lemma DecodeLoneEscape(s: seq<byte>, r: nat, d: seq<byte>)
    requires StartsEscape(s) && !StartsPair(s) && d == DecodeSlow(s[7..])
    requires r == if IsScalar(Unit(s)) then Unit(s) else RUNE_ERROR
    ensures DecodeSlow(s) == EncodeRune(r) + d
  {
    assert DecodeStep(s) == (EncodeRune(Unit(s)), 7);
    assert EncodeRune(Unit(s)) == EncodeRune(r);
  }

  /** Text that begins with an escape is not what a rune without one is written as. */
  lemma PlainNotEscape(s: seq<byte>, r: nat, d: seq<byte>)
    requires StartsEscape(s) && !(r == UNDERSCORE && StartsX(d))
    ensures EncodeRune(r) + EncodeSlow(d) != s
  {
    var t := EncodeRune(r) + EncodeSlow(d);
    if r == UNDERSCORE {
      StartsXEncoded(d);
      assert |t| >= 2 ==> t[1] == EncodeSlow(d)[0];
    } else {
      NoUnderscoreInRune(r);
      assert EncodeRune(r)[0] in EncodeRune(r) && t[0] == EncodeRune(r)[0];
    }
  }

  lemma RuneBack(s: seq<byte>, d: seq<byte>)
    requires s != [] && !Malformed(s) && !StartsEscape(s) && d == DecodeSlow(s[DecodeRune(s).1..])
    ensures EncodeSlow(DecodeSlow(s)) == s <==>
              var (r, n) := DecodeRune(s);
              !NeedsCharEscape(r) && !(r == UNDERSCORE && StartsX(d)) && EncodeSlow(d) == s[n..]
  {
    var (r, n) := DecodeRune(s);
    DecodeCopiesRune(s);
    EncodeDecoded(s);
    EncodesRune(r, d);
    if r == UNDERSCORE && StartsX(d) {
      EscapeNotRune(s, 0x5F, EncodeSlow(d));
    } else if NeedsCharEscape(r) {
      NoUnderscoreInRune(r);
      assert s[0] == EncodeRune(r)[0] && EncodeRune(r)[0] in EncodeRune(r);
    } else {
      SameFront(EncodeRune(r), EncodeSlow(d), s);
    }
  }

  /** What begins with a written escape begins with an escape. */
  lemma EscapeNotRune(s: seq<byte>, u: uint16, t: seq<byte>)
    requires !StartsEscape(s)
    ensures Hex4(u) + t != s
  {
    ReadsEscape(u, t);
  }

  lemma {:induction false} CanonicalSlow(s: seq<byte>)
    requires Valid(s)
    ensures EncodeSlow(DecodeSlow(s)) == s <==> Canonical(s)
    decreases |s|
  {
    if StartsPair(s) {
      var rest := s[14..];
      ValidAfterEscape(s);
      ValidAfterEscape(s[7..]);
      assert s[7..][7..] == rest;
      PairBack(s, DecodeSlow(rest));
      CanonicalSlow(rest);
    } else if StartsEscape(s) {
      var rest := s[7..];
      ValidAfterEscape(s);
      EscapeBack(s, DecodeSlow(rest));
      CanonicalSlow(rest);
      StartsXEncoded(DecodeSlow(rest));
    } else if s != [] {
      var rest := s[DecodeRune(s).1..];
      RuneBack(s, DecodeSlow(rest));
      CanonicalSlow(rest);
      StartsXEncoded(DecodeSlow(rest));
      UnderscoreFirst(s);
    }
  }

  lemma ValidAfterEscape(s: seq<byte>)
    requires Valid(s) && StartsEscape(s)
    ensures Valid(s[7..])
  {
    EscapeIsAscii(s);
    ValidAfterAscii(s, 7);
  }

  lemma UnderscoreFirst(s: seq<byte>)
    requires s != [] && !Malformed(s)
    ensures StartsUnderscoreX(s) <==> DecodeRune(s).0 == UNDERSCORE && StartsX(s[DecodeRune(s).1..])
  {
    EncodeDecoded(s);
    assert s[0] == EncodeRune(DecodeRune(s).0)[0];
  }

  /** Well-formed text is what encoding makes of its decoding exactly when it is canonical. */
  lemma EncodeAfterDecodeIff(s: seq<byte>)
    requires Valid(s)
    ensures Encode(Decode(s)) == s <==> Canonical(s)
  {
    DecodeFastPath(s);
    DecodedTextIsValid(s);
    EncodeFastPath(Decode(s));
    CanonicalSlow(s);
  }

  /** The encoder writes canonical text only. */
  lemma EncodedIsCanonical(s: seq<byte>)
    requires Valid(s)
    ensures Canonical(Encode(s))
  {
    EncodedTextIsPlain(s);
    RoundTripIff(s);
    EncodeAfterDecodeIff(Encode(s));
  }

  /** A text that is not: an escaped letter is decoded, and then written as itself. */
  lemma EncodeAfterDecodeDiffers()
    ensures var s := Hex4(0x41); Valid(s) && !Canonical(s) && Encode(Decode(s)) == [0x41] != s
  {
    DecodesToA();
    EncodeAfterDecodeIff(Hex4(0x41));
  }

  lemma DecodesToA()
    ensures var s := Hex4(0x41); Valid(s) && HasEscape(s) && Decode(s) == [0x41] != s
    ensures Encode([0x41]) == [0x41]
  {
    var s := Hex4(0x41);
    assert s + [] == s;
    ReadsEscape(0x41, []);
    AsciiRun(s, []);
    DecodeFastPath(s);
    DecodeUndoesEscape(0x41, []);
    assert DecodeRune([0x41]) == (0x41, 1) && [0x41][1..] == [] && !NeedsEncoding([]);
  }
}
