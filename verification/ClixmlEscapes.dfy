/** The string codec told in bytes and code points alone: which runes are escaped and how an escape is spelled. */
module ClixmlEscapes {
  import opened Bytes
  import opened Utf8
  import CS = ClixmlString

  const UPPER: seq<byte> :=
    [0x30, 0x31, 0x32, 0x33, 0x34, 0x35, 0x36, 0x37, 0x38, 0x39, 0x41, 0x42, 0x43, 0x44, 0x45, 0x46]

  const LOWER: seq<byte> :=
    [0x30, 0x31, 0x32, 0x33, 0x34, 0x35, 0x36, 0x37, 0x38, 0x39, 0x61, 0x62, 0x63, 0x64, 0x65, 0x66]

  // ---------- how an escape is spelled ----------

  /** An underscore, an x, four upper-case hex digits and an underscore. */
  function Escape(u: uint16): (s: seq<byte>)
    ensures |s| == 7
  {
    [0x5F, 0x78, UPPER[u / 4096], UPPER[u / 256 % 16], UPPER[u / 16 % 16], UPPER[u % 16], 0x5F]
  }

  lemma HexDigitIs(v: nat)
    requires v < 16
    ensures CS.HexDigit(v) == UPPER[v]
  {
  }

  lemma EscapeIs(u: uint16)
    ensures CS.Hex4(u) == Escape(u)
  {
    assert u / 16 / 16 / 16 == u / 4096 && u / 16 / 16 == u / 256;
    HexDigitIs(u / 4096);
    HexDigitIs(u / 256 % 16);
    HexDigitIs(u / 16 % 16);
    HexDigitIs(u % 16);
  }

  predicate IsHexOf(b: byte, v: nat)
    requires v < 16
  {
    b == UPPER[v] || b == LOWER[v]
  }

  lemma HexOf(b: byte, v: nat)
    requires v < 16
    ensures IsHexOf(b, v) <==> IsHexDigit(b) && HexValue(b) == v
  {
  }

  /** s begins with an escape of the unit u, with an x and digits in either case. */
  predicate Spells(s: seq<byte>, u: uint16) {
    && |s| >= 7 && s[0] == 0x5F && (s[1] == 0x78 || s[1] == 0x58) && s[6] == 0x5F
    && IsHexOf(s[2], u / 4096) && IsHexOf(s[3], u / 256 % 16) && IsHexOf(s[4], u / 16 % 16) && IsHexOf(s[5], u % 16)
  }

  lemma FourDigits(a: nat, b: nat, c: nat, d: nat, u: uint16)
    requires a < 16 && b < 16 && c < 16 && d < 16
    ensures ((a * 16 + b) * 16 + c) * 16 + d == u
            <==> a == u / 4096 && b == u / 256 % 16 && c == u / 16 % 16 && d == u % 16
  {
  }

  lemma EscapeIff(s: seq<byte>, u: uint16)
    ensures Spells(s, u) <==> CS.StartsEscape(s) && CS.Unit(s) == u
  {
    if |s| >= 7 {
      assert s[2..6] == [s[2], s[3], s[4], s[5]];
      HexOf(s[2], u / 4096);
      HexOf(s[3], u / 256 % 16);
      HexOf(s[4], u / 16 % 16);
      HexOf(s[5], u % 16);
      if CS.IsHex4(s[2..6]) {
        FourDigits(HexValue(s[2]), HexValue(s[3]), HexValue(s[4]), HexValue(s[5]), u);
      }
    }
  }

  // ---------- decoding ----------

  /** What no escape begins is copied. */
  lemma DecodeCopied(s: seq<byte>)
    requires s != [] && forall u :: !Spells(s, u)
    ensures CS.Decode(s) == [s[0]] + CS.Decode(s[1..])
  {
    if CS.StartsEscape(s) {
      EscapeIff(s, CS.Unit(s));
      assert false;
    }
    CS.DecodeFastPath(s);
    CS.DecodeFastPath(s[1..]);
  }

  /** A high surrogate before a low one makes one rune. */
  lemma DecodePair(s: seq<byte>, high: uint16, low: uint16)
    requires Spells(s, high) && Spells(s[7..], low) && 0xD800 <= high <= 0xDBFF && 0xDC00 <= low <= 0xDFFF
    ensures CS.Decode(s) == EncodeRune(0x10000 + (high - 0xD800) * 0x400 + (low - 0xDC00)) + CS.Decode(s[14..])
  {
    PairJoins(s, high, low, 0x10000 + (high - 0xD800) * 0x400 + (low - 0xDC00));
    CS.DecodeInFront(s);
  }

  lemma PairJoins(s: seq<byte>, high: uint16, low: uint16, r: nat)
    requires Spells(s, high) && Spells(s[7..], low) && 0xD800 <= high <= 0xDBFF && 0xDC00 <= low <= 0xDFFF
    requires r == 0x10000 + (high - 0xD800) * 0x400 + (low - 0xDC00)
    ensures CS.StartsPair(s) && CS.FromSurrogates(CS.Unit(s), CS.Unit(s[7..])) == r
  {
    EscapeIff(s, high);
    EscapeIff(s[7..], low);
  }

  /** Any other surrogate becomes U+FFFD. */
  lemma DecodeLone(s: seq<byte>, u: uint16)
    requires Spells(s, u) && 0xD800 <= u <= 0xDFFF
    requires u <= 0xDBFF ==> forall l: uint16 :: Spells(s[7..], l) ==> !(0xDC00 <= l <= 0xDFFF)
    ensures CS.Decode(s) == [0xEF, 0xBF, 0xBD] + CS.Decode(s[7..])
  {
    EscapeIff(s, u);
    if CS.StartsPair(s) {
      EscapeIff(s[7..], CS.Unit(s[7..]));
      assert false;
    }
    CS.DecodeInFront(s);
  }

  /** A unit that is no surrogate stands for itself. */
  lemma DecodeUnit(s: seq<byte>, u: uint16)
    requires Spells(s, u) && (u < 0xD800 || u > 0xDFFF)
    ensures CS.Decode(s) == EncodeRune(u) + CS.Decode(s[7..])
  {
    EscapeIff(s, u);
    CS.DecodeInFront(s);
  }

  // ---------- encoding ----------

  predicate IsControl(r: nat) {
    r < 0x20 || 0x7F <= r <= 0x9F
  }

  predicate BeginsWithX(t: seq<byte>) {
    t != [] && (t[0] == 0x78 || t[0] == 0x58)
  }

  /** What a rune becomes in front of t. */
  function Form(r: nat, t: seq<byte>): seq<byte>
    requires IsScalar(r)
  {
    if IsControl(r) then Escape(r)
    else if r > 0xFFFF then Escape(0xD800 + (r - 0x10000) / 0x400) + Escape(0xDC00 + (r - 0x10000) % 0x400)
    else if r == 0x5F && BeginsWithX(t) then Escape(0x5F)
    else EncodeRune(r)
  }

  /** The encoding of a text, rune by rune. */
  lemma EncodeInFront(r: nat, t: seq<byte>)
    requires IsScalar(r) && Valid(t)
    ensures CS.Encode(EncodeRune(r) + t) == Form(r, t) + CS.Encode(t)
  {
    var s := EncodeRune(r) + t;
    ValidAfterRune(r, t);
    CS.EncodeFastPath(s);
    CS.EncodeFastPath(t);
    DecodeEncoded(r, t);
    assert s[|EncodeRune(r)|..] == t;
    StepIsForm(r, t, s);
  }

  lemma StepIsForm(r: nat, t: seq<byte>, s: seq<byte>)
    requires IsScalar(r) && s == EncodeRune(r) + t && DecodeRune(s) == (r, |EncodeRune(r)|)
    ensures CS.EncodeStep(s) == Form(r, t)
  {
    FirstIsUnderscore(r, t, s);
    EscapeIs(0x5F);
    if IsControl(r) {
      EscapeIs(r);
    } else if r > 0xFFFF {
      var high, low := 0xD800 + (r - 0x10000) / 0x400, 0xDC00 + (r - 0x10000) % 0x400;
      assert CS.Surrogates(r) == (high, low);
      EscapeIs(high);
      EscapeIs(low);
    }
  }

  lemma FirstIsUnderscore(r: nat, t: seq<byte>, s: seq<byte>)
    requires IsScalar(r) && s == EncodeRune(r) + t
    ensures CS.StartsUnderscoreX(s) <==> r == 0x5F && BeginsWithX(t)
  {
    if r == 0x5F {
      assert EncodeRune(r) == [0x5F];
    } else {
      CS.NoUnderscoreInRune(r);
      assert s[0] == EncodeRune(r)[0] && s[0] in EncodeRune(r);
    }
  }

  /** The empty text is its own encoding, so that the two lemmas settle every valid text. */
  lemma EncodeNothing()
    ensures CS.Encode([]) == [] && CS.Decode([]) == []
  {
  }

  /** No byte of a control character, and none that begins a supplementary one. */
  predicate PlainAt(s: seq<byte>, i: nat)
    requires i < |s|
  {
    && s[i] >= 0x20 && s[i] != 0x7F && s[i] < 0xF0
    && !(s[i] == 0xC2 && i + 1 < |s| && 0x80 <= s[i + 1] <= 0x9F)
  }

  ghost predicate PlainBytes(s: seq<byte>) {
    forall i :: 0 <= i < |s| ==> PlainAt(s, i)
  }

  /** No underscore before an x. */
  predicate NoEscapeAt(s: seq<byte>, i: nat)
    requires i < |s|
  {
    !(s[i] == 0x5F && BeginsWithX(s[i + 1..]))
  }

  ghost predicate NoUnderscoreX(s: seq<byte>) {
    forall i :: 0 <= i < |s| ==> NoEscapeAt(s, i)
  }

  lemma PlainRune(r: nat, t: seq<byte>)
    requires IsScalar(r) && Valid(t)
    ensures var e, s := EncodeRune(r), EncodeRune(r) + t;
            (forall i :: 0 <= i < |e| ==> PlainAt(s, i)) <==> !IsControl(r) && r <= 0xFFFF
  {
    var e, s := EncodeRune(r), EncodeRune(r) + t;
    assert forall i :: 0 <= i < |e| ==> s[i] == e[i];
    if |e| == 1 {
      assert PlainAt(s, 0) <==> !IsControl(r);
    } else {
      assert PlainAt(s, 0) <==> !IsControl(r) && r <= 0xFFFF;
    }
  }

  lemma PlainBytesStep(e: seq<byte>, t: seq<byte>)
    ensures PlainBytes(e + t) <==> PlainBytes(t) && forall i :: 0 <= i < |e| ==> PlainAt(e + t, i)
  {
    var s := e + t;
    forall i | 0 <= i < |t| ensures PlainAt(s, |e| + i) <==> PlainAt(t, i) {
    }
    if PlainBytes(s) {
      forall i | 0 <= i < |t| ensures PlainAt(t, i) {
        assert PlainAt(s, |e| + i);
      }
    }
    if PlainBytes(t) && forall i :: 0 <= i < |e| ==> PlainAt(s, i) {
      forall i | 0 <= i < |s| ensures PlainAt(s, i) {
        if i >= |e| {
          var k := i - |e|;
          assert PlainAt(t, k);
        }
      }
    }
  }

  /** The encoding of a valid text holds no control character and no supplementary one. */
  lemma EncodedBytes(s: seq<byte>)
    requires Valid(s)
    ensures PlainBytes(CS.Encode(s))
  {
    CS.EncodedTextIsPlain(s);
    RunesAreBytes(CS.Encode(s));
  }

  lemma {:induction false} RunesAreBytes(s: seq<byte>)
    requires Valid(s)
    ensures CS.PlainRunes(s) <==> PlainBytes(s)
  {
    if s != [] {
      var (r, n) := DecodeRune(s);
      RunesAreBytes(s[n..]);
      EncodeDecoded(s);
      assert s == EncodeRune(r) + s[n..];
      PlainBytesStep(EncodeRune(r), s[n..]);
      PlainRune(r, s[n..]);
    }
  }

  lemma NoUnderscoreXStep(e: seq<byte>, t: seq<byte>)
    ensures NoUnderscoreX(e + t) <==> NoUnderscoreX(t) && forall i :: 0 <= i < |e| ==> NoEscapeAt(e + t, i)
  {
    var s := e + t;
    forall i | 0 <= i < |t| ensures NoEscapeAt(s, |e| + i) <==> NoEscapeAt(t, i) {
      assert s[|e| + i + 1..] == t[i + 1..];
    }
    if NoUnderscoreX(s) {
      forall i | 0 <= i < |t| ensures NoEscapeAt(t, i) {
        assert NoEscapeAt(s, |e| + i);
      }
    }
    if NoUnderscoreX(t) && forall i :: 0 <= i < |e| ==> NoEscapeAt(s, i) {
      forall i | 0 <= i < |s| ensures NoEscapeAt(s, i) {
        if i >= |e| {
          var k := i - |e|;
          assert NoEscapeAt(t, k);
        }
      }
    }
  }

  lemma {:induction false} NeedsIff(s: seq<byte>)
    requires Valid(s)
    ensures CS.NeedsEncoding(s) <==> !(PlainBytes(s) && NoUnderscoreX(s))
  {
    if s != [] {
      var (r, n) := DecodeRune(s);
      NeedsIff(s[n..]);
      EncodeDecoded(s);
      var e, t := EncodeRune(r), s[n..];
      assert s == e + t;
      PlainBytesStep(e, t);
      PlainRune(r, t);
      NoUnderscoreXStep(e, t);
      UnderscoreRune(r, t);
    }
  }

  lemma UnderscoreRune(r: nat, t: seq<byte>)
    requires IsScalar(r)
    ensures var e, s := EncodeRune(r), EncodeRune(r) + t;
            CS.StartsUnderscoreX(s) <==> !(forall i :: 0 <= i < |e| ==> NoEscapeAt(s, i))
  {
    var e, s := EncodeRune(r), EncodeRune(r) + t;
    assert forall i :: 0 <= i < |e| ==> s[i] == e[i];
    if r == 0x5F {
      assert e == [0x5F] && s[1..] == t;
      assert NoEscapeAt(s, 0) <==> !BeginsWithX(t);
    } else {
      CS.NoUnderscoreInRune(r);
      assert forall i :: 0 <= i < |e| ==> e[i] in e;
    }
  }

  lemma {:induction false} Lengthens(s: seq<byte>)
    requires Valid(s) && CS.PlainRunes(s)
    ensures |CS.EncodeSlow(s)| >= |s| && (CS.NeedsEncoding(s) ==> |CS.EncodeSlow(s)| > |s|)
  {
    if s != [] {
      var (r, n) := DecodeRune(s);
      Lengthens(s[n..]);
      EncodeDecoded(s);
      assert |EncodeRune(r)| == n;
    }
  }

  /** A valid text is its own encoding if and only if its bytes are all plain and no underscore stands before an x. */
  lemma EncodeFixedIff(s: seq<byte>)
    requires Valid(s)
    ensures CS.Encode(s) == s <==> PlainBytes(s) && NoUnderscoreX(s)
  {
    NeedsIff(s);
    EncodedBytes(s);
    if CS.NeedsEncoding(s) && PlainBytes(s) {
      RunesAreBytes(s);
      Lengthens(s);
    }
  }
}
