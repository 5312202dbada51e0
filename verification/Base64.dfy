/** Standard base64 with padding (section 4 of RFC 4648), as base64.StdEncoding writes and reads it. */
module Base64 {
  import opened Wrappers
  import opened Bytes

  const PAD: byte := 0x3D

  predicate IsDigit(c: byte) {
    0x41 <= c <= 0x5A || 0x61 <= c <= 0x7A || 0x30 <= c <= 0x39 || c == 0x2B || c == 0x2F
  }

  function Digit(v: nat): (c: byte)
    requires v < 64
    ensures IsDigit(c) && Value(c) == v
  {
    if v < 26 then 0x41 + v
    else if v < 52 then 0x61 + (v - 26)
    else if v < 62 then 0x30 + (v - 52)
    else if v == 62 then 0x2B
    else 0x2F
  }

  function Value(c: byte): (v: nat)
    requires IsDigit(c)
    ensures v < 64
  {
    if 0x41 <= c <= 0x5A then c - 0x41
    else if 0x61 <= c <= 0x7A then c - 0x61 + 26
    else if 0x30 <= c <= 0x39 then c - 0x30 + 52
    else if c == 0x2B then 62
    else 63
  }

  function Encode(b: seq<byte>): seq<byte> {
    if b == [] then []
    else if |b| == 1 then
      [Digit(b[0] / 4), Digit(b[0] % 4 * 16), PAD, PAD]
    else if |b| == 2 then
      [Digit(b[0] / 4), Digit(b[0] % 4 * 16 + b[1] / 16), Digit(b[1] % 16 * 4), PAD]
    else
      [Digit(b[0] / 4), Digit(b[0] % 4 * 16 + b[1] / 16), Digit(b[1] % 16 * 4 + b[2] / 64), Digit(b[2] % 64)]
      + Encode(b[3..])
  }

  /** Carriage returns and line feeds are skipped wherever they stand. */
  function StripNewlines(s: seq<byte>): seq<byte> {
    if s == [] then []
    else if s[0] == 0x0D || s[0] == 0x0A then StripNewlines(s[1..])
    else [s[0]] + StripNewlines(s[1..])
  }

  function First(a: nat, b: nat): byte
    requires a < 64 && b < 64
  {
    a * 4 + b / 16
  }

  function Second(b: nat, c: nat): byte
    requires b < 64 && c < 64
  {
    b % 16 * 16 + c / 4
  }

  function Third(c: nat, d: nat): byte
    requires c < 64 && d < 64
  {
    c % 4 * 64 + d
  }

  function DecodeGroups(s: seq<byte>): Option<seq<byte>> {
    if s == [] then Some([])
    else if |s| < 4 || !IsDigit(s[0]) || !IsDigit(s[1]) then None
    else if IsDigit(s[2]) && IsDigit(s[3]) then
      match DecodeGroups(s[4..])
      case None => None
      case Some(rest) =>
        Some([First(Value(s[0]), Value(s[1])), Second(Value(s[1]), Value(s[2])), Third(Value(s[2]), Value(s[3]))]
             + rest)
    else if |s| == 4 && IsDigit(s[2]) && s[3] == PAD then
      Some([First(Value(s[0]), Value(s[1])), Second(Value(s[1]), Value(s[2]))])
    else if |s| == 4 && s[2] == PAD && s[3] == PAD then
      Some([First(Value(s[0]), Value(s[1]))])
    else None
  }

  function Decode(s: seq<byte>): Option<seq<byte>> {
    DecodeGroups(StripNewlines(s))
  }

  predicate InAlphabet(c: byte) {
    IsDigit(c) || c == PAD
  }

  lemma {:induction false} EncodeAlphabet(b: seq<byte>)
    ensures forall i :: 0 <= i < |Encode(b)| ==> InAlphabet(Encode(b)[i])
    ensures Encode(b) == [] <==> b == []
  {
    if |b| >= 3 {
      EncodeAlphabet(b[3..]);
    }
  }

  lemma {:induction false} NothingToStrip(s: seq<byte>)
    requires forall i :: 0 <= i < |s| ==> InAlphabet(s[i])
    ensures StripNewlines(s) == s
  {
    if s != [] {
      NothingToStrip(s[1..]);
      assert s == [s[0]] + s[1..];
    }
  }

  lemma Regroup(x: byte, y: byte, z: byte)
    ensures First(x / 4, x % 4 * 16 + y / 16) == x
    ensures Second(x % 4 * 16 + y / 16, y % 16 * 4 + z / 64) == y
    ensures Third(y % 16 * 4 + z / 64, z % 64) == z
  {
    assert (x % 4 * 16 + y / 16) / 16 == x % 4;
    assert (x % 4 * 16 + y / 16) % 16 == y / 16;
    assert (y % 16 * 4 + z / 64) / 4 == y % 16;
    assert (y % 16 * 4 + z / 64) % 4 == z / 64;
  }

  /** The four digits of three bytes; with bytes missing, the digits of zeros in their place. */
  lemma Sextets(x: byte, y: byte, z: byte) returns (u: nat, v: nat, w: nat, q: nat)
    ensures u == x / 4 && v == x % 4 * 16 + y / 16 && w == y % 16 * 4 + z / 64 && q == z % 64
    ensures u < 64 && v < 64 && w < 64 && q < 64
    ensures First(u, v) == x && Second(v, w) == y && Third(w, q) == z
  {
    u, v, w, q := x / 4, x % 4 * 16 + y / 16, y % 16 * 4 + z / 64, z % 64;
    Regroup(x, y, z);
  }

  lemma GroupsOfFour(u: nat, v: nat, w: nat, q: nat, s: seq<byte>)
    requires u < 64 && v < 64 && w < 64 && q < 64
    ensures var t := [Digit(u), Digit(v), Digit(w), Digit(q)] + s;
            DecodeGroups(t) == match DecodeGroups(s)
                               case None => None
                               case Some(rest) => Some([First(u, v), Second(v, w), Third(w, q)] + rest)
  {
    var t := [Digit(u), Digit(v), Digit(w), Digit(q)] + s;
    assert t[4..] == s;
  }

  lemma GroupsPadded(u: nat, v: nat, w: nat)
    requires u < 64 && v < 64 && w < 64
    ensures DecodeGroups([Digit(u), Digit(v), Digit(w), PAD]) == Some([First(u, v), Second(v, w)])
    ensures DecodeGroups([Digit(u), Digit(v), PAD, PAD]) == Some([First(u, v)])
  {
    assert !IsDigit(PAD);
  }

  lemma EncodeGroups(x: byte, y: byte, z: byte, t: seq<byte>, u: nat, v: nat, w: nat, q: nat)
    requires u == x / 4 && v == x % 4 * 16 + y / 16 && w == y % 16 * 4 + z / 64 && q == z % 64
    requires u < 64 && v < 64 && w < 64 && q < 64
    ensures Encode([x, y, z] + t) == [Digit(u), Digit(v), Digit(w), Digit(q)] + Encode(t)
  {
    assert ([x, y, z] + t)[3..] == t;
  }

  lemma DecodeOne(x: byte)
    ensures DecodeGroups(Encode([x])) == Some([x])
  {
    var u, v, w, q := Sextets(x, 0, 0);
    assert v == x % 4 * 16;
    GroupsPadded(u, v, w);
  }

  lemma DecodeTwo(x: byte, y: byte)
    ensures DecodeGroups(Encode([x, y])) == Some([x, y])
  {
    var u, v, w, q := Sextets(x, y, 0);
    EncodeTwo(x, y, u, v, w);
    GroupsPadded(u, v, w);
  }

  lemma EncodeTwo(x: byte, y: byte, u: nat, v: nat, w: nat)
    requires u < 64 && v < 64 && w < 64 && u == x / 4 && v == x % 4 * 16 + y / 16 && w == y % 16 * 4
    ensures Encode([x, y]) == [Digit(u), Digit(v), Digit(w), PAD]
  {
  }

  lemma DecodeThree(x: byte, y: byte, z: byte, t: seq<byte>)
    requires DecodeGroups(Encode(t)) == Some(t)
    ensures DecodeGroups(Encode([x, y, z] + t)) == Some([x, y, z] + t)
  {
    var u, v, w, q := Sextets(x, y, z);
    EncodeGroups(x, y, z, t, u, v, w, q);
    GroupsOfFour(u, v, w, q, Encode(t));
  }

  lemma {:induction false} DecodeEncodedGroups(b: seq<byte>)
    ensures DecodeGroups(Encode(b)) == Some(b)
  {
    if |b| == 1 {
      assert b == [b[0]];
      DecodeOne(b[0]);
    } else if |b| == 2 {
      assert b == [b[0], b[1]];
      DecodeTwo(b[0], b[1]);
    } else if |b| >= 3 {
      DecodeEncodedGroups(b[3..]);
      assert b == [b[0], b[1], b[2]] + b[3..];
      DecodeThree(b[0], b[1], b[2], b[3..]);
    }
  }

  /** Every byte string survives base64. */
  lemma DecodeEncode(b: seq<byte>)
    ensures Decode(Encode(b)) == Some(b)
  {
    EncodeAlphabet(b);
    NothingToStrip(Encode(b));
    DecodeEncodedGroups(b);
  }

  // ---------- any text ----------

  lemma {:induction false} StripJoins(a: seq<byte>, b: seq<byte>)
    ensures StripNewlines(a + b) == StripNewlines(a) + StripNewlines(b)
  {
    if a == [] {
      assert a + b == b;
    } else {
      assert (a + b)[1..] == a[1..] + b;
      StripJoins(a[1..], b);
    }
  }

  /** A line break anywhere makes no difference. */
  lemma NewlineIgnored(a: seq<byte>, b: seq<byte>, newline: byte)
    requires newline == 0x0D || newline == 0x0A
    ensures Decode(a + [newline] + b) == Decode(a + b)
  {
    StripJoins(a + [newline], b);
    StripJoins(a, [newline]);
    StripJoins(a, b);
    assert [newline][1..] == [] && StripNewlines([newline]) == [];
    assert StripNewlines(a) + [] == StripNewlines(a);
  }

  /** Groups of four, of which the last may end in one or two pads. */
  predicate WellFormed(t: seq<byte>) {
    t == [] ||
    (&& |t| % 4 == 0 && (forall i :: 0 <= i < |t| - 2 ==> IsDigit(t[i]))
     && (if IsDigit(t[|t| - 2]) then IsDigit(t[|t| - 1]) || t[|t| - 1] == 0x3D
         else t[|t| - 2] == t[|t| - 1] == 0x3D))
  }

  lemma {:induction false} GroupsIff(t: seq<byte>)
    ensures DecodeGroups(t).Some? <==> WellFormed(t)
    decreases |t|
  {
    if |t| > 4 {
      GroupsIff(t[4..]);
      LaterGroups(t, t[4..]);
    }
  }

  lemma LaterGroups(t: seq<byte>, u: seq<byte>)
    requires |t| > 4 && u == t[4..]
    ensures WellFormed(t) <==>
              IsDigit(t[0]) && IsDigit(t[1]) && IsDigit(t[2]) && IsDigit(t[3]) && WellFormed(u)
  {
    assert |t| % 4 == |u| % 4;
    assert forall i :: 0 <= i < |u| ==> u[i] == t[i + 4];
    if IsDigit(t[0]) && IsDigit(t[1]) && IsDigit(t[2]) && IsDigit(t[3]) && WellFormed(u) {
      forall i | 0 <= i < |t| - 2 ensures IsDigit(t[i]) {
        if i >= 4 {
          var k := i - 4;
          assert u[k] == t[i];
        }
      }
    }
  }

  /** A text decodes exactly when it is well-formed but for line breaks; spare bits do not matter. */
  lemma DecodeIff(s: seq<byte>)
    ensures Decode(s).Some? <==> WellFormed(StripNewlines(s))
  {
    GroupsIff(StripNewlines(s));
  }

  /** Unpadded text is the encoding of what it decodes to. */
  lemma {:induction false} EncodeDecoded(t: seq<byte>)
    requires WellFormed(t) && 0x3D !in t
    ensures DecodeGroups(t).Some? && Encode(DecodeGroups(t).value) == t
    decreases |t|
  {
    if t != [] {
      var u := t[4..];
      FirstFour(t, u);
      EncodeDecoded(u);
      assert t == [t[0], t[1], t[2], t[3]] + u;
      FourDigits(t[0], t[1], t[2], t[3], u, t);
    }
  }

  lemma FirstFour(t: seq<byte>, u: seq<byte>)
    requires WellFormed(t) && 0x3D !in t && |t| >= 4 && u == t[4..]
    ensures IsDigit(t[0]) && IsDigit(t[1]) && IsDigit(t[2]) && IsDigit(t[3]) && WellFormed(u) && 0x3D !in u
  {
    assert t[|t| - 1] in t && t[|t| - 2] in t;
    if |t| > 4 {
      LaterGroups(t, u);
    }
  }

  lemma FourDigits(a: byte, b: byte, c: byte, d: byte, u: seq<byte>, t: seq<byte>)
    requires IsDigit(a) && IsDigit(b) && IsDigit(c) && IsDigit(d) && t == [a, b, c, d] + u
    requires DecodeGroups(u).Some? && Encode(DecodeGroups(u).value) == u
    ensures DecodeGroups(t).Some? && Encode(DecodeGroups(t).value) == t
  {
    assert t[4..] == u;
    var rest := DecodeGroups(u).value;
    var x, y, z := First(Value(a), Value(b)), Second(Value(b), Value(c)), Third(Value(c), Value(d));
    Bits(Value(a), Value(b), Value(c), Value(d));
    DigitOf(a);
    DigitOf(b);
    DigitOf(c);
    DigitOf(d);
    EncodeGroups(x, y, z, rest, Value(a), Value(b), Value(c), Value(d));
  }

  lemma DigitOf(c: byte)
    requires IsDigit(c)
    ensures Digit(Value(c)) == c
  {
  }

  lemma Bits(a: nat, b: nat, c: nat, d: nat)
    requires a < 64 && b < 64 && c < 64 && d < 64
    ensures var x, y, z := First(a, b), Second(b, c), Third(c, d);
            x / 4 == a && x % 4 * 16 + y / 16 == b && y % 16 * 4 + z / 64 == c && z % 64 == d
  {
    assert (a * 4 + b / 16) / 4 == a && (a * 4 + b / 16) % 4 == b / 16;
    assert (b % 16 * 16 + c / 4) / 16 == b % 16 && (b % 16 * 16 + c / 4) % 16 == c / 4;
    assert (c % 4 * 64 + d) / 64 == c % 4 && (c % 4 * 64 + d) % 64 == d;
  }
}
