/** Decimal text of integers, as strconv.Itoa writes it and strconv.ParseInt reads it in base 10. */
module Decimal {
  import opened Wrappers
  import opened Bytes

  predicate IsDigit(b: byte) {
    0x30 <= b <= 0x39
  }

  function Digits(n: nat): (s: seq<byte>)
    ensures s != [] && forall b :: b in s ==> IsDigit(b)
  {
    if n < 10 then [0x30 + n] else Digits(n / 10) + [0x30 + n % 10]
  }

  function Itoa(n: int): (s: seq<byte>)
    ensures s != []
  {
    if n < 0 then [0x2D] + Digits(-n) else Digits(n)
  }

  predicate AllDigits(s: seq<byte>) {
    forall i :: 0 <= i < |s| ==> IsDigit(s[i])
  }

  function DigitsValue(s: seq<byte>): nat
    requires AllDigits(s)
  {
    if s == [] then 0 else DigitsValue(s[..|s| - 1]) * 10 + (s[|s| - 1] - 0x30)
  }

  /** An optional sign, at least one digit, and a value within the bounds; anything else is an error. */
  function ParseInt(s: seq<byte>, lo: int, hi: int): (r: Option<int>)
    ensures r.Some? ==> lo <= r.value <= hi
  {
    var signed := s != [] && (s[0] == 0x2B || s[0] == 0x2D);
    var digits := if signed then s[1..] else s;
    if digits == [] || !AllDigits(digits) then None
    else
      var v: int := if signed && s[0] == 0x2D then 0 - DigitsValue(digits) else DigitsValue(digits);
      if lo <= v <= hi then Some(v) else None
  }

  /** strconv.Atoi on a 64-bit platform. */
  function Atoi(s: seq<byte>): Option<int> {
    ParseInt(s, MIN_INT64, MAX_INT64)
  }

  lemma {:induction false} DigitsRoundTrip(n: nat)
    ensures DigitsValue(Digits(n)) == n
  {
    var s := Digits(n);
    if n >= 10 {
      DigitsRoundTrip(n / 10);
      assert s[..|s| - 1] == Digits(n / 10);
    }
  }

  lemma ParseItoa(n: int, lo: int, hi: int)
    requires lo <= n <= hi
    ensures ParseInt(Itoa(n), lo, hi) == Some(n)
  {
    var digits := Digits(if n < 0 then -n else n);
    DigitsRoundTrip(if n < 0 then -n else n);
    assert digits[0] in digits;
    if n < 0 {
      assert Itoa(n)[1..] == digits;
    }
  }

  // ---------- any text ----------

  /** n in decimal, behind any number of zeros. */
  ghost predicate Spells(s: seq<byte>, n: nat) {
    exists k: nat :: s == Zeros(k) + Digits(n)
  }

  function Zeros(k: nat): (s: seq<byte>)
    ensures |s| == k
  {
    seq(k, _ => 0x30)
  }

  lemma ZerosMore(k: nat, s: seq<byte>)
    requires k > 0
    ensures Zeros(k) + s == [0x30] + (Zeros(k - 1) + s)
  {
  }

  lemma {:induction false} LeadingZero(s: seq<byte>)
    requires AllDigits(s)
    ensures DigitsValue([0x30] + s) == DigitsValue(s)
  {
    var t := [0x30] + s;
    if s == [] {
      assert t[..0] == [];
    } else {
      LeadingZero(s[..|s| - 1]);
      assert t[..|t| - 1] == [0x30] + s[..|s| - 1];
    }
  }

  lemma {:induction false} SpelledValue(k: nat, n: nat)
    ensures AllDigits(Zeros(k) + Digits(n)) && DigitsValue(Zeros(k) + Digits(n)) == n
    decreases k
  {
    AllAreDigits(n);
    if k == 0 {
      assert Zeros(0) + Digits(n) == Digits(n);
      DigitsRoundTrip(n);
    } else {
      SpelledValue(k - 1, n);
      ZerosMore(k, Digits(n));
      LeadingZero(Zeros(k - 1) + Digits(n));
    }
  }

  lemma AllAreDigits(n: nat)
    ensures AllDigits(Digits(n))
  {
    forall i | 0 <= i < |Digits(n)| ensures IsDigit(Digits(n)[i]) {
      assert Digits(n)[i] in Digits(n);
    }
  }

  /** Digits that are not all zeros in front are a number's own, and any others have zeros in front of one's. */
  lemma {:induction false} DigitsAreSpelled(s: seq<byte>)
    requires AllDigits(s) && s != []
    ensures Spells(s, DigitsValue(s))
    decreases |s|
  {
    var n, last := |s| - 1, s[|s| - 1];
    var front := s[..n];
    assert s == front + [last];
    if front == [] {
      OneDigit(last);
      assert DigitsValue(s) == DigitsValue(front) * 10 + (last - 0x30);
    } else {
      DigitsAreSpelled(front);
      var v := DigitsValue(front);
      var k: nat :| front == Zeros(k) + Digits(v);
      SpelledOn(k, v, last);
    }
  }

  lemma OneDigit(b: byte)
    requires IsDigit(b)
    ensures Spells([b], b - 0x30)
  {
    assert [b] == Zeros(0) + Digits(b - 0x30);
  }

  /** A digit more. */
  lemma SpelledOn(k: nat, v: nat, last: byte)
    requires IsDigit(last)
    ensures Spells(Zeros(k) + Digits(v) + [last], v * 10 + (last - 0x30))
  {
    var w := v * 10 + (last - 0x30);
    if v == 0 {
      var k1 := k + 1;
      assert Digits(0) == [0x30] && Digits(w) == [last];
      assert Zeros(k) + [0x30] + [last] == Zeros(k1) + [last];
    } else {
      assert w / 10 == v && w % 10 == last - 0x30;
      assert Digits(w) == Digits(v) + [last];
      assert Zeros(k) + Digits(v) + [last] == Zeros(k) + Digits(w);
    }
  }

  lemma SpellsIff(s: seq<byte>, n: nat)
    ensures Spells(s, n) <==> s != [] && AllDigits(s) && DigitsValue(s) == n
  {
    if k: nat :| s == Zeros(k) + Digits(n) {
      SpelledValue(k, n);
    }
    if s != [] && AllDigits(s) {
      DigitsAreSpelled(s);
    }
  }

  /** The texts that denote an integer: its digits behind zeros, with or without a sign. */
  ghost predicate Denotes(s: seq<byte>, n: int) {
    || (n >= 0 && Spells(s, n))
    || (n >= 0 && s != [] && s[0] == 0x2B && Spells(s[1..], n))
    || (n <= 0 && s != [] && s[0] == 0x2D && Spells(s[1..], -n))
  }

  /** The number that a text denotes, when it is one of 64 bits. */
  function Denoted(s: seq<byte>): Option<int> {
    ParseInt(s, -0x8000_0000_0000_0000, 0x7FFF_FFFF_FFFF_FFFF)
  }

  /** A text is read as a number exactly when it denotes it and the number is within the bounds. */
  lemma ParseIff(s: seq<byte>, lo: int, hi: int, n: int)
    ensures ParseInt(s, lo, hi) == Some(n) <==> Denotes(s, n) && lo <= n <= hi
  {
    if n >= 0 {
      SpellsIff(s, n);
    }
    if s != [] {
      if n >= 0 {
        SpellsIff(s[1..], n);
      }
      if n <= 0 {
        SpellsIff(s[1..], -n);
      }
      assert AllDigits(s) ==> IsDigit(s[0]);
    }
  }
}
