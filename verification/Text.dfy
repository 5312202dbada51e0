/** The parts of Go's strings package that the line protocol uses, on bytes. */
module Text {
  import opened Wrappers
  import opened Bytes
  import Utf8

  /** strings.IndexByte. */
  function IndexByte(s: seq<byte>, b: byte): (r: Option<nat>)
    ensures r.Some? ==> r.value < |s| && s[r.value] == b && b !in s[..r.value]
    ensures r.None? <==> b !in s
  {
    if s == [] then None
    else if s[0] == b then Some(0)
    else
      var r := IndexByte(s[1..], b);
      assert s == [s[0]] + s[1..];
      if r.None? then None
      else
        assert s[..r.value + 1] == [s[0]] + s[1..][..r.value];
        Some(r.value + 1)
  }

  /** The pattern occurs at position j. */
  predicate OccursAt(s: seq<byte>, pat: seq<byte>, j: nat) {
    j + |pat| <= |s| && s[j..j + |pat|] == pat
  }

  /** strings.Index. */
  function Index(s: seq<byte>, pat: seq<byte>): (r: Option<nat>)
    ensures r.Some? ==> OccursAt(s, pat, r.value) && forall j :: 0 <= j < r.value ==> !OccursAt(s, pat, j)
    ensures r.None? ==> forall j: nat :: !OccursAt(s, pat, j)
  {
    IndexFrom(s, pat, 0)
  }

  function IndexFrom(s: seq<byte>, pat: seq<byte>, i: nat): (r: Option<nat>)
    requires i <= |s|
    requires forall j :: 0 <= j < i ==> !OccursAt(s, pat, j)
    ensures r.Some? ==> OccursAt(s, pat, r.value) && forall j :: 0 <= j < r.value ==> !OccursAt(s, pat, j)
    ensures r.None? ==> forall j: nat :: !OccursAt(s, pat, j)
    decreases |s| - i
  {
    if OccursAt(s, pat, i) then Some(i)
    else if i == |s| then None
    else IndexFrom(s, pat, i + 1)
  }

  /** strings.LastIndex. */
  function LastIndex(s: seq<byte>, pat: seq<byte>): (r: Option<nat>)
    ensures r.Some? ==> OccursAt(s, pat, r.value) && forall j :: j > r.value ==> !OccursAt(s, pat, j)
    ensures r.None? ==> forall j: nat :: !OccursAt(s, pat, j)
  {
    LastIndexBefore(s, pat, |s| + 1)
  }

  function LastIndexBefore(s: seq<byte>, pat: seq<byte>, i: nat): (r: Option<nat>)
    requires forall j :: j >= i ==> !OccursAt(s, pat, j)
    ensures r.Some? ==> OccursAt(s, pat, r.value) && forall j :: j > r.value ==> !OccursAt(s, pat, j)
    ensures r.None? ==> forall j: nat :: !OccursAt(s, pat, j)
  {
    if i == 0 then None
    else if OccursAt(s, pat, i - 1) then Some(i - 1)
    else LastIndexBefore(s, pat, i - 1)
  }

  lemma IndexIs(s: seq<byte>, pat: seq<byte>, i: nat)
    requires OccursAt(s, pat, i) && forall j :: 0 <= j < i ==> !OccursAt(s, pat, j)
    ensures Index(s, pat) == Some(i)
  {
  }

  lemma OccursMeans(s: seq<byte>, pat: seq<byte>, k: nat)
    requires k < |pat|
    ensures forall j: nat :: OccursAt(s, pat, j) ==> s[j + k] == pat[k]
  {
    forall j: nat | OccursAt(s, pat, j) ensures s[j + k] == pat[k] {
      assert s[j..j + |pat|][k] == pat[k];
    }
  }

  /** A pattern whose byte c, first at k, occurs nowhere in a front part is first found behind that part. */
  lemma IndexBehind(a: seq<byte>, b: seq<byte>, pat: seq<byte>, k: nat, c: byte)
    requires k < |pat| && pat[k] == c && c !in pat[..k] && pat <= b
    requires forall j :: 0 <= j < |a| && OccursAt(a + b, pat, j) ==> !(j + k < |a| && a[j + k] == c)
    ensures Index(a + b, pat) == Some(|a|)
  {
    var s := a + b;
    assert s[|a|..|a| + |pat|] == b[..|pat|];
    OccursMeans(s, pat, k);
    forall i | |a| <= i < |a| + k ensures s[i] != c {
      assert s[i] == b[i - |a|] == pat[..k][i - |a|];
    }
    assert forall j :: 0 <= j < |a| ==> !OccursAt(s, pat, j);
    IndexIs(s, pat, |a|);
  }

  // ---------- white space ----------

  /** The length of the white-space rune at the front (unicode.IsSpace, in UTF-8), or 0. */
  function SpaceAtFront(s: seq<byte>): (n: nat)
    ensures n <= |s| && n <= 3
  {
    if |s| >= 1 && IsAsciiSpace(s[0]) then 1
    else if |s| >= 2 && IsSpace2(s[0], s[1]) then 2
    else if |s| >= 3 && IsSpace3(s[0], s[1], s[2]) then 3
    else 0
  }

  function SpaceAtBack(s: seq<byte>): (n: nat)
    ensures n <= |s| && n <= 3
  {
    var k := |s|;
    if k >= 1 && IsAsciiSpace(s[k - 1]) then 1
    else if k >= 2 && IsSpace2(s[k - 2], s[k - 1]) then 2
    else if k >= 3 && IsSpace3(s[k - 3], s[k - 2], s[k - 1]) then 3
    else 0
  }

  predicate IsAsciiSpace(b: byte) {
    0x09 <= b <= 0x0D || b == 0x20
  }

  /** U+0085 and U+00A0. */
  predicate IsSpace2(a: byte, b: byte) {
    a == 0xC2 && (b == 0x85 || b == 0xA0)
  }

  /** U+1680, U+2000 to U+200A, U+2028, U+2029, U+202F, U+205F and U+3000. */
  predicate IsSpace3(a: byte, b: byte, c: byte) {
    || (a == 0xE1 && b == 0x9A && c == 0x80)
    || (a == 0xE2 && b == 0x80 && (0x80 <= c <= 0x8A || c == 0xA8 || c == 0xA9 || c == 0xAF))
    || (a == 0xE2 && b == 0x81 && c == 0x9F)
    || (a == 0xE3 && b == 0x80 && c == 0x80)
  }

  function TrimLeft(s: seq<byte>): seq<byte> {
    if SpaceAtFront(s) == 0 then s else TrimLeft(s[SpaceAtFront(s)..])
  }

  function TrimRight(s: seq<byte>): seq<byte> {
    if SpaceAtBack(s) == 0 then s else TrimRight(s[..|s| - SpaceAtBack(s)])
  }

  /** strings.TrimSpace. */
  function TrimSpace(s: seq<byte>): seq<byte> {
    TrimRight(TrimLeft(s))
  }

  /** strings.TrimPrefix of the byte order mark. */
  function TrimBom(s: seq<byte>): seq<byte> {
    if |s| >= 3 && s[0] == 0xEF && s[1] == 0xBB && s[2] == 0xBF then s[3..] else s
  }

  /** Trimming takes nothing from the middle. */
  lemma {:induction false} TrimLeftTakesFront(s: seq<byte>) returns (n: nat)
    ensures n <= |s| && TrimLeft(s) == s[n..]
    decreases |s|
  {
    var k := SpaceAtFront(s);
    if k == 0 {
      n := 0;
    } else {
      var m := TrimLeftTakesFront(s[k..]);
      n := k + m;
    }
  }

  lemma {:induction false} TrimRightTakesBack(s: seq<byte>) returns (n: nat)
    ensures n <= |s| && TrimRight(s) == s[..n]
    decreases |s|
  {
    var k := SpaceAtBack(s);
    if k == 0 {
      n := |s|;
    } else {
      n := TrimRightTakesBack(s[..|s| - k]);
    }
  }

  /** A byte that is not in a line is not in what trimming leaves of it. */
  lemma TrimmedLacks(s: seq<byte>, b: byte)
    requires b !in s
    ensures b !in TrimSpace(s) && b !in TrimBom(TrimSpace(s))
  {
    var i := TrimLeftTakesFront(s);
    var j := TrimRightTakesBack(TrimLeft(s));
    var t := TrimSpace(s);
    assert t == s[i..][..j];
    forall x | x in t ensures x in s {
      var k :| 0 <= k < |t| && t[k] == x;
      assert s[i + k] == x;
    }
    forall x | x in TrimBom(t) ensures x in t {
      var k :| 0 <= k < |TrimBom(t)| && TrimBom(t)[k] == x;
      assert x == t[k] || x == t[k + 3];
    }
  }

  /** Trimming from the left stops at the latest at a printable ASCII byte. */
  lemma {:induction false} TrimLeftStops(j: seq<byte>, body: seq<byte>) returns (k: nat)
    requires body != [] && 0x20 < body[0] < 0x80
    ensures k <= |j| && TrimLeft(j + body) == j[k..] + body
    decreases |j|
  {
    var s := j + body;
    var n := SpaceAtFront(s);
    if n == 0 {
      k := 0;
    } else {
      assert s[|j|] == body[0];
      assert n <= |j|;
      assert s[n..] == j[n..] + body;
      var m := TrimLeftStops(j[n..], body);
      k := n + m;
      assert j[n..][m..] == j[k..];
    }
  }

  lemma TrimRightStops(s: seq<byte>)
    requires s != [] && 0x20 < s[|s| - 1] < 0x80
    ensures TrimRight(s) == s
  {
  }

  lemma TrimRightNewline(s: seq<byte>)
    requires s != [] && 0x20 < s[|s| - 1] < 0x80
    ensures TrimRight(s + [0x0A]) == s
  {
    assert (s + [0x0A])[..|s|] == s;
    TrimRightStops(s);
  }

  // ---------- which runes are white space ----------

  /** The runes with the property White_Space in Unicode, as unicode.IsSpace has them. */
  predicate IsSpaceRune(r: nat) {
    || 0x09 <= r <= 0x0D || r == 0x20 || r == 0x85 || r == 0xA0 || r == 0x1680 || 0x2000 <= r <= 0x200A
    || r == 0x2028 || r == 0x2029 || r == 0x202F || r == 0x205F || r == 0x3000
  }

  /** The bytes of a white-space rune. */
  ghost predicate IsSpace(u: seq<byte>) {
    exists r :: IsSpaceRune(r) && Utf8.EncodeRune(r) == u
  }

  lemma SpaceIff(u: seq<byte>)
    ensures IsSpace(u) <==> IsSpaceText(u)
  {
    if IsSpaceText(u) {
      var r := SpaceOf(u);
    }
    if r :| IsSpaceRune(r) && Utf8.EncodeRune(r) == u {
      SpaceRune(r);
    }
  }

  /** Trimming from the left takes n bytes next exactly when these are a white-space rune. */
  lemma FrontIff(s: seq<byte>, n: nat)
    requires n > 0
    ensures SpaceAtFront(s) == n <==> n <= |s| && IsSpace(s[..n])
  {
    if n <= |s| {
      SpaceIff(s[..n]);
    }
  }

  /** And from the right. */
  lemma BackIff(s: seq<byte>, n: nat)
    requires n > 0
    ensures SpaceAtBack(s) == n <==> n <= |s| && IsSpace(s[|s| - n..])
  {
    if n <= |s| {
      SpaceIff(s[|s| - n..]);
    }
    BackText(s, n);
  }

  lemma BackText(s: seq<byte>, n: nat)
    requires n > 0
    ensures SpaceAtBack(s) == n <==> n <= |s| && IsSpaceText(s[|s| - n..])
  {
    if n <= |s| && n <= 3 {
      var u := s[|s| - n..];
      LastBytes(s, u);
    } else if n <= |s| {
      TooLong(s[|s| - n..]);
    }
  }

  lemma TooLong(u: seq<byte>)
    requires |u| > 3
    ensures !IsSpaceText(u)
  {
  }

  /** No space rune ends another. */
  lemma LastBytes(s: seq<byte>, u: seq<byte>)
    requires 1 <= |u| <= |s| && |u| <= 3 && u == s[|s| - |u|..]
    ensures IsSpaceText(u) <==> SpaceAtBack(s) == |u|
  {
    var k := |s|;
    assert u[|u| - 1] == s[k - 1];
    if |u| >= 2 {
      assert u[|u| - 2] == s[k - 2];
    }
    if |u| == 3 {
      assert u[0] == s[k - 3];
    }
  }

  /** A white-space rune in UTF-8. */
  predicate IsSpaceText(u: seq<byte>) {
    || (|u| == 1 && IsAsciiSpace(u[0])) || (|u| == 2 && IsSpace2(u[0], u[1]))
    || (|u| == 3 && IsSpace3(u[0], u[1], u[2]))
  }

  lemma ThreeBytes(r: nat, a: nat, b: nat, c: nat)
    requires r == a * 4096 + b * 64 + c && b < 64 && c < 64 && 0x800 <= r < 0x10000 && Utf8.IsScalar(r)
    ensures Utf8.EncodeRune(r) == [0xE0 + a, 0x80 + b, 0x80 + c]
  {
    DivMod64(r, a * 64 + b, c);
    DivMod64(r / 64, a, b);
  }

  lemma DivMod64(n: nat, q: nat, c: nat)
    requires n == q * 64 + c && c < 64
    ensures n / 64 == q && n % 64 == c
  {
  }

  lemma SpaceRune(r: nat)
    requires IsSpaceRune(r)
    ensures IsSpaceText(Utf8.EncodeRune(r))
  {
    if 0x2000 <= r <= 0x202F {
      ThreeBytes(r, 2, 0, r - 0x2000);
    } else if r == 0x1680 {
      ThreeBytes(r, 1, 26, 0);
    } else if r == 0x205F {
      ThreeBytes(r, 2, 1, 31);
    } else if r == 0x3000 {
      ThreeBytes(r, 3, 0, 0);
    } else if r >= 0x80 {
      assert Utf8.EncodeRune(r) == [0xC2, r];
    }
  }

  lemma SpaceOf(u: seq<byte>) returns (r: nat)
    requires IsSpaceText(u)
    ensures IsSpaceRune(r) && Utf8.EncodeRune(r) == u
  {
    if |u| == 1 {
      r := u[0];
    } else if |u| == 2 {
      r := u[1];
      assert u == [0xC2, u[1]];
    } else {
      r := SpaceOfThree(u[0], u[1], u[2]);
      assert u == [u[0], u[1], u[2]];
    }
  }

  lemma SpaceOfThree(a: byte, b: byte, c: byte) returns (r: nat)
    requires IsSpace3(a, b, c)
    ensures IsSpaceRune(r) && Utf8.EncodeRune(r) == [a, b, c]
  {
    var x: nat, y: nat, z: nat := a - 0xE0, b - 0x80, c - 0x80;
    r := x * 4096 + y * 64 + z;
    ThreeBytes(r, x, y, z);
  }

  /** A byte order mark in front is dropped, once. */
  lemma BomDropped(s: seq<byte>)
    ensures TrimBom([0xEF, 0xBB, 0xBF] + s) == s
    ensures !([0xEF, 0xBB, 0xBF] <= s) ==> TrimBom(s) == s
  {
    assert ([0xEF, 0xBB, 0xBF] + s)[3..] == s;
  }
}
