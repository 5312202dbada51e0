/** MS-PSRP section 2.2.4: fragments, the splitting of messages into them, and their reassembly. */
module Fragments {
  import opened Wrappers
  import opened Bytes
  import opened Sequences

  const HEADER_SIZE := 21
  const MAX_UINT32 := 0xFFFF_FFFF
  const MAX_UINT64 := 0xFFFF_FFFF_FFFF_FFFF

  /** The longest data Decode can slice: its bound, the length and the header's together, is 32 bits wide. */
  const MAX_DATA := MAX_UINT32 - HEADER_SIZE

  /** More bytes than any Go slice holds. */
  const MAX_SLICE := 0x4000_0000_0000_0000

  datatype Fragment = Fragment(objectId: uint64, fragmentId: uint64, start: bool, end: bool, data: seq<byte>)

  // ---------- the codec ----------

  function Flags(start: bool, end: bool): (b: byte) {
    (if start then 1 else 0) + (if end then 2 else 0)
  }

  /** The bytes of a fragment whose data fits a 32-bit length. */
  function Encoded(f: Fragment): (s: seq<byte>)
    ensures |s| == HEADER_SIZE + |f.data|
  {
    BigEndian(f.objectId, 8) + (BigEndian(f.fragmentId, 8)
                                + ([Flags(f.start, f.end)] + (BigEndian(|f.data|, 4) + f.data)))
  }

  /** Fragment.Encode: nothing when the data is longer than 32 bits can say. */
  method Encode(f: Fragment) returns (r: Option<seq<byte>>)
    ensures r == if |f.data| > MAX_UINT32 then None else Some(Encoded(f))
  {
    if |f.data| > MAX_UINT32 {
      return None;
    }
    var buf := new byte[HEADER_SIZE + |f.data|];
    PutBigEndian(buf, 0, 8, f.objectId);
    PutBigEndian(buf, 8, 8, f.fragmentId);
    assert buf[..8] == BigEndian(f.objectId, 8);
    var flags: byte := 0;
    if f.start {
      flags := flags + 1;
    }
    if f.end {
      flags := flags + 2;
    }
    ghost var ids := buf[..16];
    assert ids == BigEndian(f.objectId, 8) + BigEndian(f.fragmentId, 8) by {
      assert ids[..8] == buf[..8] && ids[8..] == buf[8..16];
    }
    buf[16] := flags;
    assert buf[..17] == ids + [flags];
    PutBigEndian(buf, 17, 4, |f.data|);
    ghost var head := buf[..21];
    assert head == ids + [flags] + BigEndian(|f.data|, 4) by {
      assert head[..17] == buf[..17] && head[17..] == buf[17..21];
    }
    CopyInto(buf, 21, f.data);
    assert buf[..] == head + f.data by {
      assert buf[..21] == head && buf[21..21 + |f.data|] == f.data;
    }
    Flat4(BigEndian(f.objectId, 8), BigEndian(f.fragmentId, 8), [flags], BigEndian(|f.data|, 4), f.data);
    r := Some(buf[..]);
  }

  datatype Decoding = Decoded(fragment: Fragment) | Invalid | SlicePanic

  /** The length announced in a fragment header. */
  function BlobLength(header: seq<byte>): (blob: nat)
    requires |header| >= HEADER_SIZE
    ensures blob <= MAX_UINT32
  {
    FromBigEndianRoundTrip(header[17..21]);
    Pow256Values();
    FromBigEndian(header[17..21])
  }

  /** A header and all the bytes it announces are there. */
  predicate IsWhole(s: seq<byte>) {
    |s| >= HEADER_SIZE && |s| >= HEADER_SIZE + BlobLength(s)
  }

  /** The fragment that section 2.2.4 of MS-PSRP sees in these bytes. */
  function Whole(s: seq<byte>): (f: Fragment)
    requires IsWhole(s)
    ensures |f.data| == BlobLength(s)
  {
    FromBigEndianRoundTrip(s[0..8]);
    FromBigEndianRoundTrip(s[8..16]);
    Pow256Values();
    Fragment(FromBigEndian(s[0..8]), FromBigEndian(s[8..16]), s[16] % 2 == 1, s[16] / 2 % 2 == 1,
             s[HEADER_SIZE..HEADER_SIZE + BlobLength(s)])
  }

  /** Decode: the bound of the slice is computed in 32 bits, and slicing panics where it has wrapped around. */
  function Decode(s: seq<byte>): (r: Decoding)
    ensures r.Decoded? ==> |s| >= HEADER_SIZE + |r.fragment.data|
  {
    if |s| < HEADER_SIZE then Invalid
    else
      var blob := BlobLength(s);
      if |s| < HEADER_SIZE + blob then Invalid
      else
        var bound := (HEADER_SIZE + blob) % 0x1_0000_0000;
        if bound < HEADER_SIZE then SlicePanic
        else
          FromBigEndianRoundTrip(s[0..8]);
          FromBigEndianRoundTrip(s[8..16]);
          Pow256Values();
          Decoded(Fragment(FromBigEndian(s[0..8]), FromBigEndian(s[8..16]), s[16] % 2 == 1, s[16] / 2 % 2 == 1,
                           s[HEADER_SIZE..bound]))
  }

  /** Decode finds the fragment that is there, fails where none is whole, and panics on the 21 greatest lengths. */
  lemma DecodeOutcomes(s: seq<byte>)
    ensures Decode(s).Invalid? <==> !IsWhole(s)
    ensures Decode(s).SlicePanic? <==> IsWhole(s) && BlobLength(s) > 0xFFFF_FFEA
    ensures Decode(s).Decoded? <==> IsWhole(s) && Decode(s) == Decoded(Whole(s))
  {
    if IsWhole(s) && BlobLength(s) > MAX_DATA {
      var over := HEADER_SIZE + BlobLength(s) - 0x1_0000_0000;
      assert (HEADER_SIZE + BlobLength(s)) % 0x1_0000_0000 == over;
    }
  }

  lemma EncodedFields(f: Fragment, rest: seq<byte>)
    ensures var s := Encoded(f) + rest;
            && s[0..8] == BigEndian(f.objectId, 8) && s[8..16] == BigEndian(f.fragmentId, 8)
            && s[16] == Flags(f.start, f.end) && s[17..21] == BigEndian(|f.data|, 4) && s[21..21 + |f.data|] == f.data
            && s[21 + |f.data|..] == rest
  {
    Slices(BigEndian(f.objectId, 8), BigEndian(f.fragmentId, 8), [Flags(f.start, f.end)], BigEndian(|f.data|, 4),
           f.data, rest);
  }

  lemma Slices(a: seq<byte>, b: seq<byte>, c: seq<byte>, d: seq<byte>, e: seq<byte>, rest: seq<byte>)
    requires |a| == 8 && |b| == 8 && |c| == 1 && |d| == 4
    ensures var s := a + (b + (c + (d + e))) + rest;
            && s[0..8] == a && s[8..16] == b && s[16] == c[0] && s[17..21] == d && s[21..21 + |e|] == e
            && s[21 + |e|..] == rest
  {
    Flat4(a, b, c, d, e);
    var s := a + b + c + d + e + rest;
    assert s[0..8] == a && s[8..16] == b;
    assert s[16] == c[0] && s[17..21] == d;
    assert s[21..21 + |e|] == e && s[21 + |e|..] == rest;
  }

  /** What was encoded stands whole at the front of any longer input. */
  lemma WholeEncoded(f: Fragment, rest: seq<byte>)
    requires |f.data| <= MAX_UINT32
    ensures var s := Encoded(f) + rest; IsWhole(s) && BlobLength(s) == |f.data| && Whole(s) == f
  {
    EncodedFields(f, rest);
    Pow256Values();
    BigEndianRoundTrip(f.objectId, 8);
    BigEndianRoundTrip(f.fragmentId, 8);
    BigEndianRoundTrip(|f.data|, 4);
  }

  /** What was encoded is decoded from the front of any longer input, unless it is more than Decode can slice. */
  lemma DecodeEncoded(f: Fragment, rest: seq<byte>)
    requires |f.data| <= MAX_UINT32
    ensures Decode(Encoded(f) + rest) == if |f.data| <= MAX_DATA then Decoded(f) else SlicePanic
  {
    WholeEncoded(f, rest);
    DecodeOutcomes(Encoded(f) + rest);
  }

  function Zeros(n: nat): (s: seq<byte>)
    ensures |s| == n
  {
    seq(n, _ => 0)
  }

  /** A fragment that can be encoded and on whose encoding Decode panics. */
  lemma LongFragmentPanics()
    ensures var f := Fragment(1, 0, true, true, Zeros(0xFFFF_FFEB));
            |f.data| <= MAX_UINT32 && Decode(Encoded(f)) == SlicePanic
  {
    var f := Fragment(1, 0, true, true, Zeros(0xFFFF_FFEB));
    DecodeEncoded(f, []);
    assert Encoded(f) + [] == Encoded(f);
  }

  /** Encoding what was decoded gives the same bytes exactly when no reserved flag was set. */
  lemma EncodedDecode(s: seq<byte>)
    requires Decode(s).Decoded?
    ensures var f := Decode(s).fragment;
            |f.data| <= MAX_DATA && (Encoded(f) == s[..HEADER_SIZE + |f.data|] <==> s[16] < 4)
  {
    DecodeOutcomes(s);
    EncodedWhole(s);
  }

  lemma EncodedWhole(s: seq<byte>)
    requires IsWhole(s)
    ensures var f := Whole(s); Encoded(f) == s[..HEADER_SIZE + |f.data|] <==> s[16] < 4
  {
    var f := Whole(s);
    var n := HEADER_SIZE + |f.data|;
    WholeParts(s, f);
    FlagsBack(s[16]);
    InParts(s, n);
    if Encoded(f) == s[..n] {
      EncodedFields(f, []);
      assert Encoded(f) + [] == Encoded(f);
    }
  }

  /** The parts of such a fragment's encoding are those of the bytes, except perhaps the flags. */
  lemma WholeParts(s: seq<byte>, f: Fragment)
    requires IsWhole(s) && f == Whole(s)
    ensures var n, flags := HEADER_SIZE + |f.data|, Flags(s[16] % 2 == 1, s[16] / 2 % 2 == 1);
            Flags(f.start, f.end) == flags && Encoded(f) == s[0..8] + (s[8..16] + ([flags] + (s[17..21] + s[21..n])))
  {
    Pow256Values();
    FromBigEndianRoundTrip(s[0..8]);
    FromBigEndianRoundTrip(s[8..16]);
    FromBigEndianRoundTrip(s[17..21]);
  }

  lemma FlagsBack(b: byte)
    ensures Flags(b % 2 == 1, b / 2 % 2 == 1) == b <==> b < 4
  {
  }

  lemma InParts(s: seq<byte>, n: nat)
    requires HEADER_SIZE <= n <= |s|
    ensures s[..n] == s[0..8] + (s[8..16] + ([s[16]] + (s[17..21] + s[21..n])))
  {
  }

  lemma EncodedInjective(f: Fragment, g: Fragment)
    requires |f.data| <= MAX_UINT32 && |g.data| <= MAX_UINT32 && Encoded(f) == Encoded(g)
    ensures f == g
  {
    WholeEncoded(f, []);
    WholeEncoded(g, []);
  }

  // ---------- splitting ----------

  /** data cut into pieces of m bytes, the last one shorter or empty, numbered from k on. */
  function Split(id: uint64, k: nat, data: seq<byte>, m: nat): (frags: seq<Fragment>)
    requires m >= 1 && k + |data| <= MAX_UINT64
    ensures frags != [] && (data != [] ==> |frags| <= |data|) && (data == [] ==> |frags| == 1)
    ensures forall i :: 0 <= i < |frags| ==> frags[i].objectId == id && frags[i].fragmentId == k + i
    ensures forall i :: 0 <= i < |frags| ==> (frags[i].start <==> k + i == 0) && (frags[i].end <==> i == |frags| - 1)
    ensures forall i :: 0 <= i < |frags| ==> |frags[i].data| <= m && (i < |frags| - 1 ==> |frags[i].data| == m)
    decreases |data|
  {
    if |data| <= m then [Fragment(id, k, k == 0, true, data)]
    else [Fragment(id, k, k == 0, false, data[..m])] + Split(id, k + 1, data[m..], m)
  }

  function Concat(frags: seq<Fragment>): seq<byte> {
    if frags == [] then [] else frags[0].data + Concat(frags[1..])
  }

  lemma {:induction false} SplitConcat(id: uint64, k: nat, data: seq<byte>, m: nat)
    requires m >= 1 && k + |data| <= MAX_UINT64
    ensures Concat(Split(id, k, data, m)) == data
    decreases |data|
  {
    var frags := Split(id, k, data, m);
    if |data| <= m {
      assert frags[1..] == [];
    } else {
      assert frags[1..] == Split(id, k + 1, data[m..], m);
      SplitConcat(id, k + 1, data[m..], m);
    }
  }

  /** The fragments of a message are determined by its id, its bytes and the size of the pieces. */
  ghost predicate IsFragmentation(frags: seq<Fragment>, id: uint64, k: nat, data: seq<byte>, m: nat) {
    && frags != [] && Concat(frags) == data
    && (forall i :: 0 <= i < |frags| ==>
          && frags[i].objectId == id && frags[i].fragmentId == k + i
          && (frags[i].start <==> k + i == 0) && (frags[i].end <==> i == |frags| - 1)
          && |frags[i].data| <= m && (i < |frags| - 1 ==> |frags[i].data| == m))
    && (|frags| > 1 ==> frags[|frags| - 1].data != [])
  }

  lemma {:induction false} SplitLastNotEmpty(id: uint64, k: nat, data: seq<byte>, m: nat)
    requires m >= 1 && k + |data| <= MAX_UINT64
    ensures var frags := Split(id, k, data, m); data != [] ==> frags[|frags| - 1].data != []
    decreases |data|
  {
    if |data| > m {
      SplitLastNotEmpty(id, k + 1, data[m..], m);
    }
  }

  lemma {:induction false} SplitIsTheFragmentation(frags: seq<Fragment>, id: uint64, k: nat, data: seq<byte>, m: nat)
    requires m >= 1 && k + |data| <= MAX_UINT64
    ensures IsFragmentation(frags, id, k, data, m) <==> frags == Split(id, k, data, m)
    decreases |data|
  {
    SplitIsFragmentation(id, k, data, m);
    if IsFragmentation(frags, id, k, data, m) {
      if |frags| == 1 {
        OneFragment(frags, id, k, data, m);
      } else {
        var k1 := k + 1;
        LaterFragments(frags, id, k, k1, data, m);
        SplitIsTheFragmentation(frags[1..], id, k1, data[m..], m);
      }
    }
  }

  lemma SplitIsFragmentation(id: uint64, k: nat, data: seq<byte>, m: nat)
    requires m >= 1 && k + |data| <= MAX_UINT64
    ensures IsFragmentation(Split(id, k, data, m), id, k, data, m)
  {
    SplitConcat(id, k, data, m);
    SplitLastNotEmpty(id, k, data, m);
  }

  lemma OneFragment(frags: seq<Fragment>, id: uint64, k: nat, data: seq<byte>, m: nat)
    requires m >= 1 && k + |data| <= MAX_UINT64 && |frags| == 1 && IsFragmentation(frags, id, k, data, m)
    ensures frags == Split(id, k, data, m)
  {
    assert frags[1..] == [] && frags[0].data + [] == frags[0].data;
    assert Concat(frags) == frags[0].data;
    assert frags == [frags[0]];
  }

  /** Without its first fragment, a fragmentation is one of the rest of the data. */
  lemma LaterFragments(frags: seq<Fragment>, id: uint64, k: nat, k1: nat, data: seq<byte>, m: nat)
    requires m >= 1 && k + |data| <= MAX_UINT64 && k1 == k + 1 && |frags| > 1 && IsFragmentation(frags, id, k, data, m)
    ensures |data| > m && IsFragmentation(frags[1..], id, k1, data[m..], m)
    ensures frags == [Fragment(id, k, k == 0, false, data[..m])] + frags[1..]
  {
    var rest := frags[1..];
    assert forall i :: 0 <= i < |rest| ==> rest[i] == frags[i + 1];
    ConcatLength(rest);
    assert rest[|rest| - 1] == frags[|frags| - 1];
    assert data[..m] == frags[0].data && data[m..] == Concat(rest);
  }

  lemma {:induction false} ConcatLength(frags: seq<Fragment>)
    requires frags != []
    ensures |Concat(frags)| >= |frags[|frags| - 1].data|
  {
    if |frags| > 1 {
      ConcatLength(frags[1..]);
      assert frags[1..][|frags| - 2] == frags[|frags| - 1];
    }
  }

  /** An int that has overflowed at most once. */
  function Wrap64(n: int): int64
    requires -0x1_0000_0000_0000_0000 <= n < 0x1_0000_0000_0000_0000
  {
    if n > MAX_INT64 then n - 0x1_0000_0000_0000_0000
    else if n < MIN_INT64 then n + 0x1_0000_0000_0000_0000
    else n
  }

  /** Go's division, which truncates towards zero. */
  function TruncatedDiv(a: int, b: nat): int
    requires b > 0
  {
    if a >= 0 then a / b else -((-a) / b)
  }

  /** The room for data in a fragment, before it is known to be any; it wraps around for the 21 lowest sizes. */
  function Room(maxSize: int64): (m: int64)
    ensures m > 0 <==> maxSize > HEADER_SIZE || maxSize < MIN_INT64 + HEADER_SIZE
    ensures m == maxSize - HEADER_SIZE || (maxSize < MIN_INT64 + HEADER_SIZE && m > MAX_INT64 - HEADER_SIZE)
  {
    Wrap64(maxSize - HEADER_SIZE)
  }

  function MaxPayload(maxSize: int64, length: nat): nat {
    if Room(maxSize) <= 0 then length else Room(maxSize)
  }

  /** The capacity set aside for the fragments; None is a panic: a division by zero, or a negative capacity. */
  function Capacity(maxSize: int64, length: nat): (c: Option<nat>)
    requires length <= MAX_SLICE
  {
    var m := MaxPayload(maxSize, length);
    if m == 0 then None
    else
      var n := TruncatedDiv(Wrap64(length + m - 1), m);
      if n < 0 then None else Some(if n == 0 then 1 else n)
  }

  /**
   When splitting panics: no room and no data; a size so near the upper limit of an int that the
   sum overflows, though not by so much that the quotient is 0 again; or one of the 21 lowest
   sizes, whose room has wrapped around, and data for which that happens.
   */
  lemma PanicsIff(maxSize: int64, length: nat)
    requires length <= MAX_SLICE
    ensures Capacity(maxSize, length).None? <==>
              || (21 - 0x8000_0000_0000_0000 <= maxSize <= 21 && length == 0)
              || (maxSize > 21 && length + (maxSize - 21) > 0x8000_0000_0000_0000
                  && length + 2 * (maxSize - 21) <= 0x1_0000_0000_0000_0001)
              || (maxSize < 21 - 0x8000_0000_0000_0000 && length >= 22 - (maxSize + 0x8000_0000_0000_0000)
                  && length <= 43 - 2 * (maxSize + 0x8000_0000_0000_0000))
  {
    var m := MaxPayload(maxSize, length);
    if m != 0 {
      QuotientNegative(m, length);
    }
  }

  lemma QuotientNegative(m: nat, length: nat)
    requires 1 <= m <= MAX_INT64 && length <= MAX_SLICE
    ensures TruncatedDiv(Wrap64(length + m - 1), m) < 0
            <==> length + m > MAX_INT64 + 1 && length + 2 * m <= 0x1_0000_0000_0000_0001
  {
    var a := Wrap64(length + m - 1);
    if a < 0 {
      QuotientPositive(-a, m);
    } else {
      assert a / m >= 0;
    }
  }

  /** With the lowest of all sizes there is room for more than any message; some short messages make it panic. */
  lemma LowestSize()
    ensures Capacity(MIN_INT64, 0) == Some(1) && Capacity(MIN_INT64, 30).None? && Capacity(MIN_INT64, 50) == Some(1)
  {
    PanicsIff(MIN_INT64, 0);
    PanicsIff(MIN_INT64, 30);
    PanicsIff(MIN_INT64, 50);
  }

  lemma QuotientPositive(a: nat, b: nat)
    requires b > 0
    ensures a / b >= 1 <==> a >= b
  {
    if a < b {
      assert a / b == 0;
    } else {
      assert a / b >= 1;
    }
  }

  /** One round of the loop takes the next piece off. */
  lemma SplitStep(id: uint64, k: nat, k1: nat, data: seq<byte>, offset: nat, end: nat, m: nat, f: Fragment)
    requires m >= 1 && k <= offset < |data| <= MAX_SLICE && (k == 0 <==> offset == 0) && k1 == k + 1
    requires end == if offset + m > |data| then |data| else offset + m
    requires f == Fragment(id, k, offset == 0, end == |data|, data[offset..end])
    ensures Split(id, k, data[offset..], m)
            == if end < |data| then [f] + Split(id, k1, data[end..], m) else [f]
  {
    var rest := data[offset..];
    if end < |data| {
      assert rest[..m] == f.data && rest[m..] == data[end..];
    } else {
      assert rest == f.data;
    }
  }

  /** The fragments cut so far, and those of the data from offset on, are the whole. */
  ghost predicate ToCut(id: uint64, k: nat, frags: seq<Fragment>, data: seq<byte>, offset: nat, m: nat,
                        whole: seq<Fragment>) {
    && m >= 1 && k <= offset <= |data| <= MAX_SLICE
    && (if offset < |data| then frags + Split(id, k, data[offset..], m) == whole else frags == whole)
  }

  lemma CutOne(id: uint64, k: nat, k1: nat, frags: seq<Fragment>, data: seq<byte>, offset: nat, end: nat, m: nat,
               f: Fragment, whole: seq<Fragment>)
    requires ToCut(id, k, frags, data, offset, m, whole) && offset < |data| && (k == 0 <==> offset == 0) && k1 == k + 1
    requires end == if offset + m > |data| then |data| else offset + m
    requires f == Fragment(id, k, offset == 0, end == |data|, data[offset..end])
    ensures ToCut(id, k1, frags + [f], data, end, m, whole)
  {
    SplitStep(id, k, k1, data, offset, end, m, f);
    if end < |data| {
      var rest := Split(id, k1, data[end..], m);
      assert frags + ([f] + rest) == frags + [f] + rest;
    }
  }

  class Fragmenter {
    var maxSize: int64
    var objectId: uint64

    constructor (size: int64, current: uint64)
      ensures maxSize == size && objectId == current
    {
      maxSize, objectId := size, current;
    }

    method SetObjectId(id: uint64)
      modifies this
      ensures maxSize == old(maxSize) && objectId == id
    {
      objectId := id;
    }

    /** Fragmenter.Fragment: the next object id, which wraps around, and the data split under it. */
    method FragmentData(data: seq<byte>) returns (r: Option<seq<Fragment>>)
      requires |data| <= MAX_SLICE
      modifies this`objectId
      ensures objectId == (old(objectId) + 1) % 0x1_0000_0000_0000_0000
      ensures r == if Capacity(maxSize, |data|).None? then None
                   else Some(Split(objectId, 0, data, MaxPayload(maxSize, |data|)))
    {
      objectId := (objectId + 1) % 0x1_0000_0000_0000_0000;
      var room := Wrap64(maxSize - HEADER_SIZE);
      var m := if room <= 0 then |data| else room;
      if Capacity(maxSize, |data|).None? {
        return None;
      }
      var fragments: seq<Fragment> := [];
      var fragmentId, offset := 0, 0;
      ghost var id, whole := objectId, if m >= 1 then Split(objectId, 0, data, m) else [];
      assert fragments + whole == whole && data[0..] == data;
      while offset < |data|
        invariant objectId == id == (old(objectId) + 1) % 0x1_0000_0000_0000_0000
        invariant 0 <= offset <= |data| && fragmentId <= offset && (offset == 0 <==> fragmentId == 0)
        invariant |fragments| == fragmentId
        invariant data != [] ==> ToCut(id, fragmentId, fragments, data, offset, m, whole)
      {
        var end := offset + m;
        if end > |data| {
          end := |data|;
        }
        var f := Fragment(objectId, fragmentId, offset == 0, end == |data|, data[offset..end]);
        var next := fragmentId + 1;
        CutOne(id, fragmentId, next, fragments, data, offset, end, m, f, whole);
        fragments := fragments + [f];
        offset := end;
        fragmentId := next;
      }
      if |fragments| == 0 {
        fragments := [Fragment(objectId, 0, true, true, [])];
      }
      r := Some(fragments);
    }
  }
}
