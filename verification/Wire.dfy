/** The runspace pool's use of the wire: sending messages, and receiving them from a byte stream. */
module Wire {
  import opened Wrappers
  import opened Bytes
  import opened Sequences
  import opened Guid
  import opened Fragments
  import opened Assembly
  import Messages

  const MAX_BLOB := 10 * 1024 * 1024

  datatype Error =
    | EndOfStream
    | BlobTooLong
    | IncompleteFragment
    | DecodeFails(why: Decoding)
    | Assemble(outcome: Outcome)
    | ShortMessage

  // ---------- the transport ----------

  /** A reader that hands out its bytes in pieces of its own choosing; a piece may be empty. */
  class Transport {
    var rest: seq<byte>
    var cuts: seq<nat>

    constructor (stream: seq<byte>, pieces: seq<nat>)
      ensures rest == stream && cuts == pieces
    {
      rest, cuts := stream, pieces;
    }

    /** One Read with room for n bytes: some bytes, or nothing at the end of the stream. */
    method Read(n: nat) returns (got: Option<seq<byte>>)
      modifies this
      ensures got.None? <==> old(rest) == []
      ensures got.None? ==> rest == []
      ensures got.Some? ==> old(rest) == got.value + rest && |got.value| <= n
      ensures got.Some? ==> |cuts| < |old(cuts)| || (cuts == old(cuts) && (n > 0 ==> got.value != []))
    {
      if rest == [] {
        return None;
      }
      var k := if n <= |rest| then n else |rest|;
      if cuts != [] {
        k := if cuts[0] < k then cuts[0] else k;
        cuts := cuts[1..];
      }
      got := Some(rest[..k]);
      rest := rest[k..];
    }

    /** io.ReadFull: exactly n bytes,
        or an error with the stream used up. However the bytes come makes no difference. */
    method ReadFull(n: nat) returns (r: Option<seq<byte>>)
      modifies this
      ensures if |old(rest)| >= n then r == Some(old(rest)[..n]) && rest == old(rest)[n..]
              else r.None? && rest == []
    {
      var buf: seq<byte> := [];
      while |buf| < n
        invariant |buf| <= n && old(rest) == buf + rest
        decreases |cuts|, n - |buf|
      {
        var got := Read(n - |buf|);
        if got.None? {
          return None;
        }
        buf := buf + got.value;
      }
      assert old(rest)[..n] == buf && old(rest)[n..] == rest;
      r := Some(buf);
    }
  }

  // ---------- receiving ----------

  datatype Received = Received(r: Result<Messages.Message, Error>, rest: seq<byte>, pending: Pending)

  /** receiveMessage, on the bytes still to come: fragments are added until one completes a message. */
  function Receive(s: seq<byte>, p: Pending, maxPending: int64, maxFragments: int64): (x: Received)
    ensures |x.rest| <= |s|
    decreases |s|
  {
    if |s| < Fragments.HEADER_SIZE then Received(Err(EndOfStream), [], p)
    else
      var blob := BlobLength(s);
      if blob > MAX_BLOB then Received(Err(BlobTooLong), s[Fragments.HEADER_SIZE..], p)
      else if |s| < Fragments.HEADER_SIZE + blob then Received(Err(EndOfStream), [], p)
      else
        var rest := s[Fragments.HEADER_SIZE + blob..];
        var d := Fragments.Decode(s[..Fragments.HEADER_SIZE + blob]);
        if !d.Decoded? then Received(Err(DecodeFails(d)), rest, p)
        else
          var (r, p') := AddTo(p, maxPending, maxFragments, d.fragment);
          match r
          case Incomplete => Receive(rest, p', maxPending, maxFragments)
          case Complete(data) =>
            (match Messages.Decode(data)
             case Some(m) => Received(Ok(m), rest, p')
             case None => Received(Err(ShortMessage), rest, p'))
          case _ => Received(Err(Assemble(r)), rest, p')
  }

  /** The bytes a header announces, with it, decode to the fragment that stands there, or panic. */
  lemma HeaderDecodes(s: seq<byte>)
    requires IsWhole(s)
    ensures Fragments.Decode(s[..Fragments.HEADER_SIZE + BlobLength(s)])
            == if BlobLength(s) <= MAX_DATA then Decoded(Whole(s)) else SlicePanic
  {
    var t := s[..Fragments.HEADER_SIZE + BlobLength(s)];
    assert t[17..21] == s[17..21] && t[0..8] == s[0..8] && t[8..16] == s[8..16];
    assert Whole(t) == Whole(s);
    DecodeOutcomes(t);
  }

  /** One round of the loop, where the whole fragment is there and not too long. */
  lemma ReceiveHead(s: seq<byte>, rest: seq<byte>, p: Pending, maxPending: int64, maxFragments: int64)
    requires IsWhole(s) && BlobLength(s) <= MAX_BLOB && rest == s[Fragments.HEADER_SIZE + BlobLength(s)..]
    ensures var (r, p') := AddTo(p, maxPending, maxFragments, Whole(s));
            Receive(s, p, maxPending, maxFragments)
            == match r
               case Incomplete => Receive(rest, p', maxPending, maxFragments)
               case Complete(data) =>
                 if |data| >= Messages.HEADER_SIZE then Received(Ok(Messages.Decode(data).value), rest, p')
                 else Received(Err(ShortMessage), rest, p')
               case _ => Received(Err(Assemble(r)), rest, p')
  {
    HeaderDecodes(s);
  }

  /** A fragment that announces more than 10485760 bytes is refused before they are read, and no shorter one is. */
  lemma TooLongIff(s: seq<byte>, p: Pending, maxPending: int64, maxFragments: int64)
    requires |s| >= 21
    ensures BlobLength(s) > 10_485_760 ==>
              Receive(s, p, maxPending, maxFragments) == Received(Err(BlobTooLong), s[21..], p)
    ensures BlobLength(s) <= 10_485_760 && |s| < 21 + BlobLength(s) ==>
              Receive(s, p, maxPending, maxFragments) == Received(Err(EndOfStream), [], p)
    ensures BlobLength(s) <= 10_485_760 && |s| >= 21 + BlobLength(s) ==>
              AddTo(p, maxPending, maxFragments, Whole(s)).0 == Incomplete ==>
                Receive(s, p, maxPending, maxFragments)
                == Receive(s[21 + BlobLength(s)..], AddTo(p, maxPending, maxFragments, Whole(s)).1, maxPending,
                           maxFragments)
  {
    if BlobLength(s) <= 10_485_760 && |s| >= 21 + BlobLength(s) {
      ReceiveHead(s, s[21 + BlobLength(s)..], p, maxPending, maxFragments);
    }
  }

  /** The limit on a fragment's length keeps the receive loop from ever reaching the panic. */
  lemma {:induction false} ReceiveNeverPanics(s: seq<byte>, p: Pending, maxPending: int64, maxFragments: int64)
    ensures var r := Receive(s, p, maxPending, maxFragments).r; r.Err? ==> !r.error.DecodeFails?
    decreases |s|
  {
    if IsWhole(s) && BlobLength(s) <= MAX_BLOB {
      var rest := s[Fragments.HEADER_SIZE + BlobLength(s)..];
      ReceiveHead(s, rest, p, maxPending, maxFragments);
      ReceiveNeverPanics(rest, AddTo(p, maxPending, maxFragments, Whole(s)).1, maxPending, maxFragments);
    }
  }

  class Receiver {
    const transport: Transport
    const assembler: Assembler

    constructor (t: Transport, a: Assembler)
      ensures transport == t && assembler == a
    {
      transport, assembler := t, a;
    }

    method ReceiveMessage() returns (r: Result<Messages.Message, Error>)
      modifies transport, assembler
      ensures Received(r, transport.rest, assembler.pending)
              == Receive(old(transport.rest), old(assembler.pending), assembler.maxPending, assembler.maxFragments)
    {
      ghost var whole := Receive(transport.rest, assembler.pending, assembler.maxPending, assembler.maxFragments);
      while true
        invariant Receive(transport.rest, assembler.pending, assembler.maxPending, assembler.maxFragments) == whole
        decreases |transport.rest|
      {
        ghost var s := transport.rest;
        var header := transport.ReadFull(Fragments.HEADER_SIZE);
        if header.None? {
          return Err(EndOfStream);
        }
        var blob := BlobLength(header.value);
        assert header.value[17..21] == s[17..21];
        if blob > MAX_BLOB {
          return Err(BlobTooLong);
        }
        var fragData := header.value;
        if blob > 0 {
          var data := transport.ReadFull(blob);
          if data.None? {
            return Err(EndOfStream);
          }
          fragData := fragData + data.value;
        }
        assert fragData == s[..Fragments.HEADER_SIZE + blob] && transport.rest == s[Fragments.HEADER_SIZE + blob..];
        HeaderDecodes(s);
        var f := Fragments.Decode(fragData);
        var added := assembler.Add(f.fragment);
        match added {
          case Incomplete =>
          case Complete(data) =>
            var m := Messages.Decode(data);
            return if m.Some? then Ok(m.value) else Err(ShortMessage);
          case _ => return Err(Assemble(added));
        }
      }
    }
  }

  // ---------- sending ----------

  /** A Write, or a SendPipelineData where the transport keeps pipelines apart. */
  datatype Sent = Session(bytes: seq<byte>) | ForPipeline(pipeline: Guid, bytes: seq<byte>)

  function SentBytes(sent: seq<Sent>): seq<byte> {
    if sent == [] then [] else SentBytes(sent[..|sent| - 1]) + sent[|sent| - 1].bytes
  }

  /** The fragments one after another. */
  function FragmentBytes(frags: seq<Fragment>): seq<byte> {
    if frags == [] then [] else Encoded(frags[0]) + FragmentBytes(frags[1..])
  }

  lemma {:induction false} FragmentBytesSnoc(frags: seq<Fragment>, f: Fragment)
    ensures FragmentBytes(frags + [f]) == FragmentBytes(frags) + Encoded(f)
  {
    if frags == [] {
      assert [f][1..] == [] && [] + [f] == [f];
    } else {
      assert (frags + [f])[1..] == frags[1..] + [f];
      FragmentBytesSnoc(frags[1..], f);
    }
  }

  /** The fragments prepareMessage makes of a message under an object id. */
  function Prepared(m: Messages.Message, id: uint64, maxSize: int64): seq<Fragment>
    requires |m.data| + Messages.HEADER_SIZE <= MAX_SLICE
  {
    Split(id, 0, Messages.Encoded(m), MaxPayload(maxSize, |Messages.Encoded(m)|))
  }

  function NextId(id: uint64): uint64 {
    (id + 1) % 0x1_0000_0000_0000_0000
  }

  /** w carries f, over the pipeline's own channel where the transport has one. */
  predicate Carries(w: Sent, f: Fragment, pipeline: Guid, multiplexed: bool) {
    && |f.data| <= MAX_UINT32 && w.bytes == Encoded(f)
    && if multiplexed && pipeline != NULL_GUID then w.ForPipeline? && w.pipeline == pipeline else w.Session?
  }

  /** After start, the first n fragments have been written, each in a write of its own. */
  predicate Wrote(start: seq<Sent>, sent: seq<Sent>, frags: seq<Fragment>, n: nat, pipeline: Guid, multiplexed: bool) {
    && start <= sent && n <= |frags| && |sent| == |start| + n
    && forall i :: 0 <= i < n ==> Carries(sent[|start| + i], frags[i], pipeline, multiplexed)
  }

  lemma WroteMore(start: seq<Sent>, sent: seq<Sent>, w: Sent, frags: seq<Fragment>, n: nat, n1: nat, pipeline: Guid,
                  multiplexed: bool)
    requires Wrote(start, sent, frags, n, pipeline, multiplexed) && n < |frags| && n1 == n + 1
    requires Carries(w, frags[n], pipeline, multiplexed)
    ensures Wrote(start, sent + [w], frags, n1, pipeline, multiplexed)
  {
  }

  lemma {:induction false} WroteBytes(start: seq<Sent>, sent: seq<Sent>, frags: seq<Fragment>, n: nat, pipeline: Guid,
                                      multiplexed: bool)
    requires Wrote(start, sent, frags, n, pipeline, multiplexed)
    ensures SentBytes(sent) == SentBytes(start) + FragmentBytes(frags[..n])
    decreases n
  {
    if n == 0 {
      assert sent == start && SentBytes(start) + [] == SentBytes(start);
    } else {
      var before, k := sent[..|sent| - 1], n - 1;
      WroteBytes(start, before, frags, k, pipeline, multiplexed);
      assert frags[..n] == frags[..k] + [frags[k]];
      FragmentBytesSnoc(frags[..k], frags[k]);
      assert sent[|sent| - 1] == sent[|start| + k];
    }
  }

  class Sender {
    const fragmenter: Fragmenter
    const multiplexed: bool
    var sent: seq<Sent>

    constructor (f: Fragmenter, mux: bool)
      ensures fragmenter == f && multiplexed == mux && sent == []
    {
      fragmenter, multiplexed, sent := f, mux, [];
    }

    /** sendMessage: the message's bytes, cut up, each piece in a fragment and in a write of its own. */
    method SendMessage(m: Messages.Message) returns (ok: bool)
      requires |m.data| + Messages.HEADER_SIZE <= MAX_SLICE
      requires Capacity(fragmenter.maxSize, |m.data| + Messages.HEADER_SIZE).Some?
      modifies this, fragmenter
      ensures fragmenter.maxSize == old(fragmenter.maxSize) && fragmenter.objectId == NextId(old(fragmenter.objectId))
      ensures var frags, n := Prepared(m, fragmenter.objectId, fragmenter.maxSize), |sent| - |old(sent)|;
              && n >= 0 && Wrote(old(sent), sent, frags, n, m.pipelineId, multiplexed)
              && (ok <==> forall f :: f in frags ==> |f.data| <= MAX_UINT32)
              && (if ok then n == |frags| else n < |frags| && |frags[n].data| > MAX_UINT32)
              && (ok ==> SentBytes(sent) == SentBytes(old(sent)) + FragmentBytes(frags))
    {
      var encoded := Messages.Encode(m);
      var prepared := fragmenter.FragmentData(encoded);
      var frags := prepared.value;
      ghost var start := sent;
      var i := 0;
      while i < |frags|
        invariant 0 <= i <= |frags| && Wrote(start, sent, frags, i, m.pipelineId, multiplexed)
        invariant fragmenter.maxSize == old(fragmenter.maxSize)
        invariant fragmenter.objectId == NextId(old(fragmenter.objectId))
        invariant forall j :: 0 <= j < i ==> |frags[j].data| <= MAX_UINT32
      {
        var bytes := Fragments.Encode(frags[i]);
        if bytes.None? {
          assert frags[i] in frags;
          return false;
        }
        var write := if m.pipelineId != NULL_GUID && multiplexed then ForPipeline(m.pipelineId, bytes.value)
                     else Session(bytes.value);
        var j := i + 1;
        WroteMore(start, sent, write, frags, i, j, m.pipelineId, multiplexed);
        sent := sent + [write];
        i := j;
      }
      WroteBytes(start, sent, frags, |frags|, m.pipelineId, multiplexed);
      assert frags[..|frags|] == frags;
      ok := true;
    }
  }

  // ---------- what is sent is received ----------

  /** One whole fragment at the front of the stream. */
  lemma ReceiveOne(f: Fragment, rest: seq<byte>, p: Pending, maxPending: int64, maxFragments: int64)
    requires |f.data| <= MAX_BLOB
    ensures var (r, p') := AddTo(p, maxPending, maxFragments, f);
            Receive(Encoded(f) + rest, p, maxPending, maxFragments)
            == match r
               case Incomplete => Receive(rest, p', maxPending, maxFragments)
               case Complete(data) =>
                 if |data| >= Messages.HEADER_SIZE then Received(Ok(Messages.Decode(data).value), rest, p')
                 else Received(Err(ShortMessage), rest, p')
               case _ => Received(Err(Assemble(r)), rest, p')
  {
    EncodedFields(f, rest);
    WholeEncoded(f, rest);
    ReceiveHead(Encoded(f) + rest, rest, p, maxPending, maxFragments);
  }

  lemma ReceiveEarlier(f: Fragment, rest: seq<byte>, p: Pending, maxPending: int64, maxFragments: int64, p': Pending)
    requires |f.data| <= MAX_BLOB && AddTo(p, maxPending, maxFragments, f) == (Incomplete, p')
    ensures Receive(Encoded(f) + rest, p, maxPending, maxFragments) == Receive(rest, p', maxPending, maxFragments)
  {
    ReceiveOne(f, rest, p, maxPending, maxFragments);
  }

  lemma ReceiveLast(f: Fragment, rest: seq<byte>, p: Pending, maxPending: int64, maxFragments: int64, p': Pending,
                    m: Messages.Message)
    requires |f.data| <= MAX_BLOB && AddTo(p, maxPending, maxFragments, f) == (Complete(Messages.Encoded(m)), p')
    ensures Receive(Encoded(f) + rest, p, maxPending, maxFragments) == Received(Ok(m), rest, p')
  {
    ReceiveOne(f, rest, p, maxPending, maxFragments);
    Messages.DecodeEncoded(m);
  }

  /** A message that can be sent: its pieces are short enough, and not too many. */
  ghost predicate Fits(m: Messages.Message, maxSize: int64, maxFragments: int64) {
    && |m.data| + Messages.HEADER_SIZE <= MAX_SLICE
    && Capacity(maxSize, |m.data| + Messages.HEADER_SIZE).Some?
    && |Prepared(m, 0, maxSize)| <= maxFragments
    && forall f :: f in Prepared(m, 0, maxSize) ==> |f.data| <= MAX_BLOB
  }

  /** Only the ids of its fragments depend on the object id of a message. */
  lemma {:induction false} SplitShape(id: uint64, id': uint64, k: nat, data: seq<byte>, m: nat)
    requires m >= 1 && k + |data| <= MAX_UINT64
    ensures var a, b := Split(id, k, data, m), Split(id', k, data, m);
            |a| == |b| && forall i :: 0 <= i < |a| ==> a[i].data == b[i].data
    decreases |data|
  {
    if |data| > m {
      var k1, rest := k + 1, data[m..];
      SplitShape(id, id', k1, rest, m);
      var a, b := Split(id, k1, rest, m), Split(id', k1, rest, m);
      assert Split(id, k, data, m)[1..] == a && Split(id', k, data, m)[1..] == b;
    }
  }

  lemma FitsAnyId(m: Messages.Message, id: uint64, maxSize: int64, maxFragments: int64)
    requires Fits(m, maxSize, maxFragments)
    ensures var frags := Prepared(m, id, maxSize);
            |frags| <= maxFragments && forall i :: 0 <= i < |frags| ==> |frags[i].data| <= MAX_BLOB
  {
    var data := Messages.Encoded(m);
    SplitShape(0, id, 0, data, MaxPayload(maxSize, |data|));
    var frags, other := Prepared(m, id, maxSize), Prepared(m, 0, maxSize);
    forall i | 0 <= i < |frags| ensures |frags[i].data| <= MAX_BLOB {
      assert other[i] in other;
    }
  }

  ghost predicate ShortPieces(frags: seq<Fragment>) {
    forall i :: 0 <= i < |frags| ==> |frags[i].data| <= MAX_BLOB
  }

  /** p is base with the first k fragments of a message added. */
  ghost predicate FirstAdded(p: Pending, base: Pending, id: uint64, msg: Assembly.Message, k: nat)
    requires Sendable(msg) && k <= MAX_UINT64
  {
    if k == 0 then p == base else id in p && p == base[id := p[id]] && EntryTracks(p[id], Cut(id, msg), Range(k))
  }

  /** At most n pieces of m bytes for at most n * m bytes. */
  lemma {:induction false} SplitAtMost(id: uint64, k: nat, data: seq<byte>, m: nat, n: nat)
    requires m >= 1 && k + |data| <= MAX_UINT64 && n >= 1 && |data| <= n * m
    ensures |Split(id, k, data, m)| <= n
    decreases |data|
  {
    if |data| > m {
      var n1 := n - 1;
      assert n * m == n1 * m + m;
      assert n1 == 0 ==> n1 * m == 0;
      SplitAtMost(id, k + 1, data[m..], m, n1);
    }
  }

  /** Every message whose bytes fit into as many fragments as are allowed can be sent. */
  lemma SmallMessagesFit(m: Messages.Message, maxSize: int64, maxFragments: int64)
    requires 21 < maxSize <= 10_485_760 + 21 && maxFragments >= 1
    requires |m.data| + Messages.HEADER_SIZE <= MAX_SLICE
    requires |m.data| + 40 <= maxFragments * (maxSize - 21)
    ensures Fits(m, maxSize, maxFragments)
  {
    PanicsIff(maxSize, |m.data| + Messages.HEADER_SIZE);
    var piece := maxSize - Fragments.HEADER_SIZE;
    SplitAtMost(0, 0, Messages.Encoded(m), piece, maxFragments);
    forall f | f in Prepared(m, 0, maxSize) ensures |f.data| <= MAX_BLOB {
      var i :| 0 <= i < |Prepared(m, 0, maxSize)| && Prepared(m, 0, maxSize)[i] == f;
    }
  }

  /** The fragments of a message from the k-th on, with those before it pending. */
  lemma {:induction false} ReceiveRest(m: Messages.Message, id: uint64, msg: Assembly.Message, k: nat, rest: seq<byte>,
                                       base: Pending, p: Pending, maxPending: int64, maxFragments: int64)
    requires Sendable(msg) && msg.data == Messages.Encoded(m)
    requires k < |Cut(id, msg)| <= maxFragments && |base| < maxPending && id !in base
    requires ShortPieces(Cut(id, msg)) && FirstAdded(p, base, id, msg, k)
    ensures Receive(FragmentBytes(Cut(id, msg)[k..]) + rest, p, maxPending, maxFragments) == Received(Ok(m), rest, base)
    decreases |Cut(id, msg)| - k
  {
    var frags := Cut(id, msg);
    var f, k1 := frags[k], k + 1;
    var later := FragmentBytes(frags[k1..]) + rest;
    FragmentBytesHead(frags, k, k1, rest);
    var pm' := AddNext(p, base, f, maxPending, maxFragments, id, msg, k, k1);
    if k1 == |frags| {
      assert frags[k1..] == [] && later == rest;
      ReceiveLast(f, rest, p, maxPending, maxFragments, base, m);
    } else {
      ReceiveEarlier(f, later, p, maxPending, maxFragments, base[id := pm']);
      ReceiveRest(m, id, msg, k1, rest, base, base[id := pm'], maxPending, maxFragments);
    }
  }

  lemma FragmentBytesHead(frags: seq<Fragment>, k: nat, k1: nat, rest: seq<byte>)
    requires k < |frags| && k1 == k + 1
    ensures FragmentBytes(frags[k..]) + rest == Encoded(frags[k]) + (FragmentBytes(frags[k1..]) + rest)
  {
    assert frags[k..][1..] == frags[k1..];
  }

  /** Adding the k-th fragment after those before it. */
  lemma AddNext(p: Pending, base: Pending, f: Fragment, maxPending: int64, maxFragments: int64, id: uint64,
                msg: Assembly.Message, k: nat, k1: nat) returns (pm': PendingMessage)
    requires Sendable(msg) && k < |Cut(id, msg)| <= maxFragments && k1 == k + 1 && f == Cut(id, msg)[k]
    requires |base| < maxPending && id !in base
    requires FirstAdded(p, base, id, msg, k)
    ensures EntryTracks(pm', Cut(id, msg), Range(k1)) && FirstAdded(base[id := pm'], base, id, msg, k1)
    ensures AddTo(p, maxPending, maxFragments, f)
            == if k1 == |Cut(id, msg)| then (Complete(msg.data), base) else (Incomplete, base[id := pm'])
  {
    var pm := if id in p then p[id] else FRESH;
    NextFragment(p, f, maxPending, maxFragments, pm, id, msg, k, k1);
    pm' := StoreAndTrack(p, f, maxPending, maxFragments, pm, id, msg, Range(k), Range(k1));
    PutAndTake(p, base, id, pm');
    var n := |Cut(id, msg)|;
    assert (forall j :: 0 <= j < n ==> j in Range(k1)) <==> k1 == n by {
      if k1 < n {
        assert k1 !in Range(k1);
      }
    }
  }

  lemma PutAndTake(p: Pending, base: Pending, id: uint64, pm: PendingMessage)
    requires id !in base && (p == base || (id in p && p == base[id := p[id]]))
    ensures p - {id} == base && p[id := pm] == base[id := pm]
  {
    if p == base {
      assert p - {id} == base;
    } else {
      var pm0 := p[id];
      assert base[id := pm0] - {id} == base;
      assert base[id := pm0][id := pm] == base[id := pm];
    }
  }

  lemma NextFragment(p: Pending, f: Fragment, maxPending: int64, maxFragments: int64, pm: PendingMessage, id: uint64,
                     msg: Assembly.Message, k: nat, k1: nat)
    requires Sendable(msg) && k < |Cut(id, msg)| <= maxFragments && k1 == k + 1 && f == Cut(id, msg)[k]
    requires pm == (if id in p then p[id] else FRESH)
    requires if k == 0 then id !in p else id in p && EntryTracks(p[id], Cut(id, msg), Range(k))
    ensures EntryTracks(pm, Cut(id, msg), Range(k)) && pm.received < maxFragments && f.objectId == id
    ensures f in Cut(id, msg) && f.fragmentId !in Range(k) && Range(k1) == Range(k) + {f.fragmentId}
  {
    assert Range(0) == {};
  }

  /** One message, in front of whatever follows it, leaves the assembler as it was. */
  lemma ReceiveSent(m: Messages.Message, id: uint64, maxSize: int64, rest: seq<byte>, p: Pending, maxPending: int64,
                    maxFragments: int64)
    requires Fits(m, maxSize, maxFragments) && id !in p && |p| < maxPending
    ensures Receive(FragmentBytes(Prepared(m, id, maxSize)) + rest, p, maxPending, maxFragments) == Received(Ok(m),
                                                                                                             rest, p)
  {
    var data := Messages.Encoded(m);
    var msg := Assembly.Message(data, MaxPayload(maxSize, |data|));
    FitsAnyId(m, id, maxSize, maxFragments);
    assert Cut(id, msg) == Prepared(m, id, maxSize) == Prepared(m, id, maxSize)[0..];
    assert ShortPieces(Cut(id, msg));
    ReceiveRest(m, id, msg, 0, rest, p, p, maxPending, maxFragments);
  }

  /** Messages that are Go slices at all. */
  predicate Small(msgs: seq<Messages.Message>) {
    forall i :: 0 <= i < |msgs| ==> |msgs[i].data| + Messages.HEADER_SIZE <= MAX_SLICE
  }

  ghost predicate AllFit(msgs: seq<Messages.Message>, maxSize: int64, maxFragments: int64) {
    forall i :: 0 <= i < |msgs| ==> Fits(msgs[i], maxSize, maxFragments)
  }

  /** What a sender that used the id last writes for a list of messages. */
  function Stream(msgs: seq<Messages.Message>, id: uint64, maxSize: int64): seq<byte>
    requires Small(msgs)
  {
    if msgs == [] then [] else FragmentBytes(Prepared(msgs[0], NextId(id), maxSize)) + Stream(msgs[1..], NextId(id),
                                                                                              maxSize)
  }

  /** As many calls of the receive loop as there are messages, unless one fails. */
  function ReceiveMany(n: nat, s: seq<byte>, p: Pending, maxPending: int64,
                       maxFragments: int64): (Result<seq<Messages.Message>, Error>, seq<byte>, Pending) {
    if n == 0 then (Ok([]), s, p)
    else
      var x := Receive(s, p, maxPending, maxFragments);
      if x.r.Err? then (Err(x.r.error), x.rest, x.pending)
      else
        var (ms, s', p') := ReceiveMany(n - 1, x.rest, x.pending, maxPending, maxFragments);
        (if ms.Ok? then Ok([x.r.value] + ms.value) else ms, s', p')
  }

  lemma HeadAndRest<T>(s: seq<T>, x: T, rest: seq<T>)
    requires s != [] && x == s[0] && rest == s[1..]
    ensures [x] + rest == s
  {
  }

  lemma OneMore(n: nat, n1: nat, s: seq<byte>, p: Pending, maxPending: int64, maxFragments: int64)
    requires n1 == n + 1 && Receive(s, p, maxPending, maxFragments).r.Ok?
    ensures var x := Receive(s, p, maxPending, maxFragments);
            var (ms, s', p') := ReceiveMany(n, x.rest, x.pending, maxPending, maxFragments);
            ReceiveMany(n1, s, p, maxPending, maxFragments) == (if ms.Ok? then Ok([x.r.value] + ms.value) else ms, s',
                                                                p')
  {
  }

  /** Every list of messages is received as it was sent, in order, and nothing stays pending. */
  lemma {:induction false} StreamRoundTrip(msgs: seq<Messages.Message>, id: uint64, maxSize: int64, rest: seq<byte>,
                                           maxPending: int64, maxFragments: int64)
    requires maxPending >= 1 && Small(msgs) && AllFit(msgs, maxSize, maxFragments)
    ensures ReceiveMany(|msgs|, Stream(msgs, id, maxSize) + rest, map[], maxPending, maxFragments) == (Ok(msgs), rest,
                                                                                                       map[])
    decreases |msgs|
  {
    if msgs == [] {
      assert [] + rest == rest;
    } else {
      var id1, later := NextId(id), msgs[1..];
      var front, more := FragmentBytes(Prepared(msgs[0], id1, maxSize)), Stream(later, id1, maxSize);
      Regroup2(front, more, rest);
      ReceiveSent(msgs[0], id1, maxSize, more + rest, map[], maxPending, maxFragments);
      StreamRoundTrip(later, id1, maxSize, rest, maxPending, maxFragments);
      OneMore(|later|, |msgs|, front + (more + rest), map[], maxPending, maxFragments);
      HeadAndRest(msgs, msgs[0], later);
    }
  }

  // ---------- the answer to a connect request ----------

  datatype Processed = Processed(err: Option<Error>, pending: Pending, done: seq<seq<byte>>)

  /**
   ProcessConnectResponse: as the receive loop, but on a buffer, with no limit on a fragment's
   length, so that decoding one may panic, and with a trailing piece too short for a header silently
   ignored. Messages that cannot be decoded are passed over; `done` lists the bytes of all that were
   completed.
   */
  function Process(s: seq<byte>, p: Pending, maxPending: int64, maxFragments: int64): Processed
    decreases |s|
  {
    if |s| < Fragments.HEADER_SIZE then Processed(None, p, [])
    else
      var n := Fragments.HEADER_SIZE + BlobLength(s);
      if |s| < n then Processed(Some(IncompleteFragment), p, [])
      else
        var d := Fragments.Decode(s[..n]);
        if !d.Decoded? then Processed(Some(DecodeFails(d)), p, [])
        else
          var (r, p') := AddTo(p, maxPending, maxFragments, d.fragment);
          match r
          case Incomplete => Process(s[n..], p', maxPending, maxFragments)
          case Complete(data) =>
            var x := Process(s[n..], p', maxPending, maxFragments);
            x.(done := [data] + x.done)
          case _ => Processed(Some(Assemble(r)), p', [])
  }

  /** Positions counted from an offset. */
  lemma Within(data: seq<byte>, offset: nat, i: nat, j: nat, a: nat, b: nat)
    requires i <= j && a == offset + i && b == offset + j && b <= |data|
    ensures data[a..b] == data[offset..][i..j] && data[b..] == data[offset..][j..]
    ensures data[offset..][0..j] == data[offset..][..j]
  {
  }

  /** What is completed and how it ends, from the outcome of one fragment and the rest. */
  ghost predicate OneDone(x: Processed, r: Outcome, rest: Processed, p': Pending) {
    match r
    case Incomplete => x == rest
    case Complete(bytes) => x == Processed(rest.err, rest.pending, [bytes] + rest.done)
    case _ => x == Processed(Some(Assemble(r)), p', [])
  }

  /** The fragment at an offset. */
  lemma ProcessOne(data: seq<byte>, offset: nat, n: nat, end: nat, p: Pending, maxPending: int64, maxFragments: int64)
    requires end == offset + n <= |data| && Fragments.HEADER_SIZE <= n
    requires n == Fragments.HEADER_SIZE + BlobLength(data[offset..])
    ensures var d, x := Fragments.Decode(data[offset..end]), Process(data[offset..], p, maxPending, maxFragments);
            if !d.Decoded? then x == Processed(Some(DecodeFails(d)), p, [])
            else
              var (r, p') := AddTo(p, maxPending, maxFragments, d.fragment);
              OneDone(x, r, Process(data[end..], p', maxPending, maxFragments), p')
  {
    Within(data, offset, 0, n, offset, end);
  }

  lemma MoreDone(whole: Processed, done: seq<seq<byte>>, x: Processed, r: Outcome, rest: Processed, p': Pending)
    requires Continues(whole, done, x) && OneDone(x, r, rest, p')
    ensures match r
            case Incomplete => Continues(whole, done, rest)
            case Complete(bytes) => Continues(whole, done + [bytes], rest)
            case _ => whole == Processed(Some(Assemble(r)), p', done)
  {
    if r.Complete? {
      assert done + ([r.data] + rest.done) == done + [r.data] + rest.done;
    }
  }

  method ProcessConnectResponse(assembler: Assembler, data: seq<byte>)
    returns (err: Option<Error>, ghost done: seq<seq<byte>>)
    modifies assembler
    ensures Processed(err, assembler.pending, done)
            == Process(data, old(assembler.pending), assembler.maxPending, assembler.maxFragments)
  {
    done := [];
    var offset := 0;
    ghost var whole := Process(data, assembler.pending, assembler.maxPending, assembler.maxFragments);
    assert data[0..] == data;
    while offset < |data|
      invariant 0 <= offset <= |data|
      invariant Continues(whole, done,
                          Process(data[offset..], assembler.pending, assembler.maxPending, assembler.maxFragments))
      decreases |data| - offset
    {
      ghost var s := data[offset..];
      if offset + Fragments.HEADER_SIZE > |data| {
        return None, done;
      }
      var length, lengthEnd := offset + 17, offset + 21;
      Within(data, offset, 17, 21, length, lengthEnd);
      var blob := FromBigEndian(data[length..lengthEnd]);
      var n := Fragments.HEADER_SIZE + blob;
      var end := offset + n;
      if end > |data| {
        return Some(IncompleteFragment), done;
      }
      ghost var p := assembler.pending;
      ProcessOne(data, offset, n, end, p, assembler.maxPending, assembler.maxFragments);
      var f := Fragments.Decode(data[offset..end]);
      if !f.Decoded? {
        return Some(DecodeFails(f)), done;
      }
      var added := assembler.Add(f.fragment);
      MoreDone(whole, done, Process(s, p, assembler.maxPending, assembler.maxFragments), added,
               Process(data[end..], assembler.pending, assembler.maxPending, assembler.maxFragments),
                   assembler.pending);
      offset := end;
      match added {
        case Incomplete =>
        case Complete(bytes) => done := done + [bytes];
        case _ => return Some(Assemble(added)), done;
      }
    }
    err := None;
  }

  /** done, followed by what rest completes, is what whole completes, and they end alike. */
  ghost predicate Continues(whole: Processed, done: seq<seq<byte>>, rest: Processed) {
    whole.err == rest.err && whole.pending == rest.pending && whole.done == done + rest.done
  }

  /** Adding fragments one after another, up to the first that is refused. */
  function Drive(frags: seq<Fragment>, p: Pending, maxPending: int64, maxFragments: int64): Processed {
    if frags == [] then Processed(None, p, [])
    else
      var (r, p') := AddTo(p, maxPending, maxFragments, frags[0]);
      match r
      case Incomplete => Drive(frags[1..], p', maxPending, maxFragments)
      case Complete(data) =>
        var x := Drive(frags[1..], p', maxPending, maxFragments);
        x.(done := [data] + x.done)
      case _ => Processed(Some(Assemble(r)), p', [])
  }

  // ---------- any bytes ----------

  /** The fragments that stand whole in s one after another, by the lengths they announce. */
  function Pieces(s: seq<byte>): seq<Fragment>
    decreases |s|
  {
    if !IsWhole(s) then [] else [Whole(s)] + Pieces(s[Fragments.HEADER_SIZE + BlobLength(s)..])
  }

  /** What follows them: less than the next fragment. */
  function Tail(s: seq<byte>): seq<byte>
    decreases |s|
  {
    if !IsWhole(s) then s else Tail(s[Fragments.HEADER_SIZE + BlobLength(s)..])
  }

  /** The fragments in front of the first that Decode panics on. */
  function Decodable(frags: seq<Fragment>): seq<Fragment> {
    if frags == [] || |frags[0].data| > MAX_DATA then [] else [frags[0]] + Decodable(frags[1..])
  }

  lemma {:induction false} DecodableIsPrefix(frags: seq<Fragment>)
    ensures var n := |Decodable(frags)|;
            && n <= |frags| && Decodable(frags) == frags[..n] && (n < |frags| ==> |frags[n].data| > MAX_DATA)
            && forall i :: 0 <= i < n ==> |frags[i].data| <= MAX_DATA
  {
    if frags != [] && |frags[0].data| <= MAX_DATA {
      var rest := frags[1..];
      DecodableIsPrefix(rest);
      var n := |Decodable(rest)|;
      assert frags[..n + 1] == [frags[0]] + rest[..n];
      assert forall i :: 0 < i < n + 1 ==> frags[i] == rest[i - 1];
    }
  }

  /** x, or the error that stops the loop behind the fragments it has added. */
  function StoppedBy(x: Processed, e: Option<Error>): Processed {
    if x.err.Some? then x else x.(err := e)
  }

  /** What stops the loop when no fragment is refused: a panic, or a piece that is not whole. */
  function Stop(frags: seq<Fragment>, tail: seq<byte>): Option<Error> {
    if |Decodable(frags)| < |frags| then Some(DecodeFails(SlicePanic))
    else if |tail| >= Fragments.HEADER_SIZE then Some(IncompleteFragment)
    else None
  }

  /** On any bytes the loop adds the fragments that stand there, up to the first refusal, panic, or missing piece. */
  lemma {:induction false} ProcessIs(s: seq<byte>, p: Pending, maxPending: int64, maxFragments: int64)
    ensures Process(s, p, maxPending, maxFragments)
            == StoppedBy(Drive(Decodable(Pieces(s)), p, maxPending, maxFragments), Stop(Pieces(s), Tail(s)))
    decreases |s|
  {
    if IsWhole(s) {
      HeaderDecodes(s);
      var f, rest := Whole(s), s[Fragments.HEADER_SIZE + BlobLength(s)..];
      Head(f, Pieces(rest));
      if BlobLength(s) <= MAX_DATA {
        var (r, p') := AddTo(p, maxPending, maxFragments, f);
        ProcessIs(rest, p', maxPending, maxFragments);
        var frags, stop := Decodable(Pieces(rest)), Stop(Pieces(rest), Tail(rest));
        DriveHead(f, frags, stop, p, maxPending, maxFragments);
        assert Stop(Pieces(s), Tail(s)) == stop && Decodable(Pieces(s)) == [f] + frags;
        assert OneDone(Process(s, p, maxPending, maxFragments), r, Process(rest, p', maxPending, maxFragments), p');
      }
    }
  }

  lemma DriveHead(f: Fragment, frags: seq<Fragment>, stop: Option<Error>, p: Pending, maxPending: int64,
                  maxFragments: int64)
    ensures var (r, p') := AddTo(p, maxPending, maxFragments, f);
            OneDone(StoppedBy(Drive([f] + frags, p, maxPending, maxFragments), stop), r,
                    StoppedBy(Drive(frags, p', maxPending, maxFragments), stop), p')
  {
    Head(f, frags);
  }

  lemma {:induction false} DriveNeverPanics(frags: seq<Fragment>, p: Pending, maxPending: int64, maxFragments: int64)
    ensures var x := Drive(frags, p, maxPending, maxFragments); x.err.Some? ==> x.err.value.Assemble?
  {
    if frags != [] {
      DriveNeverPanics(frags[1..], AddTo(p, maxPending, maxFragments, frags[0]).1, maxPending, maxFragments);
    }
  }

  /** The loop panics exactly when a whole fragment announces too much and none before it is refused. */
  lemma ProcessPanicsIff(s: seq<byte>, p: Pending, maxPending: int64, maxFragments: int64)
    ensures Process(s, p, maxPending, maxFragments).err == Some(DecodeFails(SlicePanic))
            <==> && |Decodable(Pieces(s))| < |Pieces(s)|
                 && Drive(Decodable(Pieces(s)), p, maxPending, maxFragments).err.None?
  {
    ProcessIs(s, p, maxPending, maxFragments);
    DriveNeverPanics(Decodable(Pieces(s)), p, maxPending, maxFragments);
  }

  lemma {:induction false} PiecesOf(frags: seq<Fragment>, tail: seq<byte>)
    requires !IsWhole(tail) && forall i :: 0 <= i < |frags| ==> |frags[i].data| <= MAX_UINT32
    ensures Pieces(FragmentBytes(frags) + tail) == frags && Tail(FragmentBytes(frags) + tail) == tail
  {
    if frags == [] {
      assert [] + tail == tail;
    } else {
      var f, rest := frags[0], FragmentBytes(frags[1..]) + tail;
      assert FragmentBytes(frags) + tail == Encoded(f) + rest;
      WholeEncoded(f, rest);
      EncodedFields(f, rest);
      PiecesOf(frags[1..], tail);
    }
  }

  lemma ProcessDrives(frags: seq<Fragment>, tail: seq<byte>, p: Pending, maxPending: int64, maxFragments: int64)
    requires !IsWhole(tail) && forall i :: 0 <= i < |frags| ==> |frags[i].data| <= MAX_UINT32
    ensures Process(FragmentBytes(frags) + tail, p, maxPending, maxFragments)
            == StoppedBy(Drive(Decodable(frags), p, maxPending, maxFragments), Stop(frags, tail))
  {
    PiecesOf(frags, tail);
    ProcessIs(FragmentBytes(frags) + tail, p, maxPending, maxFragments);
  }

  /** One encoded fragment on which it panics. */
  lemma ConnectPanics(maxPending: int64, maxFragments: int64)
    ensures var f := Fragment(1, 0, true, true, Zeros(0xFFFF_FFEB));
            Process(Encoded(f), map[], maxPending, maxFragments).err == Some(DecodeFails(SlicePanic))
  {
    var f := Fragment(1, 0, true, true, Zeros(0xFFFF_FFEB));
    ProcessDrives([f], [], map[], maxPending, maxFragments);
    assert [f][1..] == [];
    assert FragmentBytes([f]) + [] == Encoded(f);
  }

  /** The receive loop called again and again until it fails. */
  function ReceiveAll(s: seq<byte>, p: Pending, maxPending: int64, maxFragments: int64): (seq<Messages.Message>, Error,
                      Pending)
    decreases |s|
  {
    var x := Receive(s, p, maxPending, maxFragments);
    if x.r.Err? then ([], x.r.error, x.pending)
    else
      ReceiveTakes(s, p, maxPending, maxFragments);
      var (ms, e, p') := ReceiveAll(x.rest, x.pending, maxPending, maxFragments);
      ([x.r.value] + ms, e, p')
  }

  lemma {:induction false} ReceiveTakes(s: seq<byte>, p: Pending, maxPending: int64, maxFragments: int64)
    requires Receive(s, p, maxPending, maxFragments).r.Ok?
    ensures |Receive(s, p, maxPending, maxFragments).rest| < |s|
    decreases |s|
  {
    var rest := s[Fragments.HEADER_SIZE + BlobLength(s)..];
    ReceiveHead(s, rest, p, maxPending, maxFragments);
    var (r, p') := AddTo(p, maxPending, maxFragments, Whole(s));
    if r == Incomplete {
      ReceiveTakes(rest, p', maxPending, maxFragments);
    }
  }

  function DecodeAll(done: seq<seq<byte>>): seq<Messages.Message>
    requires forall i :: 0 <= i < |done| ==> |done[i]| >= Messages.HEADER_SIZE
  {
    if done == [] then [] else [Messages.Decode(done[0]).value] + DecodeAll(done[1..])
  }

  lemma {:induction false} ReceiveAllDrives(frags: seq<Fragment>, tail: seq<byte>, p: Pending, maxPending: int64,
                                            maxFragments: int64)
    requires |tail| < Fragments.HEADER_SIZE && forall i :: 0 <= i < |frags| ==> |frags[i].data| <= MAX_BLOB
    requires forall i :: 0 <= i < |Drive(frags, p, maxPending, maxFragments).done| ==>
               |Drive(frags, p, maxPending, maxFragments).done[i]| >= Messages.HEADER_SIZE
    ensures var x := Drive(frags, p, maxPending, maxFragments);
            ReceiveAll(FragmentBytes(frags) + tail, p, maxPending, maxFragments)
            == (DecodeAll(x.done), if x.err.Some? then x.err.value else EndOfStream, x.pending)
    decreases |frags|
  {
    if frags == [] {
      assert [] + tail == tail;
    } else {
      var f, rest := frags[0], FragmentBytes(frags[1..]) + tail;
      assert FragmentBytes(frags) + tail == Encoded(f) + rest;
      ReceiveOne(f, rest, p, maxPending, maxFragments);
      var (r, p') := AddTo(p, maxPending, maxFragments, f);
      var x, y := Drive(frags, p, maxPending, maxFragments), Drive(frags[1..], p', maxPending, maxFragments);
      if r.Complete? {
        assert x.done == [r.data] + y.done && x.done[1..] == y.done;
        assert |x.done[0]| >= Messages.HEADER_SIZE;
        forall i | 0 <= i < |y.done| ensures |y.done[i]| >= Messages.HEADER_SIZE {
          assert y.done[i] == x.done[i + 1];
        }
      }
      if r == Incomplete || r.Complete? {
        ReceiveAllDrives(frags[1..], tail, p', maxPending, maxFragments);
      }
    }
  }

  /**
   On whole fragments, short enough and of messages that can all be decoded, followed by at most a
   piece of a header, the connect response and the stream put the assembler through the same
   states and complete the same messages; where the one ends well the other meets the end of the stream.
   */
  lemma ConnectLikeStream(frags: seq<Fragment>, tail: seq<byte>, p: Pending, maxPending: int64, maxFragments: int64)
    requires |tail| < Fragments.HEADER_SIZE && forall i :: 0 <= i < |frags| ==> |frags[i].data| <= MAX_BLOB
    requires var x := Process(FragmentBytes(frags) + tail, p, maxPending, maxFragments);
             forall i :: 0 <= i < |x.done| ==> |x.done[i]| >= Messages.HEADER_SIZE
    ensures var x := Process(FragmentBytes(frags) + tail, p, maxPending, maxFragments);
            var (ms, e, p') := ReceiveAll(FragmentBytes(frags) + tail, p, maxPending, maxFragments);
            && ms == DecodeAll(x.done) && p' == x.pending && e == (if x.err.Some? then x.err.value else EndOfStream)
  {
    ProcessDrives(frags, tail, p, maxPending, maxFragments);
    DecodableIsPrefix(frags);
    assert Decodable(frags) == frags;
    ReceiveAllDrives(frags, tail, p, maxPending, maxFragments);
  }
}
