/** The whole way of a message: fragments, packets, lines, the adapter's queue, and the receive loop. */
module EndToEnd {
  import opened Wrappers
  import opened Bytes
  import opened Fragments
  import Guid
  import Messages
  import OutOfProc
  import Adapter
  import Wire

  /** All fragments of a list of messages, from a sender that used the object id last. */
  function FragmentsOf(msgs: seq<Messages.Message>, id: uint64, maxSize: int64): seq<Fragment>
    requires Wire.Small(msgs)
  {
    if msgs == [] then []
    else Wire.Prepared(msgs[0], Wire.NextId(id), maxSize) + FragmentsOf(msgs[1..], Wire.NextId(id), maxSize)
  }

  /** One Data packet for each fragment, under GUIDs that may differ. */
  function PacketsOf(frags: seq<Fragment>, guids: seq<Guid.Guid>): (ps: seq<OutOfProc.Packet>)
    requires |guids| == |frags|
    ensures |ps| == |frags|
  {
    if frags == [] then [] else [DataPacket(frags[0], guids[0])] + PacketsOf(frags[1..], guids[1..])
  }

  function DataPacket(f: Fragment, g: Guid.Guid): OutOfProc.Packet {
    OutOfProc.Packet(OutOfProc.DATA, g, OutOfProc.DEFAULT, Encoded(f))
  }

  lemma {:induction false} FragmentBytesJoin(a: seq<Fragment>, b: seq<Fragment>)
    ensures Wire.FragmentBytes(a + b) == Wire.FragmentBytes(a) + Wire.FragmentBytes(b)
    decreases |a|
  {
    if a == [] {
      assert a + b == b;
    } else {
      assert (a + b)[1..] == a[1..] + b;
      FragmentBytesJoin(a[1..], b);
    }
  }

  lemma {:induction false} StreamIsFragments(msgs: seq<Messages.Message>, id: uint64, maxSize: int64)
    requires Wire.Small(msgs)
    ensures Wire.Stream(msgs, id, maxSize) == Wire.FragmentBytes(FragmentsOf(msgs, id, maxSize))
    decreases |msgs|
  {
    if msgs != [] {
      var id1 := Wire.NextId(id);
      StreamIsFragments(msgs[1..], id1, maxSize);
      FragmentBytesJoin(Wire.Prepared(msgs[0], id1, maxSize), FragmentsOf(msgs[1..], id1, maxSize));
    }
  }

  lemma {:induction false} PayloadsCons(p: OutOfProc.Packet, ps: seq<OutOfProc.Packet>)
    requires p.packetType == OutOfProc.DATA
    ensures Adapter.Payloads([p] + ps) == p.data + Adapter.Payloads(ps)
    decreases |ps|
  {
    var all := [p] + ps;
    if ps == [] {
      assert all[..0] == [];
    } else {
      var n := |ps| - 1;
      assert all[..|all| - 1] == [p] + ps[..n];
      PayloadsCons(p, ps[..n]);
    }
  }

  lemma {:induction false} PayloadsAreFragments(frags: seq<Fragment>, guids: seq<Guid.Guid>)
    requires |guids| == |frags|
    ensures Adapter.Payloads(PacketsOf(frags, guids)) == Wire.FragmentBytes(frags)
    decreases |frags|
  {
    if frags != [] {
      PayloadsAreFragments(frags[1..], guids[1..]);
      PayloadsCons(DataPacket(frags[0], guids[0]), PacketsOf(frags[1..], guids[1..]));
    }
  }

  lemma {:induction false} PacketsPrintable(frags: seq<Fragment>, guids: seq<Guid.Guid>)
    requires |guids| == |frags|
    ensures forall i :: 0 <= i < |frags| ==> OutOfProc.Printable(PacketsOf(frags, guids)[i])
    decreases |frags|
  {
    if frags != [] {
      OutOfProc.Literals();
      assert OutOfProc.Printable(DataPacket(frags[0], guids[0]));
      PacketsPrintable(frags[1..], guids[1..]);
    }
  }

  /**
   Messages sent as fragments in Data packets, with junk free of < between the lines, and read through
   the adapter in any interleaving and with buffers of any sizes: once a Read meets the end of the
   input, the receive loop makes of the bytes read exactly the messages sent, and keeps nothing back.
   */
  lemma MessagesArrive(msgs: seq<Messages.Message>, id: uint64, maxSize: int64, guids: seq<Guid.Guid>,
                       junk: seq<seq<byte>>, events: seq<Adapter.Event>, n: nat, maxPending: int64, maxFragments: int64)
    requires Wire.Small(msgs) && Wire.AllFit(msgs, maxSize, maxFragments) && maxPending >= 1
    requires |guids| == |junk| == |FragmentsOf(msgs, id, maxSize)|
    requires forall i :: 0 <= i < |junk| ==> OutOfProc.LT !in junk[i]
    requires var input := OutOfProc.Input(junk, PacketsOf(FragmentsOf(msgs, id, maxSize), guids));
             Adapter.ReadOutcome(Adapter.Run(Adapter.Initial(input), events), n).Failed?
    ensures var input := OutOfProc.Input(junk, PacketsOf(FragmentsOf(msgs, id, maxSize), guids));
            var bytes := Adapter.Run(Adapter.Initial(input), events).returned;
            Wire.ReceiveMany(|msgs|, bytes, map[], maxPending, maxFragments) == (Ok(msgs), [], map[])
  {
    var frags := FragmentsOf(msgs, id, maxSize);
    var ps := PacketsOf(frags, guids);
    PayloadsAreFragments(frags, guids);
    PacketsPrintable(frags, guids);
    Adapter.DrainedMeansDelivered(junk, ps, events, n);
    StreamIsFragments(msgs, id, maxSize);
    Wire.StreamRoundTrip(msgs, id, maxSize, [], maxPending, maxFragments);
    var bytes := Wire.Stream(msgs, id, maxSize);
    assert bytes + [] == bytes;
  }

  /**
   Progress: whatever the interleaving, without a Close, after so many steps of the loop and then as
   many Reads as there are fragments and bytes sent, the messages have arrived.
   */
  lemma MessagesGuaranteed(msgs: seq<Messages.Message>, id: uint64, maxSize: int64, guids: seq<Guid.Guid>,
                           junk: seq<seq<byte>>, events: seq<Adapter.Event>, more: seq<Adapter.Event>,
                           maxPending: int64, maxFragments: int64)
    requires Wire.Small(msgs) && Wire.AllFit(msgs, maxSize, maxFragments) && maxPending >= 1
    requires |guids| == |junk| == |FragmentsOf(msgs, id, maxSize)|
    requires forall i :: 0 <= i < |junk| ==> OutOfProc.LT !in junk[i]
    requires var input := OutOfProc.Input(junk, PacketsOf(FragmentsOf(msgs, id, maxSize), guids));
             Adapter.NeverCancelled(events) && Adapter.LoopSteps(events) >= 2 * |input| + 2
    requires Adapter.Reads(more) >= |Wire.Stream(msgs, id, maxSize)| + |FragmentsOf(msgs, id, maxSize)|
    ensures var input := OutOfProc.Input(junk, PacketsOf(FragmentsOf(msgs, id, maxSize), guids));
            var bytes := Adapter.Run(Adapter.Initial(input), events + more).returned;
            Wire.ReceiveMany(|msgs|, bytes, map[], maxPending, maxFragments) == (Ok(msgs), [], map[])
  {
    var frags := FragmentsOf(msgs, id, maxSize);
    PayloadsAreFragments(frags, guids);
    PacketsPrintable(frags, guids);
    StreamIsFragments(msgs, id, maxSize);
    Adapter.EverythingArrives(junk, PacketsOf(frags, guids), events, more, 0);
    MessagesArrive(msgs, id, maxSize, guids, junk, events + more, 0, maxPending, maxFragments);
  }
}
