/** A byte stream in which the fragments of several messages are mixed, and what the receive loop makes of it. */
module Interleaving {
  import opened Wrappers
  import opened Bytes
  import opened Fragments
  import opened Assembly
  import opened Wire
  import Messages

  /** The messages on the wire by object id, each cut somehow into fragments. */
  ghost predicate Carried(wire: map<uint64, Messages.Message>, cut: map<uint64, Assembly.Message>) {
    wire.Keys == cut.Keys && forall id :: id in cut ==> Sendable(cut[id]) && cut[id].data == Messages.Encoded(wire[id])
  }

  /** The fragments come in any order and mixed, none of them twice. */
  ghost predicate Mixed(cut: map<uint64, Assembly.Message>, hist: seq<Fragment>, maxPending: int64, maxFragments: int64)
    requires AllSendable(cut)
  {
    && Arrivals(cut, hist, maxPending, maxFragments)
    && forall i :: 0 <= i < |hist| ==> hist[i].fragmentId !in Arrived(hist[..i], hist[i].objectId)
  }

  /** f, coming after hist, is the last fragment its message waited for. */
  ghost predicate Completes(cut: map<uint64, Assembly.Message>, hist: seq<Fragment>, f: Fragment)
    requires AllSendable(cut) && f.objectId in cut
  {
    AllArrived(hist + [f], f.objectId, cut[f.objectId])
  }

  /** The messages in the order in which their last fragments come. */
  ghost function Completed(cut: map<uint64, Assembly.Message>, hist: seq<Fragment>): seq<uint64>
    requires AllSendable(cut) && forall f :: f in hist ==> f.objectId in cut
    decreases |hist|
  {
    if hist == [] then []
    else
      var before, f := hist[..|hist| - 1], hist[|hist| - 1];
      Completed(cut, before) + (if Completes(cut, before, f) then [f.objectId] else [])
  }

  lemma {:induction false} OnlyKnown(cut: map<uint64, Assembly.Message>, hist: seq<Fragment>, maxPending: int64,
                                     maxFragments: int64)
    requires AllSendable(cut) && Arrivals(cut, hist, maxPending, maxFragments)
    ensures forall f :: f in hist ==> f.objectId in cut
  {
    forall f | f in hist ensures f.objectId in cut {
      var i :| 0 <= i < |hist| && hist[i] == f;
      assert Arrives(cut, hist[..i], hist[i], maxPending, maxFragments);
    }
  }

  lemma WithoutLast(cut: map<uint64, Assembly.Message>, hist: seq<Fragment>, maxPending: int64, maxFragments: int64)
    returns (before: seq<Fragment>, f: Fragment)
    requires AllSendable(cut) && Mixed(cut, hist, maxPending, maxFragments) && hist != []
    ensures hist == before + [f] && before == hist[..|hist| - 1] && f == hist[|hist| - 1]
    ensures Mixed(cut, before, maxPending, maxFragments) && Arrives(cut, before, f, maxPending, maxFragments)
    ensures f.fragmentId !in Arrived(before, f.objectId)
  {
    before, f := Last(cut, hist, maxPending, maxFragments);
    var n := |hist| - 1;
    forall i | 0 <= i < n ensures before[i].fragmentId !in Arrived(before[..i], before[i].objectId) {
      SamePrefix(hist, before, n, i);
    }
  }

  /** The last fragment at the end. */
  lemma CompletedSnoc(cut: map<uint64, Assembly.Message>, before: seq<Fragment>, f: Fragment, hist: seq<Fragment>)
    requires AllSendable(cut) && hist == before + [f] && (forall g :: g in hist ==> g.objectId in cut)
    ensures f.objectId in cut && forall g :: g in before ==> g.objectId in cut
    ensures Completed(cut, hist) == Completed(cut, before) + (if Completes(cut, before, f) then [f.objectId] else [])
  {
    assert hist[..|hist| - 1] == before && hist[|hist| - 1] == f;
    assert f in hist && forall g :: g in before ==> g in hist;
  }

  ghost predicate IsDone(cut: map<uint64, Assembly.Message>, hist: seq<Fragment>, id: uint64)
    requires AllSendable(cut)
  {
    id in cut && AllArrived(hist, id, cut[id])
  }

  lemma DoneStep(cut: map<uint64, Assembly.Message>, before: seq<Fragment>, f: Fragment, id: uint64)
    requires AllSendable(cut) && f.objectId in cut && !IsDone(cut, before, f.objectId)
    ensures IsDone(cut, before + [f], id) <==>
            if id == f.objectId then Completes(cut, before, f) else IsDone(cut, before, id)
  {
    ArrivedStep(before, f, id);
  }

  predicate Distinct<T(==)>(s: seq<T>) {
    forall i, j :: 0 <= i < j < |s| ==> s[i] != s[j]
  }

  /** Each message that has all its fragments is completed once, and no other. */
  lemma {:induction false} CompletedOnce(cut: map<uint64, Assembly.Message>, hist: seq<Fragment>, maxPending: int64,
                                         maxFragments: int64)
    requires AllSendable(cut) && Mixed(cut, hist, maxPending, maxFragments)
    ensures forall f :: f in hist ==> f.objectId in cut
    ensures forall id :: id in Completed(cut, hist) <==> IsDone(cut, hist, id)
    ensures Distinct(Completed(cut, hist))
    decreases |hist|
  {
    OnlyKnown(cut, hist, maxPending, maxFragments);
    if hist == [] {
      forall id | id in cut ensures !AllArrived(hist, id, cut[id]) {
        assert 0 !in Arrived(hist, id);
      }
    } else {
      var before, f := WithoutLast(cut, hist, maxPending, maxFragments);
      CompletedOnce(cut, before, maxPending, maxFragments);
      CompletedSnoc(cut, before, f, hist);
      forall id ensures IsDone(cut, hist, id) <==>
                        if id == f.objectId then Completes(cut, before, f) else IsDone(cut, before, id) {
        DoneStep(cut, before, f, id);
      }
      OneMoreDone(cut, before, f, hist, Completed(cut, before), Completed(cut, hist));
    }
  }

  lemma OneMoreDone(cut: map<uint64, Assembly.Message>, before: seq<Fragment>, f: Fragment, hist: seq<Fragment>,
                    a: seq<uint64>, b: seq<uint64>)
    requires AllSendable(cut) && f.objectId in cut && !IsDone(cut, before, f.objectId)
    requires b == a + (if Completes(cut, before, f) then [f.objectId] else [])
    requires Distinct(a) && forall id :: id in a <==> IsDone(cut, before, id)
    requires forall id :: IsDone(cut, hist, id) <==>
                          if id == f.objectId then Completes(cut, before, f) else IsDone(cut, before, id)
    ensures Distinct(b) && forall id :: id in b <==> IsDone(cut, hist, id)
  {
    assert forall i :: 0 <= i < |a| ==> a[i] in a;
  }

  /** done holds the bytes of the messages with these ids. */
  ghost predicate AreBytes(cut: map<uint64, Assembly.Message>, ids: seq<uint64>, done: seq<seq<byte>>) {
    |done| == |ids| && forall i :: 0 <= i < |ids| ==> ids[i] in cut && done[i] == cut[ids[i]].data
  }

  ghost predicate AreTheMessages(wire: map<uint64, Messages.Message>, ids: seq<uint64>, ms: seq<Messages.Message>) {
    |ms| == |ids| && forall i :: 0 <= i < |ids| ==> ids[i] in wire && ms[i] == wire[ids[i]]
  }

  /** One more fragment at the end of those that were all accepted. */
  lemma {:induction false} DriveSnoc(frags: seq<Fragment>, f: Fragment, p: Pending, maxPending: int64,
                                     maxFragments: int64)
    requires Drive(frags, p, maxPending, maxFragments).err.None?
    ensures var x := Drive(frags, p, maxPending, maxFragments);
            var (r, p') := AddTo(x.pending, maxPending, maxFragments, f);
            Drive(frags + [f], p, maxPending, maxFragments)
            == match r
               case Incomplete => Processed(None, p', x.done)
               case Complete(data) => Processed(None, p', x.done + [data])
               case _ => Processed(Some(Assemble(r)), p', x.done)
    decreases |frags|
  {
    if frags == [] {
      assert [] + [f] == [f] && [f][1..] == [];
    } else {
      assert (frags + [f])[1..] == frags[1..] + [f];
      DriveSnoc(frags[1..], f, AddTo(p, maxPending, maxFragments, frags[0]).1, maxPending, maxFragments);
    }
  }

  lemma {:induction false} MixedDrive(cut: map<uint64, Assembly.Message>, hist: seq<Fragment>, maxPending: int64,
                                      maxFragments: int64)
    requires AllSendable(cut) && Mixed(cut, hist, maxPending, maxFragments)
    ensures forall f :: f in hist ==> f.objectId in cut
    ensures var x := Drive(hist, map[], maxPending, maxFragments);
            x.err.None? && AreBytes(cut, Completed(cut, hist), x.done) && Tracks(x.pending, cut, hist)
    decreases |hist|
  {
    OnlyKnown(cut, hist, maxPending, maxFragments);
    if hist == [] {
      assert InFlight(cut, hist) == {};
    } else {
      var before, f := WithoutLast(cut, hist, maxPending, maxFragments);
      MixedDrive(cut, before, maxPending, maxFragments);
      CompletedSnoc(cut, before, f, hist);
      var x, y := DriveOneMore(before, f, hist, maxPending, maxFragments);
      var r, p := MixedStep(cut, before, f, x.pending, maxPending, maxFragments);
      OneMoreBytes(cut, before, f, hist, Completed(cut, before), Completed(cut, hist), x, y, r, p);
    }
  }

  /** How a run goes on with one more fragment. */
  ghost predicate GoesOn(x: Processed, y: Processed, r: Outcome, p: Pending) {
    match r
    case Incomplete => y == Processed(None, p, x.done)
    case Complete(data) => y == Processed(None, p, x.done + [data])
    case _ => y == Processed(Some(Assemble(r)), p, x.done)
  }

  lemma DriveOneMore(before: seq<Fragment>, f: Fragment, hist: seq<Fragment>, maxPending: int64, maxFragments: int64)
    returns (x: Processed, y: Processed)
    requires hist == before + [f] && Drive(before, map[], maxPending, maxFragments).err.None?
    ensures x == Drive(before, map[], maxPending, maxFragments) && y == Drive(hist, map[], maxPending, maxFragments)
    ensures var (r, p) := AddTo(x.pending, maxPending, maxFragments, f); GoesOn(x, y, r, p)
  {
    x, y := Drive(before, map[], maxPending, maxFragments), Drive(hist, map[], maxPending, maxFragments);
    DriveSnoc(before, f, map[], maxPending, maxFragments);
  }

  /** What adding f does, when it is no copy. */
  lemma MixedStep(cut: map<uint64, Assembly.Message>, before: seq<Fragment>, f: Fragment, p0: Pending,
                  maxPending: int64, maxFragments: int64) returns (r: Outcome, p: Pending)
    requires AllSendable(cut) && Tracks(p0, cut, before)
    requires Arrives(cut, before, f, maxPending, maxFragments) && f.fragmentId !in Arrived(before, f.objectId)
    ensures (r, p) == AddTo(p0, maxPending, maxFragments, f) && Tracks(p, cut, before + [f])
    ensures r == if Completes(cut, before, f) then Complete(cut[f.objectId].data) else Incomplete
  {
    r, p := AddTo(p0, maxPending, maxFragments, f).0, AddTo(p0, maxPending, maxFragments, f).1;
    AddTracks(p0, cut, before, f, maxPending, maxFragments);
  }

  lemma OneMoreBytes(cut: map<uint64, Assembly.Message>, before: seq<Fragment>, f: Fragment, hist: seq<Fragment>,
                     a: seq<uint64>, b: seq<uint64>, x: Processed, y: Processed, r: Outcome, p: Pending)
    requires AllSendable(cut) && f.objectId in cut && AreBytes(cut, a, x.done) && GoesOn(x, y, r, p)
    requires b == a + (if Completes(cut, before, f) then [f.objectId] else [])
    requires r == if Completes(cut, before, f) then Complete(cut[f.objectId].data) else Incomplete
    ensures y.err.None? && AreBytes(cut, b, y.done) && y.pending == p
  {
  }

  ghost predicate AreLong(done: seq<seq<byte>>) {
    forall i :: 0 <= i < |done| ==> |done[i]| >= Messages.HEADER_SIZE
  }

  lemma {:induction false} BytesDecode(wire: map<uint64, Messages.Message>, cut: map<uint64, Assembly.Message>,
                                       ids: seq<uint64>, done: seq<seq<byte>>)
    requires Carried(wire, cut) && AreBytes(cut, ids, done)
    ensures AreLong(done) && AreTheMessages(wire, ids, DecodeAll(done))
    decreases |ids|
  {
    if ids != [] {
      var more, rest := done[1..], ids[1..];
      BytesDecode(wire, cut, rest, more);
      var m := FirstDecodes(wire, cut, ids[0], done[0]);
      var ms := DecodeAll(more);
      DecodeAllHead(done, more, m, ms);
      TheMessagesHead(wire, ids, rest, m, ms);
    }
  }

  lemma DecodeAllHead(done: seq<seq<byte>>, more: seq<seq<byte>>, m: Messages.Message, ms: seq<Messages.Message>)
    requires done != [] && more == done[1..] && AreLong(more) && ms == DecodeAll(more)
    requires |done[0]| >= Messages.HEADER_SIZE && Messages.Decode(done[0]) == Some(m)
    ensures AreLong(done) && DecodeAll(done) == [m] + ms
  {
    assert forall i :: 1 <= i < |done| ==> done[i] == more[i - 1];
  }

  lemma TheMessagesHead(wire: map<uint64, Messages.Message>, ids: seq<uint64>, rest: seq<uint64>, m: Messages.Message,
                        ms: seq<Messages.Message>)
    requires ids != [] && rest == ids[1..] && ids[0] in wire && m == wire[ids[0]] && AreTheMessages(wire, rest, ms)
    ensures AreTheMessages(wire, ids, [m] + ms)
  {
    assert forall i :: 1 <= i < |ids| ==> ids[i] == rest[i - 1];
  }

  lemma FirstDecodes(wire: map<uint64, Messages.Message>, cut: map<uint64, Assembly.Message>, id: uint64, d: seq<byte>)
    returns (m: Messages.Message)
    requires Carried(wire, cut) && id in cut && d == cut[id].data
    ensures id in wire && m == wire[id] && |d| >= Messages.HEADER_SIZE && Messages.Decode(d) == Some(m)
  {
    m := wire[id];
    Messages.DecodeEncoded(m);
  }

  /**
   Any messages, cut in any way, their fragments mixed in any order: the receive loop returns each
   message that is complete once, in the order of their last fragments, and then meets the end of
   the stream; what is pending then is what has arrived of the others.
   */
  lemma MixedStream(wire: map<uint64, Messages.Message>, cut: map<uint64, Assembly.Message>, hist: seq<Fragment>,
                    tail: seq<byte>, maxPending: int64, maxFragments: int64)
    requires Carried(wire, cut) && Mixed(cut, hist, maxPending, maxFragments)
    requires |tail| < Fragments.HEADER_SIZE && forall i :: 0 <= i < |hist| ==> |hist[i].data| <= MAX_BLOB
    ensures forall f :: f in hist ==> f.objectId in cut
    ensures var ids := Completed(cut, hist);
            var (ms, e, p) := ReceiveAll(FragmentBytes(hist) + tail, map[], maxPending, maxFragments);
            && AreTheMessages(wire, ids, ms) && Distinct(ids)
            && (forall id :: id in ids <==> id in cut && AllArrived(hist, id, cut[id]))
            && e == EndOfStream && Tracks(p, cut, hist)
            && ((forall id :: id in cut ==> AllArrived(hist, id, cut[id])) ==> p == map[])
  {
    CompletedOnce(cut, hist, maxPending, maxFragments);
    MixedDrive(cut, hist, maxPending, maxFragments);
    var x := Drive(hist, map[], maxPending, maxFragments);
    BytesDecode(wire, cut, Completed(cut, hist), x.done);
    ReceiveAllDrives(hist, tail, map[], maxPending, maxFragments);
    AllMeansNone(cut, hist, x.pending);
    assert forall id :: IsDone(cut, hist, id) <==> id in cut && AllArrived(hist, id, cut[id]);
  }

  lemma AllMeansNone(cut: map<uint64, Assembly.Message>, hist: seq<Fragment>, p: Pending)
    requires AllSendable(cut) && Tracks(p, cut, hist)
    ensures (forall id :: id in cut ==> AllArrived(hist, id, cut[id])) ==> p == map[]
  {
    if forall id :: id in cut ==> AllArrived(hist, id, cut[id]) {
      assert InFlight(cut, hist) == {};
    }
  }
}
