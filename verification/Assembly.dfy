/** Reassembly of messages from fragments: Assembler.Add, and what it guarantees over whole runs. */
module Assembly {
  import opened Bytes
  import opened Fragments

  /** A message still incomplete; total is -1 until its last fragment has come. */
  datatype PendingMessage = PendingMessage(fragments: map<uint64, seq<byte>>, total: int, received: nat)

  type Pending = map<uint64, PendingMessage>

  datatype Outcome =
    | Incomplete
    | Complete(data: seq<byte>)
    | TooManyPending
    | TooManyFragments
    | Duplicate
    | IdTooLarge

  const DEFAULT_MAX_PENDING: int64 := 1000
  const DEFAULT_MAX_FRAGMENTS: int64 := 10000

  const FRESH := PendingMessage(map[], -1, 0)

  /** The bytes under the ids from i to total; an id that is missing counts as empty. */
  function Joined(fragments: map<uint64, seq<byte>>, i: nat, total: nat): seq<byte>
    requires i <= total
    decreases total - i
  {
    if i == total then [] else (if i in fragments then fragments[i] else []) + Joined(fragments, i + 1, total)
  }

  /** What Add returns, and the pending messages it leaves. */
  function AddTo(p: Pending, maxPending: int64, maxFragments: int64, f: Fragment): (Outcome, Pending) {
    if f.objectId !in p && |p| >= maxPending then (TooManyPending, p)
    else
      var pm := if f.objectId in p then p[f.objectId] else FRESH;
      if pm.received >= maxFragments then (TooManyFragments, p - {f.objectId})
      else if f.fragmentId in pm.fragments then (Duplicate, p)
      else
        var stored := pm.(fragments := pm.fragments[f.fragmentId := f.data], received := pm.received + 1);
        if f.end && f.fragmentId > MAX_INT64 - 1 then (IdTooLarge, p[f.objectId := stored])
        else
          var pm' := if f.end then stored.(total := f.fragmentId + 1) else stored;
          if pm'.total > 0 && pm'.received == pm'.total
              then (Complete(Joined(pm'.fragments, 0, pm'.total)), p - {f.objectId})
          else (Incomplete, p[f.objectId := pm'])
  }

  class Assembler {
    var pending: Pending
    const maxPending: int64
    const maxFragments: int64

    constructor (maxPending: int64, maxFragments: int64)
      ensures pending == map[] && this.maxPending == maxPending && this.maxFragments == maxFragments
    {
      pending, this.maxPending, this.maxFragments := map[], maxPending, maxFragments;
    }

    method Add(f: Fragment) returns (r: Outcome)
      modifies this
      ensures (r, pending) == AddTo(old(pending), maxPending, maxFragments, f)
    {
      ghost var before := pending;
      var id := f.objectId;
      if id !in pending {
        if |pending| >= maxPending {
          return TooManyPending;
        }
        pending := pending[id := FRESH];
      }
      var pm := pending[id];
      PutThenPut(before, pending, id, pm);
      if pm.received >= maxFragments {
        pending := pending - {id};
        return TooManyFragments;
      }
      if f.fragmentId in pm.fragments {
        return Duplicate;
      }
      pm := pm.(fragments := pm.fragments[f.fragmentId := f.data], received := pm.received + 1);
      PutThenPut(before, pending, id, pm);
      pending := pending[id := pm];
      if f.end {
        if f.fragmentId > MAX_INT64 - 1 {
          return IdTooLarge;
        }
        pm := pm.(total := f.fragmentId + 1);
        PutThenPut(before, pending, id, pm);
        pending := pending[id := pm];
      }
      if pm.total > 0 && pm.received == pm.total {
        var data := JoinLoop(pm.fragments, pm.total);
        PutThenPut(before, pending, id, pm);
        pending := pending - {id};
        return Complete(data);
      }
      r := Incomplete;
    }
  }

  /** A later entry under the same id replaces an earlier one, and removing it removes both. */
  lemma PutThenPut<K, V>(m: map<K, V>, m': map<K, V>, k: K, v: V)
    requires m' == m || (k in m' && m' == m[k := m'[k]])
    ensures m'[k := v] == m[k := v] && m' - {k} == m - {k}
  {
    if m' != m {
      var w := m'[k];
      assert m[k := w][k := v] == m[k := v] && m[k := w] - {k} == m - {k};
    }
  }

  method JoinLoop(fragments: map<uint64, seq<byte>>, total: nat) returns (result: seq<byte>)
    ensures result == Joined(fragments, 0, total)
  {
    result := [];
    var i := 0;
    while i < total
      invariant 0 <= i <= total
      invariant result + Joined(fragments, i, total) == Joined(fragments, 0, total)
    {
      var j := i + 1;
      ghost var done, rest := result, Joined(fragments, j, total);
      var piece := if i in fragments then fragments[i] else [];
      result := result + piece;
      assert done + (piece + rest) == result + rest;
      i := j;
    }
    assert result + [] == result;
  }

  // ---------- arbitrary fragments ----------

  function AtLeastZero(n: int): nat {
    if n < 0 then 0 else n
  }

  /** Both limits hold, and every count is the number of fragments stored. */
  ghost predicate WithinLimits(p: Pending, maxPending: int64, maxFragments: int64) {
    && |p| <= AtLeastZero(maxPending)
    && forall id :: id in p ==>
         && p[id].received == |p[id].fragments| && 1 <= p[id].received <= maxFragments
         && (p[id].total == -1 || 1 <= p[id].total <= MAX_INT64)
  }

  /** Any fragment at all, accepted or refused, keeps the limits and touches its own message only. */
  lemma AddKeepsLimits(p: Pending, maxPending: int64, maxFragments: int64, f: Fragment)
    requires WithinLimits(p, maxPending, maxFragments)
    ensures var (r, p') := AddTo(p, maxPending, maxFragments, f);
            && WithinLimits(p', maxPending, maxFragments)
            && (forall id :: id != f.objectId ==> (id in p' <==> id in p) && (id in p ==> p'[id] == p[id]))
            && (r == TooManyPending || r == Duplicate ==> p' == p)
            && (r.Complete? || r == TooManyFragments ==> f.objectId !in p')
            && (r == Incomplete || r == IdTooLarge ==> f.objectId in p' && f.fragmentId in p'[f.objectId].fragments)
  {
    var r := AddTo(p, maxPending, maxFragments, f).0;
    AddTouchesOne(p, maxPending, maxFragments, f);
    if r == Incomplete || r == IdTooLarge {
      var pm := if f.objectId in p then p[f.objectId] else FRESH;
      StoringKeepsLimits(p, maxPending, maxFragments, f.objectId, pm, f,
                         AddTo(p, maxPending, maxFragments, f).1[f.objectId]);
    } else {
      SizeAfterRemove(p, f.objectId);
    }
  }

  lemma AddTouchesOne(p: Pending, maxPending: int64, maxFragments: int64, f: Fragment)
    ensures var (r, p') := AddTo(p, maxPending, maxFragments, f);
            && (forall id :: id != f.objectId ==> (id in p' <==> id in p) && (id in p ==> p'[id] == p[id]))
            && (r == TooManyPending || r == Duplicate ==> p' == p)
            && (r.Complete? || r == TooManyFragments ==> p' == p - {f.objectId})
            && (r == Incomplete || r == IdTooLarge ==>
                  && f.objectId in p' && f.fragmentId in p'[f.objectId].fragments
                  && p' == p[f.objectId := p'[f.objectId]])
  {
  }

  lemma StoringKeepsLimits(p: Pending, maxPending: int64, maxFragments: int64, id: uint64, pm: PendingMessage,
                           f: Fragment, pm': PendingMessage)
    requires WithinLimits(p, maxPending, maxFragments) && (id !in p ==> |p| < maxPending)
    requires pm == (if id in p then p[id] else FRESH) && pm.received < maxFragments && f.fragmentId !in pm.fragments
    requires pm'.fragments == pm.fragments[f.fragmentId := f.data] && pm'.received == pm.received + 1
    requires pm'.total == pm.total || 1 <= pm'.total <= MAX_INT64
    ensures WithinLimits(p[id := pm'], maxPending, maxFragments)
  {
    SizeAfterInsert(p, id, pm');
    SizeAfterInsert(pm.fragments, f.fragmentId, f.data);
  }

  lemma SizeAfterInsert<K, V>(m: map<K, V>, k: K, v: V)
    ensures |m[k := v]| == if k in m then |m| else |m| + 1
  {
    assert m[k := v].Keys == m.Keys + {k};
  }

  lemma SizeAfterRemove<K, V>(m: map<K, V>, k: K)
    ensures |m - {k}| <= |m|
  {
    assert (m - {k}).Keys == m.Keys - {k};
    if k in m {
      assert m.Keys == (m - {k}).Keys + {k};
    } else {
      assert (m - {k}).Keys == m.Keys;
    }
  }

  function Feed(p: Pending, maxPending: int64, maxFragments: int64, hist: seq<Fragment>): (r: (seq<Outcome>, Pending))
    ensures |r.0| == |hist|
  {
    if hist == [] then ([], p)
    else
      var n := |hist| - 1;
      var (rs, p') := Feed(p, maxPending, maxFragments, hist[..n]);
      var (r, p'') := AddTo(p', maxPending, maxFragments, hist[n]);
      (rs + [r], p'')
  }

  lemma FeedOne(p: Pending, maxPending: int64, maxFragments: int64, hist: seq<Fragment>, f: Fragment)
    ensures var (rs, p') := Feed(p, maxPending, maxFragments, hist);
            var (r, p'') := AddTo(p', maxPending, maxFragments, f);
            Feed(p, maxPending, maxFragments, hist + [f]) == (rs + [r], p'')
  {
    assert (hist + [f])[..|hist|] == hist;
  }

  /** In every run, from an empty assembler, of any fragments whatever. */
  lemma {:induction false} FeedKeepsLimits(maxPending: int64, maxFragments: int64, hist: seq<Fragment>)
    ensures WithinLimits(Feed(map[], maxPending, maxFragments, hist).1, maxPending, maxFragments)
    decreases |hist|
  {
    if hist != [] {
      var n := |hist| - 1;
      FeedKeepsLimits(maxPending, maxFragments, hist[..n]);
      AddKeepsLimits(Feed(map[], maxPending, maxFragments, hist[..n]).1, maxPending, maxFragments, hist[n]);
    }
  }

  // ---------- when completion can be trusted ----------

  function Range(n: nat): (s: set<uint64>)
    requires n <= MAX_UINT64
    ensures |s| == n && forall k :: k in s <==> 0 <= k < n
  {
    if n == 0 then {} else Range(n - 1) + {n - 1 as uint64}
  }

  /** A set of n ids below n is all of them. */
  lemma AllBelow(s: set<uint64>, n: nat)
    requires n <= MAX_UINT64 && |s| == n
    ensures (forall k :: 0 <= k < n ==> k in s) <==> (forall k :: k in s ==> k < n)
  {
    if forall k :: k in s ==> k < n {
      assert s <= Range(n);
      SameSize(s, Range(n));
    }
    if forall k :: 0 <= k < n ==> k in s {
      assert Range(n) <= s;
      SameSize(Range(n), s);
    }
  }

  lemma SmallerSize<T>(a: set<T>, b: set<T>)
    requires a < b
    ensures |a| < |b|
  {
    assert b == a + (b - a) && b - a != {};
  }

  lemma SameSize<T>(a: set<T>, b: set<T>)
    requires a <= b && |a| == |b|
    ensures a == b
  {
    assert b == a + (b - a);
    assert |b - a| == 0;
  }

  /**
   A message that completes has all its fragments 0 to total - 1 if and only if none with an id
   beyond the last one was stored for it.
   */
  lemma CompleteHasAllIff(p: Pending, maxPending: int64, maxFragments: int64, f: Fragment)
    requires WithinLimits(p, maxPending, maxFragments)
    requires AddTo(p, maxPending, maxFragments, f).0.Complete?
    ensures var stored := (if f.objectId in p then p[f.objectId].fragments else map[])[f.fragmentId := f.data];
            var total := if f.end then f.fragmentId + 1 else p[f.objectId].total;
            && AddTo(p, maxPending, maxFragments, f).0.data == Joined(stored, 0, total)
            && ((forall k :: 0 <= k < total ==> k in stored) <==> (forall k :: k in stored ==> k < total))
  {
    var pm := if f.objectId in p then p[f.objectId] else FRESH;
    SizeAfterInsert(pm.fragments, f.fragmentId, f.data);
    var stored := pm.fragments[f.fragmentId := f.data];
    var total := if f.end then f.fragmentId + 1 else p[f.objectId].total;
    assert |stored.Keys| == total;
    AllBelow(stored.Keys, total);
  }

  /** It need not: fragment 5 and then a last fragment 1 complete a message of which fragment 0 never came. */
  lemma CompletesWithoutFirst(id: uint64, a: seq<byte>, b: seq<byte>)
    ensures var first, last := Fragment(id, 5, false, false, a), Fragment(id, 1, false, true, b);
            Feed(map[], DEFAULT_MAX_PENDING, DEFAULT_MAX_FRAGMENTS, [first, last]) == ([Incomplete, Complete(b)], map[])
  {
    var first, last := Fragment(id, 5, false, false, a), Fragment(id, 1, false, true, b);
    var hist := [first, last];
    var p1 := map[id := PendingMessage(map[5 := a], -1, 1)];
    assert AddTo(map[], DEFAULT_MAX_PENDING, DEFAULT_MAX_FRAGMENTS, first) == (Incomplete, p1);
    FeedOne(map[], DEFAULT_MAX_PENDING, DEFAULT_MAX_FRAGMENTS, [], first);
    FeedOne(map[], DEFAULT_MAX_PENDING, DEFAULT_MAX_FRAGMENTS, [first], last);
    assert [] + [first] == [first] && [first] + [last] == hist;
    var stored := map[5 := a, 1 := b];
    assert p1[id].fragments[1 := b] == stored;
    assert Joined(stored, 2, 2) == [] && Joined(stored, 1, 2) == b + [] && Joined(stored, 0, 2) == [] + (b + []);
    assert [] + (b + []) == b && p1 - {id} == map[];
    assert AddTo(p1, DEFAULT_MAX_PENDING, DEFAULT_MAX_FRAGMENTS, last) == (Complete(b), map[]);
    assert [] + [Incomplete] == [Incomplete];
    assert Feed(map[], DEFAULT_MAX_PENDING, DEFAULT_MAX_FRAGMENTS, [first]) == ([Incomplete], p1);
    assert [Incomplete] + [Complete(b)] == [Incomplete, Complete(b)];
  }

  // ---------- fragments of real messages ----------

  /** A message as its sender cut it: its bytes, and the size of the pieces. */
  datatype Message = Message(data: seq<byte>, piece: nat)

  ghost predicate Sendable(msg: Message) {
    msg.piece >= 1 && |msg.data| <= MAX_SLICE
  }

  function Cut(id: uint64, msg: Message): (frags: seq<Fragment>)
    requires msg.piece >= 1 && |msg.data| <= MAX_SLICE
    ensures 1 <= |frags| <= MAX_SLICE
  {
    Split(id, 0, msg.data, msg.piece)
  }

  /** The fragment ids of a message that have arrived. */
  ghost function Arrived(hist: seq<Fragment>, id: uint64): set<uint64> {
    set f | f in hist && f.objectId == id :: f.fragmentId
  }

  lemma ArrivedStep(hist: seq<Fragment>, f: Fragment, id: uint64)
    ensures Arrived(hist + [f], id) == if f.objectId == id then Arrived(hist, id) + {f.fragmentId}
            else Arrived(hist, id)
  {
    var got := Arrived(hist + [f], id);
    forall k | k in Arrived(hist, id) ensures k in got {
      var g :| g in hist && g.objectId == id && g.fragmentId == k;
      assert g in hist + [f];
    }
    if f.objectId == id {
      assert f in hist + [f];
    }
  }

  ghost predicate AllArrived(hist: seq<Fragment>, id: uint64, msg: Message)
    requires Sendable(msg)
  {
    forall k :: 0 <= k < |Cut(id, msg)| ==> k in Arrived(hist, id)
  }

  /** Messages of which some but not all fragments have arrived. */
  ghost function InFlight(msgs: map<uint64, Message>, hist: seq<Fragment>): set<uint64>
    requires forall id :: id in msgs ==> Sendable(msgs[id])
  {
    set id | id in msgs && Arrived(hist, id) != {} && !AllArrived(hist, id, msgs[id])
  }

  ghost predicate AllSendable(msgs: map<uint64, Message>) {
    forall id :: id in msgs ==> Sendable(msgs[id])
  }

  /** f is a fragment of one of the messages, not complete yet, and the limits leave room for it. */
  ghost predicate Arrives(msgs: map<uint64, Message>, hist: seq<Fragment>, f: Fragment, maxPending: int64,
                          maxFragments: int64)
    requires AllSendable(msgs)
  {
    && f.objectId in msgs
    && f in Cut(f.objectId, msgs[f.objectId])
    && !AllArrived(hist, f.objectId, msgs[f.objectId])
    && |Cut(f.objectId, msgs[f.objectId])| <= maxFragments
    && (Arrived(hist, f.objectId) == {} ==> |InFlight(msgs, hist)| < maxPending)
  }

  /** Every fragment of a history arrives so: in any order, interleaved, and with copies. */
  ghost predicate Arrivals(msgs: map<uint64, Message>, hist: seq<Fragment>, maxPending: int64, maxFragments: int64)
    requires AllSendable(msgs)
  {
    forall i :: 0 <= i < |hist| ==> Arrives(msgs, hist[..i], hist[i], maxPending, maxFragments)
  }

  /** What should become of f after hist: refused as a copy, or the message complete with it, or neither. */
  ghost function Due(msgs: map<uint64, Message>, hist: seq<Fragment>, f: Fragment): Outcome
    requires AllSendable(msgs) && f.objectId in msgs
  {
    if f.fragmentId in Arrived(hist, f.objectId) then Duplicate
    else if AllArrived(hist + [f], f.objectId, msgs[f.objectId]) then Complete(msgs[f.objectId].data)
    else Incomplete
  }

  /** An entry holds exactly the pieces that have arrived. */
  ghost predicate EntryTracks(pm: PendingMessage, frags: seq<Fragment>, got: set<uint64>) {
    && pm.fragments.Keys == got && pm.received == |got|
    && (forall k :: k in got ==> k < |frags| && pm.fragments[k] == frags[k].data)
    && pm.total == if |frags| - 1 in got then |frags| else -1
  }

  ghost predicate Tracks(p: Pending, msgs: map<uint64, Message>, hist: seq<Fragment>)
    requires AllSendable(msgs)
  {
    && p.Keys == InFlight(msgs, hist)
    && forall id :: id in p ==> EntryTracks(p[id], Cut(id, msgs[id]), Arrived(hist, id))
  }

  lemma {:induction false} JoinedIsConcat(fragments: map<uint64, seq<byte>>, frags: seq<Fragment>, i: nat)
    requires i <= |frags| && |frags| <= MAX_UINT64
    requires forall k :: 0 <= k < |frags| ==> k in fragments && fragments[k] == frags[k].data
    ensures Joined(fragments, i, |frags|) == Concat(frags[i..])
    decreases |frags| - i
  {
    if i < |frags| {
      JoinedIsConcat(fragments, frags, i + 1);
      assert frags[i..][1..] == frags[i + 1..];
    }
  }

  /** The entry of a message, with one more of its fragments stored. */
  lemma StoreTracks(pm: PendingMessage, frags: seq<Fragment>, got: set<uint64>, f: Fragment, pm': PendingMessage)
    requires EntryTracks(pm, frags, got) && f in frags && f.fragmentId !in got
    requires forall i :: 0 <= i < |frags| ==> frags[i].fragmentId == i && (frags[i].end <==> i == |frags| - 1)
    requires pm' == pm.(fragments := pm.fragments[f.fragmentId := f.data], received := pm.received + 1,
                        total := if f.end then f.fragmentId + 1 else pm.total)
    ensures EntryTracks(pm', frags, got + {f.fragmentId})
  {
    var i :| 0 <= i < |frags| && frags[i] == f;
  }

  lemma TrackedComplete(pm: PendingMessage, id: uint64, msg: Message, got: set<uint64>)
    requires Sendable(msg) && EntryTracks(pm, Cut(id, msg), got)
    ensures (pm.total > 0 && pm.received == pm.total) <==> (forall k :: 0 <= k < |Cut(id, msg)| ==> k in got)
    ensures pm.total > 0 && pm.received == pm.total ==> Joined(pm.fragments, 0, pm.total) == msg.data
  {
    var frags := Cut(id, msg);
    if forall k :: 0 <= k < |frags| ==> k in got {
      assert got == Range(|frags|);
    }
    if |got| == |frags| {
      AllBelow(got, |frags|);
      JoinedIsConcat(pm.fragments, frags, 0);
      assert frags[0..] == frags;
      SplitConcat(id, 0, msg.data, msg.piece);
    }
  }

  lemma NotAllArrivedYet(pm: PendingMessage, id: uint64, msg: Message, got: set<uint64>)
    requires Sendable(msg) && EntryTracks(pm, Cut(id, msg), got)
    requires !(forall k :: 0 <= k < |Cut(id, msg)| ==> k in got)
    ensures pm.received < |Cut(id, msg)|
  {
    var frags := Cut(id, msg);
    assert got < Range(|frags|);
    SmallerSize(got, Range(|frags|));
  }

  /** One fragment: the outcome is the one due, and the entries still track what has arrived. */
  lemma AddTracks(p: Pending, msgs: map<uint64, Message>, hist: seq<Fragment>, f: Fragment, maxPending: int64,
                  maxFragments: int64)
    requires AllSendable(msgs) && Tracks(p, msgs, hist) && Arrives(msgs, hist, f, maxPending, maxFragments)
    ensures AddTo(p, maxPending, maxFragments, f).0 == Due(msgs, hist, f)
    ensures Due(msgs, hist, f) == Duplicate ==> AddTo(p, maxPending, maxFragments, f).1 == p
    ensures Tracks(AddTo(p, maxPending, maxFragments, f).1, msgs, hist + [f])
  {
    var pm, frags, got := EntryOf(p, msgs, hist, f, maxPending, maxFragments);
    if f.fragmentId in got {
      AddRefusesCopy(p, msgs, hist, f, maxPending, maxFragments);
    } else {
      AddNewTracks(p, msgs, hist, f, maxPending, maxFragments, pm, frags, got);
    }
  }

  /** The entry f belongs to, and what has arrived of its message. */
  lemma EntryOf(p: Pending, msgs: map<uint64, Message>, hist: seq<Fragment>, f: Fragment, maxPending: int64,
                maxFragments: int64)
    returns (pm: PendingMessage, frags: seq<Fragment>, got: set<uint64>)
    requires AllSendable(msgs) && Tracks(p, msgs, hist) && Arrives(msgs, hist, f, maxPending, maxFragments)
    ensures pm == (if f.objectId in p then p[f.objectId] else FRESH) && (f.objectId !in p ==> |p| < maxPending)
    ensures frags == Cut(f.objectId, msgs[f.objectId]) && f in frags && got == Arrived(hist, f.objectId)
    ensures EntryTracks(pm, frags, got) && pm.received < maxFragments
    ensures f.fragmentId in got ==> f.objectId in p
    ensures Arrived(hist + [f], f.objectId) == got + {f.fragmentId}
  {
    var id := f.objectId;
    frags, got := Cut(id, msgs[id]), Arrived(hist, id);
    pm := EntryAtHand(p, msgs, hist, id);
    NotAllArrivedYet(pm, id, msgs[id], got);
    ArrivedStep(hist, f, id);
  }

  /** A message that is not complete has an entry exactly when something of it has arrived. */
  lemma EntryAtHand(p: Pending, msgs: map<uint64, Message>, hist: seq<Fragment>, id: uint64)
    returns (pm: PendingMessage)
    requires AllSendable(msgs) && Tracks(p, msgs, hist) && id in msgs && !AllArrived(hist, id, msgs[id])
    ensures pm == (if id in p then p[id] else FRESH) && EntryTracks(pm, Cut(id, msgs[id]), Arrived(hist, id))
    ensures id in p <==> Arrived(hist, id) != {}
    ensures |p| == |InFlight(msgs, hist)|
  {
    pm := if id in p then p[id] else FRESH;
    assert id in InFlight(msgs, hist) <==> Arrived(hist, id) != {};
    assert |p| == |p.Keys|;
  }

  lemma AddRefusesCopy(p: Pending, msgs: map<uint64, Message>, hist: seq<Fragment>, f: Fragment, maxPending: int64,
                       maxFragments: int64)
    requires AllSendable(msgs) && Tracks(p, msgs, hist) && f.objectId in msgs && f.objectId in p
    requires f.fragmentId in Arrived(hist, f.objectId) && p[f.objectId].received < maxFragments
    ensures AddTo(p, maxPending, maxFragments, f) == (Duplicate, p) && Tracks(p, msgs, hist + [f])
  {
    ArrivedStep(hist, f, f.objectId);
    assert Arrived(hist + [f], f.objectId) == Arrived(hist, f.objectId);
    CopyRefused(p, f, maxPending, maxFragments);
    OthersTrack(p, p, msgs, hist, f);
  }

  lemma CopyRefused(p: Pending, f: Fragment, maxPending: int64, maxFragments: int64)
    requires f.objectId in p && f.fragmentId in p[f.objectId].fragments && p[f.objectId].received < maxFragments
    ensures AddTo(p, maxPending, maxFragments, f) == (Duplicate, p)
  {
  }

  /** A fragment that is not a copy. */
  lemma AddNewTracks(p: Pending, msgs: map<uint64, Message>, hist: seq<Fragment>, f: Fragment, maxPending: int64,
                     maxFragments: int64, pm: PendingMessage, frags: seq<Fragment>, got: set<uint64>)
    requires AllSendable(msgs) && Tracks(p, msgs, hist) && f.objectId in msgs && (f.objectId !in p ==> |p| < maxPending)
    requires pm == (if f.objectId in p then p[f.objectId] else FRESH) && pm.received < maxFragments
    requires frags == Cut(f.objectId, msgs[f.objectId]) && EntryTracks(pm, frags, got) && f in frags
    requires f.fragmentId !in got
    requires Arrived(hist + [f], f.objectId) == got + {f.fragmentId} && got == Arrived(hist, f.objectId)
    ensures AddTo(p, maxPending, maxFragments, f).0 == Due(msgs, hist, f)
    ensures Tracks(AddTo(p, maxPending, maxFragments, f).1, msgs, hist + [f])
  {
    var id := f.objectId;
    var got' := got + {f.fragmentId};
    var pm' := StoreAndTrack(p, f, maxPending, maxFragments, pm, id, msgs[id], got, got');
    var p' := AddTo(p, maxPending, maxFragments, f).1;
    AddTouchesOne(p, maxPending, maxFragments, f);
    OthersTrack(p, p', msgs, hist, f);
  }

  /** What Add does with a fragment that is not a copy, told by what has arrived. */
  lemma StoreAndTrack(p: Pending, f: Fragment, maxPending: int64, maxFragments: int64, pm: PendingMessage,
                      id: uint64, msg: Message, got: set<uint64>, got': set<uint64>) returns (pm': PendingMessage)
    requires id == f.objectId && pm == (if id in p then p[id] else FRESH) && (id !in p ==> |p| < maxPending)
    requires pm.received < maxFragments && Sendable(msg)
    requires EntryTracks(pm, Cut(id, msg), got) && f in Cut(id, msg) && f.fragmentId !in got
    requires got' == got + {f.fragmentId}
    ensures EntryTracks(pm', Cut(id, msg), got')
    ensures AddTo(p, maxPending, maxFragments, f)
            == if forall k :: 0 <= k < |Cut(id, msg)| ==> k in got' then (Complete(msg.data), p - {id})
               else (Incomplete, p[id := pm'])
  {
    pm' := pm.(fragments := pm.fragments[f.fragmentId := f.data], received := pm.received + 1,
               total := if f.end then f.fragmentId + 1 else pm.total);
    AddStores(p, maxPending, maxFragments, f, pm, pm');
    StoreTracks(pm, Cut(id, msg), got, f, pm');
    TrackedComplete(pm', id, msg, got');
  }

  lemma AddStores(p: Pending, maxPending: int64, maxFragments: int64, f: Fragment, pm: PendingMessage,
                  pm': PendingMessage)
    requires pm == (if f.objectId in p then p[f.objectId] else FRESH) && (f.objectId !in p ==> |p| < maxPending)
    requires pm.received < maxFragments && f.fragmentId !in pm.fragments && f.fragmentId <= MAX_INT64 - 1
    requires pm' == pm.(fragments := pm.fragments[f.fragmentId := f.data], received := pm.received + 1,
                        total := if f.end then f.fragmentId + 1 else pm.total)
    ensures AddTo(p, maxPending, maxFragments, f)
            == if pm'.total > 0 && pm'.received == pm'.total
                then (Complete(Joined(pm'.fragments, 0, pm'.total)), p - {f.objectId})
               else (Incomplete, p[f.objectId := pm'])
  {
  }

  /** The entries of the other messages, and which messages are in flight. */
  lemma OthersTrack(p: Pending, p': Pending, msgs: map<uint64, Message>, hist: seq<Fragment>, f: Fragment)
    requires AllSendable(msgs) && Tracks(p, msgs, hist) && f.objectId in msgs
    requires forall id :: id != f.objectId ==> (id in p' <==> id in p) && (id in p ==> p'[id] == p[id])
    requires f.objectId in p' <==> !AllArrived(hist + [f], f.objectId, msgs[f.objectId])
    requires f.objectId in p' ==>
               EntryTracks(p'[f.objectId], Cut(f.objectId, msgs[f.objectId]), Arrived(hist + [f], f.objectId))
    ensures Tracks(p', msgs, hist + [f])
  {
    KeysTrack(p, p', msgs, hist, f);
    EntriesTrack(p, p', msgs, hist, f);
  }

  lemma KeysTrack(p: Pending, p': Pending, msgs: map<uint64, Message>, hist: seq<Fragment>, f: Fragment)
    requires AllSendable(msgs) && p.Keys == InFlight(msgs, hist) && f.objectId in msgs
    requires forall id :: id != f.objectId ==> (id in p' <==> id in p)
    requires f.objectId in p' <==> !AllArrived(hist + [f], f.objectId, msgs[f.objectId])
    ensures p'.Keys == InFlight(msgs, hist + [f])
  {
    forall id ensures id in p' <==> id in InFlight(msgs, hist + [f]) {
      if id == f.objectId {
        OwnInFlight(msgs, hist, f);
      } else {
        OtherInFlight(msgs, hist, f, id);
      }
    }
  }

  lemma EntriesTrack(p: Pending, p': Pending, msgs: map<uint64, Message>, hist: seq<Fragment>, f: Fragment)
    requires AllSendable(msgs) && f.objectId in msgs && (forall id :: id in p' ==> id in msgs)
    requires forall id :: id in p ==> id in msgs && EntryTracks(p[id], Cut(id, msgs[id]), Arrived(hist, id))
    requires forall id :: id != f.objectId ==> (id in p' <==> id in p) && (id in p ==> p'[id] == p[id])
    requires f.objectId in p' ==>
               EntryTracks(p'[f.objectId], Cut(f.objectId, msgs[f.objectId]), Arrived(hist + [f], f.objectId))
    ensures forall id :: id in p' ==> EntryTracks(p'[id], Cut(id, msgs[id]), Arrived(hist + [f], id))
  {
    forall id | id in p' ensures EntryTracks(p'[id], Cut(id, msgs[id]), Arrived(hist + [f], id)) {
      if id != f.objectId {
        ArrivedStep(hist, f, id);
      }
    }
  }

  lemma OtherInFlight(msgs: map<uint64, Message>, hist: seq<Fragment>, f: Fragment, id: uint64)
    requires AllSendable(msgs) && id != f.objectId
    ensures id in InFlight(msgs, hist + [f]) <==> id in InFlight(msgs, hist)
  {
    ArrivedStep(hist, f, id);
    if id in msgs {
      assert AllArrived(hist + [f], id, msgs[id]) <==> AllArrived(hist, id, msgs[id]);
    }
  }

  lemma OwnInFlight(msgs: map<uint64, Message>, hist: seq<Fragment>, f: Fragment)
    requires AllSendable(msgs) && f.objectId in msgs
    ensures f.objectId in InFlight(msgs, hist + [f]) <==> !AllArrived(hist + [f], f.objectId, msgs[f.objectId])
  {
    ArrivedStep(hist, f, f.objectId);
    assert f.fragmentId in Arrived(hist + [f], f.objectId);
  }

  /**
   Fragments of any messages with distinct ids, arriving in any order and interleaving, with copies
   before completion: every outcome is the one due, and what is pending is what has arrived of the
   messages in flight.
   */
  lemma {:induction false} FeedTracks(msgs: map<uint64, Message>, hist: seq<Fragment>, maxPending: int64,
                                      maxFragments: int64)
    requires AllSendable(msgs) && Arrivals(msgs, hist, maxPending, maxFragments)
    ensures Tracks(Feed(map[], maxPending, maxFragments, hist).1, msgs, hist)
    ensures AllDue(msgs, hist, Feed(map[], maxPending, maxFragments, hist).0)
    decreases |hist|
  {
    if hist == [] {
      assert InFlight(msgs, hist) == {};
    } else {
      var before, f := Last(msgs, hist, maxPending, maxFragments);
      FeedTracks(msgs, before, maxPending, maxFragments);
      var (rs, p) := Feed(map[], maxPending, maxFragments, before);
      FeedOne(map[], maxPending, maxFragments, before, f);
      AddTracks(p, msgs, before, f, maxPending, maxFragments);
      AllDueStep(msgs, before, f, rs, AddTo(p, maxPending, maxFragments, f).0);
    }
  }

  ghost predicate AllDue(msgs: map<uint64, Message>, hist: seq<Fragment>, rs: seq<Outcome>)
    requires AllSendable(msgs)
  {
    |rs| == |hist| && forall i :: 0 <= i < |hist| ==> hist[i].objectId in msgs && rs[i] == Due(msgs, hist[..i], hist[i])
  }

  lemma AllDueStep(msgs: map<uint64, Message>, hist: seq<Fragment>, f: Fragment, rs: seq<Outcome>, r: Outcome)
    requires AllSendable(msgs) && AllDue(msgs, hist, rs) && f.objectId in msgs && r == Due(msgs, hist, f)
    ensures AllDue(msgs, hist + [f], rs + [r])
  {
    var all := hist + [f];
    forall i | 0 <= i < |all| ensures all[i].objectId in msgs && (rs + [r])[i] == Due(msgs, all[..i], all[i]) {
      if i < |hist| {
        assert all[..i] == hist[..i];
      } else {
        assert all[..i] == hist;
      }
    }
  }

  lemma SamePrefix<T>(s: seq<T>, t: seq<T>, n: nat, i: nat)
    requires i < n <= |s| && t == s[..n]
    ensures t[..i] == s[..i] && t[i] == s[i]
  {
  }

  /** A history without its last fragment. */
  lemma Last(msgs: map<uint64, Message>, hist: seq<Fragment>, maxPending: int64, maxFragments: int64)
    returns (before: seq<Fragment>, f: Fragment)
    requires AllSendable(msgs) && Arrivals(msgs, hist, maxPending, maxFragments) && hist != []
    ensures hist == before + [f]
    ensures Arrivals(msgs, before, maxPending, maxFragments) && Arrives(msgs, before, f, maxPending, maxFragments)
  {
    var n := |hist| - 1;
    before, f := hist[..n], hist[n];
    FrontAndLast(hist, before, f);
    ArrivedBefore(msgs, hist, before, n, maxPending, maxFragments);
    ArrivedLast(msgs, hist, n, maxPending, maxFragments);
  }

  lemma FrontAndLast<T>(s: seq<T>, front: seq<T>, x: T)
    requires s != [] && front == s[..|s| - 1] && x == s[|s| - 1]
    ensures s == front + [x]
  {
  }

  lemma ArrivedLast(msgs: map<uint64, Message>, hist: seq<Fragment>, n: nat, maxPending: int64, maxFragments: int64)
    requires AllSendable(msgs) && Arrivals(msgs, hist, maxPending, maxFragments) && n < |hist|
    ensures Arrives(msgs, hist[..n], hist[n], maxPending, maxFragments)
  {
  }

  lemma ArrivedBefore(msgs: map<uint64, Message>, hist: seq<Fragment>, before: seq<Fragment>, n: nat, maxPending: int64,
                      maxFragments: int64)
    requires AllSendable(msgs) && Arrivals(msgs, hist, maxPending, maxFragments) && n <= |hist| && before == hist[..n]
    ensures Arrivals(msgs, before, maxPending, maxFragments)
  {
    forall i | 0 <= i < n ensures Arrives(msgs, before[..i], before[i], maxPending, maxFragments) {
      ArrivedThen(msgs, hist, before, n, i, maxPending, maxFragments);
    }
  }

  lemma ArrivedThen(msgs: map<uint64, Message>, hist: seq<Fragment>, before: seq<Fragment>, n: nat, i: nat,
                    maxPending: int64, maxFragments: int64)
    requires AllSendable(msgs) && i < n <= |hist| && before == hist[..n]
    requires Arrives(msgs, hist[..i], hist[i], maxPending, maxFragments)
    ensures Arrives(msgs, before[..i], before[i], maxPending, maxFragments)
  {
    SamePrefix(hist, before, n, i);
  }

  /** Once every fragment of every message has arrived, nothing is pending. */
  lemma NothingPending(msgs: map<uint64, Message>, hist: seq<Fragment>, maxPending: int64, maxFragments: int64)
    requires AllSendable(msgs) && Arrivals(msgs, hist, maxPending, maxFragments)
    requires forall id :: id in msgs ==> AllArrived(hist, id, msgs[id])
    ensures Feed(map[], maxPending, maxFragments, hist).1 == map[]
  {
    FeedTracks(msgs, hist, maxPending, maxFragments);
    assert InFlight(msgs, hist) == {};
  }

  lemma ArrivedGrows(hist: seq<Fragment>, i: nat, id: uint64)
    requires i <= |hist|
    ensures Arrived(hist[..i], id) <= Arrived(hist, id)
  {
    assert forall f :: f in hist[..i] ==> f in hist;
  }

  /** A message whose fragments have all arrived was delivered by exactly one of them. */
  lemma {:induction false} DeliveredOnce(msgs: map<uint64, Message>, hist: seq<Fragment>, id: uint64, maxPending: int64,
                                         maxFragments: int64)
    returns (i: nat)
    requires AllSendable(msgs) && Arrivals(msgs, hist, maxPending, maxFragments)
    requires id in msgs && AllArrived(hist, id, msgs[id])
    ensures i < |hist| && hist[i].objectId == id
    ensures var rs := Feed(map[], maxPending, maxFragments, hist).0;
            && rs[i] == Complete(msgs[id].data)
            && forall j :: 0 <= j < |hist| && j != i && hist[j].objectId == id ==> !rs[j].Complete?
    decreases |hist|
  {
    FeedTracks(msgs, hist, maxPending, maxFragments);
    i := CompletedBy(msgs, hist, id, maxPending, maxFragments);
    forall j | 0 <= j < |hist| && j != i && hist[j].objectId == id
      ensures !Feed(map[], maxPending, maxFragments, hist).0[j].Complete?
    {
      NotCompleteBefore(msgs, hist, i, j, id);
    }
  }

  /** Before the arrival that completes a message, no other does. */
  lemma NotCompleteBefore(msgs: map<uint64, Message>, hist: seq<Fragment>, i: nat, j: nat, id: uint64)
    requires AllSendable(msgs) && j < i < |hist| && hist[j].objectId == id && id in msgs
    requires !AllArrived(hist[..i], id, msgs[id])
    ensures !Due(msgs, hist[..j], hist[j]).Complete?
  {
    var j1 := j + 1;
    assert hist[..j1] == hist[..j] + [hist[j]];
    ArrivedBetween(hist, j1, i, id);
  }

  lemma ArrivedBetween(hist: seq<Fragment>, i: nat, j: nat, id: uint64)
    requires i <= j <= |hist|
    ensures Arrived(hist[..i], id) <= Arrived(hist[..j], id)
  {
    assert hist[..j][..i] == hist[..i];
    ArrivedGrows(hist[..j], i, id);
  }

  /** With hist[i] a message is complete for the first time, and none of it comes later. */
  ghost predicate CompletesAt(msgs: map<uint64, Message>, hist: seq<Fragment>, i: nat, id: uint64)
    requires AllSendable(msgs)
  {
    && id in msgs && i < |hist| && hist[i].objectId == id && hist[i].fragmentId !in Arrived(hist[..i], id)
    && !AllArrived(hist[..i], id, msgs[id]) && AllArrived(hist[..i] + [hist[i]], id, msgs[id])
    && forall j :: i < j < |hist| ==> hist[j].objectId != id
  }

  lemma CompletesAtStill(msgs: map<uint64, Message>, before: seq<Fragment>, f: Fragment, i: nat, id: uint64)
    requires AllSendable(msgs) && CompletesAt(msgs, before, i, id) && f.objectId != id
    ensures CompletesAt(msgs, before + [f], i, id)
  {
    assert (before + [f])[..i] == before[..i];
  }

  lemma CompletesAtEnd(msgs: map<uint64, Message>, before: seq<Fragment>, f: Fragment, id: uint64)
    requires AllSendable(msgs) && id in msgs && !AllArrived(before, id, msgs[id])
    requires AllArrived(before + [f], id, msgs[id])
    ensures CompletesAt(msgs, before + [f], |before|, id)
  {
    ArrivedStep(before, f, id);
    assert (before + [f])[..|before|] == before;
  }

  lemma {:induction false} CompletedBy(msgs: map<uint64, Message>, hist: seq<Fragment>, id: uint64, maxPending: int64,
                                       maxFragments: int64)
    returns (i: nat)
    requires AllSendable(msgs) && Arrivals(msgs, hist, maxPending, maxFragments)
    requires id in msgs && AllArrived(hist, id, msgs[id])
    ensures CompletesAt(msgs, hist, i, id)
    decreases |hist|
  {
    assert 0 in Arrived(hist, id);
    if hist == [] {
      assert false;
    }
    var before, f := Last(msgs, hist, maxPending, maxFragments);
    if AllArrived(before, id, msgs[id]) {
      i := CompletedBy(msgs, before, id, maxPending, maxFragments);
      CompletesAtStill(msgs, before, f, i, id);
    } else {
      i := |before|;
      CompletesAtEnd(msgs, before, f, id);
    }
  }
}
