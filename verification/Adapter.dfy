/**
 The adapter between the OutOfProcess transport and the runspace pool: a background loop receives
 packets, acknowledges them and queues their data, while Read takes bytes off the queue.
 */
module Adapter {
  import opened Wrappers
  import opened Bytes
  import Guid
  import OutOfProc

  const DATA_ACK: seq<byte> := Ascii("DataAck")
  const CLOSE: seq<byte> := Ascii("Close")
  const CLOSE_ACK: seq<byte> := Ascii("CloseAck")
  const SIGNAL: seq<byte> := Ascii("Signal")
  const SIGNAL_ACK: seq<byte> := Ascii("SignalAck")

  /**
   Where the background loop stands: before the next packet, between the acknowledgement of a Data
   packet and the queueing of its data, on its way out, or gone.
   */
  datatype Loop = Running | Queueing(data: seq<byte>) | Leaving | Gone

  datatype Ack = Ack(name: seq<byte>, psGuid: Guid.Guid)

  /**
   `acks`, `handled` and `returned` record what was acknowledged, which packets were received and
   which bytes Read has returned, in order.
   */
  datatype State = State(
    input: seq<byte>,
    loop: Loop,
    pending: seq<seq<byte>>,
    closed: bool,
    readErr: Option<OutOfProc.Error>,
    cancelled: bool,
    acks: seq<Ack>,
    handled: seq<OutOfProc.Packet>,
    returned: seq<byte>)

  function Initial(input: seq<byte>): State {
    State(input, Running, [], false, None, false, [], [], [])
  }

  /** The steps that other goroutines cannot divide: one of the loop, one Read with room for n bytes, or Close. */
  datatype Event = LoopStep | LoopSeesCancel | Read(n: nat) | Cancel

  /** Waiting covers a Read that goes on waiting, times out, or is cancelled: it takes nothing. */
  datatype ReadResult = Got(bytes: seq<byte>) | Failed(error: OutOfProc.Error) | Eof | Waiting

  function ReadOutcome(s: State, n: nat): ReadResult {
    if s.pending != [] then Got(if n <= |s.pending[0]| then s.pending[0][..n] else s.pending[0])
    else if s.readErr.Some? then Failed(s.readErr.value)
    else if s.closed then Eof
    else Waiting
  }

  /** The name of the packet that answers p, if p wants an answer. */
  function AckName(p: OutOfProc.Packet): (name: Option<seq<byte>>)
    ensures name.Some? ==> |name.value| > |OutOfProc.DATA|
  {
    if p.packetType == OutOfProc.DATA then Some(DATA_ACK)
    else if p.packetType == CLOSE then Some(CLOSE_ACK)
    else if p.packetType == SIGNAL then Some(SIGNAL_ACK)
    else None
  }

  /** The acknowledgement due for a packet, under its own GUID. */
  function AckFor(p: OutOfProc.Packet): seq<Ack> {
    if p.packetType == Ascii("Data") then [Ack(Ascii("DataAck"), p.psGuid)]
    else if p.packetType == Ascii("Close") then [Ack(Ascii("CloseAck"), p.psGuid)]
    else if p.packetType == Ascii("Signal") then [Ack(Ascii("SignalAck"), p.psGuid)]
    else []
  }

  function Apply(s: State, e: Event): State {
    match e
    case Cancel => s.(cancelled := true)
    case LoopSeesCancel => if s.loop == Running && s.cancelled then s.(loop := Leaving) else s
    case Read(n) =>
      if s.pending == [] then s
      else if n >= |s.pending[0]| then s.(pending := s.pending[1..], returned := s.returned + s.pending[0])
      else s.(pending := [s.pending[0][n..]] + s.pending[1..], returned := s.returned + s.pending[0][..n])
    case LoopStep =>
      match s.loop
      case Gone => s
      case Leaving => s.(loop := Gone, closed := true)
      case Queueing(data) => s.(loop := Running, pending := s.pending + [data])
      case Running =>
        var x := OutOfProc.Receive(s.input);
        match x.r
        case Err(e) => s.(input := x.rest, readErr := Some(e), loop := Leaving)
        case Ok(p) =>
          s.(input := x.rest, handled := s.handled + [p], acks := s.acks + AckFor(p),
             loop := if p.packetType == OutOfProc.DATA then Queueing(p.data) else Running)
  }

  class Adapter {
    const transport: OutOfProc.Transport
    var loop: Loop
    var pending: seq<seq<byte>>
    var closed: bool
    var readErr: Option<OutOfProc.Error>
    var cancelled: bool
    ghost var acks: seq<Ack>
    ghost var handled: seq<OutOfProc.Packet>
    ghost var returned: seq<byte>

    ghost function Now(): State
      reads this, transport
    {
      State(transport.input, loop, pending, closed, readErr, cancelled, acks, handled, returned)
    }

    constructor (t: OutOfProc.Transport)
      ensures transport == t && Now() == Initial(t.input)
    {
      transport := t;
      loop, pending, closed, readErr, cancelled := Running, [], false, None, false;
      acks, handled, returned := [], [], [];
    }

    method Cancel()
      modifies this
      ensures Now() == Apply(old(Now()), Event.Cancel)
    {
      cancelled := true;
    }

    /** The check of the context between two packets. */
    method LoopSeesCancel()
      modifies this
      ensures Now() == Apply(old(Now()), Event.LoopSeesCancel)
    {
      if loop == Running && cancelled {
        loop := Leaving;
      }
    }

    /** The next step of readLoop; an acknowledgement is printed to the transport at once. */
    method LoopStep()
      modifies this, transport
      ensures Now() == Apply(old(Now()), Event.LoopStep)
      ensures old(acks) <= acks && transport.output == old(transport.output) + AckBytes(acks[|old(acks)|..])
    {
      match loop {
        case Gone =>
        case Leaving =>
          loop, closed := Gone, true;
        case Queueing(data) =>
          loop, pending := Running, pending + [data];
        case Running => TakePacket();
      }
    }

    /** Between two packets: the next one is received and, where it wants that, acknowledged. */
    method TakePacket()
      requires loop == Running
      modifies this, transport
      ensures Now() == Apply(old(Now()), Event.LoopStep)
      ensures old(acks) <= acks && transport.output == old(transport.output) + AckBytes(acks[|old(acks)|..])
    {
      var packet := transport.ReceivePacket();
      if packet.Err? {
        readErr, loop := Some(packet.error), Leaving;
        return;
      }
      HandlePacket(packet.value);
    }

    /** A packet just received: its data is held, and it is acknowledged where it wants that. */
    method HandlePacket(p: OutOfProc.Packet)
      requires loop == Running
      modifies this, transport`output
      ensures handled == old(handled) + [p] && acks == old(acks) + AckFor(p)
      ensures loop == if p.packetType == OutOfProc.DATA then Queueing(p.data) else Running
      ensures pending == old(pending) && closed == old(closed) && readErr == old(readErr)
      ensures cancelled == old(cancelled) && returned == old(returned)
      ensures transport.output == old(transport.output) + AckBytes(AckFor(p))
    {
      handled := handled + [p];
      if p.packetType == OutOfProc.DATA {
        loop := Queueing(p.data);
      }
      var name := AckName(p);
      if name.Some? {
        Acknowledge(name.value, p.psGuid);
      }
    }

    method Acknowledge(name: seq<byte>, g: Guid.Guid)
      requires |name| > |OutOfProc.DATA|
      modifies this`acks, transport`output
      ensures acks == old(acks) + [Ack(name, g)] && acks[|old(acks)|..] == [Ack(name, g)]
      ensures transport.output == old(transport.output) + AckBytes([Ack(name, g)])
    {
      transport.SendPlain(name, g);
      acks := acks + [Ack(name, g)];
      assert [Ack(name, g)][1..] == [];
    }

    /** Read with room for n bytes. */
    method Read(n: nat) returns (r: ReadResult)
      modifies this
      ensures r == ReadOutcome(old(Now()), n) && Now() == Apply(old(Now()), Event.Read(n))
    {
      if pending != [] {
        var k := if n <= |pending[0]| then n else |pending[0]|;
        var bytes := pending[0][..k];
        returned := returned + bytes;
        if k == |pending[0]| {
          assert bytes == pending[0];
          pending := pending[1..];
        } else {
          pending := pending[0 := pending[0][k..]];
          assert pending == [old(pending)[0][k..]] + old(pending)[1..];
        }
        return Got(bytes);
      }
      if readErr.Some? {
        return Failed(readErr.value);
      }
      if closed {
        return Eof;
      }
      r := Waiting;
    }
  }

  /** What a list of acknowledgements looks like on the wire. */
  function AckBytes(acks: seq<Ack>): seq<byte> {
    if acks == [] then []
    else
      OutOfProc.Line(OutOfProc.Packet(acks[0].name, acks[0].psGuid, OutOfProc.DEFAULT, []))
        + [0x0A] + AckBytes(acks[1..])
  }

  // ---------- every interleaving ----------

  function Run(s: State, events: seq<Event>): State {
    if events == [] then s else Apply(Run(s, events[..|events| - 1]), events[|events| - 1])
  }

  function Flatten(bufs: seq<seq<byte>>): seq<byte> {
    if bufs == [] then [] else bufs[0] + Flatten(bufs[1..])
  }

  /** The data of the Data packets, in order. */
  function Payloads(ps: seq<OutOfProc.Packet>): seq<byte> {
    if ps == [] then []
    else Payloads(ps[..|ps| - 1]) + (if ps[|ps| - 1].packetType == OutOfProc.DATA then ps[|ps| - 1].data else [])
  }

  function Acks(ps: seq<OutOfProc.Packet>): seq<Ack> {
    if ps == [] then [] else Acks(ps[..|ps| - 1]) + AckFor(ps[|ps| - 1])
  }

  /** Data acknowledged but not queued yet. */
  function Held(s: State): seq<byte> {
    if s.loop.Queueing? then s.loop.data else []
  }

  /** The packets ps are those at the front of input, and rest follows them. */
  ghost predicate ReceivedFrom(input: seq<byte>, ps: seq<OutOfProc.Packet>, rest: seq<byte>) {
    OutOfProc.ReceiveMany(|ps|, input) == (Ok(ps), rest)
  }

  lemma {:induction false} FlattenSnoc(bufs: seq<seq<byte>>, b: seq<byte>)
    ensures Flatten(bufs + [b]) == Flatten(bufs) + b
  {
    if bufs == [] {
      assert [b][1..] == [];
    } else {
      assert (bufs + [b])[1..] == bufs[1..] + [b];
      FlattenSnoc(bufs[1..], b);
    }
  }

  lemma ReceivedSnoc(input: seq<byte>, ps: seq<OutOfProc.Packet>, rest: seq<byte>, n: nat)
    requires ReceivedFrom(input, ps, rest) && n == |ps| + 1
    ensures match OutOfProc.Receive(rest).r
            case Ok(p) => ReceivedFrom(input, ps + [p], OutOfProc.Receive(rest).rest)
            case Err(e) => OutOfProc.ReceiveMany(n, input).0 == Err(e)
  {
    OutOfProc.ReceiveManySnoc(|ps|, n, input);
  }

  /** What has been returned, what is queued and what is about to be: the data of the packets received. */
  ghost predicate Conserved(s: State) {
    s.returned + Flatten(s.pending) + Held(s) == Payloads(s.handled)
  }

  /** Where the loop stands in the input. */
  ghost predicate OnTrack(s: State, input: seq<byte>) {
    && (s.loop == Running || s.loop.Queueing? ==> ReceivedFrom(input, s.handled, s.input) && s.readErr.None?)
    && OutOfProc.ReceiveMany(|s.handled|, input).0 == Ok(s.handled)
    && (s.readErr.Some? ==> OutOfProc.ReceiveMany(|s.handled| + 1, input).0 == Err(s.readErr.value))
    && (s.closed <==> s.loop == Gone)
    && (s.readErr.None? && (s.loop == Leaving || s.loop == Gone) ==> s.cancelled)
  }

  /** What every step keeps. */
  ghost predicate Sound(s: State, input: seq<byte>) {
    Conserved(s) && s.acks == Acks(s.handled) && OnTrack(s, input)
  }

  lemma ApplyKeepsSound(s: State, e: Event, input: seq<byte>)
    requires Sound(s, input)
    ensures Sound(Apply(s, e), input)
  {
    match e
    case Cancel =>
    case LoopSeesCancel =>
    case Read(n) =>
      ReadConserves(s.returned, s.pending, n, Apply(s, e).returned, Apply(s, e).pending);
    case LoopStep =>
      match s.loop
      case Gone =>
      case Leaving =>
      case Queueing(data) => QueueingConserves(s, data);
      case Running => ReceivingKeepsSound(s, input);
  }

  lemma ReadConserves(a: seq<byte>, bufs: seq<seq<byte>>, n: nat, a': seq<byte>, bufs': seq<seq<byte>>)
    requires if bufs == [] then a' == a && bufs' == bufs
             else if n >= |bufs[0]| then a' == a + bufs[0] && bufs' == bufs[1..]
             else a' == a + bufs[0][..n] && bufs' == [bufs[0][n..]] + bufs[1..]
    ensures a' + Flatten(bufs') == a + Flatten(bufs)
  {
    if bufs != [] {
      var first, later := bufs[0], Flatten(bufs[1..]);
      if n >= |first| {
        assert a + first + later == a + (first + later);
      } else {
        assert bufs'[1..] == bufs[1..];
        assert first[..n] + (first[n..] + later) == first + later;
        assert a + first[..n] + (first[n..] + later) == a + (first[..n] + (first[n..] + later));
      }
    }
  }

  lemma QueueingConserves(s: State, data: seq<byte>)
    requires s.loop == Queueing(data) && Conserved(s)
    ensures Conserved(s.(loop := Running, pending := s.pending + [data]))
  {
    FlattenSnoc(s.pending, data);
    var all := Flatten(s.pending + [data]);
    assert s.returned + all + [] == s.returned + Flatten(s.pending) + data;
  }

  lemma ReceivingKeepsSound(s: State, input: seq<byte>)
    requires s.loop == Running && Sound(s, input)
    ensures Sound(Apply(s, LoopStep), input)
  {
    var n := |s.handled| + 1;
    ReceivedSnoc(input, s.handled, s.input, n);
    var x := OutOfProc.Receive(s.input);
    if x.r.Ok? {
      assert (s.handled + [x.r.value])[..|s.handled|] == s.handled;
      var queued := s.returned + Flatten(s.pending);
      assert queued + [] == queued;
    }
  }

  /**
   In every interleaving of the loop, Reads of any sizes and Close: the bytes returned so far and
   those still queued are the data of the packets received, in order; each Data, Close and Signal
   packet has been acknowledged once, in order, under its own GUID; and the packets are those of the input.
   */
  lemma {:induction false} EveryRunSound(input: seq<byte>, events: seq<Event>)
    ensures Sound(Run(Initial(input), events), input)
    decreases |events|
  {
    if events == [] {
      assert Flatten([]) == [] && Payloads([]) == [] && Acks([]) == [];
    } else {
      EveryRunSound(input, events[..|events| - 1]);
      ApplyKeepsSound(Run(Initial(input), events[..|events| - 1]), events[|events| - 1], input);
    }
  }

  /** A Read reports the end or an error only when everything received has been returned. */
  lemma EndOnlyWhenDrained(input: seq<byte>, events: seq<Event>, n: nat)
    ensures EndsDrained(Run(Initial(input), events), input, n)
  {
    EveryRunSound(input, events);
    SoundEnd(Run(Initial(input), events), input, n);
  }

  /** If a Read now ends, all data received has been returned; an error is that of the packet after those received. */
  ghost predicate EndsDrained(s: State, input: seq<byte>, n: nat) {
    var r := ReadOutcome(s, n);
    && (r.Eof? || r.Failed? ==> s.returned == Payloads(s.handled) && s.pending == [])
    && (r.Eof? ==> s.cancelled)
    && (r.Failed? ==> OutOfProc.ReceiveMany(|s.handled| + 1, input).0 == Err(r.error))
  }

  lemma SoundEnd(s: State, input: seq<byte>, n: nat)
    requires Sound(s, input)
    ensures EndsDrained(s, input, n)
  {
    assert s.pending == [] ==> s.returned + [] + [] == s.returned;
  }

  /** As many packets as the input holds: fewer are those at its front. */
  lemma {:induction false} ReceiveFewer(k: nat, n: nat, input: seq<byte>)
    requires k <= n && OutOfProc.ReceiveMany(n, input).0.Ok?
    ensures OutOfProc.ReceiveMany(k, input).0.Ok?
    decreases n
  {
    if k > 0 {
      var k1, n1 := k - 1, n - 1;
      ReceiveFewer(k1, n1, OutOfProc.Receive(input).rest);
    }
  }

  /** Once the loop has met the end of the printed packets, it has received and acknowledged them all. */
  lemma AllHandled(junk: seq<seq<byte>>, ps: seq<OutOfProc.Packet>, events: seq<Event>)
    requires |junk| == |ps| && forall i :: 0 <= i < |ps| ==> OutOfProc.Printable(ps[i]) && OutOfProc.LT !in junk[i]
    requires Run(Initial(OutOfProc.Input(junk, ps)), events).readErr.Some?
    ensures var s := Run(Initial(OutOfProc.Input(junk, ps)), events);
            s.handled == ps && s.acks == Acks(ps) && s.readErr == Some(OutOfProc.EndOfInput)
  {
    var input := OutOfProc.Input(junk, ps);
    var s := Run(Initial(input), events);
    EveryRunSound(input, events);
    OutOfProc.PacketsRoundTrip(junk, ps, []);
    assert input + [] == input;
    var k, k1, m := |s.handled|, |s.handled| + 1, |ps| + 1;
    ReceivedSnoc(input, ps, [], m);
    assert OutOfProc.Receive([]).r == Err(OutOfProc.EndOfInput);
    if k < |ps| {
      ReceiveFewer(k1, |ps|, input);
      assert false;
    } else if k > |ps| {
      ReceiveFewer(m, k, input);
      assert false;
    }
  }

  /**
   From the printed packets to the reader: when a Read first reports the end of the input, all
   packets have been received and acknowledged, and exactly their data has been returned.
   */
  lemma DrainedMeansDelivered(junk: seq<seq<byte>>, ps: seq<OutOfProc.Packet>, events: seq<Event>, n: nat)
    requires |junk| == |ps| && forall i :: 0 <= i < |ps| ==> OutOfProc.Printable(ps[i]) && OutOfProc.LT !in junk[i]
    requires ReadOutcome(Run(Initial(OutOfProc.Input(junk, ps)), events), n).Failed?
    ensures var s := Run(Initial(OutOfProc.Input(junk, ps)), events);
            s.handled == ps && s.returned == Payloads(ps) && s.acks == Acks(ps)
                && s.readErr == Some(OutOfProc.EndOfInput)
  {
    EndOnlyWhenDrained(OutOfProc.Input(junk, ps), events, n);
    AllHandled(junk, ps, events);
  }

  // ---------- progress ----------

  function LoopSteps(events: seq<Event>): nat {
    if events == [] then 0 else LoopSteps(events[..|events| - 1]) + (if events[|events| - 1].LoopStep? then 1 else 0)
  }

  /** Reads with room for at least one byte. */
  function Reads(events: seq<Event>): nat {
    if events == [] then 0
    else
      var e := events[|events| - 1];
      Reads(events[..|events| - 1]) + (if e.Read? && e.n >= 1 then 1 else 0)
  }

  predicate NeverCancelled(events: seq<Event>) {
    Cancel !in events
  }

  /** How many steps the loop can still take. */
  function StepsLeft(s: State): nat {
    match s.loop
    case Running => 2 * |s.input| + 2
    case Queueing(_) => 2 * |s.input| + 3
    case Leaving => 1
    case Gone => 0
  }

  /** How many Reads it takes at most to empty the queue. */
  function Queued(s: State): nat {
    |Flatten(s.pending)| + |s.pending|
  }

  lemma OneStep(s: State, e: Event)
    requires !s.cancelled && e != Cancel
    ensures var s' := Apply(s, e);
            && !s'.cancelled
            && (if e == LoopStep then StepsLeft(s') < StepsLeft(s) || StepsLeft(s') == StepsLeft(s) == 0
                else StepsLeft(s') == StepsLeft(s))
  {
    if e == LoopStep && s.loop == Running {
      OutOfProc.ReceiveTakes(s.input);
    }
  }

  /** Every step of the loop counts, whatever goes on around it. */
  lemma {:induction false} LoopAdvances(s: State, events: seq<Event>)
    requires !s.cancelled && NeverCancelled(events)
    ensures !Run(s, events).cancelled
    ensures StepsLeft(Run(s, events)) + LoopSteps(events) <= StepsLeft(s) || StepsLeft(Run(s, events)) == 0
    decreases |events|
  {
    if events != [] {
      var before, e := events[..|events| - 1], events[|events| - 1];
      assert e in events && NeverCancelled(before);
      LoopAdvances(s, before);
      OneStep(Run(s, before), e);
    }
  }

  /** At most one buffer for each packet. */
  lemma {:induction false} FewBuffers(input: seq<byte>, events: seq<Event>)
    ensures var s := Run(Initial(input), events);
            |s.pending| + (if s.loop.Queueing? then 1 else 0) <= |s.handled|
    decreases |events|
  {
    if events != [] {
      FewBuffers(input, events[..|events| - 1]);
    }
  }

  lemma OneRead(s: State, e: Event)
    requires s.loop == Gone
    ensures var s' := Apply(s, e);
            && s'.loop == Gone && s'.readErr == s.readErr && Queued(s') <= Queued(s)
            && (e.Read? && e.n >= 1 ==> Queued(s') < Queued(s) || s'.pending == [])
  {
    if e.Read? && s.pending != [] {
      var first, later := s.pending[0], s.pending[1..];
      if e.n < |first| {
        var s' := Apply(s, e);
        assert s'.pending[1..] == later;
        assert Flatten(s'.pending) == first[e.n..] + Flatten(later);
      }
    }
  }

  /** With the loop gone, every Read counts. */
  lemma {:induction false} ReadsDrain(s: State, events: seq<Event>)
    requires s.loop == Gone
    ensures var s' := Run(s, events);
            s'.loop == Gone && s'.readErr == s.readErr && (Queued(s') + Reads(events) <= Queued(s) || s'.pending == [])
    decreases |events|
  {
    if events != [] {
      var before, e := events[..|events| - 1], events[|events| - 1];
      ReadsDrain(s, before);
      OneRead(Run(s, before), e);
    }
  }

  lemma {:induction false} RunJoins(s: State, a: seq<Event>, b: seq<Event>)
    ensures Run(s, a + b) == Run(Run(s, a), b)
    decreases |b|
  {
    if b == [] {
      assert a + b == a;
    } else {
      var n := |b| - 1;
      RunJoins(s, a, b[..n]);
      assert (a + b)[..|a + b| - 1] == a + b[..n];
    }
  }

  /** Without a Close, 2 * |input| + 2 steps of the loop bring it to its end, with an error of the transport. */
  lemma LoopEnds(input: seq<byte>, events: seq<Event>)
    requires NeverCancelled(events) && LoopSteps(events) >= 2 * |input| + 2
    ensures var s := Run(Initial(input), events); s.loop == Gone && s.readErr.Some?
  {
    LoopAdvances(Initial(input), events);
    EveryRunSound(input, events);
  }

  /**
   Progress: whatever the interleaving, without a Close, after so many steps of the loop and then as
   many Reads as there are packets and bytes of data, the next Read reports the end of the input, and
   by then all packets have been acknowledged and exactly their data has been returned.
   */
  lemma EverythingArrives(junk: seq<seq<byte>>, ps: seq<OutOfProc.Packet>, events: seq<Event>, more: seq<Event>, n: nat)
    requires |junk| == |ps| && forall i :: 0 <= i < |ps| ==> OutOfProc.Printable(ps[i]) && OutOfProc.LT !in junk[i]
    requires NeverCancelled(events) && LoopSteps(events) >= 2 * |OutOfProc.Input(junk, ps)| + 2
    requires Reads(more) >= |Payloads(ps)| + |ps|
    ensures var s := Run(Initial(OutOfProc.Input(junk, ps)), events + more);
            && ReadOutcome(s, n) == Failed(OutOfProc.EndOfInput)
            && s.handled == ps && s.returned == Payloads(ps) && s.acks == Acks(ps)
  {
    var input := OutOfProc.Input(junk, ps);
    LoopEnds(input, events);
    AllHandled(junk, ps, events);
    FewBuffers(input, events);
    EveryRunSound(input, events);
    ReadsDrain(Run(Initial(input), events), more);
    RunJoins(Initial(input), events, more);
    var s := Run(Initial(input), events + more);
    assert Queued(s) == 0 ==> s.pending == [];
    DrainedMeansDelivered(junk, ps, events + more, n);
  }
}
