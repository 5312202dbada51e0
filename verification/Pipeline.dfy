/** Pipelines: their state, their completion, and the streams that deliver the server's messages. */
module Pipeline {
  import opened Wrappers
  import opened Bytes
  import opened Clixml
  import M = Messages
  import Guid

  datatype PipelineState = NotStarted | Running | Stopping | Stopped | Completed | Failed | Disconnected

  predicate Terminal(s: PipelineState) {
    s == Completed || s == Failed || s == Stopped || s == Disconnected
  }

  /** Why a pipeline failed. */
  datatype Failure = BadStateMessage | OnServer(cause: Option<Value>) | Reported(text: Str)

  datatype Stream = Output | Errors | Warnings | Verbose | Debug | Progress | Information

  const STREAMS: set<Stream> := {Output, Errors, Warnings, Verbose, Debug, Progress, Information}

  /** What a state message comes to. */
  datatype Announced = Unreadable | NoState | Number(n: int32, cause: Option<Value>)

  const PIPELINE_STATE_NAME: Str := Ascii("PipelineState")
  const EXCEPTION_NAME: Str := Ascii("ExceptionAsErrorRecord")
  const CAPACITY := 100

  /** The channels' closings are counted; `taken` is what consumers have received from each stream. */
  datatype State = State(
    state: PipelineState,
    err: Option<Failure>,
    doneCloses: nat,
    closes: map<Stream, nat>,
    cancelled: bool,
    buffered: map<Stream, seq<M.Message>>,
    taken: map<Stream, seq<M.Message>>)

  function NoMessages(): map<Stream, seq<M.Message>> {
    map k: Stream | k in STREAMS :: []
  }

  function NoCloses(): map<Stream, nat> {
    map k: Stream | k in STREAMS :: 0
  }

  function Initial(s: PipelineState): State {
    State(s, None, 0, NoCloses(), false, NoMessages(), NoMessages())
  }

  /** The stream a message type goes to. */
  function StreamOf(t: uint32): Option<Stream> {
    if t == M.PIPELINE_OUTPUT then Some(Output)
    else if t == M.ERROR_RECORD then Some(Errors)
    else if t == M.WARNING_RECORD then Some(Warnings)
    else if t == M.VERBOSE_RECORD then Some(Verbose)
    else if t == M.DEBUG_RECORD then Some(Debug)
    else if t == M.PROGRESS_RECORD then Some(Progress)
    else if t == M.INFORMATION_RECORD then Some(Information)
    else None
  }

  /** The message type of a stream, by its number in section 2.2.1 of MS-PSRP. */
  function TypeOf(k: Stream): uint32 {
    match k
    case Output => 0x0004_1004
    case Errors => 0x0004_1005
    case Debug => 0x0004_1007
    case Verbose => 0x0004_1008
    case Warnings => 0x0004_1009
    case Progress => 0x0004_1010
    case Information => 0x0004_1011
  }

  /** A message goes to the stream of its type, and to none if it is no stream's. */
  lemma StreamOfType(t: uint32)
    ensures forall k :: StreamOf(t) == Some(k) <==> t == TypeOf(k)
  {
  }

  /** What HandleMessage reads in the data of a state message, given what the data deserializes to. */
  function ReadState(objs: Option<(seq<Value>, Heap)>): Announced {
    match objs
    case None => Unreadable
    case Some((vs, heap)) =>
      if vs == [] then Unreadable
      else match vs[0]
        case Int32(n) => Number(n, None)
        case Obj(id) =>
          if id !in heap then NoState
          else
            var node := heap[id];
            var cause :=
              if EXCEPTION_NAME in node.members then Some(node.members[EXCEPTION_NAME])
              else if EXCEPTION_NAME in node.props then Some(node.props[EXCEPTION_NAME])
              else None;
            if Int32At(node.members, PIPELINE_STATE_NAME).Some? then
              Number(Int32At(node.members, PIPELINE_STATE_NAME).value, cause)
            else if Int32At(node.props, PIPELINE_STATE_NAME).Some? then
              Number(Int32At(node.props, PIPELINE_STATE_NAME).value, cause)
            else NoState
        case _ => NoState
  }

  /** A value among the members of an object or, where these have none that will do, among its properties. */
  predicate FoundIn(n: Node, name: Str, x: Value, numbersOnly: bool) {
    if name in n.members && (numbersOnly ==> n.members[name].Int32?) then x == n.members[name]
    else name in n.props && (numbersOnly ==> n.props[name].Int32?) && x == n.props[name]
  }

  /** The number of a state message stands alone, or under PipelineState with the cause under ExceptionAsErrorRecord. */
  lemma StateRead(vs: seq<Value>, heap: Heap, n: int32, cause: Option<Value>)
    ensures vs == [] ==> ReadState(Some((vs, heap))) == Unreadable
    ensures vs != [] && vs[0].Int32? ==> ReadState(Some((vs, heap))) == Number(vs[0].i, None)
    ensures vs != [] && vs[0].Obj? && vs[0].id in heap ==>
              var node := heap[vs[0].id];
              && (ReadState(Some((vs, heap))) == Number(n, cause) <==>
                    && FoundIn(node, Ascii("PipelineState"), Int32(n), true)
                    && if cause.Some? then FoundIn(node, Ascii("ExceptionAsErrorRecord"), cause.value, false)
                       else forall x :: !FoundIn(node, Ascii("ExceptionAsErrorRecord"), x, false))
              && (ReadState(Some((vs, heap))) == NoState <==>
                    forall i :: !FoundIn(node, Ascii("PipelineState"), Int32(i), true))
    ensures vs != [] && !vs[0].Int32? && !vs[0].Obj? ==> ReadState(Some((vs, heap))) == NoState
  {
    if vs != [] && vs[0].Obj? && vs[0].id in heap {
      CauseFound(heap[vs[0].id], EXCEPTION_NAME);
      NumberFound(heap[vs[0].id], PIPELINE_STATE_NAME);
    }
  }

  lemma CauseFound(n: Node, name: Str)
    ensures (exists x :: FoundIn(n, name, x, false)) <==> name in n.members || name in n.props
    ensures name in n.members ==> FoundIn(n, name, n.members[name], false)
    ensures name !in n.members && name in n.props ==> FoundIn(n, name, n.props[name], false)
  {
    if name in n.members {
      assert FoundIn(n, name, n.members[name], false);
    } else if name in n.props {
      assert FoundIn(n, name, n.props[name], false);
    }
  }

  lemma NumberFound(n: Node, name: Str)
    ensures Int32At(n.members, name).Some? ==> FoundIn(n, name, Int32(Int32At(n.members, name).value), true)
    ensures Int32At(n.members, name).None? && Int32At(n.props, name).Some? ==>
              FoundIn(n, name, Int32(Int32At(n.props, name).value), true)
    ensures Int32At(n.members, name).None? && Int32At(n.props, name).None? ==>
              forall i :: !FoundIn(n, name, Int32(i), true)
  {
  }

  /** The cause as it is reported: a nil exception is none. */
  function Cause(c: Option<Value>): Option<Value> {
    if c == Some(Null) then None else c
  }

  // ---------- the steps ----------

  /** What happens to a pipeline, each step undivided by the mutex or the channels. */
  datatype Event =
    | ServerState(announced: Announced)
    | Deliver(msg: M.Message)
    | Take(stream: Stream)
    | Fail(error: Failure)
    | InvokeStart
    | InvokeFails(error: Failure)
    | StopStart
    | HostCallFails(error: Failure)
    | Cancel

  /** transition. */
  function Transition(s: State, to: PipelineState, err: Option<Failure>): State {
    if s.state == to || Terminal(s.state) then s
    else
      var s' := s.(state := to, err := err);
      if Terminal(to) && s.doneCloses == 0 then
        s'.(doneCloses := 1, closes := map k | k in s.closes :: s.closes[k] + 1, cancelled := true)
      else s'
  }

  /** The server's own states 0 to 2 are taken over as they are, the others are transitions. */
  function OnState(s: State, a: Announced): State {
    match a
    case Unreadable => Transition(s, Failed, Some(BadStateMessage))
    case NoState => Transition(s, Completed, None)
    case Number(n, cause) =>
      if n == 0 then s.(state := NotStarted)
      else if n == 1 then s.(state := Running)
      else if n == 2 then s.(state := Stopping)
      else if n == 3 then Transition(s, Stopped, None)
      else if n == 4 then Transition(s, Completed, None)
      else if n == 5 then Transition(s, Failed, Some(OnServer(Cause(cause))))
      else if n == 6 then Transition(s, Disconnected, None)
      else s
  }

  function Apply(s: State, e: Event): State {
    match e
    case ServerState(a) => OnState(s, a)
    case Deliver(msg) =>
      var k := StreamOf(msg.messageType);
      if k.Some? && s.doneCloses == 0 && k.value in s.buffered && |s.buffered[k.value]| < CAPACITY then
        s.(buffered := s.buffered[k.value := s.buffered[k.value] + [msg]])
      else s
    case Take(k) =>
      if k in s.buffered && k in s.taken && s.buffered[k] != [] then
        s.(buffered := s.buffered[k := s.buffered[k][1..]], taken := s.taken[k := s.taken[k] + [s.buffered[k][0]]])
      else s
    case Fail(err) => Transition(s, Failed, Some(err))
    case InvokeStart => if s.state == NotStarted then s.(state := Running) else s
    case InvokeFails(err) => Transition(s, Failed, Some(err))
    case StopStart => if s.state == Running then s.(state := Stopping) else s
    case HostCallFails(err) => Transition(s, Failed, Some(err))
    case Cancel => s.(cancelled := true)
  }

  // ---------- the pipeline as an object ----------

  /** Panicked is the end of the program: a message was sent on a closed channel. */
  datatype Handled = Accepted | BufferFull | StateTaken | Ignored | Panicked

  class PipelineObject {
    var state: PipelineState
    var err: Option<Failure>
    var doneCloses: nat
    var closes: map<Stream, nat>
    var cancelled: bool
    var buffered: map<Stream, seq<M.Message>>
    ghost var taken: map<Stream, seq<M.Message>>
    const skipInvokeSend: bool

    ghost function Now(): State
      reads this
    {
      State(state, err, doneCloses, closes, cancelled, buffered, taken)
    }

    /** A new pipeline, or with `recovered` one that runs on the server already. */
    constructor (recovered: bool, skip: bool)
      ensures Now() == Initial(if recovered then Running else NotStarted) && skipInvokeSend == skip
    {
      state := if recovered then Running else NotStarted;
      err, doneCloses, closes, cancelled := None, 0, NoCloses(), false;
      buffered, taken, skipInvokeSend := NoMessages(), NoMessages(), skip;
    }

    /** transition. */
    method MoveTo(to: PipelineState, error: Option<Failure>)
      modifies this
      ensures Now() == Transition(old(Now()), to, error)
    {
      if state == to {
        return;
      }
      if Terminal(state) {
        return;
      }
      state := to;
      err := error;
      if Terminal(to) {
        CloseChannels();
      }
    }

    /** The part of transition that the once of the done channel guards. */
    method CloseChannels()
      modifies this`doneCloses, this`closes, this`cancelled
      ensures if old(doneCloses) == 0 then
                doneCloses == 1 && cancelled && closes == map k | k in old(closes) :: old(closes)[k] + 1
              else
                doneCloses == old(doneCloses) && closes == old(closes) && cancelled == old(cancelled)
    {
      if doneCloses == 0 {
        doneCloses := 1;
        closes := map k | k in closes :: closes[k] + 1;
        cancelled := true;
      }
    }

    method Fail(error: Failure)
      modifies this
      ensures Now() == Apply(old(Now()), Event.Fail(error))
    {
      MoveTo(Failed, Some(error));
    }

    method Cancel()
      modifies this
      ensures Now() == Apply(old(Now()), Event.Cancel)
    {
      cancelled := true;
    }

    /** What the pool's cleanup does to a pipeline. */
    method EndWith(error: Option<Failure>)
      modifies this
      ensures Now() == Apply(old(Now()), EndEvent(error))
    {
      if error.Some? {
        Fail(error.value);
      } else {
        Cancel();
      }
    }

    /** Invoke: `sent` is what became of building and sending the command. */
    method Invoke(sent: Result<(), Failure>) returns (ok: bool)
      modifies this
      ensures Now() == if old(state) == NotStarted && !skipInvokeSend && sent.Err?
                       then Apply(Apply(old(Now()), InvokeStart), InvokeFails(sent.error))
                       else Apply(old(Now()), InvokeStart)
      ensures ok <==> old(state) == NotStarted && (skipInvokeSend || sent.Ok?)
    {
      if state != NotStarted {
        return false;
      }
      state := Running;
      if skipInvokeSend {
        return true;
      }
      if sent.Err? {
        MoveTo(Failed, Some(sent.error));
        return false;
      }
      ok := true;
    }

    method Stop(sent: bool) returns (ok: bool)
      modifies this
      ensures Now() == Apply(old(Now()), StopStart) && (ok <==> old(state) == Running && sent)
    {
      if state != Running {
        return false;
      }
      state := Stopping;
      ok := sent;
    }

    /** A consumer takes the next message of a stream. */
    method Receive(k: Stream) returns (msg: Option<M.Message>)
      modifies this
      ensures Now() == Apply(old(Now()), Take(k))
      ensures msg == if k in old(buffered) && k in old(taken) && old(buffered)[k] != []
                     then Some(old(buffered)[k][0]) else None
      requires k in taken <==> k in buffered
    {
      if k !in buffered || buffered[k] == [] {
        return None;
      }
      msg := Some(buffered[k][0]);
      taken := taken[k := taken[k] + [buffered[k][0]]];
      buffered := buffered[k := buffered[k][1..]];
    }

    /**
     HandleMessage, without the host calls, which run in the background. objs is what the data
     deserializes to. A message for a stream that has been closed panics, whether or not there is room.
     */
    method HandleMessage(msg: M.Message, objs: Option<(seq<Value>, Heap)>) returns (r: Handled)
      modifies this
      ensures Now() == if msg.messageType == 0x0004_1006 then Apply(old(Now()), ServerState(ReadState(objs)))
                       else Apply(old(Now()), Deliver(msg))
      ensures r == StateTaken <==> msg.messageType == 0x0004_1006
      ensures forall k :: msg.messageType == TypeOf(k) ==>
                && (r == Panicked <==> old(doneCloses) > 0)
                && (r == BufferFull <==> old(doneCloses) == 0 && k in old(buffered) && |old(buffered)[k]| >= 100)
                && (r == Accepted <==> old(doneCloses) == 0 && k in old(buffered) && |old(buffered)[k]| < 100)
                && (r == Accepted ==> Now() == old(Now()).(buffered := old(buffered)[k := old(buffered)[k] + [msg]]))
      ensures (forall k :: msg.messageType != TypeOf(k)) ==> r == StateTaken || r == Ignored
      ensures r == Panicked || r == BufferFull || r == Ignored ==> Now() == old(Now())
    {
      var k := StreamOf(msg.messageType);
      StreamOfType(msg.messageType);
      if k.Some? {
        if doneCloses > 0 {
          return Panicked;
        }
        if k.value !in buffered {
          return Ignored;
        }
        if |buffered[k.value]| >= CAPACITY {
          return BufferFull;
        }
        buffered := buffered[k.value := buffered[k.value] + [msg]];
        return Accepted;
      }
      if msg.messageType != M.PIPELINE_STATE {
        return Ignored;
      }
      r := StateTaken;
      match ReadState(objs) {
        case Unreadable => MoveTo(Failed, Some(BadStateMessage));
        case NoState => MoveTo(Completed, None);
        case Number(n, cause) =>
          if n == 0 {
            state := NotStarted;
          } else if n == 1 {
            state := Running;
          } else if n == 2 {
            state := Stopping;
          } else if n == 3 {
            MoveTo(Stopped, None);
          } else if n == 4 {
            MoveTo(Completed, None);
          } else if n == 5 {
            MoveTo(Failed, Some(OnServer(Cause(cause))));
          } else if n == 6 {
            MoveTo(Disconnected, None);
          }
      }
    }
  }

  // ---------- what every run keeps ----------

  /** The done channel has been closed at most once, and has been whenever the state is terminal. */
  predicate ClosedWhenEnded(s: State) {
    s.doneCloses <= 1 && (Terminal(s.state) ==> s.doneCloses == 1)
  }

  /**
   All channels have been closed as often as the others, at most once; a terminal state or an error
   means closed, and closed means cancelled; each stream is within its capacity.
   */
  ghost predicate Consistent(s: State) {
    && s.closes.Keys == STREAMS && s.buffered.Keys == STREAMS && s.taken.Keys == STREAMS
    && ClosedWhenEnded(s) && (forall k :: k in STREAMS ==> s.closes[k] == s.doneCloses)
    && (s.err.Some? ==> s.doneCloses == 1)
    && (s.doneCloses == 1 ==> s.cancelled)
    && (forall k :: k in STREAMS ==> |s.buffered[k]| <= 100)
  }

  lemma ApplyKeepsConsistent(s: State, e: Event)
    requires Consistent(s)
    ensures Consistent(Apply(s, e)) && s.doneCloses <= Apply(s, e).doneCloses
  {
    if e.Deliver? || e.Take? {
      StreamStepKeepsConsistent(s, e);
    } else if e.ServerState? {
      OnStateKeepsConsistent(s, e.announced);
    } else if e.Fail? || e.InvokeFails? || e.HostCallFails? {
      TransitionKeepsConsistent(s, Failed, Some(e.error));
    }
  }

  lemma TransitionKeepsConsistent(s: State, to: PipelineState, err: Option<Failure>)
    requires Consistent(s) && Terminal(to)
    ensures Consistent(Transition(s, to, err)) && s.doneCloses <= Transition(s, to, err).doneCloses == 1
  {
  }

  lemma RawKeepsConsistent(s: State, to: PipelineState)
    requires Consistent(s) && !Terminal(to)
    ensures Consistent(s.(state := to))
  {
  }

  lemma OnStateKeepsConsistent(s: State, a: Announced)
    requires Consistent(s)
    ensures Consistent(OnState(s, a)) && s.doneCloses <= OnState(s, a).doneCloses
  {
    match a
    case Unreadable => TransitionKeepsConsistent(s, Failed, Some(BadStateMessage));
    case NoState => TransitionKeepsConsistent(s, Completed, None);
    case Number(n, cause) =>
      if n == 0 {
        RawKeepsConsistent(s, NotStarted);
      } else if n == 1 {
        RawKeepsConsistent(s, Running);
      } else if n == 2 {
        RawKeepsConsistent(s, Stopping);
      } else if n == 3 {
        TransitionKeepsConsistent(s, Stopped, None);
      } else if n == 4 {
        TransitionKeepsConsistent(s, Completed, None);
      } else if n == 5 {
        TransitionKeepsConsistent(s, Failed, Some(OnServer(Cause(cause))));
      } else if n == 6 {
        TransitionKeepsConsistent(s, Disconnected, None);
      }
  }

  lemma StreamStepKeepsConsistent(s: State, e: Event)
    requires Consistent(s) && (e.Deliver? || e.Take?)
    ensures Consistent(Apply(s, e)) && Apply(s, e).doneCloses == s.doneCloses
  {
    if e.Deliver? {
      var k := StreamOf(e.msg.messageType);
      if k.Some? {
        assert Apply(s, e).buffered.Keys == STREAMS;
      }
    } else {
      assert Apply(s, e).buffered.Keys == STREAMS && Apply(s, e).taken.Keys == STREAMS;
    }
  }

  function Run(s: State, events: seq<Event>): State {
    if events == [] then s else Apply(Run(s, events[..|events| - 1]), events[|events| - 1])
  }

  /**
   In every interleaving of server messages, Invoke, Stop, failures, cancellation and consumers, from a
   new or a recovered pipeline: the done channel and the seven streams are closed together and at
   most once, and whenever the state is terminal they are closed.
   */
  lemma {:induction false} EveryRunConsistent(start: PipelineState, events: seq<Event>)
    requires start == NotStarted || start == Running
    ensures Consistent(Run(Initial(start), events))
    decreases |events|
  {
    if events != [] {
      EveryRunConsistent(start, events[..|events| - 1]);
      ApplyKeepsConsistent(Run(Initial(start), events[..|events| - 1]), events[|events| - 1]);
    }
  }

  /** A state number that is taken over without asking whether the pipeline has ended. */
  predicate Raw(e: Event) {
    e.ServerState? && e.announced.Number? && 0 <= e.announced.n <= 2
  }

  /** An ended pipeline keeps its state and error through a step if and only if the step is not such a number. */
  lemma EndedKeptIff(s: State, e: Event)
    requires Terminal(s.state)
    ensures Apply(s, e).state == s.state && Apply(s, e).err == s.err <==> !Raw(e)
  {
  }

  lemma {:induction false} EndedStays(s: State, events: seq<Event>)
    requires Terminal(s.state) && forall i :: 0 <= i < |events| ==> !Raw(events[i])
    ensures Run(s, events).state == s.state && Run(s, events).err == s.err
    decreases |events|
  {
    if events != [] {
      var n := |events| - 1;
      EndedStays(s, events[..n]);
      EndedKeptIff(Run(s, events[..n]), events[n]);
    }
  }

  /** Otherwise it may lose them: a failed pipeline told that it runs, and then that it has completed. */
  lemma FailureForgotten(failure: Failure)
    ensures var events := [Fail(failure), ServerState(Number(1, None)), ServerState(Number(4, None))];
            var s := Run(Initial(Running), events);
            s.state == Completed && s.err == None && s.doneCloses == 1
  {
    var a, b, c := Fail(failure), ServerState(Number(1, None)), ServerState(Number(4, None));
    RunSnoc(Initial(Running), [], a);
    RunSnoc(Initial(Running), [a], b);
    RunSnoc(Initial(Running), [a, b], c);
    assert [] + [a] == [a] && [a] + [b] == [a, b] && [a, b] + [c] == [a, b, c];
  }

  lemma RunSnoc(s: State, events: seq<Event>, e: Event)
    ensures Run(s, events + [e]) == Apply(Run(s, events), e)
  {
    assert (events + [e])[..|events|] == events;
  }

  /** The number that section 2.2.3.9 of MS-PSRP gives a state. */
  function NumberOf(s: PipelineState): (n: nat)
    ensures n <= 6
  {
    match s
    case NotStarted => 0
    case Running => 1
    case Stopping => 2
    case Stopped => 3
    case Completed => 4
    case Failed => 5
    case Disconnected => 6
  }

  /**
   A state number announced to a pipeline that has not ended, or one of the raw numbers to any, becomes
   its state; a number that ends it closes everything, and only Failed leaves an error. Other numbers
   change nothing.
   */
  lemma ServerNumberTaken(s: State, n: int32, cause: Option<Value>)
    requires Consistent(s) && (!Terminal(s.state) || n <= 2)
    ensures var s' := OnState(s, Number(n, cause));
            && (0 <= n <= 6 ==> NumberOf(s'.state) == n)
            && (n < 0 || n > 6 ==> s' == s)
            && (3 <= n <= 6 ==> s'.doneCloses == 1 && s'.cancelled && (s'.err.Some? <==> n == 5))
            && (n == 5 ==> s'.err == Some(OnServer(if cause == Some(Null) then None else cause)))
            && (n <= 2 ==> s'.doneCloses == s.doneCloses && s'.err == s.err)
  {
    if n == 3 {
      Ends(s, Stopped, None);
    } else if n == 4 {
      Ends(s, Completed, None);
    } else if n == 5 {
      Ends(s, Failed, Some(OnServer(Cause(cause))));
    } else if n == 6 {
      Ends(s, Disconnected, None);
    }
  }

  lemma Ends(s: State, to: PipelineState, err: Option<Failure>)
    requires Consistent(s) && !Terminal(s.state) && Terminal(to)
    ensures var s' := Transition(s, to, err); s'.state == to && s'.err == err && s'.doneCloses == 1 && s'.cancelled
  {
  }

  // ---------- the streams ----------

  /** e brings a message of the type of stream k, which is open and holds fewer than 100. */
  predicate Accepts(s: State, e: Event, k: Stream) {
    && e.Deliver? && e.msg.messageType == TypeOf(k) && s.doneCloses == 0
    && k in s.buffered && |s.buffered[k]| < 100
  }

  /** The messages of a stream that were accepted, in the order they came. */
  function AcceptedBy(s: State, events: seq<Event>, k: Stream): seq<M.Message> {
    if events == [] then []
    else
      var n := |events| - 1;
      var s' := Run(s, events[..n]);
      var e := events[n];
      AcceptedBy(s, events[..n], k)
        + (if Accepts(s', e, k) then [e.msg] else [])
  }

  /** Every stream hands on exactly the messages it accepted, in order: those taken and then those still buffered. */
  lemma {:induction false} StreamsInOrder(start: PipelineState, events: seq<Event>, k: Stream)
    requires start == NotStarted || start == Running
    ensures var s := Run(Initial(start), events);
            k in s.taken && k in s.buffered && s.taken[k] + s.buffered[k] == AcceptedBy(Initial(start), events, k)
    decreases |events|
  {
    EveryRunConsistent(start, events);
    assert k in STREAMS;
    if events != [] {
      var n := |events| - 1;
      var s := Run(Initial(start), events[..n]);
      StreamsInOrder(start, events[..n], k);
      StepInOrder(s, events[n], k);
    }
  }

  lemma StepInOrder(s: State, e: Event, k: Stream)
    requires k in s.taken && k in s.buffered
    ensures var s' := Apply(s, e);
            && k in s'.taken && k in s'.buffered
            && s'.taken[k] + s'.buffered[k] == s.taken[k] + s.buffered[k] + (if Accepts(s, e, k) then [e.msg] else [])
  {
    var all := s.taken[k] + s.buffered[k];
    assert all + [] == all;
    if e.Deliver? {
      DeliverInOrder(s, e, k);
    } else if e.Take? {
      TakeInOrder(s, e, k);
    } else {
      OthersLeaveStreams(s, e);
    }
  }

  lemma DeliverInOrder(s: State, e: Event, k: Stream)
    requires e.Deliver? && k in s.taken && k in s.buffered
    ensures var s' := Apply(s, e);
            && s'.taken == s.taken && k in s'.buffered
            && s'.buffered[k] == if Accepts(s, e, k) then s.buffered[k] + [e.msg] else s.buffered[k]
  {
    StreamOfType(e.msg.messageType);
  }

  lemma TakeInOrder(s: State, e: Event, k: Stream)
    requires e.Take? && k in s.taken && k in s.buffered
    ensures var s' := Apply(s, e);
            && k in s'.taken && k in s'.buffered && s'.taken[k] + s'.buffered[k] == s.taken[k] + s.buffered[k]
  {
    if e.stream == k && s.buffered[k] != [] {
      assert s.buffered[k] == [s.buffered[k][0]] + s.buffered[k][1..];
    }
  }

  lemma OthersLeaveStreams(s: State, e: Event)
    requires !e.Deliver? && !e.Take?
    ensures Apply(s, e).taken == s.taken && Apply(s, e).buffered == s.buffered
  {
    if e.ServerState? {
      StateLeavesStreams(s, e.announced);
    }
  }

  lemma StateLeavesStreams(s: State, a: Announced)
    ensures OnState(s, a).taken == s.taken && OnState(s, a).buffered == s.buffered
  {
  }

  /** Once closed, a stream has nothing more to hand on than was buffered then. */
  lemma {:induction false} ClosedStreamsStay(start: PipelineState, before: seq<Event>, after: seq<Event>, k: Stream)
    requires start == NotStarted || start == Running
    requires Run(Initial(start), before).doneCloses == 1
    ensures AcceptedBy(Initial(start), before + after, k) == AcceptedBy(Initial(start), before, k)
    ensures Run(Initial(start), before + after).doneCloses == 1
    decreases |after|
  {
    if after == [] {
      assert before + after == before;
    } else {
      var n := |after| - 1;
      var all, e := before + after[..n], after[n];
      assert before + after == all + [e];
      ClosedStreamsStay(start, before, after[..n], k);
      EveryRunConsistent(start, all);
      OneMoreAfterClosing(Initial(start), all, e, k);
    }
  }

  lemma OneMoreAfterClosing(start: State, events: seq<Event>, e: Event, k: Stream)
    requires Consistent(Run(start, events)) && Run(start, events).doneCloses == 1
    ensures AcceptedBy(start, events + [e], k) == AcceptedBy(start, events, k)
    ensures Run(start, events + [e]).doneCloses == 1
  {
    var all := events + [e];
    assert all[..|all| - 1] == events;
    StaysClosed(Run(start, events), e);
    assert AcceptedBy(start, events, k) + [] == AcceptedBy(start, events, k);
  }

  lemma StaysClosed(s: State, e: Event)
    requires Consistent(s) && s.doneCloses == 1
    ensures Apply(s, e).doneCloses == 1
  {
    ApplyKeepsConsistent(s, e);
  }

  // ---------- the pool's cleanup ----------

  datatype PoolEnd = Closed | Broken

  /** The part of the runspace pool that ends it. */
  class PoolRegistry {
    var pipelines: map<Guid.Guid, PipelineObject>
    var ended: Option<PoolEnd>
    var cause: Option<Failure>
    var doneCloses: nat

    constructor ()
      ensures pipelines == map[] && ended == None && cause == None && doneCloses == 0
    {
      pipelines, ended, cause, doneCloses := map[], None, None, 0;
    }

    method Register(id: Guid.Guid, p: PipelineObject)
      modifies this
      ensures pipelines == old(pipelines)[id := p]
      ensures ended == old(ended) && cause == old(cause) && doneCloses == old(doneCloses)
    {
      pipelines := pipelines[id := p];
    }

    /**
     cleanup, which only its first caller goes through: with an error every registered pipeline fails
     and so is closed, without one they are cancelled; the pool's own done channel is closed once.
     */
    method Cleanup(end: PoolEnd, error: Option<Failure>)
      requires forall id :: id in pipelines ==> ClosedWhenEnded(pipelines[id].Now())
      modifies this, pipelines.Values
      ensures pipelines == old(pipelines)
      ensures old(ended).Some? ==>
                && ended == old(ended) && cause == old(cause) && doneCloses == old(doneCloses)
                && forall id :: id in pipelines ==> pipelines[id].Now() == old(pipelines[id].Now())
      ensures old(ended).None? ==>
                && ended == Some(end) && cause == (if error.Some? then error else old(cause))
                && doneCloses == old(doneCloses) + 1
                && (forall id :: id in pipelines ==>
                    pipelines[id].Now() == Apply(old(pipelines[id].Now()), EndEvent(error)))
                && (error.Some? ==> forall id :: id in pipelines ==> pipelines[id].doneCloses == 1)
    {
      if ended.Some? {
        return;
      }
      ended := Some(end);
      if error.Some? {
        cause := error;
      }
      EndAll(pipelines.Values, error);
      doneCloses := doneCloses + 1;
      forall id | id in pipelines && error.Some? ensures pipelines[id].Now().doneCloses == 1 {
        FailingCloses(old(pipelines[id].Now()), error, pipelines[id].Now());
      }
    }
  }

  lemma FailingCloses(s: State, error: Option<Failure>, s': State)
    requires ClosedWhenEnded(s) && error.Some? && s' == Apply(s, EndEvent(error))
    ensures s'.doneCloses == 1
  {
  }

  /** What cleanup does to a pipeline. */
  function EndEvent(error: Option<Failure>): Event {
    if error.Some? then Event.Fail(error.value) else Event.Cancel
  }

  /** The loop of cleanup over the registered pipelines, in any order. */
  method EndAll(ps: set<PipelineObject>, error: Option<Failure>)
    modifies ps
    ensures forall p :: p in ps ==> p.Now() == Apply(old(p.Now()), EndEvent(error))
  {
    var left := ps;
    while left != {}
      invariant left <= ps
      invariant forall p :: p in left ==> p.Now() == old(p.Now())
      invariant forall p :: p in ps && p !in left ==> p.Now() == Apply(old(p.Now()), EndEvent(error))
      decreases |left|
    {
      var p :| p in left;
      p.EndWith(error);
      left := left - {p};
    }
  }
}
