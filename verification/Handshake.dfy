/** Opening a runspace pool: the exchange of messages from the first capability to the Opened state. */
module Handshake {
  import opened Wrappers
  import opened Bytes
  import opened Clixml
  import M = Messages

  // ---------- what the pool reads in a message ----------

  /**
   What is not the pool's own: reading the XML of a message's data, the host's answer to a call (None
   when the call cannot be decoded), and which of several properties a map iteration meets first.
   */
  datatype Environment = Environment(
    deserialize: seq<byte> -> Option<(seq<Value>, Heap)>,
    answer: seq<byte> -> Option<seq<byte>>,
    first: map<Str, Value> -> Str)

  datatype Capabilities = Capabilities(protocolVersion: Str, psVersion: Str)

  datatype StateInfo = StateInfo(state: int32, minRunspaces: int, maxRunspaces: int)

  const POOL_OPENED := 2

  const PROTOCOL_VERSION: Str := Ascii("protocolversion")
  const PS_VERSION: Str := Ascii("PSVersion")
  const RUNSPACE_STATE: Str := Ascii("RunspaceState")
  const RUNSPACE_POOL_STATE_NAME: Str := Ascii("RunspacePoolState")
  const MIN_RUNSPACES: Str := Ascii("MinRunspaces")
  const MAX_RUNSPACES: Str := Ascii("MaxRunspaces")
  const TWO: byte := 0x32

  function StringAt(m: map<Str, Value>, k: Str): Str {
    if k in m && m[k].String? then m[k].s else []
  }

  function Or(o: Option<int32>, n: int): int {
    if o.Some? then o.value else n
  }

  /** parseCapabilityData. */
  function ParseCapabilities(env: Environment, data: seq<byte>): Option<Capabilities> {
    match env.deserialize(data)
    case None => None
    case Some((objs, heap)) =>
      if objs == [] || !objs[0].Obj? || objs[0].id !in heap then None
      else
        var props := heap[objs[0].id].props;
        Some(Capabilities(StringAt(props, PROTOCOL_VERSION), StringAt(props, PS_VERSION)))
  }

  /** The state among the properties: under one of its two names, or else any 32-bit number. */
  function StateAmong(env: Environment, props: map<Str, Value>): int32 {
    var named := Int32At(props, RUNSPACE_STATE);
    var pool := Int32At(props, RUNSPACE_POOL_STATE_NAME);
    var numbers := set k | k in props && props[k].Int32?;
    if named.Some? then named.value
    else if pool.Some? then pool.value
    else if numbers == {} then 0
    else if env.first(props) in numbers then props[env.first(props)].i
    else props[Least(numbers)].i
  }

  /** parseRunspacePoolState. */
  function ParseState(env: Environment, data: seq<byte>): Option<StateInfo> {
    match env.deserialize(data)
    case None => None
    case Some((objs, heap)) =>
      if objs == [] then None
      else
        var extra := if |objs| > 1 && objs[1].Obj? && objs[1].id in heap then heap[objs[1].id].props else map[];
        match objs[0]
        case Int32(i) => Some(StateInfo(i, Or(Int32At(extra, MIN_RUNSPACES), 0), Or(Int32At(extra, MAX_RUNSPACES), 0)))
        case Obj(id) =>
          if id !in heap then None
          else
            var props := heap[id].props;
            Some(StateInfo(StateAmong(env, props),
                           Or(Int32At(extra, MIN_RUNSPACES), Or(Int32At(props, MIN_RUNSPACES), 0)),
                           Or(Int32At(extra, MAX_RUNSPACES), Or(Int32At(props, MAX_RUNSPACES), 0))))
        case _ => None
  }

  // ---------- the kinds of messages, by their numbers in section 2.2.1 of MS-PSRP ----------

  /** The properties of the i-th object in a message; none when there is no such object. */
  function PropsAt(objs: seq<Value>, heap: Heap, i: nat): map<Str, Value> {
    if i < |objs| && objs[i].Obj? && objs[i].id in heap then heap[objs[i].id].props else map[]
  }

  /** A 32-bit number under this name. */
  predicate Numbered(props: map<Str, Value>, name: string)
    requires forall i :: 0 <= i < |name| ==> name[i] < 128 as char
  {
    Ascii(name) in props && props[Ascii(name)].Int32?
  }

  /** A host call the host can answer. */
  predicate Answerable(env: Environment, m: M.Message) {
    m.messageType == 0x0002_1100 && env.answer(m.data).Some?
  }

  /** The text that the first object of a message holds under this name. */
  ghost predicate Says(env: Environment, m: M.Message, name: string, text: Str)
    requires forall i :: 0 <= i < |name| ==> name[i] < 128 as char
  {
    match env.deserialize(m.data)
    case None => false
    case Some((objs, heap)) =>
      && objs != [] && objs[0].Obj? && objs[0].id in heap
      && Ascii(name) in heap[objs[0].id].props && heap[objs[0].id].props[Ascii(name)] == String(text)
  }

  ghost predicate SaysNothing(env: Environment, m: M.Message, name: string)
    requires forall i :: 0 <= i < |name| ==> name[i] < 128 as char
  {
    forall text :: !Says(env, m, name, text)
  }

  /** A capability message whose protocol version is a 2 and at least one byte more. */
  ghost predicate CompatibleCapability(env: Environment, m: M.Message) {
    && m.messageType == 0x0001_0002
    && exists version :: Says(env, m, "protocolversion", version) && |version| >= 2 && version[0] == '2' as int
  }

  /** What may come before the pool's state. */
  predicate Preliminary(env: Environment, m: M.Message) {
    Answerable(env, m) || m.messageType == 0x0002_1009 || m.messageType == 0x0002_100B || m.messageType == 0x0001_0002
  }

  /** Under which key a state without a name is found: a number's, the one met first if that is one. */
  ghost predicate IsMet(env: Environment, props: map<Str, Value>, k: Str) {
    && k in props && props[k].Int32?
    && (env.first(props) in props && props[env.first(props)].Int32? ==> k == env.first(props))
    && (!(env.first(props) in props && props[env.first(props)].Int32?) ==>
          forall l :: l in props && props[l].Int32? && l != k ==> Less(k, l))
  }

  /** The number 2 among the properties of a state, under either name or else under any. */
  ghost predicate StateIsOpened(env: Environment, props: map<Str, Value>) {
    if Numbered(props, "RunspaceState") then props[Ascii("RunspaceState")] == Int32(2)
    else if Numbered(props, "RunspacePoolState") then props[Ascii("RunspacePoolState")] == Int32(2)
    else exists k :: IsMet(env, props, k) && props[k] == Int32(2)
  }

  ghost predicate SaysOpened(env: Environment, m: M.Message) {
    m.messageType == 0x0002_1005 &&
    match env.deserialize(m.data)
    case None => false
    case Some((objs, heap)) =>
      && objs != []
      && (objs[0] == Int32(2)
          || (objs[0].Obj? && objs[0].id in heap && StateIsOpened(env, heap[objs[0].id].props)))
  }

  /** The count under a name in the second object, or else in the first, when it is positive; else the pool's own. */
  ghost predicate Agreed(objs: seq<Value>, heap: Heap, name: string, own: int, got: int)
    requires forall i :: 0 <= i < |name| ==> name[i] < 128 as char
  {
    var at := if Numbered(PropsAt(objs, heap, 1), name) then 1 else 0;
    var props := PropsAt(objs, heap, at);
    if Numbered(props, name) && props[Ascii(name)].i > 0 then got == props[Ascii(name)].i else got == own
  }

  /** The counts a pool ends up with. */
  ghost predicate Negotiated(env: Environment, m: M.Message, ownMin: int, ownMax: int, min: int, max: int) {
    match env.deserialize(m.data)
    case None => false
    case Some((objs, heap)) =>
      Agreed(objs, heap, "MinRunspaces", ownMin, min) && Agreed(objs, heap, "MaxRunspaces", ownMax, max)
  }

  /** The n-th message decides the counts. */
  ghost predicate NegotiatedBy(env: Environment, ms: seq<M.Message>, n: nat, ownMin: int, ownMax: int, min: int,
                               max: int)
  {
    1 <= n <= |ms| && Negotiated(env, ms[n - 1], ownMin, ownMax, min, max)
  }

  // ---------- the parsers find just that ----------

  lemma CapabilityParsed(env: Environment, m: M.Message)
    ensures CompatibleCapability(env, m) <==>
              && m.messageType == M.SESSION_CAPABILITY && ParseCapabilities(env, m.data).Some?
              && var version := ParseCapabilities(env, m.data).value.protocolVersion;
                 |version| >= 2 && version[0] == TWO
    ensures ParseCapabilities(env, m.data).Some? ==>
              var caps := ParseCapabilities(env, m.data).value;
              && (caps.protocolVersion != [] ==> Says(env, m, "protocolversion", caps.protocolVersion))
              && (Says(env, m, "PSVersion", caps.psVersion)
                  || (caps.psVersion == [] && SaysNothing(env, m, "PSVersion")))
  {
  }

  lemma StateFound(env: Environment, props: map<Str, Value>)
    ensures StateIsOpened(env, props) <==> StateAmong(env, props) == POOL_OPENED
  {
    var numbers := set k | k in props && props[k].Int32?;
    assert forall k :: IsMet(env, props, k) ==> k in numbers;
    if !Numbered(props, "RunspaceState") && !Numbered(props, "RunspacePoolState") && numbers != {} {
      var met := if env.first(props) in numbers then env.first(props) else Least(numbers);
      assert met in numbers;
      forall l | l in props && props[l].Int32? && l != Least(numbers) ensures Less(Least(numbers), l) {
        assert l in numbers;
      }
      assert IsMet(env, props, met);
      forall k | IsMet(env, props, k) ensures k == met {
        assert k in numbers;
        LessTotal(k, met);
      }
    }
  }

  lemma StateParsed(env: Environment, m: M.Message)
    ensures SaysOpened(env, m) <==>
              && m.messageType == M.RUNSPACE_POOL_STATE && ParseState(env, m.data).Some?
              && ParseState(env, m.data).value.state == POOL_OPENED
  {
    match env.deserialize(m.data)
    case None =>
    case Some((objs, heap)) => StateFound(env, PropsAt(objs, heap, 0));
  }

  lemma CountsParsed(env: Environment, m: M.Message, ownMin: int, ownMax: int, min: int, max: int)
    requires ParseState(env, m.data).Some?
    requires var info := ParseState(env, m.data).value;
             && min == (if info.minRunspaces > 0 then info.minRunspaces else ownMin)
             && max == (if info.maxRunspaces > 0 then info.maxRunspaces else ownMax)
    ensures Negotiated(env, m, ownMin, ownMax, min, max)
  {
    var (objs, heap) := env.deserialize(m.data).value;
    CountParsed(PropsAt(objs, heap, 0), PropsAt(objs, heap, 1), MIN_RUNSPACES);
    CountParsed(PropsAt(objs, heap, 0), PropsAt(objs, heap, 1), MAX_RUNSPACES);
  }

  /** A count in the second object goes before one in the first. */
  lemma CountParsed(props: map<Str, Value>, extra: map<Str, Value>, key: Str)
    ensures Or(Int32At(extra, key), Or(Int32At(props, key), 0))
            == if key in extra && extra[key].Int32? then extra[key].i
               else if key in props && props[key].Int32? then props[key].i
               else 0
  {
  }

  // ---------- the pool ----------

  datatype State = BeforeOpen | Opening | Connecting | Opened | Closing | Closed | Disconnected | Broken

  datatype Error =
    | AlreadyOpen | PoolClosed | PoolBroken | InvalidState
    | ReceiveFailed | HostCallFailed | ProtocolViolation | BadData

  /** Why a pool cannot be opened in this state. */
  function Refusal(s: State): Error {
    if s == Opened || s == Opening then AlreadyOpen
    else if s == Closed then PoolClosed
    else if s == Broken then PoolBroken
    else InvalidState
  }

  /** What the pool sends. */
  datatype Out = Capability | Init(minRunspaces: int, maxRunspaces: int) | HostReply(data: seq<byte>)

  class Pool {
    const env: Environment
    const skipHandshakeSend: bool
    var state: State
    var minRunspaces: int
    var maxRunspaces: int
    var negotiatedMin: int
    var negotiatedMax: int
    var protocolVersion: Str
    var psVersion: Str
    var dispatching: bool
    /** The messages the receive loop will return, and those sent. */
    var incoming: seq<M.Message>
    var sent: seq<Out>

    predicate Valid()
      reads this
    {
      minRunspaces >= 1 && maxRunspaces >= 1
    }

    constructor (env: Environment, skip: bool, messages: seq<M.Message>)
      ensures Valid() && state == BeforeOpen && incoming == messages && sent == []
      ensures this.env == env && skipHandshakeSend == skip && !dispatching
    {
      this.env, skipHandshakeSend := env, skip;
      state, minRunspaces, maxRunspaces, negotiatedMin, negotiatedMax := BeforeOpen, 1, 1, 0, 0;
      protocolVersion, psVersion, dispatching := [], [], false;
      incoming, sent := messages, [];
    }

    method SetMinRunspaces(n: int) returns (ok: bool)
      requires Valid()
      modifies this`minRunspaces
      ensures Valid() && (ok <==> state == BeforeOpen && n >= 1)
      ensures minRunspaces == if ok then n else old(minRunspaces)
    {
      ok := state == BeforeOpen && n >= 1;
      if ok {
        minRunspaces := n;
      }
    }

    method SetMaxRunspaces(n: int) returns (ok: bool)
      requires Valid()
      modifies this`maxRunspaces
      ensures Valid() && (ok <==> state == BeforeOpen && n >= 1)
      ensures maxRunspaces == if ok then n else old(maxRunspaces)
    {
      ok := state == BeforeOpen && n >= 1;
      if ok {
        maxRunspaces := n;
      }
    }

    /** The state before a message of the list, from what was there at first. */
    ghost predicate Consumed(start: seq<M.Message>, out: seq<Out>, n: nat)
      reads this
    {
      n <= |start| && incoming == start[n..] && sent == out + Replies(env, start[..n])
    }

    /**
     receiveMessageWithHostCallbacks: host calls are answered, each once and in order, up to the
     first other message. calls is how many were answered, n how many messages were taken.
     */
    method ReceiveWithHostCallbacks() returns (r: Result<M.Message, Error>, ghost calls: nat, ghost n: nat)
      modifies this`incoming, this`sent
      ensures Consumed(old(incoming), old(sent), n) && HostCalls(env, old(incoming), calls)
      ensures match r
              case Ok(m) => n == calls + 1 && m == old(incoming)[calls] && m.messageType != M.RUNSPACE_HOST_CALL
              case Err(e) =>
                if e == ReceiveFailed then n == calls == |old(incoming)|
                else && e == HostCallFailed && n == calls + 1
                     && old(incoming)[calls].messageType == M.RUNSPACE_HOST_CALL
                     && !Answerable(env, old(incoming)[calls])
    {
      calls, n := 0, 0;
      while true
        invariant calls == n && Consumed(old(incoming), old(sent), n) && HostCalls(env, old(incoming), n)
        decreases |incoming|
      {
        if incoming == [] {
          return Err(ReceiveFailed), calls, n;
        }
        var m := incoming[0];
        incoming := incoming[1..];
        RepliesSnoc(env, old(incoming), n, n + 1);
        n := n + 1;
        if m.messageType != M.RUNSPACE_HOST_CALL {
          return Ok(m), calls, n;
        }
        var answer := env.answer(m.data);
        if answer.None? {
          return Err(HostCallFailed), calls, n;
        }
        sent := sent + [HostReply(answer.value)];
        calls := n;
      }
    }

    /** receiveSessionCapability. */
    method ReceiveSessionCapability() returns (err: Option<Error>, ghost n: nat)
      modifies this`incoming, this`sent, this`protocolVersion, this`psVersion
      ensures Consumed(old(incoming), old(sent), n) && PastCalls(env, old(incoming), n)
      ensures err.None? <==> n >= 1 && CapabilityAt(env, old(incoming), n - 1)
      ensures err.Some? ==> NoCapability(env, old(incoming))
      ensures err.None? ==>
                && Says(env, old(incoming)[n - 1], "protocolversion", protocolVersion)
                && (Says(env, old(incoming)[n - 1], "PSVersion", psVersion)
                    || (psVersion == [] && SaysNothing(env, old(incoming)[n - 1], "PSVersion")))
    {
      var r;
      ghost var calls;
      r, calls, n := ReceiveWithHostCallbacks();
      FirstDecides(env, old(incoming), calls);
      if r.Err? {
        return Some(r.error), n;
      }
      var m := r.value;
      if m.messageType != M.SESSION_CAPABILITY {
        return Some(ProtocolViolation), n;
      }
      CapabilityParsed(env, m);
      var caps := ParseCapabilities(env, m.data);
      if caps.None? {
        return Some(BadData), n;
      }
      var version := caps.value.protocolVersion;
      if version == [] {
        return Some(ProtocolViolation), n;
      }
      if |version| < 2 || version[0] != TWO {
        return Some(ProtocolViolation), n;
      }
      protocolVersion, psVersion := version, caps.value.psVersion;
      err := None;
    }

    /** waitForOpened: up to the first message that is not preliminary, which must say Opened. */
    method WaitForOpened() returns (err: Option<Error>, ghost n: nat)
      requires Valid()
      modifies this`incoming, this`sent, this`state, this`negotiatedMin, this`negotiatedMax
      ensures Consumed(old(incoming), old(sent), n) && PastPreliminary(env, old(incoming), n)
      ensures err.None? <==> OpenedBy(env, old(incoming), n)
      ensures err.Some? ==> NoneOpens(env, old(incoming))
      ensures err.None? ==>
                && state == Opened && negotiatedMin >= 1 && negotiatedMax >= 1
                && NegotiatedBy(env, old(incoming), n, minRunspaces, maxRunspaces, negotiatedMin, negotiatedMax)
      ensures err.Some? ==>
                state == old(state) && negotiatedMin == old(negotiatedMin) && negotiatedMax == old(negotiatedMax)
    {
      var r;
      r, n := ReceiveDecisive();
      if r.Err? {
        return Some(r.error), n;
      }
      var m := r.value;
      ghost var at: nat := n - 1;
      NextDecides(env, old(incoming), at);
      if m.messageType != M.RUNSPACE_POOL_STATE {
        return Some(ProtocolViolation), n;
      }
      StateParsed(env, m);
      var info := ParseState(env, m.data);
      if info.None? {
        return Some(BadData), n;
      }
      if info.value.state != POOL_OPENED {
        return Some(InvalidState), n;
      }
      negotiatedMin := if info.value.minRunspaces > 0 then info.value.minRunspaces else minRunspaces;
      negotiatedMax := if info.value.maxRunspaces > 0 then info.value.maxRunspaces else maxRunspaces;
      CountsParsed(env, m, minRunspaces, maxRunspaces, negotiatedMin, negotiatedMax);
      state := Opened;
      err := None;
    }

    /** The part of waitForOpened that passes over preliminary messages, up to one that is not. */
    method ReceiveDecisive() returns (r: Result<M.Message, Error>, ghost n: nat)
      modifies this`incoming, this`sent
      ensures Consumed(old(incoming), old(sent), n) && PastPreliminary(env, old(incoming), n)
      ensures match r
              case Ok(m) => n >= 1 && m == old(incoming)[n - 1] && AllPreliminary(env, old(incoming), n - 1)
                  && !Preliminary(env, m)
              case Err(_) => NoneOpens(env, old(incoming))
    {
      n := 0;
      while true
        invariant Consumed(old(incoming), old(sent), n) && AllPreliminary(env, old(incoming), n)
        decreases |incoming|
      {
        ghost var before, n0 := incoming, n;
        ghost var calls, k;
        r, calls, k := ReceiveWithHostCallbacks();
        ghost var at := n0 + calls;
        n := n0 + k;
        Onward(env, old(incoming), before, n0, k, n);
        AnotherRound(env, old(incoming), before, n0, calls, k, n, at);
        if r.Err? {
          return;
        }
        var t := r.value.messageType;
        if t != M.APPLICATION_PRIVATE_DATA && t != M.RUNSPACE_POOL_INIT_DATA && t != M.SESSION_CAPABILITY {
          return;
        }
      }
    }

    /**
     Open. From BeforeOpen the pool ends Opened if and only if the messages begin as the handshake
     wants, and otherwise Broken. c is how many were taken for the capability: up to the first that is
     not an answerable host call. Only when that is the capability the init message is sent, and messages
     are taken up to the first that is not preliminary.
     */
    method Open() returns (err: Option<Error>, ghost c: nat, ghost n: nat)
      requires Valid()
      modifies this
      ensures Valid() && minRunspaces == old(minRunspaces) && maxRunspaces == old(maxRunspaces)
      ensures old(state) != BeforeOpen ==>
                && state == old(state) && incoming == old(incoming) && sent == old(sent)
                && err == Some(match old(state)
                               case Opened => AlreadyOpen
                               case Opening => AlreadyOpen
                               case Closed => PoolClosed
                               case Broken => PoolBroken
                               case _ => InvalidState)
      ensures old(state) == BeforeOpen ==>
                && state == (if err.None? then Opened else Broken)
                && c <= n <= |old(incoming)| && incoming == old(incoming)[n..]
      ensures old(state) == BeforeOpen && !skipHandshakeSend ==>
                && (err.None? ==> Opens(env, old(incoming), c, n) && dispatching)
                && (err.Some? ==> NothingOpens(env, old(incoming)))
                && Exchanged(env, old(incoming), c, n, minRunspaces, maxRunspaces, old(sent), sent)
      ensures old(state) == BeforeOpen && skipHandshakeSend ==>
                && c == 0 && dispatching == old(dispatching) && PastPreliminary(env, old(incoming), n)
                && (err.None? <==> OpenedBy(env, old(incoming), n))
                && (err.Some? ==> NoneOpens(env, old(incoming)))
                && sent == old(sent) + Replies(env, old(incoming)[..n])
      ensures old(state) == BeforeOpen && err.None? ==>
                && n >= 1 && negotiatedMin >= 1 && negotiatedMax >= 1
                && NegotiatedBy(env, old(incoming), n, minRunspaces, maxRunspaces, negotiatedMin, negotiatedMax)
    {
      c, n := 0, 0;
      if state != BeforeOpen {
        return Some(Refusal(state)), c, n;
      }
      state := Opening;
      if !skipHandshakeSend {
        err, c, n := Negotiate();
        if err.None? {
          dispatching := true;
        }
      } else {
        err, n := AwaitOpened();
      }
    }

    /** waitForOpened, and the state that comes of it. */
    method AwaitOpened() returns (err: Option<Error>, ghost n: nat)
      requires Valid()
      modifies this`state, this`incoming, this`sent, this`negotiatedMin, this`negotiatedMax
      ensures state == (if err.None? then Opened else Broken)
      ensures Consumed(old(incoming), old(sent), n) && PastPreliminary(env, old(incoming), n)
      ensures err.None? <==> OpenedBy(env, old(incoming), n)
      ensures err.Some? ==> NoneOpens(env, old(incoming))
      ensures err.None? ==>
                && negotiatedMin >= 1 && negotiatedMax >= 1
                && NegotiatedBy(env, old(incoming), n, minRunspaces, maxRunspaces, negotiatedMin, negotiatedMax)
    {
      err, n := WaitForOpened();
      if err.Some? {
        state := Broken;
      }
    }

    /** The exchange of Open when the pool sends the handshake itself. */
    method Negotiate() returns (err: Option<Error>, ghost c: nat, ghost n: nat)
      requires Valid()
      modifies this`state, this`incoming, this`sent, this`negotiatedMin, this`negotiatedMax, this`protocolVersion,
          this`psVersion
      ensures state == (if err.None? then Opened else Broken)
      ensures c <= n <= |old(incoming)| && incoming == old(incoming)[n..]
      ensures err.None? ==> Opens(env, old(incoming), c, n)
      ensures err.Some? ==> NothingOpens(env, old(incoming))
      ensures Exchanged(env, old(incoming), c, n, minRunspaces, maxRunspaces, old(sent), sent)
      ensures err.None? ==>
                && n >= 1 && negotiatedMin >= 1 && negotiatedMax >= 1
                && NegotiatedBy(env, old(incoming), n, minRunspaces, maxRunspaces, negotiatedMin, negotiatedMax)
    {
      ghost var ms := incoming;
      sent := sent + [Capability];
      err, c := ReceiveSessionCapability();
      n := c;
      if err.Some? {
        state := Broken;
        return err, c, n;
      }
      err, n := SendInit(ms, c, old(sent));
    }

    /** The rest of it, once the capability has been received. */
    method SendInit(ghost ms: seq<M.Message>, ghost c: nat, ghost before: seq<Out>)
      returns (err: Option<Error>, ghost n: nat)
      requires Valid() && 1 <= c <= |ms| && PastCalls(env, ms, c) && CapabilityAt(env, ms, c - 1)
      requires incoming == ms[c..] && sent == before + [Capability] + Replies(env, ms[..c])
      modifies this`state, this`incoming, this`sent, this`negotiatedMin, this`negotiatedMax
      ensures state == (if err.None? then Opened else Broken)
      ensures c <= n <= |ms| && incoming == ms[n..]
      ensures if err.None? then Opens(env, ms, c, n) else NothingOpens(env, ms)
      ensures Exchanged(env, ms, c, n, minRunspaces, maxRunspaces, before, sent)
      ensures err.None? ==>
                && negotiatedMin >= 1 && negotiatedMax >= 1
                && NegotiatedBy(env, ms, n, minRunspaces, maxRunspaces, negotiatedMin, negotiatedMax)
    {
      sent := sent + [Init(minRunspaces, maxRunspaces)];
      ghost var k;
      err, k := AwaitOpened();
      n := c + k;
      SliceOnward(ms, c, k, n);
      BothExchanged(env, ms, c, k, n, minRunspaces, maxRunspaces, before, sent);
      if err.Some? {
        NeverOpens(env, ms, c);
      } else {
        OpensBehind(env, ms, c, k, n);
        DecidedBehind(env, ms, c, k, n, minRunspaces, maxRunspaces, negotiatedMin, negotiatedMax);
      }
    }
  }

  /** The exchange with both messages sent. */
  lemma BothExchanged(env: Environment, ms: seq<M.Message>, c: nat, k: nat, n: nat, min: int, max: int,
                      before: seq<Out>, after: seq<Out>)
    requires 1 <= c <= |ms| && k <= |ms[c..]| && n == c + k && PastCalls(env, ms, c) && CapabilityAt(env, ms, c - 1)
    requires PastPreliminary(env, ms[c..], k)
    requires after == before + [Capability] + Replies(env, ms[..c]) + [Init(min, max)] + Replies(env, ms[c..][..k])
    ensures Exchanged(env, ms, c, n, min, max, before, after)
  {
    SliceOnward(ms, c, k, n);
  }

  lemma OpensBehind(env: Environment, ms: seq<M.Message>, c: nat, k: nat, n: nat)
    requires 1 <= c <= |ms| && n == c + k && CapabilityAt(env, ms, c - 1) && OpenedBy(env, ms[c..], k)
    ensures Opens(env, ms, c, n)
  {
  }

  lemma DecidedBehind(env: Environment, ms: seq<M.Message>, c: nat, k: nat, n: nat, ownMin: int, ownMax: int,
                      min: int, max: int)
    requires c <= |ms| && n == c + k && NegotiatedBy(env, ms[c..], k, ownMin, ownMax, min, max)
    ensures NegotiatedBy(env, ms, n, ownMin, ownMax, min, max)
  {
    assert ms[c..][k - 1] == ms[n - 1];
  }

  // ---------- the language of the handshake ----------

  /** The replies to the host calls among messages, in their order. */
  function Replies(env: Environment, ms: seq<M.Message>): seq<Out> {
    if ms == [] then []
    else
      var m := ms[|ms| - 1];
      Replies(env, ms[..|ms| - 1]) + (if Answerable(env, m) then [HostReply(env.answer(m.data).value)] else [])
  }

  lemma RepliesSnoc(env: Environment, ms: seq<M.Message>, n: nat, n1: nat)
    requires n < |ms| && n1 == n + 1
    ensures Replies(env, ms[..n1])
            == Replies(env, ms[..n]) + (if Answerable(env, ms[n]) then [HostReply(env.answer(ms[n].data).value)]
                                        else [])
    ensures ms[n..][0] == ms[n] && ms[n..][1..] == ms[n1..]
  {
    assert ms[..n1][..n] == ms[..n];
  }

  lemma {:induction false} RepliesJoin(env: Environment, a: seq<M.Message>, b: seq<M.Message>)
    ensures Replies(env, a + b) == Replies(env, a) + Replies(env, b)
    decreases |b|
  {
    if b == [] {
      assert a + b == a;
    } else {
      var n := |b| - 1;
      assert (a + b)[..|a + b| - 1] == a + b[..n];
      RepliesJoin(env, a, b[..n]);
    }
  }

  lemma SliceOnward(ms: seq<M.Message>, c: nat, k: nat, n: nat)
    requires c <= |ms| && k <= |ms[c..]| && n == c + k
    ensures n <= |ms| && ms[c..n] == ms[c..][..k] && ms[n..] == ms[c..][k..]
    ensures k >= 1 ==> ms[n - 1] == ms[c..][k - 1]
  {
  }

  /** Taking k messages after the first n. */
  lemma Onward(env: Environment, start: seq<M.Message>, before: seq<M.Message>, n: nat, k: nat, n1: nat)
    requires n <= |start| && before == start[n..] && k <= |before| && n1 == n + k
    ensures start[n1..] == before[k..]
    ensures Replies(env, start[..n1]) == Replies(env, start[..n]) + Replies(env, before[..k])
  {
    RepliesJoin(env, start[..n], before[..k]);
    assert start[..n1] == start[..n] + before[..k];
  }

  /** The first n messages are host calls that can be answered. */
  predicate HostCalls(env: Environment, ms: seq<M.Message>, n: nat) {
    n <= |ms| && forall i :: 0 <= i < n ==> Answerable(env, ms[i])
  }

  /** n is one past the first message that is not an answerable host call, or all messages are such calls. */
  predicate PastCalls(env: Environment, ms: seq<M.Message>, n: nat) {
    && n <= |ms| && (forall i :: 0 <= i < n - 1 ==> Answerable(env, ms[i]))
    && (n >= 1 && Answerable(env, ms[n - 1]) ==> n == |ms|) && (n == 0 ==> ms == [])
  }

  /** n is one past the first message that is not preliminary, or all messages are. */
  predicate PastPreliminary(env: Environment, ms: seq<M.Message>, n: nat) {
    && n <= |ms| && (forall i :: 0 <= i < n - 1 ==> Preliminary(env, ms[i]))
    && (n >= 1 && Preliminary(env, ms[n - 1]) ==> n == |ms|) && (n == 0 ==> ms == [])
  }

  /** What Open takes and sends when it sends the handshake itself. */
  ghost predicate Exchanged(env: Environment, ms: seq<M.Message>, c: nat, n: nat, min: int, max: int,
                      before: seq<Out>, after: seq<Out>)
  {
    && c <= n <= |ms| && PastCalls(env, ms, c)
    && if c >= 1 && CapabilityAt(env, ms, c - 1) then
         && PastPreliminary(env, ms[c..], n - c)
         && after == before + [Capability] + Replies(env, ms[..c]) + [Init(min, max)] + Replies(env, ms[c..n])
       else n == c && after == before + [Capability] + Replies(env, ms[..c])
  }

  /** Host calls after preliminary messages, and the message behind them if there is one. */
  lemma AnotherRound(env: Environment, start: seq<M.Message>, before: seq<M.Message>, n: nat, calls: nat, k: nat,
                     n1: nat, at: nat)
    requires AllPreliminary(env, start, n) && before == start[n..] && HostCalls(env, before, calls)
    requires calls <= k <= calls + 1 && k <= |before| && (k == calls ==> k == |before|)
    requires n1 == n + k && at == n + calls
    ensures AllPreliminary(env, start, at)
    ensures if k == calls then n1 == |start| else n1 == at + 1 && start[at] == before[calls]
    ensures k == calls || !Preliminary(env, start[at]) ==> PastPreliminary(env, start, n1)
    ensures k == calls || (!Preliminary(env, start[at]) && !SaysOpened(env, start[at])) ==>
              NoneOpens(env, start)
    ensures k > calls && Preliminary(env, start[at]) ==> AllPreliminary(env, start, n1)
  {
    CallsArePreliminary(env, start, before, n, calls, at);
    NextDecides(env, start, at);
    assert k > calls ==> start[at] == before[calls];
  }

  /** The first message that is not an answerable host call decides whether there is a capability. */
  lemma FirstDecides(env: Environment, ms: seq<M.Message>, n: nat)
    requires HostCalls(env, ms, n)
    ensures n < |ms| && !Answerable(env, ms[n]) && !CompatibleCapability(env, ms[n]) ==>
              NoCapability(env, ms)
    ensures n == |ms| ==> NoCapability(env, ms)
  {
    forall i | 0 <= i < n ensures !CompatibleCapability(env, ms[i]) {
      assert Answerable(env, ms[i]);
    }
  }

  predicate AllPreliminary(env: Environment, ms: seq<M.Message>, n: nat) {
    n <= |ms| && forall i :: 0 <= i < n ==> Preliminary(env, ms[i])
  }

  lemma CallsArePreliminary(env: Environment, start: seq<M.Message>, before: seq<M.Message>, n: nat, calls: nat,
                            at: nat)
    requires AllPreliminary(env, start, n) && before == start[n..] && HostCalls(env, before, calls) && at == n + calls
    ensures AllPreliminary(env, start, at)
  {
    forall i | n <= i < at ensures Preliminary(env, start[i]) {
      assert start[i] == before[i - n];
    }
  }

  /** The first message that is not preliminary decides whether the pool opens. */
  lemma NextDecides(env: Environment, ms: seq<M.Message>, n: nat)
    requires AllPreliminary(env, ms, n)
    ensures n < |ms| && !Preliminary(env, ms[n]) && !SaysOpened(env, ms[n]) ==>
              NoneOpens(env, ms)
    ensures n == |ms| ==> NoneOpens(env, ms)
  {
    forall i | 0 <= i < n ensures !SaysOpened(env, ms[i]) {
      assert Preliminary(env, ms[i]);
    }
  }

  /** The i-th message is the capability a server opens with, after nothing but host calls. */
  ghost predicate CapabilityAt(env: Environment, ms: seq<M.Message>, i: nat) {
    i < |ms| && CompatibleCapability(env, ms[i]) && forall j :: 0 <= j < i ==> Answerable(env, ms[j])
  }

  /** The i-th message says Opened, after preliminary ones only. */
  ghost predicate OpenedAt(env: Environment, ms: seq<M.Message>, i: nat) {
    i < |ms| && SaysOpened(env, ms[i]) && forall j :: 0 <= j < i ==> Preliminary(env, ms[j])
  }

  /** The first c messages are host calls and a capability; the rest, up to the n-th, end in the state Opened. */
  ghost predicate Opens(env: Environment, ms: seq<M.Message>, c: nat, n: nat) {
    1 <= c < n <= |ms| && CapabilityAt(env, ms, c - 1) && OpenedAt(env, ms[c..], n - c - 1)
  }

  /** The n-th message says Opened, and what comes before is preliminary. */
  ghost predicate OpenedBy(env: Environment, ms: seq<M.Message>, n: nat) {
    1 <= n <= |ms| && OpenedAt(env, ms, n - 1)
  }

  ghost predicate NoneOpens(env: Environment, ms: seq<M.Message>) {
    forall i :: 0 <= i < |ms| ==> !OpenedAt(env, ms, i)
  }

  ghost predicate NoCapability(env: Environment, ms: seq<M.Message>) {
    forall i :: 0 <= i < |ms| ==> !CapabilityAt(env, ms, i)
  }

  /** The messages begin in no way that opens a pool. */
  ghost predicate NothingOpens(env: Environment, ms: seq<M.Message>) {
    forall i: nat, j: nat :: !Opens(env, ms, i, j)
  }

  lemma NeverOpens(env: Environment, ms: seq<M.Message>, c: nat)
    requires 1 <= c <= |ms| && CapabilityAt(env, ms, c - 1)
    requires NoneOpens(env, ms[c..])
    ensures NothingOpens(env, ms)
  {
    AllOpens(env, ms, c);
  }

  /** Where a list can open the pool at all. */
  lemma AllOpens(env: Environment, ms: seq<M.Message>, c: nat)
    requires 1 <= c <= |ms| && CapabilityAt(env, ms, c - 1)
    ensures forall i: nat, j: nat :: Opens(env, ms, i, j) ==> c < j && OpenedAt(env, ms[c..], j - c - 1)
  {
    forall i: nat, j: nat | Opens(env, ms, i, j) ensures c < j && OpenedAt(env, ms[c..], j - c - 1) {
      OneCapability(env, ms, c - 1, i - 1);
    }
  }

  lemma OneCapability(env: Environment, ms: seq<M.Message>, i: nat, j: nat)
    requires CapabilityAt(env, ms, i) && CapabilityAt(env, ms, j)
    ensures i == j
  {
    assert i < j ==> Answerable(env, ms[i]);
    assert j < i ==> Answerable(env, ms[j]);
  }

  /** A list opens the pool in at most one way. */
  lemma OpensOnce(env: Environment, ms: seq<M.Message>, c: nat, n: nat, c': nat, n': nat)
    requires Opens(env, ms, c, n) && Opens(env, ms, c', n')
    ensures c == c' && n == n'
  {
    OneCapability(env, ms, c - 1, c' - 1);
    var rest, i, j := ms[c..], n - c - 1, n' - c - 1;
    var x, y := rest[i], rest[j];
    assert i < j ==> Preliminary(env, x);
    assert j < i ==> Preliminary(env, y);
  }

  /** What follows the deciding message does not matter. */
  lemma OpensByPrefix(env: Environment, ms: seq<M.Message>, c: nat, n: nat, more: seq<M.Message>)
    requires n <= |ms|
    ensures Opens(env, ms, c, n) <==> Opens(env, ms[..n] + more, c, n)
  {
    var other := ms[..n] + more;
    if 1 <= c < n {
      assert forall i :: 0 <= i < n ==> other[i] == ms[i];
      var a, b := ms[c..], other[c..];
      assert forall i :: 0 <= i < n - c ==> a[i] == ms[c + i] && b[i] == other[c + i];
      assert CapabilityAt(env, ms, c - 1) <==> CapabilityAt(env, other, c - 1);
      assert OpenedAt(env, a, n - c - 1) <==> OpenedAt(env, b, n - c - 1);
    }
  }
}
