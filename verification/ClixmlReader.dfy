/**
 What the CLIXML deserializer reads, for any sequence of tokens. Each function follows one method
 of the source; the loops are written as recursion on the tokens still to come.
 */
module ClixmlReader {
  import opened Wrappers
  import opened Bytes
  import opened Clixml
  import CS = ClixmlString
  import Decimal
  import Base64
  import Guid

  /** The tokens not yet read, the two reference tables, and the PSObjects made so far. */
  datatype State = State(
    toks: seq<Token>,
    objRefs: map<int, Value>,
    tnRefs: map<int, seq<Str>>,
    heap: Heap,
    next: int)

  datatype Error = OutOfTokens | TooDeep | BadNumber | BadBase64 | BadGuid | UnknownRef | NoRefId

  datatype Reading<+T> = Reading(r: Result<T, Error>, s: State)

  /** The state after one token. */
  function Tail(s: State): State
    requires s.toks != []
  {
    s.(toks := s.toks[1..])
  }

  /** xml.Decoder.Skip: everything up to the end of the element just entered. */
  function Skip(toks: seq<Token>, depth: nat): (r: Option<seq<Token>>)
    ensures r.Some? ==> |r.value| < |toks|
  {
    if toks == [] then None
    else if toks[0].Start? then Skip(toks[1..], depth + 1)
    else if toks[0].End? then (if depth == 0 then Some(toks[1..]) else Skip(toks[1..], depth - 1))
    else Skip(toks[1..], depth)
  }

  /** xml.Decoder.DecodeElement into a string: the direct character data; inner elements are skipped. */
  function ReadText(toks: seq<Token>, text: Str): (r: Option<(Str, seq<Token>)>)
    ensures r.Some? ==> |r.value.1| < |toks|
    decreases |toks|
  {
    if toks == [] then None
    else match toks[0]
      case Text(t) => ReadText(toks[1..], text + t)
      case End(_) => Some((text, toks[1..]))
      case Start(_, _, _) =>
        match Skip(toks[1..], 0)
        case None => None
        case Some(rest) => ReadText(rest, text)
  }

  /** The value of a leaf element with this text. */
  function LeafValue(tag: Tag, text: Str): Result<Value, Error> {
    match tag
    case STag => Ok(String(CS.Decode(text)))
    case I32Tag =>
      var n := Decimal.ParseInt(text, MIN_INT32, MAX_INT32);
      if n.Some? then Ok(Int32(n.value)) else Err(BadNumber)
    case I64Tag =>
      var n := Decimal.ParseInt(text, MIN_INT64, MAX_INT64);
      if n.Some? then Ok(Int64(n.value)) else Err(BadNumber)
    case BTag => Ok(Bool(text == TRUE))
    case BATag =>
      var b := Base64.Decode(text);
      if b.Some? then Ok(ByteArray(b.value)) else Err(BadBase64)
    case GTag =>
      var g := Guid.Parse(text);
      if g.Some? then Ok(Uuid(g.value)) else Err(BadGuid)
    case SBTag => Ok(ScriptBlock(CS.Decode(text)))
    case _ => Ok(String(text)) // Version
  }

  predicate IsLeafTag(tag: Tag) {
    tag in {STag, I32Tag, I64Tag, BTag, BATag, GTag, SBTag, VersionTag}
  }

  function ReadLeaf(s: State, tag: Tag): (e: Reading<Value>)
    ensures |e.s.toks| <= |s.toks|
  {
    match ReadText(s.toks, [])
    case None => Reading(Err(OutOfTokens), s.(toks := []))
    case Some((text, rest)) => Reading(LeafValue(tag, text), s.(toks := rest))
  }

  function ReadSkipped(s: State): (e: Reading<Value>)
    ensures |e.s.toks| <= |s.toks|
  {
    match Skip(s.toks, 0)
    case None => Reading(Err(OutOfTokens), s.(toks := []))
    case Some(rest) => Reading(Ok(Null), s.(toks := rest))
  }

  /** The integer in a RefId attribute, when there is one. */
  function RefIdOf(t: Token): Option<int>
    requires t.Start?
  {
    if t.refId.Some? then Decimal.Atoi(t.refId.value) else None
  }

  function NameOf(t: Token): Str
    requires t.Start?
  {
    if t.name.Some? then t.name.value else []
  }

  /** deserializeRef. */
  function ReadRef(s: State, t: Token): (e: Reading<Value>)
    requires t.Start?
    ensures |e.s.toks| <= |s.toks|
  {
    if t.refId.Some? && RefIdOf(t).None? then Reading(Err(BadNumber), s)
    else
      match Skip(s.toks, 0)
      case None => Reading(Err(OutOfTokens), s.(toks := []))
      case Some(rest) =>
        var s' := s.(toks := rest);
        if t.refId.None? then Reading(Err(NoRefId), s')
        else if RefIdOf(t).value in s.objRefs then Reading(Ok(s.objRefs[RefIdOf(t).value]), s')
        else Reading(Err(UnknownRef), s')
  }

  function Register(s: State, ref: Option<int>, v: Value): State {
    if ref.Some? then s.(objRefs := s.objRefs[ref.value := v]) else s
  }

  const EMPTY_NODE := Node([], [], map[], [], map[], Null)

  // ---------- the recursive reader: d is the depth counter, limit its maximum ----------

  /** deserializeElement, on the start tag t just read. */
  function ReadElement(s: State, t: Token, d: nat, limit: int): (e: Reading<Value>)
    requires t.Start?
    ensures |e.s.toks| <= |s.toks|
    decreases |s.toks|, 2
  {
    if d >= limit then Reading(Err(TooDeep), s)
    else if IsLeafTag(t.tag) then ReadLeaf(s, t.tag)
    else match t.tag
      case LSTTag =>
        var e := ReadList(s, [], d + 1, limit);
        if e.r.Ok? then Reading(Ok(List(Plain, e.r.value)), e.s) else Reading(Err(e.r.error), e.s)
      case DCTTag =>
        var e := ReadDict(s, map[], d + 1, limit);
        if e.r.Ok? then Reading(Ok(Dict(e.r.value)), e.s) else Reading(Err(e.r.error), e.s)
      case ObjTag =>
        ReadObject(s.(next := s.next + 1), RefIdOf(t), s.next, EMPTY_NODE, false, d + 1, limit)
      case RefTag => ReadRef(s, t)
      case _ => ReadSkipped(s)
  }

  /** deserializeList: every start tag is an element, and only </LST> ends the list. */
  function ReadList(s: State, acc: seq<Value>, d: nat, limit: int): (e: Reading<seq<Value>>)
    ensures |e.s.toks| <= |s.toks|
    decreases |s.toks|, 1
  {
    if s.toks == [] then Reading(Err(OutOfTokens), s)
    else match s.toks[0]
      case Start(_, _, _) =>
        var e := ReadElement(Tail(s), s.toks[0], d, limit);
        if e.r.Err? then Reading(Err(e.r.error), e.s) else ReadList(e.s, acc + [e.r.value], d, limit)
      case End(tag) => if tag == LSTTag then Reading(Ok(acc), Tail(s)) else ReadList(Tail(s), acc, d, limit)
      case Text(_) => ReadList(Tail(s), acc, d, limit)
  }

  /** deserializeDict. */
  function ReadDict(s: State, acc: map<Str, Value>, d: nat, limit: int): (e: Reading<map<Str, Value>>)
    ensures |e.s.toks| <= |s.toks|
    decreases |s.toks|, 1
  {
    if s.toks == [] then Reading(Err(OutOfTokens), s)
    else match s.toks[0]
      case Start(tag, _, _) =>
        if tag == EnTag then
          var e := ReadEntry(Tail(s), [], Null, d, limit);
          if e.r.Err? then Reading(Err(e.r.error), e.s)
          else ReadDict(e.s, acc[e.r.value.0 := e.r.value.1], d, limit)
        else
          var e := ReadSkipped(Tail(s));
          if e.r.Err? then Reading(Err(e.r.error), e.s) else ReadDict(e.s, acc, d, limit)
      case End(tag) => if tag == DCTTag then Reading(Ok(acc), Tail(s)) else ReadDict(Tail(s), acc, d, limit)
      case Text(_) => ReadDict(Tail(s), acc, d, limit)
  }

  /** deserializeDictEntry: a non-string key leaves the key as it was. */
  function ReadEntry(s: State, key: Str, value: Value, d: nat, limit: int): (e: Reading<(Str, Value)>)
    ensures |e.s.toks| <= |s.toks|
    decreases |s.toks|, 1
  {
    if s.toks == [] then Reading(Err(OutOfTokens), s)
    else match s.toks[0]
      case Start(_, name, _) =>
        var e := ReadElement(Tail(s), s.toks[0], d, limit);
        if e.r.Err? then Reading(Err(e.r.error), e.s)
        else if name == Some(KEY) then
          ReadEntry(e.s, if e.r.value.String? then e.r.value.s else key, value, d, limit)
        else if name == Some(VALUE) then ReadEntry(e.s, key, e.r.value, d, limit)
        else ReadEntry(e.s, key, value, d, limit)
      case End(tag) =>
        if tag == EnTag then Reading(Ok((key, value)), Tail(s)) else ReadEntry(Tail(s), key, value, d, limit)
      case Text(_) => ReadEntry(Tail(s), key, value, d, limit)
  }

  /** deserializeProperties. */
  function ReadProperties(s: State, acc: map<Str, Value>, d: nat, limit: int): (e: Reading<map<Str, Value>>)
    ensures |e.s.toks| <= |s.toks|
    decreases |s.toks|, 1
  {
    if s.toks == [] then Reading(Err(OutOfTokens), s)
    else match s.toks[0]
      case Start(_, _, _) =>
        var e := ReadElement(Tail(s), s.toks[0], d, limit);
        if e.r.Err? then Reading(Err(e.r.error), e.s)
        else
          var name := NameOf(s.toks[0]);
          ReadProperties(e.s, if name == [] then acc else acc[name := e.r.value], d, limit)
      case End(tag) =>
        if tag == PropsTag || tag == MSTag then Reading(Ok(acc), Tail(s)) else ReadProperties(Tail(s), acc, d, limit)
      case Text(_) => ReadProperties(Tail(s), acc, d, limit)
  }

  /** deserializeTypeNames. */
  function ReadTypeNames(toks: seq<Token>, names: seq<Str>): (r: Option<(seq<Str>, seq<Token>)>)
    ensures r.Some? ==> |r.value.1| < |toks|
    decreases |toks|
  {
    if toks == [] then None
    else match toks[0]
      case Start(tag, _, _) =>
        if tag == TTag then
          match ReadText(toks[1..], [])
          case None => None
          case Some((text, rest)) => ReadTypeNames(rest, names + [text])
        else ReadTypeNames(toks[1..], names)
      case End(tag) => if tag == TNTag then Some((names, toks[1..])) else ReadTypeNames(toks[1..], names)
      case Text(_) => ReadTypeNames(toks[1..], names)
  }

  /** What TNRef makes of an object: an unknown or missing id changes nothing. */
  function ResolveTypeNames(s: State, t: Token, n: Node): Node
    requires t.Start?
  {
    if RefIdOf(t).Some? && RefIdOf(t).value in s.tnRefs then n.(typeNames := s.tnRefs[RefIdOf(t).value]) else n
  }

  predicate IsHashtable(n: Node) {
    n.typeNames != [] && n.typeNames[0] == HASHTABLE
  }

  /**
   deserializeObject, from inside the element: n is the object at address addr so far. An object
   that turns out to hold a list or a hashtable returns that value before its own end tag is read.
   */
  function ReadObject(s: State, ref: Option<int>, addr: int, n: Node, hasDict: bool, d: nat,
                      limit: int): (e: Reading<Value>)
    ensures |e.s.toks| <= |s.toks|
    decreases |s.toks|, 1
  {
    if s.toks == [] then Reading(Err(OutOfTokens), s)
    else
      var s1 := Tail(s);
      match s.toks[0]
      case Text(_) => ReadObject(s1, ref, addr, n, hasDict, d, limit)
      case End(tag) =>
        if tag != ObjTag then ReadObject(s1, ref, addr, n, hasDict, d, limit)
        else
          var s2 := s1.(heap := s1.heap[addr := n]);
          Reading(Ok(Obj(addr)), if hasDict && IsHashtable(n) then s2 else Register(s2, ref, Obj(addr)))
      case Start(tag, _, _) =>
        var t := s.toks[0];
        match tag
        case TNTag =>
          (match ReadTypeNames(s1.toks, [])
           case None => Reading(Err(OutOfTokens), s1.(toks := []))
           case Some((names, rest)) =>
             var s2 := s1.(toks := rest);
             var s3 := if ref.Some? && RefIdOf(t).Some? then s2.(tnRefs := s2.tnRefs[RefIdOf(t).value := names])
                 else s2;
             ReadObject(s3, ref, addr, n.(typeNames := names), hasDict, d, limit))
        case TNRefTag =>
          var e := ReadSkipped(s1);
          if e.r.Err? then Reading(Err(e.r.error), e.s)
          else ReadObject(e.s, ref, addr, ResolveTypeNames(s1, t, n), hasDict, d, limit)
        case ToStringTag =>
          (match ReadText(s1.toks, [])
           case None => Reading(Err(OutOfTokens), s1.(toks := []))
           case Some((text, rest)) =>
             ReadObject(s1.(toks := rest), ref, addr, n.(toString := CS.Decode(text)), hasDict, d, limit))
        case PropsTag =>
          var e := ReadProperties(s1, map[], d, limit);
          if e.r.Err? then Reading(Err(e.r.error), e.s)
          else ReadObject(e.s, ref, addr, n.(props := e.r.value), hasDict, d, limit)
        case MSTag =>
          var e := ReadProperties(s1, map[], d, limit);
          if e.r.Err? then Reading(Err(e.r.error), e.s)
          else ReadObject(e.s, ref, addr, n.(props := e.r.value), hasDict, d, limit)
        case DCTTag =>
          var e := ReadDict(s1, map[], d, limit);
          if e.r.Err? then Reading(Err(e.r.error), e.s)
          else if IsHashtable(n) then Reading(Ok(Dict(e.r.value)), Register(e.s, ref, Dict(e.r.value)))
          else ReadObject(e.s, ref, addr, n.(props := n.props + e.r.value), true, d, limit)
        case LSTTag =>
          var e := ReadList(s1, [], d, limit);
          if e.r.Err? then Reading(Err(e.r.error), e.s)
          else Reading(Ok(List(Plain, e.r.value)), Register(e.s, ref, List(Plain, e.r.value)))
        case _ =>
          var e := ReadElement(s1, t, d, limit);
          if e.r.Err? then Reading(Err(e.r.error), e.s)
          else ReadObject(e.s, ref, addr, AddInner(n, NameOf(t), e.r.value), hasDict, d, limit)
  }

  /** An element directly inside Obj: a named one is a property, an unnamed one the wrapped value. */
  function AddInner(n: Node, name: Str, v: Value): Node {
    if v == Null then n else if name != [] then n.(props := n.props[name := v]) else n.(value := v)
  }

  /** The loop of Deserialize over the children of Objs. */
  function ReadObjs(s: State, acc: seq<Value>, d: nat, limit: int): (e: Reading<seq<Value>>)
    ensures |e.s.toks| <= |s.toks|
    decreases |s.toks|
  {
    if s.toks == [] then Reading(Err(OutOfTokens), s)
    else match s.toks[0]
      case Start(_, _, _) =>
        var e := ReadElement(Tail(s), s.toks[0], d, limit);
        if e.r.Err? then Reading(Err(e.r.error), e.s) else ReadObjs(e.s, acc + [e.r.value], d, limit)
      case End(tag) => if tag == ObjsTag then Reading(Ok(acc), Tail(s)) else ReadObjs(Tail(s), acc, d, limit)
      case Text(_) => ReadObjs(Tail(s), acc, d, limit)
  }

  /** Deserialize: the children of a root Objs, or the root element itself. */
  function ReadDocument(s: State, d: nat, limit: int): (e: Reading<seq<Value>>)
    ensures |e.s.toks| <= |s.toks|
    decreases |s.toks|
  {
    if s.toks == [] then Reading(Err(OutOfTokens), s)
    else if !s.toks[0].Start? then ReadDocument(Tail(s), d, limit)
    else if s.toks[0].tag == ObjsTag then ReadObjs(Tail(s), [], d, limit)
    else
      var e := ReadElement(Tail(s), s.toks[0], d, limit);
      if e.r.Ok? then Reading(Ok([e.r.value]), e.s) else Reading(Err(e.r.error), e.s)
  }
}
