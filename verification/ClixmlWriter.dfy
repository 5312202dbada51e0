/**
 What the CLIXML serializer writes. Each function follows one method of the source and returns
 the tokens it appends and the tables it leaves, together with the meaning of those tokens: the
 value and the objects that a reader of them is left with.
 */
module ClixmlWriter {
  import opened Wrappers
  import opened Clixml
  import CS = ClixmlString
  import Decimal
  import Base64
  import Guid

  /**
   The serializer's tables. `lists` holds the type-name list written under each TN id, `open` the
   objects whose Obj element is still being written, and `base` the address a reader will give
   the first Obj element; these three are not part of the source's state.
   */
  datatype Tables = Tables(
    next: nat,
    objRefs: map<int, nat>,
    tnRefs: map<Str, nat>,
    lists: seq<seq<Str>>,
    open: set<int>,
    base: int)

  function FreshTables(base: int): Tables {
    Tables(0, map[], map[], [], {}, base)
  }

  /** NilPointer is the panic of the source on a nil *PSObject. */
  datatype Status = Done | UnsupportedType | NilPointer

  /**
   `image` and `nodes` are the value the tokens stand for and the objects they define; `back` says
   that a Ref was written to an object still open; `need` is how many nested Obj elements a value
   element stands in at most, counting itself as one more.
   */
  datatype Emission<+T> = Emission(
    status: Status,
    toks: seq<Token>,
    t: Tables,
    image: T,
    nodes: Heap,
    back: bool,
    need: nat)

  function NameAttr(name: Str): Option<Str> {
    if name == [] then None else Some(name)
  }

  function Max(a: nat, b: nat): nat {
    if a < b then b else a
  }

  /** Objects not yet numbered: what the recursion through pointers uses up. */
  function Unvisited(h: Heap, t: Tables): nat {
    |h.Keys - t.objRefs.Keys|
  }

  lemma UnvisitedMonotone(h: Heap, t: Tables, t': Tables)
    requires t.objRefs.Keys <= t'.objRefs.Keys
    ensures Unvisited(h, t') <= Unvisited(h, t)
  {
    SubsetSize(h.Keys - t'.objRefs.Keys, h.Keys - t.objRefs.Keys);
  }

  lemma UnvisitedDrops(h: Heap, t: Tables, t': Tables, id: int)
    requires id in h && id !in t.objRefs && t.objRefs.Keys + {id} <= t'.objRefs.Keys
    ensures Unvisited(h, t') < Unvisited(h, t)
  {
    SubsetSize(h.Keys - t'.objRefs.Keys, (h.Keys - t.objRefs.Keys) - {id});
  }

  lemma SubsetSize<T>(a: set<T>, b: set<T>)
    requires a <= b
    ensures |a| <= |b|
  {
    assert b == a + (b - a);
  }

  function Leaf(t: Tables, tag: Tag, name: Str, text: Str, image: Value): Emission<Value> {
    Emission(Done, [Start(tag, NameAttr(name), None)] + (TextTokens(text) + [End(tag)]), t, image, map[], false, 1)
  }

  function WriteNil(t: Tables, name: Str): Emission<Value> {
    Emission(Done, [Start(NilTag, NameAttr(name), None), End(NilTag)], t, Null, map[], false, 1)
  }

  function NameTokens(names: seq<Str>): seq<Token> {
    if names == [] then []
    else [Start(TTag, None, None)] + (TextTokens(names[0]) + ([End(TTag)] + NameTokens(names[1..])))
  }

  /** Writes a TNRef for a key already in the table, otherwise a TN under the next id. */
  function TypeNames(t: Tables, key: Str, names: seq<Str>): (r: (seq<Token>, Tables))
    ensures r.1.objRefs == t.objRefs && r.1.next == t.next && r.1.open == t.open && r.1.base == t.base
    ensures key in r.1.tnRefs
  {
    if key in t.tnRefs then
      ([Start(TNRefTag, None, Some(Decimal.Itoa(t.tnRefs[key]))), End(TNRefTag)], t)
    else
      var id := |t.tnRefs|;
      ([Start(TNTag, None, Some(Decimal.Itoa(id)))] + (NameTokens(names) + [End(TNTag)]),
       t.(tnRefs := t.tnRefs[key := id], lists := t.lists + [names]))
  }

  /** As TypeNames, but nothing at all for an empty list. */
  function OptionalTypeNames(t: Tables, names: seq<Str>): (r: (seq<Token>, Tables))
    ensures r.1.objRefs == t.objRefs && r.1.next == t.next && r.1.open == t.open && r.1.base == t.base
  {
    if names == [] then ([], t) else TypeNames(t, Join(names), names)
  }

  /** The list a reader has on record for a key after TypeNames. */
  function Resolved(t: Tables, key: Str): seq<Str> {
    if key in t.tnRefs && t.tnRefs[key] < |t.lists| then t.lists[t.tnRefs[key]] else []
  }

  function ObjStart(t: Tables, name: Str): Token {
    Start(ObjTag, NameAttr(name), Some(Decimal.Itoa(t.next)))
  }

  function ToStringTokens(s: Str): seq<Token> {
    [Start(ToStringTag, None, None)] + (TextTokens(CS.Encode(s)) + [End(ToStringTag)])
  }

  function OptionalToString(s: Str): seq<Token> {
    if s == [] then [] else ToStringTokens(s)
  }

  function ListNames(kind: ListKind): seq<Str> {
    if kind.Plain? then ARRAY_NAMES else kind.names
  }

  // ---------- the recursive serializer ----------

  /** serializeValueWithName. */
  function Write(h: Heap, t: Tables, v: Value, name: Str): (e: Emission<Value>)
    ensures t.objRefs.Keys <= e.t.objRefs.Keys && e.t.base == t.base
    ensures e.need >= 1
    decreases Unvisited(h, t), v, 2, 0
  {
    match v
    case Null => WriteNil(t, name)
    case String(s) => Leaf(t, STag, name, CS.Encode(s), String(CS.Decode(CS.Encode(s))))
    case Int(n) => Leaf(t, I32Tag, name, Decimal.Itoa(SafeInt32(n)), Int32(SafeInt32(n)))
    case Int32(i) => Leaf(t, I32Tag, name, Decimal.Itoa(i), v)
    case Int64(l) => Leaf(t, I64Tag, name, Decimal.Itoa(l), v)
    case Bool(b) => Leaf(t, BTag, name, if b then TRUE else FALSE, v)
    case ByteArray(b) => Leaf(t, BATag, name, Base64.Encode(b), v)
    case Uuid(g) => Leaf(t, GTag, name, Guid.Format(g), v)
    case ScriptBlock(c) => Leaf(t, SBTag, name, CS.Encode(c), ScriptBlock(CS.Decode(CS.Encode(c))))
    case Enum(_, _, _) => WriteEnum(t, v, name)
    case List(_, _) => WriteList(h, t, v, name)
    case Dict(m) => WriteDict(h, t, v, name)
    case Obj(id) =>
      if id in t.objRefs then
        Emission(Done, [Start(RefTag, NameAttr(name), Some(Decimal.Itoa(t.objRefs[id]))), End(RefTag)], t,
                 Obj(t.base + t.objRefs[id]), map[], id in t.open, 1)
      else if id in h then WriteObject(h, t, id, name)
      else Emission(NilPointer, [], t, Null, map[], false, 1)
    case Unsupported => Emission(UnsupportedType, [], t, Null, map[], false, 1)
  }

  /** serializePSRPEnumFast. */
  function WriteEnum(t: Tables, v: Value, name: Str): (e: Emission<Value>)
    requires v.Enum?
    ensures e.t.objRefs == t.objRefs && e.t.base == t.base
    ensures e.need >= 1
  {
    var key := Join(EnumNames(v.enumType));
    var (tn, t') := TypeNames(t.(next := t.next + 1), key, EnumNames(v.enumType));
    var text := CS.Decode(CS.Encode(v.enumText));
    Emission(
      Done,
      [ObjStart(t, name)] + (tn + (ToStringTokens(v.enumText)
        + ([Start(I32Tag, None, None)] + (TextTokens(Decimal.Itoa(v.enumValue)) + [End(I32Tag), End(ObjTag)])))),
      t',
      Obj(t.base + t.next),
      map[t.base + t.next := Node(Resolved(t', key), text, map[], [], map[], Int32(v.enumValue))],
      false,
      2)
  }

  /** serializeArray and serializeTypedList. */
  function WriteList(h: Heap, t: Tables, v: Value, name: Str): (e: Emission<Value>)
    requires v.List?
    ensures t.objRefs.Keys <= e.t.objRefs.Keys && e.t.base == t.base
    ensures e.need >= 1
    decreases Unvisited(h, t), v, 1, 0
  {
    var (tn, t') := OptionalTypeNames(t.(next := t.next + 1), ListNames(v.kind));
    var items := WriteItems(h, t', v, 0);
    Emission(
      items.status,
      [ObjStart(t, name)] + (tn + ([Start(LSTTag, None, None)] + (items.toks
        + (if items.status == Done then [End(LSTTag), End(ObjTag)] else [])))),
      items.t,
      List(Plain, items.image),
      items.nodes,
      items.back,
      1 + items.need)
  }

  /** The loop over the elements, from the i-th on. */
  function WriteItems(h: Heap, t: Tables, v: Value, i: nat): (e: Emission<seq<Value>>)
    requires v.List?
    requires i <= |v.items|
    ensures t.objRefs.Keys <= e.t.objRefs.Keys && e.t.base == t.base
    decreases Unvisited(h, t), v, 0, |v.items| - i
  {
    if i == |v.items| then Emission(Done, [], t, [], map[], false, 0)
    else
      var first := Write(h, t, v.items[i], []);
      if first.status != Done then Emission(first.status, first.toks, first.t, [], map[], false, 0)
      else
        UnvisitedMonotone(h, t, first.t);
        var rest := WriteItems(h, first.t, v, i + 1);
        Emission(rest.status, first.toks + rest.toks, rest.t, [first.image] + rest.image, first.nodes + rest.nodes,
                 first.back || rest.back, Max(first.need, rest.need))
  }

  /** serializeHashtable. */
  function WriteDict(h: Heap, t: Tables, v: Value, name: Str): (e: Emission<Value>)
    requires v.Dict?
    ensures t.objRefs.Keys <= e.t.objRefs.Keys && e.t.base == t.base
    ensures e.need >= 1
    decreases Unvisited(h, t), v, 1, 0
  {
    var (tn, t') := TypeNames(t.(next := t.next + 1), HASHTABLE, HASHTABLE_NAMES);
    var entries := WriteEntries(h, t', v, SortedKeys(v.m.Keys), 0);
    Emission(
      entries.status,
      [ObjStart(t, name)] + (tn + ([Start(DCTTag, None, None)] + (entries.toks
        + (if entries.status == Done then [End(DCTTag), End(ObjTag)] else [])))),
      entries.t,
      Dict(entries.image),
      entries.nodes,
      entries.back,
      1 + entries.need)
  }

  /** The loop over the entries of a hashtable, from the i-th key on. */
  function WriteEntries(h: Heap, t: Tables, v: Value, keys: seq<Str>, i: nat): (e: Emission<map<Str, Value>>)
    requires v.Dict? && i <= |keys| && forall k :: k in keys ==> k in v.m
    ensures t.objRefs.Keys <= e.t.objRefs.Keys && e.t.base == t.base
    decreases Unvisited(h, t), v, 0, |keys| - i
  {
    if i == |keys| then Emission(Done, [], t, map[], map[], false, 0)
    else
      var key := Leaf(t, STag, KEY, keys[i], String(CS.Decode(keys[i])));
      var val := Write(h, t, v.m[keys[i]], VALUE);
      var opening := [Start(EnTag, None, None)] + (key.toks + val.toks);
      if val.status != Done then Emission(val.status, opening, val.t, map[], map[], false, 0)
      else
        UnvisitedMonotone(h, t, val.t);
        var rest := WriteEntries(h, val.t, v, keys, i + 1);
        Emission(rest.status, opening + ([End(EnTag)] + rest.toks), rest.t,
                 map[CS.Decode(keys[i]) := val.image] + rest.image, val.nodes + rest.nodes,
                 val.back || rest.back, Max(val.need, rest.need))
  }

  /** serializePSObject, for an object met for the first time. */
  function WriteObject(h: Heap, t: Tables, id: int, name: Str): (e: Emission<Value>)
    requires id in h && id !in t.objRefs
    ensures t.objRefs.Keys <= e.t.objRefs.Keys && e.t.base == t.base
    ensures e.need >= 1
    decreases Unvisited(h, t), Obj(id), 1, 0
  {
    var n := h[id];
    var entered := t.(next := t.next + 1, objRefs := t.objRefs[id := t.next], open := t.open + {id});
    var (tn, named) := OptionalTypeNames(entered, n.typeNames);
    var head := [ObjStart(t, name)] + (tn + OptionalToString(n.toString));
    UnvisitedDrops(h, t, named, id);
    var ms := WriteBag(h, named, MSTag, Dict(n.members), MemberKeys(n));
    if ms.status != Done then Emission(ms.status, head + ms.toks, ms.t, Null, map[], false, 1)
    else
      UnvisitedMonotone(h, named, ms.t);
      var ps := WriteBag(h, ms.t, PropsTag, Dict(n.props), SortedKeys(n.props.Keys));
      if ps.status != Done then Emission(ps.status, head + (ms.toks + ps.toks), ps.t, Null, map[], false, 1)
      else
        var addr := t.base + t.next;
        Emission(
          Done,
          head + (ms.toks + (ps.toks + [End(ObjTag)])),
          ps.t.(open := ps.t.open - {id}),
          Obj(addr),
          ms.nodes + ps.nodes + map[addr := ObjectImage(n, named, ms.image, ps.image)],
          ms.back || ps.back,
          1 + Max(ms.need, ps.need))
  }

  /** What a reader makes of an Obj element: Props, read last, replaces what MS gave. */
  function ObjectImage(n: Node, named: Tables, ms: map<Str, Value>, ps: map<Str, Value>): Node {
    Node(
      if n.typeNames == [] then [] else Resolved(named, Join(n.typeNames)),
      CS.Decode(CS.Encode(n.toString)),
      map[], [],
      if n.props != map[] then ps else if n.members != map[] then ms else map[],
      Null)
  }

  /** An MS or Props element, absent when the map is empty. */
  function WriteBag(h: Heap, t: Tables, tag: Tag, v: Value, keys: seq<Str>): (e: Emission<map<Str, Value>>)
    requires v.Dict?
    ensures t.objRefs.Keys <= e.t.objRefs.Keys && e.t.base == t.base
    decreases Unvisited(h, t), v, 1, 0
  {
    if v.m == map[] then Emission(Done, [], t, map[], map[], false, 0)
    else
      var e := WriteProperties(h, t, v, keys, 0);
      e.(toks := [Start(tag, None, None)] + (e.toks + (if e.status == Done then [End(tag)] else [])))
  }

  /** The loop over the properties, from the i-th key on; an unnamed property is lost to the reader. */
  function WriteProperties(h: Heap, t: Tables, v: Value, keys: seq<Str>, i: nat): (e: Emission<map<Str, Value>>)
    requires v.Dict? && i <= |keys|
    ensures t.objRefs.Keys <= e.t.objRefs.Keys && e.t.base == t.base
    decreases Unvisited(h, t), v, 0, |keys| - i
  {
    if i == |keys| then Emission(Done, [], t, map[], map[], false, 0)
    else
      var k := keys[i];
      var val := if k in v.m then Write(h, t, v.m[k], k) else WriteNil(t, k);
      if val.status != Done then Emission(val.status, val.toks, val.t, map[], map[], false, 0)
      else
        UnvisitedMonotone(h, t, val.t);
        var rest := WriteProperties(h, val.t, v, keys, i + 1);
        Emission(rest.status, val.toks + rest.toks, rest.t,
                 (if k == [] then map[] else map[k := val.image]) + rest.image, val.nodes + rest.nodes,
                 val.back || rest.back, Max(val.need, rest.need))
  }
}
