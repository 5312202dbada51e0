/**
 Reading back what the serializer wrote. The reader gives the first Obj element the address
 `base` and every further one the next address, so that an object numbered n is found at base + n.
 */
module ClixmlRoundTrip {
  import opened Wrappers
  import opened Bytes
  import opened Sequences
  import opened Clixml
  import opened ClixmlWriter
  import opened ClixmlReader
  import opened ClixmlTables
  import CS = ClixmlString
  import Decimal
  import Base64
  import Guid

  /**
   The reader's tables match the serializer's: every list and every closed object is on record
   under its id. With `clean`, no open object is, as when the reader started with empty tables.
   */
  ghost predicate Agree(t: Tables, s: State, clean: bool) {
    && s.next == t.base + t.next
    && (forall j :: 0 <= j < |t.lists| ==> j in s.tnRefs && s.tnRefs[j] == t.lists[j])
    && (forall o :: o in t.objRefs && o !in t.open ==>
          t.objRefs[o] in s.objRefs && s.objRefs[t.objRefs[o]] == Obj(t.base + t.objRefs[o]))
    && (clean ==>
          (forall n :: n in s.objRefs ==> n < t.next) &&
          (forall o :: o in t.open && o in t.objRefs ==> t.objRefs[o] !in s.objRefs))
  }

  /** The end tag that an Obj holding a list or a hashtable leaves unread. */
  function Stray(v: Value): seq<Token> {
    if v.List? || v.Dict? then [End(ObjTag)] else []
  }

  /** Ids fit in the 64-bit integers the reader parses them as. */
  predicate InRange(t: Tables) {
    t.next <= MAX_INT64
  }

  /** A reader that had h now has h' as well as the objects in nodes. */
  ghost predicate Added(h: Heap, nodes: Heap, h': Heap) {
    h' == h + nodes
  }

  /** A reading of the tokens of e in front of rest, at depth d: exactly the image, or an error. */
  ghost predicate Outcome<T, U>(e: Emission<T>, s: State, rest: seq<Token>, x: Reading<U>, want: U,
                                d: nat, limit: int, clean: bool) {
    if !e.back && d + e.need <= limit then
      && x.r == Ok(want)
      && x.s.toks == rest
      && Added(s.heap, e.nodes, x.s.heap)
      && Agree(e.t, x.s, clean)
    else x.r.Err?
  }

  /** x is what the reader makes of the object n at addr, from the state s inside its element on. */
  ghost predicate ReadsOn(x: Reading<Value>, s: State, id: int, addr: int, n: Node, d: nat, limit: int) {
    x == ReadObject(s, Some(id), addr, n, false, d, limit)
  }

  // ---------- leaves ----------

  lemma ReadWrittenText(text: Str, tag: Tag, rest: seq<Token>)
    ensures ReadText(TextTokens(text) + ([End(tag)] + rest), []) == Some((text, rest))
  {
    var toks := TextTokens(text) + ([End(tag)] + rest);
    if text == [] {
      assert toks == [End(tag)] + rest;
    } else {
      assert toks == [Text(text)] + ([End(tag)] + rest);
      assert toks[1..] == [End(tag)] + rest;
      assert [] + text == text;
    }
  }

  /** A leaf element reads as its text's value. */
  lemma ReadWrittenLeaf(s: State, tag: Tag, text: Str, rest: seq<Token>)
    requires s.toks == TextTokens(text) + ([End(tag)] + rest)
    ensures ReadLeaf(s, tag) == Reading(LeafValue(tag, text), s.(toks := rest))
  {
    ReadWrittenText(text, tag, rest);
  }

  lemma SkipAtOnce(tag: Tag, rest: seq<Token>)
    ensures Skip([End(tag)] + rest, 0) == Some(rest)
  {
    assert ([End(tag)] + rest)[1..] == rest;
  }

  lemma TrueIsNotFalse()
    ensures TRUE != FALSE
  {
    assert |TRUE| == 4 && |FALSE| == 5;
  }

  predicate IsLeaf(v: Value) {
    v.String? || v.Int? || v.Int32? || v.Int64? || v.Bool? || v.ByteArray? || v.Uuid? || v.ScriptBlock?
  }

  /** The element and the text a leaf is written as; the value of that text is the leaf's image. */
  lemma LeafForm(h: Heap, t: Tables, v: Value, name: Str) returns (tag: Tag, text: Str)
    requires IsLeaf(v)
    ensures IsLeafTag(tag) && Write(h, t, v, name) == Leaf(t, tag, name, text, Write(h, t, v, name).image)
    ensures LeafValue(tag, text) == Ok(Write(h, t, v, name).image)
  {
    if v.Int? || v.Int32? || v.Int64? {
      tag, text := NumberForm(h, t, v, name);
    } else if v.ByteArray? || v.Uuid? {
      tag, text := BytesForm(h, t, v, name);
    } else {
      tag, text := TextForm(h, t, v, name);
    }
  }

  lemma TextForm(h: Heap, t: Tables, v: Value, name: Str) returns (tag: Tag, text: Str)
    requires v.String? || v.ScriptBlock? || v.Bool?
    ensures IsLeafTag(tag) && Write(h, t, v, name) == Leaf(t, tag, name, text, Write(h, t, v, name).image)
    ensures LeafValue(tag, text) == Ok(Write(h, t, v, name).image)
  {
    match v
    case String(s) => tag, text := STag, CS.Encode(s);
    case ScriptBlock(c) => tag, text := SBTag, CS.Encode(c);
    case Bool(b) =>
      TrueIsNotFalse();
      tag, text := BTag, if b then TRUE else FALSE;
  }

  lemma BytesForm(h: Heap, t: Tables, v: Value, name: Str) returns (tag: Tag, text: Str)
    requires v.ByteArray? || v.Uuid?
    ensures IsLeafTag(tag) && Write(h, t, v, name) == Leaf(t, tag, name, text, Write(h, t, v, name).image)
    ensures LeafValue(tag, text) == Ok(Write(h, t, v, name).image)
  {
    if v.ByteArray? {
      Base64.DecodeEncode(v.bytes);
      tag, text := BATag, Base64.Encode(v.bytes);
    } else {
      Guid.ParseFormat(v.g);
      tag, text := GTag, Guid.Format(v.g);
    }
  }

  lemma NumberForm(h: Heap, t: Tables, v: Value, name: Str) returns (tag: Tag, text: Str)
    requires v.Int? || v.Int32? || v.Int64?
    ensures IsLeafTag(tag) && Write(h, t, v, name) == Leaf(t, tag, name, text, Write(h, t, v, name).image)
    ensures LeafValue(tag, text) == Ok(Write(h, t, v, name).image)
  {
    if v.Int64? {
      Decimal.ParseItoa(v.l, MIN_INT64, MAX_INT64);
      tag, text := I64Tag, Decimal.Itoa(v.l);
    } else {
      var n := if v.Int? then SafeInt32(v.n) else v.i;
      Decimal.ParseItoa(n, MIN_INT32, MAX_INT32);
      tag, text := I32Tag, Decimal.Itoa(n);
    }
  }

  // ---------- type names ----------

  lemma {:induction false} ReadWrittenNames(names: seq<Str>, acc: seq<Str>, rest: seq<Token>)
    ensures ReadTypeNames(NameTokens(names) + ([End(TNTag)] + rest), acc) == Some((acc + names, rest))
    decreases |names|
  {
    var toks := NameTokens(names) + ([End(TNTag)] + rest);
    if names == [] {
      assert toks == [End(TNTag)] + rest;
      assert toks[1..] == rest && acc + names == acc;
    } else {
      var more := NameTokens(names[1..]) + ([End(TNTag)] + rest);
      var inner := TextTokens(names[0]) + ([End(TTag)] + more);
      assert toks == [Start(TTag, None, None)] + inner;
      assert toks[1..] == inner;
      ReadWrittenText(names[0], TTag, more);
      ReadWrittenNames(names[1..], acc + [names[0]], rest);
      assert acc + [names[0]] + names[1..] == acc + names;
    }
  }

  /** The reader's tables after the type names of an element. */
  function AfterNames(t: Tables, s: State, key: Str, names: seq<Str>, rest: seq<Token>): State {
    s.(toks := rest, tnRefs := if key in t.tnRefs then s.tnRefs else s.tnRefs[|t.lists| := names])
  }

  /** Reading the type names of an element sets them on the object, and the tables still agree. */
  lemma ReadWrittenTypeNames(t: Tables, s: State, key: Str, names: seq<Str>, rest: seq<Token>,
                             ref: Option<int>, addr: int, n: Node, d: nat, limit: int, clean: bool)
    requires Valid(t) && Agree(t, s, clean) && InRange(t) && ref.Some?
    requires s.toks == TypeNames(t, key, names).0 + rest
    ensures var t', s' := TypeNames(t, key, names).1, AfterNames(t, s, key, names, rest);
            && Agree(t', s', clean)
            && ReadObject(s, ref, addr, n, false, d, limit)
               == ReadObject(s', ref, addr, n.(typeNames := Resolved(t', key)), false, d, limit)
  {
    NamesAgree(t, s, key, names, rest, clean);
    if key in t.tnRefs {
      ReadKnownTypeNames(t, s, key, names, rest, ref, addr, n, d, limit);
    } else {
      ReadNewTypeNames(t, s, key, names, rest, ref, addr, n, d, limit);
    }
  }

  lemma NamesAgree(t: Tables, s: State, key: Str, names: seq<Str>, rest: seq<Token>, clean: bool)
    requires Valid(t) && Agree(t, s, clean)
    ensures Agree(TypeNames(t, key, names).1, AfterNames(t, s, key, names, rest), clean)
    ensures Resolved(TypeNames(t, key, names).1, key) == if key in t.tnRefs then Resolved(t, key) else names
  {
  }

  lemma ReadKnownTypeNames(t: Tables, s: State, key: Str, names: seq<Str>, rest: seq<Token>,
                           ref: Option<int>, addr: int, n: Node, d: nat, limit: int)
    requires Valid(t) && InRange(t) && key in t.tnRefs
    requires forall j :: 0 <= j < |t.lists| ==> j in s.tnRefs && s.tnRefs[j] == t.lists[j]
    requires s.toks == TypeNames(t, key, names).0 + rest
    ensures ReadObject(s, ref, addr, n, false, d, limit)
            == ReadObject(s.(toks := rest), ref, addr, n.(typeNames := Resolved(t, key)), false, d, limit)
  {
    var id := t.tnRefs[key];
    Decimal.ParseItoa(id, MIN_INT64, MAX_INT64);
    assert s.toks == [Start(TNRefTag, None, Some(Decimal.Itoa(id)))] + ([End(TNRefTag)] + rest);
    assert Tail(s).toks == [End(TNRefTag)] + rest;
    SkipAtOnce(TNRefTag, rest);
    assert ResolveTypeNames(Tail(s), s.toks[0], n) == n.(typeNames := Resolved(t, key));
  }

  lemma ReadNewTypeNames(t: Tables, s: State, key: Str, names: seq<Str>, rest: seq<Token>,
                         ref: Option<int>, addr: int, n: Node, d: nat, limit: int)
    requires Valid(t) && InRange(t) && key !in t.tnRefs && ref.Some?
    requires s.toks == TypeNames(t, key, names).0 + rest
    ensures ReadObject(s, ref, addr, n, false, d, limit)
            == ReadObject(AfterNames(t, s, key, names, rest), ref, addr, n.(typeNames := names), false, d, limit)
  {
    var id := |t.tnRefs|;
    Decimal.ParseItoa(id, MIN_INT64, MAX_INT64);
    NewTypeNameTokens(t, key, names, rest, s.toks, id);
    ReadWrittenNames(names, [], rest);
    assert [] + names == names;
    NewNamesInside(s, ref, addr, n, d, limit, id, names, rest);
  }

  lemma NewNamesInside(s: State, ref: Option<int>, addr: int, n: Node, d: nat, limit: int, id: nat, names: seq<Str>,
                       rest: seq<Token>)
    requires ref.Some? && s.toks != [] && s.toks[0] == Start(TNTag, None, Some(Decimal.Itoa(id)))
    requires RefIdOf(s.toks[0]) == Some(id) && ReadTypeNames(s.toks[1..], []) == Some((names, rest))
    ensures ReadObject(s, ref, addr, n, false, d, limit)
            == ReadObject(s.(toks := rest, tnRefs := s.tnRefs[id := names]), ref, addr, n.(typeNames := names), false,
                          d, limit)
  {
  }

  lemma NewTypeNameTokens(t: Tables, key: Str, names: seq<Str>, rest: seq<Token>, toks: seq<Token>, id: nat)
    requires key !in t.tnRefs && id == |t.tnRefs| && toks == TypeNames(t, key, names).0 + rest
    ensures toks != [] && toks[0] == Start(TNTag, None, Some(Decimal.Itoa(id)))
    ensures toks[1..] == NameTokens(names) + ([End(TNTag)] + rest)
  {
    assert toks == [Start(TNTag, None, Some(Decimal.Itoa(id)))] + (NameTokens(names) + ([End(TNTag)] + rest));
  }

  /** As ReadWrittenTypeNames, for names that are only written when there are any. */
  lemma ReadOptionalTypeNames(t: Tables, s: State, names: seq<Str>, rest: seq<Token>,
                              ref: Option<int>, addr: int, d: nat, limit: int, clean: bool) returns (s': State)
    requires Valid(t) && Agree(t, s, clean) && InRange(t) && ref.Some?
    requires s.toks == OptionalTypeNames(t, names).0 + rest
    ensures var t' := OptionalTypeNames(t, names).1;
            && Agree(t', s', clean) && s'.toks == rest && s'.heap == s.heap
            && ReadObject(s, ref, addr, EMPTY_NODE, false, d, limit)
               == ReadObject(s', ref, addr, EMPTY_NODE.(typeNames := WrittenNames(t', names)), false, d, limit)
  {
    if names == [] {
      s' := s;
      assert s.toks == rest;
    } else {
      s' := AfterNames(t, s, Join(names), names, rest);
      ReadWrittenTypeNames(t, s, Join(names), names, rest, ref, addr, EMPTY_NODE, d, limit, clean);
    }
  }

  /** The type names a reader gives an object, from the tables after they were written. */
  function WrittenNames(t: Tables, names: seq<Str>): seq<Str> {
    if names == [] then [] else Resolved(t, Join(names))
  }

  // ---------- value elements ----------

  /** From the start tag of an Obj element into the object. */
  lemma EnterElement(t: Tables, s: State, name: Str, body: seq<Token>, rest: seq<Token>,
                     d: nat, d1: nat, limit: int)
    requires s.toks == [ObjStart(t, name)] + body + rest && d < limit && InRange(t) && d1 == d + 1
    ensures s.toks[0] == ObjStart(t, name)
    ensures ReadsOn(ReadElement(Tail(s), s.toks[0], d, limit), s.(toks := body + rest, next := s.next + 1),
                    t.next, s.next, EMPTY_NODE, d1, limit)
  {
    assert s.toks == [ObjStart(t, name)] + (body + rest);
    assert Tail(s).toks == body + rest;
    Decimal.ParseItoa(t.next, MIN_INT64, MAX_INT64);
  }

  /** An element without objects, read or refused for its depth alone. */
  lemma OutcomeAtOnce<T, U>(e: Emission<T>, s: State, rest: seq<Token>, x: Reading<U>, want: U, d: nat, limit: int,
                            clean: bool)
    requires !e.back && e.need == 1 && e.nodes == map[] && Agree(e.t, s, clean)
    requires if d < limit then x == Reading(Ok(want), s.(toks := rest)) else x.r.Err?
    ensures Outcome(e, s, rest, x, want, d, limit, clean)
  {
    assert s.heap == s.heap + map[];
  }

  lemma ReadsLeaf(h: Heap, t: Tables, v: Value, name: Str, s: State, rest: seq<Token>, d: nat, limit: int, clean: bool)
    requires IsLeaf(v)
    requires Agree(t, s, clean) && s.toks == Write(h, t, v, name).toks + rest
    ensures s.toks != [] && s.toks[0].Start? && s.toks[0].name == NameAttr(name)
    ensures var e := Write(h, t, v, name);
            Outcome(e, s, rest, ReadElement(Tail(s), s.toks[0], d, limit), e.image, d, limit, clean)
  {
    var tag, text := LeafForm(h, t, v, name);
    var image := Write(h, t, v, name).image;
    ReadsLeafElement(t, tag, name, text, image, s, rest, d, limit, clean);
  }

  lemma ReadsLeafElement(t: Tables, tag: Tag, name: Str, text: Str, image: Value,
                         s: State, rest: seq<Token>, d: nat, limit: int, clean: bool)
    requires IsLeafTag(tag) && LeafValue(tag, text) == Ok(image)
    requires Agree(t, s, clean) && s.toks == Leaf(t, tag, name, text, image).toks + rest
    ensures s.toks != [] && s.toks[0].Start? && s.toks[0].name == NameAttr(name)
    ensures var e := Leaf(t, tag, name, text, image);
            Outcome(e, s, rest, ReadElement(Tail(s), s.toks[0], d, limit), image, d, limit, clean)
  {
    var inner := TextTokens(text) + ([End(tag)] + rest);
    Regroup3([Start(tag, NameAttr(name), None)], TextTokens(text), [End(tag)], rest);
    Head(Start(tag, NameAttr(name), None), inner);
    ReadWrittenLeaf(Tail(s), tag, text, rest);
    assert s.heap == s.heap + map[];
  }

  lemma ReadsNil(t: Tables, name: Str, s: State, rest: seq<Token>, d: nat, limit: int, clean: bool)
    requires Agree(t, s, clean) && s.toks == WriteNil(t, name).toks + rest
    ensures s.toks != [] && s.toks[0].Start? && s.toks[0].name == NameAttr(name)
    ensures Outcome(WriteNil(t, name), s, rest, ReadElement(Tail(s), s.toks[0], d, limit), Null, d, limit, clean)
  {
    assert s.toks == [Start(NilTag, NameAttr(name), None)] + ([End(NilTag)] + rest);
    assert Tail(s).toks == [End(NilTag)] + rest;
    SkipAtOnce(NilTag, rest);
    assert s.heap == s.heap + map[];
  }

  /** A Ref to a closed object reads as that object; to an open one it is an unknown reference. */
  lemma ReadsRef(h: Heap, t: Tables, id: int, name: Str, s: State, rest: seq<Token>, d: nat, limit: int, clean: bool)
    requires Valid(t) && Agree(t, s, clean) && InRange(t) && id in t.objRefs
    requires clean || id !in t.open
    requires s.toks == Write(h, t, Obj(id), name).toks + rest
    ensures s.toks != [] && s.toks[0].Start? && s.toks[0].name == NameAttr(name)
    ensures var e := Write(h, t, Obj(id), name);
            Outcome(e, s, rest, ReadElement(Tail(s), s.toks[0], d, limit), e.image, d, limit, clean)
  {
    RefRead(t, id, t.objRefs[id], name, Write(h, t, Obj(id), name), s, rest, d, limit, clean);
  }

  lemma RefRead(t: Tables, id: int, n: nat, name: Str, e: Emission<Value>, s: State, rest: seq<Token>, d: nat,
                limit: int, clean: bool)
    requires Valid(t) && Agree(t, s, clean) && InRange(t) && id in t.objRefs && n == t.objRefs[id]
    requires clean || id !in t.open
    requires e == Emission(Done, [Start(RefTag, NameAttr(name), Some(Decimal.Itoa(n))), End(RefTag)], t,
                           Obj(t.base + n), map[], id in t.open, 1)
    requires s.toks == e.toks + rest
    ensures s.toks != [] && s.toks[0].Start? && s.toks[0].name == NameAttr(name)
    ensures Outcome(e, s, rest, ReadElement(Tail(s), s.toks[0], d, limit), e.image, d, limit, clean)
  {
    var start := Start(RefTag, NameAttr(name), Some(Decimal.Itoa(n)));
    Regroup2([start], [End(RefTag)], rest);
    Head(start, [End(RefTag)] + rest);
    ReadsRefTokens(Tail(s), start, n, rest);
    RefElement(Tail(s), start, d, limit);
    if id !in t.open {
      OutcomeAtOnce(e, s, rest, ReadElement(Tail(s), start, d, limit), e.image, d, limit, clean);
    }
  }

  lemma RefElement(s: State, x: Token, d: nat, limit: int)
    requires x.Start? && x.tag == RefTag
    ensures ReadElement(s, x, d, limit) == if d >= limit then Reading(Err(TooDeep), s) else ReadRef(s, x)
  {
  }

  lemma ReadsRefTokens(s: State, x: Token, n: nat, rest: seq<Token>)
    requires n <= MAX_INT64 && x.Start? && x.refId == Some(Decimal.Itoa(n)) && s.toks == [End(RefTag)] + rest
    ensures ReadRef(s, x) == if n in s.objRefs then Reading(Ok(s.objRefs[n]), s.(toks := rest))
            else Reading(Err(UnknownRef), s.(toks := rest))
  {
    Decimal.ParseItoa(n, MIN_INT64, MAX_INT64);
    SkipAtOnce(RefTag, rest);
  }

  // ---------- the parts of an Obj element ----------

  lemma ReadWrittenToString(text: Str, s: State, rest: seq<Token>, ref: Option<int>, addr: int, n: Node, d: nat,
                            limit: int)
    requires s.toks == ToStringTokens(text) + rest
    ensures ReadObject(s, ref, addr, n, false, d, limit)
            == ReadObject(s.(toks := rest), ref, addr, n.(toString := CS.Decode(CS.Encode(text))), false, d, limit)
  {
    assert s.toks == [Start(ToStringTag, None, None)] + (TextTokens(CS.Encode(text)) + ([End(ToStringTag)] + rest));
    assert Tail(s).toks == TextTokens(CS.Encode(text)) + ([End(ToStringTag)] + rest);
    ReadWrittenText(CS.Encode(text), ToStringTag, rest);
  }

  lemma ReadOptionalToString(text: Str, s: State, rest: seq<Token>, ref: Option<int>, addr: int, n: Node, d: nat,
                             limit: int)
    requires s.toks == OptionalToString(text) + rest && n.toString == []
    ensures ReadObject(s, ref, addr, n, false, d, limit)
            == ReadObject(s.(toks := rest), ref, addr, n.(toString := CS.Decode(CS.Encode(text))), false, d, limit)
  {
    if text == [] {
      assert s.toks == rest && s.(toks := rest) == s;
      assert CS.Decode(CS.Encode([])) == [];
      assert n.(toString := []) == n;
    } else {
      ReadWrittenToString(text, s, rest, ref, addr, n, d, limit);
    }
  }

  /** The state after the end tag of an object. */
  function Closed(s: State, id: int, addr: int, n: Node, rest: seq<Token>): State {
    s.(toks := rest, heap := s.heap[addr := n], objRefs := s.objRefs[id := Obj(addr)])
  }

  lemma CloseObject(s: State, id: int, addr: int, n: Node, rest: seq<Token>, d: nat, limit: int)
    requires s.toks == [End(ObjTag)] + rest
    ensures ReadObject(s, Some(id), addr, n, false, d, limit) == Reading(Ok(Obj(addr)), Closed(s, id, addr, n, rest))
  {
    assert s.toks[1..] == rest;
  }

  /** Recording a value under an id that no object has keeps the tables in agreement. */
  lemma RegisterAgrees(u: Tables, s: State, n: nat, v: Value, clean: bool)
    requires Agree(u, s, clean) && n < u.next
    requires forall o :: o in u.objRefs ==> u.objRefs[o] != n
    ensures Agree(u, s.(objRefs := s.objRefs[n := v]), clean)
  {
  }

  /** The id of an element that is no PSObject belongs to no object, whatever the element holds. */
  lemma ElementIdUnused(t: Tables, u: Tables)
    requires Valid(t) && Extends(t.(next := t.next + 1), u)
    ensures forall o :: o in u.objRefs ==> u.objRefs[o] != t.next
  {
  }

  // ---------- enums ----------

  function EnumNumber(v: Value): seq<Token>
    requires v.Enum?
  {
    [Start(I32Tag, None, None)] + (TextTokens(Decimal.Itoa(v.enumValue)) + [End(I32Tag), End(ObjTag)])
  }

  /** An enum object before its number is read. */
  function EnumNode(t: Tables, v: Value): Node
    requires v.Enum?
  {
    Node(Resolved(t, Join(EnumNames(v.enumType))), CS.Decode(CS.Encode(v.enumText)), map[], [], map[], Null)
  }

  /** From inside an enum's Obj element up to its number. */
  lemma ReadsEnumHead(t: Tables, v: Value, s: State, rest: seq<Token>, id: int, addr: int,
                      d: nat, limit: int, clean: bool) returns (s': State)
    requires Valid(t) && Agree(t, s, clean) && InRange(t) && v.Enum?
    requires s.toks == TypeNames(t, Join(EnumNames(v.enumType)), EnumNames(v.enumType)).0
             + (ToStringTokens(v.enumText) + rest)
    ensures var t' := TypeNames(t, Join(EnumNames(v.enumType)), EnumNames(v.enumType)).1;
            && Agree(t', s', clean) && s'.toks == rest && s'.heap == s.heap
            && ReadObject(s, Some(id), addr, EMPTY_NODE, false, d, limit)
               == ReadObject(s', Some(id), addr, EnumNode(t', v), false, d, limit)
  {
    var names := EnumNames(v.enumType);
    var key := Join(names);
    var t' := TypeNames(t, key, names).1;
    var tail := ToStringTokens(v.enumText) + rest;
    ReadWrittenTypeNames(t, s, key, names, tail, Some(id), addr, EMPTY_NODE, d, limit, clean);
    var s2 := AfterNames(t, s, key, names, tail);
    ReadWrittenToString(v.enumText, s2, rest, Some(id), addr, EMPTY_NODE.(typeNames := Resolved(t', key)), d, limit);
    s' := s2.(toks := rest);
  }

  /** From inside an enum's Obj element to its end; t1 are the tables there. */
  lemma ReadsEnumBody(t: Tables, t1: Tables, v: Value, s: State, x: Reading<Value>, addr: int, rest: seq<Token>,
                      d: nat, limit: int, clean: bool)
    requires Valid(t) && v.Enum? && t1 == t.(next := t.next + 1) && Agree(t1, s, clean) && InRange(t1)
    requires s.toks == TypeNames(t1, Join(EnumNames(v.enumType)), EnumNames(v.enumType)).0
                       + (ToStringTokens(v.enumText) + (EnumNumber(v) + rest))
    requires ReadsOn(x, s, t.next, addr, EMPTY_NODE, d, limit)
    ensures var t' := TypeNames(t1, Join(EnumNames(v.enumType)), EnumNames(v.enumType)).1;
            var n := EnumNode(t', v).(value := Int32(v.enumValue));
            if d < limit then
              && x.r == Ok(Obj(addr)) && x.s.toks == rest && Added(s.heap, map[addr := n], x.s.heap)
              && Agree(t', x.s, clean)
            else x.r.Err?
  {
    var t' := TypeNames(t1, Join(EnumNames(v.enumType)), EnumNames(v.enumType)).1;
    var s2 := ReadsEnumHead(t1, v, s, EnumNumber(v) + rest, t.next, addr, d, limit, clean);
    ReadEnumNumber(v.enumValue, s2, rest, t.next, addr, EnumNode(t', v), d, limit);
    EnumAgrees(t, v, s2, addr, rest, clean);
    var n := EnumNode(t', v).(value := Int32(v.enumValue));
    assert s.heap[addr := n] == s.heap + map[addr := n];
  }

  lemma ReadsEnum(t: Tables, v: Value, name: Str, s: State, rest: seq<Token>, d: nat, limit: int, clean: bool)
    requires Valid(t) && Agree(t, s, clean) && v.Enum? && InRange(WriteEnum(t, v, name).t)
    requires s.toks == WriteEnum(t, v, name).toks + rest
    ensures s.toks != [] && s.toks[0].Start? && s.toks[0].name == NameAttr(name)
    ensures var e := WriteEnum(t, v, name);
            Outcome(e, s, rest, ReadElement(Tail(s), s.toks[0], d, limit), e.image, d, limit, clean)
  {
    var t1, addr := t.(next := t.next + 1), s.next;
    var (tn, t') := TypeNames(t1, Join(EnumNames(v.enumType)), EnumNames(v.enumType));
    EnumParts(t, t1, v, name, tn, t', addr);
    assert s.toks[0] == ObjStart(t, name);
    if d < limit {
      ReadsEnumElement(t, t1, tn, t', v, WriteEnum(t, v, name), name, s, addr, rest, d, limit, clean);
    }
  }

  /** The same, with the element's parts at hand. */
  lemma ReadsEnumElement(t: Tables, t1: Tables, tn: seq<Token>, t': Tables, v: Value, e: Emission<Value>, name: Str,
                         s: State, addr: int, rest: seq<Token>, d: nat, limit: int, clean: bool)
    requires Valid(t) && Agree(t, s, clean) && v.Enum? && InRange(t') && d < limit && addr == s.next
    requires t1 == t.(next := t.next + 1) && t'.next == t1.next
    requires (tn, t') == TypeNames(t1, Join(EnumNames(v.enumType)), EnumNames(v.enumType))
    requires e.t == t' && e.nodes == map[addr := EnumNode(t', v).(value := Int32(v.enumValue))]
    requires e.image == Obj(addr) && e.need == 2 && !e.back
    requires s.toks == [ObjStart(t, name)] + (tn + (ToStringTokens(v.enumText) + EnumNumber(v))) + rest
    ensures Outcome(e, s, rest, ReadElement(Tail(s), s.toks[0], d, limit), e.image, d, limit, clean)
  {
    var d1, body := d + 1, tn + (ToStringTokens(v.enumText) + EnumNumber(v));
    EnterElement(t, s, name, body, rest, d, d1, limit);
    var s1 := s.(toks := body + rest, next := s.next + 1);
    Regroup3(tn, ToStringTokens(v.enumText), EnumNumber(v), rest);
    ReadsEnumBody(t, t1, v, s1, ReadElement(Tail(s), s.toks[0], d, limit), addr, rest, d1, limit, clean);
  }

  lemma EnumParts(t: Tables, t1: Tables, v: Value, name: Str, tn: seq<Token>, t': Tables, addr: int)
    requires v.Enum? && t1 == t.(next := t.next + 1) && addr == t.base + t.next
    requires (tn, t') == TypeNames(t1, Join(EnumNames(v.enumType)), EnumNames(v.enumType))
    ensures var e := WriteEnum(t, v, name);
            && e.t == t' && e.nodes == map[addr := EnumNode(t', v).(value := Int32(v.enumValue))]
            && e.image == Obj(addr)
            && e.need == 2 && !e.back
            && e.toks == [ObjStart(t, name)] + (tn + (ToStringTokens(v.enumText) + EnumNumber(v)))
  {
  }

  lemma EnumAgrees(t: Tables, v: Value, s: State, addr: int, rest: seq<Token>, clean: bool)
    requires Valid(t) && v.Enum?
    requires var t' := TypeNames(t.(next := t.next + 1), Join(EnumNames(v.enumType)),
                                 EnumNames(v.enumType)).1; Agree(t', s, clean)
    ensures var t' := TypeNames(t.(next := t.next + 1), Join(EnumNames(v.enumType)), EnumNames(v.enumType)).1;
            forall n :: Agree(t', Closed(s, t.next, addr, n, rest), clean)
  {
    var names := EnumNames(v.enumType);
    var t' := TypeNames(t.(next := t.next + 1), Join(names), names).1;
    assert t'.objRefs == t.objRefs && t'.next == t.next + 1;
    RegisterAgrees(t', s, t.next, Obj(addr), clean);
  }

  lemma ReadEnumNumber(i: int32, s: State, rest: seq<Token>, id: int, addr: int, n: Node, d: nat, limit: int)
    requires s.toks == [Start(I32Tag, None, None)] + (TextTokens(Decimal.Itoa(i)) + [End(I32Tag), End(ObjTag)]) + rest
    ensures var x := ReadObject(s, Some(id), addr, n, false, d, limit);
            if d < limit then x == Reading(Ok(Obj(addr)), Closed(s, id, addr, n.(value := Int32(i)), rest))
                else x.r.Err?
  {
    var text := Decimal.Itoa(i);
    var close := [End(ObjTag)] + rest;
    assert s.toks == [Start(I32Tag, None, None)] + (TextTokens(text) + ([End(I32Tag)] + close));
    assert Tail(s).toks == TextTokens(text) + ([End(I32Tag)] + close);
    if d < limit {
      Decimal.ParseItoa(i, MIN_INT32, MAX_INT32);
      ReadWrittenLeaf(Tail(s), I32Tag, text, close);
      CloseObject(s.(toks := close), id, addr, n.(value := Int32(i)), rest, d, limit);
    }
  }
}
