/** The reader on everything the serializer writes: the induction over values and objects. */
module ClixmlReadBack {
  import opened Wrappers
  import opened Sequences
  import opened Clixml
  import opened ClixmlWriter
  import opened ClixmlReader
  import opened ClixmlTables
  import opened ClixmlRoundTrip
  import CS = ClixmlString

  /**
   Reading the element the serializer wrote for v: the image, with an unread end tag left in
   front of rest when v is a list or a hashtable; an error exactly when v refers back to an open
   object or is nested too deep.
   */
  lemma {:induction false} ReadsValue(h: Heap, t: Tables, v: Value, name: Str, s: State, rest: seq<Token>,
                                      d: nat, limit: int, clean: bool)
    requires Write(h, t, v, name).status == Done
    requires Valid(t) && Agree(t, s, clean) && InRange(Write(h, t, v, name).t)
    requires clean || !Write(h, t, v, name).back
    requires s.toks == Write(h, t, v, name).toks + rest
    ensures s.toks != [] && s.toks[0].Start? && s.toks[0].name == NameAttr(name)
    ensures var e := Write(h, t, v, name);
            Outcome(e, s, Stray(v) + rest, ReadElement(Tail(s), s.toks[0], d, limit), e.image, d, limit, clean)
    decreases Unvisited(h, t), v, 2, 0
  {
    if v.Null? {
      ReadsNil(t, name, s, rest, d, limit, clean);
      assert Stray(v) + rest == rest;
    } else if v.Enum? {
      ReadsEnum(t, v, name, s, rest, d, limit, clean);
      assert Stray(v) + rest == rest;
    } else if v.List? {
      ReadsListElement(h, t, v, name, s, rest, d, limit, clean);
    } else if v.Dict? {
      ReadsDictElement(h, t, v, name, s, rest, d, limit, clean);
    } else if v.Obj? {
      ReadsPointer(h, t, v, name, s, rest, d, limit, clean);
      assert Stray(v) + rest == rest;
    } else {
      ReadsLeaf(h, t, v, name, s, rest, d, limit, clean);
      assert Stray(v) + rest == rest;
    }
  }

  lemma {:induction false} ReadsPointer(h: Heap, t: Tables, v: Value, name: Str, s: State, rest: seq<Token>,
                                        d: nat, limit: int, clean: bool)
    requires v.Obj? && Write(h, t, v, name).status == Done
    requires Valid(t) && Agree(t, s, clean) && InRange(Write(h, t, v, name).t)
    requires clean || !Write(h, t, v, name).back
    requires s.toks == Write(h, t, v, name).toks + rest
    ensures s.toks != [] && s.toks[0].Start? && s.toks[0].name == NameAttr(name)
    ensures var e := Write(h, t, v, name);
            Outcome(e, s, rest, ReadElement(Tail(s), s.toks[0], d, limit), e.image, d, limit, clean)
    decreases Unvisited(h, t), v, 1, 9
  {
    if v.id in t.objRefs {
      ReadsRef(h, t, v.id, name, s, rest, d, limit, clean);
    } else {
      ReadsObjectElement(h, t, v.id, name, s, rest, d, limit, clean);
    }
  }

  // ---------- steps shared by the loops ----------

  lemma AgreeIgnoresTokens(t: Tables, s: State, toks: seq<Token>, clean: bool)
    requires Agree(t, s, clean)
    ensures Agree(t, s.(toks := toks), clean)
  {
  }

  /** Two readings one after the other add up to the reading of both. */
  lemma Chain<T, U, W>(e1: Emission<Value>, e2: Emission<T>, e: Emission<T>, s: State, x1: Reading<W>, want1: W,
                       left: seq<Token>, s2: State, x: Reading<U>, rest: seq<Token>, want: U,
                       d: nat, limit: int, clean: bool)
    requires e.t == e2.t && e.nodes == e1.nodes + e2.nodes
    requires e.back == (e1.back || e2.back) && e.need == Max(e1.need, e2.need)
    requires Outcome(e1, s, left, x1, want1, d, limit, clean)
    requires x1.r.Err? ==> x.r.Err?
    requires x1.r.Ok? ==> s2.heap == x1.s.heap && Outcome(e2, s2, rest, x, want, d, limit, clean)
    ensures Outcome(e, s, rest, x, want, d, limit, clean)
  {
    assert s.heap + e1.nodes + e2.nodes == s.heap + (e1.nodes + e2.nodes);
  }

  // ---------- lists ----------

  /** The list loop drops the end tag that an element may have left. */
  lemma ListDropsStray(v: Value, s: State, acc: seq<Value>, rest: seq<Token>, d: nat, limit: int)
    requires s.toks == Stray(v) + rest
    ensures ReadList(s, acc, d, limit) == ReadList(s.(toks := rest), acc, d, limit)
  {
    if v.List? || v.Dict? {
      Head(End(ObjTag), rest);
    } else {
      assert s.toks == rest;
    }
  }

  lemma {:induction false} ReadsItems(h: Heap, t: Tables, v: Value, i: nat, s: State, acc: seq<Value>, rest: seq<Token>,
                                      d: nat, limit: int, clean: bool)
    requires v.List? && i <= |v.items| && d <= limit
    requires WriteItems(h, t, v, i).status == Done
    requires Valid(t) && Agree(t, s, clean) && InRange(WriteItems(h, t, v, i).t)
    requires clean || !WriteItems(h, t, v, i).back
    requires s.toks == WriteItems(h, t, v, i).toks + ([End(LSTTag)] + rest)
    ensures var e := WriteItems(h, t, v, i);
            Outcome(e, s, rest, ReadList(s, acc, d, limit), acc + e.image, d, limit, clean)
    decreases Unvisited(h, t), v, 0, |v.items| - i
  {
    if i == |v.items| {
      ReadsNoItems(t, s, acc, rest, d, limit, clean);
    } else {
      var first := Write(h, t, v.items[i], []);
      UnvisitedMonotone(h, t, first.t);
      var j := i + 1;
      var more := WriteItems(h, first.t, v, j);
      var tail := more.toks + ([End(LSTTag)] + rest);
      Regroup2(first.toks, more.toks, [End(LSTTag)] + rest);
      WriteKeeps(h, t, v.items[i], []);
      WriteItemsKeeps(h, first.t, v, j);
      ReadsValue(h, t, v.items[i], [], s, tail, d, limit, clean);
      var x := ReadElement(Tail(s), s.toks[0], d, limit);
      if x.r.Ok? {
        AgreeIgnoresTokens(first.t, x.s, tail, clean);
        ReadsItems(h, first.t, v, j, x.s.(toks := tail), acc + [first.image], rest, d, limit, clean);
      }
      ItemsStep(h, t, v, i, s, acc, rest, d, limit, clean);
    }
  }

  lemma ReadsNoItems(t: Tables, s: State, acc: seq<Value>, rest: seq<Token>, d: nat, limit: int, clean: bool)
    requires d <= limit && Agree(t, s, clean) && s.toks == [] + ([End(LSTTag)] + rest)
    ensures Outcome<seq<Value>, seq<Value>>(Emission(Done, [], t, [], map[], false, 0), s, rest,
                                            ReadList(s, acc, d, limit), acc + [], d, limit, clean)
  {
    assert s.toks == [End(LSTTag)] + rest;
    Head(End(LSTTag), rest);
    AgreeIgnoresTokens(t, s, rest, clean);
    assert acc + [] == acc && s.heap + map[] == s.heap;
  }

  /** One element and then the others make the list. */
  lemma ItemsStep(h: Heap, t: Tables, v: Value, i: nat, s: State, acc: seq<Value>, rest: seq<Token>,
                  d: nat, limit: int, clean: bool)
    requires v.List? && i < |v.items|
    requires WriteItems(h, t, v, i).status == Done && s.toks != [] && s.toks[0].Start?
    requires var first := Write(h, t, v.items[i], []);
             var j := i + 1;
      var more := WriteItems(h, first.t, v, j);
             var tail := more.toks + ([End(LSTTag)] + rest);
             var x := ReadElement(Tail(s), s.toks[0], d, limit);
             var s2 := x.s.(toks := tail);
             && Outcome(first, s, Stray(v.items[i]) + tail, x, first.image, d, limit, clean)
             && (x.r.Ok? ==> Outcome(more, s2, rest, ReadList(s2, acc + [first.image], d, limit),
                                     acc + [first.image] + more.image, d, limit, clean))
    ensures var e := WriteItems(h, t, v, i);
            Outcome(e, s, rest, ReadList(s, acc, d, limit), acc + e.image, d, limit, clean)
  {
    var first := Write(h, t, v.items[i], []);
    var more := WriteItems(h, first.t, v, i + 1);
    var tail := more.toks + ([End(LSTTag)] + rest);
    var x := ReadElement(Tail(s), s.toks[0], d, limit);
    if x.r.Ok? {
      ListDropsStray(v.items[i], x.s, acc + [first.image], tail, d, limit);
    }
    Regroup2(acc, [first.image], more.image);
    Chain(first, more, WriteItems(h, t, v, i), s, x, first.image, Stray(v.items[i]) + tail, x.s.(toks := tail),
          ReadList(s, acc, d, limit), rest, acc + ([first.image] + more.image), d, limit, clean);
  }

  /** The tables around the type names of a list's element, its type names, and its tokens. */
  lemma ListTokens(h: Heap, t: Tables, v: Value, name: Str) returns (t1: Tables, tn: seq<Token>, u: Tables)
    requires v.List? && Valid(t) && WriteList(h, t, v, name).status == Done
    ensures t1 == t.(next := t.next + 1) && (tn, u) == OptionalTypeNames(t1, ListNames(v.kind))
    ensures Valid(t1) && Valid(u) && Extends(t1, u) && u.objRefs == t.objRefs
    ensures var e, items := WriteList(h, t, v, name), WriteItems(h, u, v, 0);
            && ListOf(e, items) && items.status == Done
            && e.toks == [ObjStart(t, name)]
               + (tn + ([Start(LSTTag, None, None)] + (items.toks + [End(LSTTag), End(ObjTag)])))
  {
    t1, tn, u := NamesOfList(t, v);
    ListParts(h, t, v, name);
    ListElementTokens(h, t, v, name, t1, tn, u);
  }

  lemma NamesOfList(t: Tables, v: Value) returns (t1: Tables, tn: seq<Token>, u: Tables)
    requires v.List? && Valid(t)
    ensures t1 == t.(next := t.next + 1) && (tn, u) == OptionalTypeNames(t1, ListNames(v.kind)) && u == ListTables(t, v)
    ensures Valid(t1) && Valid(u) && Extends(t1, u) && u.objRefs == t.objRefs
  {
    t1 := t.(next := t.next + 1);
    tn, u := OptionalTypeNames(t1, ListNames(v.kind)).0, OptionalTypeNames(t1, ListNames(v.kind)).1;
    OptionalStartKeeps(t, ListNames(v.kind));
    OptionalNamesKeep(t, ListNames(v.kind));
  }

  lemma ListElementTokens(h: Heap, t: Tables, v: Value, name: Str, t1: Tables, tn: seq<Token>, u: Tables)
    requires v.List? && WriteList(h, t, v, name).status == Done
    requires t1 == t.(next := t.next + 1) && (tn, u) == OptionalTypeNames(t1, ListNames(v.kind))
    ensures WriteList(h, t, v, name).toks
            == [ObjStart(t, name)] + (tn + ([Start(LSTTag, None, None)]
                                            + (WriteItems(h, u, v, 0).toks + [End(LSTTag), End(ObjTag)])))
  {
  }

  /** Reading a list inside its Obj element makes the list the value and registers it under the element's id. */
  lemma ListEnds(t: Tables, t1: Tables, u: Tables, e: Emission<Value>, items: Emission<seq<Value>>, s: State, s2: State,
                 addr: int, n: Node, rest: seq<Token>, outer: nat, d: nat, limit: int, clean: bool)
    requires d == outer + 1 && Valid(t) && ListOf(e, items) && t1 == t.(next := t.next + 1)
    requires s2.toks != [] && s2.toks[0] == Start(LSTTag, None, None) && s2.heap == s.heap
    requires Outcome(items, Tail(s2), rest, ReadList(Tail(s2), [], d, limit), [] + items.image, d, limit, clean)
    requires Extends(u, items.t) && Extends(t1, u)
    ensures Outcome(e, s, rest, ReadObject(s2, Some(t.next), addr, n, false, d, limit), e.image, outer, limit, clean)
  {
    var x := ReadList(Tail(s2), [], d, limit);
    assert [] + items.image == items.image;
    ListInside(s2, t.next, addr, n, d, limit);
    if x.r.Ok? {
      EndsInside(t, t1, u, items.t, x.s, List(Plain, items.image), clean);
    }
  }

  /** Inside an object's element, a list ends the object. */
  lemma ListInside(s: State, id: int, addr: int, n: Node, d: nat, limit: int)
    requires s.toks != [] && s.toks[0] == Start(LSTTag, None, None)
    ensures var x := ReadList(Tail(s), [], d, limit);
            ReadObject(s, Some(id), addr, n, false, d, limit)
            == if x.r.Err? then Reading(Err(x.r.error), x.s)
               else Reading(Ok(List(Plain, x.r.value)), Register(x.s, Some(id), List(Plain, x.r.value)))
  {
  }

  /** A list or hashtable is registered under the id of its Obj element, which no object has. */
  lemma EndsInside(t: Tables, t1: Tables, u: Tables, w: Tables, s: State, v: Value, clean: bool)
    requires Valid(t) && t1 == t.(next := t.next + 1) && Extends(t1, u) && Extends(u, w) && Agree(w, s, clean)
    ensures Agree(w, Register(s, Some(t.next), v), clean)
  {
    ExtendsTransitive(t1, u, w);
    ElementIdUnused(t, w);
    RegisterAgrees(w, s, t.next, v, clean);
  }

  lemma {:induction false} ReadsListBody(h: Heap, t: Tables, t1: Tables, tn: seq<Token>, u: Tables, v: Value,
                                         e: Emission<Value>, s: State, addr: int, rest: seq<Token>, outer: nat, d: nat,
                                         limit: int, clean: bool)
    requires v.List? && e.status == Done && d <= limit && d == outer + 1
    requires Valid(t) && t1 == t.(next := t.next + 1) && (tn, u) == OptionalTypeNames(t1, ListNames(v.kind))
    requires Valid(t1) && Valid(u) && Extends(t1, u) && ListOf(e, WriteItems(h, u, v, 0))
    requires Agree(t1, s, clean) && InRange(e.t) && (clean || !e.back)
    requires s.toks == tn + ([Start(LSTTag, None, None)] + (WriteItems(h, u, v, 0).toks + ([End(LSTTag)] + rest)))
    ensures Outcome(e, s, rest, ReadObject(s, Some(t.next), addr, EMPTY_NODE, false, d, limit), e.image, outer, limit,
                    clean)
    decreases Unvisited(h, u), v, 1, 0
  {
    var items := WriteItems(h, u, v, 0);
    WriteItemsKeeps(h, u, v, 0);
    var tail := items.toks + ([End(LSTTag)] + rest);
    var s2 := ReadOptionalTypeNames(t1, s, ListNames(v.kind), [Start(LSTTag, None, None)] + tail, Some(t.next), addr, d,
                                    limit, clean);
    Head(Start(LSTTag, None, None), tail);
    AgreeIgnoresTokens(u, s2, tail, clean);
    ReadsItems(h, u, v, 0, Tail(s2), [], rest, d, limit, clean);
    ListEnds(t, t1, u, e, items, s, s2, addr, EMPTY_NODE.(typeNames := WrittenNames(u, ListNames(v.kind))), rest, outer,
             d, limit, clean);
  }

  lemma {:induction false} ReadsListElement(h: Heap, t: Tables, v: Value, name: Str, s: State, rest: seq<Token>,
                                            d: nat, limit: int, clean: bool)
    requires v.List? && WriteList(h, t, v, name).status == Done
    requires Valid(t) && Agree(t, s, clean) && InRange(WriteList(h, t, v, name).t)
    requires clean || !WriteList(h, t, v, name).back
    requires s.toks == WriteList(h, t, v, name).toks + rest
    ensures s.toks != [] && s.toks[0].Start? && s.toks[0].name == NameAttr(name)
    ensures var e := WriteList(h, t, v, name);
            Outcome(e, s, [End(ObjTag)] + rest, ReadElement(Tail(s), s.toks[0], d, limit), e.image, d, limit, clean)
    decreases Unvisited(h, t), v, 1, 2
  {
    var t1, tn, u := ListTokens(h, t, v, name);
    ReadsList(h, t, t1, tn, u, v, WriteList(h, t, v, name), ObjStart(t, name), name, s, rest, d, limit, clean);
  }

  lemma {:induction false} ReadsList(h: Heap, t: Tables, t1: Tables, tn: seq<Token>, u: Tables, v: Value,
                                     e: Emission<Value>, start: Token, name: Str, s: State, rest: seq<Token>, d: nat,
                                     limit: int, clean: bool)
    requires v.List? && e.status == Done && Valid(t) && Agree(t, s, clean) && InRange(e.t) && (clean || !e.back)
    requires t1 == t.(next := t.next + 1) && (tn, u) == OptionalTypeNames(t1, ListNames(v.kind))
    requires Valid(t1) && Valid(u) && Extends(t1, u) && ListOf(e, WriteItems(h, u, v, 0)) && start == ObjStart(t, name)
    requires e.toks == [start] + (tn
                                  + ([Start(LSTTag, None, None)]
                                     + (WriteItems(h, u, v, 0).toks + [End(LSTTag), End(ObjTag)])))
    requires s.toks == e.toks + rest
    ensures s.toks != [] && s.toks[0] == start
    ensures Outcome(e, s, [End(ObjTag)] + rest, ReadElement(Tail(s), s.toks[0], d, limit), e.image, d, limit, clean)
    decreases Unvisited(h, u), v, 1, 1
  {
    var items := WriteItems(h, u, v, 0);
    var body := tn + ([Start(LSTTag, None, None)] + (items.toks + [End(LSTTag), End(ObjTag)]));
    assert s.toks[0] == start;
    if d < limit {
      WriteItemsKeeps(h, u, v, 0);
      var d1 := d + 1;
      EnterElement(t, s, name, body, rest, d, d1, limit);
      var s1 := s.(toks := body + rest, next := s.next + 1);
      ElementRegroups(tn, Start(LSTTag, None, None), items.toks, End(LSTTag), rest);
      EnterAgrees(t, t1, s, body + rest, clean);
      ReadsListBody(h, t, t1, tn, u, v, e, s1, s.next, [End(ObjTag)] + rest, d, d1, limit, clean);
    }
  }

  lemma ElementRegroups(tn: seq<Token>, a: Token, body: seq<Token>, b: Token, rest: seq<Token>)
    ensures tn + ([a] + (body + [b, End(ObjTag)])) + rest == tn + ([a] + (body + ([b] + ([End(ObjTag)] + rest))))
  {
    Regroup4(tn, [a], body, [b, End(ObjTag)], rest);
    assert [b, End(ObjTag)] + rest == [b] + ([End(ObjTag)] + rest);
  }

  lemma EnterAgrees(t: Tables, t1: Tables, s: State, toks: seq<Token>, clean: bool)
    requires Valid(t) && Agree(t, s, clean) && t1 == t.(next := t.next + 1)
    ensures Agree(t1, s.(toks := toks, next := s.next + 1), clean)
  {
  }

  lemma OptionalNamesKeep(t: Tables, names: seq<Str>)
    requires Valid(t)
    ensures var t1 := t.(next := t.next + 1);
            Valid(t1) && Extends(t1, OptionalTypeNames(t1, names).1)
  {
    var t1 := t.(next := t.next + 1);
    if names != [] {
      if Join(names) == HASHTABLE {
        JoinIsHashtable(names);
      }
      TypeNamesKeeps(t1, Join(names), names);
    }
  }

  // ---------- hashtables ----------

  lemma EntryAttributes()
    ensures NameAttr(KEY) == Some(KEY) && NameAttr(VALUE) == Some(VALUE) && KEY != VALUE
  {
    assert |KEY| == 3 && |VALUE| == 5;
  }

  lemma EntryDropsStray(v: Value, s: State, key: Str, value: Value, rest: seq<Token>, d: nat, limit: int)
    requires s.toks == Stray(v) + rest
    ensures ReadEntry(s, key, value, d, limit) == ReadEntry(s.(toks := rest), key, value, d, limit)
  {
    if v.List? || v.Dict? {
      Head(End(ObjTag), rest);
    } else {
      assert s.toks == rest;
    }
  }

  /** The key of an entry, always a string element. */
  lemma ReadsKey(t: Tables, k: Str, s: State, rest: seq<Token>, d: nat, limit: int, clean: bool)
    requires Agree(t, s, clean) && s.toks == Leaf(t, STag, KEY, k, String(CS.Decode(k))).toks + rest
    ensures d >= limit ==> ReadEntry(s, [], Null, d, limit).r.Err?
    ensures d < limit ==> ReadEntry(s, [], Null, d, limit) == ReadEntry(s.(toks := rest), CS.Decode(k), Null, d, limit)
  {
    EntryAttributes();
    var text := TextTokens(k) + ([End(STag)] + rest);
    assert s.toks == [Start(STag, Some(KEY), None)] + text;
    Head(Start(STag, Some(KEY), None), text);
    if d < limit {
      ReadWrittenLeaf(Tail(s), STag, k, rest);
    }
  }

  /** The value of an entry and the end of the entry. */
  lemma ReadsEntryValue(v: Value, val: Emission<Value>, s: State, key: Str, tail: seq<Token>, d: nat, limit: int,
                        clean: bool)
    requires s.toks != [] && s.toks[0].Start? && s.toks[0].name == NameAttr(VALUE)
    requires Outcome(val, s, Stray(v) + ([End(EnTag)] + tail), ReadElement(Tail(s), s.toks[0], d, limit), val.image, d,
                     limit, clean)
    ensures Outcome(val, s, tail, ReadEntry(s, key, Null, d, limit), (key, val.image), d, limit, clean)
  {
    EntryAttributes();
    var x := ReadElement(Tail(s), s.toks[0], d, limit);
    if x.r.Ok? {
      EntryDropsStray(v, x.s, key, val.image, [End(EnTag)] + tail, d, limit);
      Head(End(EnTag), tail);
      AgreeIgnoresTokens(val.t, x.s, tail, clean);
    }
  }

  lemma ReadsNoEntries(t: Tables, s: State, acc: map<Str, Value>, rest: seq<Token>, d: nat, limit: int, clean: bool)
    requires d <= limit && Agree(t, s, clean) && s.toks == [] + ([End(DCTTag)] + rest)
    ensures Outcome<map<Str, Value>, map<Str, Value>>(Emission(Done, [], t, map[], map[], false, 0), s, rest,
              ReadDict(s, acc, d, limit), acc + map[], d, limit, clean)
  {
    assert s.toks == [End(DCTTag)] + rest;
    Head(End(DCTTag), rest);
    AgreeIgnoresTokens(t, s, rest, clean);
    assert acc + map[] == acc && s.heap + map[] == s.heap;
  }

  lemma MapIdentity(m: map<Str, Value>)
    ensures map[] + m == m
  {
  }

  lemma MapPrepend(acc: map<Str, Value>, k: Str, x: Value, more: map<Str, Value>)
    ensures acc[k := x] + more == acc + (map[k := x] + more)
  {
  }

  /** One entry and then the others make the hashtable. */
  lemma EntriesStep(h: Heap, t: Tables, v: Value, keys: seq<Str>, i: nat, s: State, acc: map<Str, Value>,
                    rest: seq<Token>, d: nat, limit: int, clean: bool)
    requires v.Dict? && i < |keys| && forall k :: k in keys ==> k in v.m
    requires WriteEntries(h, t, v, keys, i).status == Done && s.toks != [] && s.toks[0] == Start(EnTag, None, None)
    requires var val := Write(h, t, v.m[keys[i]], VALUE);
             var more := WriteEntries(h, val.t, v, keys, i + 1);
             var tail := more.toks + ([End(DCTTag)] + rest);
             var x := ReadEntry(Tail(s), [], Null, d, limit);
             var k := CS.Decode(keys[i]);
             && Outcome(val, s, tail, x, (k, val.image), d, limit, clean)
             && (x.r.Ok? ==> Outcome(more, x.s, rest, ReadDict(x.s, acc[k := val.image], d, limit),
                                     acc[k := val.image] + more.image, d, limit, clean))
    ensures var e := WriteEntries(h, t, v, keys, i);
            Outcome(e, s, rest, ReadDict(s, acc, d, limit), acc + e.image, d, limit, clean)
  {
    var val := Write(h, t, v.m[keys[i]], VALUE);
    var more := WriteEntries(h, val.t, v, keys, i + 1);
    var tail := more.toks + ([End(DCTTag)] + rest);
    var x := ReadEntry(Tail(s), [], Null, d, limit);
    var k := CS.Decode(keys[i]);
    MapPrepend(acc, k, val.image, more.image);
    Chain(val, more, WriteEntries(h, t, v, keys, i), s, x, (k, val.image), tail, x.s, ReadDict(s, acc, d, limit), rest,
          acc + (map[k := val.image] + more.image), d, limit, clean);
  }

  lemma {:induction false} ReadsEntries(h: Heap, t: Tables, v: Value, keys: seq<Str>, i: nat, s: State,
                                        acc: map<Str, Value>, rest: seq<Token>, d: nat, limit: int, clean: bool)
    requires v.Dict? && i <= |keys| && d <= limit && forall k :: k in keys ==> k in v.m
    requires WriteEntries(h, t, v, keys, i).status == Done
    requires Valid(t) && Agree(t, s, clean) && InRange(WriteEntries(h, t, v, keys, i).t)
    requires clean || !WriteEntries(h, t, v, keys, i).back
    requires s.toks == WriteEntries(h, t, v, keys, i).toks + ([End(DCTTag)] + rest)
    ensures var e := WriteEntries(h, t, v, keys, i);
            Outcome(e, s, rest, ReadDict(s, acc, d, limit), acc + e.image, d, limit, clean)
    decreases Unvisited(h, t), v, 0, |keys| - i
  {
    if i == |keys| {
      ReadsNoEntries(t, s, acc, rest, d, limit, clean);
    } else {
      var val := Write(h, t, v.m[keys[i]], VALUE);
      UnvisitedMonotone(h, t, val.t);
      var j := i + 1;
      var more := WriteEntries(h, val.t, v, keys, j);
      var tail := more.toks + ([End(DCTTag)] + rest);
      WriteKeeps(h, t, v.m[keys[i]], VALUE);
      WriteEntriesKeeps(h, val.t, v, keys, j);
      EntryTokens(h, t, v, keys, i, s, rest);
      ReadsEntry(h, t, v, keys[i], s, tail, d, limit, clean);
      var x := ReadEntry(Tail(s), [], Null, d, limit);
      if x.r.Ok? {
        ReadsEntries(h, val.t, v, keys, j, x.s, acc[CS.Decode(keys[i]) := val.image], rest, d, limit, clean);
      }
      EntriesStep(h, t, v, keys, i, s, acc, rest, d, limit, clean);
    }
  }

  /** The tokens of an entry, in the order the reader meets them. */
  lemma EntryTokens(h: Heap, t: Tables, v: Value, keys: seq<Str>, i: nat, s: State, rest: seq<Token>)
    requires v.Dict? && i < |keys| && forall k :: k in keys ==> k in v.m
    requires WriteEntries(h, t, v, keys, i).status == Done
    requires s.toks == WriteEntries(h, t, v, keys, i).toks + ([End(DCTTag)] + rest)
    ensures var key := Leaf(t, STag, KEY, keys[i], String(CS.Decode(keys[i])));
            var val := Write(h, t, v.m[keys[i]], VALUE);
            var tail := WriteEntries(h, val.t, v, keys, i + 1).toks + ([End(DCTTag)] + rest);
            && val.status == Done && s.toks != [] && s.toks[0] == Start(EnTag, None, None)
            && Tail(s).toks == key.toks + (val.toks + ([End(EnTag)] + tail))
  {
    var key := Leaf(t, STag, KEY, keys[i], String(CS.Decode(keys[i])));
    var val := Write(h, t, v.m[keys[i]], VALUE);
    var more := WriteEntries(h, val.t, v, keys, i + 1).toks;
    var close := [End(DCTTag)] + rest;
    Regroup2([Start(EnTag, None, None)] + (key.toks + val.toks), [End(EnTag)] + more, close);
    Regroup2([End(EnTag)], more, close);
    Regroup3([Start(EnTag, None, None)], key.toks, val.toks, [End(EnTag)] + (more + close));
    Head(Start(EnTag, None, None), key.toks + (val.toks + ([End(EnTag)] + (more + close))));
  }

  /** A whole entry, from after its start tag. */
  lemma {:induction false} ReadsEntry(h: Heap, t: Tables, v: Value, k: Str, s: State, tail: seq<Token>,
                                      d: nat, limit: int, clean: bool)
    requires v.Dict? && k in v.m && s.toks != []
    requires Write(h, t, v.m[k], VALUE).status == Done
    requires Valid(t) && Agree(t, s, clean) && InRange(Write(h, t, v.m[k], VALUE).t)
    requires clean || !Write(h, t, v.m[k], VALUE).back
    requires Tail(s).toks == Leaf(t, STag, KEY, k, String(CS.Decode(k))).toks
                             + (Write(h, t, v.m[k], VALUE).toks + ([End(EnTag)] + tail))
    ensures var val := Write(h, t, v.m[k], VALUE);
            Outcome(val, s, tail, ReadEntry(Tail(s), [], Null, d, limit), (CS.Decode(k), val.image), d, limit, clean)
    decreases Unvisited(h, t), v.m[k], 3, 0
  {
    var val := Write(h, t, v.m[k], VALUE);
    var valueToks := val.toks + ([End(EnTag)] + tail);
    AgreeIgnoresTokens(t, s, s.toks[1..], clean);
    ReadsKey(t, k, Tail(s), valueToks, d, limit, clean);
    if d < limit {
      var s2 := Tail(s).(toks := valueToks);
      AgreeIgnoresTokens(t, s, valueToks, clean);
      ReadsValue(h, t, v.m[k], VALUE, s2, [End(EnTag)] + tail, d, limit, clean);
      ReadsEntryValue(v.m[k], val, s2, CS.Decode(k), tail, d, limit, clean);
    }
  }

  lemma DictTokens(h: Heap, t: Tables, v: Value, name: Str, keys: seq<Str>)
    returns (t1: Tables, tn: seq<Token>, u: Tables)
    requires v.Dict? && Valid(t) && WriteDict(h, t, v, name).status == Done && keys == SortedKeys(v.m.Keys)
    ensures t1 == t.(next := t.next + 1) && (tn, u) == TypeNames(t1, HASHTABLE, HASHTABLE_NAMES)
    ensures Valid(t1) && Valid(u) && Extends(t1, u) && u.objRefs == t.objRefs
    ensures IsHashtable(EMPTY_NODE.(typeNames := Resolved(u, HASHTABLE)))
    ensures var e, entries := WriteDict(h, t, v, name), WriteEntries(h, u, v, keys, 0);
            && DictOf(e, entries) && entries.status == Done
            && e.toks == [ObjStart(t, name)]
               + (tn + ([Start(DCTTag, None, None)] + (entries.toks + [End(DCTTag), End(ObjTag)])))
  {
    t1, tn, u := HashtableNames(t);
    DictParts(h, t, v, name);
  }

  lemma HashtableNames(t: Tables) returns (t1: Tables, tn: seq<Token>, u: Tables)
    requires Valid(t)
    ensures t1 == t.(next := t.next + 1) && (tn, u) == TypeNames(t1, HASHTABLE, HASHTABLE_NAMES) && u == DictTables(t)
    ensures Valid(t1) && Valid(u) && Extends(t1, u) && u.objRefs == t.objRefs
    ensures IsHashtable(EMPTY_NODE.(typeNames := Resolved(u, HASHTABLE)))
  {
    t1 := t.(next := t.next + 1);
    tn, u := TypeNames(t1, HASHTABLE, HASHTABLE_NAMES).0, TypeNames(t1, HASHTABLE, HASHTABLE_NAMES).1;
    TypeNamesKeeps(t1, HASHTABLE, HASHTABLE_NAMES);
  }

  /** Reading a hashtable inside its Obj element makes it the value and registers it under the element's id. */
  lemma DictEnds(t: Tables, t1: Tables, u: Tables, e: Emission<Value>, entries: Emission<map<Str, Value>>, s: State,
                 s2: State, addr: int, n: Node, rest: seq<Token>, outer: nat, d: nat, limit: int, clean: bool)
    requires d == outer + 1 && Valid(t) && DictOf(e, entries) && t1 == t.(next := t.next + 1) && IsHashtable(n)
    requires s2.toks != [] && s2.toks[0] == Start(DCTTag, None, None) && s2.heap == s.heap
    requires Outcome(entries, Tail(s2), rest, ReadDict(Tail(s2), map[], d, limit), map[] + entries.image, d, limit,
                     clean)
    requires Extends(u, entries.t) && Extends(t1, u)
    ensures Outcome(e, s, rest, ReadObject(s2, Some(t.next), addr, n, false, d, limit), e.image, outer, limit, clean)
  {
    var x := ReadDict(Tail(s2), map[], d, limit);
    MapIdentity(entries.image);
    DictInside(s2, t.next, addr, n, d, limit);
    if x.r.Ok? {
      EndsInside(t, t1, u, entries.t, x.s, Dict(entries.image), clean);
    }
  }

  /** Inside the element of an object with the names of a hashtable, a DCT element ends the object. */
  lemma DictInside(s: State, id: int, addr: int, n: Node, d: nat, limit: int)
    requires s.toks != [] && s.toks[0] == Start(DCTTag, None, None) && IsHashtable(n)
    ensures var x := ReadDict(Tail(s), map[], d, limit);
            ReadObject(s, Some(id), addr, n, false, d, limit)
            == if x.r.Err? then Reading(Err(x.r.error), x.s)
               else Reading(Ok(Dict(x.r.value)), Register(x.s, Some(id), Dict(x.r.value)))
  {
  }

  lemma {:induction false} ReadsDictBody(h: Heap, t: Tables, t1: Tables, tn: seq<Token>, u: Tables, v: Value,
                                         keys: seq<Str>, e: Emission<Value>, s: State, addr: int, rest: seq<Token>,
                                         outer: nat, d: nat, limit: int, clean: bool)
    requires v.Dict? && (forall k :: k in keys ==> k in v.m) && e.status == Done && d <= limit && d == outer + 1
    requires Valid(t) && t1 == t.(next := t.next + 1) && (tn, u) == TypeNames(t1, HASHTABLE, HASHTABLE_NAMES)
    requires Valid(t1) && Valid(u) && Extends(t1, u) && DictOf(e, WriteEntries(h, u, v, keys, 0))
    requires IsHashtable(EMPTY_NODE.(typeNames := Resolved(u, HASHTABLE)))
    requires Agree(t1, s, clean) && InRange(e.t) && (clean || !e.back)
    requires s.toks == tn + ([Start(DCTTag, None, None)]
                             + (WriteEntries(h, u, v, keys, 0).toks + ([End(DCTTag)] + rest)))
    ensures Outcome(e, s, rest, ReadObject(s, Some(t.next), addr, EMPTY_NODE, false, d, limit), e.image, outer, limit,
                    clean)
    decreases Unvisited(h, u), v, 1, 0
  {
    var entries := WriteEntries(h, u, v, keys, 0);
    WriteEntriesKeeps(h, u, v, keys, 0);
    var tail := entries.toks + ([End(DCTTag)] + rest);
    var s2 := ReadHashtableNames(t1, tn, u, s, [Start(DCTTag, None, None)] + tail, t.next, addr, d, limit, clean);
    Head(Start(DCTTag, None, None), tail);
    AgreeIgnoresTokens(u, s2, tail, clean);
    ReadsEntries(h, u, v, keys, 0, Tail(s2), map[], rest, d, limit, clean);
    DictEnds(t, t1, u, e, entries, s, s2, addr, EMPTY_NODE.(typeNames := Resolved(u, HASHTABLE)), rest, outer, d, limit,
             clean);
  }

  lemma ReadHashtableNames(t1: Tables, tn: seq<Token>, u: Tables, s: State, rest: seq<Token>, id: int, addr: int,
                           d: nat, limit: int, clean: bool) returns (s2: State)
    requires Valid(t1) && Agree(t1, s, clean) && InRange(t1) && (tn, u) == TypeNames(t1, HASHTABLE, HASHTABLE_NAMES)
    requires s.toks == tn + rest
    ensures Agree(u, s2, clean) && s2.toks == rest && s2.heap == s.heap
    ensures ReadObject(s, Some(id), addr, EMPTY_NODE, false, d, limit)
            == ReadObject(s2, Some(id), addr, EMPTY_NODE.(typeNames := Resolved(u, HASHTABLE)), false, d, limit)
  {
    s2 := AfterNames(t1, s, HASHTABLE, HASHTABLE_NAMES, rest);
    ReadWrittenTypeNames(t1, s, HASHTABLE, HASHTABLE_NAMES, rest, Some(id), addr, EMPTY_NODE, d, limit, clean);
  }

  lemma {:induction false} ReadsDictElement(h: Heap, t: Tables, v: Value, name: Str, s: State, rest: seq<Token>,
                                            d: nat, limit: int, clean: bool)
    requires v.Dict? && WriteDict(h, t, v, name).status == Done
    requires Valid(t) && Agree(t, s, clean) && InRange(WriteDict(h, t, v, name).t)
    requires clean || !WriteDict(h, t, v, name).back
    requires s.toks == WriteDict(h, t, v, name).toks + rest
    ensures s.toks != [] && s.toks[0].Start? && s.toks[0].name == NameAttr(name)
    ensures var e := WriteDict(h, t, v, name);
            Outcome(e, s, [End(ObjTag)] + rest, ReadElement(Tail(s), s.toks[0], d, limit), e.image, d, limit, clean)
    decreases Unvisited(h, t), v, 1, 2
  {
    var keys := SortedKeys(v.m.Keys);
    var t1, tn, u := DictTokens(h, t, v, name, keys);
    ReadsDict(h, t, t1, tn, u, v, keys, WriteDict(h, t, v, name), ObjStart(t, name), name, s, rest, d, limit, clean);
  }

  lemma {:induction false} ReadsDict(h: Heap, t: Tables, t1: Tables, tn: seq<Token>, u: Tables, v: Value,
                                     keys: seq<Str>, e: Emission<Value>, start: Token, name: Str, s: State,
                                     rest: seq<Token>, d: nat, limit: int, clean: bool)
    requires v.Dict? && (forall k :: k in keys ==> k in v.m) && e.status == Done
    requires Valid(t) && Agree(t, s, clean) && InRange(e.t) && (clean || !e.back)
    requires t1 == t.(next := t.next + 1) && (tn, u) == TypeNames(t1, HASHTABLE, HASHTABLE_NAMES)
    requires Valid(t1) && Valid(u) && Extends(t1, u) && DictOf(e, WriteEntries(h, u, v, keys, 0))
    requires start == ObjStart(t, name)
    requires IsHashtable(EMPTY_NODE.(typeNames := Resolved(u, HASHTABLE)))
    requires e.toks == [start] + (tn
                                  + ([Start(DCTTag, None, None)]
                                     + (WriteEntries(h, u, v, keys, 0).toks + [End(DCTTag), End(ObjTag)])))
    requires s.toks == e.toks + rest
    ensures s.toks != [] && s.toks[0] == start
    ensures Outcome(e, s, [End(ObjTag)] + rest, ReadElement(Tail(s), s.toks[0], d, limit), e.image, d, limit, clean)
    decreases Unvisited(h, u), v, 1, 1
  {
    var entries := WriteEntries(h, u, v, keys, 0);
    var body := tn + ([Start(DCTTag, None, None)] + (entries.toks + [End(DCTTag), End(ObjTag)]));
    assert s.toks[0] == start;
    if d < limit {
      WriteEntriesKeeps(h, u, v, keys, 0);
      var d1 := d + 1;
      EnterElement(t, s, name, body, rest, d, d1, limit);
      var s1 := s.(toks := body + rest, next := s.next + 1);
      ElementRegroups(tn, Start(DCTTag, None, None), entries.toks, End(DCTTag), rest);
      EnterAgrees(t, t1, s, body + rest, clean);
      ReadsDictBody(h, t, t1, tn, u, v, keys, e, s1, s.next, [End(ObjTag)] + rest, d, d1, limit, clean);
    }
  }

  // ---------- properties ----------

  lemma PropertiesDropStray(v: Value, s: State, acc: map<Str, Value>, rest: seq<Token>, d: nat, limit: int)
    requires s.toks == Stray(v) + rest
    ensures ReadProperties(s, acc, d, limit) == ReadProperties(s.(toks := rest), acc, d, limit)
  {
    if v.List? || v.Dict? {
      Head(End(ObjTag), rest);
    } else {
      assert s.toks == rest;
    }
  }

  lemma ReadsNoProperties(t: Tables, tag: Tag, s: State, acc: map<Str, Value>, rest: seq<Token>, d: nat, limit: int,
                          clean: bool)
    requires tag == PropsTag || tag == MSTag
    requires d <= limit && Agree(t, s, clean) && s.toks == [] + ([End(tag)] + rest)
    ensures Outcome<map<Str, Value>, map<Str, Value>>(Emission(Done, [], t, map[], map[], false, 0), s, rest,
              ReadProperties(s, acc, d, limit), acc + map[], d, limit, clean)
  {
    assert s.toks == [End(tag)] + rest;
    Head(End(tag), rest);
    AgreeIgnoresTokens(t, s, rest, clean);
    assert acc + map[] == acc && s.heap + map[] == s.heap;
  }

  function PropertyImage(k: Str, x: Value): map<Str, Value> {
    if k == [] then map[] else map[k := x]
  }

  function AddProperty(acc: map<Str, Value>, k: Str, x: Value): map<Str, Value> {
    if k == [] then acc else acc[k := x]
  }

  lemma PropertyPrepend(acc: map<Str, Value>, k: Str, x: Value, more: map<Str, Value>)
    ensures AddProperty(acc, k, x) + more == acc + (PropertyImage(k, x) + more)
  {
  }

  /** One property and then the others make the bag. */
  lemma PropertiesStep(h: Heap, t: Tables, v: Value, keys: seq<Str>, i: nat, j: nat, val: Emission<Value>,
                       more: Emission<map<Str, Value>>, tag: Tag, s: State, acc: map<Str, Value>,
                       rest: seq<Token>, d: nat, limit: int, clean: bool)
    requires v.Dict? && i < |keys| && j == i + 1
    requires WriteProperties(h, t, v, keys, i).status == Done
    requires val == WriteProperty(h, t, v, keys[i]) && more == WriteProperties(h, val.t, v, keys, j)
    requires s.toks != [] && s.toks[0].Start? && s.toks[0].name == NameAttr(keys[i])
    requires var tail := more.toks + ([End(tag)] + rest);
             var x := ReadElement(Tail(s), s.toks[0], d, limit);
             var s2 := x.s.(toks := tail);
             && Outcome(val, s, Stray(Lookup(v.m, keys[i])) + tail, x, val.image, d, limit, clean)
             && (x.r.Ok? ==> Outcome(more, s2, rest, ReadProperties(s2, AddProperty(acc, keys[i], val.image), d, limit),
                                     AddProperty(acc, keys[i], val.image) + more.image, d, limit, clean))
    ensures var e := WriteProperties(h, t, v, keys, i);
            Outcome(e, s, rest, ReadProperties(s, acc, d, limit), acc + e.image, d, limit, clean)
  {
    var tail := more.toks + ([End(tag)] + rest);
    var x := ReadElement(Tail(s), s.toks[0], d, limit);
    if x.r.Ok? {
      PropertiesDropStray(Lookup(v.m, keys[i]), x.s, AddProperty(acc, keys[i], val.image), tail, d, limit);
    }
    PropertyPrepend(acc, keys[i], val.image, more.image);
    Chain(val, more, WriteProperties(h, t, v, keys, i), s, x, val.image, Stray(Lookup(v.m, keys[i])) + tail,
          x.s.(toks := tail), ReadProperties(s, acc, d, limit), rest,
          acc + (PropertyImage(keys[i], val.image) + more.image), d, limit, clean);
  }

  lemma {:induction false} ReadsProperty(h: Heap, t: Tables, v: Value, k: Str, s: State, tail: seq<Token>, d: nat,
                                         limit: int, clean: bool)
    requires v.Dict? && WriteProperty(h, t, v, k).status == Done
    requires Valid(t) && Agree(t, s, clean) && InRange(WriteProperty(h, t, v, k).t)
    requires clean || !WriteProperty(h, t, v, k).back
    requires s.toks == WriteProperty(h, t, v, k).toks + tail
    ensures s.toks != [] && s.toks[0].Start? && s.toks[0].name == NameAttr(k)
    ensures var val := WriteProperty(h, t, v, k);
            Outcome(val, s, Stray(Lookup(v.m, k)) + tail, ReadElement(Tail(s), s.toks[0], d, limit), val.image, d,
                    limit, clean)
    decreases Unvisited(h, t), v, 0, 0
  {
    if k in v.m {
      ReadsValue(h, t, v.m[k], k, s, tail, d, limit, clean);
    } else {
      ReadsNil(t, k, s, tail, d, limit, clean);
      assert Stray(Null) + tail == tail;
    }
  }

  lemma {:induction false} ReadsProperties(h: Heap, t: Tables, v: Value, keys: seq<Str>, i: nat, tag: Tag, s: State,
                                           acc: map<Str, Value>, rest: seq<Token>, d: nat, limit: int, clean: bool)
    requires v.Dict? && i <= |keys| && d <= limit && (tag == PropsTag || tag == MSTag)
    requires WriteProperties(h, t, v, keys, i).status == Done
    requires Valid(t) && Agree(t, s, clean) && InRange(WriteProperties(h, t, v, keys, i).t)
    requires clean || !WriteProperties(h, t, v, keys, i).back
    requires s.toks == WriteProperties(h, t, v, keys, i).toks + ([End(tag)] + rest)
    ensures var e := WriteProperties(h, t, v, keys, i);
            Outcome(e, s, rest, ReadProperties(s, acc, d, limit), acc + e.image, d, limit, clean)
    decreases Unvisited(h, t), v, 0, |keys| - i
  {
    if i == |keys| {
      ReadsNoProperties(t, tag, s, acc, rest, d, limit, clean);
    } else {
      var k := keys[i];
      var j := i + 1;
      var val, more := PropertyParts(h, t, v, keys, i, j);
      var tail := more.toks + ([End(tag)] + rest);
      Regroup2(val.toks, more.toks, [End(tag)] + rest);
      ReadsProperty(h, t, v, k, s, tail, d, limit, clean);
      var x := ReadElement(Tail(s), s.toks[0], d, limit);
      if x.r.Ok? {
        AgreeIgnoresTokens(val.t, x.s, tail, clean);
        ReadsProperties(h, val.t, v, keys, j, tag, x.s.(toks := tail), AddProperty(acc, k, val.image), rest, d, limit,
                        clean);
      }
      PropertiesStep(h, t, v, keys, i, j, val, more, tag, s, acc, rest, d, limit, clean);
    }
  }

  // ---------- objects ----------

  /** What an MS or Props element makes of the object around it. */
  function WithBag(n: Node, v: Value, image: map<Str, Value>): Node
    requires v.Dict?
  {
    if v.m == map[] then n else n.(props := image)
  }

  lemma {:induction false} ReadsBag(h: Heap, t: Tables, tag: Tag, v: Value, keys: seq<Str>,
                                    e: Emission<map<Str, Value>>, s: State, x: Reading<Value>, rest: seq<Token>,
                                    id: int, addr: int, n: Node, d: nat, limit: int, clean: bool)
    returns (s': State)
    requires v.Dict? && d <= limit && (tag == PropsTag || tag == MSTag)
    requires e == WriteBag(h, t, tag, v, keys) && e.status == Done
    requires Valid(t) && Agree(t, s, clean) && InRange(e.t)
    requires clean || !e.back
    requires s.toks == e.toks + rest
    requires ReadsOn(x, s, id, addr, n, d, limit)
    ensures if !e.back && d + e.need <= limit then
              && s'.toks == rest && Added(s.heap, e.nodes, s'.heap) && Agree(e.t, s', clean)
              && ReadsOn(x, s', id, addr, WithBag(n, v, e.image), d, limit)
            else x.r.Err?
    decreases Unvisited(h, t), v, 1, 0
  {
    if v.m == map[] {
      s' := s;
      EmptyBag(t, e, s, rest, clean);
    } else {
      BagParts(h, t, tag, v, keys);
      var inner := WriteProperties(h, t, v, keys, 0);
      var s1 := EnterBag(t, tag, inner, e, s, rest, clean);
      ReadsProperties(h, t, v, keys, 0, tag, s1, map[], rest, d, limit, clean);
      s' := LeaveBag(tag, v, inner, e, s, s1, x, rest, id, addr, n, d, limit, clean);
    }
  }

  /** Past the start tag of a bag. */
  lemma EnterBag(t: Tables, tag: Tag, inner: Emission<map<Str, Value>>, e: Emission<map<Str, Value>>, s: State,
                 rest: seq<Token>, clean: bool)
    returns (s1: State)
    requires e.toks == [Start(tag, None, None)] + (inner.toks + [End(tag)]) && s.toks == e.toks + rest
    requires Agree(t, s, clean)
    ensures s.toks != [] && s.toks[0] == Start(tag, None, None) && s1 == Tail(s)
    ensures s1.toks == inner.toks + ([End(tag)] + rest) && Agree(t, s1, clean) && s1.heap == s.heap
  {
    var tail := inner.toks + ([End(tag)] + rest);
    Regroup3([Start(tag, None, None)], inner.toks, [End(tag)], rest);
    Head(Start(tag, None, None), tail);
    AgreeIgnoresTokens(t, s, tail, clean);
    s1 := Tail(s);
  }

  /** What has been read of the bag is what its element makes of the object. */
  lemma LeaveBag(tag: Tag, v: Value, inner: Emission<map<Str, Value>>, e: Emission<map<Str, Value>>, s: State,
                 s1: State, x: Reading<Value>, rest: seq<Token>, id: int, addr: int, n: Node, d: nat, limit: int,
                 clean: bool)
    returns (s': State)
    requires v.Dict? && v.m != map[] && (tag == PropsTag || tag == MSTag)
    requires e.t == inner.t && e.image == inner.image && e.nodes == inner.nodes && e.back == inner.back
    requires e.need == inner.need && s.toks != [] && s.toks[0] == Start(tag, None, None) && s1 == Tail(s)
    requires ReadsOn(x, s, id, addr, n, d, limit)
    requires Outcome(inner, s1, rest, ReadProperties(s1, map[], d, limit), map[] + inner.image, d, limit, clean)
    ensures if !e.back && d + e.need <= limit then
              && s'.toks == rest && Added(s.heap, e.nodes, s'.heap) && Agree(e.t, s', clean)
              && ReadsOn(x, s', id, addr, WithBag(n, v, e.image), d, limit)
            else x.r.Err?
  {
    MapIdentity(inner.image);
    s' := ReadProperties(s1, map[], d, limit).s;
  }

  lemma EmptyBag(t: Tables, e: Emission<map<Str, Value>>, s: State, rest: seq<Token>, clean: bool)
    requires e == Emission(Done, [], t, map[], map[], false, 0) && s.toks == e.toks + rest && Agree(t, s, clean)
    ensures s.toks == rest && Added(s.heap, e.nodes, s.heap) && Agree(e.t, s, clean)
  {
    assert s.heap + map[] == s.heap;
  }

  /** Closing an object records it, and the tables agree as they did around it. */
  lemma LeaveAgrees(t: Tables, id: int, u: Tables, s: State, addr: int, n: Node, rest: seq<Token>, clean: bool)
    requires Valid(t) && id !in t.objRefs && Extends(Entered(t, id), u) && Agree(u, s, clean) && addr == t.base + t.next
    ensures Agree(u.(open := u.open - {id}), Closed(s, t.next, addr, n, rest), clean)
  {
    LeaveNumbered(t, id, u);
    OneMoreOnRecord(u, u.(open := u.open - {id}), s, Closed(s, t.next, addr, n, rest), id, t.next, addr, clean);
  }

  lemma LeaveNumbered(t: Tables, id: int, u: Tables)
    requires Valid(t) && id !in t.objRefs && Extends(Entered(t, id), u)
    ensures id in u.objRefs && u.objRefs[id] == t.next && u.base == t.base && t.next < u.next
    ensures forall o :: o in u.objRefs && o != id ==> u.objRefs[o] != t.next
  {
    assert id in Entered(t, id).objRefs;
  }

  lemma OneMoreOnRecord(u: Tables, u': Tables, s: State, s': State, id: int, n: nat, addr: int, clean: bool)
    requires Agree(u, s, clean) && id in u.objRefs && u.objRefs[id] == n < u.next && addr == u.base + n
    requires forall o :: o in u.objRefs && o != id ==> u.objRefs[o] != n
    requires u'.next == u.next && u'.base == u.base && u'.lists == u.lists && u'.objRefs == u.objRefs
    requires u'.open == u.open - {id} && s'.next == s.next && s'.tnRefs == s.tnRefs
    requires s'.objRefs == s.objRefs[n := Obj(addr)]
    ensures Agree(u', s', clean)
  {
  }

  /** The object after its type names and its string. */
  function HeadNode(n: Node, named: Tables): Node {
    EMPTY_NODE.(typeNames := WrittenNames(named, n.typeNames), toString := CS.Decode(CS.Encode(n.toString)))
  }

  /** The object just before its end tag, given its tables after the type names and its two bags. */
  function FullNode(n: Node, named: Tables, ms: map<Str, Value>, ps: map<Str, Value>): Node {
    WithBag(WithBag(HeadNode(n, named), Dict(n.members), ms), Dict(n.props), ps)
  }

  lemma FullNodeInSteps(n: Node, named: Tables, ms: map<Str, Value>, ps: map<Str, Value>)
    ensures FullNode(n, named, ms, ps)
            == WithBag(WithBag(HeadNode(n, named), Dict(n.members), ms), Dict(n.props), ps)
  {
  }

  lemma FullNodeIsImage(n: Node, named: Tables, ms: map<Str, Value>, ps: map<Str, Value>)
    ensures FullNode(n, named, ms, ps) == ObjectImage(n, named, ms, ps)
  {
  }

  /** From inside an object's element through its type names and string. */
  lemma ReadsObjectHead(t: Tables, n: Node, s: State, x: Reading<Value>, rest: seq<Token>, id: int, addr: int,
                        d: nat, limit: int, clean: bool) returns (s': State)
    requires Valid(t) && Agree(t, s, clean) && InRange(t) && ReadsOn(x, s, id, addr, EMPTY_NODE, d, limit)
    requires s.toks == OptionalTypeNames(t, n.typeNames).0 + (OptionalToString(n.toString) + rest)
    ensures var t' := OptionalTypeNames(t, n.typeNames).1;
            && Agree(t', s', clean) && s'.toks == rest && s'.heap == s.heap
            && ReadsOn(x, s', id, addr, HeadNode(n, t'), d, limit)
  {
    var t' := OptionalTypeNames(t, n.typeNames).1;
    var s1 := ReadOptionalTypeNames(t, s, n.typeNames, OptionalToString(n.toString) + rest, Some(id), addr, d, limit,
                                    clean);
    ReadOptionalToString(n.toString, s1, rest, Some(id), addr, EMPTY_NODE.(typeNames := WrittenNames(t', n.typeNames)),
                         d, limit);
    s' := s1.(toks := rest);
    AgreeIgnoresTokens(t', s1, rest, clean);
  }

  /** The type names and the two bags of an object's element. */
  datatype Parts = Parts(named: Tables, ms: Emission<map<Str, Value>>, ps: Emission<map<Str, Value>>)

  ghost predicate PartsOf(h: Heap, t: Tables, id: int, p: Parts)
    requires id in h
  {
    && p.named == OptionalTypeNames(Entered(t, id), h[id].typeNames).1
    && p.ms == WriteBag(h, p.named, MSTag, Dict(h[id].members), MemberKeys(h[id]))
    && p.ps == WriteBag(h, p.ms.t, PropsTag, Dict(h[id].props), SortedKeys(h[id].props.Keys))
    && p.ms.status == Done && p.ps.status == Done
  }

  /** How the emission of an object is put together from its parts. */
  ghost predicate Assembled(t: Tables, id: int, n: Node, e: Emission<Value>, p: Parts) {
    && e.t == p.ps.t.(open := p.ps.t.open - {id})
    && e.image == Obj(t.base + t.next)
    && e.nodes == p.ms.nodes + p.ps.nodes + map[t.base + t.next := FullNode(n, p.named, p.ms.image, p.ps.image)]
    && e.back == (p.ms.back || p.ps.back)
    && e.need == 1 + Max(p.ms.need, p.ps.need)
  }

  lemma ObjectParts(h: Heap, t: Tables, id: int, name: Str) returns (p: Parts)
    requires id in h && id !in t.objRefs && WriteObject(h, t, id, name).status == Done
    ensures PartsOf(h, t, id, p) && Assembled(t, id, h[id], WriteObject(h, t, id, name), p)
    ensures WriteObject(h, t, id, name).toks
            == [ObjStart(t, name)] + (OptionalTypeNames(Entered(t, id), h[id].typeNames).0
                 + (OptionalToString(h[id].toString) + (p.ms.toks + (p.ps.toks + [End(ObjTag)]))))
  {
    var n := h[id];
    var (tn, t2) := OptionalTypeNames(Entered(t, id), n.typeNames);
    var ms := WriteBag(h, t2, MSTag, Dict(n.members), MemberKeys(n));
    var ps := WriteBag(h, ms.t, PropsTag, Dict(n.props), SortedKeys(n.props.Keys));
    Regroup3([ObjStart(t, name)], tn, OptionalToString(n.toString), ms.toks + (ps.toks + [End(ObjTag)]));
    FullNodeIsImage(n, t2, ms.image, ps.image);
    p := Parts(t2, ms, ps);
  }

  /** The tables at each stage of an object's element. */
  lemma PartsKeep(h: Heap, t: Tables, id: int, p: Parts)
    requires Valid(t) && id in h && id !in t.objRefs && PartsOf(h, t, id, p)
    ensures Valid(Entered(t, id)) && Valid(p.named) && Valid(p.ms.t) && Valid(p.ps.t)
    ensures Extends(p.ms.t, p.ps.t) && Extends(p.named, p.ps.t) && Extends(Entered(t, id), p.ps.t)
    ensures Unvisited(h, p.ms.t) <= Unvisited(h, p.named) < Unvisited(h, t)
  {
    EnterKeeps(t, id, h[id].typeNames);
    UnvisitedDrops(h, t, p.named, id);
    UnvisitedMonotone(h, p.named, p.ms.t);
    WriteBagKeeps(h, p.named, MSTag, Dict(h[id].members), MemberKeys(h[id]));
    WriteBagKeeps(h, p.ms.t, PropsTag, Dict(h[id].props), SortedKeys(h[id].props.Keys));
    ExtendsTransitive(p.named, p.ms.t, p.ps.t);
    ExtendsTransitive(Entered(t, id), p.named, p.ps.t);
  }

  lemma PartsRecur(h: Heap, t: Tables, id: int, p: Parts)
    requires Valid(t) && id in h && id !in t.objRefs && PartsOf(h, t, id, p)
    ensures Valid(p.named) && Valid(p.ms.t) && Unvisited(h, p.ms.t) <= Unvisited(h, p.named) < Unvisited(h, t)
  {
    PartsKeep(h, t, id, p);
  }

  lemma TablesAfter(t: Tables, id: int, n: Node, e: Emission<Value>, p: Parts)
    requires Assembled(t, id, n, e, p)
    ensures e.t.objRefs == p.ps.t.objRefs && e.t.open == p.ps.t.open - {id} && e.back == (p.ms.back || p.ps.back)
    ensures e.t.next == p.ps.t.next && e.t.lists == p.ps.t.lists && e.need == 1 + Max(p.ms.need, p.ps.need)
  {
  }

  lemma NamedKeeps(h: Heap, t: Tables, id: int, p: Parts)
    requires Valid(t) && id in h && id !in t.objRefs && PartsOf(h, t, id, p)
    ensures Valid(p.named) && p.ms.t.next <= p.ps.t.next && Unvisited(h, p.named) < Unvisited(h, t)
    ensures Extends(Entered(t, id), p.ps.t)
  {
    PartsKeep(h, t, id, p);
  }

  lemma NamesInRange(t: Tables, id: int, names: seq<Str>, p: Parts, e: Emission<Value>)
    requires Extends(Entered(t, id), p.ps.t) && e.t.next == p.ps.t.next && InRange(e.t)
    ensures InRange(Entered(t, id))
  {
  }

  lemma MembersKeep(h: Heap, t: Tables, id: int, p: Parts)
    requires Valid(t) && id in h && id !in t.objRefs && PartsOf(h, t, id, p)
    ensures Valid(p.ms.t) && Unvisited(h, p.ms.t) < Unvisited(h, t)
    ensures Extends(Entered(t, id), p.ps.t)
  {
    PartsKeep(h, t, id, p);
  }

  /** From inside an object's element to its end. */
  lemma {:induction false} ReadsObjectBody(h: Heap, t: Tables, id: int, e: Emission<Value>, p: Parts, s: State,
                                           x: Reading<Value>, rest: seq<Token>, addr: int, outer: nat, d: nat,
                                           limit: int, clean: bool)
    requires id in h && id !in t.objRefs && d <= limit && d == outer + 1 && addr == t.base + t.next
    requires PartsOf(h, t, id, p) && Assembled(t, id, h[id], e, p)
    requires Valid(t) && Agree(Entered(t, id), s, clean) && InRange(e.t)
    requires clean || !e.back
    requires s.toks == OptionalTypeNames(Entered(t, id), h[id].typeNames).0
                       + (OptionalToString(h[id].toString) + (p.ms.toks + (p.ps.toks + ([End(ObjTag)] + rest))))
    requires ReadsOn(x, s, t.next, addr, EMPTY_NODE, d, limit)
    ensures Outcome(e, s, rest, x, e.image, outer, limit, clean)
    decreases Unvisited(h, t), Obj(id), 1, 3
  {
    var n := h[id];
    EnterKeeps(t, id, n.typeNames);
    NamedKeeps(h, t, id, p);
    NamesInRange(t, id, n.typeNames, p, e);
    var s2 := ReadsObjectHead(Entered(t, id), n, s, x, p.ms.toks + (p.ps.toks + ([End(ObjTag)] + rest)), t.next, addr,
                              d, limit, clean);
    ReadsObjectMembers(h, t, id, e, p, s, s2, x, rest, addr, outer, d, limit, clean);
  }

  /** From after the string of an object to its end. */
  lemma {:induction false} ReadsObjectMembers(h: Heap, t: Tables, id: int, e: Emission<Value>, p: Parts, s: State,
                                              s2: State, x: Reading<Value>, rest: seq<Token>, addr: int, outer: nat,
                                              d: nat, limit: int, clean: bool)
    requires id in h && id !in t.objRefs && d <= limit && d == outer + 1 && addr == t.base + t.next && Valid(t)
    requires PartsOf(h, t, id, p) && Assembled(t, id, h[id], e, p)
    requires Agree(p.named, s2, clean) && InRange(e.t) && s2.heap == s.heap
    requires clean || !e.back
    requires s2.toks == p.ms.toks + (p.ps.toks + ([End(ObjTag)] + rest))
    requires ReadsOn(x, s2, t.next, addr, HeadNode(h[id], p.named), d, limit)
    ensures Outcome(e, s, rest, x, e.image, outer, limit, clean)
    decreases Unvisited(h, t), Obj(id), 1, 2
  {
    var n := h[id];
    NamedKeeps(h, t, id, p);
    var s3 := ReadsBag(h, p.named, MSTag, Dict(n.members), MemberKeys(n), p.ms, s2, x,
                       p.ps.toks + ([End(ObjTag)] + rest),
                       t.next, addr, HeadNode(n, p.named), d, limit, clean);
    if !p.ms.back && d + p.ms.need <= limit {
      ReadsObjectProps(h, t, id, e, p, s, s3, x, rest, addr, outer, d, limit, clean);
    }
  }

  /** From after the MS element of an object to its end. */
  lemma {:induction false} ReadsObjectProps(h: Heap, t: Tables, id: int, e: Emission<Value>, p: Parts, s: State,
                                            s3: State, x: Reading<Value>, rest: seq<Token>, addr: int, outer: nat,
                                            d: nat, limit: int, clean: bool)
    requires id in h && id !in t.objRefs && d <= limit && d == outer + 1 && addr == t.base + t.next && Valid(t)
    requires PartsOf(h, t, id, p) && Assembled(t, id, h[id], e, p)
    requires Agree(p.ms.t, s3, clean) && InRange(e.t) && Added(s.heap, p.ms.nodes, s3.heap)
    requires clean || !e.back
    requires !p.ms.back && d + p.ms.need <= limit
    requires s3.toks == p.ps.toks + ([End(ObjTag)] + rest)
    requires ReadsOn(x, s3, t.next, addr, WithBag(HeadNode(h[id], p.named), Dict(h[id].members), p.ms.image), d, limit)
    ensures Outcome(e, s, rest, x, e.image, outer, limit, clean)
    decreases Unvisited(h, t), Obj(id), 1, 1
  {
    var n := h[id];
    var n3 := WithBag(HeadNode(n, p.named), Dict(n.members), p.ms.image);
    MembersKeep(h, t, id, p);
    var s4 := ReadsBag(h, p.ms.t, PropsTag, Dict(n.props), SortedKeys(n.props.Keys), p.ps, s3, x, [End(ObjTag)] + rest,
                       t.next, addr, n3, d, limit, clean);
    if !p.ps.back && d + p.ps.need <= limit {
      ObjectEnds(t, id, n, e, p, s, s3, s4, x, rest, addr, outer, d, limit, clean);
    } else {
      RefusedAround(t, id, n, e, p, outer, d, limit);
    }
  }

  /** What is refused inside an object is refused around it. */
  lemma RefusedAround(t: Tables, id: int, n: Node, e: Emission<Value>, p: Parts, outer: nat, d: nat, limit: int)
    requires Assembled(t, id, n, e, p) && d == outer + 1 && (p.ps.back || d + p.ps.need > limit)
    ensures e.back || outer + e.need > limit
  {
  }

  /** The end tag of an object whose parts have been read. */
  lemma ObjectEnds(t: Tables, id: int, n: Node, e: Emission<Value>, p: Parts, s: State, s3: State, s4: State,
                   x: Reading<Value>, rest: seq<Token>, addr: int, outer: nat, d: nat, limit: int, clean: bool)
    requires d == outer + 1 && addr == t.base + t.next
    requires id !in t.objRefs && Valid(t) && Assembled(t, id, n, e, p)
    requires s4.toks == [End(ObjTag)] + rest
    requires ReadsOn(x, s4, t.next, addr,
                     WithBag(WithBag(HeadNode(n, p.named), Dict(n.members), p.ms.image), Dict(n.props), p.ps.image), d,
                         limit)
    requires Added(s.heap, p.ms.nodes, s3.heap) && Added(s3.heap, p.ps.nodes, s4.heap) && Agree(p.ps.t, s4, clean)
    requires Extends(Entered(t, id), p.ps.t)
    requires !p.ms.back && !p.ps.back && d + p.ms.need <= limit && d + p.ps.need <= limit
    ensures Outcome(e, s, rest, x, e.image, outer, limit, clean)
  {
    var full, s' := ObjectCloses(t, id, n, e, p, s4, x, rest, addr, d, limit, clean);
    HeapAddsObject(s.heap, p.ms.nodes, s3.heap, p.ps.nodes, s4.heap, e.nodes, addr, full);
    assert outer + e.need <= limit;
    OutcomeIs(e, s, rest, x, s', addr, outer, limit, clean);
  }

  lemma ObjectCloses(t: Tables, id: int, n: Node, e: Emission<Value>, p: Parts, s4: State, x: Reading<Value>,
                     rest: seq<Token>, addr: int, d: nat, limit: int, clean: bool)
    returns (full: Node, s': State)
    requires id !in t.objRefs && Valid(t) && Assembled(t, id, n, e, p) && addr == t.base + t.next
    requires s4.toks == [End(ObjTag)] + rest
    requires ReadsOn(x, s4, t.next, addr,
                     WithBag(WithBag(HeadNode(n, p.named), Dict(n.members), p.ms.image), Dict(n.props), p.ps.image), d,
                         limit)
    requires Agree(p.ps.t, s4, clean) && Extends(Entered(t, id), p.ps.t)
    ensures x == Reading(Ok(Obj(addr)), s') && s'.toks == rest && s'.heap == s4.heap[addr := full]
    ensures Agree(e.t, s', clean) && e.image == Obj(addr) && e.back == (p.ms.back || p.ps.back)
    ensures e.nodes == p.ms.nodes + p.ps.nodes + map[addr := full] && e.need == 1 + Max(p.ms.need, p.ps.need)
  {
    s' := Closed(s4, t.next, addr, FullNode(n, p.named, p.ms.image, p.ps.image), rest);
    full := FullNode(n, p.named, p.ms.image, p.ps.image);
    FullNodeInSteps(n, p.named, p.ms.image, p.ps.image);
    ClosesAs(x, s4, t.next, addr, full, rest, d, limit);
    LeaveAgrees(t, id, p.ps.t, s4, addr, full, rest, clean);
    AssembledAt(t, id, n, e, p, addr, full);
  }

  lemma ClosesAs(x: Reading<Value>, s: State, id: int, addr: int, full: Node, rest: seq<Token>, d: nat, limit: int)
    requires ReadsOn(x, s, id, addr, full, d, limit) && s.toks == [End(ObjTag)] + rest
    ensures x == Reading(Ok(Obj(addr)), Closed(s, id, addr, full, rest))
  {
    CloseObject(s, id, addr, full, rest, d, limit);
  }

  lemma AssembledAt(t: Tables, id: int, n: Node, e: Emission<Value>, p: Parts, addr: int, full: Node)
    requires Assembled(t, id, n, e, p) && addr == t.base + t.next
    requires full == FullNode(n, p.named, p.ms.image, p.ps.image)
    ensures e.image == Obj(addr) && e.nodes == p.ms.nodes + p.ps.nodes + map[addr := full]
    ensures e.t == p.ps.t.(open := p.ps.t.open - {id})
  {
  }

  lemma OutcomeIs(e: Emission<Value>, s: State, rest: seq<Token>, x: Reading<Value>, s': State, addr: int, d: nat,
                  limit: int, clean: bool)
    requires x == Reading(Ok(Obj(addr)), s') && e.image == Obj(addr) && !e.back && d + e.need <= limit
    requires s'.toks == rest && Added(s.heap, e.nodes, s'.heap) && Agree(e.t, s', clean)
    ensures Outcome(e, s, rest, x, e.image, d, limit, clean)
  {
  }

  lemma HeapAddsObject(h: Heap, a: Heap, h3: Heap, b: Heap, h4: Heap, nodes: Heap, addr: int, n: Node)
    requires Added(h, a, h3) && Added(h3, b, h4) && nodes == a + b + map[addr := n]
    ensures Added(h, nodes, h4[addr := n])
  {
  }

  lemma {:induction false} ReadsObjectElement(h: Heap, t: Tables, id: int, name: Str, s: State, rest: seq<Token>,
                                              d: nat, limit: int, clean: bool)
    requires id in h && id !in t.objRefs && WriteObject(h, t, id, name).status == Done
    requires Valid(t) && Agree(t, s, clean) && InRange(WriteObject(h, t, id, name).t)
    requires clean || !WriteObject(h, t, id, name).back
    requires s.toks == WriteObject(h, t, id, name).toks + rest
    ensures s.toks != [] && s.toks[0].Start? && s.toks[0].name == NameAttr(name)
    ensures var e := WriteObject(h, t, id, name);
            Outcome(e, s, rest, ReadElement(Tail(s), s.toks[0], d, limit), e.image, d, limit, clean)
    decreases Unvisited(h, t), Obj(id), 1, 4
  {
    var e := WriteObject(h, t, id, name);
    var p := ObjectParts(h, t, id, name);
    var tn := OptionalTypeNames(Entered(t, id), h[id].typeNames).0;
    var text := OptionalToString(h[id].toString);
    var body := tn + (text + (p.ms.toks + (p.ps.toks + [End(ObjTag)])));
    assert s.toks[0] == ObjStart(t, name);
    if d < limit {
      WriteObjectKeeps(h, t, id, name);
      var d1 := d + 1;
      EnterElement(t, s, name, body, rest, d, d1, limit);
      var s1 := s.(toks := body + rest, next := s.next + 1);
      Regroup4(text, p.ms.toks, p.ps.toks, [End(ObjTag)], rest);
      Regroup2(tn, text + (p.ms.toks + (p.ps.toks + [End(ObjTag)])), rest);
      EnterObjectAgrees(t, id, s, body + rest, clean);
      ReadsObjectBody(h, t, id, e, p, s1, ReadElement(Tail(s), s.toks[0], d, limit), rest, s.next, d, d1, limit, clean);
    }
  }

  lemma EnterObjectAgrees(t: Tables, id: int, s: State, toks: seq<Token>, clean: bool)
    requires Valid(t) && id !in t.objRefs && Agree(t, s, clean)
    ensures Agree(Entered(t, id), s.(toks := toks, next := s.next + 1), clean)
  {
  }
}
