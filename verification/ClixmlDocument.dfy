/** Whole documents: Serialize, SerializeRaw, and Deserialize on what they produce. */
module ClixmlDocument {
  import opened Wrappers
  import opened Sequences
  import opened Clixml
  import opened ClixmlWriter
  import opened ClixmlReader
  import opened ClixmlTables
  import opened ClixmlRoundTrip
  import opened ClixmlReadBack

  /** What a fresh serializer makes of v; base is the first address its reader will hand out. */
  function Written(h: Heap, v: Value, base: int): Emission<Value> {
    Write(h, FreshTables(base), v, [])
  }

  /** The document of Serialize. */
  function Wrapped(toks: seq<Token>): seq<Token> {
    [Start(ObjsTag, None, None)] + (toks + [End(ObjsTag)])
  }

  lemma FreshIsValid(base: int)
    ensures Valid(FreshTables(base))
  {
  }

  /** An Objs root drops the end tag a list or hashtable leaves, and then ends. */
  lemma ObjsEnds(v: Value, s: State, acc: seq<Value>, d: nat, limit: int)
    requires s.toks == Stray(v) + [End(ObjsTag)]
    ensures ReadObjs(s, acc, d, limit) == Reading(Ok(acc), s.(toks := []))
  {
    if v.List? || v.Dict? {
      Head(End(ObjTag), [End(ObjsTag)]);
      assert Tail(s).toks == [End(ObjsTag)];
    } else {
      assert s.toks == [End(ObjsTag)];
    }
  }

  /** One document from a serializer and to a reader with whatever is in their tables, as long as these agree. */
  lemma DocumentReads(h: Heap, t: Tables, v: Value, s: State, limit: int, clean: bool)
    requires Write(h, t, v, []).status == Done && InRange(Write(h, t, v, []).t)
    requires Valid(t) && Agree(t, s, clean) && (clean || !Write(h, t, v, []).back)
    requires s.toks == Wrapped(Write(h, t, v, []).toks)
    ensures var e, x := Write(h, t, v, []), ReadDocument(s, 0, limit);
            if !e.back && e.need <= limit then
              x.r == Ok([e.image]) && x.s.toks == [] && x.s.heap == s.heap + e.nodes && Agree(e.t, x.s, clean)
            else x.r.Err?
  {
    var e := Write(h, t, v, []);
    Head(Start(ObjsTag, None, None), e.toks + [End(ObjsTag)]);
    var s1 := Tail(s);
    assert s.toks[0] == Start(ObjsTag, None, None) && s1.toks == e.toks + [End(ObjsTag)];
    AgreeAnyToks(t, s, s1, clean);
    ReadsValue(h, t, v, [], s1, [End(ObjsTag)], 0, limit, clean);
    RootRead(v, e, s1, limit, clean);
  }

  lemma AgreeAnyToks(t: Tables, s: State, s': State, clean: bool)
    requires Agree(t, s, clean) && s' == s.(toks := s'.toks)
    ensures Agree(t, s', clean)
  {
  }

  /**
   The round trip, for every value, every heap and every reader, fresh or not: a document without
   a reference back to an open object, nested within the limit, is read as exactly its image, and
   the objects it defines are exactly its nodes; whatever an earlier document left in the reader's
   tables makes no difference. A reader with an empty object table fails on any other document.
   */
  lemma DocumentRoundTrip(h: Heap, v: Value, s: State, limit: int)
    requires var e := Written(h, v, s.next);
             e.status == Done && InRange(e.t) && s.toks == Wrapped(e.toks)
    ensures var e := Written(h, v, s.next);
            var x := ReadDocument(s, 0, limit);
            && (!e.back && e.need <= limit ==>
                  x.r == Ok([e.image]) && x.s.toks == [] && x.s.heap == s.heap + e.nodes)
            && (s.objRefs == map[] || !e.back ==> (x.r.Ok? <==> !e.back && e.need <= limit))
  {
    var t := FreshTables(s.next);
    var clean := s.objRefs == map[];
    FreshIsValid(s.next);
    if clean || !Written(h, v, s.next).back {
      FreshAgrees(t, s, clean);
      DocumentReads(h, t, v, s, limit, clean);
    }
  }

  lemma FreshAgrees(t: Tables, s: State, clean: bool)
    requires t == FreshTables(s.next) && clean == (s.objRefs == map[])
    ensures Agree(t, s, clean)
  {
  }

  /** The only child of Objs, and its end. */
  lemma RootRead(v: Value, e: Emission<Value>, s: State, limit: int, clean: bool)
    requires s.toks != [] && s.toks[0].Start?
    requires Outcome(e, s, Stray(v) + [End(ObjsTag)], ReadElement(Tail(s), s.toks[0], 0, limit), e.image, 0, limit,
                     clean)
    ensures var y := ReadObjs(s, [], 0, limit);
            if !e.back && e.need <= limit then
              y.r == Ok([e.image]) && y.s.toks == [] && y.s.heap == s.heap + e.nodes && Agree(e.t, y.s, clean)
            else y.r.Err?
  {
    var x := ReadElement(Tail(s), s.toks[0], 0, limit);
    if x.r.Ok? {
      ObjsEnds(v, x.s, [e.image], 0, limit);
      assert [] + [e.image] == [e.image];
    }
  }

  /** The same for SerializeRaw, whose single element is the root itself; its stray end tag stays unread. */
  lemma RawRoundTrip(h: Heap, v: Value, s: State, limit: int)
    requires var e := Written(h, v, s.next);
             e.status == Done && InRange(e.t) && s.toks == e.toks
    ensures var e := Written(h, v, s.next);
            var x := ReadDocument(s, 0, limit);
            && (!e.back && e.need <= limit ==>
                  x.r == Ok([e.image]) && x.s.toks == Stray(v) && x.s.heap == s.heap + e.nodes)
            && (s.objRefs == map[] || !e.back ==> (x.r.Ok? <==> !e.back && e.need <= limit))
  {
    var t := FreshTables(s.next);
    var clean := s.objRefs == map[];
    FreshIsValid(s.next);
    if clean || !Written(h, v, s.next).back {
      FreshAgrees(t, s, clean);
      RawReads(h, t, v, s, limit, clean);
    }
  }

  /** A bare root element, with any tables in agreement. */
  lemma RawReads(h: Heap, t: Tables, v: Value, s: State, limit: int, clean: bool)
    requires Write(h, t, v, []).status == Done && InRange(Write(h, t, v, []).t)
    requires Valid(t) && Agree(t, s, clean) && (clean || !Write(h, t, v, []).back)
    requires s.toks == Write(h, t, v, []).toks
    ensures var e, x := Write(h, t, v, []), ReadDocument(s, 0, limit);
            if !e.back && e.need <= limit then
              x.r == Ok([e.image]) && x.s.toks == Stray(v) && x.s.heap == s.heap + e.nodes && Agree(e.t, x.s, clean)
            else x.r.Err?
  {
    assert s.toks + [] == s.toks && Stray(v) + [] == Stray(v);
    ReadsValue(h, t, v, [], s, [], 0, limit, clean);
    NoObjsRoot(h, t, v, []);
  }

  /** No value is written as an Objs element. */
  lemma NoObjsRoot(h: Heap, t: Tables, v: Value, name: Str)
    requires Write(h, t, v, name).status == Done
    ensures StartsBelow(Write(h, t, v, name).toks)
  {
    if v.List? {
      NoObjsList(h, t, v, name);
    } else if v.Dict? {
      NoObjsDict(h, t, v, name);
    } else if v.Obj? && v.id !in t.objRefs {
      NoObjsObject(h, t, v.id, name);
    }
  }

  /** The first token starts an element that is not the root of a document. */
  predicate StartsBelow(toks: seq<Token>) {
    toks != [] && toks[0].Start? && toks[0].tag != ObjsTag
  }

  lemma NoObjsList(h: Heap, t: Tables, v: Value, name: Str)
    requires v.List?
    ensures StartsBelow(WriteList(h, t, v, name).toks)
  {
  }

  lemma NoObjsDict(h: Heap, t: Tables, v: Value, name: Str)
    requires v.Dict?
    ensures StartsBelow(WriteDict(h, t, v, name).toks)
  {
  }

  lemma NoObjsObject(h: Heap, t: Tables, id: int, name: Str)
    requires id in h && id !in t.objRefs
    ensures StartsBelow(WriteObject(h, t, id, name).toks)
  {
  }

  /** Reading a document with whatever tables earlier documents left gives what a fresh reader gets. */
  lemma StaleTablesDoNotMatter(h: Heap, v: Value, s1: State, s2: State, limit: int)
    requires s1.next == s2.next && s1.heap == s2.heap && s1.toks == s2.toks
    requires var e := Written(h, v, s1.next);
             e.status == Done && InRange(e.t) && s1.toks == Wrapped(e.toks)
    requires s1.objRefs == map[] && s1.tnRefs == map[] && ReadDocument(s1, 0, limit).r.Ok?
    ensures var x1, x2 := ReadDocument(s1, 0, limit), ReadDocument(s2, 0, limit);
            x2.r == x1.r && x2.s.heap == x1.s.heap
  {
    DocumentRoundTrip(h, v, s1, limit);
    DocumentRoundTrip(h, v, s2, limit);
  }
}
