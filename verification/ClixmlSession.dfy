/**
 Several documents, one after another, from a serializer that is never reset to one deserializer:
 what an earlier document defined, a later one refers to.
 */
module ClixmlSession {
  import opened Wrappers
  import opened Sequences
  import opened Clixml
  import opened ClixmlWriter
  import opened ClixmlTables
  import opened ClixmlReader
  import opened ClixmlRoundTrip
  import opened ClixmlDocument
  import opened ClixmlGraph
  import opened ClixmlCycles
  import opened ClixmlNames
  import opened ClixmlImage
  import opened ClixmlIsomorphism

  /** The documents of the values in the list v, from the i-th on: each starts with the tables the last one left. */
  function Documents(h: Heap, t: Tables, v: Value, i: nat): (docs: seq<seq<Token>>)
    requires v.List? && i <= |v.items|
    ensures |docs| == |v.items| - i
    decreases |v.items| - i
  {
    if i == |v.items| then []
    else
      var first := Write(h, t, v.items[i], []);
      [Wrapped(first.toks)] + Documents(h, first.t, v, i + 1)
  }

  /** One Deserialize for each document, up to the first that fails. */
  function ReadSession(docs: seq<seq<Token>>, s: State, limit: int): Reading<seq<Value>> {
    if docs == [] then Reading(Ok([]), s)
    else
      var x := ReadDocument(s.(toks := docs[0]), 0, limit);
      if x.r.Err? then Reading(Err(x.r.error), x.s)
      else
        var y := ReadSession(docs[1..], x.s, limit);
        if y.r.Ok? then Reading(Ok(x.r.value + y.r.value), y.s) else y
  }

  /** The session is read as exactly the images, or fails, and leaves both sides' tables in agreement. */
  ghost predicate SessionOutcome(e: Emission<seq<Value>>, n: nat, s: State, x: Reading<seq<Value>>, limit: int) {
    if !e.back && (n == 0 || e.need <= limit) then
      x.r == Ok(e.image) && Added(s.heap, e.nodes, x.s.heap) && Agree(e.t, x.s, true)
    else x.r.Err?
  }

  lemma {:induction false} SessionReads(h: Heap, t: Tables, v: Value, i: nat, docs: seq<seq<Token>>, s: State,
                                        limit: int)
    requires v.List? && i <= |v.items| && WriteItems(h, t, v, i).status == Done && docs == Documents(h, t, v, i)
    requires Valid(t) && Agree(t, s, true) && InRange(WriteItems(h, t, v, i).t)
    ensures SessionOutcome(WriteItems(h, t, v, i), |docs|, s, ReadSession(docs, s, limit), limit)
    decreases |v.items| - i
  {
    if i == |v.items| {
      assert s.heap + map[] == s.heap;
    } else {
      var j := i + 1;
      var first, more := ItemParts(h, t, v, i, j);
      var later := LaterDocuments(h, t, v, i, j, first, docs);
      var x := FirstDocument(h, t, v.items[i], docs[0], s, limit);
      FirstOfSession(docs, later, s, limit);
      if x.r.Ok? {
        SessionReads(h, first.t, v, j, later, x.s, limit);
        SessionJoins(first, more, WriteItems(h, t, v, i), |later|, |docs|, s, x, ReadSession(later, x.s, limit),
                     ReadSession(docs, s, limit), limit);
      }
    }
  }

  lemma LaterDocuments(h: Heap, t: Tables, v: Value, i: nat, j: nat, first: Emission<Value>, docs: seq<seq<Token>>)
    returns (later: seq<seq<Token>>)
    requires v.List? && i < |v.items| && j == i + 1 && first == Write(h, t, v.items[i], [])
    requires docs == Documents(h, t, v, i)
    ensures later == Documents(h, first.t, v, j) && docs != [] && docs[0] == Wrapped(first.toks) && later == docs[1..]
    ensures |docs| == |later| + 1
    ensures later == [] ==> WriteItems(h, first.t, v, j) == Emission(Done, [], first.t, [], map[], false, 0)
  {
    later := Documents(h, first.t, v, j);
    Head(Wrapped(first.toks), later);
  }

  lemma FirstDocument(h: Heap, t: Tables, v: Value, doc: seq<Token>, s: State, limit: int)
    returns (x: Reading<seq<Value>>)
    requires Write(h, t, v, []).status == Done && InRange(Write(h, t, v, []).t)
    requires Valid(t) && Agree(t, s, true) && doc == Wrapped(Write(h, t, v, []).toks)
    ensures x == ReadDocument(s.(toks := doc), 0, limit)
    ensures var e := Write(h, t, v, []);
            if !e.back && e.need <= limit then
              x.r == Ok([e.image]) && x.s.heap == s.heap + e.nodes && Agree(e.t, x.s, true)
            else x.r.Err?
  {
    var s1 := s.(toks := doc);
    AgreeAnyToks(t, s, s1, true);
    DocumentReads(h, t, v, s1, limit, true);
    x := ReadDocument(s1, 0, limit);
  }

  lemma FirstOfSession(docs: seq<seq<Token>>, later: seq<seq<Token>>, s: State, limit: int)
    requires docs != [] && later == docs[1..]
    ensures var x, z := ReadDocument(s.(toks := docs[0]), 0, limit), ReadSession(docs, s, limit);
            if x.r.Err? then z.r.Err?
            else
              var y := ReadSession(later, x.s, limit);
              z == if y.r.Ok? then Reading(Ok(x.r.value + y.r.value), y.s) else y
  {
  }

  lemma SessionJoins(first: Emission<Value>, more: Emission<seq<Value>>, e: Emission<seq<Value>>, n: nat, n1: nat,
                     s: State, x: Reading<seq<Value>>, y: Reading<seq<Value>>, z: Reading<seq<Value>>, limit: int)
    requires e.t == more.t && e.back == (first.back || more.back) && e.need == Max(first.need, more.need)
    requires e.image == [first.image] + more.image && e.nodes == first.nodes + more.nodes && n1 == n + 1
    requires !first.back && first.need <= limit && (n == 0 ==> !more.back && more.need == 0)
    requires x.r == Ok([first.image]) && x.s.heap == s.heap + first.nodes
    requires SessionOutcome(more, n, x.s, y, limit)
    requires z == if y.r.Ok? then Reading(Ok(x.r.value + y.r.value), y.s) else y
    ensures SessionOutcome(e, n1, s, z, limit)
  {
    assert s.heap + first.nodes + more.nodes == s.heap + (first.nodes + more.nodes);
  }

  // ---------- a new serializer and a new deserializer ----------

  /** What a new serializer writes for a list of values, a document each. */
  function SessionOf(h: Heap, vs: seq<Value>, base: int): Emission<seq<Value>> {
    WriteItems(h, FreshTables(base), List(Plain, vs), 0)
  }

  /** What a reader that is in s makes of it. */
  function SessionRead(h: Heap, vs: seq<Value>, s: State, limit: int): Reading<seq<Value>> {
    ReadSession(Documents(h, FreshTables(s.next), List(Plain, vs), 0), s, limit)
  }

  /** A reader with an empty object table, and a session that could be written. */
  ghost predicate SessionInFront(h: Heap, vs: seq<Value>, s: State) {
    && SessionOf(h, vs, s.next).status == Done && InRange(SessionOf(h, vs, s.next).t)
    && s.objRefs == map[] && forall a :: a in s.heap ==> a < s.next
  }

  /** No cycle is reachable from the values of a session, and none is nested too deep. */
  ghost predicate SessionAccepted(h: Heap, vs: seq<Value>, s: State, limit: int) {
    Acyclic(h, List(Plain, vs)) && (vs == [] || SessionOf(h, vs, s.next).need <= limit)
  }

  /** The walk over the values of a session, which enters no object twice. */
  function SessionWalk(h: Heap, vs: seq<Value>): Walked {
    WalkItems(h, {}, List(Plain, vs), 0)
  }

  lemma SessionBackIff(h: Heap, vs: seq<Value>, base: int)
    requires SessionOf(h, vs, base).status == Done
    ensures Acyclic(h, List(Plain, vs)) <==> !SessionOf(h, vs, base).back
  {
    var t, v := FreshTables(base), List(Plain, vs);
    FreshIsValid(base);
    if Acyclic(h, v) {
      var s, rank :| Ranking(h, v, s, rank);
      NoBackInItems(h, t, v, 0, s, rank);
    }
    if !SessionOf(h, vs, base).back {
      var rank := ItemsOrder(h, t, v, 0, map[]);
      ListWithin(v, ClosedObjects(SessionOf(h, vs, base).t));
      assert Ranking(h, v, ClosedObjects(SessionOf(h, vs, base).t), rank);
    }
  }

  /** A session is read to its end exactly when no cycle is reachable from its values and none is nested too deep. */
  lemma SessionReadsIff(h: Heap, vs: seq<Value>, s: State, limit: int)
    requires SessionInFront(h, vs, s)
    ensures var e, x := SessionOf(h, vs, s.next), SessionRead(h, vs, s, limit);
            if SessionAccepted(h, vs, s, limit) then x.r == Ok(e.image) && x.s.heap == s.heap + e.nodes
            else x.r.Err?
  {
    var t, v := FreshTables(s.next), List(Plain, vs);
    FreshIsValid(s.next);
    FreshAgrees(t, s, true);
    SessionReads(h, t, v, 0, Documents(h, t, v, 0), s, limit);
    SessionBackIff(h, vs, s.next);
  }

  /** What is read of such a session: the values, with the objects of all documents in one graph. */
  lemma SessionImage(h: Heap, vs: seq<Value>, s: State, limit: int) returns (w: World)
    requires SessionInFront(h, vs, s) && SessionAccepted(h, vs, s, limit)
    ensures var x := SessionRead(h, vs, s, limit);
            && x.r.Ok? && w.t == SessionOf(h, vs, s.next).t && w.nodes == x.s.heap
            && ImageAfter(h, List(Plain, vs), List(Plain, x.r.value), w, SessionWalk(h, vs))
  {
    var t, v := FreshTables(s.next), List(Plain, vs);
    var e := SessionOf(h, vs, s.next);
    FreshIsValid(s.next);
    SessionReadsIff(h, vs, s, limit);
    var w0 := ItemsReadAs(h, t, v, 0, TOP);
    WholeList(v, e.image, TOP, w0);
    w := AmongOthers(h, t, v, List(Plain, e.image), w0, s.heap);
    ItemsFile(h, t, v, 0, []);
    AllOnFile(e.t, SessionWalk(h, vs).filed);
  }

  /**
   A session arrives, with the sharing within and between its documents, exactly when every text
   survives the string codec, no hashtable key holds an escape, and every list of type names is the
   first filed under its joined text in the whole session.
   */
  lemma SessionIsomorphic(h: Heap, vs: seq<Value>, s: State, limit: int)
    requires SessionInFront(h, vs, s)
    ensures SessionRead(h, vs, s, limit).r.Ok? <==> SessionAccepted(h, vs, s, limit)
    ensures var v, x := List(Plain, vs), SessionRead(h, vs, s, limit);
            x.r.Ok? ==>
              && |x.r.value| == |vs|
              && (Arrives(h, v, List(Plain, x.r.value), SessionOf(h, vs, s.next).t, x.s.heap)
                  <==> IntactAll(h, v, SessionWalk(h, vs)))
  {
    SessionReadsIff(h, vs, s, limit);
    if SessionAccepted(h, vs, s, limit) {
      var w := SessionImage(h, vs, s, limit);
      ArrivesIff(h, List(Plain, vs), List(Plain, SessionRead(h, vs, s, limit).r.value), w, SessionWalk(h, vs));
    }
  }

  /** An object that two documents hold is one object for the reader, whatever is in it. */
  lemma SharedBetweenDocuments(h: Heap, vs: seq<Value>, s: State, limit: int, i: nat, j: nat, o: int)
    requires SessionInFront(h, vs, s) && SessionAccepted(h, vs, s, limit)
    requires i < j < |vs| && vs[i] == vs[j] == Obj(o)
    ensures var x := SessionRead(h, vs, s, limit);
            && x.r.Ok? && |x.r.value| == |vs| && x.r.value[i] == x.r.value[j] && x.r.value[i].Obj?
            && x.r.value[i].id in x.s.heap
  {
    var w := SessionImage(h, vs, s, limit);
    SharedImage(h, vs, SessionRead(h, vs, s, limit).r.value, w, i, j, o);
  }

  lemma SharedImage(h: Heap, vs: seq<Value>, xs: seq<Value>, w: World, i: nat, j: nat, o: int)
    requires Image(h, List(Plain, vs), List(Plain, xs), w) && i < j < |vs| && vs[i] == vs[j] == Obj(o)
    ensures |xs| == |vs| && xs[i] == xs[j] && xs[i].Obj? && xs[i].id in w.nodes
  {
    assert ReadsAs(vs[i], xs[i], Inside(TOP, Item(i)), w);
    assert ReadsAs(vs[j], xs[j], Inside(TOP, Item(j)), w);
    assert o in w.t.objRefs && ObjectReadsAs(h, o, w);
  }
}
