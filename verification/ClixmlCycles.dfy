/** A document can be read back exactly when the objects it is made of form no cycle. */
module ClixmlCycles {
  import opened Wrappers
  import opened Clixml
  import opened ClixmlWriter
  import opened ClixmlTables
  import opened ClixmlReader
  import opened ClixmlRoundTrip
  import opened ClixmlReadBack
  import opened ClixmlDocument
  import opened ClixmlGraph

  function At(rank: map<int, nat>, o: int): nat {
    if o in rank then rank[o] else 0
  }

  ghost predicate NodeDescends(n: Node, p: int, rank: map<int, nat>) {
    forall o :: NodePointsTo(n, o) ==> At(rank, o) < At(rank, p)
  }

  /** Every pointer between objects of s goes to a lower rank. */
  ghost predicate Descends(h: Heap, s: set<int>, rank: map<int, nat>) {
    forall p :: p in s && p in h ==> NodeDescends(h[p], p, rank)
  }

  /** No cycle is reachable from v: the objects reachable from it can be ranked. */
  ghost predicate Acyclic(h: Heap, v: Value) {
    exists s, rank :: Ranking(h, v, s, rank)
  }

  ghost predicate Ranking(h: Heap, v: Value, s: set<int>, rank: map<int, nat>) {
    ClosedSet(h, s) && Within(v, s) && Descends(h, s, rank)
  }

  // ---------- a ranking keeps the serializer from writing back references ----------

  /** What v points to ranks below every open object. */
  ghost predicate Below(v: Value, open: set<int>, rank: map<int, nat>) {
    forall o, p :: PointsTo(v, o) && p in open ==> At(rank, o) < At(rank, p)
  }

  ghost predicate BagBelow(m: map<Str, Value>, keys: seq<Str>, open: set<int>, rank: map<int, nat>) {
    forall k :: k in m && k in keys ==> Below(m[k], open, rank)
  }

  lemma ItemBelow(v: Value, i: nat, open: set<int>, rank: map<int, nat>)
    requires v.List? && i < |v.items| && Below(v, open, rank)
    ensures Below(v.items[i], open, rank)
  {
    forall o, p | PointsTo(v.items[i], o) && p in open ensures At(rank, o) < At(rank, p) {
      assert PointsTo(v, o);
    }
  }

  lemma EntryBelow(v: Value, k: Str, open: set<int>, rank: map<int, nat>)
    requires v.Dict? && k in v.m && Below(v, open, rank)
    ensures Below(v.m[k], open, rank)
  {
    forall o, p | PointsTo(v.m[k], o) && p in open ensures At(rank, o) < At(rank, p) {
      assert PointsTo(v, o);
    }
  }

  /** Inside an object that ranks below everything open, its values rank below it as well. */
  lemma NodeBelow(h: Heap, id: int, open: set<int>, s: set<int>, rank: map<int, nat>)
    requires id in h && id in s && Descends(h, s, rank) && Below(Obj(id), open, rank)
    ensures BagBelow(h[id].members, MemberKeys(h[id]), open + {id}, rank)
    ensures BagBelow(h[id].props, SortedKeys(h[id].props.Keys), open + {id}, rank)
  {
    var n := h[id];
    assert NodeDescends(n, id, rank) && PointsTo(Obj(id), id);
    forall k, o, p | k in n.members && k in MemberKeys(n) && PointsTo(n.members[k], o) && p in open + {id}
      ensures At(rank, o) < At(rank, p)
    {
      assert NodePointsTo(n, o);
    }
    forall k, o, p | k in n.props && PointsTo(n.props[k], o) && p in open + {id}
      ensures At(rank, o) < At(rank, p)
    {
      assert NodePointsTo(n, o);
    }
  }

  lemma {:induction false} NoBackReference(h: Heap, t: Tables, v: Value, name: Str, s: set<int>, rank: map<int, nat>)
    requires Write(h, t, v, name).status == Done && Valid(t)
    requires ClosedSet(h, s) && Descends(h, s, rank) && Within(v, s) && Below(v, t.open, rank)
    ensures !Write(h, t, v, name).back
    decreases Unvisited(h, t), v, 2, 0
  {
    if v.List? {
      NoBackInList(h, t, v, name, s, rank);
    } else if v.Dict? {
      NoBackInDict(h, t, v, name, s, rank);
    } else if v.Obj? {
      assert PointsTo(v, v.id);
      if v.id !in t.objRefs {
        NoBackInObject(h, t, v.id, name, s, rank);
      }
    }
  }

  lemma {:induction false} NoBackInList(h: Heap, t: Tables, v: Value, name: Str, s: set<int>, rank: map<int, nat>)
    requires v.List? && WriteList(h, t, v, name).status == Done && Valid(t)
    requires ClosedSet(h, s) && Descends(h, s, rank) && Within(v, s) && Below(v, t.open, rank)
    ensures !WriteList(h, t, v, name).back
    decreases Unvisited(h, t), v, 1, 0
  {
    var t1 := ListElement(h, t, v, name);
    NoBackInItems(h, t1, v, 0, s, rank);
  }

  lemma {:induction false} NoBackInDict(h: Heap, t: Tables, v: Value, name: Str, s: set<int>, rank: map<int, nat>)
    requires v.Dict? && WriteDict(h, t, v, name).status == Done && Valid(t)
    requires ClosedSet(h, s) && Descends(h, s, rank) && Within(v, s) && Below(v, t.open, rank)
    ensures !WriteDict(h, t, v, name).back
    decreases Unvisited(h, t), v, 1, 0
  {
    var t1 := DictElement(h, t, v, name);
    NoBackInEntries(h, t1, v, SortedKeys(v.m.Keys), 0, s, rank);
  }

  lemma {:induction false} NoBackInItems(h: Heap, t: Tables, v: Value, i: nat, s: set<int>, rank: map<int, nat>)
    requires v.List? && i <= |v.items| && WriteItems(h, t, v, i).status == Done && Valid(t)
    requires ClosedSet(h, s) && Descends(h, s, rank) && Within(v, s) && Below(v, t.open, rank)
    ensures !WriteItems(h, t, v, i).back
    decreases Unvisited(h, t), v, 0, |v.items| - i
  {
    if i < |v.items| {
      var u := Write(h, t, v.items[i], []).t;
      UnvisitedMonotone(h, t, u);
      ItemWithin(v, i, s);
      ItemBelow(v, i, t.open, rank);
      WriteKeeps(h, t, v.items[i], []);
      NoBackReference(h, t, v.items[i], [], s, rank);
      NoBackInItems(h, u, v, i + 1, s, rank);
    }
  }

  lemma {:induction false} NoBackInEntries(h: Heap, t: Tables, v: Value, keys: seq<Str>, i: nat, s: set<int>,
                                           rank: map<int, nat>)
    requires v.Dict? && i <= |keys| && (forall k :: k in keys ==> k in v.m)
    requires WriteEntries(h, t, v, keys, i).status == Done && Valid(t)
    requires ClosedSet(h, s) && Descends(h, s, rank) && Within(v, s) && Below(v, t.open, rank)
    ensures !WriteEntries(h, t, v, keys, i).back
    decreases Unvisited(h, t), v, 0, |keys| - i
  {
    if i < |keys| {
      var k := keys[i];
      var u := Write(h, t, v.m[k], VALUE).t;
      UnvisitedMonotone(h, t, u);
      EntryWithin(v, k, s);
      EntryBelow(v, k, t.open, rank);
      WriteKeeps(h, t, v.m[k], VALUE);
      NoBackReference(h, t, v.m[k], VALUE, s, rank);
      NoBackInEntries(h, u, v, keys, i + 1, s, rank);
    }
  }

  lemma {:induction false} NoBackInProperties(h: Heap, t: Tables, v: Value, keys: seq<Str>, i: nat, s: set<int>,
                                              rank: map<int, nat>)
    requires v.Dict? && i <= |keys| && WriteProperties(h, t, v, keys, i).status == Done && Valid(t)
    requires ClosedSet(h, s) && Descends(h, s, rank) && BagWithin(v.m, keys, s) && BagBelow(v.m, keys, t.open, rank)
    ensures !WriteProperties(h, t, v, keys, i).back
    decreases Unvisited(h, t), v, 0, |keys| - i
  {
    if i < |keys| {
      var k := keys[i];
      var u := if k in v.m then Write(h, t, v.m[k], k).t else t;
      UnvisitedMonotone(h, t, u);
      if k in v.m {
        WriteKeeps(h, t, v.m[k], k);
        NoBackReference(h, t, v.m[k], k, s, rank);
      }
      NoBackInProperties(h, u, v, keys, i + 1, s, rank);
    }
  }

  lemma {:induction false} NoBackInBag(h: Heap, t: Tables, tag: Tag, v: Value, keys: seq<Str>, s: set<int>,
                                       rank: map<int, nat>)
    requires v.Dict? && WriteBag(h, t, tag, v, keys).status == Done && Valid(t)
    requires ClosedSet(h, s) && Descends(h, s, rank) && BagWithin(v.m, keys, s) && BagBelow(v.m, keys, t.open, rank)
    ensures !WriteBag(h, t, tag, v, keys).back
    decreases Unvisited(h, t), v, 1, 0
  {
    if v.m != map[] {
      NoBackInProperties(h, t, v, keys, 0, s, rank);
    }
  }

  lemma {:induction false} NoBackInObject(h: Heap, t: Tables, id: int, name: Str, s: set<int>, rank: map<int, nat>)
    requires id in h && id !in t.objRefs && WriteObject(h, t, id, name).status == Done && Valid(t)
    requires ClosedSet(h, s) && Descends(h, s, rank) && id in s && Below(Obj(id), t.open, rank)
    ensures !WriteObject(h, t, id, name).back
    decreases Unvisited(h, t), Obj(id), 1, 0
  {
    var n := h[id];
    var t2 := OptionalTypeNames(Entered(t, id), n.typeNames).1;
    EnterKeeps(t, id, n.typeNames);
    UnvisitedDrops(h, t, t2, id);
    NodeBags(n, s);
    NodeBelow(h, id, t.open, s, rank);
    var ms := WriteBag(h, t2, MSTag, Dict(n.members), MemberKeys(n));
    WriteBagKeeps(h, t2, MSTag, Dict(n.members), MemberKeys(n));
    NoBackInBag(h, t2, MSTag, Dict(n.members), MemberKeys(n), s, rank);
    UnvisitedMonotone(h, t2, ms.t);
    NoBackInBag(h, ms.t, PropsTag, Dict(n.props), SortedKeys(n.props.Keys), s, rank);
  }

  // ---------- without back references, the order of closing is a ranking ----------

  ghost function ClosedObjects(t: Tables): set<int> {
    t.objRefs.Keys - t.open
  }

  /** rank orders the closed objects: they point only to closed objects of lower rank. */
  ghost predicate Ordered(h: Heap, t: Tables, rank: map<int, nat>) {
    OrderedSet(h, ClosedObjects(t), rank)
  }

  ghost predicate OrderedSet(h: Heap, s: set<int>, rank: map<int, nat>) {
    && rank.Keys == s && ClosedSet(h, s) && Descends(h, s, rank)
    && forall p :: p in rank ==> rank[p] < |rank|
  }

  /** An object that points only into the set can be ranked above all of it. */
  lemma AddOnTop(h: Heap, id: int, s: set<int>, s': set<int>, rank: map<int, nat>) returns (rank': map<int, nat>)
    requires OrderedSet(h, s, rank) && id !in s && id in h && NodeWithin(h[id], s) && s' == s + {id}
    ensures OrderedSet(h, s', rank')
  {
    rank' := rank[id := |rank|];
    assert |rank'| == |rank| + 1;
    forall p | p in s' && p in h ensures NodeWithin(h[p], s') && NodeDescends(h[p], p, rank') {
      if p != id {
        assert NodeWithin(h[p], s) && NodeDescends(h[p], p, rank);
      }
    }
  }

  /** Only what is numbered and what is open matters. */
  lemma OrderedAlike(h: Heap, t: Tables, u: Tables, rank: map<int, nat>)
    requires Ordered(h, t, rank) && u.objRefs == t.objRefs && u.open == t.open
    ensures Ordered(h, u, rank)
  {
  }

  lemma {:induction false} WriteOrders(h: Heap, t: Tables, v: Value, name: Str, rank: map<int, nat>)
    returns (rank': map<int, nat>)
    requires Write(h, t, v, name).status == Done && !Write(h, t, v, name).back
    requires Valid(t) && Ordered(h, t, rank)
    ensures Ordered(h, Write(h, t, v, name).t, rank') && Within(v, ClosedObjects(Write(h, t, v, name).t))
    decreases Unvisited(h, t), v, 2, 0
  {
    if v.List? {
      rank' := ListOrders(h, t, v, name, rank);
    } else if v.Dict? {
      rank' := DictOrders(h, t, v, name, rank);
    } else if v.Obj? && v.id !in t.objRefs {
      rank' := ObjectOrders(h, t, v.id, name, rank);
      PointsOnlyToItself(v, ClosedObjects(Write(h, t, v, name).t));
    } else {
      rank' := rank;
      LeavesOrdered(h, t, v, name, rank);
    }
  }

  lemma PointsOnlyToItself(v: Value, s: set<int>)
    requires v.Obj? && v.id in s
    ensures Within(v, s)
  {
  }

  lemma LeavesOrdered(h: Heap, t: Tables, v: Value, name: Str, rank: map<int, nat>)
    requires Write(h, t, v, name).status == Done && !Write(h, t, v, name).back
    requires !v.List? && !v.Dict? && (v.Obj? ==> v.id in t.objRefs) && Ordered(h, t, rank)
    ensures Ordered(h, Write(h, t, v, name).t, rank) && Within(v, ClosedObjects(Write(h, t, v, name).t))
  {
    var u := Write(h, t, v, name).t;
    assert u.objRefs == t.objRefs && u.open == t.open;
    OrderedAlike(h, t, u, rank);
  }

  lemma {:induction false} ListOrders(h: Heap, t: Tables, v: Value, name: Str, rank: map<int, nat>)
    returns (rank': map<int, nat>)
    requires v.List? && WriteList(h, t, v, name).status == Done && !WriteList(h, t, v, name).back
    requires Valid(t) && Ordered(h, t, rank)
    ensures Ordered(h, WriteList(h, t, v, name).t, rank') && Within(v, ClosedObjects(WriteList(h, t, v, name).t))
    decreases Unvisited(h, t), v, 1, 0
  {
    var t1 := ListElement(h, t, v, name);
    OrderedAlike(h, t, t1, rank);
    rank' := ItemsOrder(h, t1, v, 0, rank);
    ListWithin(v, ClosedObjects(WriteItems(h, t1, v, 0).t));
  }

  lemma {:induction false} DictOrders(h: Heap, t: Tables, v: Value, name: Str, rank: map<int, nat>)
    returns (rank': map<int, nat>)
    requires v.Dict? && WriteDict(h, t, v, name).status == Done && !WriteDict(h, t, v, name).back
    requires Valid(t) && Ordered(h, t, rank)
    ensures Ordered(h, WriteDict(h, t, v, name).t, rank') && Within(v, ClosedObjects(WriteDict(h, t, v, name).t))
    decreases Unvisited(h, t), v, 1, 0
  {
    var t1 := DictElement(h, t, v, name);
    OrderedAlike(h, t, t1, rank);
    var keys := SortedKeys(v.m.Keys);
    rank' := EntriesOrder(h, t1, v, keys, 0, rank);
    DictWithin(v, keys, ClosedObjects(WriteEntries(h, t1, v, keys, 0).t));
  }

  lemma {:induction false} ItemsOrder(h: Heap, t: Tables, v: Value, i: nat, rank: map<int, nat>)
    returns (rank': map<int, nat>)
    requires v.List? && i <= |v.items|
    requires WriteItems(h, t, v, i).status == Done && !WriteItems(h, t, v, i).back
    requires Valid(t) && Ordered(h, t, rank)
    ensures var u := WriteItems(h, t, v, i).t; Ordered(h, u, rank') && ItemsWithin(v.items, i, ClosedObjects(u))
    decreases Unvisited(h, t), v, 0, |v.items| - i
  {
    rank' := rank;
    if i < |v.items| {
      var first := Write(h, t, v.items[i], []);
      UnvisitedMonotone(h, t, first.t);
      WriteKeeps(h, t, v.items[i], []);
      var mid := WriteOrders(h, t, v.items[i], [], rank);
      var j := i + 1;
      rank' := ItemsOrder(h, first.t, v, j, mid);
      var u := WriteItems(h, first.t, v, j).t;
      WriteItemsKeeps(h, first.t, v, j);
      ItemsWithinStep(v.items, i, j, ClosedObjects(first.t), ClosedObjects(u));
      assert WriteItems(h, t, v, i).t == u;
    }
  }

  lemma {:induction false} EntriesOrder(h: Heap, t: Tables, v: Value, keys: seq<Str>, i: nat, rank: map<int, nat>)
    returns (rank': map<int, nat>)
    requires v.Dict? && i <= |keys| && (forall k :: k in keys ==> k in v.m)
    requires WriteEntries(h, t, v, keys, i).status == Done && !WriteEntries(h, t, v, keys, i).back
    requires Valid(t) && Ordered(h, t, rank)
    ensures var u := WriteEntries(h, t, v, keys, i).t;
            Ordered(h, u, rank') && KeysWithin(v.m, keys, i, ClosedObjects(u))
    decreases Unvisited(h, t), v, 0, |keys| - i
  {
    rank' := rank;
    if i < |keys| {
      var k := keys[i];
      var val := Write(h, t, v.m[k], VALUE);
      UnvisitedMonotone(h, t, val.t);
      WriteKeeps(h, t, v.m[k], VALUE);
      var mid := WriteOrders(h, t, v.m[k], VALUE, rank);
      var j := i + 1;
      rank' := EntriesOrder(h, val.t, v, keys, j, mid);
      var u := WriteEntries(h, val.t, v, keys, j).t;
      WriteEntriesKeeps(h, val.t, v, keys, j);
      KeysWithinStep(v.m, keys, i, j, ClosedObjects(val.t), ClosedObjects(u));
      assert WriteEntries(h, t, v, keys, i).t == u;
    }
  }

  lemma {:induction false} PropertiesOrder(h: Heap, t: Tables, v: Value, keys: seq<Str>, i: nat, rank: map<int, nat>)
    returns (rank': map<int, nat>)
    requires v.Dict? && i <= |keys|
    requires WriteProperties(h, t, v, keys, i).status == Done && !WriteProperties(h, t, v, keys, i).back
    requires Valid(t) && Ordered(h, t, rank)
    ensures var u := WriteProperties(h, t, v, keys, i).t;
            Ordered(h, u, rank') && KeysWithin(v.m, keys, i, ClosedObjects(u))
    decreases Unvisited(h, t), v, 0, |keys| - i
  {
    rank' := rank;
    if i < |keys| {
      var k := keys[i];
      var u1 := if k in v.m then Write(h, t, v.m[k], k).t else t;
      UnvisitedMonotone(h, t, u1);
      var mid := rank;
      if k in v.m {
        WriteKeeps(h, t, v.m[k], k);
        mid := WriteOrders(h, t, v.m[k], k, rank);
      }
      var j := i + 1;
      rank' := PropertiesOrder(h, u1, v, keys, j, mid);
      var u := WriteProperties(h, u1, v, keys, j).t;
      WritePropertiesKeeps(h, u1, v, keys, j);
      KeysWithinStep(v.m, keys, i, j, ClosedObjects(u1), ClosedObjects(u));
      assert WriteProperties(h, t, v, keys, i).t == u;
    }
  }

  lemma {:induction false} BagOrders(h: Heap, t: Tables, tag: Tag, v: Value, keys: seq<Str>, rank: map<int, nat>)
    returns (rank': map<int, nat>)
    requires v.Dict? && WriteBag(h, t, tag, v, keys).status == Done && !WriteBag(h, t, tag, v, keys).back
    requires Valid(t) && Ordered(h, t, rank)
    ensures var u := WriteBag(h, t, tag, v, keys).t; Ordered(h, u, rank') && BagWithin(v.m, keys, ClosedObjects(u))
    decreases Unvisited(h, t), v, 1, 0
  {
    rank' := rank;
    if v.m != map[] {
      rank' := PropertiesOrder(h, t, v, keys, 0, rank);
    }
  }

  lemma {:induction false} ObjectOrders(h: Heap, t: Tables, id: int, name: Str, rank: map<int, nat>)
    returns (rank': map<int, nat>)
    requires id in h && id !in t.objRefs
    requires WriteObject(h, t, id, name).status == Done && !WriteObject(h, t, id, name).back
    requires Valid(t) && Ordered(h, t, rank)
    ensures var u := WriteObject(h, t, id, name).t; Ordered(h, u, rank') && id in ClosedObjects(u)
    decreases Unvisited(h, t), Obj(id), 1, 1
  {
    var p := ObjectParts(h, t, id, name);
    rank' := PartsOrder(h, t, id, WriteObject(h, t, id, name), p, rank);
  }

  lemma {:induction false} PartsOrder(h: Heap, t: Tables, id: int, e: Emission<Value>, p: Parts, rank: map<int, nat>)
    returns (rank': map<int, nat>)
    requires id in h && id !in t.objRefs && Valid(t) && Ordered(h, t, rank)
    requires PartsOf(h, t, id, p) && Assembled(t, id, h[id], e, p) && !e.back
    ensures Ordered(h, e.t, rank') && id in ClosedObjects(e.t)
    decreases Unvisited(h, t), Obj(id), 1, 0
  {
    var n := h[id];
    PartsRecur(h, t, id, p);
    OpenInside(h, t, id, p);
    TablesAfter(t, id, n, e, p);
    EnteredOrdered(h, t, p.named, id, rank);
    var rank3 := BagOrders(h, p.named, MSTag, Dict(n.members), MemberKeys(n), rank);
    var rank4 := BagOrders(h, p.ms.t, PropsTag, Dict(n.props), SortedKeys(n.props.Keys), rank3);
    rank' := ObjectClosesOrdered(h, id, p.ms.t, p.ps.t, e.t, rank4);
  }

  lemma ClosedGrow(t: Tables, u: Tables)
    requires Extends(t, u)
    ensures ClosedObjects(t) <= ClosedObjects(u)
  {
    forall o | o in ClosedObjects(t) ensures o in ClosedObjects(u) {
      assert o in t.objRefs && o in u.objRefs;
    }
  }

  lemma OpenInside(h: Heap, t: Tables, id: int, p: Parts)
    requires id in h && id !in t.objRefs && Valid(t) && PartsOf(h, t, id, p)
    ensures p.named.objRefs.Keys == t.objRefs.Keys + {id} && p.named.open == t.open + {id}
    ensures p.ps.t.open == t.open + {id} && p.ps.t.open <= p.ps.t.objRefs.Keys
    ensures ClosedObjects(p.ms.t) <= ClosedObjects(p.ps.t)
  {
    InsideExtends(h, t, id, p);
    ClosedGrow(p.ms.t, p.ps.t);
    OpenAfter(t, id, p.named, p.ps.t, h[id].typeNames);
  }

  lemma InsideExtends(h: Heap, t: Tables, id: int, p: Parts)
    requires id in h && id !in t.objRefs && Valid(t) && PartsOf(h, t, id, p)
    ensures Extends(p.named, p.ps.t) && Valid(p.ps.t) && Extends(p.ms.t, p.ps.t)
  {
    PartsKeep(h, t, id, p);
  }

  lemma OpenAfter(t: Tables, id: int, named: Tables, u: Tables, names: seq<Str>)
    requires named == OptionalTypeNames(Entered(t, id), names).1 && Extends(named, u) && Valid(u)
    ensures named.objRefs.Keys == t.objRefs.Keys + {id} && named.open == t.open + {id}
    ensures u.open == t.open + {id} && u.open <= u.objRefs.Keys
  {
  }

  lemma ObjectClosesOrdered(h: Heap, id: int, t3: Tables, t4: Tables, u: Tables, rank: map<int, nat>)
    returns (rank': map<int, nat>)
    requires id in h && id in t4.open && t4.open <= t4.objRefs.Keys && Ordered(h, t4, rank)
    requires u.objRefs == t4.objRefs && u.open == t4.open - {id} && ClosedObjects(t3) <= ClosedObjects(t4)
    requires BagWithin(h[id].members, MemberKeys(h[id]), ClosedObjects(t3))
    requires BagWithin(h[id].props, SortedKeys(h[id].props.Keys), ClosedObjects(t4))
    ensures Ordered(h, u, rank') && id in ClosedObjects(u)
  {
    var s := ClosedObjects(t4);
    assert ClosedObjects(u) == s + {id};
    BagWithinGrows(h[id].members, MemberKeys(h[id]), ClosedObjects(t3), s);
    NodeBags(h[id], s);
    rank' := AddOnTop(h, id, s, ClosedObjects(u), rank);
  }

  lemma BagWithinGrows(m: map<Str, Value>, keys: seq<Str>, a: set<int>, b: set<int>)
    requires BagWithin(m, keys, a) && a <= b
    ensures BagWithin(m, keys, b)
  {
    forall k | k in m && k in keys ensures Within(m[k], b) {
      WithinGrows(m[k], a, b);
    }
  }

  lemma EnteredOrdered(h: Heap, t: Tables, t2: Tables, id: int, rank: map<int, nat>)
    requires Ordered(h, t, rank) && id !in t.objRefs && t.open <= t.objRefs.Keys
    requires t2.objRefs.Keys == t.objRefs.Keys + {id} && t2.open == t.open + {id}
    ensures Ordered(h, t2, rank) && ClosedObjects(t2) == ClosedObjects(t)
  {
    var a, b := ClosedObjects(t2), ClosedObjects(t);
    assert forall o :: o in a <==> o in b;
  }

  // ---------- the two together ----------

  /** The serializer writes a reference back to an open object exactly when the graph has a cycle. */
  lemma BackReferenceIff(h: Heap, v: Value, base: int)
    requires Written(h, v, base).status == Done
    ensures Acyclic(h, v) <==> !Written(h, v, base).back
  {
    var t := FreshTables(base);
    FreshIsValid(base);
    if Acyclic(h, v) {
      var s, rank :| Ranking(h, v, s, rank);
      NoBackReference(h, t, v, [], s, rank);
    }
    if !Written(h, v, base).back {
      var rank := WriteOrders(h, t, v, [], map[]);
      assert Ranking(h, v, ClosedObjects(Written(h, v, base).t), rank);
    }
  }

  /**
   Deserialize succeeds on the output of Serialize exactly when no cycle is reachable from the value
   and its nesting stays within the limit; the result then is the image.
   */
  lemma ReadsBackIff(h: Heap, v: Value, s: State, limit: int)
    requires var e := Written(h, v, s.next);
             e.status == Done && InRange(e.t) && s.toks == Wrapped(e.toks)
    requires s.objRefs == map[]
    ensures var e := Written(h, v, s.next);
            var x := ReadDocument(s, 0, limit);
            if Acyclic(h, v) && e.need <= limit then
              x.r == Ok([e.image]) && x.s.toks == [] && x.s.heap == s.heap + e.nodes
            else x.r.Err?
  {
    BackReferenceIff(h, v, s.next);
    DocumentRoundTrip(h, v, s, limit);
  }
}
