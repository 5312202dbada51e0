/** The object graph behind a document: which objects are written, and when a graph can be read back. */
module ClixmlGraph {
  import opened Clixml
  import opened ClixmlWriter
  import opened ClixmlTables
  import opened ClixmlReader
  import opened ClixmlDocument

  // ---------- pointers ----------

  /** v holds a pointer to the object o. */
  ghost predicate PointsTo(v: Value, o: int) {
    match v
    case Obj(id) => id == o
    case List(_, items) => exists i :: 0 <= i < |items| && PointsTo(items[i], o)
    case Dict(m) => exists k :: k in m && PointsTo(m[k], o)
    case _ => false
  }

  /** A value that is written when n is: a member on the list of keys to write, or a property. */
  ghost predicate NodePointsTo(n: Node, o: int) {
    (exists k :: k in n.members && k in MemberKeys(n) && PointsTo(n.members[k], o)) ||
    (exists k :: k in n.props && PointsTo(n.props[k], o))
  }

  /** The bag of values v points only into s. */
  ghost predicate Within(v: Value, s: set<int>) {
    forall o :: PointsTo(v, o) ==> o in s
  }

  ghost predicate NodeWithin(n: Node, s: set<int>) {
    forall o :: NodePointsTo(n, o) ==> o in s
  }

  /** s contains whatever its objects point to. */
  ghost predicate ClosedSet(h: Heap, s: set<int>) {
    forall p :: p in s && p in h ==> NodeWithin(h[p], s)
  }

  /** The values under the keys of a bag point only into s. */
  ghost predicate BagWithin(m: map<Str, Value>, keys: seq<Str>, s: set<int>) {
    forall k :: k in m && k in keys ==> Within(m[k], s)
  }

  lemma NodeBags(n: Node, s: set<int>)
    ensures NodeWithin(n, s) <==>
              BagWithin(n.members, MemberKeys(n), s) && BagWithin(n.props, SortedKeys(n.props.Keys), s)
  {
    if NodeWithin(n, s) {
      forall k, o | k in n.members && k in MemberKeys(n) && PointsTo(n.members[k], o) ensures o in s {
        assert NodePointsTo(n, o);
      }
      forall k, o | k in n.props && PointsTo(n.props[k], o) ensures o in s {
        assert NodePointsTo(n, o);
      }
    }
  }

  lemma ItemWithin(v: Value, i: nat, s: set<int>)
    requires v.List? && i < |v.items| && Within(v, s)
    ensures Within(v.items[i], s)
  {
    forall o | PointsTo(v.items[i], o) ensures o in s {
      assert PointsTo(v, o);
    }
  }

  lemma EntryWithin(v: Value, k: Str, s: set<int>)
    requires v.Dict? && k in v.m && Within(v, s)
    ensures Within(v.m[k], s)
  {
    forall o | PointsTo(v.m[k], o) ensures o in s {
      assert PointsTo(v, o);
    }
  }

  lemma WithinGrows(v: Value, a: set<int>, b: set<int>)
    requires Within(v, a) && a <= b
    ensures Within(v, b)
  {
  }

  /** The values of a bag under the keys from the i-th on point only into s. */
  ghost predicate KeysWithin(m: map<Str, Value>, keys: seq<Str>, i: nat, s: set<int>) {
    forall j :: i <= j < |keys| && keys[j] in m ==> Within(m[keys[j]], s)
  }

  ghost predicate ItemsWithin(items: seq<Value>, i: nat, s: set<int>) {
    forall j :: i <= j < |items| ==> Within(items[j], s)
  }

  lemma ItemsWithinStep(items: seq<Value>, i: nat, j: nat, a: set<int>, b: set<int>)
    requires i < |items| && j == i + 1 && Within(items[i], a) && a <= b && ItemsWithin(items, j, b)
    ensures ItemsWithin(items, i, b)
  {
    WithinGrows(items[i], a, b);
  }

  lemma KeysWithinStep(m: map<Str, Value>, keys: seq<Str>, i: nat, j: nat, a: set<int>, b: set<int>)
    requires i < |keys| && j == i + 1 && a <= b && KeysWithin(m, keys, j, b)
    requires keys[i] in m ==> Within(m[keys[i]], a)
    ensures KeysWithin(m, keys, i, b)
  {
    if keys[i] in m {
      WithinGrows(m[keys[i]], a, b);
    }
  }

  lemma ListWithin(v: Value, s: set<int>)
    requires v.List? && ItemsWithin(v.items, 0, s)
    ensures Within(v, s)
  {
  }

  lemma DictWithin(v: Value, keys: seq<Str>, s: set<int>)
    requires v.Dict? && KeysWithin(v.m, keys, 0, s) && forall k :: k in v.m ==> k in keys
    ensures Within(v, s)
  {
  }

  // ---------- every reachable object is written, and no other ----------

  /** What the closed objects point to has been numbered. */
  ghost predicate Followed(h: Heap, t: Tables) {
    forall p :: p in t.objRefs && p !in t.open && p in h ==> NodeWithin(h[p], t.objRefs.Keys)
  }

  /**
   After v has been written from t: everything v points to is numbered, what closed objects point
   to still is, and nothing outside a closed set holding v's pointers was added.
   */
  ghost predicate Covers(h: Heap, t: Tables, u: Tables, s: set<int>) {
    t.objRefs.Keys <= u.objRefs.Keys <= t.objRefs.Keys + s && u.open == t.open && Followed(h, u)
  }

  lemma CoversTransitive(h: Heap, t: Tables, u: Tables, w: Tables, s: set<int>)
    requires Covers(h, t, u, s) && Covers(h, u, w, s)
    ensures Covers(h, t, w, s)
  {
  }

  lemma {:induction false} WriteCovers(h: Heap, t: Tables, v: Value, name: Str, s: set<int>)
    requires Write(h, t, v, name).status == Done
    requires Valid(t) && Followed(h, t) && ClosedSet(h, s) && Within(v, s)
    ensures var u := Write(h, t, v, name).t; Covers(h, t, u, s) && Within(v, u.objRefs.Keys)
    decreases Unvisited(h, t), v, 2, 0
  {
    if v.List? {
      ListCovers(h, t, v, name, s);
    } else if v.Dict? {
      DictCovers(h, t, v, name, s);
    } else if v.Obj? {
      assert PointsTo(v, v.id);
      if v.id !in t.objRefs {
        ObjectCovers(h, t, v.id, name, s);
      }
    }
  }

  lemma {:induction false} ListCovers(h: Heap, t: Tables, v: Value, name: Str, s: set<int>)
    requires v.List? && WriteList(h, t, v, name).status == Done
    requires Valid(t) && Followed(h, t) && ClosedSet(h, s) && Within(v, s)
    ensures var u := WriteList(h, t, v, name).t; Covers(h, t, u, s) && Within(v, u.objRefs.Keys)
    decreases Unvisited(h, t), v, 1, 0
  {
    var t1 := ListElement(h, t, v, name);
    ItemsCover(h, t1, v, 0, s);
    ListWithin(v, WriteItems(h, t1, v, 0).t.objRefs.Keys);
  }

  lemma {:induction false} DictCovers(h: Heap, t: Tables, v: Value, name: Str, s: set<int>)
    requires v.Dict? && WriteDict(h, t, v, name).status == Done
    requires Valid(t) && Followed(h, t) && ClosedSet(h, s) && Within(v, s)
    ensures var u := WriteDict(h, t, v, name).t; Covers(h, t, u, s) && Within(v, u.objRefs.Keys)
    decreases Unvisited(h, t), v, 1, 0
  {
    var t1 := DictElement(h, t, v, name);
    var keys := SortedKeys(v.m.Keys);
    EntriesCover(h, t1, v, keys, 0, s);
    DictWithin(v, keys, WriteEntries(h, t1, v, keys, 0).t.objRefs.Keys);
  }

  lemma {:induction false} ItemsCover(h: Heap, t: Tables, v: Value, i: nat, s: set<int>)
    requires v.List? && i <= |v.items| && WriteItems(h, t, v, i).status == Done
    requires Valid(t) && Followed(h, t) && ClosedSet(h, s) && Within(v, s)
    ensures var u := WriteItems(h, t, v, i).t;
            Covers(h, t, u, s) && ItemsWithin(v.items, i, u.objRefs.Keys)
    decreases Unvisited(h, t), v, 0, |v.items| - i
  {
    if i < |v.items| {
      var first := Write(h, t, v.items[i], []);
      UnvisitedMonotone(h, t, first.t);
      ItemWithin(v, i, s);
      WriteKeeps(h, t, v.items[i], []);
      WriteCovers(h, t, v.items[i], [], s);
      var j := i + 1;
      ItemsCover(h, first.t, v, j, s);
      var u := WriteItems(h, first.t, v, j).t;
      CoversTransitive(h, t, first.t, u, s);
      ItemsWithinStep(v.items, i, j, first.t.objRefs.Keys, u.objRefs.Keys);
      assert WriteItems(h, t, v, i).t == u;
    }
  }

  lemma {:induction false} EntriesCover(h: Heap, t: Tables, v: Value, keys: seq<Str>, i: nat, s: set<int>)
    requires v.Dict? && i <= |keys| && (forall k :: k in keys ==> k in v.m)
    requires WriteEntries(h, t, v, keys, i).status == Done
    requires Valid(t) && Followed(h, t) && ClosedSet(h, s) && Within(v, s)
    ensures var u := WriteEntries(h, t, v, keys, i).t;
            Covers(h, t, u, s) && KeysWithin(v.m, keys, i, u.objRefs.Keys)
    decreases Unvisited(h, t), v, 0, |keys| - i
  {
    if i < |keys| {
      var k := keys[i];
      var val := Write(h, t, v.m[k], VALUE);
      UnvisitedMonotone(h, t, val.t);
      EntryWithin(v, k, s);
      WriteKeeps(h, t, v.m[k], VALUE);
      WriteCovers(h, t, v.m[k], VALUE, s);
      var j := i + 1;
      EntriesCover(h, val.t, v, keys, j, s);
      var u := WriteEntries(h, val.t, v, keys, j).t;
      CoversTransitive(h, t, val.t, u, s);
      KeysWithinStep(v.m, keys, i, j, val.t.objRefs.Keys, u.objRefs.Keys);
      assert WriteEntries(h, t, v, keys, i).t == u;
    }
  }

  lemma {:induction false} PropertiesCover(h: Heap, t: Tables, v: Value, keys: seq<Str>, i: nat, s: set<int>)
    requires v.Dict? && i <= |keys| && WriteProperties(h, t, v, keys, i).status == Done
    requires Valid(t) && Followed(h, t) && ClosedSet(h, s) && BagWithin(v.m, keys, s)
    ensures var u := WriteProperties(h, t, v, keys, i).t;
            Covers(h, t, u, s) && KeysWithin(v.m, keys, i, u.objRefs.Keys)
    decreases Unvisited(h, t), v, 0, |keys| - i
  {
    if i < |keys| {
      var k := keys[i];
      var j := i + 1;
      var val, more := PropertyParts(h, t, v, keys, i, j);
      var u1 := val.t;
      if k in v.m {
        WriteCovers(h, t, v.m[k], k, s);
      }
      PropertiesCover(h, u1, v, keys, j, s);
      var u := WriteProperties(h, u1, v, keys, j).t;
      CoversTransitive(h, t, u1, u, s);
      KeysWithinStep(v.m, keys, i, j, u1.objRefs.Keys, u.objRefs.Keys);
      assert WriteProperties(h, t, v, keys, i).t == u;
    }
  }

  lemma {:induction false} BagCovers(h: Heap, t: Tables, tag: Tag, v: Value, keys: seq<Str>, s: set<int>)
    requires v.Dict? && WriteBag(h, t, tag, v, keys).status == Done
    requires Valid(t) && Followed(h, t) && ClosedSet(h, s) && BagWithin(v.m, keys, s)
    ensures var u := WriteBag(h, t, tag, v, keys).t; Covers(h, t, u, s) && BagWithin(v.m, keys, u.objRefs.Keys)
    decreases Unvisited(h, t), v, 1, 0
  {
    if v.m != map[] {
      PropertiesCover(h, t, v, keys, 0, s);
    }
  }

  lemma {:induction false} ObjectCovers(h: Heap, t: Tables, id: int, name: Str, s: set<int>)
    requires id in h && id !in t.objRefs && WriteObject(h, t, id, name).status == Done
    requires Valid(t) && Followed(h, t) && ClosedSet(h, s) && id in s
    ensures var u := WriteObject(h, t, id, name).t; Covers(h, t, u, s) && id in u.objRefs
    decreases Unvisited(h, t), Obj(id), 1, 0
  {
    var n := h[id];
    var t2 := OptionalTypeNames(Entered(t, id), n.typeNames).1;
    EnterKeeps(t, id, n.typeNames);
    UnvisitedDrops(h, t, t2, id);
    NodeBags(n, s);
    var ms := WriteBag(h, t2, MSTag, Dict(n.members), MemberKeys(n));
    WriteBagKeeps(h, t2, MSTag, Dict(n.members), MemberKeys(n));
    BagCovers(h, t2, MSTag, Dict(n.members), MemberKeys(n), s);
    UnvisitedMonotone(h, t2, ms.t);
    var ps := WriteBag(h, ms.t, PropsTag, Dict(n.props), SortedKeys(n.props.Keys));
    BagCovers(h, ms.t, PropsTag, Dict(n.props), SortedKeys(n.props.Keys), s);
    CoversTransitive(h, t2, ms.t, ps.t, s);
    ObjectClosesCovered(h, t, id, t2, ms.t, ps.t, s);
  }

  /** Closing an object whose two bags have been followed. */
  lemma ObjectClosesCovered(h: Heap, t: Tables, id: int, t2: Tables, t3: Tables, t4: Tables, s: set<int>)
    requires id in h && id !in t.objRefs && id in s && Valid(t)
    requires t2.objRefs == Entered(t, id).objRefs && t2.open == Entered(t, id).open
    requires Covers(h, t2, t4, s) && t3.objRefs.Keys <= t4.objRefs.Keys
    requires BagWithin(h[id].members, MemberKeys(h[id]), t3.objRefs.Keys)
    requires BagWithin(h[id].props, SortedKeys(h[id].props.Keys), t4.objRefs.Keys)
    ensures Covers(h, t, t4.(open := t4.open - {id}), s) && id in t4.objRefs
  {
    NodeBags(h[id], t4.objRefs.Keys);
    assert t4.open - {id} == t.open;
  }

  /**
   The objects of a document are exactly those reachable from the value: they hold its pointers,
   they are closed under pointers, and every other such set contains them.
   */
  lemma DocumentObjects(h: Heap, v: Value, base: int, s: set<int>)
    requires Written(h, v, base).status == Done
    requires ClosedSet(h, s) && Within(v, s)
    ensures var objs := Written(h, v, base).t.objRefs.Keys;
            Within(v, objs) && ClosedSet(h, objs) && objs <= s
  {
    FreshIsValid(base);
    WriteCovers(h, FreshTables(base), v, [], s);
  }
}
