/**
 Type names: an object's names travel once, filed under their joined text, and every later object
 whose names join to the same text is given the list on file.
 */
module ClixmlNames {
  import opened Clixml
  import opened ClixmlWriter
  import opened ClixmlTables
  import opened ClixmlReadBack
  import opened ClixmlDocument

  // ---------- what a value asks to be filed, in document order ----------

  /** A list of type names, and the text it is looked up by. */
  datatype Filing = Filing(key: Str, names: seq<Str>)

  /** The filings met on a walk, and the objects entered up to its end. */
  datatype Walked = Walked(filed: seq<Filing>, seen: set<int>)

  /** An object or list without type names files nothing. */
  function Filings(names: seq<Str>): seq<Filing> {
    if names == [] then [] else [Filing(Join(names), names)]
  }

  /** A walk over a value that enters each object at its first pointer. */
  function Walk(h: Heap, seen: set<int>, v: Value): (w: Walked)
    ensures seen <= w.seen
    decreases |h.Keys - seen|, v, 2, 0
  {
    match v
    case Enum(ty, _, _) => Walked(Filings(EnumNames(ty)), seen)
    case List(kind, _) => After(Filings(ListNames(kind)), WalkItems(h, seen, v, 0))
    case Dict(m) => After([Filing(HASHTABLE, HASHTABLE_NAMES)], WalkKeys(h, seen, v, SortedKeys(m.Keys), 0))
    case Obj(id) => if id in h && id !in seen then WalkObject(h, seen, id) else Walked([], seen)
    case _ => Walked([], seen)
  }

  function After(filed: seq<Filing>, w: Walked): (w': Walked)
    ensures w'.seen == w.seen
  {
    w.(filed := filed + w.filed)
  }

  function WalkItems(h: Heap, seen: set<int>, v: Value, i: nat): (w: Walked)
    requires v.List? && i <= |v.items|
    ensures seen <= w.seen
    decreases |h.Keys - seen|, v, 0, |v.items| - i
  {
    if i == |v.items| then Walked([], seen)
    else
      var first := Walk(h, seen, v.items[i]);
      SubsetSize(h.Keys - first.seen, h.Keys - seen);
      After(first.filed, WalkItems(h, first.seen, v, i + 1))
  }

  /** The values under these keys; a key without a value has nothing to enter. */
  function WalkKeys(h: Heap, seen: set<int>, v: Value, keys: seq<Str>, i: nat): (w: Walked)
    requires v.Dict? && i <= |keys|
    ensures seen <= w.seen
    decreases |h.Keys - seen|, v, 0, |keys| - i
  {
    if i == |keys| then Walked([], seen)
    else
      var first := if keys[i] in v.m then Walk(h, seen, v.m[keys[i]]) else Walked([], seen);
      SubsetSize(h.Keys - first.seen, h.Keys - seen);
      After(first.filed, WalkKeys(h, first.seen, v, keys, i + 1))
  }

  /** An object's own names come before those met among its members and properties. */
  function WalkObject(h: Heap, seen: set<int>, id: int): (w: Walked)
    requires id in h && id !in seen
    ensures seen + {id} <= w.seen
    decreases |h.Keys - seen|, Obj(id), 1, 0
  {
    var n := h[id];
    SubsetSize(h.Keys - (seen + {id}), (h.Keys - seen) - {id});
    var ms := WalkKeys(h, seen + {id}, Dict(n.members), MemberKeys(n), 0);
    SubsetSize(h.Keys - ms.seen, (h.Keys - seen) - {id});
    var ps := WalkKeys(h, ms.seen, Dict(n.props), SortedKeys(n.props.Keys), 0);
    After(Filings(n.typeNames) + ms.filed, ps)
  }

  /** All that is filed for v, in order. */
  function AllFilings(h: Heap, v: Value): seq<Filing> {
    Walk(h, {}, v).filed
  }

  predicate Filed(fs: seq<Filing>, key: Str) {
    exists f :: f in fs && f.key == key
  }

  /** The list filed first under a key. */
  function First(fs: seq<Filing>, key: Str): seq<Str> {
    if fs == [] then [] else if fs[0].key == key then fs[0].names else First(fs[1..], key)
  }

  /** The filings in k and then, from fs, those whose key is not on file yet. */
  function File(k: seq<Filing>, fs: seq<Filing>): seq<Filing>
    decreases |fs|
  {
    if fs == [] then k else File(FileOne(k, fs[0]), fs[1..])
  }

  function FileOne(k: seq<Filing>, f: Filing): seq<Filing> {
    if Filed(k, f.key) then k else k + [f]
  }

  lemma {:induction false} FileJoins(k: seq<Filing>, a: seq<Filing>, b: seq<Filing>)
    ensures File(k, a + b) == File(File(k, a), b)
    decreases |a|
  {
    if a == [] {
      assert a + b == b;
    } else {
      assert (a + b)[1..] == a[1..] + b;
      FileJoins(FileOne(k, a[0]), a[1..], b);
    }
  }

  lemma FileSingle(k: seq<Filing>, f: Filing)
    ensures File(k, [f]) == FileOne(k, f)
  {
    assert [f][1..] == [];
  }

  lemma {:induction false} FirstAppended(k: seq<Filing>, f: Filing, key: Str)
    ensures First(k + [f], key) == if Filed(k, key) then First(k, key) else if f.key == key then f.names else []
  {
    if k == [] {
      assert [] + [f] == [f] && [f][1..] == [];
    } else {
      assert (k + [f])[1..] == k[1..] + [f];
      FirstAppended(k[1..], f, key);
      FiledHead(k, key);
    }
  }

  lemma FirstOnFile(k: seq<Filing>, f: Filing, key: Str)
    ensures Filed(FileOne(k, f), key) <==> Filed(k, key) || f.key == key
    ensures First(FileOne(k, f), key)
            == if Filed(k, key) then First(k, key) else if f.key == key then f.names else []
  {
    assert f in k + [f];
    FirstAppended(k, f, key);
    if !Filed(k, key) {
      NotFiled(k, key);
    }
  }

  /** Filing keeps the first list under each key and drops the others. */
  lemma {:induction false} FileKeepsFirst(k: seq<Filing>, fs: seq<Filing>, key: Str)
    ensures Filed(File(k, fs), key) <==> Filed(k, key) || Filed(fs, key)
    ensures First(File(k, fs), key) == if Filed(k, key) then First(k, key) else First(fs, key)
    decreases |fs|
  {
    if fs == [] {
      if !Filed(k, key) { NotFiled(k, key); }
    } else {
      FileKeepsFirst(FileOne(k, fs[0]), fs[1..], key);
      FirstOnFile(k, fs[0], key);
      FiledHead(fs, key);
    }
  }

  lemma FiledHead(fs: seq<Filing>, key: Str)
    requires fs != []
    ensures Filed(fs, key) <==> fs[0].key == key || Filed(fs[1..], key)
  {
    assert fs == [fs[0]] + fs[1..] && fs[0] in fs;
    assert forall f :: f in fs[1..] ==> f in fs;
  }

  lemma {:induction false} NotFiled(k: seq<Filing>, key: Str)
    requires !Filed(k, key)
    ensures First(k, key) == []
  {
    if k != [] {
      assert k[0] in k && forall f :: f in k[1..] ==> f in k;
      NotFiled(k[1..], key);
    }
  }

  lemma {:induction false} FirstIsFiled(fs: seq<Filing>, key: Str)
    requires Filed(fs, key)
    ensures Filing(key, First(fs, key)) in fs
  {
    FiledHead(fs, key);
    if fs[0].key != key {
      FirstIsFiled(fs[1..], key);
    }
  }

  // ---------- the serializer's table holds the first list filed under each key ----------

  /** The lists on record are those of k, in this order. */
  ghost predicate Records(t: Tables, k: seq<Filing>) {
    && |t.lists| == |k|
    && (forall j :: 0 <= j < |k| ==> t.lists[j] == k[j].names && k[j].key in t.tnRefs && t.tnRefs[k[j].key] == j)
    && (forall key :: key in t.tnRefs ==> t.tnRefs[key] < |k| && k[t.tnRefs[key]].key == key)
  }

  lemma RecordsAlike(t: Tables, u: Tables, k: seq<Filing>)
    requires Records(t, k) && u.tnRefs == t.tnRefs && u.lists == t.lists
    ensures Records(u, k)
  {
  }

  lemma RecordsNames(t: Tables, k: seq<Filing>, key: Str, names: seq<Str>)
    requires Records(t, k) && |t.tnRefs| == |t.lists|
    ensures Records(TypeNames(t, key, names).1, File(k, [Filing(key, names)]))
  {
    FileSingle(k, Filing(key, names));
    if key in t.tnRefs {
      assert k[t.tnRefs[key]] in k;
    } else {
      RecordsNew(t, TypeNames(t, key, names).1, k, Filing(key, names), |k|);
    }
  }

  lemma RecordsNew(t: Tables, u: Tables, k: seq<Filing>, f: Filing, n: nat)
    requires Records(t, k) && f.key !in t.tnRefs && n == |k|
    requires u.tnRefs == t.tnRefs[f.key := n] && u.lists == t.lists + [f.names]
    ensures !Filed(k, f.key) && Records(u, k + [f])
  {
  }

  lemma RecordsOptionalNames(t: Tables, k: seq<Filing>, names: seq<Str>)
    requires Records(t, k) && |t.tnRefs| == |t.lists|
    ensures Records(OptionalTypeNames(t, names).1, File(k, Filings(names)))
  {
    if names != [] {
      RecordsNames(t, k, Join(names), names);
    }
  }

  /** w is what a walk finds, and u the tables after writing the same: all is on file. */
  ghost predicate OnFile(u: Tables, w: Walked, k: seq<Filing>) {
    w.seen == u.objRefs.Keys && Records(u, File(k, w.filed))
  }

  lemma OnFileJoins(u: Tables, k: seq<Filing>, a: seq<Filing>, w: Walked, all: Walked)
    requires OnFile(u, w, File(k, a)) && all == After(a, w)
    ensures OnFile(u, all, k)
  {
    FileJoins(k, a, w.filed);
  }

  lemma NothingFiled(u: Tables, k: seq<Filing>)
    requires Records(u, k)
    ensures OnFile(u, Walked([], u.objRefs.Keys), k)
  {
  }

  lemma {:induction false} WriteFiles(h: Heap, t: Tables, v: Value, name: Str, k: seq<Filing>)
    requires Write(h, t, v, name).status == Done && Valid(t) && Records(t, k)
    ensures OnFile(Write(h, t, v, name).t, Walk(h, t.objRefs.Keys, v), k)
    decreases Unvisited(h, t), v, 2, 0
  {
    if v.List? {
      ListFiles(h, t, v, name, k);
    } else if v.Dict? {
      DictFiles(h, t, v, name, k);
    } else if v.Enum? {
      EnumFiles(t, v, name, k);
    } else if v.Obj? && v.id !in t.objRefs {
      ObjectFiles(h, t, v.id, name, k);
    } else {
      NothingFiled(t, k);
    }
  }

  lemma EnumFiles(t: Tables, v: Value, name: Str, k: seq<Filing>)
    requires v.Enum? && Valid(t) && Records(t, k)
    ensures OnFile(WriteEnum(t, v, name).t, Walked(Filings(EnumNames(v.enumType)), t.objRefs.Keys), k)
  {
    var t0 := t.(next := t.next + 1);
    RecordsAlike(t, t0, k);
    RecordsOptionalNames(t0, k, EnumNames(v.enumType));
  }

  /** The start of a list's element files its names. */
  lemma ListStartFiles(h: Heap, t: Tables, v: Value, name: Str, k: seq<Filing>) returns (u: Tables)
    requires v.List? && Valid(t) && Records(t, k)
    ensures Valid(u) && u.objRefs == t.objRefs && Records(u, File(k, Filings(ListNames(v.kind))))
    ensures var e, items := WriteList(h, t, v, name), WriteItems(h, u, v, 0); e.status == items.status && e.t == items.t
  {
    u := ListTables(t, v);
    ListTablesKeep(t, v);
    ListParts(h, t, v, name);
    ListTablesRecord(t, v, k, ListNames(v.kind));
  }

  lemma ListTablesRecord(t: Tables, v: Value, k: seq<Filing>, names: seq<Str>)
    requires v.List? && Valid(t) && Records(t, k) && names == ListNames(v.kind)
    ensures Records(ListTables(t, v), File(k, Filings(names)))
  {
    var t0 := t.(next := t.next + 1);
    RecordsAlike(t, t0, k);
    RecordsOptionalNames(t0, k, names);
  }

  lemma {:induction false} ListFiles(h: Heap, t: Tables, v: Value, name: Str, k: seq<Filing>)
    requires v.List? && WriteList(h, t, v, name).status == Done && Valid(t) && Records(t, k)
    ensures OnFile(WriteList(h, t, v, name).t, Walk(h, t.objRefs.Keys, v), k)
    decreases Unvisited(h, t), v, 1, 0
  {
    var own := Filings(ListNames(v.kind));
    var t1 := ListStartFiles(h, t, v, name, k);
    ItemsFile(h, t1, v, 0, File(k, own));
    OnFileJoins(WriteItems(h, t1, v, 0).t, k, own, WalkItems(h, t.objRefs.Keys, v, 0), Walk(h, t.objRefs.Keys, v));
  }

  lemma {:induction false} ItemsFile(h: Heap, t: Tables, v: Value, i: nat, k: seq<Filing>)
    requires v.List? && i <= |v.items| && WriteItems(h, t, v, i).status == Done && Valid(t) && Records(t, k)
    ensures OnFile(WriteItems(h, t, v, i).t, WalkItems(h, t.objRefs.Keys, v, i), k)
    decreases Unvisited(h, t), v, 0, |v.items| - i
  {
    if i == |v.items| {
      NothingFiled(t, k);
    } else {
      var j := i + 1;
      var first, more := ItemParts(h, t, v, i, j);
      var seen := t.objRefs.Keys;
      var w1, w2 := WalkItemParts(h, seen, v, i, j);
      WriteFiles(h, t, v.items[i], [], k);
      var k1 := File(k, w1.filed);
      ItemsFile(h, first.t, v, j, k1);
      OnFileJoins(more.t, k, w1.filed, w2, WalkItems(h, seen, v, i));
    }
  }

  lemma WalkItemParts(h: Heap, seen: set<int>, v: Value, i: nat, j: nat) returns (first: Walked, more: Walked)
    requires v.List? && i < |v.items| && j == i + 1
    ensures first == Walk(h, seen, v.items[i]) && more == WalkItems(h, first.seen, v, j)
    ensures WalkItems(h, seen, v, i) == After(first.filed, more)
  {
    first := Walk(h, seen, v.items[i]);
    more := WalkItems(h, first.seen, v, j);
  }

  lemma WalkKeyParts(h: Heap, seen: set<int>, v: Value, keys: seq<Str>, i: nat, j: nat)
    returns (first: Walked, more: Walked)
    requires v.Dict? && i < |keys| && j == i + 1
    ensures first == WalkOne(h, seen, v, keys[i]) && more == WalkKeys(h, first.seen, v, keys, j)
    ensures WalkKeys(h, seen, v, keys, i) == After(first.filed, more)
  {
    first := WalkOne(h, seen, v, keys[i]);
    more := WalkKeys(h, first.seen, v, keys, j);
  }

  function WalkOne(h: Heap, seen: set<int>, v: Value, k: Str): Walked
    requires v.Dict?
  {
    if k in v.m then Walk(h, seen, v.m[k]) else Walked([], seen)
  }

  lemma DictStartFiles(h: Heap, t: Tables, v: Value, name: Str, k: seq<Filing>, own: seq<Filing>) returns (u: Tables)
    requires v.Dict? && Valid(t) && Records(t, k) && own == [Filing(HASHTABLE, HASHTABLE_NAMES)]
    ensures Valid(u) && u.objRefs == t.objRefs && Records(u, File(k, own))
    ensures var e, entries := WriteDict(h, t, v, name), WriteEntries(h, u, v, SortedKeys(v.m.Keys), 0);
            e.status == entries.status && e.t == entries.t
  {
    u := DictTables(t);
    DictTablesKeep(t);
    DictParts(h, t, v, name);
    var t0 := t.(next := t.next + 1);
    RecordsAlike(t, t0, k);
    RecordsNames(t0, k, HASHTABLE, HASHTABLE_NAMES);
  }

  lemma {:induction false} DictFiles(h: Heap, t: Tables, v: Value, name: Str, k: seq<Filing>)
    requires v.Dict? && WriteDict(h, t, v, name).status == Done && Valid(t) && Records(t, k)
    ensures OnFile(WriteDict(h, t, v, name).t, Walk(h, t.objRefs.Keys, v), k)
    decreases Unvisited(h, t), v, 1, 0
  {
    var own, keys, w := WalkDictParts(h, t.objRefs.Keys, v);
    var t1 := DictStartFiles(h, t, v, name, k, own);
    var k1 := File(k, own);
    EntriesFile(h, t1, v, keys, 0, k1);
    OnFileJoins(WriteEntries(h, t1, v, keys, 0).t, k, own, w, Walk(h, t.objRefs.Keys, v));
  }

  lemma WalkDictParts(h: Heap, seen: set<int>, v: Value) returns (own: seq<Filing>, keys: seq<Str>, w: Walked)
    requires v.Dict?
    ensures own == [Filing(HASHTABLE, HASHTABLE_NAMES)] && keys == SortedKeys(v.m.Keys)
    ensures w == WalkKeys(h, seen, v, keys, 0) && Walk(h, seen, v) == After(own, w)
  {
    own, keys := [Filing(HASHTABLE, HASHTABLE_NAMES)], SortedKeys(v.m.Keys);
    w := WalkKeys(h, seen, v, keys, 0);
  }

  lemma {:induction false} EntriesFile(h: Heap, t: Tables, v: Value, keys: seq<Str>, i: nat, k: seq<Filing>)
    requires v.Dict? && i <= |keys| && (forall k :: k in keys ==> k in v.m)
    requires WriteEntries(h, t, v, keys, i).status == Done && Valid(t) && Records(t, k)
    ensures OnFile(WriteEntries(h, t, v, keys, i).t, WalkKeys(h, t.objRefs.Keys, v, keys, i), k)
    decreases Unvisited(h, t), v, 0, |keys| - i
  {
    if i == |keys| {
      NothingFiled(t, k);
    } else {
      var j := i + 1;
      var key, val, more := EntryParts(h, t, v, keys, i, j);
      var seen := t.objRefs.Keys;
      var w1, w2 := WalkKeyParts(h, seen, v, keys, i, j);
      WriteFiles(h, t, v.m[keys[i]], VALUE, k);
      var k1 := File(k, w1.filed);
      EntriesFile(h, val.t, v, keys, j, k1);
      OnFileJoins(more.t, k, w1.filed, w2, WalkKeys(h, seen, v, keys, i));
    }
  }

  lemma {:induction false} PropertiesFile(h: Heap, t: Tables, v: Value, keys: seq<Str>, i: nat, k: seq<Filing>)
    requires v.Dict? && i <= |keys| && WriteProperties(h, t, v, keys, i).status == Done && Valid(t) && Records(t, k)
    ensures OnFile(WriteProperties(h, t, v, keys, i).t, WalkKeys(h, t.objRefs.Keys, v, keys, i), k)
    decreases Unvisited(h, t), v, 0, |keys| - i
  {
    if i == |keys| {
      NothingFiled(t, k);
    } else {
      var j := i + 1;
      var val, more := PropertyParts(h, t, v, keys, i, j);
      var seen := t.objRefs.Keys;
      var w1, w2 := WalkKeyParts(h, seen, v, keys, i, j);
      PropertyFiles(h, t, v, keys[i], k);
      var k1 := File(k, w1.filed);
      PropertiesFile(h, val.t, v, keys, j, k1);
      OnFileJoins(more.t, k, w1.filed, w2, WalkKeys(h, seen, v, keys, i));
    }
  }

  lemma {:induction false} PropertyFiles(h: Heap, t: Tables, v: Value, key: Str, k: seq<Filing>)
    requires v.Dict? && WriteProperty(h, t, v, key).status == Done && Valid(t) && Records(t, k)
    ensures OnFile(WriteProperty(h, t, v, key).t, WalkOne(h, t.objRefs.Keys, v, key), k)
    decreases Unvisited(h, t), v, 0, 0
  {
    if key in v.m {
      WriteFiles(h, t, v.m[key], key, k);
    } else {
      NothingFiled(t, k);
    }
  }

  lemma {:induction false} NothingToWalk(h: Heap, seen: set<int>, v: Value, keys: seq<Str>, i: nat)
    requires v.Dict? && v.m == map[] && i <= |keys|
    ensures WalkKeys(h, seen, v, keys, i) == Walked([], seen)
    decreases |keys| - i
  {
    if i < |keys| {
      NothingToWalk(h, seen, v, keys, i + 1);
    }
  }

  lemma {:induction false} BagFiles(h: Heap, t: Tables, tag: Tag, v: Value, keys: seq<Str>, k: seq<Filing>)
    requires v.Dict? && WriteBag(h, t, tag, v, keys).status == Done && Valid(t) && Records(t, k)
    ensures OnFile(WriteBag(h, t, tag, v, keys).t, WalkKeys(h, t.objRefs.Keys, v, keys, 0), k)
    decreases Unvisited(h, t), v, 1, 0
  {
    if v.m != map[] {
      PropertiesFile(h, t, v, keys, 0, k);
    } else {
      NothingToWalk(h, t.objRefs.Keys, v, keys, 0);
      NothingFiled(t, k);
    }
  }

  lemma {:induction false} ObjectFiles(h: Heap, t: Tables, id: int, name: Str, k: seq<Filing>)
    requires id in h && id !in t.objRefs && WriteObject(h, t, id, name).status == Done && Valid(t) && Records(t, k)
    ensures OnFile(WriteObject(h, t, id, name).t, WalkObject(h, t.objRefs.Keys, id), k)
    decreases Unvisited(h, t), Obj(id), 1, 1
  {
    var p := ObjectParts(h, t, id, name);
    PartsFile(h, t, id, WriteObject(h, t, id, name), p, k);
  }

  lemma {:induction false} PartsFile(h: Heap, t: Tables, id: int, e: Emission<Value>, p: Parts, k: seq<Filing>)
    requires id in h && id !in t.objRefs && Valid(t) && Records(t, k) && PartsOf(h, t, id, p)
    requires e.t == p.ps.t.(open := p.ps.t.open - {id})
    ensures OnFile(e.t, WalkObject(h, t.objRefs.Keys, id), k)
    decreases Unvisited(h, t), Obj(id), 1, 0
  {
    var n := h[id];
    PartsRecur(h, t, id, p);
    var own := Filings(n.typeNames);
    var ms, ps := WalkObjectParts(h, t.objRefs.Keys, id);
    NamedFiles(h, t, id, p, k);
    var k1 := File(k, own);
    BagFiles(h, p.named, MSTag, Dict(n.members), MemberKeys(n), k1);
    var k2 := File(k1, ms.filed);
    BagFiles(h, p.ms.t, PropsTag, Dict(n.props), SortedKeys(n.props.Keys), k2);
    FileJoins(k, own, ms.filed);
    OnFileJoins(p.ps.t, k, own + ms.filed, ps, WalkObject(h, t.objRefs.Keys, id));
    RecordsAlike(p.ps.t, e.t, File(k, WalkObject(h, t.objRefs.Keys, id).filed));
  }

  lemma WalkObjectParts(h: Heap, seen: set<int>, id: int) returns (ms: Walked, ps: Walked)
    requires id in h && id !in seen
    ensures ms == WalkKeys(h, seen + {id}, Dict(h[id].members), MemberKeys(h[id]), 0)
    ensures ps == WalkKeys(h, ms.seen, Dict(h[id].props), SortedKeys(h[id].props.Keys), 0)
    ensures WalkObject(h, seen, id) == After(Filings(h[id].typeNames) + ms.filed, ps)
  {
    ms := WalkKeys(h, seen + {id}, Dict(h[id].members), MemberKeys(h[id]), 0);
    ps := WalkKeys(h, ms.seen, Dict(h[id].props), SortedKeys(h[id].props.Keys), 0);
  }

  lemma NamedFiles(h: Heap, t: Tables, id: int, p: Parts, k: seq<Filing>)
    requires id in h && id !in t.objRefs && Valid(t) && Records(t, k) && PartsOf(h, t, id, p)
    ensures p.named.objRefs.Keys == t.objRefs.Keys + {id} && Records(p.named, File(k, Filings(h[id].typeNames)))
  {
    var t0 := Entered(t, id);
    EnteredAlike(t, id, t0, k);
    RecordsOptionalNames(t0, k, h[id].typeNames);
  }

  lemma EnteredAlike(t: Tables, id: int, t0: Tables, k: seq<Filing>)
    requires Valid(t) && Records(t, k) && t0 == Entered(t, id)
    ensures t0.objRefs.Keys == t.objRefs.Keys + {id} && Records(t0, k) && |t0.tnRefs| == |t0.lists|
  {
    RecordsAlike(t, t0, k);
  }

  /**
   After a document the lists on record, in order, are those whose key had not been filed before;
   under each key stands the first list filed; and the objects met are those walked.
   */
  lemma DocumentFiles(h: Heap, v: Value, base: int)
    requires Written(h, v, base).status == Done
    ensures var t, fs := Written(h, v, base).t, AllFilings(h, v);
            && Records(t, File([], fs)) && t.objRefs.Keys == Walk(h, {}, v).seen
            && forall key :: (key in t.tnRefs <==> Filed(fs, key)) && Resolved(t, key) == First(fs, key)
  {
    var t, fs := Written(h, v, base).t, AllFilings(h, v);
    FreshIsValid(base);
    WriteFiles(h, FreshTables(base), v, [], []);
    AllOnFile(t, fs);
  }

  /** Under each key stands the first list filed. */
  lemma AllOnFile(t: Tables, fs: seq<Filing>)
    requires Records(t, File([], fs))
    ensures forall key :: (key in t.tnRefs <==> Filed(fs, key)) && Resolved(t, key) == First(fs, key)
  {
    forall key ensures (key in t.tnRefs <==> Filed(fs, key)) && Resolved(t, key) == First(fs, key) {
      FileKeepsFirst([], fs, key);
      RecordsFirst(t, File([], fs), key);
    }
  }

  /** Records holds no key twice, so that each key's own list is its first. */
  lemma RecordsFirst(t: Tables, k: seq<Filing>, key: Str)
    requires Records(t, k)
    ensures key in t.tnRefs <==> Filed(k, key)
    ensures Resolved(t, key) == First(k, key)
  {
    if Filed(k, key) {
      FirstIsFiled(k, key);
      var i :| 0 <= i < |k| && k[i] == Filing(key, First(k, key));
    } else {
      NotFiled(k, key);
    }
  }

  // ---------- no list is filed twice ----------

  /** A list is filed under its joined text, and a hashtable's under its own name. */
  predicate Fair(f: Filing) {
    f.names != [] && (f.key == Join(f.names) || f == Filing(HASHTABLE, HASHTABLE_NAMES))
  }

  lemma {:induction false} WalkIsFair(h: Heap, seen: set<int>, v: Value)
    ensures forall f :: f in Walk(h, seen, v).filed ==> Fair(f)
    decreases |h.Keys - seen|, v, 2, 0
  {
    match v
    case List(_, _) => WalkItemsFair(h, seen, v, 0);
    case Dict(m) => WalkKeysFair(h, seen, v, SortedKeys(m.Keys), 0);
    case Obj(id) => if id in h && id !in seen { WalkObjectFair(h, seen, id); }
    case _ =>
  }

  lemma {:induction false} WalkItemsFair(h: Heap, seen: set<int>, v: Value, i: nat)
    requires v.List? && i <= |v.items|
    ensures forall f :: f in WalkItems(h, seen, v, i).filed ==> Fair(f)
    decreases |h.Keys - seen|, v, 0, |v.items| - i
  {
    if i < |v.items| {
      var j := i + 1;
      var first, more := WalkItemParts(h, seen, v, i, j);
      SubsetSize(h.Keys - first.seen, h.Keys - seen);
      WalkIsFair(h, seen, v.items[i]);
      WalkItemsFair(h, first.seen, v, j);
    }
  }

  lemma {:induction false} WalkKeysFair(h: Heap, seen: set<int>, v: Value, keys: seq<Str>, i: nat)
    requires v.Dict? && i <= |keys|
    ensures forall f :: f in WalkKeys(h, seen, v, keys, i).filed ==> Fair(f)
    decreases |h.Keys - seen|, v, 0, |keys| - i
  {
    if i < |keys| {
      var j := i + 1;
      var first, more := WalkKeyParts(h, seen, v, keys, i, j);
      SubsetSize(h.Keys - first.seen, h.Keys - seen);
      if keys[i] in v.m { WalkIsFair(h, seen, v.m[keys[i]]); }
      WalkKeysFair(h, first.seen, v, keys, j);
    }
  }

  lemma {:induction false} WalkObjectFair(h: Heap, seen: set<int>, id: int)
    requires id in h && id !in seen
    ensures forall f :: f in WalkObject(h, seen, id).filed ==> Fair(f)
    decreases |h.Keys - seen|, Obj(id), 1, 0
  {
    var ms, ps := WalkObjectParts(h, seen, id);
    SubsetSize(h.Keys - (seen + {id}), (h.Keys - seen) - {id});
    SubsetSize(h.Keys - ms.seen, (h.Keys - seen) - {id});
    WalkKeysFair(h, seen + {id}, Dict(h[id].members), MemberKeys(h[id]), 0);
    WalkKeysFair(h, ms.seen, Dict(h[id].props), SortedKeys(h[id].props.Keys), 0);
  }

  lemma {:induction false} FileAddsOnly(k: seq<Filing>, fs: seq<Filing>)
    ensures forall f :: f in File(k, fs) ==> f in k || f in fs
    decreases |fs|
  {
    if fs != [] {
      FileAddsOnly(FileOne(k, fs[0]), fs[1..]);
      assert fs == [fs[0]] + fs[1..];
    }
  }

  /**
   No document holds a list of type names twice, except that of a hashtable, which an object with
   exactly these type names has written once more.
   */
  lemma TypeNamesWrittenOnce(h: Heap, v: Value, base: int, i: nat, j: nat)
    requires Written(h, v, base).status == Done
    requires var lists := Written(h, v, base).t.lists; i < j < |lists| && lists[i] == lists[j]
    ensures Written(h, v, base).t.lists[i] == HASHTABLE_NAMES
  {
    var t, fs := Written(h, v, base).t, AllFilings(h, v);
    var k := File([], fs);
    DocumentFiles(h, v, base);
    WalkIsFair(h, {}, v);
    FileAddsOnly([], fs);
    assert k[i] in k && k[j] in k;
    assert k[i].key != k[j].key;
  }

  // ---------- when every list is the first under its key ----------

  predicate NoBars(names: seq<Str>) {
    forall n :: n in names ==> BAR !in n
  }

  /** Type names that cannot be mistaken for others. */
  predicate CleanNames(names: seq<Str>) {
    NoBars(names) && names != [HASHTABLE]
  }

  /** The first bar in joined names ends the first name. */
  lemma FirstBar(names: seq<Str>)
    requires |names| > 1 && NoBars(names)
    ensures var n, p := Join(names), |names[0]|;
            && p < |n| && n[p] == BAR && (forall i :: 0 <= i < p ==> n[i] != BAR)
            && n[..p] == names[0] && n[p + 1..] == Join(names[1..])
  {
    assert names[0] in names;
    assert forall i :: 0 <= i < |names[0]| ==> Join(names)[i] == names[0][i];
  }

  lemma OneName(names: seq<Str>)
    requires |names| == 1 && NoBars(names)
    ensures Join(names) == names[0] && BAR !in Join(names)
  {
    assert names[0] in names;
  }

  lemma {:induction false} JoinInjective(a: seq<Str>, b: seq<Str>)
    requires a != [] && b != [] && NoBars(a) && NoBars(b) && Join(a) == Join(b)
    ensures a == b
    decreases |a|
  {
    if |a| > 1 && |b| > 1 {
      FirstBar(a);
      FirstBar(b);
      assert |a[0]| == |b[0]|;
      JoinInjective(a[1..], b[1..]);
      assert a == [a[0]] + a[1..] && b == [b[0]] + b[1..];
    } else {
      JoinHasBar(a);
      JoinHasBar(b);
      if |a| == 1 {
        OneName(a);
      }
      if |b| == 1 {
        OneName(b);
      }
    }
  }

  lemma CleanFiledOnce(f: Filing, g: Filing)
    requires Fair(f) && Fair(g) && f.key == g.key && f.names != [] && g.names != []
    requires CleanNames(f.names) && CleanNames(g.names)
    ensures f == g
  {
    HashtableHasNoBar();
    if f.key == Join(f.names) && g.key == Join(g.names) {
      JoinInjective(f.names, g.names);
    } else if f.key == Join(f.names) {
      JoinInjective(f.names, [HASHTABLE]);
    } else if g.key == Join(g.names) {
      JoinInjective(g.names, [HASHTABLE]);
    }
  }

  // ---------- everything that wants names asks for them ----------

  /** The enums in v have their names among those filed. */
  ghost predicate EnumsFiled(v: Value, fs: seq<Filing>) {
    match v
    case Enum(ty, _, _) => Filing(Join(EnumNames(ty)), EnumNames(ty)) in fs
    case List(_, items) => forall i :: 0 <= i < |items| ==> EnumsFiled(items[i], fs)
    case Dict(m) => forall k :: k in m ==> EnumsFiled(m[k], fs)
    case _ => true
  }

  /** An object's own names, and those of the enums in what is written of it. */
  ghost predicate NodeFiled(n: Node, fs: seq<Filing>) {
    && (n.typeNames != [] ==> Filing(Join(n.typeNames), n.typeNames) in fs)
    && (forall k :: k in MemberKeys(n) ==> EnumsFiled(Lookup(n.members, k), fs))
    && (forall k :: k in n.props ==> EnumsFiled(n.props[k], fs))
  }

  /** The objects entered between two points of a walk have all their names among fs. */
  ghost predicate ObjectsFiled(h: Heap, seen: set<int>, w: Walked) {
    forall o :: o in w.seen && o !in seen ==> o in h && NodeFiled(h[o], w.filed)
  }

  ghost predicate Among(a: seq<Filing>, b: seq<Filing>) {
    forall f :: f in a ==> f in b
  }

  lemma {:induction false} EnumsFiledGrow(v: Value, a: seq<Filing>, b: seq<Filing>)
    requires EnumsFiled(v, a) && Among(a, b)
    ensures EnumsFiled(v, b)
  {
    match v
    case List(_, items) =>
      forall i | 0 <= i < |items| ensures EnumsFiled(items[i], b) {
        EnumsFiledGrow(items[i], a, b);
      }
    case Dict(m) =>
      forall k | k in m ensures EnumsFiled(m[k], b) {
        EnumsFiledGrow(m[k], a, b);
      }
    case _ =>
  }

  lemma NodeFiledGrows(n: Node, a: seq<Filing>, b: seq<Filing>)
    requires NodeFiled(n, a) && Among(a, b)
    ensures NodeFiled(n, b)
  {
    forall k | k in MemberKeys(n) ensures EnumsFiled(Lookup(n.members, k), b) {
      EnumsFiledGrow(Lookup(n.members, k), a, b);
    }
    forall k | k in n.props ensures EnumsFiled(n.props[k], b) {
      EnumsFiledGrow(n.props[k], a, b);
    }
  }

  /** One walk after another, after some filings. */
  lemma ObjectsFiledJoin(h: Heap, seen: set<int>, first: Walked, more: Walked, all: Walked)
    requires ObjectsFiled(h, seen, first) && ObjectsFiled(h, first.seen, more)
    requires all.seen == more.seen && Among(first.filed, all.filed) && Among(more.filed, all.filed)
    ensures ObjectsFiled(h, seen, all)
  {
    forall o | o in all.seen && o !in seen ensures o in h && NodeFiled(h[o], all.filed) {
      if o in first.seen {
        NodeFiledGrows(h[o], first.filed, all.filed);
      } else {
        NodeFiledGrows(h[o], more.filed, all.filed);
      }
    }
  }

  lemma {:induction false} WalkFilesAll(h: Heap, seen: set<int>, v: Value)
    ensures var w := Walk(h, seen, v); EnumsFiled(v, w.filed) && ObjectsFiled(h, seen, w)
    decreases |h.Keys - seen|, v, 2, 0
  {
    match v
    case Enum(_, _, _) =>
    case List(kind, _) =>
      var w := WalkItems(h, seen, v, 0);
      WalkItemsFileAll(h, seen, v, 0);
      WholeListFiled(h, seen, v, w);
    case Dict(m) =>
      var own, keys, w := WalkDictParts(h, seen, v);
      WalkKeysFileAll(h, seen, v, keys, 0);
      WholeDictFiled(h, seen, v, keys, own, w);
    case Obj(id) => if id in h && id !in seen { WalkObjectFilesAll(h, seen, id); }
    case _ =>
  }

  lemma WholeListFiled(h: Heap, seen: set<int>, v: Value, w: Walked)
    requires v.List? && w == WalkItems(h, seen, v, 0) && ObjectsFiled(h, seen, w)
    requires forall j :: 0 <= j < |v.items| ==> EnumsFiled(v.items[j], w.filed)
    ensures var all := Walk(h, seen, v); EnumsFiled(v, all.filed) && ObjectsFiled(h, seen, all)
  {
    var all := Walk(h, seen, v);
    ObjectsFiledJoin(h, seen, Walked([], seen), w, all);
    forall j | 0 <= j < |v.items| ensures EnumsFiled(v.items[j], all.filed) {
      EnumsFiledGrow(v.items[j], w.filed, all.filed);
    }
  }

  lemma WholeDictFiled(h: Heap, seen: set<int>, v: Value, keys: seq<Str>, own: seq<Filing>, w: Walked)
    requires v.Dict? && keys == SortedKeys(v.m.Keys) && Walk(h, seen, v) == After(own, w) && ObjectsFiled(h, seen, w)
    requires forall j :: 0 <= j < |keys| ==> EnumsFiled(Lookup(v.m, keys[j]), w.filed)
    ensures var all := Walk(h, seen, v); EnumsFiled(v, all.filed) && ObjectsFiled(h, seen, all)
  {
    var all := Walk(h, seen, v);
    ObjectsFiledJoin(h, seen, Walked([], seen), w, all);
    forall k | k in v.m ensures EnumsFiled(v.m[k], all.filed) {
      assert k in keys;
      EnumsFiledGrow(Lookup(v.m, k), w.filed, all.filed);
    }
  }

  lemma {:induction false} WalkItemsFileAll(h: Heap, seen: set<int>, v: Value, i: nat)
    requires v.List? && i <= |v.items|
    ensures var w := WalkItems(h, seen, v, i);
            ObjectsFiled(h, seen, w) && forall j :: i <= j < |v.items| ==> EnumsFiled(v.items[j], w.filed)
    decreases |h.Keys - seen|, v, 0, |v.items| - i
  {
    if i < |v.items| {
      var j := i + 1;
      var first, more := WalkItemParts(h, seen, v, i, j);
      SubsetSize(h.Keys - first.seen, h.Keys - seen);
      WalkFilesAll(h, seen, v.items[i]);
      WalkItemsFileAll(h, first.seen, v, j);
      var all := WalkItems(h, seen, v, i);
      ObjectsFiledJoin(h, seen, first, more, all);
      OneMoreItemFiled(v, i, j, first.filed, more.filed, all.filed);
    }
  }

  lemma OneMoreItemFiled(v: Value, i: nat, j: nat, first: seq<Filing>, more: seq<Filing>, all: seq<Filing>)
    requires v.List? && i < |v.items| && j == i + 1 && EnumsFiled(v.items[i], first)
    requires forall l :: j <= l < |v.items| ==> EnumsFiled(v.items[l], more)
    requires Among(first, all) && Among(more, all)
    ensures forall l :: i <= l < |v.items| ==> EnumsFiled(v.items[l], all)
  {
    forall l | i <= l < |v.items| ensures EnumsFiled(v.items[l], all) {
      EnumsFiledGrow(v.items[l], if l == i then first else more, all);
    }
  }

  lemma {:induction false} WalkKeysFileAll(h: Heap, seen: set<int>, v: Value, keys: seq<Str>, i: nat)
    requires v.Dict? && i <= |keys|
    ensures var w := WalkKeys(h, seen, v, keys, i);
            ObjectsFiled(h, seen, w) && forall j :: i <= j < |keys| ==> EnumsFiled(Lookup(v.m, keys[j]), w.filed)
    decreases |h.Keys - seen|, v, 0, |keys| - i
  {
    if i < |keys| {
      var j := i + 1;
      var first, more := WalkKeyParts(h, seen, v, keys, i, j);
      SubsetSize(h.Keys - first.seen, h.Keys - seen);
      if keys[i] in v.m { WalkFilesAll(h, seen, v.m[keys[i]]); }
      WalkKeysFileAll(h, first.seen, v, keys, j);
      var all := WalkKeys(h, seen, v, keys, i);
      ObjectsFiledJoin(h, seen, first, more, all);
      OneMoreKeyFiled(v.m, keys, i, j, first.filed, more.filed, all.filed);
    }
  }

  lemma OneMoreKeyFiled(m: map<Str, Value>, keys: seq<Str>, i: nat, j: nat, first: seq<Filing>, more: seq<Filing>,
                        all: seq<Filing>)
    requires i < |keys| && j == i + 1 && EnumsFiled(Lookup(m, keys[i]), first)
    requires forall l :: j <= l < |keys| ==> EnumsFiled(Lookup(m, keys[l]), more)
    requires Among(first, all) && Among(more, all)
    ensures forall l :: i <= l < |keys| ==> EnumsFiled(Lookup(m, keys[l]), all)
  {
    forall l | i <= l < |keys| ensures EnumsFiled(Lookup(m, keys[l]), all) {
      EnumsFiledGrow(Lookup(m, keys[l]), if l == i then first else more, all);
    }
  }

  lemma {:induction false} WalkObjectFilesAll(h: Heap, seen: set<int>, id: int)
    requires id in h && id !in seen
    ensures ObjectsFiled(h, seen, WalkObject(h, seen, id))
    decreases |h.Keys - seen|, Obj(id), 1, 0
  {
    var n := h[id];
    var ms, ps := WalkObjectParts(h, seen, id);
    SubsetSize(h.Keys - (seen + {id}), (h.Keys - seen) - {id});
    SubsetSize(h.Keys - ms.seen, (h.Keys - seen) - {id});
    WalkKeysFileAll(h, seen + {id}, Dict(n.members), MemberKeys(n), 0);
    WalkKeysFileAll(h, ms.seen, Dict(n.props), SortedKeys(n.props.Keys), 0);
    WholeObjectFiled(h, seen, id, n, ms, ps, WalkObject(h, seen, id));
  }

  lemma WholeObjectFiled(h: Heap, seen: set<int>, id: int, n: Node, ms: Walked, ps: Walked, all: Walked)
    requires id in h && n == h[id] && all == After(Filings(n.typeNames) + ms.filed, ps)
    requires ObjectsFiled(h, seen + {id}, ms) && ObjectsFiled(h, ms.seen, ps)
    requires var keys := MemberKeys(n); forall j :: 0 <= j < |keys| ==> EnumsFiled(Lookup(n.members, keys[j]), ms.filed)
    requires var keys := SortedKeys(n.props.Keys); forall j :: 0 <= j < |keys| ==>
               EnumsFiled(Lookup(n.props, keys[j]), ps.filed)
    ensures ObjectsFiled(h, seen, all)
  {
    ObjectsFiledJoin(h, seen + {id}, ms, ps, all);
    forall k | k in MemberKeys(n) ensures EnumsFiled(Lookup(n.members, k), all.filed) {
      EnumsFiledGrow(Lookup(n.members, k), ms.filed, all.filed);
    }
    forall k | k in n.props ensures EnumsFiled(n.props[k], all.filed) {
      assert k in SortedKeys(n.props.Keys);
      EnumsFiledGrow(Lookup(n.props, k), ps.filed, all.filed);
    }
    assert n.typeNames != [] ==> Filing(Join(n.typeNames), n.typeNames) in Filings(n.typeNames);
  }

  /** When no list has a bar in it or is just the hashtable's name, each is the first under its key. */
  lemma CleanIsFirst(h: Heap, v: Value, f: Filing)
    requires f in AllFilings(h, v) && f.names != []
    requires forall g :: g in AllFilings(h, v) ==> CleanNames(g.names)
    ensures First(AllFilings(h, v), f.key) == f.names
  {
    var fs := AllFilings(h, v);
    assert Filed(fs, f.key);
    FirstIsFiled(fs, f.key);
    WalkIsFair(h, {}, v);
    CleanFiledOnce(Filing(f.key, First(fs, f.key)), f);
  }
}
