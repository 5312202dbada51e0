/**
 What a document stands for, whatever it was written from: the normal form in which a value and
 the objects behind it come back, and where each object and each enum of them ends up.
 */
module ClixmlImage {
  import opened Wrappers
  import opened Bytes
  import opened Clixml
  import opened ClixmlWriter
  import opened ClixmlTables
  import opened ClixmlReadBack
  import CS = ClixmlString

  // ---------- places and addresses ----------

  /** One step into a value, or from an object to one of its members or properties. */
  datatype Step = Item(i: nat) | Entry(key: Str) | Member(name: Str) | Property(name: Str)

  /** A place in the value written, or in the object that holds it. */
  datatype Place = Place(holder: Option<int>, path: seq<Step>)

  const TOP: Place := Place(None, [])

  function Inside(p: Place, s: Step): Place {
    p.(path := p.path + [s])
  }

  /** The place of a member or property of an object. */
  function Slot(o: int, member: bool, name: Str): Place {
    Place(Some(o), [if member then Member(name) else Property(name)])
  }

  /** What an address stands for: an object, or the enum at some place. */
  datatype Origin = OfObject(id: int) | OfEnum(place: Place)

  /** The reader's objects next to the serializer's tables; each address stands for one thing only. */
  datatype World = World(t: Tables, nodes: Heap, origins: map<int, Origin>)

  /** Where the reader puts an object. */
  function Address(t: Tables, o: int): int
    requires o in t.objRefs
  {
    t.base + t.objRefs[o]
  }

  ghost predicate Stands(w: World, a: int, origin: Origin) {
    a in w.nodes && a in w.origins && w.origins[a] == origin
  }

  // ---------- the normal form ----------

  /** Text after its way through the codec. */
  function Restored(s: Str): Str {
    CS.Decode(CS.Encode(s))
  }

  /** The names given to whoever asks for these. */
  function NamesGiven(t: Tables, names: seq<Str>): seq<Str> {
    if names == [] then [] else Resolved(t, Join(names))
  }

  ghost predicate NamesKnown(t: Tables, names: seq<Str>) {
    names != [] ==> Join(names) in t.tnRefs
  }

  /** Keys are written as they are but read through the decoder. */
  function DecodedKeys(m: map<Str, Value>): set<Str> {
    set k | k in m :: CS.Decode(k)
  }

  /** Of the keys that are decoded alike, k is the last in order, so that its value overwrites theirs. */
  predicate Wins(m: map<Str, Value>, k: Str) {
    k in m && forall l :: l in m && l != k && CS.Decode(l) == CS.Decode(k) ==> Less(l, k)
  }

  /** x is what v at place p is read back as. */
  ghost predicate ReadsAs(v: Value, x: Value, p: Place, w: World)
    decreases v
  {
    match v
    case String(s) => x == String(Restored(s))
    case ScriptBlock(c) => x == ScriptBlock(Restored(c))
    case Int(n) => x.Int32? && Nearest(n, x.i)
    case Enum(ty, n, text) => x.Obj? && EnumReadsAs(EnumNames(ty), n, text, x.id, p, w)
    case List(_, items) =>
      x.List? && x.kind == Plain && |x.items| == |items| &&
      forall i :: 0 <= i < |items| ==> ReadsAs(items[i], x.items[i], Inside(p, Item(i)), w)
    case Dict(m) =>
      x.Dict? && x.m.Keys == DecodedKeys(m) &&
      forall k :: k in m && Wins(m, k) ==> ReadsAs(m[k], x.m[CS.Decode(k)], Inside(p, Entry(k)), w)
    case Obj(id) => id in w.t.objRefs && x == Obj(Address(w.t, id))
    case _ => x == v
  }

  ghost predicate EnumReadsAs(names: seq<Str>, n: int32, text: Str, a: int, p: Place, w: World) {
    && Stands(w, a, OfEnum(p)) && NamesKnown(w.t, names)
    && w.nodes[a] == Node(NamesGiven(w.t, names), Restored(text), map[], [], map[], Int32(n))
  }

  /** y holds what m holds under the non-empty keys from the i-th on, nil for a key that m does not have. */
  ghost predicate BagReadsAs(m: map<Str, Value>, keys: seq<Str>, i: nat, y: map<Str, Value>, o: int, member: bool,
                             w: World) {
    && (forall k :: k in y ==> k != [] && k in keys[Min(i, |keys|)..])
    && (forall k :: k in keys[Min(i, |keys|)..] && k != [] ==> k in y)
    && (forall k :: k in y ==> ReadsAs(Lookup(m, k), y[k], Slot(o, member, k), w))
  }

  function Min(a: nat, b: nat): nat {
    if a < b then a else b
  }

  /** The object o is read back as y: its properties, or else its members, all as properties, and no wrapped value. */
  ghost predicate NodeReadsAs(n: Node, y: Node, o: int, w: World) {
    && NamesKnown(w.t, n.typeNames) && y.typeNames == NamesGiven(w.t, n.typeNames)
    && y.toString == Restored(n.toString)
    && y.members == map[] && y.memberOrder == [] && y.value == Null
    && (if n.props != map[] then BagReadsAs(n.props, SortedKeys(n.props.Keys), 0, y.props, o, false, w)
        else if n.members != map[] then BagReadsAs(n.members, MemberKeys(n), 0, y.props, o, true, w)
        else y.props == map[])
  }

  ghost predicate ObjectReadsAs(h: Heap, o: int, w: World)
    requires o in w.t.objRefs
  {
    o in h && Stands(w, Address(w.t, o), OfObject(o)) && NodeReadsAs(h[o], w.nodes[Address(w.t, o)], o, w)
  }

  // ---------- growing ----------

  /** What w knows, w' knows as well. */
  ghost predicate Grows(w: World, w': World) {
    && w'.t.base == w.t.base
    && (forall o :: o in w.t.objRefs ==> o in w'.t.objRefs && w'.t.objRefs[o] == w.t.objRefs[o])
    && (forall k :: k in w.t.tnRefs ==> k in w'.t.tnRefs && Resolved(w'.t, k) == Resolved(w.t, k))
    && (forall a :: a in w.nodes ==> a in w'.nodes && w'.nodes[a] == w.nodes[a])
    && (forall a :: a in w.origins ==> a in w'.origins && w'.origins[a] == w.origins[a])
  }

  lemma {:induction false} ReadsAsGrows(v: Value, x: Value, p: Place, w: World, w': World)
    requires ReadsAs(v, x, p, w) && Grows(w, w')
    ensures ReadsAs(v, x, p, w')
    decreases v
  {
    if v.List? {
      forall i | 0 <= i < |v.items| ensures ReadsAs(v.items[i], x.items[i], Inside(p, Item(i)), w') {
        ReadsAsGrows(v.items[i], x.items[i], Inside(p, Item(i)), w, w');
      }
    } else if v.Dict? {
      forall k | k in v.m && Wins(v.m, k) ensures ReadsAs(v.m[k], x.m[CS.Decode(k)], Inside(p, Entry(k)), w') {
        assert CS.Decode(k) in DecodedKeys(v.m);
        ReadsAsGrows(v.m[k], x.m[CS.Decode(k)], Inside(p, Entry(k)), w, w');
      }
    }
  }

  lemma BagGrows(m: map<Str, Value>, keys: seq<Str>, i: nat, y: map<Str, Value>, o: int, member: bool, w: World,
                 w': World)
    requires BagReadsAs(m, keys, i, y, o, member, w) && Grows(w, w')
    ensures BagReadsAs(m, keys, i, y, o, member, w')
  {
    forall k | k in y ensures ReadsAs(Lookup(m, k), y[k], Slot(o, member, k), w') {
      ReadsAsGrows(Lookup(m, k), y[k], Slot(o, member, k), w, w');
    }
  }

  lemma NodeGrows(n: Node, y: Node, o: int, w: World, w': World)
    requires NodeReadsAs(n, y, o, w) && Grows(w, w')
    ensures NodeReadsAs(n, y, o, w')
  {
    if n.props != map[] {
      BagGrows(n.props, SortedKeys(n.props.Keys), 0, y.props, o, false, w, w');
    } else if n.members != map[] {
      BagGrows(n.members, MemberKeys(n), 0, y.props, o, true, w, w');
    }
  }

  lemma ObjectGrows(h: Heap, o: int, w: World, w': World)
    requires o in w.t.objRefs && ObjectReadsAs(h, o, w) && Grows(w, w')
    ensures o in w'.t.objRefs && ObjectReadsAs(h, o, w')
  {
    NodeGrows(h[o], w.nodes[Address(w.t, o)], o, w, w');
  }

  lemma GrowsOn(a: World, b: World, c: World)
    requires Grows(a, b) && Grows(b, c)
    ensures Grows(a, c)
  {
  }

  // ---------- the objects of a stretch of tokens ----------

  /** The addresses of w are those handed out since t, and the objects numbered since then read back. */
  ghost predicate Graph(h: Heap, t: Tables, w: World) {
    && w.origins.Keys == w.nodes.Keys
    && (forall a :: a in w.nodes ==> t.base + t.next <= a < t.base + w.t.next)
    && (forall o :: o in w.t.objRefs && o !in t.objRefs ==> ObjectReadsAs(h, o, w))
  }

  /** Tokens that define no object. */
  lemma GraphStarts(h: Heap, t: Tables, u: Tables) returns (w: World)
    requires u.objRefs == t.objRefs
    ensures w.t == u && w.nodes == map[] && Graph(h, t, w)
  {
    w := World(u, map[], map[]);
  }

  /** Two stretches one after the other. */
  lemma GraphJoins(h: Heap, t: Tables, w1: World, w2: World) returns (w: World)
    requires Graph(h, t, w1) && Graph(h, w1.t, w2) && Extends(t, w1.t) && Extends(w1.t, w2.t)
    requires Valid(w1.t)
    ensures w.t == w2.t && w.nodes == w1.nodes + w2.nodes && Graph(h, t, w)
    ensures Grows(w1, w) && Grows(w2, w)
  {
    w := JoinWorlds(t, w1, w2);
    forall o | o in w.t.objRefs && o !in t.objRefs ensures ObjectReadsAs(h, o, w) {
      if o in w1.t.objRefs {
        ObjectGrows(h, o, w1, w);
      } else {
        ObjectGrows(h, o, w2, w);
      }
    }
  }

  lemma JoinWorlds(t: Tables, w1: World, w2: World) returns (w: World)
    requires w1.origins.Keys == w1.nodes.Keys && w2.origins.Keys == w2.nodes.Keys
    requires forall a :: a in w1.nodes ==> t.base + t.next <= a < t.base + w1.t.next
    requires forall a :: a in w2.nodes ==> w1.t.base + w1.t.next <= a < w1.t.base + w2.t.next
    requires Extends(t, w1.t) && Extends(w1.t, w2.t) && Valid(w1.t)
    ensures w.t == w2.t && w.nodes == w1.nodes + w2.nodes && w.origins.Keys == w.nodes.Keys
    ensures forall a :: a in w.nodes ==> t.base + t.next <= a < t.base + w.t.next
    ensures Grows(w1, w) && Grows(w2, w)
  {
    w := World(w2.t, w1.nodes + w2.nodes, w1.origins + w2.origins);
    NamesStay(w1.t, w2.t);
  }

  lemma NamesStay(t: Tables, u: Tables)
    requires Valid(t) && Extends(t, u)
    ensures forall k :: k in t.tnRefs ==> k in u.tnRefs && Resolved(u, k) == Resolved(t, k)
  {
  }

  /** w holds what was written from t to u, and no other object than those of nodes. */
  ghost predicate Stretch(h: Heap, t: Tables, u: Tables, nodes: Heap, w: World) {
    w.t == u && w.nodes == nodes && Graph(h, t, w)
  }

  /** The start of an element that is no object of its own adds none. */
  lemma StartsLater(h: Heap, t: Tables, t1: Tables, w: World)
    requires Extends(t, t1) && t1.objRefs == t.objRefs && Graph(h, t1, w)
    ensures Graph(h, t, w)
  {
  }

  // ---------- values ----------

  lemma {:induction false} WriteReadsAs(h: Heap, t: Tables, v: Value, name: Str, p: Place) returns (w: World)
    requires Write(h, t, v, name).status == Done && Valid(t)
    ensures var e := Write(h, t, v, name); Stretch(h, t, e.t, e.nodes, w) && ReadsAs(v, e.image, p, w)
    decreases Unvisited(h, t), v, 2, 0
  {
    if v.List? {
      w := ListReadsAs(h, t, v, name, p);
    } else if v.Dict? {
      w := DictReadsAs(h, t, v, name, p);
    } else if v.Enum? {
      w := EnumImage(h, t, v, name, p);
    } else if v.Obj? && v.id !in t.objRefs {
      w := ObjectImageReadsAs(h, t, v.id, name);
    } else {
      w := LeafReadsAs(h, t, v, name, p);
    }
  }

  lemma LeafReadsAs(h: Heap, t: Tables, v: Value, name: Str, p: Place) returns (w: World)
    requires !v.List? && !v.Dict? && !v.Enum? && (v.Obj? ==> v.id in t.objRefs)
    requires Write(h, t, v, name).status == Done
    ensures var e := Write(h, t, v, name); Stretch(h, t, e.t, e.nodes, w) && ReadsAs(v, e.image, p, w)
  {
    w := GraphStarts(h, t, t);
    if v.Int? {
      CappedToNearest(v.n);
    }
  }

  lemma EnumImage(h: Heap, t: Tables, v: Value, name: Str, p: Place) returns (w: World)
    requires v.Enum? && Valid(t)
    ensures var e := WriteEnum(t, v, name); Stretch(h, t, e.t, e.nodes, w) && ReadsAs(v, e.image, p, w)
  {
    var names := EnumNames(v.enumType);
    var u, y, addr := EnumElement(t, v, name, names);
    w := EnumWorld(h, t, u, addr, y, p);
    WholeEnum(v, names, addr, p, w);
  }

  lemma WholeEnum(v: Value, names: seq<Str>, addr: int, p: Place, w: World)
    requires v.Enum? && names == EnumNames(v.enumType) && EnumReadsAs(names, v.enumValue, v.enumText, addr, p, w)
    ensures ReadsAs(v, Obj(addr), p, w)
  {
  }

  lemma EnumElement(t: Tables, v: Value, name: Str, names: seq<Str>) returns (u: Tables, y: Node, addr: int)
    requires v.Enum? && Valid(t) && names == EnumNames(v.enumType)
    ensures addr == t.base + t.next && u.objRefs == t.objRefs && u.base == t.base && t.next < u.next
    ensures NamesKnown(u, names)
    ensures y == Node(NamesGiven(u, names), Restored(v.enumText), map[], [], map[], Int32(v.enumValue))
    ensures var e := WriteEnum(t, v, name); e.t == u && e.image == Obj(addr) && e.nodes == map[addr := y]
  {
    addr := t.base + t.next;
    var t0 := t.(next := t.next + 1);
    u := TypeNames(t0, Join(names), names).1;
    y := Node(Resolved(u, Join(names)), Restored(v.enumText), map[], [], map[], Int32(v.enumValue));
    EnumEmission(t, t0, v, name, names, u, addr, y);
  }

  lemma EnumEmission(t: Tables, t0: Tables, v: Value, name: Str, names: seq<Str>, u: Tables, addr: int, y: Node)
    requires v.Enum? && names == EnumNames(v.enumType) && t0 == t.(next := t.next + 1) && addr == t.base + t.next
    requires u == TypeNames(t0, Join(names), names).1
    requires y == Node(Resolved(u, Join(names)), Restored(v.enumText), map[], [], map[], Int32(v.enumValue))
    ensures var e := WriteEnum(t, v, name); e.t == u && e.image == Obj(addr) && e.nodes == map[addr := y]
  {
  }

  /** One enum at the next address. */
  lemma EnumWorld(h: Heap, t: Tables, u: Tables, addr: int, y: Node, p: Place) returns (w: World)
    requires u.objRefs == t.objRefs && u.base == t.base && t.next < u.next && addr == t.base + t.next
    ensures Stretch(h, t, u, map[addr := y], w) && Stands(w, addr, OfEnum(p)) && w.nodes[addr] == y
  {
    w := World(u, map[addr := y], map[addr := OfEnum(p)]);
  }

  lemma {:induction false} ListReadsAs(h: Heap, t: Tables, v: Value, name: Str, p: Place) returns (w: World)
    requires v.List? && WriteList(h, t, v, name).status == Done && Valid(t)
    ensures var e := WriteList(h, t, v, name); Stretch(h, t, e.t, e.nodes, w) && ReadsAs(v, e.image, p, w)
    decreases Unvisited(h, t), v, 1, 0
  {
    var t1 := ListElement(h, t, v, name);
    w := ItemsReadAs(h, t1, v, 0, p);
    StartsLater(h, t, t1, w);
    WholeList(v, WriteItems(h, t1, v, 0).image, p, w);
  }

  ghost predicate ItemsRead(v: Value, i: nat, xs: seq<Value>, p: Place, w: World)
    requires v.List?
  {
    i + |xs| == |v.items| && forall j :: i <= j < |v.items| ==> ReadsAs(v.items[j], xs[j - i], Inside(p, Item(j)), w)
  }

  lemma WholeList(v: Value, xs: seq<Value>, p: Place, w: World)
    requires v.List? && ItemsRead(v, 0, xs, p, w)
    ensures ReadsAs(v, List(Plain, xs), p, w)
  {
    forall i | 0 <= i < |xs| ensures ReadsAs(v.items[i], xs[i], Inside(p, Item(i)), w) {
      assert xs[i - 0] == xs[i];
    }
  }

  lemma ItemsReadStep(v: Value, i: nat, j: nat, x: Value, xs: seq<Value>, p: Place, w1: World, w2: World, w: World)
    requires v.List? && i < |v.items| && j == i + 1 && ReadsAs(v.items[i], x, Inside(p, Item(i)), w1)
    requires ItemsRead(v, j, xs, p, w2) && Grows(w1, w) && Grows(w2, w)
    ensures ItemsRead(v, i, [x] + xs, p, w)
  {
    ReadsAsGrows(v.items[i], x, Inside(p, Item(i)), w1, w);
    ItemsGrow(v, j, xs, p, w2, w);
    var all := [x] + xs;
    forall k | i <= k < |v.items| ensures ReadsAs(v.items[k], all[k - i], Inside(p, Item(k)), w) {
      if k > i {
        assert all[k - i] == xs[k - j];
      }
    }
  }

  lemma ItemsGrow(v: Value, i: nat, xs: seq<Value>, p: Place, w: World, w': World)
    requires v.List? && ItemsRead(v, i, xs, p, w) && Grows(w, w')
    ensures ItemsRead(v, i, xs, p, w')
  {
    forall k | i <= k < |v.items| ensures ReadsAs(v.items[k], xs[k - i], Inside(p, Item(k)), w') {
      ReadsAsGrows(v.items[k], xs[k - i], Inside(p, Item(k)), w, w');
    }
  }

  lemma {:induction false} ItemsReadAs(h: Heap, t: Tables, v: Value, i: nat, p: Place) returns (w: World)
    requires v.List? && i <= |v.items| && WriteItems(h, t, v, i).status == Done && Valid(t)
    ensures var e := WriteItems(h, t, v, i); Stretch(h, t, e.t, e.nodes, w) && ItemsRead(v, i, e.image, p, w)
    decreases Unvisited(h, t), v, 0, |v.items| - i
  {
    if i == |v.items| {
      w := GraphStarts(h, t, t);
    } else {
      var j := i + 1;
      var first, more := ItemParts(h, t, v, i, j);
      var w1 := WriteReadsAs(h, t, v.items[i], [], Inside(p, Item(i)));
      var w2 := ItemsReadAs(h, first.t, v, j, p);
      w := GraphJoins(h, t, w1, w2);
      ItemsReadStep(v, i, j, first.image, more.image, p, w1, w2, w);
    }
  }

  // ---------- hashtables ----------

  predicate LastOf(keys: seq<Str>, i: nat) {
    i < |keys| && forall j :: i < j < |keys| ==> CS.Decode(keys[j]) != CS.Decode(keys[i])
  }

  ghost predicate EntriesRead(m: map<Str, Value>, keys: seq<Str>, i: nat, y: map<Str, Value>, p: Place, w: World) {
    && (forall j :: i <= j < |keys| ==> keys[j] in m && CS.Decode(keys[j]) in y)
    && (forall d :: d in y ==> exists j :: i <= j < |keys| && CS.Decode(keys[j]) == d)
    && (forall j :: i <= j < |keys| && LastOf(keys, j) ==>
          ReadsAs(m[keys[j]], y[CS.Decode(keys[j])], Inside(p, Entry(keys[j])), w))
  }

  /** Which key wins can be told from the order in which the keys are written. */
  lemma WinnerIsLast(m: map<Str, Value>, keys: seq<Str>, i: nat)
    requires keys == SortedKeys(m.Keys) && i < |keys| && Wins(m, keys[i])
    ensures LastOf(keys, i)
  {
    forall j | i < j < |keys| ensures CS.Decode(keys[j]) != CS.Decode(keys[i]) {
      SortedKeysAscend(m.Keys, i, j);
      assert keys[j] in keys;
      LessTotal(keys[i], keys[j]);
    }
  }

  lemma WholeDict(v: Value, keys: seq<Str>, y: map<Str, Value>, p: Place, w: World)
    requires v.Dict? && keys == SortedKeys(v.m.Keys) && EntriesRead(v.m, keys, 0, y, p, w)
    ensures ReadsAs(v, Dict(y), p, w)
  {
    DictKeys(v.m, keys, y, p, w);
    forall k | k in v.m && Wins(v.m, k) ensures ReadsAs(v.m[k], y[CS.Decode(k)], Inside(p, Entry(k)), w) {
      assert k in keys;
      var i :| 0 <= i < |keys| && keys[i] == k;
      WinnerIsLast(v.m, keys, i);
    }
  }

  lemma DictKeys(m: map<Str, Value>, keys: seq<Str>, y: map<Str, Value>, p: Place, w: World)
    requires keys == SortedKeys(m.Keys) && EntriesRead(m, keys, 0, y, p, w)
    ensures y.Keys == DecodedKeys(m)
  {
    forall d ensures d in y <==> d in DecodedKeys(m) {
      if d in y {
        var j :| 0 <= j < |keys| && CS.Decode(keys[j]) == d;
        assert keys[j] in keys;
      }
      if d in DecodedKeys(m) {
        var k :| k in m && CS.Decode(k) == d;
        assert k in keys;
      }
    }
  }

  lemma EntriesReadStep(m: map<Str, Value>, keys: seq<Str>, i: nat, j: nat, x: Value, y: map<Str, Value>,
                        y': map<Str, Value>, p: Place, w1: World, w2: World, w: World)
    requires i < |keys| && j == i + 1 && keys[i] in m && y' == map[CS.Decode(keys[i]) := x] + y
    requires ReadsAs(m[keys[i]], x, Inside(p, Entry(keys[i])), w1) && EntriesRead(m, keys, j, y, p, w2)
    requires Grows(w1, w) && Grows(w2, w)
    ensures EntriesRead(m, keys, i, y', p, w)
  {
    var d := CS.Decode(keys[i]);
    ReadsAsGrows(m[keys[i]], x, Inside(p, Entry(keys[i])), w1, w);
    EntriesGrow(m, keys, j, y, p, w2, w);
    assert LastOf(keys, i) ==> d !in y;
    forall l | i <= l < |keys| && LastOf(keys, l)
      ensures ReadsAs(m[keys[l]], y'[CS.Decode(keys[l])], Inside(p, Entry(keys[l])), w)
    {
      if l > i {
        assert CS.Decode(keys[l]) in y;
      }
    }
    forall c | c in y' ensures exists l :: i <= l < |keys| && CS.Decode(keys[l]) == c {
      assert c == d || c in y;
    }
  }

  lemma EntriesGrow(m: map<Str, Value>, keys: seq<Str>, i: nat, y: map<Str, Value>, p: Place, w: World, w': World)
    requires EntriesRead(m, keys, i, y, p, w) && Grows(w, w')
    ensures EntriesRead(m, keys, i, y, p, w')
  {
    forall l | i <= l < |keys| && LastOf(keys, l)
      ensures ReadsAs(m[keys[l]], y[CS.Decode(keys[l])], Inside(p, Entry(keys[l])), w')
    {
      ReadsAsGrows(m[keys[l]], y[CS.Decode(keys[l])], Inside(p, Entry(keys[l])), w, w');
    }
  }

  lemma {:induction false} EntriesReadAs(h: Heap, t: Tables, v: Value, keys: seq<Str>, i: nat, p: Place)
    returns (w: World)
    requires v.Dict? && i <= |keys| && (forall k :: k in keys ==> k in v.m)
    requires WriteEntries(h, t, v, keys, i).status == Done && Valid(t)
    ensures var e := WriteEntries(h, t, v, keys, i);
            Stretch(h, t, e.t, e.nodes, w) && EntriesRead(v.m, keys, i, e.image, p, w)
    decreases Unvisited(h, t), v, 0, |keys| - i
  {
    if i == |keys| {
      w := GraphStarts(h, t, t);
    } else {
      var j := i + 1;
      var key, val, more := EntryParts(h, t, v, keys, i, j);
      var w1 := WriteReadsAs(h, t, v.m[keys[i]], VALUE, Inside(p, Entry(keys[i])));
      var w2 := EntriesReadAs(h, val.t, v, keys, j, p);
      w := GraphJoins(h, t, w1, w2);
      EntriesReadStep(v.m, keys, i, j, val.image, more.image, WriteEntries(h, t, v, keys, i).image, p, w1, w2, w);
    }
  }

  lemma {:induction false} DictReadsAs(h: Heap, t: Tables, v: Value, name: Str, p: Place) returns (w: World)
    requires v.Dict? && WriteDict(h, t, v, name).status == Done && Valid(t)
    ensures var e := WriteDict(h, t, v, name); Stretch(h, t, e.t, e.nodes, w) && ReadsAs(v, e.image, p, w)
    decreases Unvisited(h, t), v, 1, 0
  {
    var keys := SortedKeys(v.m.Keys);
    var t1 := DictElement(h, t, v, name);
    w := EntriesReadAs(h, t1, v, keys, 0, p);
    StartsLater(h, t, t1, w);
    WholeDict(v, keys, WriteEntries(h, t1, v, keys, 0).image, p, w);
  }

  // ---------- objects ----------

  lemma BagStep(m: map<Str, Value>, keys: seq<Str>, i: nat, j: nat, x: Value, y: map<Str, Value>, y': map<Str, Value>,
                o: int, member: bool, w1: World, w2: World, w: World)
    requires i < |keys| && j == i + 1 && y' == (if keys[i] == [] then map[] else map[keys[i] := x]) + y
    requires ReadsAs(Lookup(m, keys[i]), x, Slot(o, member, keys[i]), w1) && BagReadsAs(m, keys, j, y, o, member, w2)
    requires Grows(w1, w) && Grows(w2, w)
    ensures BagReadsAs(m, keys, i, y', o, member, w)
  {
    ReadsAsGrows(Lookup(m, keys[i]), x, Slot(o, member, keys[i]), w1, w);
    BagGrows(m, keys, j, y, o, member, w2, w);
    KeysSplit(keys, i, j);
    BagOneMore(m, keys[i], keys[i..], keys[j..], x, y, y', o, member, w);
  }

  lemma KeysSplit(keys: seq<Str>, i: nat, j: nat)
    requires i < |keys| && j == i + 1
    ensures keys[i..] == [keys[i]] + keys[j..] && Min(i, |keys|) == i && Min(j, |keys|) == j
  {
  }

  lemma BagOneMore(m: map<Str, Value>, k: Str, all: seq<Str>, rest: seq<Str>, x: Value, y: map<Str, Value>,
                   y': map<Str, Value>, o: int, member: bool, w: World)
    requires all == [k] + rest && y' == (if k == [] then map[] else map[k := x]) + y
    requires ReadsAs(Lookup(m, k), x, Slot(o, member, k), w)
    requires forall l :: l in y <==> l != [] && l in rest
    requires forall l :: l in y ==> ReadsAs(Lookup(m, l), y[l], Slot(o, member, l), w)
    ensures forall l :: l in y' <==> l != [] && l in all
    ensures forall l :: l in y' ==> ReadsAs(Lookup(m, l), y'[l], Slot(o, member, l), w)
  {
    assert forall l :: l in all <==> l == k || l in rest;
  }

  lemma {:induction false} PropertyReadsAs(h: Heap, t: Tables, v: Value, k: Str, p: Place) returns (w: World)
    requires v.Dict? && WriteProperty(h, t, v, k).status == Done && Valid(t)
    ensures var e := WriteProperty(h, t, v, k); Stretch(h, t, e.t, e.nodes, w) && ReadsAs(Lookup(v.m, k), e.image, p, w)
    decreases Unvisited(h, t), v, 0, 0
  {
    if k in v.m {
      w := WriteReadsAs(h, t, v.m[k], k, p);
    } else {
      w := GraphStarts(h, t, t);
    }
  }

  lemma {:induction false} PropertiesReadAs(h: Heap, t: Tables, v: Value, keys: seq<Str>, i: nat, o: int, member: bool)
    returns (w: World)
    requires v.Dict? && i <= |keys| && WriteProperties(h, t, v, keys, i).status == Done && Valid(t)
    ensures var e := WriteProperties(h, t, v, keys, i);
            Stretch(h, t, e.t, e.nodes, w) && BagReadsAs(v.m, keys, i, e.image, o, member, w)
    decreases Unvisited(h, t), v, 0, |keys| - i
  {
    if i == |keys| {
      w := GraphStarts(h, t, t);
    } else {
      var j := i + 1;
      var val, more := PropertyParts(h, t, v, keys, i, j);
      var w1 := PropertyReadsAs(h, t, v, keys[i], Slot(o, member, keys[i]));
      var w2 := PropertiesReadAs(h, val.t, v, keys, j, o, member);
      w := GraphJoins(h, t, w1, w2);
      BagStep(v.m, keys, i, j, val.image, more.image, WriteProperties(h, t, v, keys, i).image, o, member, w1, w2, w);
    }
  }

  lemma {:induction false} BagReads(h: Heap, t: Tables, tag: Tag, v: Value, keys: seq<Str>, o: int, member: bool)
    returns (w: World)
    requires v.Dict? && WriteBag(h, t, tag, v, keys).status == Done && Valid(t)
    ensures var e := WriteBag(h, t, tag, v, keys);
            && Stretch(h, t, e.t, e.nodes, w)
            && (v.m != map[] ==> BagReadsAs(v.m, keys, 0, e.image, o, member, w))
    decreases Unvisited(h, t), v, 1, 0
  {
    if v.m != map[] {
      w := PropertiesReadAs(h, t, v, keys, 0, o, member);
    } else {
      w := GraphStarts(h, t, t);
    }
  }

  lemma {:induction false} ObjectImageReadsAs(h: Heap, t: Tables, id: int, name: Str) returns (w: World)
    requires id in h && id !in t.objRefs && WriteObject(h, t, id, name).status == Done && Valid(t)
    ensures var e := WriteObject(h, t, id, name);
            Stretch(h, t, e.t, e.nodes, w) && id in w.t.objRefs && e.image == Obj(Address(w.t, id))
    decreases Unvisited(h, t), Obj(id), 1, 1
  {
    var p := ObjectParts(h, t, id, name);
    w := PartsReadAs(h, t, id, WriteObject(h, t, id, name), p);
  }

  lemma {:induction false} PartsReadAs(h: Heap, t: Tables, id: int, e: Emission<Value>, p: Parts) returns (w: World)
    requires id in h && id !in t.objRefs && Valid(t) && PartsOf(h, t, id, p) && Assembled(t, id, h[id], e, p)
    ensures Stretch(h, t, e.t, e.nodes, w) && id in w.t.objRefs && e.image == Obj(Address(w.t, id))
    decreases Unvisited(h, t), Obj(id), 1, 0
  {
    PartsRecur(h, t, id, p);
    var w1, w2, inner := BagsReadAs(h, t, id, p, h[id]);
    var addr := t.base + t.next;
    var y := ObjectNode(h, t, id, e, p, addr);
    w := ObjectCloses(h, t, id, e, p, w1, w2, inner, addr, y);
  }

  lemma ObjectNode(h: Heap, t: Tables, id: int, e: Emission<Value>, p: Parts, addr: int) returns (y: Node)
    requires id in h && Assembled(t, id, h[id], e, p) && addr == t.base + t.next
    ensures y == FullNode(h[id], p.named, p.ms.image, p.ps.image)
    ensures e.image == Obj(addr) && e.nodes == p.ms.nodes + p.ps.nodes + map[addr := y]
    ensures e.t == p.ps.t.(open := p.ps.t.open - {id})
  {
    y := FullNode(h[id], p.named, p.ms.image, p.ps.image);
    AssembledAt(t, id, h[id], e, p, addr, y);
  }

  lemma {:induction false} BagsReadAs(h: Heap, t: Tables, id: int, p: Parts, n: Node)
    returns (w1: World, w2: World, inner: World)
    requires id in h && n == h[id] && id !in t.objRefs && Valid(t) && PartsOf(h, t, id, p)
    requires Valid(p.named) && Valid(p.ms.t) && Unvisited(h, p.ms.t) <= Unvisited(h, p.named) < Unvisited(h, t)
    ensures Stretch(h, p.named, p.ps.t, p.ms.nodes + p.ps.nodes, inner) && Grows(w1, inner) && Grows(w2, inner)
    ensures n.members != map[] ==> BagReadsAs(n.members, MemberKeys(n), 0, p.ms.image, id, true, w1)
    ensures n.props != map[] ==> BagReadsAs(n.props, SortedKeys(n.props.Keys), 0, p.ps.image, id, false, w2)
    decreases Unvisited(h, p.named) + 1, Obj(id), 0, 0
  {
    w1 := BagReads(h, p.named, MSTag, Dict(n.members), MemberKeys(n), id, true);
    w2 := BagReads(h, p.ms.t, PropsTag, Dict(n.props), SortedKeys(n.props.Keys), id, false);
    BagsExtend(h, t, id, p);
    inner := GraphJoins(h, p.named, w1, w2);
  }

  /** The end of the element: the object takes the address handed out at its start. */
  lemma ObjectCloses(h: Heap, t: Tables, id: int, e: Emission<Value>, p: Parts, w1: World, w2: World, inner: World,
                     addr: int, y: Node) returns (w: World)
    requires id in h && id !in t.objRefs && Valid(t) && PartsOf(h, t, id, p) && addr == t.base + t.next
    requires e.image == Obj(addr) && e.nodes == p.ms.nodes + p.ps.nodes + map[addr := y]
    requires e.t == p.ps.t.(open := p.ps.t.open - {id})
    requires y == FullNode(h[id], p.named, p.ms.image, p.ps.image)
    requires Stretch(h, p.named, p.ps.t, p.ms.nodes + p.ps.nodes, inner) && Grows(w1, inner) && Grows(w2, inner)
    requires h[id].members != map[] ==> BagReadsAs(h[id].members, MemberKeys(h[id]), 0, p.ms.image, id, true, w1)
    requires h[id].props != map[] ==>
               BagReadsAs(h[id].props, SortedKeys(h[id].props.Keys), 0, p.ps.image, id, false, w2)
    ensures Stretch(h, t, e.t, e.nodes, w) && id in w.t.objRefs && e.image == Obj(Address(w.t, id))
  {
    NamedTables(h, t, id, p, addr);
    OutsideGraph(h, p.named, inner, addr);
    w := PutObject(id, inner, e.t, addr, y);
    GrowsOn(w1, inner, w);
    GrowsOn(w2, inner, w);
    NodeFits(h[id], id, p, w1, w2, w, y);
    GraphWithObject(h, t, id, p.named, inner, w, addr, y);
  }

  lemma OutsideGraph(h: Heap, t: Tables, w: World, addr: int)
    requires Graph(h, t, w) && addr < t.base + t.next
    ensures addr !in w.nodes && addr !in w.origins
  {
  }

  /** The object itself, after those met inside it. */
  lemma PutObject(id: int, inner: World, u: Tables, addr: int, y: Node) returns (w: World)
    requires addr !in inner.nodes && addr !in inner.origins && inner.origins.Keys == inner.nodes.Keys
    requires u == inner.t.(open := inner.t.open - {id})
    ensures w.t == u && w.nodes == inner.nodes + map[addr := y] && w.origins.Keys == w.nodes.Keys
    ensures Stands(w, addr, OfObject(id)) && w.nodes[addr] == y && Grows(inner, w)
    ensures forall a :: a in w.nodes ==> a == addr || a in inner.nodes
  {
    w := World(u, inner.nodes + map[addr := y], inner.origins + map[addr := OfObject(id)]);
    SameNames(inner.t, u);
  }

  lemma SameNames(t: Tables, u: Tables)
    requires u.tnRefs == t.tnRefs && u.lists == t.lists
    ensures forall k :: k in t.tnRefs ==> Resolved(u, k) == Resolved(t, k)
  {
  }

  lemma NodeFits(n: Node, id: int, p: Parts, w1: World, w2: World, w: World, y: Node)
    requires Grows(w1, w) && Grows(w2, w) && y == FullNode(n, p.named, p.ms.image, p.ps.image)
    requires n.members != map[] ==> BagReadsAs(n.members, MemberKeys(n), 0, p.ms.image, id, true, w1)
    requires n.props != map[] ==> BagReadsAs(n.props, SortedKeys(n.props.Keys), 0, p.ps.image, id, false, w2)
    requires NamesKnown(p.named, n.typeNames) && Valid(p.named) && Extends(p.named, p.ps.t)
    requires w.t.tnRefs == p.ps.t.tnRefs && w.t.lists == p.ps.t.lists
    ensures NodeReadsAs(n, y, id, w)
  {
    FullNodeIsImage(n, p.named, p.ms.image, p.ps.image);
    NamesStay(p.named, p.ps.t);
    if n.props != map[] {
      BagGrows(n.props, SortedKeys(n.props.Keys), 0, p.ps.image, id, false, w2, w);
    } else if n.members != map[] {
      BagGrows(n.members, MemberKeys(n), 0, p.ms.image, id, true, w1, w);
    }
  }

  lemma GraphWithObject(h: Heap, t: Tables, id: int, named: Tables, inner: World, w: World, addr: int, y: Node)
    requires id in h && id !in t.objRefs && addr == t.base + t.next && Graph(h, named, inner) && Grows(inner, w)
    requires named.objRefs == t.objRefs[id := t.next] && named.next == t.next + 1 && named.base == t.base
    requires Extends(named, inner.t) && w.t.objRefs == inner.t.objRefs && w.t.next == inner.t.next
    requires w.origins.Keys == w.nodes.Keys && (forall a :: a in w.nodes ==> a == addr || a in inner.nodes)
    requires Stands(w, addr, OfObject(id)) && w.nodes[addr] == y && NodeReadsAs(h[id], y, id, w)
    ensures Graph(h, t, w) && id in w.t.objRefs && Address(w.t, id) == addr
  {
    assert id in named.objRefs && named.objRefs[id] == t.next;
    forall o | o in w.t.objRefs && o !in t.objRefs ensures ObjectReadsAs(h, o, w) {
      if o != id {
        ObjectGrows(h, o, inner, w);
      }
    }
  }

  lemma BagsExtend(h: Heap, t: Tables, id: int, p: Parts)
    requires id in h && id !in t.objRefs && Valid(t) && PartsOf(h, t, id, p)
    ensures Valid(p.ms.t) && Extends(p.named, p.ms.t) && Extends(p.ms.t, p.ps.t)
  {
    PartsKeep(h, t, id, p);
    WriteBagKeeps(h, p.named, MSTag, Dict(h[id].members), MemberKeys(h[id]));
  }

  /** The tables inside the object's element. */
  lemma NamedTables(h: Heap, t: Tables, id: int, p: Parts, addr: int)
    requires id in h && id !in t.objRefs && Valid(t) && PartsOf(h, t, id, p) && addr == t.base + t.next
    ensures p.named.objRefs == t.objRefs[id := t.next] && p.named.next == t.next + 1 && p.named.base == t.base
    ensures NamesKnown(p.named, h[id].typeNames) && Valid(p.named) && Extends(p.named, p.ps.t)
  {
    PartsKeep(h, t, id, p);
    NamedAfter(Entered(t, id), h[id].typeNames);
  }

  lemma NamedAfter(t: Tables, names: seq<Str>)
    ensures var u := OptionalTypeNames(t, names).1;
            NamesKnown(u, names) && u.objRefs == t.objRefs && u.next == t.next && u.base == t.base
  {
  }

  // ---------- whole documents ----------

  /** What the reader's objects are next to the value, when all of them are read. */
  ghost predicate Image(h: Heap, v: Value, x: Value, w: World) {
    ReadsAs(v, x, TOP, w) && forall o :: o in w.t.objRefs ==> ObjectReadsAs(h, o, w)
  }
}
