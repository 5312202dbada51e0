/**
 When a document gives back what it was written from: the objects read are the objects written,
 with the same sharing, exactly for the values in which nothing gets lost on the way.
 */
module ClixmlIsomorphism {
  import opened Wrappers
  import opened Bytes
  import opened Clixml
  import opened ClixmlWriter
  import opened ClixmlTables
  import opened ClixmlReader
  import opened ClixmlRoundTrip
  import opened ClixmlDocument
  import opened ClixmlCycles
  import opened ClixmlNames
  import opened ClixmlImage
  import opened ClixmlCanonical
  import CS = ClixmlString
  import Utf8

  // ---------- the same value, the same objects ----------

  /**
   x is v again: an int is cut to the nearest 32-bit number, typed lists become plain ones, an enum becomes an object
   of its own around its number, and a pointer to an object one to its new address.
   */
  ghost predicate Same(v: Value, x: Value, p: Place, w: World)
    decreases v
  {
    match v
    case Int(n) => x.Int32? && Nearest(n, x.i)
    case Enum(ty, n, text) =>
      x.Obj? && Stands(w, x.id, OfEnum(p)) &&
      w.nodes[x.id] == Node([ty, Ascii("System.Enum"), Ascii("System.ValueType"), Ascii("System.Object")], text,
                            map[], [], map[], Int32(n))
    case List(_, items) =>
      x.List? && x.kind == Plain && |x.items| == |items| &&
      forall i :: 0 <= i < |items| ==> Same(items[i], x.items[i], Inside(p, Item(i)), w)
    case Dict(m) =>
      x.Dict? && x.m.Keys == m.Keys && forall k :: k in m ==> Same(m[k], x.m[k], Inside(p, Entry(k)), w)
    case Obj(id) => id in w.t.objRefs && x == Obj(Address(w.t, id))
    case _ => x == v
  }

  /** What an object shows to a reader: its named properties, or else its members that are named and listed. */
  function Shown(n: Node): map<Str, Value> {
    if n.props != map[] then map k | k in n.props && k != [] :: n.props[k]
    else if n.members != map[] then map k | k in MemberKeys(n) && k != [] :: Lookup(n.members, k)
    else map[]
  }

  /** y is the object o again, with what it shows as properties. */
  ghost predicate SameNode(n: Node, y: Node, o: int, w: World) {
    && y.typeNames == n.typeNames && y.toString == n.toString
    && y.members == map[] && y.memberOrder == [] && y.value == Null
    && y.props.Keys == Shown(n).Keys
    && forall k :: k in y.props ==> Same(Shown(n)[k], y.props[k], Slot(o, n.props == map[], k), w)
  }

  ghost predicate SameObject(h: Heap, o: int, w: World)
    requires o in w.t.objRefs
  {
    o in h && Stands(w, Address(w.t, o), OfObject(o)) && SameNode(h[o], w.nodes[Address(w.t, o)], o, w)
  }

  /** The value and every object behind it came back; each address stands for one object or one enum. */
  ghost predicate Isomorphic(h: Heap, v: Value, x: Value, w: World) {
    Same(v, x, TOP, w) && forall o :: o in w.t.objRefs ==> SameObject(h, o, w)
  }

  /** The same without the record of what each address stands for. */
  ghost predicate Arrives(h: Heap, v: Value, x: Value, t: Tables, heap: Heap) {
    exists w: World :: w.t == t && w.nodes == heap && Isomorphic(h, v, x, w)
  }

  /** What stands in v at the end of a path. */
  function Follow(v: Value, path: seq<Step>): Option<Value>
    decreases |path|
  {
    if path == [] then Some(v)
    else if v.List? && path[0].Item? && path[0].i < |v.items| then Follow(v.items[path[0].i], path[1..])
    else if v.Dict? && path[0].Entry? && path[0].key in v.m then Follow(v.m[path[0].key], path[1..])
    else None
  }

  function Along(p: Place, path: seq<Step>): Place {
    p.(path := p.path + path)
  }

  /** Where v has an enum, x has a pointer to an object that stands for the enum of that place. */
  lemma {:induction false} EnumAt(v: Value, x: Value, p: Place, path: seq<Step>, w: World)
    requires Same(v, x, p, w) && Follow(v, path).Some? && Follow(v, path).value.Enum?
    ensures Follow(x, path).Some? && Follow(x, path).value.Obj?
    ensures Stands(w, Follow(x, path).value.id, OfEnum(Along(p, path)))
    decreases |path|
  {
    if path == [] {
      assert p.path + [] == p.path;
    } else {
      var step, rest := path[0], path[1..];
      assert p.path + [step] + rest == p.path + path;
      if v.List? {
        EnumAt(v.items[step.i], x.items[step.i], Inside(p, step), rest, w);
      } else {
        EnumAt(v.m[step.key], x.m[step.key], Inside(p, step), rest, w);
      }
    }
  }

  /** Two enums at different places come back as two objects, neither of which stands for an object of the graph. */
  lemma EnumsApart(v: Value, x: Value, p: Place, path: seq<Step>, v': Value, x': Value, p': Place, path': seq<Step>,
                   w: World)
    requires Same(v, x, p, w) && Follow(v, path).Some? && Follow(v, path).value.Enum?
    requires Same(v', x', p', w) && Follow(v', path').Some? && Follow(v', path').value.Enum?
    ensures Along(p, path) != Along(p', path') ==> Follow(x, path) != Follow(x', path')
    ensures forall o :: o in w.t.objRefs && Stands(w, Address(w.t, o), OfObject(o)) ==>
              Follow(x, path) != Some(Obj(Address(w.t, o)))
  {
    EnumAt(v, x, p, path, w);
    EnumAt(v', x', p', path', w);
  }

  // ---------- what a caller can check ----------

  /** Text that the string codec gives back as it was. */
  predicate CleanText(s: Str) {
    Utf8.Valid(s) || !CS.NeedsEncoding(s)
  }

  /** Of the lists with this joined text, the one filed first is this one. */
  predicate NamesKept(names: seq<Str>, fs: seq<Filing>) {
    names == [] || First(fs, Join(names)) == names
  }

  predicate Intact(v: Value, fs: seq<Filing>) {
    match v
    case String(s) => CleanText(s)
    case ScriptBlock(c) => CleanText(c)
    case Enum(ty, _, text) => NamesKept(EnumNames(ty), fs) && CleanText(text)
    case List(_, items) => forall i :: 0 <= i < |items| ==> Intact(items[i], fs)
    case Dict(m) => forall k :: k in m ==> !HasEscape(k) && Intact(m[k], fs)
    case _ => true
  }

  predicate IntactNode(n: Node, fs: seq<Filing>) {
    && NamesKept(n.typeNames, fs) && CleanText(n.toString)
    && forall k :: k in Shown(n) ==> Intact(Shown(n)[k], fs)
  }

  /** v and every object met on a walk that files these lists. */
  predicate IntactAll(h: Heap, v: Value, w: Walked) {
    Intact(v, w.filed) && forall o :: o in w.seen && o in h ==> IntactNode(h[o], w.filed)
  }

  /** v and every object reachable from it. */
  predicate IntactDocument(h: Heap, v: Value) {
    IntactAll(h, v, Walk(h, {}, v))
  }

  // ---------- hashtables ----------

  /** No key is decoded to another one's text or to a new one exactly when none holds an escape. */
  lemma KeysKeptIff(m: map<Str, Value>)
    ensures DecodedKeys(m) == m.Keys <==> forall k :: k in m ==> !HasEscape(k)
  {
    if k :| k in m && HasEscape(k) {
      LongestIsLost(m, k);
    } else {
      forall k | k in m ensures CS.Decode(k) == k {
        DecodeFixedIff(k);
      }
      assert forall k :: k in m ==> CS.Decode(k) in DecodedKeys(m);
    }
  }

  function Longer(m: map<Str, Value>, n: nat): set<Str> {
    set k | k in m && |k| > n
  }

  /** Among the keys with an escape, one that is not shorter than k is missing afterwards. */
  lemma {:induction false} LongestIsLost(m: map<Str, Value>, k: Str)
    requires k in m && HasEscape(k)
    ensures DecodedKeys(m) != m.Keys
    decreases Longer(m, |k|)
  {
    if l :| l in m && HasEscape(l) && |l| > |k| {
      assert Longer(m, |l|) <= Longer(m, |k|) && l in Longer(m, |k|) && l !in Longer(m, |l|);
      LongestIsLost(m, l);
    } else {
      forall l | l in m ensures CS.Decode(l) != k {
        DecodeFixedIff(l);
      }
      assert k !in DecodedKeys(m);
    }
  }

  lemma AllWin(m: map<Str, Value>, k: Str)
    requires k in m && forall l :: l in m ==> !HasEscape(l)
    ensures Wins(m, k) && CS.Decode(k) == k
  {
    forall l | l in m ensures CS.Decode(l) == l {
      DecodeFixedIff(l);
    }
  }

  /** The last of the keys that are decoded to d, one of which is the a-th. */
  lemma LastDecoded(keys: seq<Str>, d: Str, a: nat) returns (i: nat)
    requires a < |keys| && CS.Decode(keys[a]) == d
    ensures i < |keys| && CS.Decode(keys[i]) == d && forall j :: i < j < |keys| ==> CS.Decode(keys[j]) != d
  {
    i := |keys| - 1;
    while CS.Decode(keys[i]) != d
      invariant a <= i < |keys| && forall j :: i < j < |keys| ==> CS.Decode(keys[j]) != d
      decreases i
    {
      i := i - 1;
    }
  }

  lemma LastWins(m: map<Str, Value>, keys: seq<Str>, i: nat)
    requires keys == SortedKeys(m.Keys) && i < |keys|
    requires forall j :: i < j < |keys| ==> CS.Decode(keys[j]) != CS.Decode(keys[i])
    ensures Wins(m, keys[i])
  {
    var k := keys[i];
    assert k in keys;
    forall l | l in m && l != k && CS.Decode(l) == CS.Decode(k) ensures Less(l, k) {
      assert l in keys;
      var j :| 0 <= j < |keys| && keys[j] == l;
      SortedKeysAscend(m.Keys, j, i);
    }
  }

  /**
   A hashtable comes back with all its keys, each with its own value, exactly when no key holds an
   escape.
   */
  lemma HashtableKeptIff(m: map<Str, Value>, x: Value, p: Place, w: World)
    requires ReadsAs(Dict(m), x, p, w)
    ensures x.Dict? && x.m.Keys == DecodedKeys(m)
    ensures x.m.Keys == m.Keys <==> forall k :: k in m ==> !HasEscape(k)
    ensures x.m.Keys == m.Keys ==> forall k :: k in m ==> ReadsAs(m[k], x.m[k], Inside(p, Entry(k)), w)
  {
    KeysKeptIff(m);
    if x.m.Keys == m.Keys {
      forall k | k in m ensures ReadsAs(m[k], x.m[k], Inside(p, Entry(k)), w) {
        AllWin(m, k);
      }
    }
  }

  /** Keys that are decoded alike become one entry, with the value of the last of them. */
  lemma HashtableMerges(m: map<Str, Value>, x: Value, p: Place, w: World, l: Str) returns (k: Str)
    requires ReadsAs(Dict(m), x, p, w) && l in m
    ensures k in m && CS.Decode(k) == CS.Decode(l) && (k == l || Less(l, k))
    ensures forall j :: j in m && CS.Decode(j) == CS.Decode(l) && j != k ==> Less(j, k)
    ensures x.Dict? && CS.Decode(l) in x.m && ReadsAs(m[k], x.m[CS.Decode(l)], Inside(p, Entry(k)), w)
  {
    var keys := SortedKeys(m.Keys);
    assert l in keys;
    var a :| 0 <= a < |keys| && keys[a] == l;
    var i := LastDecoded(keys, CS.Decode(l), a);
    LastWins(m, keys, i);
    k := keys[i];
    assert CS.Decode(k) in DecodedKeys(m);
  }

  // ---------- values ----------

  /** The table at hand gives out the first list filed. */
  ghost predicate GivesFirst(t: Tables, fs: seq<Filing>) {
    forall k :: k in t.tnRefs ==> Resolved(t, k) == First(fs, k)
  }

  lemma {:induction false} IntactIsSame(v: Value, x: Value, p: Place, w: World, fs: seq<Filing>)
    requires ReadsAs(v, x, p, w) && GivesFirst(w.t, fs) && Intact(v, fs)
    ensures Same(v, x, p, w)
    decreases v
  {
    match v
    case String(s) => CS.RoundTripIff(s);
    case ScriptBlock(c) => CS.RoundTripIff(c);
    case Enum(_, _, text) => CS.RoundTripIff(text);
    case List(_, items) =>
      forall i | 0 <= i < |items| ensures Same(items[i], x.items[i], Inside(p, Item(i)), w) {
        IntactIsSame(items[i], x.items[i], Inside(p, Item(i)), w, fs);
      }
    case Dict(m) =>
      HashtableKeptIff(m, x, p, w);
      forall k | k in m ensures Same(m[k], x.m[k], Inside(p, Entry(k)), w) {
        IntactIsSame(m[k], x.m[k], Inside(p, Entry(k)), w, fs);
      }
    case _ =>
  }

  /** w and u differ in what they record about addresses at most. */
  ghost predicate Alike(w: World, u: World) {
    w.t == u.t && w.nodes == u.nodes
  }

  lemma {:induction false} SameIsIntact(v: Value, x: Value, p: Place, w: World, u: World, fs: seq<Filing>)
    requires ReadsAs(v, x, p, w) && GivesFirst(w.t, fs) && Alike(w, u) && Same(v, x, p, u)
    ensures Intact(v, fs)
    decreases v
  {
    match v
    case String(s) => CS.RoundTripIff(s);
    case ScriptBlock(c) => CS.RoundTripIff(c);
    case Enum(_, _, text) => CS.RoundTripIff(text);
    case List(_, items) =>
      forall i | 0 <= i < |items| ensures Intact(items[i], fs) {
        SameIsIntact(items[i], x.items[i], Inside(p, Item(i)), w, u, fs);
      }
    case Dict(m) =>
      HashtableKeptIff(m, x, p, w);
      forall k | k in m ensures Intact(m[k], fs) {
        SameIsIntact(m[k], x.m[k], Inside(p, Entry(k)), w, u, fs);
      }
    case _ =>
  }

  // ---------- objects ----------

  /** Whatever the names and texts, an object comes back with what it shows. */
  lemma ShownIsRead(n: Node, y: Node, o: int, w: World)
    requires NodeReadsAs(n, y, o, w)
    ensures y.props.Keys == Shown(n).Keys
    ensures forall k :: k in y.props ==> ReadsAs(Shown(n)[k], y.props[k], Slot(o, n.props == map[], k), w)
  {
    var keys := if n.props != map[] then SortedKeys(n.props.Keys) else MemberKeys(n);
    assert keys[Min(0, |keys|)..] == keys;
  }

  lemma IntactNodeIsSame(n: Node, y: Node, o: int, w: World, fs: seq<Filing>)
    requires NodeReadsAs(n, y, o, w) && GivesFirst(w.t, fs) && IntactNode(n, fs)
    ensures SameNode(n, y, o, w)
  {
    CS.RoundTripIff(n.toString);
    ShownIsRead(n, y, o, w);
    forall k | k in y.props ensures Same(Shown(n)[k], y.props[k], Slot(o, n.props == map[], k), w) {
      IntactIsSame(Shown(n)[k], y.props[k], Slot(o, n.props == map[], k), w, fs);
    }
  }

  lemma SameNodeIsIntact(n: Node, y: Node, o: int, w: World, u: World, fs: seq<Filing>)
    requires NodeReadsAs(n, y, o, w) && GivesFirst(w.t, fs) && Alike(w, u) && SameNode(n, y, o, u)
    ensures IntactNode(n, fs)
  {
    CS.RoundTripIff(n.toString);
    ShownIsRead(n, y, o, w);
    forall k | k in Shown(n) ensures Intact(Shown(n)[k], fs) {
      assert k in y.props;
      SameIsIntact(Shown(n)[k], y.props[k], Slot(o, n.props == map[], k), w, u, fs);
    }
  }

  // ---------- whole documents ----------

  /** A reader in front of the document of v, which has no cycle and is not nested too deep. */
  ghost predicate InFront(h: Heap, v: Value, s: State, limit: int) {
    && Written(h, v, s.next).status == Done && InRange(Written(h, v, s.next).t)
    && s.toks == Wrapped(Written(h, v, s.next).toks)
    && Acyclic(h, v) && Written(h, v, s.next).need <= limit
    && forall a :: a in s.heap ==> a < s.next
  }

  /** What is read of such a document. */
  lemma DocumentImage(h: Heap, v: Value, s: State, limit: int) returns (w: World)
    requires InFront(h, v, s, limit)
    ensures var x := ReadDocument(s, 0, limit);
            && x.r.Ok? && |x.r.value| == 1 && w.t == Written(h, v, s.next).t && w.nodes == x.s.heap
            && Image(h, v, x.r.value[0], w) && GivesFirst(w.t, AllFilings(h, v))
            && w.t.objRefs.Keys == Walk(h, {}, v).seen
            && forall a :: a in s.heap ==> a in w.nodes && w.nodes[a] == s.heap[a]
  {
    var t := FreshTables(s.next);
    BackReferenceIff(h, v, s.next);
    DocumentRoundTrip(h, v, s, limit);
    FreshIsValid(s.next);
    var w0 := WriteReadsAs(h, t, v, [], TOP);
    w := AmongOthers(h, t, v, Written(h, v, s.next).image, w0, s.heap);
    DocumentFiles(h, v, s.next);
  }

  /** The objects of a document among those the reader had before. */
  lemma AmongOthers(h: Heap, t: Tables, v: Value, x: Value, w0: World, heap: Heap) returns (w: World)
    requires t.objRefs == map[] && Graph(h, t, w0) && ReadsAs(v, x, TOP, w0)
    requires forall a :: a in heap ==> a < t.base + t.next
    ensures w.t == w0.t && w.nodes == heap + w0.nodes && Image(h, v, x, w)
    ensures forall a :: a in heap ==> a in w.nodes && w.nodes[a] == heap[a]
  {
    w := World(w0.t, heap + w0.nodes, w0.origins);
    ReadsAsGrows(v, x, TOP, w0, w);
    forall o | o in w.t.objRefs ensures ObjectReadsAs(h, o, w) {
      ObjectGrows(h, o, w0, w);
    }
  }

  /** What was read of v when the walk over what was written files the lists of k and meets its objects. */
  ghost predicate ImageAfter(h: Heap, v: Value, x: Value, w: World, k: Walked) {
    Image(h, v, x, w) && GivesFirst(w.t, k.filed) && w.t.objRefs.Keys == k.seen
  }

  lemma IntactArrives(h: Heap, v: Value, x: Value, w: World, k: Walked)
    requires ImageAfter(h, v, x, w, k) && IntactAll(h, v, k)
    ensures Isomorphic(h, v, x, w)
  {
    IntactIsSame(v, x, TOP, w, k.filed);
    forall o | o in w.t.objRefs ensures SameObject(h, o, w) {
      assert o in k.seen;
      IntactNodeIsSame(h[o], w.nodes[Address(w.t, o)], o, w, k.filed);
    }
  }

  lemma ArrivedIsIntact(h: Heap, v: Value, x: Value, w: World, u: World, k: Walked)
    requires ImageAfter(h, v, x, w, k) && Alike(w, u) && Isomorphic(h, v, x, u)
    ensures IntactAll(h, v, k)
  {
    SameIsIntact(v, x, TOP, w, u, k.filed);
    forall o | o in k.seen && o in h ensures IntactNode(h[o], k.filed) {
      assert o in w.t.objRefs && SameObject(h, o, u) && ObjectReadsAs(h, o, w);
      SameNodeIsIntact(h[o], w.nodes[Address(w.t, o)], o, w, u, k.filed);
    }
  }

  lemma ArrivesIff(h: Heap, v: Value, x: Value, w: World, k: Walked)
    requires ImageAfter(h, v, x, w, k)
    ensures Arrives(h, v, x, w.t, w.nodes) <==> IntactAll(h, v, k)
  {
    if IntactAll(h, v, k) {
      IntactArrives(h, v, x, w, k);
    }
    if Arrives(h, v, x, w.t, w.nodes) {
      var u: World :| u.t == w.t && u.nodes == w.nodes && Isomorphic(h, v, x, u);
      ArrivedIsIntact(h, v, x, w, u, k);
    }
  }

  /**
   A graph without a cycle, nested within the limit, is read, and what is read is the value and each
   of its objects again, in normal form and with the same sharing, exactly when every text survives
   the string codec, no hashtable key holds an escape, and every list of type names is the first
   filed under its joined text.
   */
  lemma ReadsBackIsomorphic(h: Heap, v: Value, s: State, limit: int)
    requires InFront(h, v, s, limit)
    ensures var x, t := ReadDocument(s, 0, limit), Written(h, v, s.next).t;
            && x.r.Ok? && |x.r.value| == 1
            && (Arrives(h, v, x.r.value[0], t, x.s.heap) <==> IntactDocument(h, v))
            && forall a :: a in s.heap ==> a in x.s.heap && x.s.heap[a] == s.heap[a]
  {
    var w := DocumentImage(h, v, s, limit);
    ArrivesIff(h, v, ReadDocument(s, 0, limit).r.value[0], w, Walk(h, {}, v));
  }
}
