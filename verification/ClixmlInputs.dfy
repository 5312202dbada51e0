/** Documents on which something gets lost: one input for each way in which a value can fail to arrive. */
module ClixmlInputs {
  import opened Wrappers
  import opened Clixml
  import opened ClixmlWriter
  import opened ClixmlTables
  import opened ClixmlReader
  import opened ClixmlRoundTrip
  import opened ClixmlReadBack
  import opened ClixmlDocument
  import opened ClixmlGraph
  import opened ClixmlCycles
  import opened ClixmlNames
  import opened ClixmlImage
  import opened ClixmlIsomorphism
  import opened ClixmlLosses
  import opened ClixmlCanonical
  import CS = ClixmlString
  import Utf8

  // ---------- objects with nothing but type names ----------

  function Bare(names: seq<Str>): Node {
    Node(names, [], map[], [], map[], Null)
  }

  ghost predicate AllBare(h: Heap) {
    forall o :: o in h ==> h[o].members == map[] && h[o].props == map[]
  }

  lemma BareIsAcyclic(h: Heap, v: Value, s: set<int>)
    requires AllBare(h) && Within(v, s)
    ensures Acyclic(h, v)
  {
    assert Ranking(h, v, s, map[]);
  }

  lemma NoBag(h: Heap, t: Tables, tag: Tag, v: Value, keys: seq<Str>)
    requires v.Dict? && v.m == map[]
    ensures WriteBag(h, t, tag, v, keys) == Emission(Done, [], t, map[], map[], false, 0)
  {
  }

  lemma BareObject(h: Heap, t: Tables, id: int, n: Node, named: Tables)
    requires id in h && n == h[id] && n.members == map[] && n.props == map[] && id !in t.objRefs
    requires named == OptionalTypeNames(Entered(t, id), n.typeNames).1
    ensures var e := WriteObject(h, t, id, []);
            e.status == Done && e.need == 1 && e.t == named.(open := named.open - {id})
  {
    NoBag(h, named, MSTag, Dict(n.members), MemberKeys(n));
    NoBag(h, named, PropsTag, Dict(n.props), SortedKeys(n.props.Keys));
  }

  lemma BareWritten(h: Heap, t: Tables, id: int) returns (u: Tables)
    requires id in h && AllBare(h) && id !in t.objRefs
    ensures var e := Write(h, t, Obj(id), []); e.status == Done && e.need == 1 && e.t == u
    ensures u.objRefs == t.objRefs[id := t.next] && u.next == t.next + 1 && u.base == t.base
  {
    var named := OptionalTypeNames(Entered(t, id), h[id].typeNames).1;
    BareObject(h, t, id, h[id], named);
    NamedAfter(Entered(t, id), h[id].typeNames);
    u := named.(open := named.open - {id});
  }

  lemma BareWalked(h: Heap, seen: set<int>, id: int)
    requires id in h && AllBare(h) && id !in seen
    ensures Walk(h, seen, Obj(id)) == Walked(Filings(h[id].typeNames), seen + {id})
  {
    NothingToWalk(h, seen + {id}, Dict(h[id].members), MemberKeys(h[id]), 0);
    NothingToWalk(h, seen + {id}, Dict(h[id].props), SortedKeys(h[id].props.Keys), 0);
  }

  // ---------- two elements in a list ----------

  lemma PairWritten(h: Heap, t: Tables, v: Value) returns (t1: Tables, first: Emission<Value>, second: Emission<Value>)
    requires v.List? && |v.items| == 2
    ensures t1 == ListTables(t, v) && first == Write(h, t1, v.items[0], [])
    ensures second == Write(h, first.t, v.items[1], [])
    ensures var e := Write(h, t, v, []);
            first.status == Done && second.status == Done ==>
              e.status == Done && e.t == second.t && e.need == 1 + Max(first.need, second.need)
  {
    t1 := ListTables(t, v);
    first := Write(h, t1, v.items[0], []);
    second := Write(h, first.t, v.items[1], []);
    ListParts(h, t, v, []);
    if first.status == Done && second.status == Done {
      PairItems(h, t1, v, first, second);
    }
  }

  lemma PairItems(h: Heap, t: Tables, v: Value, first: Emission<Value>, second: Emission<Value>)
    requires v.List? && |v.items| == 2 && first == Write(h, t, v.items[0], [])
    requires second == Write(h, first.t, v.items[1], [])
    requires first.status == Done && second.status == Done
    ensures var e := WriteItems(h, t, v, 0);
            e.status == Done && e.t == second.t && e.need == Max(first.need, second.need)
  {
    assert WriteItems(h, second.t, v, 2) == Emission(Done, [], second.t, [], map[], false, 0);
    var rest := WriteItems(h, first.t, v, 1);
    assert rest.status == Done && rest.t == second.t && rest.need == second.need;
  }

  lemma PairWalked(h: Heap, seen: set<int>, v: Value, a: Walked, b: Walked)
    requires v.List? && |v.items| == 2 && a == Walk(h, seen, v.items[0]) && b == Walk(h, a.seen, v.items[1])
    ensures Walk(h, seen, v) == Walked(Filings(ListNames(v.kind)) + (a.filed + b.filed), b.seen)
  {
    assert WalkItems(h, b.seen, v, 2) == Walked([], b.seen);
    assert b.filed + [] == b.filed;
    assert WalkItems(h, a.seen, v, 1) == b;
  }

  // ---------- type names with a bar ----------

  const A_BAR_B: Str := [0x61, 0x7C, 0x62]
  const A_B: seq<Str> := [[0x61], [0x62]]

  /** A list of two bare objects, one with the name a|b and one with the names a and b. */
  ghost predicate BarsInput(h: Heap, v: Value) {
    h.Keys == {0, 1} && h[0] == Bare([A_BAR_B]) && h[1] == Bare(A_B) && v == List(Plain, [Obj(0), Obj(1)])
  }

  lemma PairOfBare(h: Heap, v: Value, base: int)
    requires AllBare(h) && h.Keys == {0, 1} && v == List(Plain, [Obj(0), Obj(1)])
    ensures var e := Written(h, v, base);
            && e.status == Done && e.need == 2 && InRange(e.t)
            && e.t.objRefs == map[0 := 1, 1 := 2] && e.t.base == base
  {
    var u := PairEmission(h, FreshTables(base), v);
  }

  lemma PairIsAcyclic(h: Heap, v: Value)
    requires AllBare(h) && v == List(Plain, [Obj(0), Obj(1)])
    ensures Acyclic(h, v)
  {
    BareIsAcyclic(h, v, {0, 1});
  }

  lemma PairEmission(h: Heap, t: Tables, v: Value) returns (u: Tables)
    requires AllBare(h) && h.Keys == {0, 1} && v == List(Plain, [Obj(0), Obj(1)]) && t.objRefs == map[]
    ensures var e := Write(h, t, v, []); e.status == Done && e.need == 2 && e.t == u
    ensures u.objRefs == map[0 := t.next + 1, 1 := t.next + 2] && u.next == t.next + 3 && u.base == t.base
  {
    var t1, first, second := PairWritten(h, t, v);
    StartOfList(t, v, t1);
    var u1 := BareWritten(h, t1, 0);
    assert 1 !in u1.objRefs;
    u := BareWritten(h, u1, 1);
    TwoNumbers(t, t1, u1, u);
  }

  lemma TwoNumbers(t: Tables, t1: Tables, u1: Tables, u: Tables)
    requires t.objRefs == map[] && t1.objRefs == t.objRefs && t1.next == t.next + 1
    requires u1.objRefs == t1.objRefs[0 := t1.next] && u1.next == t1.next + 1
    requires u.objRefs == u1.objRefs[1 := u1.next] && u.next == u1.next + 1
    ensures u.objRefs == map[0 := t.next + 1, 1 := t.next + 2] && u.next == t.next + 3
  {
  }

  lemma StartOfList(t: Tables, v: Value, t1: Tables)
    requires v.List? && t1 == ListTables(t, v)
    ensures t1.next == t.next + 1 && t1.objRefs == t.objRefs && t1.base == t.base
  {
  }

  lemma BarsFiled(h: Heap, v: Value)
    requires BarsInput(h, v)
    ensures Join([A_BAR_B]) == A_BAR_B && Join(A_B) == A_BAR_B
    ensures First(AllFilings(h, v), A_BAR_B) == [A_BAR_B]
  {
    BareWalked(h, {}, 0);
    BareWalked(h, {0}, 1);
    assert {} + {0} == {0};
    PairWalked(h, {}, v, Walk(h, {}, Obj(0)), Walk(h, {0}, Obj(1)));
    JoinedWithBar();
    FirstAfterArrayNames(A_BAR_B, [A_BAR_B], Filings(A_B));
  }

  lemma JoinedWithBar()
    ensures Join([A_BAR_B]) == A_BAR_B && Join(A_B) == A_BAR_B
  {
    assert A_B[1..] == [[0x62]] && Join(A_B) == [0x61] + [BAR] + Join([[0x62]]);
  }

  lemma FirstAfterArrayNames(key: Str, names: seq<Str>, rest: seq<Filing>)
    requires |key| == 3 && Join(names) == key && names != []
    ensures First(Filings(ARRAY_NAMES) + (Filings(names) + rest), key) == names
  {
    var own, fs := Filings(ARRAY_NAMES), Filings(names) + rest;
    assert |Join(ARRAY_NAMES)| > 3;
    assert own == [Filing(Join(ARRAY_NAMES), ARRAY_NAMES)];
    assert (own + fs)[1..] == fs && fs[0] == Filing(key, names);
  }

  /** Two bare objects in a list, in front of a reader. */
  lemma PairRead(h: Heap, v: Value, s: State, limit: int)
    requires AllBare(h) && h.Keys == {0, 1} && v == List(Plain, [Obj(0), Obj(1)]) && limit >= 2
    requires s.toks == Wrapped(Written(h, v, s.next).toks) && forall a :: a in s.heap ==> a < s.next
    ensures InFront(h, v, s, limit) && Written(h, v, s.next).t.objRefs.Keys == {0, 1}
    ensures var x := ReadDocument(s, 0, limit);
            && x.r == Ok([List(Plain, [Obj(s.next + 1), Obj(s.next + 2)])])
            && s.next + 1 in x.s.heap && s.next + 2 in x.s.heap
            && x.s.heap[s.next + 1] == Arrived(h, v, s, limit, 0) && x.s.heap[s.next + 2] == Arrived(h, v, s, limit, 1)
  {
    PairOfBare(h, v, s.next);
    PairIsAcyclic(h, v);
    PairArrives(h, v, s, limit, Written(h, v, s.next).t);
    HasArrived(h, v, s, limit, 0);
    HasArrived(h, v, s, limit, 1);
  }

  lemma PairArrives(h: Heap, v: Value, s: State, limit: int, t: Tables)
    requires InFront(h, v, s, limit) && v == List(Plain, [Obj(0), Obj(1)])
    requires t == Written(h, v, s.next).t && t.objRefs.Keys == {0, 1}
    ensures ReadDocument(s, 0, limit).r == Ok([List(Plain, [Obj(Address(t, 0)), Obj(Address(t, 1))])])
  {
    var x, w := OneValue(h, v, s, limit);
    PairImage(v, x, w);
  }

  lemma PairImage(v: Value, x: Value, w: World)
    requires v == List(Plain, [Obj(0), Obj(1)]) && ReadsAs(v, x, TOP, w) && w.t.objRefs.Keys == {0, 1}
    ensures x == List(Plain, [Obj(Address(w.t, 0)), Obj(Address(w.t, 1))])
  {
    PointerImage(0, x.items[0], Inside(TOP, Item(0)), w);
    PointerImage(1, x.items[1], Inside(TOP, Item(1)), w);
    assert x.items == [x.items[0], x.items[1]];
  }

  lemma PointerImage(o: int, x: Value, p: Place, w: World)
    requires ReadsAs(Obj(o), x, p, w)
    ensures o in w.t.objRefs && x == Obj(Address(w.t, o))
  {
  }

  /** The object with the names a and b is read with the one name a|b. */
  lemma BarsClash(h: Heap, v: Value, s: State, limit: int)
    requires BarsInput(h, v) && limit >= 2
    requires s.toks == Wrapped(Written(h, v, s.next).toks) && forall a :: a in s.heap ==> a < s.next
    ensures var x := ReadDocument(s, 0, limit);
            && x.r == Ok([List(Plain, [Obj(s.next + 1), Obj(s.next + 2)])])
            && s.next + 1 in x.s.heap && x.s.heap[s.next + 1].typeNames == [A_BAR_B]
            && s.next + 2 in x.s.heap && x.s.heap[s.next + 2].typeNames == [A_BAR_B] != A_B
  {
    PairRead(h, v, s, limit);
    BarsFiled(h, v);
    NamesReadBack(h, v, s, limit, 0);
    NamesReadBack(h, v, s, limit, 1);
    assert |[A_BAR_B]| == 1 && |A_B| == 2;
  }

  // ---------- just the hashtable's name ----------

  /** A list of an empty hashtable and a bare object with just the hashtable's name. */
  ghost predicate HashtableInput(h: Heap, v: Value) {
    h.Keys == {0} && h[0] == Bare([HASHTABLE]) && v == List(Plain, [Dict(map[]), Obj(0)])
  }

  lemma EmptyDictWritten(h: Heap, t: Tables, v: Value) returns (u: Tables)
    requires v == Dict(map[])
    ensures var e := Write(h, t, v, []); e.status == Done && e.need == 1 && e.t == u
    ensures u.objRefs == t.objRefs && u.next == t.next + 1 && u.base == t.base
  {
    assert SortedKeys(v.m.Keys) == [];
    DictParts(h, t, v, []);
    u := DictTables(t);
  }

  lemma HashtableWritten(h: Heap, v: Value, base: int)
    requires HashtableInput(h, v)
    ensures var e := Written(h, v, base); e.status == Done && e.need == 2 && InRange(e.t) && 0 in e.t.objRefs
    ensures Acyclic(h, v)
  {
    var t := FreshTables(base);
    var t1, first, second := PairWritten(h, t, v);
    StartOfList(t, v, t1);
    var u1 := EmptyDictWritten(h, t1, v.items[0]);
    var u2 := BareWritten(h, u1, 0);
    BareIsAcyclic(h, v, {0});
  }

  lemma EmptyDictWalked(h: Heap, seen: set<int>, v: Value)
    requires v == Dict(map[])
    ensures Walk(h, seen, v) == Walked([Filing(HASHTABLE, HASHTABLE_NAMES)], seen)
  {
    var own, keys, w := WalkDictParts(h, seen, v);
    NothingToWalk(h, seen, v, keys, 0);
    assert own + [] == own;
  }

  lemma HashtableFiled(h: Heap, v: Value)
    requires HashtableInput(h, v)
    ensures First(AllFilings(h, v), HASHTABLE) == HASHTABLE_NAMES
  {
    var a := Walk(h, {}, v.items[0]);
    EmptyDictWalked(h, {}, v.items[0]);
    var b := Walk(h, {}, v.items[1]);
    PairWalked(h, {}, v, a, b);
    FirstInSecondPlace(a.filed, b.filed);
  }

  lemma FirstInSecondPlace(a: seq<Filing>, b: seq<Filing>)
    requires a == [Filing(HASHTABLE, HASHTABLE_NAMES)]
    ensures First(Filings(ARRAY_NAMES) + (a + b), HASHTABLE) == HASHTABLE_NAMES
  {
    var own, fs := Filings(ARRAY_NAMES), a + b;
    assert own == [Filing(Join(ARRAY_NAMES), ARRAY_NAMES)];
    if Join(ARRAY_NAMES) == HASHTABLE {
      JoinIsHashtable(ARRAY_NAMES);
    }
    assert |OBJECT_ARRAY| != |HASHTABLE|;
    assert (own + fs)[1..] == fs && fs[0] == a[0];
  }

  /** The object takes the two names written for the hashtable before it. */
  lemma HashtableClash(h: Heap, v: Value, s: State, limit: int)
    requires HashtableInput(h, v) && limit >= 2
    requires s.toks == Wrapped(Written(h, v, s.next).toks) && forall a :: a in s.heap ==> a < s.next
    ensures InFront(h, v, s, limit) && 0 in Written(h, v, s.next).t.objRefs
    ensures Arrived(h, v, s, limit, 0).typeNames == HASHTABLE_NAMES != h[0].typeNames
  {
    HashtableWritten(h, v, s.next);
    HashtableFiled(h, v);
    NamesReadBack(h, v, s, limit, 0);
    assert |[HASHTABLE]| == 1 && |HASHTABLE_NAMES| == 2;
  }

  // ---------- two keys decoded alike ----------

  const LETTER_A: Str := [0x41]

  /** A hashtable with the letter A as a key, and once more as an escape. */
  ghost predicate KeysInput(m: map<Str, Value>, escape: Str) {
    escape != LETTER_A && m == map[LETTER_A := Int32(1), escape := Int32(2)]
  }

  lemma {:induction false} FlatEntries(h: Heap, t: Tables, v: Value, keys: seq<Str>, i: nat)
    requires v.Dict? && i <= |keys| && forall k :: k in keys ==> k in v.m && v.m[k].Int32?
    ensures var e := WriteEntries(h, t, v, keys, i);
            e.status == Done && e.need == (if i < |keys| then 1 else 0) && e.t == t
    decreases |keys| - i
  {
    if i < |keys| {
      var j := i + 1;
      FlatEntries(h, t, v, keys, j);
      assert Write(h, t, v.m[keys[i]], VALUE).t == t;
    }
  }

  lemma KeysWritten(h: Heap, m: map<Str, Value>, base: int)
    requires forall k :: k in m ==> m[k].Int32?
    ensures var e := Written(h, Dict(m), base); e.status == Done && e.need <= 2 && InRange(e.t)
    ensures Acyclic(h, Dict(m))
  {
    var v, t, keys := Dict(m), FreshTables(base), SortedKeys(m.Keys);
    DictParts(h, t, v, []);
    FlatEntries(h, DictTables(t), v, keys, 0);
    assert Ranking(h, v, {}, map[]);
  }

  lemma KeysDecoded(m: map<Str, Value>, x: Str)
    requires x == CS.Hex4(0x41) && KeysInput(m, x)
    ensures CS.Decode(x) == LETTER_A && DecodedKeys(m) == {LETTER_A} && Wins(m, x)
  {
    DecodesToA();
    LetterDecoded();
    UnderscoreLater(x);
    OneKeyLeft(m, x);
  }

  lemma LetterDecoded()
    ensures CS.Decode(LETTER_A) == LETTER_A
  {
    assert LETTER_A[1..] == [] && !HasEscape(LETTER_A);
    DecodeFixedIff(LETTER_A);
  }

  lemma UnderscoreLater(x: Str)
    requires x == CS.Hex4(0x41)
    ensures Less(LETTER_A, x)
  {
  }

  lemma OneKeyLeft(m: map<Str, Value>, x: Str)
    requires KeysInput(m, x) && CS.Decode(x) == LETTER_A && CS.Decode(LETTER_A) == LETTER_A && Less(LETTER_A, x)
    ensures DecodedKeys(m) == {LETTER_A} && Wins(m, x)
  {
    assert LETTER_A in m;
  }

  /** Of the two entries one is left, under the letter, with the value of the other. */
  lemma KeysMerge(h: Heap, m: map<Str, Value>, s: State, limit: int)
    requires KeysInput(m, CS.Hex4(0x41)) && limit >= 2
    requires s.toks == Wrapped(Written(h, Dict(m), s.next).toks) && forall a :: a in s.heap ==> a < s.next
    ensures ReadDocument(s, 0, limit).r == Ok([Dict(map[LETTER_A := Int32(2)])])
  {
    KeysWritten(h, m, s.next);
    var x, w := OneValue(h, Dict(m), s, limit);
    var k := CS.Hex4(0x41);
    KeysDecoded(m, k);
    MergedImage(m, k, x, w);
  }

  lemma MergedImage(m: map<Str, Value>, k: Str, x: Value, w: World)
    requires KeysInput(m, k) && ReadsAs(Dict(m), x, TOP, w) && CS.Decode(k) == LETTER_A
    requires DecodedKeys(m) == {LETTER_A} && Wins(m, k)
    ensures x == Dict(map[LETTER_A := Int32(2)])
  {
    assert ReadsAs(m[k], x.m[LETTER_A], Inside(TOP, Entry(k)), w);
    assert x.m[LETTER_A] == Int32(2);
  }

  // ---------- objects that hold numbers only ----------

  predicate AllNumbers(m: map<Str, Value>) {
    forall k :: k in m ==> m[k].Int32?
  }

  /** The only object of a heap, without type names and with nothing but numbers in it. */
  ghost predicate NumbersInput(h: Heap) {
    h.Keys == {0} && h[0].typeNames == [] && AllNumbers(h[0].members) && AllNumbers(h[0].props)
  }

  lemma {:induction false} FlatProperties(h: Heap, t: Tables, v: Value, keys: seq<Str>, i: nat)
    requires v.Dict? && i <= |keys| && AllNumbers(v.m)
    ensures var e := WriteProperties(h, t, v, keys, i); e.status == Done && e.need <= 1 && e.t == t
    decreases |keys| - i
  {
    if i < |keys| {
      var j, k := i + 1, keys[i];
      var val := if k in v.m then Write(h, t, v.m[k], k) else WriteNil(t, k);
      assert val.status == Done && val.need == 1 && val.t == t;
      FlatProperties(h, t, v, keys, j);
    }
  }

  lemma FlatBag(h: Heap, t: Tables, tag: Tag, v: Value, keys: seq<Str>)
    requires v.Dict? && AllNumbers(v.m)
    ensures var e := WriteBag(h, t, tag, v, keys); e.status == Done && e.need <= 1 && e.t == t
  {
    FlatProperties(h, t, v, keys, 0);
  }

  lemma NumbersWritten(h: Heap, base: int)
    requires NumbersInput(h)
    ensures var e := Written(h, Obj(0), base); e.status == Done && e.need <= 2 && InRange(e.t) && 0 in e.t.objRefs
    ensures Acyclic(h, Obj(0))
  {
    var t := FreshTables(base);
    NumbersObject(h, t, 0, h[0], Entered(t, 0));
    NumbersAcyclic(h);
  }

  lemma NumbersObject(h: Heap, t: Tables, id: int, n: Node, t1: Tables)
    requires id in h && n == h[id] && n.typeNames == [] && AllNumbers(n.members) && AllNumbers(n.props)
    requires id !in t.objRefs && t1 == Entered(t, id)
    ensures var e := WriteObject(h, t, id, []);
            e.status == Done && e.need <= 2 && e.t == t1.(open := t1.open - {id})
  {
    FlatBag(h, t1, MSTag, Dict(n.members), MemberKeys(n));
    FlatBag(h, t1, PropsTag, Dict(n.props), SortedKeys(n.props.Keys));
  }

  lemma NumbersAcyclic(h: Heap)
    requires NumbersInput(h)
    ensures Acyclic(h, Obj(0))
  {
    assert Ranking(h, Obj(0), {0}, map[]);
  }

  lemma NumbersInFront(h: Heap, s: State, limit: int)
    requires NumbersInput(h) && limit >= 2
    requires s.toks == Wrapped(Written(h, Obj(0), s.next).toks) && forall a :: a in s.heap ==> a < s.next
    ensures InFront(h, Obj(0), s, limit) && 0 in Written(h, Obj(0), s.next).t.objRefs
  {
    NumbersWritten(h, s.next);
  }

  const LETTER_B: Str := [0x42]

  /** A member is lost when there is a property under another key. */
  lemma MemberHidden(h: Heap, s: State, limit: int)
    requires h == map[0 := Node([], [], map[LETTER_A := Int32(1)], [], map[LETTER_B := Int32(2)], Null)] && limit >= 2
    requires s.toks == Wrapped(Written(h, Obj(0), s.next).toks) && forall a :: a in s.heap ==> a < s.next
    ensures InFront(h, Obj(0), s, limit) && 0 in Written(h, Obj(0), s.next).t.objRefs
    ensures var y := Arrived(h, Obj(0), s, limit, 0); y.props.Keys == {LETTER_B} && y.members == map[]
  {
    NumbersInFront(h, s, limit);
    NothingLostIff(h, Obj(0), s, limit, 0);
  }

  /** A member is lost when the order of the members does not list it. */
  lemma MemberUnlisted(h: Heap, s: State, limit: int)
    requires h == map[0 := Node([], [], map[LETTER_A := Int32(1), LETTER_B := Int32(2)], [LETTER_B], map[], Null)]
    requires limit >= 2
    requires s.toks == Wrapped(Written(h, Obj(0), s.next).toks) && forall a :: a in s.heap ==> a < s.next
    ensures InFront(h, Obj(0), s, limit) && 0 in Written(h, Obj(0), s.next).t.objRefs
    ensures var y := Arrived(h, Obj(0), s, limit, 0); y.props.Keys == {LETTER_B} && y.members == map[]
  {
    NumbersInFront(h, s, limit);
    NothingLostIff(h, Obj(0), s, limit, 0);
    OneListed(h[0], LETTER_A, LETTER_B);
  }

  lemma OneListed(n: Node, a: Str, b: Str)
    requires n.members == map[a := Int32(1), b := Int32(2)] && n.memberOrder == [b] && n.props == map[]
    requires a != b && b != []
    ensures Shown(n).Keys == {b}
  {
  }

  /** A property without a name is lost. */
  lemma PropertyUnnamed(h: Heap, s: State, limit: int)
    requires h == map[0 := Node([], [], map[], [], map[[] := Int32(1), LETTER_B := Int32(2)], Null)] && limit >= 2
    requires s.toks == Wrapped(Written(h, Obj(0), s.next).toks) && forall a :: a in s.heap ==> a < s.next
    ensures InFront(h, Obj(0), s, limit) && 0 in Written(h, Obj(0), s.next).t.objRefs
    ensures var y := Arrived(h, Obj(0), s, limit, 0); y.props.Keys == {LETTER_B} && y.members == map[]
  {
    NumbersInFront(h, s, limit);
    NothingLostIff(h, Obj(0), s, limit, 0);
  }

  /** The wrapped value is lost. */
  lemma WrappedValueLost(h: Heap, s: State, limit: int)
    requires h == map[0 := Node([], [], map[], [], map[], Int32(1))] && limit >= 2
    requires s.toks == Wrapped(Written(h, Obj(0), s.next).toks) && forall a :: a in s.heap ==> a < s.next
    ensures InFront(h, Obj(0), s, limit) && 0 in Written(h, Obj(0), s.next).t.objRefs
    ensures Arrived(h, Obj(0), s, limit, 0).value == Null
  {
    NumbersInFront(h, s, limit);
    var w := DocumentImage(h, Obj(0), s, limit);
    assert ObjectReadsAs(h, 0, w);
  }

  // ---------- an ill-formed text ----------

  /** A control character, so that the text is encoded, and a byte that is no UTF-8. */
  const ILL_FORMED: Str := [0x01, 0xFF]

  lemma IllFormedRestored()
    ensures CS.Decode(CS.Encode(ILL_FORMED)) == [0x01, 0xEF, 0xBF, 0xBD]
  {
    ControlRune([0xFF]);
    assert [0x01] + [0xFF] == ILL_FORMED;
    CS.RoundTripIff(ILL_FORMED);
    LoneByte();
    assert [0x01] + [0xEF, 0xBF, 0xBD] == [0x01, 0xEF, 0xBF, 0xBD];
  }

  lemma ControlRune(rest: Str)
    ensures CS.NeedsEncoding([0x01] + rest) && Utf8.Sanitize([0x01] + rest) == [0x01] + Utf8.Sanitize(rest)
  {
    var s: Str := [0x01] + rest;
    assert Utf8.DecodeRune(s) == (1, 1) && s[1..] == rest;
  }

  lemma LoneByte()
    ensures Utf8.Sanitize([0xFF]) == [0xEF, 0xBF, 0xBD]
  {
    var s: Str := [0xFF];
    assert Utf8.DecodeRune(s) == (Utf8.RUNE_ERROR, 1) && s[1..] == [];
  }

  /** The byte is replaced by U+FFFD. */
  lemma TextChanged(h: Heap, s: State, limit: int)
    requires limit >= 1
    requires s.toks == Wrapped(Written(h, String(ILL_FORMED), s.next).toks) && forall a :: a in s.heap ==> a < s.next
    ensures ReadDocument(s, 0, limit).r == Ok([String([0x01, 0xEF, 0xBF, 0xBD])])
  {
    assert Ranking(h, String(ILL_FORMED), {}, map[]);
    var x, w := OneValue(h, String(ILL_FORMED), s, limit);
    IllFormedRestored();
  }

  // ---------- a pointer to itself ----------

  /** An object whose only property points to the object. */
  ghost predicate SelfInput(h: Heap, name: Str) {
    h.Keys == {0} && h[0] == Node([], [], map[], [], map[name := Obj(0)], Null)
  }

  lemma SelfIsCyclic(h: Heap, name: Str)
    requires SelfInput(h, name)
    ensures !Acyclic(h, Obj(0))
  {
    if s, rank :| Ranking(h, Obj(0), s, rank) {
      assert PointsTo(Obj(0), 0);
      assert name in h[0].props && NodePointsTo(h[0], 0);
      assert false;
    }
  }

  lemma SelfWritten(h: Heap, name: Str, base: int)
    requires SelfInput(h, name)
    ensures var e := Written(h, Obj(0), base); e.status == Done && InRange(e.t)
  {
    var t := FreshTables(base);
    var t1 := Entered(t, 0);
    var keys := OnlyKey(h[0].props, name);
    SelfProperty(h, t1, Dict(h[0].props), keys);
    SelfObject(h, t, h[0], t1, keys);
  }

  lemma OnlyKey(m: map<Str, Value>, name: Str) returns (keys: seq<Str>)
    requires m.Keys == {name}
    ensures keys == SortedKeys(m.Keys) == [name]
  {
    keys := SortedKeys(m.Keys);
    assert |keys| == 1 && keys[0] in keys;
  }

  lemma SelfObject(h: Heap, t: Tables, n: Node, t1: Tables, keys: seq<Str>)
    requires 0 in h && n == h[0] && n.typeNames == [] && n.members == map[] && keys == SortedKeys(n.props.Keys)
    requires 0 !in t.objRefs && t.next == 0 && t1 == Entered(t, 0)
    requires var ps := WriteBag(h, t1, PropsTag, Dict(n.props), keys); ps.status == Done && ps.t == t1
    ensures var e := Write(h, t, Obj(0), []); e.status == Done && e.t.next == 1
  {
    NoBag(h, t1, MSTag, Dict(n.members), MemberKeys(n));
  }

  lemma SelfProperty(h: Heap, t: Tables, v: Value, keys: seq<Str>)
    requires v.Dict? && |keys| == 1 && keys[0] in v.m && v.m[keys[0]] == Obj(0) && 0 in t.objRefs
    ensures var e := WriteBag(h, t, PropsTag, v, keys); e.status == Done && e.t == t
  {
    var val := Write(h, t, v.m[keys[0]], keys[0]);
    assert val.status == Done && val.t == t;
    var rest := WriteProperties(h, t, v, keys, 1);
    assert rest.status == Done && rest.t == t;
  }

  /** No reader with an empty object table accepts its document, whatever the limit. */
  lemma SelfPointer(h: Heap, name: Str, s: State, limit: int)
    requires SelfInput(h, name) && s.objRefs == map[]
    requires s.toks == Wrapped(Written(h, Obj(0), s.next).toks)
    ensures !Acyclic(h, Obj(0)) && ReadDocument(s, 0, limit).r.Err?
  {
    SelfIsCyclic(h, name);
    SelfWritten(h, name, s.next);
    ReadsBackIff(h, Obj(0), s, limit);
  }
}
