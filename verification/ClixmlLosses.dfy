/**
 What does not come back: exactly when an object loses members, properties, its wrapped value or
 its type names on the way through a document, and a hashtable its keys. ClixmlInputs has a document
 for each of these losses.
 */
module ClixmlLosses {
  import opened Wrappers
  import opened Clixml
  import opened ClixmlWriter
  import opened ClixmlReader
  import opened ClixmlDocument
  import opened ClixmlNames
  import opened ClixmlImage
  import opened ClixmlIsomorphism
  import opened ClixmlCanonical
  import CS = ClixmlString

  /** The object that stands for o after the document of v has been read. */
  ghost function Arrived(h: Heap, v: Value, s: State, limit: int, o: int): Node
    requires InFront(h, v, s, limit) && o in Written(h, v, s.next).t.objRefs
  {
    HasArrived(h, v, s, limit, o);
    ReadDocument(s, 0, limit).s.heap[Address(Written(h, v, s.next).t, o)]
  }

  lemma HasArrived(h: Heap, v: Value, s: State, limit: int, o: int)
    requires InFront(h, v, s, limit) && o in Written(h, v, s.next).t.objRefs
    ensures Address(Written(h, v, s.next).t, o) in ReadDocument(s, 0, limit).s.heap
  {
    var w := DocumentImage(h, v, s, limit);
    assert ObjectReadsAs(h, o, w);
  }

  // ---------- members and properties ----------

  /** Everything is shown exactly when everything has a name and is listed, and properties hide no member. */
  lemma AllShownIff(n: Node)
    ensures n.members.Keys + n.props.Keys <= Shown(n).Keys <==>
              && [] !in n.members && [] !in n.props
              && (if n.props != map[] then n.members.Keys <= n.props.Keys
                  else forall k :: k in n.members ==> k in MemberKeys(n))
  {
    if n.members.Keys + n.props.Keys <= Shown(n).Keys {
      forall k | k in n.members ensures k in Shown(n) {
        assert k in n.members.Keys + n.props.Keys;
      }
      forall k | k in n.props ensures k in Shown(n) {
        assert k in n.members.Keys + n.props.Keys;
      }
    }
  }

  /** What becomes of one object: which of its members and properties are still there, and its wrapped value. */
  lemma NothingLostIff(h: Heap, v: Value, s: State, limit: int, o: int)
    requires InFront(h, v, s, limit) && o in Written(h, v, s.next).t.objRefs
    ensures o in h
    ensures var n, y := h[o], Arrived(h, v, s, limit, o);
            && y.props.Keys == Shown(n).Keys && y.members == map[]
            && (n.members.Keys + n.props.Keys <= y.props.Keys <==>
                  && [] !in n.members && [] !in n.props
                  && (if n.props != map[] then n.members.Keys <= n.props.Keys
                      else forall k :: k in n.members ==> k in MemberKeys(n)))
            && (y.value == n.value <==> n.value == Null)
  {
    var w := DocumentImage(h, v, s, limit);
    assert o in w.t.objRefs && ObjectReadsAs(h, o, w);
    ShownIsRead(h[o], w.nodes[Address(w.t, o)], o, w);
    AllShownIff(h[o]);
  }

  // ---------- hashtables ----------

  /** The one value of a document. */
  lemma OneValue(h: Heap, v: Value, s: State, limit: int) returns (x: Value, w: World)
    requires InFront(h, v, s, limit)
    ensures ReadDocument(s, 0, limit).r == Ok([x]) && ReadsAs(v, x, TOP, w) && w.t == Written(h, v, s.next).t
  {
    w := DocumentImage(h, v, s, limit);
    var xs := ReadDocument(s, 0, limit).r.value;
    x := xs[0];
    assert xs == [x];
  }

  /** A hashtable on its own, as a document: which keys come back, and when they are those written. */
  lemma HashtableReadBackIff(h: Heap, m: map<Str, Value>, s: State, limit: int) returns (y: map<Str, Value>)
    requires InFront(h, Dict(m), s, limit)
    ensures ReadDocument(s, 0, limit).r == Ok([Dict(y)])
    ensures forall d :: d in y <==> exists k :: k in m && CS.Decode(k) == d
    ensures y.Keys == m.Keys <==> forall k :: k in m ==> !HasEscape(k)
  {
    var x, w := OneValue(h, Dict(m), s, limit);
    HashtableKeptIff(m, x, TOP, w);
    y := x.m;
    KeysAre(m, y);
  }

  lemma KeysAre(m: map<Str, Value>, y: map<Str, Value>)
    requires y.Keys == DecodedKeys(m)
    ensures forall d :: d in y <==> exists k :: k in m && CS.Decode(k) == d
  {
    assert forall d :: d in y <==> d in DecodedKeys(m);
  }

  // ---------- type names ----------

  /** Each object gets the first list filed under the joined text of its own. */
  lemma NamesReadBack(h: Heap, v: Value, s: State, limit: int, o: int)
    requires InFront(h, v, s, limit) && o in Written(h, v, s.next).t.objRefs
    ensures o in h && o in Walk(h, {}, v).seen
    ensures Arrived(h, v, s, limit, o).typeNames
            == if h[o].typeNames == [] then [] else First(AllFilings(h, v), Join(h[o].typeNames))
  {
    var w := DocumentImage(h, v, s, limit);
    assert o in w.t.objRefs && ObjectReadsAs(h, o, w);
  }

  ghost predicate KeepsNames(h: Heap, v: Value, s: State, limit: int, o: int)
    requires InFront(h, v, s, limit) && o in Written(h, v, s.next).t.objRefs
  {
    o in h && Arrived(h, v, s, limit, o).typeNames == h[o].typeNames
  }

  ghost predicate AsksFirst(h: Heap, v: Value, o: int) {
    o in h && NamesKept(h[o].typeNames, AllFilings(h, v))
  }

  /** All objects keep their names exactly when each one's list is the first filed under its joined text. */
  lemma AllNamesKeptIff(h: Heap, v: Value, s: State, limit: int)
    requires InFront(h, v, s, limit)
    ensures (forall o :: o in Written(h, v, s.next).t.objRefs ==> KeepsNames(h, v, s, limit, o)) <==>
            (forall o :: o in Written(h, v, s.next).t.objRefs ==> AsksFirst(h, v, o))
  {
    forall o | o in Written(h, v, s.next).t.objRefs
      ensures KeepsNames(h, v, s, limit, o) <==> AsksFirst(h, v, o)
    {
      NamesReadBack(h, v, s, limit, o);
    }
  }

  /** Of two objects with different lists but the same joined text, one at least loses its names. */
  lemma NeverBothKept(h: Heap, v: Value, s: State, limit: int, o: int, p: int)
    requires InFront(h, v, s, limit) && o in Written(h, v, s.next).t.objRefs && p in Written(h, v, s.next).t.objRefs
    requires o in h && p in h && h[o].typeNames != [] && h[p].typeNames != []
    requires h[o].typeNames != h[p].typeNames && Join(h[o].typeNames) == Join(h[p].typeNames)
    ensures var y, z := Arrived(h, v, s, limit, o), Arrived(h, v, s, limit, p);
            y.typeNames == z.typeNames && (y.typeNames != h[o].typeNames || z.typeNames != h[p].typeNames)
  {
    NamesReadBack(h, v, s, limit, o);
    NamesReadBack(h, v, s, limit, p);
  }

  /** Where no list has a bar in it, and none is just the hashtable's name, all objects keep their names. */
  lemma CleanNamesKept(h: Heap, v: Value, s: State, limit: int, o: int)
    requires InFront(h, v, s, limit) && o in Written(h, v, s.next).t.objRefs
    requires forall f :: f in AllFilings(h, v) ==> CleanNames(f.names)
    ensures o in h && Arrived(h, v, s, limit, o).typeNames == h[o].typeNames
  {
    NamesReadBack(h, v, s, limit, o);
    WalkFilesAll(h, {}, v);
    if h[o].typeNames != [] {
      assert NodeFiled(h[o], AllFilings(h, v));
      CleanIsFirst(h, v, Filing(Join(h[o].typeNames), h[o].typeNames));
    }
  }
}
