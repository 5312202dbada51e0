/** Documents a server sends: from their tokens to what the pool and the pipelines make of them. */
module ServerDocuments {
  import opened Wrappers
  import opened Bytes
  import opened Clixml
  import opened ClixmlReader
  import opened ClixmlElements
  import H = Handshake
  import M = Messages
  import P = Pipeline
  import Decimal

  /** A new deserializer on the tokens of a message's data. */
  function Deserialized(toks: seq<Token>, limit: int): Option<(seq<Value>, Heap)> {
    var x := ReadDocument(State(toks, map[], map[], map[], 0), 0, limit);
    if x.r.Ok? then Some((x.r.value, x.s.heap)) else None
  }

  /** A document of one object is read as that object, with the last element of each name as its properties. */
  lemma BagDocument(refId: Option<Str>, tag: Tag, xs: seq<Xml>, vs: seq<Value>, limit: int)
    requires AllMean(xs, vs) && limit >= 2 && (tag == MSTag || tag == PropsTag)
    ensures Deserialized(Flat(ObjectWith(refId, tag, xs)), limit)
            == Some(([Obj(0)], map[0 := EMPTY_NODE.(props := Kept(xs, vs, 0, map[]))]))
  {
    var doc := Flat(ObjectWith(refId, tag, xs));
    assert doc + [] == doc;
    ReadsObjectWith(refId, tag, xs, vs, State(doc, map[], map[], map[], 0), [], 0, limit);
  }

  /** What no later element names stays as it was. */
  lemma {:induction false} KeptStays(xs: seq<Xml>, vs: seq<Value>, i: nat, acc: map<Str, Value>, k: Str)
    requires i <= |xs| == |vs| && forall j :: i <= j < |xs| ==> xs[j].Element? && xs[j].name != Some(k)
    ensures k in Kept(xs, vs, i, acc) <==> k in acc
    ensures k in acc ==> Kept(xs, vs, i, acc)[k] == acc[k]
    decreases |xs| - i
  {
    if i < |xs| {
      var name := xs[i].name;
      KeptStays(xs, vs, i + 1, if name.Some? && name.value != [] then acc[name.value := vs[i]] else acc, k);
    }
  }

  /** An element with nothing but text in it. */
  function TextElement(tag: Tag, name: Str, text: Str): Xml {
    Element(tag, Some(name), None, [Chars(text)])
  }

  lemma TextOf(text: Str)
    ensures DirectText([Chars(text)], 0) == text
  {
    assert DirectText([Chars(text)], 1) == [];
    assert text + [] == text;
  }

  lemma NumberMeans(k: Str, n: int32)
    ensures HasValue(TextElement(I32Tag, k, Decimal.Itoa(n)), Int32(n))
  {
    TextOf(Decimal.Itoa(n));
    Decimal.ParseItoa(n, MIN_INT32, MAX_INT32);
  }

  lemma NextKept(xs: seq<Xml>, vs: seq<Value>, i: nat, i1: nat, acc: map<Str, Value>, k: Str)
    requires i < |xs| == |vs| && i1 == i + 1 && xs[i].Element? && xs[i].name == Some(k) && k != []
    ensures Kept(xs, vs, i, acc) == Kept(xs, vs, i1, acc[k := vs[i]])
  {
  }

  // ---------- the capability ----------

  /** A capability is compatible exactly when the last text under its name begins with a 2 and goes on. */
  lemma CapabilityIff(env: H.Environment, m: M.Message, refId: Option<Str>, tag: Tag, xs: seq<Xml>, vs: seq<Value>,
                      limit: int)
    requires AllMean(xs, vs) && limit >= 2 && (tag == MSTag || tag == PropsTag)
    requires env.deserialize(m.data) == Deserialized(Flat(ObjectWith(refId, tag, xs)), limit)
    ensures H.CompatibleCapability(env, m) <==>
              && m.messageType == 0x0001_0002
              && var props, k := Kept(xs, vs, 0, map[]), Ascii("protocolversion");
                 k in props && props[k].String? && |props[k].s| >= 2 && props[k].s[0] == 0x32
  {
    BagDocument(refId, tag, xs, vs, limit);
    var props, k := Kept(xs, vs, 0, map[]), Ascii("protocolversion");
    if k in props && props[k].String? {
      assert H.Says(env, m, "protocolversion", props[k].s);
    }
  }

  /** A protocol version that a Version element states, before any others, is taken as it stands. */
  lemma VersionTaken(env: H.Environment, m: M.Message, refId: Option<Str>, tag: Tag, version: Str, later: seq<Xml>,
                     vs: seq<Value>, limit: int)
    requires AllMean(later, vs) && limit >= 2 && (tag == MSTag || tag == PropsTag)
    requires forall j :: 0 <= j < |later| ==> later[j].Element? && later[j].name != Some(Ascii("protocolversion"))
    requires var xs := [TextElement(VersionTag, Ascii("protocolversion"), version)] + later;
             env.deserialize(m.data) == Deserialized(Flat(ObjectWith(refId, tag, xs)), limit)
    ensures H.Says(env, m, "protocolversion", version)
    ensures H.CompatibleCapability(env, m) <==>
              m.messageType == 0x0001_0002 && |version| >= 2 && version[0] == 0x32
  {
    var k := Ascii("protocolversion");
    var first := TextElement(VersionTag, k, version);
    var xs, ws := [first] + later, [String(version)] + vs;
    TextOf(version);
    forall i | 0 <= i < |xs| ensures HasValue(xs[i], ws[i]) {
      if i > 0 {
        assert HasValue(later[i - 1], vs[i - 1]);
      }
    }
    assert k != [] by { assert |k| == |"protocolversion"|; }
    KeptStays(xs, ws, 1, map[k := String(version)], k);
    CapabilityIff(env, m, refId, tag, xs, ws, limit);
    BagDocument(refId, tag, xs, ws, limit);
  }

  // ---------- the pool's state ----------

  /** Three numbers under three names. */
  function NumberElements(a: Str, b: Str, c: Str, n: int32, min: int32, max: int32): seq<Xml> {
    [TextElement(I32Tag, a, Decimal.Itoa(n)), TextElement(I32Tag, b, Decimal.Itoa(min)),
     TextElement(I32Tag, c, Decimal.Itoa(max))]
  }

  lemma NumbersKept(a: Str, b: Str, c: Str, n: int32, min: int32, max: int32, vs: seq<Value>)
    requires a != [] && b != [] && c != [] && vs == [Int32(n), Int32(min), Int32(max)]
    ensures AllMean(NumberElements(a, b, c, n, min, max), vs)
    ensures Kept(NumberElements(a, b, c, n, min, max), vs, 0, map[])
            == map[a := Int32(n)][b := Int32(min)][c := Int32(max)]
  {
    var xs := NumberElements(a, b, c, n, min, max);
    NumberMeans(a, n);
    NumberMeans(b, min);
    NumberMeans(c, max);
    NextKept(xs, vs, 0, 1, map[], a);
    NextKept(xs, vs, 1, 2, map[a := vs[0]], b);
    NextKept(xs, vs, 2, 3, map[a := vs[0]][b := vs[1]], c);
  }

  /** The document of an opened pool: it says Opened and names the counts, whatever the pool's own are. */
  lemma OpenedDocument(env: H.Environment, m: M.Message, refId: Option<Str>, tag: Tag, n: int32, min: int32,
                       max: int32, ownMin: int, ownMax: int, limit: int)
    requires limit >= 2 && (tag == MSTag || tag == PropsTag) && min > 0 && max > 0 && m.messageType == 0x0002_1005
    requires var xs := NumberElements(Ascii("RunspaceState"), Ascii("MinRunspaces"), Ascii("MaxRunspaces"), n, min,
                                      max);
             env.deserialize(m.data) == Deserialized(Flat(ObjectWith(refId, tag, xs)), limit)
    ensures H.SaysOpened(env, m) <==> n == 2
    ensures H.Negotiated(env, m, ownMin, ownMax, min, max)
  {
    var a, b, c := Ascii("RunspaceState"), Ascii("MinRunspaces"), Ascii("MaxRunspaces");
    NamesApart();
    var heap := NumbersDocument(refId, tag, a, b, c, n, min, max, limit);
    SaysAndAgrees(env, m, heap, n, min, max, ownMin, ownMax);
  }

  predicate NumberUnder(props: map<Str, Value>, k: Str, n: int32) {
    k in props && props[k] == Int32(n)
  }

  lemma NumbersDocument(refId: Option<Str>, tag: Tag, a: Str, b: Str, c: Str, n: int32, min: int32, max: int32,
                        limit: int) returns (heap: Heap)
    requires limit >= 2 && (tag == MSTag || tag == PropsTag)
    requires a != [] && b != [] && c != [] && a != b && a != c && b != c
    ensures Deserialized(Flat(ObjectWith(refId, tag, NumberElements(a, b, c, n, min, max))), limit)
            == Some(([Obj(0)], heap))
    ensures 0 in heap && NumberUnder(heap[0].props, a, n) && NumberUnder(heap[0].props, b, min)
    ensures NumberUnder(heap[0].props, c, max)
  {
    var vs := [Int32(n), Int32(min), Int32(max)];
    NumbersKept(a, b, c, n, min, max, vs);
    BagDocument(refId, tag, NumberElements(a, b, c, n, min, max), vs, limit);
    heap := map[0 := EMPTY_NODE.(props := map[a := Int32(n)][b := Int32(min)][c := Int32(max)])];
  }

  lemma SaysAndAgrees(env: H.Environment, m: M.Message, heap: Heap, n: int32, min: int32, max: int32, ownMin: int,
                      ownMax: int)
    requires m.messageType == 0x0002_1005 && env.deserialize(m.data) == Some(([Obj(0)], heap)) && 0 in heap
    requires NumberUnder(heap[0].props, Ascii("RunspaceState"), n) && min > 0 && max > 0
    requires NumberUnder(heap[0].props, Ascii("MinRunspaces"), min)
    requires NumberUnder(heap[0].props, Ascii("MaxRunspaces"), max)
    ensures H.SaysOpened(env, m) <==> n == 2
    ensures H.Negotiated(env, m, ownMin, ownMax, min, max)
  {
  }

  lemma NamesApart()
    ensures Ascii("RunspaceState") != Ascii("MinRunspaces") && Ascii("RunspaceState") != Ascii("MaxRunspaces")
    ensures Ascii("MinRunspaces") != Ascii("MaxRunspaces") && Ascii("RunspaceState") != []
    ensures Ascii("MinRunspaces") != [] && Ascii("MaxRunspaces") != []
  {
    assert Ascii("MinRunspaces")[1] == 'i' as int && Ascii("MaxRunspaces")[1] == 'a' as int;
    assert |Ascii("RunspaceState")| == 13 && |Ascii("MinRunspaces")| == 12 && |Ascii("MaxRunspaces")| == 12;
  }

  // ---------- a pipeline's state ----------

  /** The document of a pipeline's state is read as the number in it. */
  lemma PipelineDocument(refId: Option<Str>, tag: Tag, n: int32, limit: int)
    requires limit >= 2 && (tag == MSTag || tag == PropsTag)
    ensures var xs := [TextElement(I32Tag, Ascii("PipelineState"), Decimal.Itoa(n))];
            P.ReadState(Deserialized(Flat(ObjectWith(refId, tag, xs)), limit)) == P.Number(n, None)
  {
    var k := Ascii("PipelineState");
    var xs, vs := [TextElement(I32Tag, k, Decimal.Itoa(n))], [Int32(n)];
    NumberMeans(k, n);
    BagDocument(refId, tag, xs, vs, limit);
    assert |k| == 13;
    NextKept(xs, vs, 0, 1, map[], k);
    StateAlone(k, n, map[0 := EMPTY_NODE.(props := map[k := Int32(n)])]);
  }

  lemma StateAlone(k: Str, n: int32, heap: Heap)
    requires k == Ascii("PipelineState") && 0 in heap && heap[0] == EMPTY_NODE.(props := map[k := Int32(n)])
    ensures P.ReadState(Some(([Obj(0)], heap))) == P.Number(n, None)
  {
    assert |k| == 13 && |Ascii("ExceptionAsErrorRecord")| == 22;
  }
}
