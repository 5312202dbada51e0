/**
 What the deserializer makes of elements that the serializer need not have written: any XML
 element, with whatever stands in it.
 */
module ClixmlElements {
  import opened Wrappers
  import opened Bytes
  import opened Sequences
  import opened Clixml
  import opened ClixmlReader
  import CS = ClixmlString
  import Decimal
  import Base64
  import Guid

  datatype Xml =
    | Chars(text: Str)
    | Element(tag: Tag, name: Option<Str>, refId: Option<Str>, children: seq<Xml>)

  /** The tokens of an element, and of its content. */
  function Flat(x: Xml): seq<Token>
    decreases x, 0
  {
    match x
    case Chars(text) => [Text(text)]
    case Element(tag, name, refId, children) =>
      [Start(tag, name, refId)] + (FlatAll(children, 0) + [End(tag)])
  }

  function FlatAll(xs: seq<Xml>, i: nat): seq<Token>
    requires i <= |xs|
    decreases xs, |xs| - i
  {
    if i == |xs| then [] else Flat(xs[i]) + FlatAll(xs, i + 1)
  }

  /** The character data directly inside, that of inner elements left out. */
  function DirectText(xs: seq<Xml>, i: nat): Str
    requires i <= |xs|
    decreases |xs| - i
  {
    if i == |xs| then [] else (if xs[i].Chars? then xs[i].text else []) + DirectText(xs, i + 1)
  }

  // ---------- skipping and text ----------

  /** Whatever an element holds is skipped with it. */
  lemma {:induction false} SkipsElement(x: Xml, rest: seq<Token>, depth: nat)
    ensures Skip(Flat(x) + rest, depth) == Skip(rest, depth)
    decreases x, 0
  {
    if x.Element? {
      var inner := FlatAll(x.children, 0);
      var after := [End(x.tag)] + rest;
      assert Flat(x) + rest == [Start(x.tag, x.name, x.refId)] + (inner + after);
      SkipsAll(x.children, 0, after, depth + 1);
      assert after[1..] == rest;
    }
  }

  lemma {:induction false} SkipsAll(xs: seq<Xml>, i: nat, rest: seq<Token>, depth: nat)
    requires i <= |xs|
    ensures Skip(FlatAll(xs, i) + rest, depth) == Skip(rest, depth)
    decreases xs, |xs| - i
  {
    if i == |xs| {
      assert [] + rest == rest;
    } else {
      var later := FlatAll(xs, i + 1);
      Regroup2(Flat(xs[i]), later, rest);
      SkipsElement(xs[i], later + rest, depth);
      SkipsAll(xs, i + 1, rest, depth);
    }
  }

  /** The text of an element is the character data directly inside it. */
  lemma {:induction false} ReadsDirectText(xs: seq<Xml>, i: nat, tag: Tag, rest: seq<Token>, before: Str)
    requires i <= |xs|
    ensures ReadText(FlatAll(xs, i) + ([End(tag)] + rest), before) == Some((before + DirectText(xs, i), rest))
    decreases |xs| - i
  {
    var end := [End(tag)] + rest;
    if i == |xs| {
      assert [] + end == end && end[1..] == rest && before + [] == before;
    } else {
      var later := FlatAll(xs, i + 1) + end;
      Regroup2(Flat(xs[i]), FlatAll(xs, i + 1), end);
      match xs[i]
      case Chars(text) =>
        assert ([Text(text)] + later)[1..] == later;
        ReadsDirectText(xs, i + 1, tag, rest, before + text);
        assert before + text + DirectText(xs, i + 1) == before + (text + DirectText(xs, i + 1));
      case Element(t, name, refId, children) =>
        ElementSkippedInText(xs[i], later, before);
        ReadsDirectText(xs, i + 1, tag, rest, before);
        assert [] + DirectText(xs, i + 1) == DirectText(xs, i + 1);
    }
  }

  lemma ElementSkippedInText(x: Xml, later: seq<Token>, before: Str)
    requires x.Element?
    ensures ReadText(Flat(x) + later, before) == ReadText(later, before)
  {
    var inner, after := FlatAll(x.children, 0), [End(x.tag)] + later;
    assert Flat(x) + later == [Start(x.tag, x.name, x.refId)] + (inner + after);
    SkipsAll(x.children, 0, after, 0);
    assert after[1..] == later;
  }

  // ---------- leaves and unknown elements ----------

  /** Elements whose value does not depend on the reader's tables. */
  predicate IsSimple(tag: Tag) {
    tag != LSTTag && tag != DCTTag && tag != ObjTag && tag != RefTag
  }

  const TRUE_TEXT: seq<byte> := [0x74, 0x72, 0x75, 0x65]

  /** The value of such an element, given the text directly inside it. */
  ghost predicate Means(tag: Tag, text: Str, r: Result<Value, Error>) {
    match tag
    case STag => r == Ok(String(CS.Decode(text)))
    case SBTag => r == Ok(ScriptBlock(CS.Decode(text)))
    case VersionTag => r == Ok(String(text))
    case BTag => r == Ok(Bool(text == TRUE_TEXT))
    case I32Tag =>
      (r.Err? || r.value.Int32?) &&
      forall n: int32 :: r == Ok(Int32(n)) <==> Decimal.ParseInt(text, -0x8000_0000, 0x7FFF_FFFF) == Some(n)
    case I64Tag =>
      (r.Err? || r.value.Int64?) &&
      forall n: int64 ::
        r == Ok(Int64(n)) <==> Decimal.ParseInt(text, -0x8000_0000_0000_0000, 0x7FFF_FFFF_FFFF_FFFF) == Some(n)
    case BATag =>
      (r.Err? || r.value.ByteArray?) && forall b :: r == Ok(ByteArray(b)) <==> Base64.Decode(text) == Some(b)
    case GTag => (r.Err? || r.value.Uuid?) && forall g :: r == Ok(Uuid(g)) <==> Guid.Parse(text) == Some(g)
    case _ => r == Ok(Null)
  }

  /** Any simple element, whatever is in it, has the value its text means and is taken off the tokens. */
  lemma ReadsSimple(x: Xml, s: State, rest: seq<Token>, d: nat, limit: int)
    requires x.Element? && IsSimple(x.tag) && d < limit && s.toks == Flat(x) + rest
    ensures s.toks != [] && s.toks[0] == Start(x.tag, x.name, x.refId)
    ensures var e := ReadElement(Tail(s), s.toks[0], d, limit);
            e.s == s.(toks := rest) && Means(x.tag, DirectText(x.children, 0), e.r)
  {
    var inner, after := FlatAll(x.children, 0), [End(x.tag)] + rest;
    Head(Start(x.tag, x.name, x.refId), inner + after);
    assert s.toks == [Start(x.tag, x.name, x.refId)] + (inner + after);
    if IsLeafTag(x.tag) {
      ReadsDirectText(x.children, 0, x.tag, rest, []);
      assert [] + DirectText(x.children, 0) == DirectText(x.children, 0);
      TrueText();
    } else {
      SkipsAll(x.children, 0, after, 0);
      assert after[1..] == rest;
    }
  }

  lemma TrueText()
    ensures TRUE == TRUE_TEXT
  {
  }

  /** Too deep, no element is read at all. */
  lemma NothingTooDeep(s: State, t: Token, d: nat, limit: int)
    requires t.Start? && d >= limit
    ensures ReadElement(s, t, d, limit) == Reading(Err(TooDeep), s)
  {
  }

  // ---------- properties ----------

  /** A property: any simple element with a name of its own is kept under it, one without is dropped. */
  lemma ReadsProperty(x: Xml, s: State, rest: seq<Token>, acc: map<Str, Value>, d: nat, limit: int, v: Value)
    requires x.Element? && IsSimple(x.tag) && d < limit && s.toks == Flat(x) + rest
    requires ReadElement(Tail(s), s.toks[0], d, limit).r == Ok(v)
    ensures ReadProperties(s, acc, d, limit)
            == ReadProperties(s.(toks := rest),
                              if x.name.Some? && x.name.value != [] then acc[x.name.value := v] else acc, d, limit)
  {
    ReadsSimple(x, s, rest, d, limit);
  }

  lemma MeansOnce(tag: Tag, text: Str, r: Result<Value, Error>, v: Value)
    requires Means(tag, text, r) && Means(tag, text, Ok(v))
    ensures r == Ok(v)
  {
  }

  /** A simple element with the value v. */
  ghost predicate HasValue(x: Xml, v: Value) {
    x.Element? && IsSimple(x.tag) && Means(x.tag, DirectText(x.children, 0), Ok(v))
  }

  ghost predicate AllMean(xs: seq<Xml>, vs: seq<Value>) {
    |vs| == |xs| && forall i :: 0 <= i < |xs| ==> HasValue(xs[i], vs[i])
  }

  /** The named ones among them, the last under each name. */
  function Kept(xs: seq<Xml>, vs: seq<Value>, i: nat, acc: map<Str, Value>): map<Str, Value>
    requires i <= |xs| == |vs|
    decreases |xs| - i
  {
    if i == |xs| then acc
    else if xs[i].Chars? then Kept(xs, vs, i + 1, acc)
    else
      var name := xs[i].name;
      Kept(xs, vs, i + 1, if name.Some? && name.value != [] then acc[name.value := vs[i]] else acc)
  }

  lemma {:induction false} ReadsBag(xs: seq<Xml>, vs: seq<Value>, i: nat, tag: Tag, s: State, rest: seq<Token>,
                                    acc: map<Str, Value>, d: nat, limit: int)
    requires AllMean(xs, vs) && i <= |xs| && d < limit && (tag == MSTag || tag == PropsTag)
    requires s.toks == FlatAll(xs, i) + ([End(tag)] + rest)
    ensures ReadProperties(s, acc, d, limit) == Reading(Ok(Kept(xs, vs, i, acc)), s.(toks := rest))
    decreases |xs| - i
  {
    var end := [End(tag)] + rest;
    Head(End(tag), rest);
    if i == |xs| {
      assert s.toks == end;
    } else {
      var x, j := xs[i], i + 1;
      var later := FlatAll(xs, j) + end;
      Regroup2(Flat(x), FlatAll(xs, j), end);
      assert HasValue(x, vs[i]);
      ReadsSimple(x, s, later, d, limit);
      MeansOnce(x.tag, DirectText(x.children, 0), ReadElement(Tail(s), s.toks[0], d, limit).r, vs[i]);
      ReadsProperty(x, s, later, acc, d, limit, vs[i]);
      var acc' := if x.name.Some? && x.name.value != [] then acc[x.name.value := vs[i]] else acc;
      ReadsBag(xs, vs, j, tag, s.(toks := later), rest, acc', d, limit);
    }
  }

  /** An object with one bag of such elements in it. */
  function ObjectWith(refId: Option<Str>, tag: Tag, xs: seq<Xml>): Xml {
    Element(ObjTag, None, refId, [Element(tag, None, None, xs)])
  }

  lemma ObjectTokens(refId: Option<Str>, tag: Tag, xs: seq<Xml>, rest: seq<Token>)
    ensures Flat(ObjectWith(refId, tag, xs)) + rest
            == [Start(ObjTag, None, refId)]
               + ([Start(tag, None, None)] + (FlatAll(xs, 0) + ([End(tag)] + ([End(ObjTag)] + rest))))
  {
    var bag := Element(tag, None, None, xs);
    assert FlatAll([bag], 1) == [];
    assert FlatAll([bag], 0) == Flat(bag) + [];
    assert Flat(bag) + [] == Flat(bag);
  }

  /** It is read as an object at the next address, with the bag as its properties. */
  lemma ReadsObjectWith(refId: Option<Str>, tag: Tag, xs: seq<Xml>, vs: seq<Value>, s: State, rest: seq<Token>,
                        d: nat, limit: int)
    requires AllMean(xs, vs) && d + 1 < limit && (tag == MSTag || tag == PropsTag)
    requires s.toks == Flat(ObjectWith(refId, tag, xs)) + rest
    ensures s.toks != [] && s.toks[0] == Start(ObjTag, None, refId)
    ensures var e := ReadElement(Tail(s), s.toks[0], d, limit);
            && e.r == Ok(Obj(s.next)) && e.s.toks == rest && e.s.next == s.next + 1
            && e.s.heap == s.heap[s.next := EMPTY_NODE.(props := Kept(xs, vs, 0, map[]))]
  {
    ObjectTokens(refId, tag, xs, rest);
    var end := [End(ObjTag)] + rest;
    var inner := FlatAll(xs, 0) + ([End(tag)] + end);
    Head(Start(ObjTag, None, refId), [Start(tag, None, None)] + inner);
    Head(Start(tag, None, None), inner);
    Head(End(ObjTag), rest);
    var d1 := d + 1;
    var s2 := s.(toks := inner, next := s.next + 1);
    ReadsBag(xs, vs, 0, tag, s2, end, map[], d1, limit);
    BagInObject(s2.(toks := [Start(tag, None, None)] + inner), RefIdOf(s.toks[0]), s.next, tag, inner, end, rest,
                Kept(xs, vs, 0, map[]), d1, limit);
  }

  lemma BagInObject(s: State, ref: Option<int>, addr: int, tag: Tag, inner: seq<Token>, end: seq<Token>,
                    rest: seq<Token>, m: map<Str, Value>, d: nat, limit: int)
    requires (tag == MSTag || tag == PropsTag) && s.toks == [Start(tag, None, None)] + inner
    requires end == [End(ObjTag)] + rest
    requires ReadProperties(s.(toks := inner), map[], d, limit) == Reading(Ok(m), s.(toks := end))
    ensures var e := ReadObject(s, ref, addr, EMPTY_NODE, false, d, limit);
            && e.r == Ok(Obj(addr)) && e.s.toks == rest && e.s.next == s.next
            && e.s.heap == s.heap[addr := EMPTY_NODE.(props := m)]
  {
    Head(Start(tag, None, None), inner);
    Head(End(ObjTag), rest);
    assert Tail(s) == s.(toks := inner);
  }

  // ---------- other elements directly inside an object ----------

  /** A simple element in an object: a nil changes nothing, a named value is a property, an unnamed one is wrapped. */
  lemma ReadsInner(x: Xml, s: State, rest: seq<Token>, ref: Option<int>, addr: int, n: Node, hasDict: bool, d: nat,
                   limit: int, v: Value)
    requires x.Element? && IsSimple(x.tag) && d < limit && s.toks == Flat(x) + rest
    requires x.tag !in {TNTag, TNRefTag, ToStringTag, PropsTag, MSTag}
    requires ReadElement(Tail(s), s.toks[0], d, limit).r == Ok(v)
    ensures ReadObject(s, ref, addr, n, hasDict, d, limit)
            == ReadObject(s.(toks := rest), ref, addr,
                          if v == Null then n
                          else if x.name.Some? && x.name.value != [] then n.(props := n.props[x.name.value := v])
                          else n.(value := v), hasDict, d, limit)
  {
    ReadsSimple(x, s, rest, d, limit);
  }

  /** A reference to type names: those on record under its id, if it has an id and there are any, whatever is in it. */
  lemma ReadsTypeNameRef(x: Xml, s: State, rest: seq<Token>, ref: Option<int>, addr: int, n: Node, hasDict: bool,
                         d: nat, limit: int, id: Option<int>)
    requires x.Element? && x.tag == TNRefTag && s.toks == Flat(x) + rest
    requires id == match x.refId case None => None case Some(text) => Decimal.Denoted(text)
    ensures ReadObject(s, ref, addr, n, hasDict, d, limit)
            == ReadObject(s.(toks := rest), ref, addr,
                          if id.Some? && id.value in s.tnRefs then n.(typeNames := s.tnRefs[id.value]) else n,
                          hasDict, d, limit)
  {
    var inner, after := FlatAll(x.children, 0), [End(x.tag)] + rest;
    Head(Start(x.tag, x.name, x.refId), inner + after);
    assert s.toks == [Start(x.tag, x.name, x.refId)] + (inner + after);
    SkipsAll(x.children, 0, after, 0);
    assert after[1..] == rest;
  }

  /** The string of an object is the decoded text directly inside. */
  lemma ReadsToString(x: Xml, s: State, rest: seq<Token>, ref: Option<int>, addr: int, n: Node, hasDict: bool,
                      d: nat, limit: int)
    requires x.Element? && x.tag == ToStringTag && s.toks == Flat(x) + rest
    ensures ReadObject(s, ref, addr, n, hasDict, d, limit)
            == ReadObject(s.(toks := rest), ref, addr, n.(toString := CS.Decode(DirectText(x.children, 0))), hasDict,
                          d, limit)
  {
    var inner, after := FlatAll(x.children, 0), [End(x.tag)] + rest;
    Head(Start(x.tag, x.name, x.refId), inner + after);
    assert s.toks == [Start(x.tag, x.name, x.refId)] + (inner + after);
    ReadsDirectText(x.children, 0, x.tag, rest, []);
    assert [] + DirectText(x.children, 0) == DirectText(x.children, 0);
  }

  // ---------- hashtables and ends ----------

  predicate NamedHashtable(n: Node) {
    n.typeNames != [] && n.typeNames[0] == Ascii("System.Collections.Hashtable")
  }

  /** Entries in an object: they are its value if its first type name says hashtable, and else more properties. */
  lemma ReadsEntriesInside(s: State, after: State, m: map<Str, Value>, ref: Option<int>, addr: int, n: Node,
                           hasDict: bool, d: nat, limit: int)
    requires s.toks != [] && s.toks[0].Start? && s.toks[0].tag == DCTTag
    requires ReadDict(Tail(s), map[], d, limit) == Reading(Ok(m), after)
    ensures ReadObject(s, ref, addr, n, hasDict, d, limit)
            == if NamedHashtable(n) then
                 Reading(Ok(Dict(m)),
                         if ref.Some? then after.(objRefs := after.objRefs[ref.value := Dict(m)]) else after)
               else ReadObject(after, ref, addr, n.(props := n.props + m), true, d, limit)
  {
  }

  /** The end of an object: it is on the heap, and on record under its id unless it holds the entries of a hashtable. */
  lemma ReadsEnd(s: State, ref: Option<int>, addr: int, n: Node, hasDict: bool, d: nat, limit: int)
    requires s.toks != [] && s.toks[0] == End(ObjTag)
    ensures var kept := s.(toks := s.toks[1..], heap := s.heap[addr := n]);
            ReadObject(s, ref, addr, n, hasDict, d, limit)
            == Reading(Ok(Obj(addr)),
                       if ref.None? || (hasDict && NamedHashtable(n)) then kept
                       else kept.(objRefs := kept.objRefs[ref.value := Obj(addr)]))
  {
  }
}
