/**
 A document seen as plain tokens: a single pass over them finds every id in document order, each
 once, and how deeply values are nested.
 */
module ClixmlScan {
  import opened Wrappers
  import opened Sequences
  import opened Clixml
  import opened ClixmlWriter
  import opened ClixmlTables
  import opened ClixmlReader
  import opened ClixmlRoundTrip
  import opened ClixmlReadBack
  import opened ClixmlDocument
  import opened ClixmlCycles
  import opened ClixmlNames
  import Decimal

  /**
   What a pass has seen: the Obj elements open now, the deepest value element, counted with the
   Obj elements around it, the ids of the Obj and TN elements in the order of their start tags,
   and the names in each TN element; naming says that a name is being read.
   */
  datatype Seen = Seen(
    open: int,
    deepest: nat,
    objIds: seq<Option<Str>>,
    tnIds: seq<Option<Str>>,
    lists: seq<seq<Str>>,
    naming: bool)

  const FRESH: Seen := Seen(0, 0, [], [], [], false)

  predicate IsValueTag(tag: Tag) {
    tag in {ObjTag, RefTag, NilTag, STag, I32Tag, I64Tag, BTag, BATag, GTag, SBTag, VersionTag}
  }

  /** The last element of s, replaced. */
  function WithLast<T>(s: seq<T>, x: T): seq<T>
    requires s != []
  {
    s[..|s| - 1] + [x]
  }

  function Last<T>(s: seq<T>): T
    requires s != []
  {
    s[|s| - 1]
  }

  /** One more name in the list at hand. */
  function NewName(lists: seq<seq<Str>>): seq<seq<Str>> {
    if lists == [] then [] else WithLast(lists, Last(lists) + [[]])
  }

  /** More text in the name at hand. */
  function MoreName(lists: seq<seq<Str>>, text: Str): seq<seq<Str>> {
    if lists == [] || Last(lists) == [] then lists
    else WithLast(lists, WithLast(Last(lists), Last(Last(lists)) + text))
  }

  function Step(c: Seen, x: Token): Seen {
    match x
    case Start(tag, _, id) =>
      if tag == ObjTag then c.(open := c.open + 1, deepest := Deeper(c.deepest, c.open + 1), objIds := c.objIds + [id])
      else if tag == TNTag then c.(tnIds := c.tnIds + [id], lists := c.lists + [[]])
      else if tag == TTag then c.(lists := NewName(c.lists), naming := true)
      else if IsValueTag(tag) then c.(deepest := Deeper(c.deepest, c.open + 1))
      else c
    case End(tag) => if tag == ObjTag then c.(open := c.open - 1) else if tag == TTag then c.(naming := false) else c
    case Text(text) => if c.naming then c.(lists := MoreName(c.lists, text)) else c
  }

  predicate Ready(c: Seen) {
    c.open >= 0 && !c.naming
  }

  function Deeper(a: nat, b: int): nat {
    if a < b then b else a
  }

  function Pass(c: Seen, toks: seq<Token>): Seen
    decreases |toks|
  {
    if toks == [] then c else Pass(Step(c, toks[0]), toks[1..])
  }

  /** The ids from a up to but not b, as they are written. */
  function Ids(a: nat, b: nat): (s: seq<Option<Str>>)
    requires a <= b
    ensures |s| == b - a && forall i :: 0 <= i < |s| ==> s[i] == Some(Decimal.Itoa(a + i))
    decreases b
  {
    if a == b then [] else Ids(a, b - 1) + [Some(Decimal.Itoa(b - 1))]
  }

  lemma IdsJoin(a: nat, b: nat, c: nat)
    requires a <= b <= c
    ensures Ids(a, b) + Ids(b, c) == Ids(a, c)
  {
  }

  lemma {:induction false} PassJoins(c: Seen, a: seq<Token>, b: seq<Token>)
    ensures Pass(c, a + b) == Pass(Pass(c, a), b)
    decreases |a|
  {
    if a == [] {
      assert a + b == b;
    } else {
      assert (a + b)[1..] == a[1..] + b;
      PassJoins(Step(c, a[0]), a[1..], b);
    }
  }

  lemma PassOne(c: Seen, x: Token)
    ensures Pass(c, [x]) == Step(c, x)
  {
    assert [x][1..] == [];
  }

  /** x in front of a. */
  lemma PassHead(c: Seen, x: Token, a: seq<Token>)
    ensures Pass(c, [x] + a) == Pass(Step(c, x), a)
  {
    PassOne(c, x);
    PassJoins(c, [x], a);
  }

  /** What writing from t to u, with values nested need deep, adds to a pass. */
  function After(c: Seen, t: Tables, u: Tables, need: nat): Seen
    requires t.next <= u.next && t.lists <= u.lists
  {
    Seen(c.open, Deeper(c.deepest, if need == 0 then 0 else c.open + need),
         c.objIds + Ids(t.next, u.next), c.tnIds + Ids(|t.lists|, |u.lists|),
         c.lists + u.lists[|t.lists|..], c.naming)
  }

  ghost predicate Counts(c: Seen, toks: seq<Token>, t: Tables, u: Tables, need: nat) {
    t.next <= u.next && t.lists <= u.lists && Pass(c, toks) == After(c, t, u, need)
  }

  lemma CountsJoin(c: Seen, a: seq<Token>, b: seq<Token>, t: Tables, u: Tables, w: Tables, m: nat, n: nat)
    requires Ready(c) && Counts(c, a, t, u, m) && Counts(Pass(c, a), b, u, w, n)
    ensures Counts(c, a + b, t, w, Max(m, n))
  {
    PassJoins(c, a, b);
    AfterJoins(c, t, u, w, m, n);
  }

  lemma AfterJoins(c: Seen, t: Tables, u: Tables, w: Tables, m: nat, n: nat)
    requires Ready(c) && t.next <= u.next <= w.next && t.lists <= u.lists <= w.lists
    ensures After(After(c, t, u, m), u, w, n) == After(c, t, w, Max(m, n))
  {
    IdsAppend(c.objIds, t.next, u.next, w.next);
    IdsAppend(c.tnIds, |t.lists|, |u.lists|, |w.lists|);
    ListsAppend(c.lists, t.lists, u.lists, w.lists);
  }

  lemma ListsAppend<T>(s: seq<T>, a: seq<T>, b: seq<T>, c: seq<T>)
    requires a <= b <= c
    ensures s + b[|a|..] + c[|b|..] == s + c[|a|..]
  {
    assert c == b + c[|b|..];
  }

  lemma IdsAppend(s: seq<Option<Str>>, a: nat, b: nat, c: nat)
    requires a <= b <= c
    ensures s + Ids(a, b) + Ids(b, c) == s + Ids(a, c)
  {
    IdsJoin(a, b, c);
    Regroup2(s, Ids(a, b), Ids(b, c));
  }

  /** Tokens that a pass takes no notice of. */
  predicate Quiet(x: Token) {
    x.Text? || (x.Start? && !IsValueTag(x.tag) && x.tag != TNTag && x.tag != TTag) || (x.End? && x.endTag != ObjTag)
  }

  lemma {:induction false} PassQuiet(c: Seen, toks: seq<Token>)
    requires !c.naming && forall x :: x in toks ==> Quiet(x)
    ensures Pass(c, toks) == c
    decreases |toks|
  {
    if toks != [] {
      assert Quiet(toks[0]);
      PassQuiet(c, toks[1..]);
    }
  }

  /** The names of a TN element join the list at hand. */
  lemma {:induction false} NamesAreSeen(c: Seen, before: seq<seq<Str>>, list: seq<Str>, names: seq<Str>,
                                        whole: seq<Str>)
    requires c.lists == before + [list] && !c.naming && whole == list + names
    ensures Pass(c, NameTokens(names)) == c.(lists := before + [whole])
    decreases |names|
  {
    if names == [] {
      assert whole == list;
    } else {
      var more, rest := OneMoreName(list, names, whole);
      NameSplits(names);
      PassJoins(c, NameElement(names[0]), NameTokens(rest));
      var c1 := NameSeen(c, before, list, names[0], more);
      NamesAreSeen(c1, before, more, rest, whole);
    }
  }

  function NameElement(name: Str): seq<Token> {
    [Start(TTag, None, None)] + (TextTokens(name) + [End(TTag)])
  }

  lemma NameSplits(names: seq<Str>)
    requires names != []
    ensures NameTokens(names) == NameElement(names[0]) + NameTokens(names[1..])
  {
    Regroup3([Start(TTag, None, None)], TextTokens(names[0]), [End(TTag)], NameTokens(names[1..]));
  }

  lemma OneNameSeen(c: Seen, before: seq<seq<Str>>, list: seq<Str>, name: Str)
    requires c.lists == before + [list] && !c.naming
    ensures Pass(c, NameElement(name)) == c.(lists := before + [list + [name]])
  {
    var c1 := c.(lists := before + [list + [[]]], naming := true);
    assert NewName(c.lists) == c1.lists;
    PassHead(c, Start(TTag, None, None), TextTokens(name) + [End(TTag)]);
    if name == [] {
      assert TextTokens(name) + [End(TTag)] == [End(TTag)];
      PassOne(c1, End(TTag));
    } else {
      var c2 := c1.(lists := before + [list + [name]]);
      NameTextSeen(before, list, name);
      PassHead(c1, Text(name), [End(TTag)]);
      PassOne(c2, End(TTag));
    }
  }

  lemma OneMoreName(list: seq<Str>, names: seq<Str>, whole: seq<Str>) returns (more: seq<Str>, rest: seq<Str>)
    requires names != [] && whole == list + names
    ensures more == list + [names[0]] && rest == names[1..] && whole == more + rest
  {
    more, rest := list + [names[0]], names[1..];
  }

  lemma NameSeen(c: Seen, before: seq<seq<Str>>, list: seq<Str>, name: Str, more: seq<Str>) returns (c1: Seen)
    requires c.lists == before + [list] && !c.naming && more == list + [name]
    ensures c1 == Pass(c, NameElement(name)) && c1.lists == before + [more] && !c1.naming && c1.(lists := c.lists) == c
  {
    c1 := Pass(c, NameElement(name));
    OneNameSeen(c, before, list, name);
  }

  lemma NameTextSeen(before: seq<seq<Str>>, list: seq<Str>, name: Str)
    ensures MoreName(before + [list + [[]]], name) == before + [list + [name]]
  {
    var lists := before + [list + [[]]];
    assert Last(lists) == list + [[]] && Last(Last(lists)) == [] && lists[..|lists| - 1] == before;
    assert [] + name == name && (list + [[]])[..|list|] == list;
    assert WithLast(Last(lists), name) == list + [name];
  }

  /** A leaf is one value element. */
  lemma LeafCounts(c: Seen, t: Tables, tag: Tag, name: Str, text: Str, image: Value)
    requires Ready(c) && IsValueTag(tag) && tag != ObjTag
    ensures Counts(c, Leaf(t, tag, name, text, image).toks, t, t, 1)
  {
    PassHead(c, Start(tag, NameAttr(name), None), TextTokens(text) + [End(tag)]);
    PassQuiet(Step(c, Start(tag, NameAttr(name), None)), TextTokens(text) + [End(tag)]);
  }

  lemma EmptyElementCounts(c: Seen, t: Tables, tag: Tag, name: Option<Str>, id: Option<Str>)
    requires Ready(c) && IsValueTag(tag) && tag != ObjTag
    ensures Counts(c, [Start(tag, name, id), End(tag)], t, t, 1)
  {
    var toks := [Start(tag, name, id), End(tag)];
    assert toks == [toks[0]] + [toks[1]];
    PassHead(c, toks[0], [toks[1]]);
    PassOne(Step(c, toks[0]), toks[1]);
  }

  /** Type names give a new id or none. */
  lemma TypeNamesCount(c: Seen, t: Tables, key: Str, names: seq<Str>)
    requires Valid(t) && !c.naming
    ensures var (tn, u) := TypeNames(t, key, names); Counts(c, tn, t, u, 0)
  {
    if key in t.tnRefs {
      PassQuiet(c, TypeNames(t, key, names).0);
    } else {
      var x := Start(TNTag, None, Some(Decimal.Itoa(|t.tnRefs|)));
      PassHead(c, x, NameTokens(names) + [End(TNTag)]);
      var c1 := Step(c, x);
      PassJoins(c1, NameTokens(names), [End(TNTag)]);
      assert [] + names == names;
      NamesAreSeen(c1, c.lists, [], names, names);
      PassOne(Pass(c1, NameTokens(names)), End(TNTag));
      NewListSeen(c, t, key, names);
    }
  }

  /** The same, for type names at hand. */
  lemma NamesAtHandCount(c: Seen, t: Tables, names: seq<Str>, tn: seq<Token>, u: Tables)
    requires Valid(t) && !c.naming && (tn, u) == OptionalTypeNames(t, names)
    ensures Counts(c, tn, t, u, 0)
  {
    OptionalTypeNamesCount(c, t, names);
  }

  lemma NewListSeen(c: Seen, t: Tables, key: Str, names: seq<Str>)
    requires Valid(t) && key !in t.tnRefs
    ensures var u := TypeNames(t, key, names).1;
            t.lists <= u.lists && After(c, t, u, 0) == c.(tnIds := c.tnIds + [Some(Decimal.Itoa(|t.tnRefs|))],
                                                          lists := c.lists + [names])
  {
    var u := TypeNames(t, key, names).1;
    assert u.lists[|t.lists|..] == [names];
    assert Ids(|t.lists|, |u.lists|) == [Some(Decimal.Itoa(|t.lists|))];
    assert Ids(t.next, u.next) == [];
  }

  lemma OptionalTypeNamesCount(c: Seen, t: Tables, names: seq<Str>)
    requires Valid(t) && !c.naming
    ensures var (tn, u) := OptionalTypeNames(t, names); Counts(c, tn, t, u, 0)
  {
    if names != [] {
      TypeNamesCount(c, t, Join(names), names);
    }
  }

  /** An Obj element around tokens that count for themselves. */
  lemma ElementCounts(c: Seen, c1: Seen, t: Tables, t1: Tables, u: Tables, w: Tables, name: Str, body: seq<Token>,
                      need: nat)
    requires Ready(c) && c1 == Step(c, ObjStart(t, name))
    requires t1.next == t.next + 1 && t1.lists == t.lists && Counts(c1, body, t1, u, need)
    requires w.next == u.next && w.lists == u.lists
    ensures Counts(c, [ObjStart(t, name)] + (body + [End(ObjTag)]), t, w, 1 + need)
  {
    PassHead(c, ObjStart(t, name), body + [End(ObjTag)]);
    PassJoins(c1, body, [End(ObjTag)]);
    PassOne(Pass(c1, body), End(ObjTag));
    AfterElement(c, c1, t, t1, u, w, need);
  }

  lemma AfterElement(c: Seen, c1: Seen, t: Tables, t1: Tables, u: Tables, w: Tables, need: nat)
    requires Ready(c) && t1.next == t.next + 1 <= u.next && t1.lists == t.lists && t.lists <= u.lists
    requires c1 == c.(open := c.open + 1, deepest := Deeper(c.deepest, c.open + 1),
                      objIds := c.objIds + [Some(Decimal.Itoa(t.next))])
    requires w.next == u.next && w.lists == u.lists
    ensures After(c1, t1, u, need).(open := c.open) == After(c, t, w, 1 + need)
  {
    assert Ids(t.next, t1.next) == [Some(Decimal.Itoa(t.next))];
    IdsAppend(c.objIds, t.next, t1.next, u.next);
  }

  /** Quiet tokens around counting ones change nothing. */
  lemma QuietAround(c: Seen, a: seq<Token>, body: seq<Token>, b: seq<Token>, t: Tables, u: Tables, need: nat)
    requires !c.naming && (forall x :: x in a ==> Quiet(x)) && (forall x :: x in b ==> Quiet(x))
    requires Counts(c, body, t, u, need)
    ensures Counts(c, a + (body + b), t, u, need)
  {
    PassJoins(c, a, body + b);
    PassQuiet(c, a);
    PassJoins(c, body, b);
    PassQuiet(Pass(c, body), b);
  }

  // ---------- the serializer ----------

  lemma {:induction false} WriteCounts(h: Heap, t: Tables, v: Value, name: Str, c: Seen)
    requires Write(h, t, v, name).status == Done && Valid(t) && Ready(c)
    ensures var e := Write(h, t, v, name); Counts(c, e.toks, t, e.t, e.need)
    decreases Unvisited(h, t), v, 2, 0
  {
    if v.List? {
      ListCounts(h, t, v, name, c);
    } else if v.Dict? {
      DictCounts(h, t, v, name, c);
    } else if v.Enum? {
      EnumCounts(t, v, name, c);
    } else if v.Obj? && v.id !in t.objRefs {
      ObjectCounts(h, t, v.id, name, c);
    } else if v.Obj? {
      EmptyElementCounts(c, t, RefTag, NameAttr(name), Some(Decimal.Itoa(t.objRefs[v.id])));
    } else if v.Null? {
      EmptyElementCounts(c, t, NilTag, NameAttr(name), None);
    } else {
      var tag, text := LeafForm(h, t, v, name);
      var image := Write(h, t, v, name).image;
      LeafCounts(c, t, tag, name, text, image);
    }
  }

  /** Type names in front of the rest of an element. */
  lemma NamesInFront(c: Seen, t: Tables, t1: Tables, u: Tables, tn: seq<Token>, body: seq<Token>, need: nat)
    requires Ready(c) && Counts(c, tn, t, t1, 0) && Counts(Pass(c, tn), body, t1, u, need)
    ensures Counts(c, tn + body, t, u, need)
  {
    CountsJoin(c, tn, body, t, t1, u, 0, need);
  }

  lemma EnumCounts(t: Tables, v: Value, name: Str, c: Seen)
    requires v.Enum? && Valid(t) && Ready(c)
    ensures var e := WriteEnum(t, v, name); Counts(c, e.toks, t, e.t, 2)
  {
    var c1 := Step(c, ObjStart(t, name));
    var t0, tn, u := EnumHead(t, v, name, c1);
    var str, number := EnumInnerCounts(Pass(c1, tn), u, v);
    NamesInFront(c1, t0, u, u, tn, str + number, 1);
    ElementCounts(c, c1, t, t0, u, u, name, tn + (str + number), 1);
    EnumTokens(t, v, name, tn, str, number, u);
  }

  lemma EnumHead(t: Tables, v: Value, name: Str, c1: Seen) returns (t0: Tables, tn: seq<Token>, u: Tables)
    requires v.Enum? && Valid(t) && Ready(c1)
    ensures t0.next == t.next + 1 && t0.lists == t.lists && Counts(c1, tn, t0, u, 0)
    ensures tn == TypeNames(t.(next := t.next + 1), Join(EnumNames(v.enumType)), EnumNames(v.enumType)).0
    ensures WriteEnum(t, v, name).t == u
  {
    var names := EnumNames(v.enumType);
    t0 := t.(next := t.next + 1);
    tn, u := TypeNames(t0, Join(names), names).0, TypeNames(t0, Join(names), names).1;
    KeyNamesCount(c1, t0, Join(names), names, tn, u);
  }

  lemma KeyNamesCount(c: Seen, t: Tables, key: Str, names: seq<Str>, tn: seq<Token>, u: Tables)
    requires Valid(t) && !c.naming && (tn, u) == TypeNames(t, key, names)
    ensures Counts(c, tn, t, u, 0)
  {
    TypeNamesCount(c, t, key, names);
  }

  lemma EnumInnerCounts(c: Seen, u: Tables, v: Value) returns (str: seq<Token>, number: seq<Token>)
    requires v.Enum? && Ready(c)
    ensures str == ToStringTokens(v.enumText) && number == Leaf(u, I32Tag, [], Decimal.Itoa(v.enumValue), Null).toks
    ensures Counts(c, str + number, u, u, 1)
  {
    str := ToStringTokens(v.enumText);
    number := Leaf(u, I32Tag, [], Decimal.Itoa(v.enumValue), Null).toks;
    LeafCounts(c, u, I32Tag, [], Decimal.Itoa(v.enumValue), Null);
    QuietAround(c, str, number, [], u, u, 1);
    assert str + (number + []) == str + number;
  }

  lemma EnumTokens(t: Tables, v: Value, name: Str, tn: seq<Token>, str: seq<Token>, number: seq<Token>, u: Tables)
    requires v.Enum? && str == ToStringTokens(v.enumText)
    requires number == Leaf(u, I32Tag, [], Decimal.Itoa(v.enumValue), Null).toks
    requires tn == TypeNames(t.(next := t.next + 1), Join(EnumNames(v.enumType)), EnumNames(v.enumType)).0
    ensures WriteEnum(t, v, name).toks == [ObjStart(t, name)] + (tn + (str + number) + [End(ObjTag)])
  {
    var text := TextTokens(Decimal.Itoa(v.enumValue));
    assert [End(I32Tag), End(ObjTag)] == [End(I32Tag)] + [End(ObjTag)];
    Regroup4(str, [Start(I32Tag, None, None)], text, [End(I32Tag)], [End(ObjTag)]);
    Regroup2(tn, str + number, [End(ObjTag)]);
  }

  lemma {:induction false} ListCounts(h: Heap, t: Tables, v: Value, name: Str, c: Seen)
    requires v.List? && WriteList(h, t, v, name).status == Done && Valid(t) && Ready(c)
    ensures var e := WriteList(h, t, v, name); Counts(c, e.toks, t, e.t, e.need)
    decreases Unvisited(h, t), v, 1, 0
  {
    var c1 := Step(c, ObjStart(t, name));
    var t0, tn, t1 := ListHead(h, t, v, name, c1);
    var items := WriteItems(h, t1, v, 0);
    ItemsCount(h, t1, v, 0, Pass(c1, tn));
    ListWhole(c, c1, t, t0, t1, WriteList(h, t, v, name), items, name, tn);
  }

  lemma ListWhole(c: Seen, c1: Seen, t: Tables, t0: Tables, t1: Tables, e: Emission<Value>, items: Emission<seq<Value>>,
                  name: Str, tn: seq<Token>)
    requires Ready(c) && c1 == Step(c, ObjStart(t, name))
    requires t0.next == t.next + 1 && t0.lists == t.lists && Counts(c1, tn, t0, t1, 0)
    requires Counts(Pass(c1, tn), items.toks, t1, items.t, items.need)
    requires e.t == items.t && e.need == 1 + items.need
    requires e.toks == [ObjStart(t, name)]
                       + (tn + ([Start(LSTTag, None, None)] + (items.toks + [End(LSTTag), End(ObjTag)])))
    ensures Counts(c, e.toks, t, e.t, e.need)
  {
    BracketedElement(c, c1, t, t0, t1, items.t, name, tn, Start(LSTTag, None, None), items.toks, End(LSTTag),
                     items.need);
  }

  lemma ListHead(h: Heap, t: Tables, v: Value, name: Str, c1: Seen) returns (t0: Tables, tn: seq<Token>, t1: Tables)
    requires v.List? && WriteList(h, t, v, name).status == Done && Valid(t) && Ready(c1)
    ensures t0.next == t.next + 1 && t0.lists == t.lists && Counts(c1, tn, t0, t1, 0)
    ensures Valid(t1) && t1.objRefs == t.objRefs
    ensures var e, items := WriteList(h, t, v, name), WriteItems(h, t1, v, 0);
            && items.status == Done && e.t == items.t && e.need == 1 + items.need
            && e.toks == [ObjStart(t, name)]
               + (tn + ([Start(LSTTag, None, None)] + (items.toks + [End(LSTTag), End(ObjTag)])))
  {
    t0, tn, t1 := ListTokens(h, t, v, name);
    NamesAtHandCount(c1, t0, ListNames(v.kind), tn, t1);
  }

  /** An Obj element with type names and one quiet element around the rest. */
  lemma BracketedElement(c: Seen, c1: Seen, t: Tables, t0: Tables, t1: Tables, u: Tables, name: Str, tn: seq<Token>,
                         a: Token, body: seq<Token>, b: Token, need: nat)
    requires Ready(c) && c1 == Step(c, ObjStart(t, name)) && Quiet(a) && Quiet(b)
    requires t0.next == t.next + 1 && t0.lists == t.lists && Counts(c1, tn, t0, t1, 0)
    requires Counts(Pass(c1, tn), body, t1, u, need)
    ensures Counts(c, [ObjStart(t, name)] + (tn + ([a] + (body + [b, End(ObjTag)]))), t, u, 1 + need)
  {
    QuietAround(Pass(c1, tn), [a], body, [b], t1, u, need);
    NamesInFront(c1, t0, t1, u, tn, [a] + (body + [b]), need);
    ElementCounts(c, c1, t, t0, u, u, name, tn + ([a] + (body + [b])), need);
    assert [b, End(ObjTag)] == [b] + [End(ObjTag)];
    Regroup4(tn, [a], body, [b], [End(ObjTag)]);
  }

  lemma {:induction false} ItemsCount(h: Heap, t: Tables, v: Value, i: nat, c: Seen)
    requires v.List? && i <= |v.items| && WriteItems(h, t, v, i).status == Done && Valid(t) && Ready(c)
    ensures var e := WriteItems(h, t, v, i); Counts(c, e.toks, t, e.t, e.need)
    decreases Unvisited(h, t), v, 0, |v.items| - i
  {
    if i < |v.items| {
      var j := i + 1;
      var first, rest := ItemParts(h, t, v, i, j);
      WriteCounts(h, t, v.items[i], [], c);
      ItemsCount(h, first.t, v, j, Pass(c, first.toks));
      CountsJoin(c, first.toks, rest.toks, t, first.t, rest.t, first.need, rest.need);
    }
  }

  lemma {:induction false} DictCounts(h: Heap, t: Tables, v: Value, name: Str, c: Seen)
    requires v.Dict? && WriteDict(h, t, v, name).status == Done && Valid(t) && Ready(c)
    ensures var e := WriteDict(h, t, v, name); Counts(c, e.toks, t, e.t, e.need)
    decreases Unvisited(h, t), v, 1, 0
  {
    var c1 := Step(c, ObjStart(t, name));
    var keys := SortedKeys(v.m.Keys);
    var t0, tn, t1 := DictHead(h, t, v, name, c1, keys);
    var entries := WriteEntries(h, t1, v, keys, 0);
    EntriesCount(h, t1, v, keys, 0, Pass(c1, tn));
    DictWhole(c, c1, t, t0, t1, WriteDict(h, t, v, name), entries, name, tn);
  }

  lemma DictWhole(c: Seen, c1: Seen, t: Tables, t0: Tables, t1: Tables, e: Emission<Value>,
                  entries: Emission<map<Str, Value>>, name: Str, tn: seq<Token>)
    requires Ready(c) && c1 == Step(c, ObjStart(t, name))
    requires t0.next == t.next + 1 && t0.lists == t.lists && Counts(c1, tn, t0, t1, 0)
    requires Counts(Pass(c1, tn), entries.toks, t1, entries.t, entries.need)
    requires e.t == entries.t && e.need == 1 + entries.need
    requires e.toks == [ObjStart(t, name)]
                       + (tn + ([Start(DCTTag, None, None)] + (entries.toks + [End(DCTTag), End(ObjTag)])))
    ensures Counts(c, e.toks, t, e.t, e.need)
  {
    BracketedElement(c, c1, t, t0, t1, entries.t, name, tn, Start(DCTTag, None, None), entries.toks, End(DCTTag),
                     entries.need);
  }

  lemma DictHead(h: Heap, t: Tables, v: Value, name: Str, c1: Seen, keys: seq<Str>)
    returns (t0: Tables, tn: seq<Token>, t1: Tables)
    requires v.Dict? && WriteDict(h, t, v, name).status == Done && Valid(t) && Ready(c1)
    requires keys == SortedKeys(v.m.Keys)
    ensures t0.next == t.next + 1 && t0.lists == t.lists && Counts(c1, tn, t0, t1, 0)
    ensures Valid(t1) && t1.objRefs == t.objRefs
    ensures var e, entries := WriteDict(h, t, v, name), WriteEntries(h, t1, v, keys, 0);
            && entries.status == Done && e.t == entries.t && e.need == 1 + entries.need
            && e.toks == [ObjStart(t, name)]
               + (tn + ([Start(DCTTag, None, None)] + (entries.toks + [End(DCTTag), End(ObjTag)])))
  {
    t0, tn, t1 := DictTokens(h, t, v, name, keys);
    KeyNamesCount(c1, t0, HASHTABLE, HASHTABLE_NAMES, tn, t1);
  }

  lemma {:induction false} EntriesCount(h: Heap, t: Tables, v: Value, keys: seq<Str>, i: nat, c: Seen)
    requires v.Dict? && i <= |keys| && (forall k :: k in keys ==> k in v.m)
    requires WriteEntries(h, t, v, keys, i).status == Done && Valid(t) && Ready(c)
    ensures var e := WriteEntries(h, t, v, keys, i); Counts(c, e.toks, t, e.t, e.need)
    decreases Unvisited(h, t), v, 0, |keys| - i
  {
    if i < |keys| {
      var j := i + 1;
      var key, val, rest := EntryParts(h, t, v, keys, i, j);
      EntryKeyCounts(c, t, keys[i], key);
      WriteCounts(h, t, v.m[keys[i]], VALUE, Pass(c, key));
      var entry := EntryCounts(c, t, val.t, key, val.toks, rest.toks, val.need);
      EntriesCount(h, val.t, v, keys, j, Pass(c, entry));
      CountsJoin(c, entry, rest.toks, t, val.t, rest.t, val.need, rest.need);
    }
  }

  lemma EntryKeyCounts(c: Seen, t: Tables, k: Str, key: seq<Token>)
    requires Ready(c) && key == Leaf(t, STag, KEY, k, Null).toks
    ensures Counts(c, key, t, t, 1)
  {
    LeafCounts(c, t, STag, KEY, k, Null);
  }

  lemma EntryCounts(c: Seen, t: Tables, u: Tables, key: seq<Token>, val: seq<Token>, rest: seq<Token>, need: nat)
    returns (entry: seq<Token>)
    requires Ready(c) && Counts(c, key, t, t, 1) && Counts(Pass(c, key), val, t, u, need) && need >= 1
    ensures Counts(c, entry, t, u, need)
    ensures [Start(EnTag, None, None)] + (key + val) + ([End(EnTag)] + rest) == entry + rest
  {
    var a, b := Start(EnTag, None, None), End(EnTag);
    entry := [a] + (key + val + [b]);
    CountsJoin(c, key, val, t, t, u, 1, need);
    QuietAround(c, [a], key + val, [b], t, u, need);
    Regroup3([a], key + val, [b], rest);
    Regroup2([a], key + val, [b] + rest);
  }

  lemma {:induction false} PropertiesCount(h: Heap, t: Tables, v: Value, keys: seq<Str>, i: nat, c: Seen)
    requires v.Dict? && i <= |keys| && WriteProperties(h, t, v, keys, i).status == Done && Valid(t) && Ready(c)
    ensures var e := WriteProperties(h, t, v, keys, i); Counts(c, e.toks, t, e.t, e.need)
    decreases Unvisited(h, t), v, 0, |keys| - i
  {
    if i < |keys| {
      var k := keys[i];
      var j := i + 1;
      var val, rest := PropertyParts(h, t, v, keys, i, j);
      if k in v.m {
        WriteCounts(h, t, v.m[k], k, c);
      } else {
        EmptyElementCounts(c, t, NilTag, NameAttr(k), None);
      }
      PropertiesCount(h, val.t, v, keys, j, Pass(c, val.toks));
      CountsJoin(c, val.toks, rest.toks, t, val.t, rest.t, val.need, rest.need);
    }
  }

  lemma {:induction false} BagCounts(h: Heap, t: Tables, tag: Tag, v: Value, keys: seq<Str>, c: Seen)
    requires v.Dict? && WriteBag(h, t, tag, v, keys).status == Done && Valid(t) && Ready(c)
    requires tag == MSTag || tag == PropsTag
    ensures var e := WriteBag(h, t, tag, v, keys); Counts(c, e.toks, t, e.t, e.need)
    decreases Unvisited(h, t), v, 1, 0
  {
    if v.m != map[] {
      BagParts(h, t, tag, v, keys);
      var all := WriteProperties(h, t, v, keys, 0);
      PropertiesCount(h, t, v, keys, 0, c);
      QuietBag(c, t, tag, all, WriteBag(h, t, tag, v, keys));
    }
  }

  lemma QuietBag(c: Seen, t: Tables, tag: Tag, all: Emission<map<Str, Value>>, e: Emission<map<Str, Value>>)
    requires Ready(c) && (tag == MSTag || tag == PropsTag) && Counts(c, all.toks, t, all.t, all.need)
    requires e.toks == [Start(tag, None, None)] + (all.toks + [End(tag)]) && e.t == all.t && e.need == all.need
    ensures Counts(c, e.toks, t, e.t, e.need)
  {
    QuietBrackets(c, Start(tag, None, None), all.toks, End(tag), t, all.t, all.need);
  }

  lemma QuietBrackets(c: Seen, a: Token, body: seq<Token>, b: Token, t: Tables, u: Tables, need: nat)
    requires !c.naming && Quiet(a) && Quiet(b) && Counts(c, body, t, u, need)
    ensures Counts(c, [a] + (body + [b]), t, u, need)
  {
    QuietAround(c, [a], body, [b], t, u, need);
  }

  lemma {:induction false} ObjectCounts(h: Heap, t: Tables, id: int, name: Str, c: Seen)
    requires id in h && id !in t.objRefs && WriteObject(h, t, id, name).status == Done && Valid(t) && Ready(c)
    ensures var e := WriteObject(h, t, id, name); Counts(c, e.toks, t, e.t, e.need)
    decreases Unvisited(h, t), Obj(id), 1, 1
  {
    var p := ObjectParts(h, t, id, name);
    PartsCount(h, t, id, name, WriteObject(h, t, id, name), p, c);
  }

  lemma {:induction false} PartsCount(h: Heap, t: Tables, id: int, name: Str, e: Emission<Value>, p: Parts, c: Seen)
    requires id in h && id !in t.objRefs && Valid(t) && Ready(c)
    requires PartsOf(h, t, id, p) && Assembled(t, id, h[id], e, p)
    requires e.toks == [ObjStart(t, name)] + (OptionalTypeNames(Entered(t, id), h[id].typeNames).0
                         + (OptionalToString(h[id].toString) + (p.ms.toks + (p.ps.toks + [End(ObjTag)]))))
    ensures Counts(c, e.toks, t, e.t, e.need)
    decreases Unvisited(h, t), Obj(id), 1, 0
  {
    var c1 := Step(c, ObjStart(t, name));
    PartsRecur(h, t, id, p);
    var t0, tn, need := PartsInside(h, t, id, p, c1);
    TablesAfter(t, id, h[id], e, p);
    ObjectWhole(c, c1, t, t0, e, p, name, tn, h[id].toString, need);
  }

  /** The type names of an object and its two bags. */
  lemma {:induction false} PartsInside(h: Heap, t: Tables, id: int, p: Parts, c1: Seen)
    returns (t0: Tables, tn: seq<Token>, need: nat)
    requires id in h && id !in t.objRefs && Valid(t) && Ready(c1) && PartsOf(h, t, id, p)
    requires Valid(p.named) && Valid(p.ms.t) && Unvisited(h, p.ms.t) <= Unvisited(h, p.named) < Unvisited(h, t)
    ensures t0.next == t.next + 1 && t0.lists == t.lists && Counts(c1, tn, t0, p.named, 0)
    ensures tn == OptionalTypeNames(Entered(t, id), h[id].typeNames).0 && need == Max(p.ms.need, p.ps.need)
    ensures Counts(Pass(c1, tn), p.ms.toks + p.ps.toks, p.named, p.ps.t, need)
    decreases Unvisited(h, p.named) + 1, Obj(id), 0, 1
  {
    t0, tn := NamesCount(h, t, id, p, c1);
    need := Max(p.ms.need, p.ps.need);
    BagsCount(h, id, h[id], p, Pass(c1, tn), need);
  }

  lemma ObjectWhole(c: Seen, c1: Seen, t: Tables, t0: Tables, e: Emission<Value>, p: Parts, name: Str, tn: seq<Token>,
                    text: Str, need: nat)
    requires Ready(c) && c1 == Step(c, ObjStart(t, name))
    requires t0.next == t.next + 1 && t0.lists == t.lists && Counts(c1, tn, t0, p.named, 0)
    requires Counts(Pass(c1, tn), p.ms.toks + p.ps.toks, p.named, p.ps.t, need)
    requires e.t.next == p.ps.t.next && e.t.lists == p.ps.t.lists && e.need == 1 + need
    requires e.toks == [ObjStart(t, name)] + (tn + (OptionalToString(text) + (p.ms.toks + (p.ps.toks + [End(ObjTag)]))))
    ensures Counts(c, e.toks, t, e.t, e.need)
  {
    ToStringIsQuiet(text);
    ObjectElement(c, c1, t, t0, p.named, p.ps.t, e.t, name, tn, OptionalToString(text), p.ms.toks, p.ps.toks, need);
  }

  /** The type names of an object's element. */
  lemma NamesCount(h: Heap, t: Tables, id: int, p: Parts, c1: Seen) returns (t0: Tables, tn: seq<Token>)
    requires id in h && id !in t.objRefs && Valid(t) && p.named == OptionalTypeNames(Entered(t, id), h[id].typeNames).1
    requires Ready(c1)
    ensures t0.next == t.next + 1 && t0.lists == t.lists && Counts(c1, tn, t0, p.named, 0)
    ensures tn == OptionalTypeNames(Entered(t, id), h[id].typeNames).0
  {
    t0 := Entered(t, id);
    tn := OptionalTypeNames(t0, h[id].typeNames).0;
    EnterKeeps(t, id, h[id].typeNames);
    NamesAtHandCount(c1, t0, h[id].typeNames, tn, p.named);
  }

  lemma {:induction false} BagsCount(h: Heap, id: int, n: Node, p: Parts, c: Seen, need: nat)
    requires Valid(p.named) && Valid(p.ms.t) && Unvisited(h, p.ms.t) <= Unvisited(h, p.named) && Ready(c)
    requires p.ms == WriteBag(h, p.named, MSTag, Dict(n.members), MemberKeys(n)) && p.ms.status == Done
    requires p.ps == WriteBag(h, p.ms.t, PropsTag, Dict(n.props), SortedKeys(n.props.Keys)) && p.ps.status == Done
    requires need == Max(p.ms.need, p.ps.need)
    ensures Counts(c, p.ms.toks + p.ps.toks, p.named, p.ps.t, need)
    decreases Unvisited(h, p.named) + 1, Obj(id), 0, 0
  {
    BagCounts(h, p.named, MSTag, Dict(n.members), MemberKeys(n), c);
    BagCounts(h, p.ms.t, PropsTag, Dict(n.props), SortedKeys(n.props.Keys), Pass(c, p.ms.toks));
    CountsJoin(c, p.ms.toks, p.ps.toks, p.named, p.ms.t, p.ps.t, p.ms.need, p.ps.need);
  }

  lemma ToStringIsQuiet(s: Str)
    ensures forall x :: x in OptionalToString(s) ==> Quiet(x)
  {
  }

  /** An Obj element with type names, a string and two bags. */
  lemma ObjectElement(c: Seen, c1: Seen, t: Tables, t0: Tables, t1: Tables, u: Tables, w: Tables, name: Str,
                      tn: seq<Token>, str: seq<Token>, ms: seq<Token>, ps: seq<Token>, need: nat)
    requires Ready(c) && c1 == Step(c, ObjStart(t, name)) && (forall x :: x in str ==> Quiet(x))
    requires t0.next == t.next + 1 && t0.lists == t.lists && Counts(c1, tn, t0, t1, 0)
    requires Counts(Pass(c1, tn), ms + ps, t1, u, need) && w.next == u.next && w.lists == u.lists
    ensures Counts(c, [ObjStart(t, name)] + (tn + (str + (ms + (ps + [End(ObjTag)])))), t, w, 1 + need)
  {
    var bags := ms + ps;
    QuietAround(Pass(c1, tn), str, bags, [], t1, u, need);
    assert str + (bags + []) == str + bags;
    NamesInFront(c1, t0, t1, u, tn, str + bags, need);
    ElementCounts(c, c1, t, t0, u, w, name, tn + (str + bags), need);
    ObjectRegroups(tn, str, ms, ps, [End(ObjTag)]);
  }

  lemma ObjectRegroups<T>(tn: seq<T>, str: seq<T>, ms: seq<T>, ps: seq<T>, end: seq<T>)
    ensures tn + (str + (ms + (ps + end))) == tn + (str + (ms + ps)) + end
  {
    Regroup4(tn, str, ms, ps, end);
  }

  // ---------- whole documents ----------

  lemma CountsFromStart(toks: seq<Token>, t: Tables, u: Tables, need: nat)
    requires t.next == 0 && t.lists == [] && need >= 1 && Counts(FRESH, toks, t, u, need)
    ensures var seen := Pass(FRESH, toks);
            && seen.open == 0 && seen.deepest == need
            && |seen.objIds| == u.next && (forall i :: 0 <= i < u.next ==> seen.objIds[i] == Some(Decimal.Itoa(i)))
            && |seen.tnIds| == |u.lists| && (forall i :: 0 <= i < |u.lists| ==> seen.tnIds[i] == Some(Decimal.Itoa(i)))
            && seen.lists == u.lists
  {
    assert [] + Ids(0, u.next) == Ids(0, u.next) && [] + Ids(0, |u.lists|) == Ids(0, |u.lists|);
  }

  /**
   In a document the Obj elements are numbered 0, 1, 2, ... in the order of their start tags, and
   so are the lists of type names; each object has an id of its own among them; the deepest value
   element stands in need - 1 Obj elements.
   */
  lemma DocumentIds(h: Heap, v: Value, base: int)
    requires Written(h, v, base).status == Done
    ensures var e := Written(h, v, base);
            var seen := Pass(FRESH, Wrapped(e.toks));
            && seen.open == 0 && seen.deepest == e.need
            && |seen.objIds| == e.t.next && (forall i :: 0 <= i < e.t.next ==> seen.objIds[i] == Some(Decimal.Itoa(i)))
            && |seen.tnIds| == |e.t.lists|
            && (forall i :: 0 <= i < |e.t.lists| ==> seen.tnIds[i] == Some(Decimal.Itoa(i)))
            && seen.lists == e.t.lists
            && (forall o :: o in e.t.objRefs ==> e.t.objRefs[o] < e.t.next)
            && (forall o, p :: o in e.t.objRefs && p in e.t.objRefs && o != p ==> e.t.objRefs[o] != e.t.objRefs[p])
  {
    var e, t := Written(h, v, base), FreshTables(base);
    var c := FRESH;
    FreshIsValid(base);
    WriteKeeps(h, t, v, []);
    WriteCounts(h, t, v, [], c);
    QuietBrackets(c, Start(ObjsTag, None, None), e.toks, End(ObjsTag), t, e.t, e.need);
    CountsFromStart(Wrapped(e.toks), t, e.t, e.need);
  }

  /**
   The names of the TN elements, in order, are the lists filed for the value whose joined text had not
   been filed before. No list stands in a document twice, except that of a hashtable, which an object
   with exactly these type names has written once more.
   */
  lemma NamesWrittenOnce(h: Heap, v: Value, base: int)
    requires Written(h, v, base).status == Done
    ensures var lists, filed := Pass(FRESH, Wrapped(Written(h, v, base).toks)).lists, File([], AllFilings(h, v));
            && |lists| == |filed| && (forall i :: 0 <= i < |lists| ==> lists[i] == filed[i].names)
            && (forall i, j :: 0 <= i < j < |lists| && lists[i] == lists[j] ==> lists[i] == HASHTABLE_NAMES)
  {
    DocumentIds(h, v, base);
    DocumentFiles(h, v, base);
    var lists := Written(h, v, base).t.lists;
    forall i, j | 0 <= i < j < |lists| && lists[i] == lists[j] ensures lists[i] == HASHTABLE_NAMES {
      TypeNamesWrittenOnce(h, v, base, i, j);
    }
  }

  /**
   A fresh reader accepts a document exactly when its objects form no cycle and every value element
   stands in fewer Obj elements than the limit.
   */
  lemma AcceptedIff(h: Heap, v: Value, s: State, limit: int)
    requires var e := Written(h, v, s.next);
             e.status == Done && InRange(e.t) && s.toks == Wrapped(e.toks)
    requires s.objRefs == map[]
    ensures ReadDocument(s, 0, limit).r.Ok? <==> Acyclic(h, v) && Pass(FRESH, s.toks).deepest <= limit
  {
    ReadsBackIff(h, v, s, limit);
    DocumentIds(h, v, s.next);
  }
}
