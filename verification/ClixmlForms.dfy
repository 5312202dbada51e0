/** What is written, token by token and name by name, for values that show every form once. */
module ClixmlForms {
  import opened Wrappers
  import opened Bytes
  import opened Sequences
  import opened Clixml
  import opened ClixmlWriter
  import opened ClixmlTables
  import opened ClixmlDocument
  import CS = ClixmlString
  import Decimal
  import Base64
  import Guid

  /** An element with nothing but text in it; the text is left out when it is empty. */
  function TextElement(tag: Tag, name: Option<Str>, text: Str): seq<Token> {
    if text == [] then [Start(tag, name, None), End(tag)] else [Start(tag, name, None), Text(text), End(tag)]
  }

  // ---------- leaves ----------

  lemma LeafText(t: Tables, tag: Tag, name: Str, text: Str, image: Value)
    ensures Leaf(t, tag, name, text, image).toks
            == TextElement(tag, if name == [] then None else Some(name), text)
  {
  }

  /** A leaf is an element with a tag of its kind, the name it stands under, and its text. */
  lemma LeafForm(h: Heap, t: Tables, v: Value, name: Str)
    ensures var attr, toks := if name == [] then None else Some(name), Write(h, t, v, name).toks;
            match v
            case Null => toks == [Start(NilTag, attr, None), End(NilTag)]
            case String(s) => toks == TextElement(STag, attr, CS.Encode(s))
            case Int(n) => forall i: int32 :: Nearest(n, i) ==> toks == TextElement(I32Tag, attr, Decimal.Itoa(i))
            case Int32(i) => toks == TextElement(I32Tag, attr, Decimal.Itoa(i))
            case Int64(l) => toks == TextElement(I64Tag, attr, Decimal.Itoa(l))
            case Bool(b) => toks == TextElement(BTag, attr, if b then Ascii("true") else Ascii("false"))
            case ByteArray(b) => toks == TextElement(BATag, attr, Base64.Encode(b))
            case Uuid(g) => toks == TextElement(GTag, attr, Guid.Format(g))
            case ScriptBlock(c) => toks == TextElement(SBTag, attr, CS.Encode(c))
            case _ => true
  {
    match v
    case Null =>
    case String(s) => LeafText(t, STag, name, CS.Encode(s), String(CS.Decode(CS.Encode(s))));
    case Int(n) =>
      CappedToNearest(n);
      LeafText(t, I32Tag, name, Decimal.Itoa(SafeInt32(n)), Int32(SafeInt32(n)));
    case Int32(i) => LeafText(t, I32Tag, name, Decimal.Itoa(i), v);
    case Int64(l) => LeafText(t, I64Tag, name, Decimal.Itoa(l), v);
    case Bool(b) => LeafText(t, BTag, name, if b then TRUE else FALSE, v);
    case ByteArray(b) => LeafText(t, BATag, name, Base64.Encode(b), v);
    case Uuid(g) => LeafText(t, GTag, name, Guid.Format(g), v);
    case ScriptBlock(c) => LeafText(t, SBTag, name, CS.Encode(c), ScriptBlock(CS.Decode(CS.Encode(c))));
    case _ =>
  }

  // ---------- type names ----------

  function NameElements(names: seq<Str>): seq<Token> {
    if names == [] then [] else TextElement(TTag, None, names[0]) + NameElements(names[1..])
  }

  lemma {:induction false} NamesForm(names: seq<Str>)
    ensures NameTokens(names) == NameElements(names)
  {
    if names != [] {
      NamesForm(names[1..]);
      var rest := NameTokens(names[1..]);
      Regroup2([Start(TTag, None, None)] + TextTokens(names[0]), [End(TTag)], rest);
      Regroup2([Start(TTag, None, None)], TextTokens(names[0]), [End(TTag)] + rest);
      assert [Start(TTag, None, None)] + TextTokens(names[0]) + [End(TTag)] == TextElement(TTag, None, names[0]);
    }
  }

  /** Type names in full, under the id 0. */
  function NamesInFull(names: seq<Str>): seq<Token> {
    [Start(TNTag, None, Some([0x30]))] + (NameElements(names) + [End(TNTag)])
  }

  lemma FirstNames(t: Tables, key: Str, names: seq<Str>)
    requires t.tnRefs == map[]
    ensures TypeNames(t, key, names).0 == NamesInFull(names)
  {
    NamesForm(names);
  }

  // ---------- documents ----------

  const FIRST: Token := Start(ObjTag, None, Some([0x30]))

  /** A list of one number. */
  lemma ListForm(h: Heap, n: int32, base: int)
    ensures Written(h, List(Plain, [Int32(n)]), base).toks
            == [FIRST] + (NamesInFull([Ascii("System.Object[]"), Ascii("System.Array"), Ascii("System.Object")])
               + ([Start(LSTTag, None, None)] + (TextElement(I32Tag, None, Decimal.Itoa(n))
               + [End(LSTTag), End(ObjTag)])))
  {
    var t, v := FreshTables(base), List(Plain, [Int32(n)]);
    var t1 := TypeNames(t.(next := 1), Join(ARRAY_NAMES), ARRAY_NAMES).1;
    FirstNames(t.(next := 1), Join(ARRAY_NAMES), ARRAY_NAMES);
    OneItem(h, t1, v, n);
    ItoaZero();
    var items := WriteItems(h, t1, v, 0);
    assert ListNames(v.kind) == ARRAY_NAMES && ARRAY_NAMES != [];
    assert WriteList(h, t, v, []).toks
           == [ObjStart(t, [])] + (NamesInFull(ARRAY_NAMES)
              + ([Start(LSTTag, None, None)] + (items.toks + [End(LSTTag), End(ObjTag)])));
  }

  lemma ItoaZero()
    ensures Decimal.Itoa(0) == [0x30]
  {
  }

  lemma OneItem(h: Heap, t: Tables, v: Value, n: int32)
    requires v == List(Plain, [Int32(n)])
    ensures WriteItems(h, t, v, 0).status == Done
    ensures WriteItems(h, t, v, 0).toks == TextElement(I32Tag, None, Decimal.Itoa(n))
  {
    LeafForm(h, t, v.items[0], []);
    assert WriteItems(h, t, v, 1).toks == [];
    assert WriteItems(h, t, v, 0).toks == Write(h, t, v.items[0], []).toks + [];
  }

  /** A hashtable of one number. */
  lemma HashtableForm(h: Heap, k: Str, n: int32, base: int)
    ensures Written(h, Dict(map[k := Int32(n)]), base).toks
            == [FIRST] + (NamesInFull([Ascii("System.Collections.Hashtable"), Ascii("System.Object")])
               + ([Start(DCTTag, None, None)]
                  + (([Start(EnTag, None, None)] + (TextElement(STag, Some(Ascii("Key")), k)
                      + TextElement(I32Tag, Some(Ascii("Value")), Decimal.Itoa(n))) + [End(EnTag)])
                     + [End(DCTTag), End(ObjTag)])))
  {
    var t, v := FreshTables(base), Dict(map[k := Int32(n)]);
    var t1 := TypeNames(t.(next := 1), HASHTABLE, HASHTABLE_NAMES).1;
    FirstNames(t.(next := 1), HASHTABLE, HASHTABLE_NAMES);
    var keys := SortedKeys(v.m.Keys);
    assert |keys| == 1 && keys[0] in keys;
    assert keys == [k];
    OneEntry(h, t1, v, keys, k, n);
    ItoaZero();
    var entries := WriteEntries(h, t1, v, keys, 0);
    assert WriteDict(h, t, v, []).toks
           == [ObjStart(t, [])] + (NamesInFull(HASHTABLE_NAMES)
              + ([Start(DCTTag, None, None)] + (entries.toks + [End(DCTTag), End(ObjTag)])));
  }

  lemma OneEntry(h: Heap, t: Tables, v: Value, keys: seq<Str>, k: Str, n: int32)
    requires v == Dict(map[k := Int32(n)]) && keys == [k]
    ensures WriteEntries(h, t, v, keys, 0).status == Done
    ensures WriteEntries(h, t, v, keys, 0).toks
            == [Start(EnTag, None, None)] + (TextElement(STag, Some(Ascii("Key")), k)
               + TextElement(I32Tag, Some(Ascii("Value")), Decimal.Itoa(n))) + [End(EnTag)]
  {
    LeafText(t, STag, KEY, k, String(CS.Decode(k)));
    LeafForm(h, t, v.m[k], VALUE);
    assert |KEY| == 3 && |VALUE| == 5;
    assert WriteEntries(h, t, v, keys, 1).toks == [];
    assert [End(EnTag)] + [] == [End(EnTag)];
  }

  function EnumTypeNames(ty: Str): seq<Str> {
    [ty, Ascii("System.Enum"), Ascii("System.ValueType"), Ascii("System.Object")]
  }

  /** An enum. */
  lemma EnumForm(h: Heap, ty: Str, n: int32, text: Str, base: int)
    ensures Written(h, Enum(ty, n, text), base).toks
            == [FIRST] + (NamesInFull(EnumTypeNames(ty))
               + (TextElement(ToStringTag, None, CS.Encode(text))
                  + (TextElement(I32Tag, None, Decimal.Itoa(n)) + [End(ObjTag)])))
  {
    var t, v := FreshTables(base), Enum(ty, n, text);
    FirstNames(t.(next := 1), Join(EnumNames(ty)), EnumNames(ty));
    ToStringForm(text);
    var number: seq<Token> := [Start(I32Tag, None, None)]
      + (TextTokens(Decimal.Itoa(n)) + [End(I32Tag), End(ObjTag)]);
    assert number == TextElement(I32Tag, None, Decimal.Itoa(n)) + [End(ObjTag)];
  }

  lemma ToStringForm(text: Str)
    ensures ToStringTokens(text) == TextElement(ToStringTag, None, CS.Encode(text))
  {
  }

  function BoolElement(name: Str, x: bool): seq<Token> {
    TextElement(BTag, Some(name), if x then Ascii("true") else Ascii("false"))
  }

  /** An object with a member and a property. */
  lemma ObjectForm(h: Heap, n: Node, a: Str, b: Str, text: Str, x: bool, y: bool, name: Str, base: int)
    requires 0 in h && h[0] == n && n.typeNames == [name] && n.toString == text && text != [] && a != [] && b != []
    requires n.members == map[a := Bool(x)] && n.memberOrder == [] && n.props == map[b := Bool(y)]
    ensures Written(h, Obj(0), base).toks
            == [FIRST] + (NamesInFull([name]) + TextElement(ToStringTag, None, CS.Encode(text)))
               + ([Start(MSTag, None, None)] + BoolElement(a, x) + [End(MSTag)]
                  + ([Start(PropsTag, None, None)] + BoolElement(b, y) + [End(PropsTag)] + [End(ObjTag)]))
  {
    var t := FreshTables(base);
    var named, ms, ps := ObjectPieces(h, n, Entered(t, 0), a, b, x, y, name);
    ToStringForm(text);
    ItoaZero();
    ObjectTokens(h, t, 0, n, NamesInFull([name]), named, ms, ps);
  }

  lemma ObjectPieces(h: Heap, n: Node, t: Tables, a: Str, b: Str, x: bool, y: bool, name: Str)
    returns (named: Tables, ms: Emission<map<Str, Value>>, ps: Emission<map<Str, Value>>)
    requires t.tnRefs == map[] && a != [] && b != []
    requires n.members == map[a := Bool(x)] && n.memberOrder == [] && n.props == map[b := Bool(y)]
    ensures (NamesInFull([name]), named) == TypeNames(t, Join([name]), [name])
    ensures ms == WriteBag(h, named, MSTag, Dict(n.members), MemberKeys(n)) && ms.status == Done
    ensures ps == WriteBag(h, ms.t, PropsTag, Dict(n.props), SortedKeys(n.props.Keys)) && ps.status == Done
    ensures ms.toks == [Start(MSTag, None, None)] + BoolElement(a, x) + [End(MSTag)]
    ensures ps.toks == [Start(PropsTag, None, None)] + BoolElement(b, y) + [End(PropsTag)]
  {
    named := TypeNames(t, Join([name]), [name]).1;
    FirstNames(t, Join([name]), [name]);
    ms := OneProperty(h, named, MSTag, Dict(n.members), MemberKeys(n), a, x);
    ps := OneProperty(h, ms.t, PropsTag, Dict(n.props), SortedKeys(n.props.Keys), b, y);
  }

  lemma ObjectTokens(h: Heap, t: Tables, id: int, n: Node, tn: seq<Token>, named: Tables,
                     ms: Emission<map<Str, Value>>, ps: Emission<map<Str, Value>>)
    requires id in h && n == h[id] && id !in t.objRefs && n.typeNames != []
    requires (tn, named) == TypeNames(Entered(t, id), Join(n.typeNames), n.typeNames)
    requires ms == WriteBag(h, named, MSTag, Dict(n.members), MemberKeys(n)) && ms.status == Done
    requires ps == WriteBag(h, ms.t, PropsTag, Dict(n.props), SortedKeys(n.props.Keys)) && ps.status == Done
    ensures Write(h, t, Obj(id), []).toks
            == [ObjStart(t, [])] + (tn + OptionalToString(n.toString)) + (ms.toks + (ps.toks + [End(ObjTag)]))
  {
  }

  lemma OneProperty(h: Heap, t: Tables, tag: Tag, v: Value, keys: seq<Str>, k: Str, x: bool)
    returns (e: Emission<map<Str, Value>>)
    requires v == Dict(map[k := Bool(x)]) && keys == SortedKeys(v.m.Keys) && k != []
    ensures e == WriteBag(h, t, tag, v, keys) && e.status == Done
    ensures e.toks
            == [Start(tag, None, None)] + BoolElement(k, x) + [End(tag)]
  {
    assert |keys| == 1 && keys[0] in keys;
    e := WriteBag(h, t, tag, v, keys);
    OneNamed(h, t, v, keys, k, x);
  }

  lemma OneNamed(h: Heap, t: Tables, v: Value, keys: seq<Str>, k: Str, x: bool)
    requires v == Dict(map[k := Bool(x)]) && keys == [k] && k != []
    ensures WriteProperties(h, t, v, keys, 0).status == Done
    ensures WriteProperties(h, t, v, keys, 0).toks
            == BoolElement(k, x)
  {
    LeafForm(h, t, v.m[k], k);
    assert WriteProperties(h, t, v, keys, 1).toks == [];
    var e := BoolElement(k, x);
    assert e + [] == e;
  }
}
