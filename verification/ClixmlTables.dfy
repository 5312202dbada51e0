/** The serializer's reference tables: what every step of a document keeps. */
module ClixmlTables {
  import opened Wrappers
  import opened Clixml
  import opened ClixmlWriter
  import CS = ClixmlString

  /** Whatever list is on record under the hashtable's key begins with the hashtable's name. */
  ghost predicate KnowsHashtable(t: Tables) {
    HASHTABLE in t.tnRefs ==> Resolved(t, HASHTABLE) != [] && Resolved(t, HASHTABLE)[0] == HASHTABLE
  }

  lemma HashtableHasNoBar()
    ensures BAR !in HASHTABLE
  {
    var s := "System.Collections.Hashtable";
    forall i | 0 <= i < |HASHTABLE|
      ensures HASHTABLE[i] != BAR
    {
      assert HASHTABLE[i] == s[i] as int;
    }
  }

  lemma JoinIsHashtable(names: seq<Str>)
    requires names != [] && Join(names) == HASHTABLE
    ensures names[0] == HASHTABLE
  {
    HashtableHasNoBar();
    JoinHasBar(names);
  }

  lemma JoinHasBar(names: seq<Str>)
    ensures |names| > 1 ==> BAR in Join(names)
  {
    if |names| > 1 {
      assert Join(names)[|names[0]|] == BAR;
    }
  }

  /** Ids are below the counter and belong to one object each; every TN id stands for one list. */
  ghost predicate Valid(t: Tables) {
    && |t.tnRefs| == |t.lists| <= t.next
    && (forall k :: k in t.tnRefs ==> t.tnRefs[k] < |t.lists|)
    && (forall o :: o in t.objRefs ==> t.objRefs[o] < t.next)
    && (forall o, p :: o in t.objRefs && p in t.objRefs && o != p ==> t.objRefs[o] != t.objRefs[p])
    && t.open <= t.objRefs.Keys
    && KnowsHashtable(t)
  }

  /** What was recorded stays recorded, new objects get new ids, and every element opened is closed. */
  ghost predicate Extends(t: Tables, t': Tables) {
    && t'.base == t.base && t'.open == t.open && t.next <= t'.next
    && (forall o :: o in t.objRefs ==> o in t'.objRefs && t'.objRefs[o] == t.objRefs[o])
    && (forall o :: o in t'.objRefs && o !in t.objRefs ==> t.next <= t'.objRefs[o])
    && t.lists <= t'.lists
    && (forall k :: k in t.tnRefs ==> k in t'.tnRefs && t'.tnRefs[k] == t.tnRefs[k])
    && (forall k :: k in t'.tnRefs && k !in t.tnRefs ==> |t.lists| <= t'.tnRefs[k])
  }

  lemma ExtendsTransitive(t: Tables, u: Tables, w: Tables)
    requires Extends(t, u) && Extends(u, w)
    ensures Extends(t, w)
  {
  }

  lemma TypeNamesKeeps(t: Tables, key: Str, names: seq<Str>)
    requires Valid(t) && |t.lists| < t.next
    requires key == HASHTABLE ==> names != [] && names[0] == HASHTABLE
    ensures var t' := TypeNames(t, key, names).1; Valid(t') && Extends(t, t')
  {
  }

  /** The start of an Obj element and its type names. */
  lemma StartKeeps(t: Tables, key: Str, names: seq<Str>)
    requires Valid(t)
    requires key == HASHTABLE ==> names != [] && names[0] == HASHTABLE
    ensures var u := TypeNames(t.(next := t.next + 1), key, names).1; Valid(u) && Extends(t, u)
  {
    TypeNamesKeeps(t.(next := t.next + 1), key, names);
  }

  lemma OptionalStartKeeps(t: Tables, names: seq<Str>)
    requires Valid(t)
    ensures var u := OptionalTypeNames(t.(next := t.next + 1), names).1; Valid(u) && Extends(t, u)
  {
    if names != [] {
      if Join(names) == HASHTABLE {
        JoinIsHashtable(names);
      }
      StartKeeps(t, Join(names), names);
    }
  }

  lemma EnterKeeps(t: Tables, id: int, names: seq<Str>)
    requires Valid(t) && id !in t.objRefs
    ensures Valid(Entered(t, id))
    ensures var u := OptionalTypeNames(Entered(t, id), names).1; Valid(u) && Extends(Entered(t, id), u)
  {
    if names != [] {
      if Join(names) == HASHTABLE {
        JoinIsHashtable(names);
      }
      TypeNamesKeeps(Entered(t, id), Join(names), names);
    }
  }

  lemma {:induction false} WriteKeeps(h: Heap, t: Tables, v: Value, name: Str)
    requires Valid(t)
    requires Write(h, t, v, name).status == Done
    ensures var t' := Write(h, t, v, name).t; Valid(t') && Extends(t, t')
    decreases Unvisited(h, t), v, 2, 0
  {
    match v
    case Enum(_, _, _) => WriteEnumKeeps(t, v, name);
    case List(_, _) => WriteListKeeps(h, t, v, name);
    case Dict(_) => WriteDictKeeps(h, t, v, name);
    case Obj(id) =>
      if id !in t.objRefs {
        WriteObjectKeeps(h, t, id, name);
      } else {
        ExtendsReflexive(t);
      }
    case _ => LeafKeeps(h, t, v, name);
  }

  lemma LeafKeeps(h: Heap, t: Tables, v: Value, name: Str)
    requires Valid(t) && !v.Enum? && !v.List? && !v.Dict? && !v.Obj?
    ensures var t' := Write(h, t, v, name).t; Valid(t') && Extends(t, t')
  {
    assert Write(h, t, v, name).t == t;
    ExtendsReflexive(t);
  }

  lemma ExtendsReflexive(t: Tables)
    ensures Extends(t, t)
  {
  }

  lemma EnumNamesKeep(t: Tables, enumType: Str)
    requires Valid(t)
    ensures var u := TypeNames(t.(next := t.next + 1), Join(EnumNames(enumType)), EnumNames(enumType)).1;
            Valid(u) && Extends(t, u)
  {
    if Join(EnumNames(enumType)) == HASHTABLE {
      JoinIsHashtable(EnumNames(enumType));
    }
    StartKeeps(t, Join(EnumNames(enumType)), EnumNames(enumType));
  }

  lemma WriteEnumKeeps(t: Tables, v: Value, name: Str)
    requires Valid(t) && v.Enum?
    ensures var t' := WriteEnum(t, v, name).t; Valid(t') && Extends(t, t')
  {
    EnumNamesKeep(t, v.enumType);
  }

  // ---------- the elements of lists and hashtables ----------

  /** The tables after the start of a list's element. */
  function ListTables(t: Tables, v: Value): Tables
    requires v.List?
  {
    OptionalTypeNames(t.(next := t.next + 1), ListNames(v.kind)).1
  }

  function DictTables(t: Tables): Tables {
    TypeNames(t.(next := t.next + 1), HASHTABLE, HASHTABLE_NAMES).1
  }

  /** What the element of a list is made of, apart from its tokens. */
  ghost predicate ListOf(e: Emission<Value>, items: Emission<seq<Value>>) {
    && e.status == items.status && e.t == items.t && e.image == List(Plain, items.image) && e.nodes == items.nodes
    && e.back == items.back && e.need == 1 + items.need
  }

  ghost predicate DictOf(e: Emission<Value>, entries: Emission<map<Str, Value>>) {
    && e.status == entries.status && e.t == entries.t && e.image == Dict(entries.image) && e.nodes == entries.nodes
    && e.back == entries.back && e.need == 1 + entries.need
  }

  lemma ListParts(h: Heap, t: Tables, v: Value, name: Str)
    requires v.List?
    ensures ListOf(WriteList(h, t, v, name), WriteItems(h, ListTables(t, v), v, 0))
  {
  }

  lemma DictParts(h: Heap, t: Tables, v: Value, name: Str)
    requires v.Dict?
    ensures DictOf(WriteDict(h, t, v, name), WriteEntries(h, DictTables(t), v, SortedKeys(v.m.Keys), 0))
  {
  }

  lemma ListTablesKeep(t: Tables, v: Value)
    requires Valid(t) && v.List?
    ensures var u := ListTables(t, v); Valid(u) && Extends(t, u) && u.objRefs == t.objRefs && u.open == t.open
  {
    OptionalStartKeeps(t, ListNames(v.kind));
  }

  lemma DictTablesKeep(t: Tables)
    requires Valid(t)
    ensures var u := DictTables(t); Valid(u) && Extends(t, u) && u.objRefs == t.objRefs && u.open == t.open
  {
    StartKeeps(t, HASHTABLE, HASHTABLE_NAMES);
  }

  /** The tables after the start of a list's element, all that the rest of it depends on. */
  lemma ListElement(h: Heap, t: Tables, v: Value, name: Str) returns (u: Tables)
    requires v.List? && Valid(t)
    ensures Valid(u) && Extends(t, u) && u.objRefs == t.objRefs && u.open == t.open
    ensures ListOf(WriteList(h, t, v, name), WriteItems(h, u, v, 0))
  {
    u := ListTables(t, v);
    ListTablesKeep(t, v);
    ListParts(h, t, v, name);
  }

  lemma DictElement(h: Heap, t: Tables, v: Value, name: Str) returns (u: Tables)
    requires v.Dict? && Valid(t)
    ensures Valid(u) && Extends(t, u) && u.objRefs == t.objRefs && u.open == t.open
    ensures DictOf(WriteDict(h, t, v, name), WriteEntries(h, u, v, SortedKeys(v.m.Keys), 0))
  {
    u := DictTables(t);
    DictTablesKeep(t);
    DictParts(h, t, v, name);
  }

  lemma {:induction false} WriteDictKeeps(h: Heap, t: Tables, v: Value, name: Str)
    requires Valid(t) && v.Dict?
    requires WriteDict(h, t, v, name).status == Done
    ensures var t' := WriteDict(h, t, v, name).t; Valid(t') && Extends(t, t')
    decreases Unvisited(h, t), v, 1, 0
  {
    var u := DictElement(h, t, v, name);
    WriteEntriesKeeps(h, u, v, SortedKeys(v.m.Keys), 0);
    ExtendsTransitive(t, u, WriteEntries(h, u, v, SortedKeys(v.m.Keys), 0).t);
  }

  lemma {:induction false} WriteListKeeps(h: Heap, t: Tables, v: Value, name: Str)
    requires Valid(t) && v.List?
    requires WriteList(h, t, v, name).status == Done
    ensures var t' := WriteList(h, t, v, name).t; Valid(t') && Extends(t, t')
    decreases Unvisited(h, t), v, 1, 0
  {
    var u := ListElement(h, t, v, name);
    WriteItemsKeeps(h, u, v, 0);
    ExtendsTransitive(t, u, WriteItems(h, u, v, 0).t);
  }

  lemma {:induction false} WriteItemsKeeps(h: Heap, t: Tables, v: Value, i: nat)
    requires Valid(t) && v.List? && i <= |v.items|
    requires WriteItems(h, t, v, i).status == Done
    ensures var t' := WriteItems(h, t, v, i).t; Valid(t') && Extends(t, t')
    decreases Unvisited(h, t), v, 0, |v.items| - i
  {
    if i < |v.items| {
      WriteKeeps(h, t, v.items[i], []);
      var u := Write(h, t, v.items[i], []).t;
      UnvisitedMonotone(h, t, u);
      WriteItemsKeeps(h, u, v, i + 1);
      ExtendsTransitive(t, u, WriteItems(h, u, v, i + 1).t);
    }
  }

  lemma {:induction false} WriteEntriesKeeps(h: Heap, t: Tables, v: Value, keys: seq<Str>, i: nat)
    requires Valid(t) && v.Dict? && i <= |keys| && forall k :: k in keys ==> k in v.m
    requires WriteEntries(h, t, v, keys, i).status == Done
    ensures var t' := WriteEntries(h, t, v, keys, i).t; Valid(t') && Extends(t, t')
    decreases Unvisited(h, t), v, 0, |keys| - i
  {
    if i < |keys| {
      WriteKeeps(h, t, v.m[keys[i]], VALUE);
      var u := Write(h, t, v.m[keys[i]], VALUE).t;
      UnvisitedMonotone(h, t, u);
      WriteEntriesKeeps(h, u, v, keys, i + 1);
      ExtendsTransitive(t, u, WriteEntries(h, u, v, keys, i + 1).t);
    }
  }

  /** The tables inside the element of an object just numbered. */
  function Entered(t: Tables, id: int): Tables {
    t.(next := t.next + 1, objRefs := t.objRefs[id := t.next], open := t.open + {id})
  }

  lemma {:induction false} WriteObjectKeeps(h: Heap, t: Tables, id: int, name: Str)
    requires Valid(t) && id in h && id !in t.objRefs
    requires WriteObject(h, t, id, name).status == Done
    ensures var t' := WriteObject(h, t, id, name).t; Valid(t') && Extends(t, t')
    decreases Unvisited(h, t), Obj(id), 1, 0
  {
    var n := h[id];
    var t1 := Entered(t, id);
    var t2 := OptionalTypeNames(t1, n.typeNames).1;
    EnterKeeps(t, id, n.typeNames);
    UnvisitedDrops(h, t, t2, id);
    WriteBagKeeps(h, t2, MSTag, Dict(n.members), MemberKeys(n));
    var t3 := WriteBag(h, t2, MSTag, Dict(n.members), MemberKeys(n)).t;
    UnvisitedMonotone(h, t2, t3);
    WriteBagKeeps(h, t3, PropsTag, Dict(n.props), SortedKeys(n.props.Keys));
    var t4 := WriteBag(h, t3, PropsTag, Dict(n.props), SortedKeys(n.props.Keys)).t;
    ExtendsTransitive(t2, t3, t4);
    ExtendsTransitive(t1, t2, t4);
    LeaveKeeps(t, id, t4);
  }

  /** Closing the element of an object restores what was open before it. */
  lemma LeaveKeeps(t: Tables, id: int, u: Tables)
    requires Valid(t) && id !in t.objRefs && Valid(u) && Extends(Entered(t, id), u)
    ensures var t' := u.(open := u.open - {id}); Valid(t') && Extends(t, t')
  {
    assert u.open - {id} == t.open;
  }

  lemma {:induction false} WriteBagKeeps(h: Heap, t: Tables, tag: Tag, v: Value, keys: seq<Str>)
    requires Valid(t) && v.Dict?
    requires WriteBag(h, t, tag, v, keys).status == Done
    ensures var t' := WriteBag(h, t, tag, v, keys).t; Valid(t') && Extends(t, t')
    decreases Unvisited(h, t), v, 1, 0
  {
    if v.m != map[] {
      WritePropertiesKeeps(h, t, v, keys, 0);
    }
  }

  lemma {:induction false} WritePropertiesKeeps(h: Heap, t: Tables, v: Value, keys: seq<Str>, i: nat)
    requires Valid(t) && v.Dict? && i <= |keys|
    requires WriteProperties(h, t, v, keys, i).status == Done
    ensures var t' := WriteProperties(h, t, v, keys, i).t; Valid(t') && Extends(t, t')
    decreases Unvisited(h, t), v, 0, |keys| - i
  {
    if i < |keys| {
      var k := keys[i];
      var u := (if k in v.m then Write(h, t, v.m[k], k) else WriteNil(t, k)).t;
      if k in v.m {
        WriteKeeps(h, t, v.m[k], k);
      }
      UnvisitedMonotone(h, t, u);
      WritePropertiesKeeps(h, u, v, keys, i + 1);
      ExtendsTransitive(t, u, WriteProperties(h, u, v, keys, i + 1).t);
    }
  }

  /** What is written for the i-th key: the member's value, or Nil for a key that has none. */
  function WriteProperty(h: Heap, t: Tables, v: Value, k: Str): Emission<Value>
    requires v.Dict?
  {
    if k in v.m then Write(h, t, v.m[k], k) else WriteNil(t, k)
  }

  lemma PropertyKeeps(h: Heap, t: Tables, v: Value, k: Str)
    requires v.Dict? && WriteProperty(h, t, v, k).status == Done && Valid(t)
    ensures var u := WriteProperty(h, t, v, k).t; Valid(u) && Extends(t, u)
  {
    if k in v.m {
      WriteKeeps(h, t, v.m[k], k);
    } else {
      ExtendsReflexive(t);
    }
  }

  /** The first property and the others. */
  lemma PropertyParts(h: Heap, t: Tables, v: Value, keys: seq<Str>, i: nat, j: nat)
    returns (val: Emission<Value>, more: Emission<map<Str, Value>>)
    requires v.Dict? && i < |keys| && j == i + 1 && WriteProperties(h, t, v, keys, i).status == Done && Valid(t)
    ensures val == WriteProperty(h, t, v, keys[i]) && more == WriteProperties(h, val.t, v, keys, j)
    ensures val.status == Done && more.status == Done && Valid(val.t) && Extends(t, val.t) && Extends(val.t, more.t)
    ensures Unvisited(h, val.t) <= Unvisited(h, t)
    ensures var e := WriteProperties(h, t, v, keys, i);
            && e.toks == val.toks + more.toks && e.t == more.t && e.back == (val.back || more.back)
            && e.image == (if keys[i] == [] then map[] else map[keys[i] := val.image]) + more.image
            && e.nodes == val.nodes + more.nodes
            && e.need == Max(val.need, more.need)
  {
    val, more := PropertySplits(h, t, v, keys, i, j);
    UnvisitedMonotone(h, t, val.t);
    PropertyKeeps(h, t, v, keys[i]);
    WritePropertiesKeeps(h, val.t, v, keys, j);
  }

  lemma PropertySplits(h: Heap, t: Tables, v: Value, keys: seq<Str>, i: nat, j: nat)
    returns (val: Emission<Value>, more: Emission<map<Str, Value>>)
    requires v.Dict? && i < |keys| && j == i + 1 && WriteProperties(h, t, v, keys, i).status == Done
    ensures val == WriteProperty(h, t, v, keys[i]) && more == WriteProperties(h, val.t, v, keys, j)
    ensures val.status == Done && more.status == Done && t.objRefs.Keys <= val.t.objRefs.Keys
    ensures var e := WriteProperties(h, t, v, keys, i);
            && e.toks == val.toks + more.toks && e.t == more.t && e.back == (val.back || more.back)
            && e.image == (if keys[i] == [] then map[] else map[keys[i] := val.image]) + more.image
            && e.nodes == val.nodes + more.nodes
            && e.need == Max(val.need, more.need)
  {
    val := WriteProperty(h, t, v, keys[i]);
    more := WriteProperties(h, val.t, v, keys, j);
  }

  /** The first element of a list and the others. */
  lemma ItemParts(h: Heap, t: Tables, v: Value, i: nat, j: nat)
    returns (first: Emission<Value>, more: Emission<seq<Value>>)
    requires v.List? && i < |v.items| && j == i + 1 && WriteItems(h, t, v, i).status == Done && Valid(t)
    ensures first == Write(h, t, v.items[i], []) && more == WriteItems(h, first.t, v, j)
    ensures first.status == Done && more.status == Done && Valid(first.t) && Extends(t, first.t)
    ensures Extends(first.t, more.t)
    ensures Unvisited(h, first.t) <= Unvisited(h, t)
    ensures var e := WriteItems(h, t, v, i);
            && e.toks == first.toks + more.toks && e.t == more.t && e.back == (first.back || more.back)
            && e.image == [first.image] + more.image && e.nodes == first.nodes + more.nodes
            && e.need == Max(first.need, more.need)
  {
    first := Write(h, t, v.items[i], []);
    more := WriteItems(h, first.t, v, j);
    UnvisitedMonotone(h, t, first.t);
    WriteKeeps(h, t, v.items[i], []);
    WriteItemsKeeps(h, first.t, v, j);
  }

  /** The first entry of a hashtable and the others. */
  lemma EntryParts(h: Heap, t: Tables, v: Value, keys: seq<Str>, i: nat, j: nat)
    returns (key: seq<Token>, val: Emission<Value>, more: Emission<map<Str, Value>>)
    requires v.Dict? && i < |keys| && j == i + 1 && (forall k :: k in keys ==> k in v.m)
    requires WriteEntries(h, t, v, keys, i).status == Done && Valid(t)
    ensures key == Leaf(t, STag, KEY, keys[i], Null).toks
    ensures val == Write(h, t, v.m[keys[i]], VALUE) && more == WriteEntries(h, val.t, v, keys, j)
    ensures val.status == Done && more.status == Done && Valid(val.t) && Extends(t, val.t) && Extends(val.t, more.t)
    ensures Unvisited(h, val.t) <= Unvisited(h, t)
    ensures var e := WriteEntries(h, t, v, keys, i);
            && e.toks == [Start(EnTag, None, None)] + (key + val.toks) + ([End(EnTag)] + more.toks)
            && e.t == more.t && e.back == (val.back || more.back) && e.need == Max(val.need, more.need)
            && e.image == map[CS.Decode(keys[i]) := val.image] + more.image && e.nodes == val.nodes + more.nodes
  {
    key := Leaf(t, STag, KEY, keys[i], Null).toks;
    val := Write(h, t, v.m[keys[i]], VALUE);
    more := WriteEntries(h, val.t, v, keys, j);
    UnvisitedMonotone(h, t, val.t);
    WriteKeeps(h, t, v.m[keys[i]], VALUE);
    WriteEntriesKeeps(h, val.t, v, keys, j);
  }

  /** A bag that is not empty. */
  lemma BagParts(h: Heap, t: Tables, tag: Tag, v: Value, keys: seq<Str>)
    requires v.Dict? && v.m != map[] && WriteBag(h, t, tag, v, keys).status == Done
    ensures var e, all := WriteBag(h, t, tag, v, keys), WriteProperties(h, t, v, keys, 0);
            && all.status == Done && e.toks == [Start(tag, None, None)] + (all.toks + [End(tag)])
            && e.t == all.t && e.image == all.image && e.nodes == all.nodes && e.back == all.back && e.need == all.need
  {
  }
}
