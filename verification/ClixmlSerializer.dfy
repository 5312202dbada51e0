/** The serializer as the source has it: an object whose methods append to a buffer and update its tables. */
module ClixmlSerializer {
  import opened Wrappers
  import opened Sequences
  import opened Clixml
  import opened ClixmlTables
  import opened ClixmlDocument
  import W = ClixmlWriter
  import CS = ClixmlString
  import Decimal
  import Base64
  import Guid

  // ---------- one round of each loop ----------

  /** head followed by all of whole is buf followed by rest, and rest ends as whole does. */
  ghost predicate ToGo<T>(head: seq<Token>, whole: W.Emission<T>, buf: seq<Token>, rest: W.Emission<T>) {
    head + whole.toks == buf + rest.toks && whole.t == rest.t && whole.status == rest.status
  }

  /** rest is what follows the tokens done of a part that ended well; a part that did not ends everything. */
  ghost predicate Round<T>(all: W.Emission<T>, done: seq<Token>, status: W.Status, t: W.Tables, rest: W.Emission<T>) {
    if status == W.Done then all.toks == done + rest.toks && all.t == rest.t && all.status == rest.status
    else all.toks == done && all.t == t && all.status == status
  }

  lemma Advance<T>(head: seq<Token>, whole: W.Emission<T>, buf: seq<Token>, all: W.Emission<T>, done: seq<Token>,
                   status: W.Status, t: W.Tables, rest: W.Emission<T>, buf': seq<Token>)
    requires ToGo(head, whole, buf, all) && Round(all, done, status, t, rest) && buf' == buf + done
    ensures if status == W.Done then ToGo(head, whole, buf', rest)
            else buf' == head + whole.toks && whole.t == t && whole.status == status
  {
    if status == W.Done {
      assert buf + (done + rest.toks) == buf + done + rest.toks;
    }
  }

  lemma ItemRound(h: Heap, t: W.Tables, v: Value, i: nat, j: nat)
    requires v.List? && i < |v.items| && j == i + 1
    ensures var first := W.Write(h, t, v.items[i], []);
            Round(W.WriteItems(h, t, v, i), first.toks, first.status, first.t, W.WriteItems(h, first.t, v, j))
  {
  }

  lemma EntryRound(h: Heap, t: W.Tables, v: Value, keys: seq<Str>, i: nat, j: nat)
    requires v.Dict? && i < |keys| && j == i + 1 && forall k :: k in keys ==> k in v.m
    ensures var val := W.Write(h, t, v.m[keys[i]], VALUE);
            var opening := [Start(EnTag, None, None)] + (W.Leaf(t, STag, KEY, keys[i], Null).toks + val.toks);
            Round(W.WriteEntries(h, t, v, keys, i), if val.status == W.Done then opening + [End(EnTag)] else opening,
                  val.status, val.t, W.WriteEntries(h, val.t, v, keys, j))
  {
    var val := W.Write(h, t, v.m[keys[i]], VALUE);
    if val.status == W.Done {
      var opening := [Start(EnTag, None, None)] + (W.Leaf(t, STag, KEY, keys[i], Null).toks + val.toks);
      var rest := W.WriteEntries(h, val.t, v, keys, j).toks;
      assert opening + ([End(EnTag)] + rest) == opening + [End(EnTag)] + rest;
    }
  }

  lemma PropertyRound(h: Heap, t: W.Tables, v: Value, keys: seq<Str>, i: nat, j: nat)
    requires v.Dict? && i < |keys| && j == i + 1
    ensures var val := if keys[i] in v.m then W.Write(h, t, v.m[keys[i]], keys[i]) else W.WriteNil(t, keys[i]);
            Round(W.WriteProperties(h, t, v, keys, i), val.toks, val.status, val.t,
                  W.WriteProperties(h, val.t, v, keys, j))
  {
  }

  // ---------- the elements around the loops ----------

  lemma ListWritten(h: Heap, t: W.Tables, v: Value, name: Str, t0: W.Tables, tn: seq<Token>,
                    items: W.Emission<seq<Value>>, end: seq<Token>)
    requires v.List? && t0 == t.(next := t.next + 1) && tn == W.OptionalTypeNames(t0, W.ListNames(v.kind)).0
    requires items == W.WriteItems(h, W.OptionalTypeNames(t0, W.ListNames(v.kind)).1, v, 0)
    requires end == if items.status == W.Done then [End(LSTTag), End(ObjTag)] else []
    ensures var e := W.WriteList(h, t, v, name);
            && e.status == items.status && e.t == items.t
            && e.toks == [W.ObjStart(t, name)] + (tn + ([Start(LSTTag, None, None)] + (items.toks + end)))
  {
  }

  lemma DictWritten(h: Heap, t: W.Tables, v: Value, name: Str, t0: W.Tables, tn: seq<Token>,
                    entries: W.Emission<map<Str, Value>>, end: seq<Token>)
    requires v.Dict? && t0 == t.(next := t.next + 1) && tn == W.TypeNames(t0, HASHTABLE, HASHTABLE_NAMES).0
    requires entries == W.WriteEntries(h, W.TypeNames(t0, HASHTABLE, HASHTABLE_NAMES).1, v, SortedKeys(v.m.Keys), 0)
    requires end == if entries.status == W.Done then [End(DCTTag), End(ObjTag)] else []
    ensures var e := W.WriteDict(h, t, v, name);
            && e.status == entries.status && e.t == entries.t
            && e.toks == [W.ObjStart(t, name)] + (tn + ([Start(DCTTag, None, None)] + (entries.toks + end)))
  {
  }

  /** An object's emission when its members cannot be written, when its properties cannot, and when all is well. */
  lemma MembersFailed(h: Heap, t: W.Tables, id: int, name: Str, t2: W.Tables, head: seq<Token>,
                      ms: W.Emission<map<Str, Value>>)
    requires id in h && id !in t.objRefs && t2 == W.OptionalTypeNames(Entered(t, id), h[id].typeNames).1
    requires head == HeadTokens(t, id, h[id], name)
    requires ms == W.WriteBag(h, t2, MSTag, Dict(h[id].members), MemberKeys(h[id])) && ms.status != W.Done
    ensures var e := W.WriteObject(h, t, id, name); e.status == ms.status && e.t == ms.t && e.toks == head + ms.toks
  {
  }

  lemma PropertiesFailed(h: Heap, t: W.Tables, id: int, name: Str, t2: W.Tables, head: seq<Token>,
                         ms: W.Emission<map<Str, Value>>, ps: W.Emission<map<Str, Value>>)
    requires id in h && id !in t.objRefs && t2 == W.OptionalTypeNames(Entered(t, id), h[id].typeNames).1
    requires head == HeadTokens(t, id, h[id], name)
    requires ms == W.WriteBag(h, t2, MSTag, Dict(h[id].members), MemberKeys(h[id])) && ms.status == W.Done
    requires ps == W.WriteBag(h, ms.t, PropsTag, Dict(h[id].props), SortedKeys(h[id].props.Keys)) && ps.status != W.Done
    ensures var e := W.WriteObject(h, t, id, name);
            e.status == ps.status && e.t == ps.t && e.toks == head + (ms.toks + ps.toks)
  {
  }

  lemma ObjectWritten(h: Heap, t: W.Tables, id: int, name: Str, t2: W.Tables, head: seq<Token>,
                      ms: W.Emission<map<Str, Value>>, ps: W.Emission<map<Str, Value>>)
    requires id in h && id !in t.objRefs && t2 == W.OptionalTypeNames(Entered(t, id), h[id].typeNames).1
    requires head == HeadTokens(t, id, h[id], name)
    requires ms == W.WriteBag(h, t2, MSTag, Dict(h[id].members), MemberKeys(h[id])) && ms.status == W.Done
    requires ps == W.WriteBag(h, ms.t, PropsTag, Dict(h[id].props), SortedKeys(h[id].props.Keys)) && ps.status == W.Done
    ensures var e := W.WriteObject(h, t, id, name);
            && e.status == W.Done && e.t == ps.t.(open := ps.t.open - {id})
            && e.toks == head + (ms.toks + (ps.toks + [End(ObjTag)]))
  {
  }

  ghost function HeadTokens(t: W.Tables, id: int, n: Node, name: Str): seq<Token> {
    [W.ObjStart(t, name)] + (W.OptionalTypeNames(Entered(t, id), n.typeNames).0 + W.OptionalToString(n.toString))
  }

  lemma BagWritten(h: Heap, t: W.Tables, tag: Tag, v: Value, keys: seq<Str>, ps: W.Emission<map<Str, Value>>)
    requires v.Dict? && v.m != map[] && ps == W.WriteProperties(h, t, v, keys, 0)
    ensures var e := W.WriteBag(h, t, tag, v, keys);
            && e.status == ps.status && e.t == ps.t
            && e.toks == [Start(tag, None, None)] + (ps.toks + (if ps.status == W.Done then [End(tag)] else []))
  {
  }

  lemma NameWritten(before: seq<Token>, name: Str, rest: seq<Token>)
    ensures before + ([Start(TTag, None, None)] + (TextTokens(name) + [End(TTag)])) + rest
            == before + ([Start(TTag, None, None)] + (TextTokens(name) + ([End(TTag)] + rest)))
  {
    Flat3([Start(TTag, None, None)], TextTokens(name), [End(TTag)], rest);
    Regroup2([Start(TTag, None, None)], TextTokens(name), [End(TTag)]);
    Regroup2(before, [Start(TTag, None, None)] + (TextTokens(name) + [End(TTag)]), rest);
  }

  class Serializer {
    var buf: seq<Token>
    var refCounter: nat
    var objRefs: map<int, nat>
    var tnRefs: map<Str, nat>
    ghost var lists: seq<seq<Str>>
    ghost var open: set<int>
    ghost var base: int

    ghost function State(): W.Tables
      reads this
    {
      W.Tables(refCounter, objRefs, tnRefs, lists, open, base)
    }

    constructor ()
      ensures buf == [] && State() == W.FreshTables(0)
    {
      buf, refCounter, objRefs, tnRefs := [], 0, map[], map[];
      lists, open, base := [], {}, 0;
    }

    /** Reset: everything a document left behind is forgotten. */
    method Reset(ghost readerBase: int)
      modifies this
      ensures buf == [] && State() == W.FreshTables(readerBase)
    {
      buf, refCounter, objRefs, tnRefs := [], 0, map[], map[];
      lists, open, base := [], {}, readerBase;
    }

    /** Serialize clears the buffer, but not the tables. */
    method Serialize(h: Heap, v: Value) returns (r: Result<seq<Token>, W.Status>)
      modifies this
      ensures var e := W.Write(h, old(State()), v, []);
              && State() == e.t
              && r == if e.status == W.Done then Ok(Wrapped(e.toks)) else Err(e.status)
    {
      buf := [Start(ObjsTag, None, None)];
      var status := SerializeValueWithName(h, v, []);
      if status != W.Done {
        return Err(status);
      }
      ghost var toks := W.Write(h, old(State()), v, []).toks;
      Regroup2([Start(ObjsTag, None, None)], toks, [End(ObjsTag)]);
      buf := buf + [End(ObjsTag)];
      r := Ok(buf);
    }

    method SerializeRaw(h: Heap, v: Value) returns (r: Result<seq<Token>, W.Status>)
      modifies this
      ensures var e := W.Write(h, old(State()), v, []);
              && State() == e.t
              && r == if e.status == W.Done then Ok(e.toks) else Err(e.status)
    {
      buf := [];
      var status := SerializeValueWithName(h, v, []);
      assert [] + W.Write(h, old(State()), v, []).toks == W.Write(h, old(State()), v, []).toks;
      r := if status == W.Done then Ok(buf) else Err(status);
    }

    method WriteLeaf(tag: Tag, name: Str, text: Str)
      modifies this
      ensures buf == old(buf) + W.Leaf(old(State()), tag, name, text, Null).toks && State() == old(State())
    {
      buf := buf + ([Start(tag, W.NameAttr(name), None)] + (TextTokens(text) + [End(tag)]));
    }

    /** A TNRef for names already numbered, otherwise a TN with one T for each name. */
    method WriteTypeNames(key: Str, names: seq<Str>)
      modifies this
      ensures var (tn, t) := W.TypeNames(old(State()), key, names); buf == old(buf) + tn && State() == t
    {
      if key in tnRefs {
        buf := buf + [Start(TNRefTag, None, Some(Decimal.Itoa(tnRefs[key]))), End(TNRefTag)];
      } else {
        var id := |tnRefs|;
        tnRefs, lists := tnRefs[key := id], lists + [names];
        buf := buf + [Start(TNTag, None, Some(Decimal.Itoa(id)))];
        ghost var before := buf;
        var i := 0;
        while i < |names|
          invariant 0 <= i <= |names|
          invariant buf + W.NameTokens(names[i..]) == before + W.NameTokens(names)
          invariant State() == W.TypeNames(old(State()), key, names).1
        {
          ghost var so, rest := buf, names[i + 1..];
          assert names[i..][0] == names[i] && names[i..][1..] == rest;
          buf := buf + ([Start(TTag, None, None)] + (TextTokens(names[i]) + [End(TTag)]));
          NameWritten(so, names[i], W.NameTokens(rest));
          i := i + 1;
        }
        assert names[|names|..] == [] && buf + [] == buf;
        Flat3(old(buf), [Start(TNTag, None, Some(Decimal.Itoa(id)))], W.NameTokens(names), [End(TNTag)]);
        buf := buf + [End(TNTag)];
      }
    }

    /** As WriteTypeNames, but nothing for an empty list. */
    method WriteOptionalTypeNames(names: seq<Str>)
      modifies this
      ensures var (tn, t) := W.OptionalTypeNames(old(State()), names); buf == old(buf) + tn && State() == t
    {
      if names != [] {
        WriteTypeNames(Join(names), names);
      }
    }

    method WriteObjStart(name: Str)
      modifies this
      ensures buf == old(buf) + [W.ObjStart(old(State()), name)]
      ensures State() == old(State()).(next := old(refCounter) + 1)
    {
      var refId := refCounter;
      refCounter := refCounter + 1;
      buf := buf + [Start(ObjTag, W.NameAttr(name), Some(Decimal.Itoa(refId)))];
    }

    method SerializeValueWithName(h: Heap, v: Value, name: Str) returns (status: W.Status)
      modifies this
      ensures var e := W.Write(h, old(State()), v, name);
              status == e.status && buf == old(buf) + e.toks && State() == e.t
      decreases W.Unvisited(h, State()), v, 2, 0
    {
      status := W.Done;
      match v
      case Null => buf := buf + [Start(NilTag, W.NameAttr(name), None), End(NilTag)];
      case Enum(_, _, _) => SerializeEnum(v, name);
      case List(_, _) => status := SerializeList(h, v, name);
      case Dict(_) => status := SerializeHashtable(h, v, name);
      case Obj(_) => status := SerializePointer(h, v, name);
      case Unsupported => status := W.UnsupportedType;
      case _ => SerializeScalar(h, v, name);
    }

    /** The types written as a single element around a text. */
    method SerializeScalar(h: Heap, v: Value, name: Str)
      requires !v.Null? && !v.Enum? && !v.List? && !v.Dict? && !v.Obj? && !v.Unsupported?
      modifies this
      ensures var e := W.Write(h, old(State()), v, name);
              e.status == W.Done && buf == old(buf) + e.toks && State() == e.t
    {
      match v
      case String(s) => WriteLeaf(STag, name, CS.Encode(s));
      case Int(n) => WriteLeaf(I32Tag, name, Decimal.Itoa(SafeInt32(n)));
      case Int32(i) => WriteLeaf(I32Tag, name, Decimal.Itoa(i));
      case Int64(l) => WriteLeaf(I64Tag, name, Decimal.Itoa(l));
      case Bool(b) => WriteLeaf(BTag, name, if b then TRUE else FALSE);
      case ByteArray(b) => WriteLeaf(BATag, name, Base64.Encode(b));
      case Uuid(g) => WriteLeaf(GTag, name, Guid.Format(g));
      case ScriptBlock(c) => WriteLeaf(SBTag, name, CS.Encode(c));
    }

    /** A *PSObject: a Ref to one already numbered, otherwise the object itself. */
    method SerializePointer(h: Heap, v: Value, name: Str) returns (status: W.Status)
      requires v.Obj?
      modifies this
      ensures var e := W.Write(h, old(State()), v, name);
              status == e.status && buf == old(buf) + e.toks && State() == e.t
      decreases W.Unvisited(h, State()), v, 1, 2
    {
      status := W.Done;
      if v.id in objRefs {
        buf := buf + [Start(RefTag, W.NameAttr(name), Some(Decimal.Itoa(objRefs[v.id]))), End(RefTag)];
      } else if v.id in h {
        status := SerializePSObject(h, v.id, name);
      } else {
        status := W.NilPointer;
      }
    }

    method SerializeEnum(v: Value, name: Str)
      requires v.Enum?
      modifies this
      ensures var e := W.WriteEnum(old(State()), v, name); buf == old(buf) + e.toks && State() == e.t
    {
      ghost var t := State();
      WriteObjStart(name);
      var names := EnumNames(v.enumType);
      ghost var tn := W.TypeNames(State(), Join(names), names).0;
      WriteTypeNames(Join(names), names);
      buf := buf + W.ToStringTokens(v.enumText);
      ghost var number := [Start(I32Tag, None, None)]
          + (TextTokens(Decimal.Itoa(v.enumValue)) + [End(I32Tag), End(ObjTag)]);
      Flat3(old(buf) + [W.ObjStart(t, name)], tn, W.ToStringTokens(v.enumText), number);
      Regroup2(old(buf), [W.ObjStart(t, name)], tn + (W.ToStringTokens(v.enumText) + number));
      buf := buf + ([Start(I32Tag, None, None)] + (TextTokens(Decimal.Itoa(v.enumValue)) + [End(I32Tag), End(ObjTag)]));
    }

    /** serializeArray and serializeTypedList: the same but for the type names. */
    method SerializeList(h: Heap, v: Value, name: Str) returns (status: W.Status)
      requires v.List?
      modifies this
      ensures var e := W.WriteList(h, old(State()), v, name);
              status == e.status && buf == old(buf) + e.toks && State() == e.t
      decreases W.Unvisited(h, State()), v, 1, 0
    {
      ghost var t := State();
      WriteObjStart(name);
      ghost var t0 := State();
      ghost var tn := W.OptionalTypeNames(t0, W.ListNames(v.kind)).0;
      WriteOptionalTypeNames(W.ListNames(v.kind));
      buf := buf + [Start(LSTTag, None, None)];
      ghost var items := W.WriteItems(h, State(), v, 0);
      status := SerializeItems(h, v);
      ghost var end := if status == W.Done then [End(LSTTag), End(ObjTag)] else [];
      if status == W.Done {
        buf := buf + [End(LSTTag), End(ObjTag)];
      }
      Flat5(old(buf), [W.ObjStart(t, name)], tn, [Start(LSTTag, None, None)], items.toks, end);
      ListWritten(h, t, v, name, t0, tn, items, end);
    }

    method SerializeItems(h: Heap, v: Value) returns (status: W.Status)
      requires v.List?
      modifies this
      ensures var e := W.WriteItems(h, old(State()), v, 0);
              status == e.status && buf == old(buf) + e.toks && State() == e.t
      decreases W.Unvisited(h, State()), v, 0, |v.items| + 1
    {
      ghost var t, head := State(), buf;
      ghost var whole := W.WriteItems(h, t, v, 0);
      var i := 0;
      while i < |v.items|
        invariant 0 <= i <= |v.items|
        invariant t.objRefs.Keys <= objRefs.Keys
        invariant ToGo(head, whole, buf, W.WriteItems(h, State(), v, i))
      {
        ghost var u, before := State(), buf;
        W.UnvisitedMonotone(h, t, u);
        status := SerializeValueWithName(h, v.items[i], []);
        var j := i + 1;
        ItemRound(h, u, v, i, j);
        ghost var first := W.Write(h, u, v.items[i], []);
        Advance(head, whole, before, W.WriteItems(h, u, v, i), first.toks, status, State(),
                W.WriteItems(h, State(), v, j), buf);
        if status != W.Done {
          return;
        }
        i := j;
      }
      status := W.Done;
    }

    method SerializeHashtable(h: Heap, v: Value, name: Str) returns (status: W.Status)
      requires v.Dict?
      modifies this
      ensures var e := W.WriteDict(h, old(State()), v, name);
              status == e.status && buf == old(buf) + e.toks && State() == e.t
      decreases W.Unvisited(h, State()), v, 1, 0
    {
      ghost var t := State();
      WriteObjStart(name);
      ghost var t0 := State();
      ghost var tn := W.TypeNames(t0, HASHTABLE, HASHTABLE_NAMES).0;
      WriteTypeNames(HASHTABLE, HASHTABLE_NAMES);
      buf := buf + [Start(DCTTag, None, None)];
      ghost var entries := W.WriteEntries(h, State(), v, SortedKeys(v.m.Keys), 0);
      status := SerializeEntries(h, v, SortedKeys(v.m.Keys));
      ghost var end := if status == W.Done then [End(DCTTag), End(ObjTag)] else [];
      if status == W.Done {
        buf := buf + [End(DCTTag), End(ObjTag)];
      }
      Flat5(old(buf), [W.ObjStart(t, name)], tn, [Start(DCTTag, None, None)], entries.toks, end);
      DictWritten(h, t, v, name, t0, tn, entries, end);
    }

    method SerializeEntries(h: Heap, v: Value, keys: seq<Str>) returns (status: W.Status)
      requires v.Dict? && forall k :: k in keys ==> k in v.m
      modifies this
      ensures var e := W.WriteEntries(h, old(State()), v, keys, 0);
              status == e.status && buf == old(buf) + e.toks && State() == e.t
      decreases W.Unvisited(h, State()), v, 0, |keys| + 1
    {
      ghost var t, head := State(), buf;
      ghost var whole := W.WriteEntries(h, t, v, keys, 0);
      var i := 0;
      while i < |keys|
        invariant 0 <= i <= |keys|
        invariant t.objRefs.Keys <= objRefs.Keys
        invariant ToGo(head, whole, buf, W.WriteEntries(h, State(), v, keys, i))
      {
        ghost var u, before := State(), buf;
        W.UnvisitedMonotone(h, t, u);
        buf := buf + [Start(EnTag, None, None)];
        WriteLeaf(STag, KEY, keys[i]);
        status := SerializeValueWithName(h, v.m[keys[i]], VALUE);
        if status == W.Done {
          buf := buf + [End(EnTag)];
        }
        var j := i + 1;
        EntryRound(h, u, v, keys, i, j);
        ghost var key, val := W.Leaf(u, STag, KEY, keys[i], Null).toks, W.Write(h, u, v.m[keys[i]], VALUE).toks;
        ghost var opening := [Start(EnTag, None, None)] + (key + val);
        ghost var done := if status == W.Done then opening + [End(EnTag)] else opening;
        Flat3(before, [Start(EnTag, None, None)], key, val);
        Regroup2(before, opening, [End(EnTag)]);
        Advance(head, whole, before, W.WriteEntries(h, u, v, keys, i), done, status, State(),
                W.WriteEntries(h, State(), v, keys, j), buf);
        if status != W.Done {
          return;
        }
        i := j;
      }
      status := W.Done;
    }

    method SerializePSObject(h: Heap, id: int, name: Str) returns (status: W.Status)
      requires id in h && id !in objRefs
      modifies this
      ensures var e := W.WriteObject(h, old(State()), id, name);
              status == e.status && buf == old(buf) + e.toks && State() == e.t
      decreases W.Unvisited(h, State()), Obj(id), 1, 0
    {
      ghost var t, start := State(), buf;
      var n := h[id];
      SerializeHead(id, n, name);
      ghost var t2, head := State(), HeadTokens(t, id, n, name);
      W.UnvisitedDrops(h, t, t2, id);
      ghost var ms := W.WriteBag(h, t2, MSTag, Dict(n.members), MemberKeys(n));
      ghost var ps := W.WriteBag(h, ms.t, PropsTag, Dict(n.props), SortedKeys(n.props.Keys));
      status := SerializeBag(h, MSTag, Dict(n.members), MemberKeys(n));
      if status != W.Done {
        MembersFailed(h, t, id, name, t2, head, ms);
        Regroup2(start, head, ms.toks);
        return;
      }
      W.UnvisitedMonotone(h, t2, State());
      status := SerializeBag(h, PropsTag, Dict(n.props), SortedKeys(n.props.Keys));
      if status != W.Done {
        PropertiesFailed(h, t, id, name, t2, head, ms, ps);
        Flat3(start, head, ms.toks, ps.toks);
        return;
      }
      WriteObjEnd(id);
      ObjectWritten(h, t, id, name, t2, head, ms, ps);
      Flat4(start, head, ms.toks, ps.toks, [End(ObjTag)]);
    }

    method WriteObjEnd(ghost id: int)
      modifies this
      ensures buf == old(buf) + [End(ObjTag)]
      ensures var t := old(State()); State() == t.(open := t.open - {id})
    {
      buf, open := buf + [End(ObjTag)], open - {id};
    }

    /** The start of an object's element, its number, type names and string. */
    method SerializeHead(id: int, n: Node, name: Str)
      requires id !in objRefs
      modifies this
      ensures buf == old(buf) + HeadTokens(old(State()), id, n, name)
      ensures State() == W.OptionalTypeNames(Entered(old(State()), id), n.typeNames).1
    {
      ghost var t := State();
      var refId := refCounter;
      WriteObjStart(name);
      objRefs, open := objRefs[id := refId], open + {id};
      ghost var tn := W.OptionalTypeNames(State(), n.typeNames).0;
      WriteOptionalTypeNames(n.typeNames);
      if n.toString != [] {
        buf := buf + W.ToStringTokens(n.toString);
      }
      Flat3(old(buf), [W.ObjStart(t, name)], tn, W.OptionalToString(n.toString));
    }

    /** The Members or the Properties of an object, in the given order of keys. */
    method SerializeBag(h: Heap, tag: Tag, v: Value, keys: seq<Str>) returns (status: W.Status)
      requires v.Dict?
      modifies this
      ensures var e := W.WriteBag(h, old(State()), tag, v, keys);
              status == e.status && buf == old(buf) + e.toks && State() == e.t
      decreases W.Unvisited(h, State()), v, 1, 0
    {
      status := W.Done;
      if v.m != map[] {
        buf := buf + [Start(tag, None, None)];
        ghost var ps := W.WriteProperties(h, State(), v, keys, 0);
        BagWritten(h, State(), tag, v, keys, ps);
        status := SerializeProperties(h, v, keys);
        ghost var end := if status == W.Done then [End(tag)] else [];
        if status == W.Done {
          buf := buf + [End(tag)];
        }
        Flat3(old(buf), [Start(tag, None, None)], ps.toks, end);
      }
    }

    method SerializeProperties(h: Heap, v: Value, keys: seq<Str>) returns (status: W.Status)
      requires v.Dict?
      modifies this
      ensures var e := W.WriteProperties(h, old(State()), v, keys, 0);
              status == e.status && buf == old(buf) + e.toks && State() == e.t
      decreases W.Unvisited(h, State()), v, 0, |keys| + 1
    {
      ghost var t, head := State(), buf;
      ghost var whole := W.WriteProperties(h, t, v, keys, 0);
      var i := 0;
      while i < |keys|
        invariant 0 <= i <= |keys|
        invariant t.objRefs.Keys <= objRefs.Keys
        invariant ToGo(head, whole, buf, W.WriteProperties(h, State(), v, keys, i))
      {
        ghost var u, before := State(), buf;
        W.UnvisitedMonotone(h, t, u);
        ghost var val := if keys[i] in v.m then W.Write(h, u, v.m[keys[i]], keys[i]) else W.WriteNil(u, keys[i]);
        if keys[i] in v.m {
          status := SerializeValueWithName(h, v.m[keys[i]], keys[i]);
        } else {
          buf := buf + [Start(NilTag, W.NameAttr(keys[i]), None), End(NilTag)];
          status := W.Done;
        }
        var j := i + 1;
        PropertyRound(h, u, v, keys, i, j);
        Advance(head, whole, before, W.WriteProperties(h, u, v, keys, i), val.toks, status, State(),
                W.WriteProperties(h, State(), v, keys, j), buf);
        if status != W.Done {
          return;
        }
        i := j;
      }
      status := W.Done;
    }
  }
}
