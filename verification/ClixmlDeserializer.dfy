/** The deserializer as the source has it: an object that consumes tokens, with two tables and a depth counter. */
module ClixmlDeserializer {
  import opened Wrappers
  import opened Clixml
  import R = ClixmlReader
  import CS = ClixmlString

  /** What a child element makes of an object: more of it, a list or hashtable in its place, or an error. */
  datatype Part = Part(node: Node, hasDict: bool) | Whole(value: Value) | Failed(error: R.Error)

  // An element that counts as a level of nesting is read one level deeper.

  lemma NestedListReads(s: R.State, t: Token, d: nat, d1: nat, limit: int)
    requires t.Start? && t.tag == LSTTag && d < limit && d1 == d + 1
    ensures var e := R.ReadList(s, [], d1, limit);
            R.ReadElement(s, t, d, limit) == R.Reading(if e.r.Ok? then Ok(List(Plain, e.r.value)) else Err(e.r.error),
                                                       e.s)
  {
  }

  lemma NestedDictReads(s: R.State, t: Token, d: nat, d1: nat, limit: int)
    requires t.Start? && t.tag == DCTTag && d < limit && d1 == d + 1
    ensures var e := R.ReadDict(s, map[], d1, limit);
            R.ReadElement(s, t, d, limit) == R.Reading(if e.r.Ok? then Ok(Dict(e.r.value)) else Err(e.r.error), e.s)
  {
  }

  lemma NestedObjectReads(s: R.State, t: Token, d: nat, d1: nat, limit: int)
    requires t.Start? && t.tag == ObjTag && d < limit && d1 == d + 1
    ensures R.ReadElement(s, t, d, limit) == ObjectFrom(s, t, d1, limit)
  {
  }

  /** An object's element from inside it, at the next address. */
  ghost function ObjectFrom(s: R.State, t: Token, d: nat, limit: int): R.Reading<Value>
    requires t.Start?
  {
    R.ReadObject(s.(next := s.next + 1), R.RefIdOf(t), s.next, R.EMPTY_NODE, false, d, limit)
  }

  class Deserializer {
    var toks: seq<Token>
    var objRefs: map<int, Value>
    var tnRefs: map<int, seq<Str>>
    var heap: Heap
    var next: int
    var depth: nat
    var maxDepth: int
    /** The largest value the depth counter ever had. */
    ghost var deepest: nat

    ghost function State(): R.State
      reads this
    {
      R.State(toks, objRefs, tnRefs, heap, next)
    }

    constructor (limit: int)
      ensures State() == R.State([], map[], map[], map[], 0) && depth == 0 && maxDepth == limit && deepest == 0
    {
      toks, objRefs, tnRefs, heap, next := [], map[], map[], map[], 0;
      depth, maxDepth, deepest := 0, limit, 0;
    }

    /** The depth counter is as it was, and did not pass the limit in between. */
    twostate predicate Balanced()
      reads this
    {
      depth == old(depth) && maxDepth == old(maxDepth) && old(deepest) <= deepest &&
      (deepest == old(deepest) || deepest <= maxDepth)
    }

    /** whole, the reading of an object from some state on, is what part says and the state now. */
    ghost predicate Gives(part: Part, whole: R.Reading<Value>, ref: Option<int>, addr: int)
      reads this
    {
      match part
      case Part(n, hasDict) => whole == R.ReadObject(State(), ref, addr, n, hasDict, depth, maxDepth)
      case Whole(v) => whole == R.Reading(Ok(v), State())
      case Failed(e) => whole == R.Reading(Err(e), State())
    }

    method Deserialize(data: seq<Token>) returns (r: Result<seq<Value>, R.Error>)
      modifies this
      ensures var e := R.ReadDocument(old(State()).(toks := data), old(depth), maxDepth);
              r == e.r && State() == e.s && Balanced()
    {
      toks := data;
      ghost var whole := R.ReadDocument(State(), depth, maxDepth);
      var root: Option<Token> := None;
      while root.None?
        invariant Balanced() && maxDepth == old(maxDepth)
        invariant root.None? ==> R.ReadDocument(State(), depth, maxDepth) == whole
        invariant root.Some? ==> root.value.Start?
        invariant root.Some? ==> R.ReadDocument(State().(toks := [root.value] + toks), depth, maxDepth) == whole
        decreases root.None?, |toks|
      {
        if toks == [] {
          return Err(R.OutOfTokens);
        }
        var t := toks[0];
        assert toks == [t] + toks[1..];
        toks := toks[1..];
        if t.Start? {
          root := Some(t);
        }
      }
      ghost var s := State().(toks := [root.value] + toks);
      assert R.Tail(s) == State();
      if root.value.tag == ObjsTag {
        r := DeserializeChildren();
      } else {
        var v := DeserializeElement(root.value);
        r := if v.Ok? then Ok([v.value]) else Err(v.error);
      }
    }

    /** The loop over deserializeNext. */
    method DeserializeChildren() returns (r: Result<seq<Value>, R.Error>)
      modifies this
      ensures var e := R.ReadObjs(old(State()), [], old(depth), maxDepth);
              r == e.r && State() == e.s && Balanced()
      decreases |toks|, 1
    {
      ghost var whole := R.ReadObjs(State(), [], depth, maxDepth);
      var results := [];
      while toks != []
        invariant Balanced() && |toks| <= |old(toks)|
        invariant R.ReadObjs(State(), results, depth, maxDepth) == whole
        decreases |toks|
      {
        var t := toks[0];
        toks := toks[1..];
        match t {
          case Start(_, _, _) =>
            var v := DeserializeElement(t);
            if v.Err? {
              return Err(v.error);
            }
            results := results + [v.value];
          case End(tag) =>
            if tag == ObjsTag {
              return Ok(results);
            }
          case Text(_) =>
        }
      }
      r := Err(R.OutOfTokens);
    }

    method DeserializeElement(t: Token) returns (r: Result<Value, R.Error>)
      requires t.Start?
      modifies this
      ensures var e := R.ReadElement(old(State()), t, old(depth), maxDepth);
              r == e.r && State() == e.s && Balanced()
      decreases |toks|, 2, 1
    {
      if depth >= maxDepth {
        return Err(R.TooDeep);
      }
      if R.IsLeafTag(t.tag) {
        r := DecodeLeaf(t.tag);
      } else if t.tag == LSTTag {
        r := NestedList(t);
      } else if t.tag == DCTTag {
        r := NestedDict(t);
      } else if t.tag == ObjTag {
        r := NestedObject(t);
      } else if t.tag == RefTag {
        r := DeserializeRef(t);
      } else {
        r := SkipElement();
      }
    }

    /** dec.DecodeElement into a string, and the value of its text. */
    method DecodeLeaf(tag: Tag) returns (r: Result<Value, R.Error>)
      modifies this`toks
      ensures var e := R.ReadLeaf(old(State()), tag); r == e.r && State() == e.s
    {
      var text := R.ReadText(toks, []);
      if text.None? {
        toks := [];
        return Err(R.OutOfTokens);
      }
      toks := text.value.1;
      r := R.LeafValue(tag, text.value.0);
    }

    // The elements that count as a level of nesting.

    method NestedList(t: Token) returns (r: Result<Value, R.Error>)
      requires t.Start? && t.tag == LSTTag && depth < maxDepth
      modifies this
      ensures var e := R.ReadElement(old(State()), t, old(depth), maxDepth);
              r == e.r && State() == e.s && Balanced()
      decreases |toks|, 2, 0
    {
      ghost var s, d := State(), depth;
      Enter();
      NestedListReads(s, t, d, depth, maxDepth);
      var list := DeserializeList();
      r := if list.Ok? then Ok(List(Plain, list.value)) else Err(list.error);
      depth := depth - 1;
    }

    method NestedDict(t: Token) returns (r: Result<Value, R.Error>)
      requires t.Start? && t.tag == DCTTag && depth < maxDepth
      modifies this
      ensures var e := R.ReadElement(old(State()), t, old(depth), maxDepth);
              r == e.r && State() == e.s && Balanced()
      decreases |toks|, 2, 0
    {
      ghost var s, d := State(), depth;
      Enter();
      NestedDictReads(s, t, d, depth, maxDepth);
      var dict := DeserializeDict();
      r := if dict.Ok? then Ok(Dict(dict.value)) else Err(dict.error);
      depth := depth - 1;
    }

    method NestedObject(t: Token) returns (r: Result<Value, R.Error>)
      requires t.Start? && t.tag == ObjTag && depth < maxDepth
      modifies this
      ensures var e := R.ReadElement(old(State()), t, old(depth), maxDepth);
              r == e.r && State() == e.s && Balanced()
      decreases |toks|, 2, 0
    {
      ghost var s, d := State(), depth;
      Enter();
      NestedObjectReads(s, t, d, depth, maxDepth);
      r := DeserializeObject(t);
      depth := depth - 1;
    }

    method Enter()
      requires depth < maxDepth
      modifies this`depth, this`deepest
      ensures depth == old(depth) + 1 && deepest == if old(deepest) < depth then depth else old(deepest)
    {
      depth := depth + 1;
      if deepest < depth {
        deepest := depth;
      }
    }

    /** dec.Skip, and nil. */
    method SkipElement() returns (r: Result<Value, R.Error>)
      modifies this`toks
      ensures var e := R.ReadSkipped(old(State())); r == e.r && State() == e.s
    {
      var rest := R.Skip(toks, 0);
      if rest.None? {
        toks := [];
        return Err(R.OutOfTokens);
      }
      toks := rest.value;
      r := Ok(Null);
    }

    method DeserializeRef(t: Token) returns (r: Result<Value, R.Error>)
      requires t.Start?
      modifies this`toks
      ensures var e := R.ReadRef(old(State()), t); r == e.r && State() == e.s
    {
      if t.refId.Some? {
        var id := R.RefIdOf(t);
        if id.None? {
          return Err(R.BadNumber);
        }
        r := SkipElement();
        if r.Ok? {
          r := if id.value in objRefs then Ok(objRefs[id.value]) else Err(R.UnknownRef);
        }
      } else {
        r := SkipElement();
        if r.Ok? {
          r := Err(R.NoRefId);
        }
      }
    }

    method DeserializeList() returns (r: Result<seq<Value>, R.Error>)
      modifies this
      ensures var e := R.ReadList(old(State()), [], old(depth), maxDepth);
              r == e.r && State() == e.s && Balanced()
      decreases |toks|, 1
    {
      ghost var whole := R.ReadList(State(), [], depth, maxDepth);
      var result := [];
      while toks != []
        invariant Balanced() && |toks| <= |old(toks)|
        invariant R.ReadList(State(), result, depth, maxDepth) == whole
        decreases |toks|
      {
        var t := toks[0];
        toks := toks[1..];
        match t {
          case Start(_, _, _) =>
            var v := DeserializeElement(t);
            if v.Err? {
              return Err(v.error);
            }
            result := result + [v.value];
          case End(tag) =>
            if tag == LSTTag {
              return Ok(result);
            }
          case Text(_) =>
        }
      }
      r := Err(R.OutOfTokens);
    }

    method DeserializeDict() returns (r: Result<map<Str, Value>, R.Error>)
      modifies this
      ensures var e := R.ReadDict(old(State()), map[], old(depth), maxDepth);
              r == e.r && State() == e.s && Balanced()
      decreases |toks|, 1
    {
      ghost var whole := R.ReadDict(State(), map[], depth, maxDepth);
      var result := map[];
      while toks != []
        invariant Balanced() && |toks| <= |old(toks)|
        invariant R.ReadDict(State(), result, depth, maxDepth) == whole
        decreases |toks|
      {
        var t := toks[0];
        toks := toks[1..];
        match t {
          case Start(tag, _, _) =>
            if tag == EnTag {
              var entry := DeserializeDictEntry();
              if entry.Err? {
                return Err(entry.error);
              }
              result := result[entry.value.0 := entry.value.1];
            } else {
              var skipped := SkipElement();
              if skipped.Err? {
                return Err(skipped.error);
              }
            }
          case End(tag) =>
            if tag == DCTTag {
              return Ok(result);
            }
          case Text(_) =>
        }
      }
      r := Err(R.OutOfTokens);
    }

    method DeserializeDictEntry() returns (r: Result<(Str, Value), R.Error>)
      modifies this
      ensures var e := R.ReadEntry(old(State()), [], Null, old(depth), maxDepth);
              r == e.r && State() == e.s && Balanced()
      decreases |toks|, 1
    {
      ghost var whole := R.ReadEntry(State(), [], Null, depth, maxDepth);
      var key, value := [], Null;
      while toks != []
        invariant Balanced() && |toks| <= |old(toks)|
        invariant R.ReadEntry(State(), key, value, depth, maxDepth) == whole
        decreases |toks|
      {
        var t := toks[0];
        toks := toks[1..];
        match t {
          case Start(_, name, _) =>
            var v := DeserializeElement(t);
            if v.Err? {
              return Err(v.error);
            }
            if name == Some(KEY) {
              if v.value.String? {
                key := v.value.s;
              }
            } else if name == Some(VALUE) {
              value := v.value;
            }
          case End(tag) =>
            if tag == EnTag {
              return Ok((key, value));
            }
          case Text(_) =>
        }
      }
      r := Err(R.OutOfTokens);
    }

    method DeserializeProperties() returns (r: Result<map<Str, Value>, R.Error>)
      modifies this
      ensures var e := R.ReadProperties(old(State()), map[], old(depth), maxDepth);
              r == e.r && State() == e.s && Balanced()
      decreases |toks|, 1
    {
      ghost var whole := R.ReadProperties(State(), map[], depth, maxDepth);
      var props := map[];
      while toks != []
        invariant Balanced() && |toks| <= |old(toks)|
        invariant R.ReadProperties(State(), props, depth, maxDepth) == whole
        decreases |toks|
      {
        var t := toks[0];
        toks := toks[1..];
        match t {
          case Start(_, _, _) =>
            var name := R.NameOf(t);
            var v := DeserializeElement(t);
            if v.Err? {
              return Err(v.error);
            }
            if name != [] {
              props := props[name := v.value];
            }
          case End(tag) =>
            if tag == PropsTag || tag == MSTag {
              return Ok(props);
            }
          case Text(_) =>
        }
      }
      r := Err(R.OutOfTokens);
    }

    method DeserializeTypeNames() returns (r: Option<seq<Str>>)
      modifies this`toks
      ensures match R.ReadTypeNames(old(toks), [])
              case None => r.None? && toks == []
              case Some((names, rest)) => r == Some(names) && toks == rest
    {
      ghost var whole := R.ReadTypeNames(toks, []);
      var names := [];
      while toks != []
        invariant R.ReadTypeNames(toks, names) == whole
        decreases |toks|
      {
        var t := toks[0];
        toks := toks[1..];
        match t {
          case Start(tag, _, _) =>
            if tag == TTag {
              var text := R.ReadText(toks, []);
              if text.None? {
                toks := [];
                return None;
              }
              names, toks := names + [text.value.0], text.value.1;
            }
          case End(tag) =>
            if tag == TNTag {
              return Some(names);
            }
          case Text(_) =>
        }
      }
      r := None;
    }

    method DeserializeObject(start: Token) returns (r: Result<Value, R.Error>)
      requires start.Start?
      modifies this
      ensures var e := ObjectFrom(old(State()), start, old(depth), maxDepth);
              r == e.r && State() == e.s && Balanced()
      decreases |toks|, 1
    {
      var addr := next;
      next := next + 1;
      var ref := R.RefIdOf(start);
      ghost var whole := R.ReadObject(State(), ref, addr, R.EMPTY_NODE, false, depth, maxDepth);
      var n, hasDict := R.EMPTY_NODE, false;
      while toks != []
        invariant Balanced() && |toks| <= |old(toks)|
        invariant R.ReadObject(State(), ref, addr, n, hasDict, depth, maxDepth) == whole
        decreases |toks|
      {
        ghost var before := State();
        var t := toks[0];
        toks := toks[1..];
        var part := DeserializeToken(t, ref, addr, n, hasDict, before);
        if part.Whole? {
          return Ok(part.value);
        }
        if part.Failed? {
          return Err(part.error);
        }
        n, hasDict := part.node, part.hasDict;
      }
      r := Err(R.OutOfTokens);
    }

    /** One round of the loop over an object's tokens; before is the state with t still to be read. */
    method DeserializeToken(t: Token, ref: Option<int>, addr: int, n: Node, hasDict: bool, ghost before: R.State)
      returns (part: Part)
      requires before.toks != [] && before.toks[0] == t && R.Tail(before) == State()
      modifies this
      ensures |toks| <= |old(toks)| && Balanced()
      ensures Gives(part, R.ReadObject(before, ref, addr, n, hasDict, old(depth), maxDepth), ref, addr)
      decreases |toks|, 5
    {
      match t {
        case Text(_) => part := Part(n, hasDict);
        case End(tag) =>
          if tag == ObjTag {
            CloseObject(ref, addr, n, hasDict, before);
            part := Whole(Obj(addr));
          } else {
            part := Part(n, hasDict);
          }
        case Start(_, _, _) => part := DeserializeChild(t, ref, addr, n, hasDict, before);
      }
    }

    /** A child of an object's element; before is the state with its start tag t still to be read. */
    method DeserializeChild(t: Token, ref: Option<int>, ghost addr: int, n: Node, hasDict: bool, ghost before: R.State)
      returns (part: Part)
      requires before.toks != [] && before.toks[0] == t && R.Tail(before) == State() && t.Start?
      modifies this
      ensures |toks| <= |old(toks)| && Balanced()
      ensures Gives(part, R.ReadObject(before, ref, addr, n, hasDict, old(depth), maxDepth), ref, addr)
      decreases |toks|, 4
    {
      if t.tag == TNTag || t.tag == TNRefTag || t.tag == ToStringTag {
        var named := DeserializeHeading(t, ref, addr, n, hasDict, before);
        part := if named.Some? then Part(named.value, hasDict) else Failed(R.OutOfTokens);
      } else {
        part := DeserializePart(t, ref, addr, n, hasDict, before);
      }
    }

    /** The end of an object's element. */
    method CloseObject(ref: Option<int>, addr: int, n: Node, hasDict: bool, ghost before: R.State)
      requires before.toks != [] && before.toks[0] == End(ObjTag) && R.Tail(before) == State()
      modifies this`heap, this`objRefs
      ensures R.ReadObject(before, ref, addr, n, hasDict, depth, maxDepth) == R.Reading(Ok(Obj(addr)), State())
    {
      heap := heap[addr := n];
      if !(hasDict && R.IsHashtable(n)) {
        Register(ref, Obj(addr));
      }
    }

    /** The properties, the contents or an inner value of an object; before is the state with t still to be read. */
    method DeserializePart(t: Token, ref: Option<int>, ghost addr: int, n: Node, hasDict: bool, ghost before: R.State)
      returns (part: Part)
      requires before.toks != [] && before.toks[0] == t && R.Tail(before) == State()
      requires t.Start? && t.tag != TNTag && t.tag != TNRefTag && t.tag != ToStringTag
      modifies this
      ensures |toks| <= |old(toks)| && Balanced()
      ensures Gives(part, R.ReadObject(before, ref, addr, n, hasDict, old(depth), maxDepth), ref, addr)
      decreases |toks|, 3
    {
      if t.tag == PropsTag || t.tag == MSTag {
        var props := DeserializeProperties();
        part := if props.Ok? then Part(n.(props := props.value), hasDict) else Failed(props.error);
      } else if t.tag == DCTTag {
        part := DeserializeContents(ref, addr, n, hasDict, before);
      } else if t.tag == LSTTag {
        part := DeserializeItems(ref, addr, n, hasDict, before);
      } else {
        part := DeserializeInner(t, ref, addr, n, hasDict, before);
      }
    }

    /** Any other element: a property when it has a name, otherwise the wrapped value. */
    method DeserializeInner(t: Token, ghost ref: Option<int>, ghost addr: int, n: Node, hasDict: bool,
                            ghost before: R.State)
      returns (part: Part)
      requires before.toks != [] && before.toks[0] == t && R.Tail(before) == State() && t.Start?
      requires t.tag !in {TNTag, TNRefTag, ToStringTag, PropsTag, MSTag, DCTTag, LSTTag}
      modifies this
      ensures |toks| <= |old(toks)| && Balanced()
      ensures Gives(part, R.ReadObject(before, ref, addr, n, hasDict, old(depth), maxDepth), ref, addr)
      decreases |toks|, 2, 2
    {
      var name := R.NameOf(t);
      var v := DeserializeElement(t);
      part := if v.Ok? then Part(R.AddInner(n, name, v.value), hasDict) else Failed(v.error);
    }

    /** An LST element, which is the value of the object around it. */
    method DeserializeItems(ref: Option<int>, ghost addr: int, ghost n: Node, ghost hasDict: bool,
                            ghost before: R.State)
      returns (part: Part)
      requires before.toks != [] && before.toks[0].Start? && before.toks[0].tag == LSTTag && R.Tail(before) == State()
      modifies this
      ensures |toks| <= |old(toks)| && Balanced()
      ensures Gives(part, R.ReadObject(before, ref, addr, n, hasDict, old(depth), maxDepth), ref, addr)
      decreases |toks|, 2
    {
      var list := DeserializeList();
      if list.Err? {
        return Failed(list.error);
      }
      Register(ref, List(Plain, list.value));
      part := Whole(List(Plain, list.value));
    }

    /** A DCT element, which is the value of an object with the names of a hashtable and adds properties to others. */
    method DeserializeContents(ref: Option<int>, ghost addr: int, n: Node, ghost hasDict: bool, ghost before: R.State)
      returns (part: Part)
      requires before.toks != [] && before.toks[0].Start? && before.toks[0].tag == DCTTag && R.Tail(before) == State()
      modifies this
      ensures |toks| <= |old(toks)| && Balanced()
      ensures Gives(part, R.ReadObject(before, ref, addr, n, hasDict, old(depth), maxDepth), ref, addr)
      decreases |toks|, 2
    {
      var dict := DeserializeDict();
      if dict.Err? {
        return Failed(dict.error);
      }
      if R.IsHashtable(n) {
        Register(ref, Dict(dict.value));
        return Whole(Dict(dict.value));
      }
      part := Part(n.(props := n.props + dict.value), true);
    }

    /** The type names or the string of an object; before is the state with t still to be read. */
    method DeserializeHeading(t: Token, ref: Option<int>, ghost addr: int, n: Node, ghost hasDict: bool,
                              ghost before: R.State)
      returns (n': Option<Node>)
      requires before.toks != [] && before.toks[0] == t && R.Tail(before) == State()
      requires t.Start? && (t.tag == TNTag || t.tag == TNRefTag || t.tag == ToStringTag)
      modifies this`toks, this`tnRefs
      ensures |toks| <= |old(toks)|
      ensures var whole := R.ReadObject(before, ref, addr, n, hasDict, depth, maxDepth);
              if n'.None? then whole == R.Reading(Err(R.OutOfTokens), State())
              else whole == R.ReadObject(State(), ref, addr, n'.value, hasDict, depth, maxDepth)
    {
      if t.tag == TNTag {
        n' := NewTypeNames(t, ref, addr, n, hasDict, before);
      } else if t.tag == TNRefTag {
        var id := R.RefIdOf(t);
        var resolved := if id.Some? && id.value in tnRefs then n.(typeNames := tnRefs[id.value]) else n;
        var skipped := SkipElement();
        n' := if skipped.Ok? then Some(resolved) else None;
      } else {
        var text := R.ReadText(toks, []);
        if text.None? {
          toks := [];
          return None;
        }
        toks := text.value.1;
        n' := Some(n.(toString := CS.Decode(text.value.0)));
      }
    }

    /** A TN element: the names are the object's, and filed under the element's id. */
    method NewTypeNames(t: Token, ref: Option<int>, ghost addr: int, n: Node, ghost hasDict: bool,
                        ghost before: R.State)
      returns (n': Option<Node>)
      requires before.toks != [] && before.toks[0] == t && R.Tail(before) == State() && t.Start? && t.tag == TNTag
      modifies this`toks, this`tnRefs
      ensures |toks| <= |old(toks)|
      ensures var whole := R.ReadObject(before, ref, addr, n, hasDict, depth, maxDepth);
              if n'.None? then whole == R.Reading(Err(R.OutOfTokens), State())
              else whole == R.ReadObject(State(), ref, addr, n'.value, hasDict, depth, maxDepth)
    {
      var names := DeserializeTypeNames();
      if names.None? {
        return None;
      }
      if ref.Some? && R.RefIdOf(t).Some? {
        tnRefs := tnRefs[R.RefIdOf(t).value := names.value];
      }
      n' := Some(n.(typeNames := names.value));
    }

    method Register(ref: Option<int>, v: Value)
      modifies this`objRefs
      ensures State() == R.Register(old(State()), ref, v)
    {
      if ref.Some? {
        objRefs := objRefs[ref.value := v];
      }
    }
  }
}
