/**
 CLIXML values and documents. A value is a finite tree whose `Obj` leaves point into a heap of
 PSObjects; a document is the sequence of XML tokens, with the text of elements and attributes
 kept byte for byte.
 */
module Clixml {
  import opened Wrappers
  import opened Bytes
  import opened Guid

  type Str = seq<byte>

  /** A slice or array, or a *TypedList with type names of its own. */
  datatype ListKind = Plain | Typed(names: seq<Str>)

  datatype Value =
    | Null
    | String(s: Str)
    | Int(n: int64) // a Go int
    | Int32(i: int32)
    | Int64(l: int64)
    | Bool(b: bool)
    | ByteArray(bytes: seq<byte>)
    | Uuid(g: Guid)
    | ScriptBlock(code: Str)
    | Enum(enumType: Str, enumValue: int32, enumText: Str)
    | List(kind: ListKind, items: seq<Value>)
    | Dict(m: map<Str, Value>)
    | Obj(id: int) // *PSObject
    | Unsupported // any Go value the type switch does not know

  datatype Node = Node(
    typeNames: seq<Str>,
    toString: Str,
    members: map<Str, Value>,
    memberOrder: seq<Str>,
    props: map<Str, Value>,
    value: Value)

  type Heap = map<int, Node>

  datatype Tag =
    | ObjsTag | ObjTag | RefTag | NilTag | STag | I32Tag | I64Tag | BTag | BATag | GTag | SBTag | VersionTag
    | TNTag | TNRefTag | TTag | ToStringTag | MSTag | PropsTag | LSTTag | DCTTag | EnTag
    | OtherTag(other: Str)

  /** The tokens of encoding/xml, with the two attributes CLIXML gives a meaning. */
  datatype Token =
    | Start(tag: Tag, name: Option<Str>, refId: Option<Str>)
    | End(endTag: Tag)
    | Text(text: Str)

  const HASHTABLE: Str := Ascii("System.Collections.Hashtable")
  const OBJECT: Str := Ascii("System.Object")
  const OBJECT_ARRAY: Str := Ascii("System.Object[]")
  const ARRAY: Str := Ascii("System.Array")
  const ENUM: Str := Ascii("System.Enum")
  const VALUE_TYPE: Str := Ascii("System.ValueType")
  const KEY: Str := Ascii("Key")
  const VALUE: Str := Ascii("Value")
  const TRUE: Str := Ascii("true")
  const FALSE: Str := Ascii("false")
  const BAR: byte := 0x7C

  /** Character data reaches the reader as one token, and as none when it is empty. */
  function TextTokens(t: Str): seq<Token> {
    if t == [] then [] else [Text(t)]
  }

  /** strings.Join(names, "|"). */
  function Join(names: seq<Str>): Str {
    if names == [] then []
    else if |names| == 1 then names[0]
    else names[0] + [BAR] + Join(names[1..])
  }

  /** The cap of safeInt32. */
  function SafeInt32(n: int): int32 {
    if n > MAX_INT32 then MAX_INT32 else if n < MIN_INT32 then MIN_INT32 else n
  }

  function Distance(a: int, b: int): nat {
    if a < b then b - a else a - b
  }

  /** No 32-bit number is nearer to n than i. */
  ghost predicate Nearest(n: int, i: int32) {
    forall j: int32 :: Distance(n, i) <= Distance(n, j)
  }

  /** A number within 32 bits is kept; any other becomes the limit on its side. */
  lemma CappedToNearest(n: int)
    ensures -0x8000_0000 <= n < 0x8000_0000 ==> SafeInt32(n) == n
    ensures n >= 0x8000_0000 ==> SafeInt32(n) == 0x7FFF_FFFF
    ensures n < -0x8000_0000 ==> SafeInt32(n) == -0x8000_0000
    ensures forall i: int32 :: Nearest(n, i) <==> i == SafeInt32(n)
  {
    forall i: int32 | Nearest(n, i) ensures i == SafeInt32(n) {
      assert Distance(n, i) <= Distance(n, SafeInt32(n));
    }
  }

  function EnumNames(t: Str): seq<Str> {
    [t, ENUM, VALUE_TYPE, OBJECT]
  }

  const ARRAY_NAMES: seq<Str> := [OBJECT_ARRAY, ARRAY, OBJECT]

  const HASHTABLE_NAMES: seq<Str> := [HASHTABLE, OBJECT]

  // ---------- sort.Strings on the keys of a map ----------

  /** Go's byte-wise string order. */
  predicate Less(a: Str, b: Str) {
    b != [] && (a == [] || a[0] < b[0] || (a[0] == b[0] && Less(a[1..], b[1..])))
  }

  lemma {:induction false} LessTotal(a: Str, b: Str)
    ensures a == b || Less(a, b) || Less(b, a)
    ensures !(Less(a, b) && Less(b, a)) && !Less(a, a)
  {
    if a != [] && b != [] {
      LessTotal(a[1..], b[1..]);
      assert a == [a[0]] + a[1..] && b == [b[0]] + b[1..];
    }
    if a != [] {
      LessTotal(a[1..], a[1..]);
    }
  }

  /** a is b cut short, or has the smaller byte where the two first differ. */
  ghost predicate Before(a: Str, b: Str) {
    (a <= b && a != b) || exists i: nat :: SmallerAt(a, b, i)
  }

  ghost predicate SmallerAt(a: Str, b: Str, i: nat) {
    i < |a| && i < |b| && a[..i] == b[..i] && a[i] < b[i]
  }

  lemma {:induction false} LessIff(a: Str, b: Str)
    ensures Less(a, b) <==> Before(a, b)
  {
    if a != [] && b != [] {
      if a[0] == b[0] {
        LessIff(a[1..], b[1..]);
        BeforeInside(a, b);
      } else {
        FirstByteDecides(a, b);
      }
    }
  }

  lemma FirstByteDecides(a: Str, b: Str)
    requires a != [] && b != [] && a[0] != b[0]
    ensures Before(a, b) <==> a[0] < b[0]
  {
    if a[0] < b[0] {
      assert a[..0] == b[..0];
      assert SmallerAt(a, b, 0);
    }
    forall i: nat | SmallerAt(a, b, i) ensures i == 0 {
      SameFirst(a, b, i);
    }
  }

  lemma SameFirst(a: Str, b: Str, i: nat)
    requires i <= |a| && i <= |b| && a[..i] == b[..i]
    ensures i == 0 || a[0] == b[0]
  {
    if i > 0 {
      assert a[..i][0] == a[0] && b[..i][0] == b[0];
    }
  }

  lemma BeforeInside(a: Str, b: Str)
    requires a != [] && b != [] && a[0] == b[0]
    ensures Before(a, b) <==> Before(a[1..], b[1..])
  {
    var c, d := a[1..], b[1..];
    assert a == [a[0]] + c && b == [b[0]] + d;
    if i: nat :| SmallerAt(a, b, i) {
      var k := i - 1;
      assert a[i] == c[k] && b[i] == d[k] && c[..k] == a[..i][1..] && d[..k] == b[..i][1..];
      assert SmallerAt(c, d, k);
    }
    if i: nat :| SmallerAt(c, d, i) {
      var k := i + 1;
      assert a[..k] == [a[0]] + c[..i] && b[..k] == [b[0]] + d[..i];
      assert SmallerAt(a, b, k);
    }
  }

  lemma {:induction false} LessTransitive(a: Str, b: Str, c: Str)
    requires Less(a, b) && Less(b, c)
    ensures Less(a, c)
  {
    if a != [] && a[0] == b[0] && b[0] == c[0] {
      LessTransitive(a[1..], b[1..], c[1..]);
    }
  }

  predicate IsLeast(k: Str, keys: set<Str>) {
    k in keys && forall x :: x in keys && x != k ==> Less(k, x)
  }

  lemma {:induction false} LeastExists(keys: set<Str>)
    requires keys != {}
    ensures exists k :: IsLeast(k, keys)
    decreases |keys|
  {
    var k :| k in keys;
    if keys != {k} {
      var rest := keys - {k};
      assert keys == {k} + rest;
      LeastExists(rest);
      var m :| IsLeast(m, rest);
      LessTotal(k, m);
      if Less(k, m) {
        forall x | x in keys && x != k ensures Less(k, x) {
          if x != m { LessTransitive(k, m, x); }
        }
        assert IsLeast(k, keys);
      } else {
        assert IsLeast(m, keys);
      }
    } else {
      assert IsLeast(k, keys);
    }
  }

  lemma LeastUnique(j: Str, k: Str, keys: set<Str>)
    requires IsLeast(j, keys) && IsLeast(k, keys)
    ensures j == k
  {
    LessTotal(j, k);
  }

  function Least(keys: set<Str>): (k: Str)
    requires keys != {}
    ensures IsLeast(k, keys)
  {
    LeastExists(keys);
    assert forall j, k :: IsLeast(j, keys) && IsLeast(k, keys) ==> j == k by {
      forall j, k | IsLeast(j, keys) && IsLeast(k, keys) ensures j == k {
        LeastUnique(j, k, keys);
      }
    }
    var k :| IsLeast(k, keys);
    k
  }

  /** The keys in ascending order. */
  function SortedKeys(keys: set<Str>): (s: seq<Str>)
    ensures forall k :: k in s <==> k in keys
    ensures |s| == |keys|
    decreases |keys|
  {
    if keys == {} then [] else
      var k := Least(keys);
      [k] + SortedKeys(keys - {k})
  }

  /** Neighbours ascend, so no key is written twice. */
  lemma {:induction false} SortedKeysAscend(keys: set<Str>, i: nat, j: nat)
    requires i < j < |keys|
    ensures Less(SortedKeys(keys)[i], SortedKeys(keys)[j])
    decreases |keys|
  {
    var k := Least(keys);
    if i == 0 {
      assert SortedKeys(keys)[j] == SortedKeys(keys - {k})[j - 1];
      assert SortedKeys(keys)[j] in SortedKeys(keys - {k});
    } else {
      SortedKeysAscend(keys - {k}, i - 1, j - 1);
    }
  }

  /** The order in which the members of a PSObject are written. */
  function MemberKeys(n: Node): seq<Str> {
    if n.memberOrder != [] then n.memberOrder else SortedKeys(n.members.Keys)
  }

  /** The 32-bit number under a key. */
  function Int32At(m: map<Str, Value>, k: Str): Option<int32> {
    if k in m && m[k].Int32? then Some(m[k].i) else None
  }

  /** What a map lookup gives for a key: nil when absent. */
  function Lookup(m: map<Str, Value>, k: Str): Value {
    if k in m then m[k] else Null
  }
}
