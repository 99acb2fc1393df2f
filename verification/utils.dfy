/**
  The small helpers of lib/util/utils.js the core relies on:
  `invokeCallback`, `size`, `startsWith`/`endsWith`, `arrayDiff` and
  `headHandler`.
 */
module Utils {
  import opened Common

  type Byte = x: int | 0 <= x < 256

  // ----- invokeCallback -----

  /** `invokeCallback(cb, ...args)`: the call made, if any. */
  function InvokeCallback(cb: Value, args: seq<Value>): (r: Option<(string, seq<Value>)>)
    ensures r.Some? <==> cb.Function?
    ensures r.Some? ==> r.value.0 == cb.name && r.value.1 == args
  {
    match cb
    case Function(name) => Some((name, args))
    case Data(_) => None
  }

  // ----- size -----

  /** `size(obj)`: counts, in visiting order `order`, the own properties
      whose value is not a function. */
  function Size(obj: map<string, Value>, order: seq<string>): (r: nat)
    requires forall i :: 0 <= i < |order| ==> order[i] in obj
    ensures r <= |order|
  {
    if order == [] then 0
    else (if obj[order[0]].Function? then 0 else 1) + Size(obj, order[1..])
  }

  /** The properties `size` counts. */
  function DataKeys(obj: map<string, Value>): set<string> {
    set k | k in obj && !obj[k].Function?
  }

  /** `size` counts each non-function property once, whatever the order
      the keys are visited in. */
  lemma {:induction false} SizeCountsDataKeys(obj: map<string, Value>, order: seq<string>)
    requires IsEnumeration(order, obj.Keys)
    ensures Size(obj, order) == |DataKeys(obj)|
    decreases |order|
  {
    if order == [] {
      EnumerationEmpty(obj.Keys);
      assert DataKeys(obj) == {};
    } else {
      var k := order[0];
      var rest := RemoveVisited(obj, order);
      SizeCountsDataKeys(rest, order[1..]);
      SizeSameValues(obj, rest, order[1..]);
      DataKeysRemove(obj, k);
    }
  }

  /** The object without the first key visited, enumerated by the rest. */
  lemma RemoveVisited(obj: map<string, Value>, order: seq<string>) returns (rest: map<string, Value>)
    requires IsEnumeration(order, obj.Keys) && order != []
    ensures rest == obj - {order[0]} && order[0] in obj
    ensures IsEnumeration(order[1..], rest.Keys)
    ensures forall i :: 0 <= i < |order[1..]| ==> order[1..][i] in rest
  {
    var k := order[0];
    EnumerationTail(order, obj.Keys);
    rest := obj - {k};
    assert rest.Keys == obj.Keys - {k};
    forall i | 0 <= i < |order[1..]| ensures order[1..][i] in rest {
      EnumeratedInKeys(order[1..], rest.Keys, i);
    }
  }

  lemma DataKeysRemove(obj: map<string, Value>, k: string)
    requires k in obj
    ensures k !in DataKeys(obj - {k})
    ensures |DataKeys(obj)| == |DataKeys(obj - {k})| + (if obj[k].Function? then 0 else 1)
  {
    var rest := obj - {k};
    if obj[k].Function? {
      assert DataKeys(obj) == DataKeys(rest);
    } else {
      assert DataKeys(obj) == DataKeys(rest) + {k};
    }
  }

  lemma {:induction false} SizeSameValues(a: map<string, Value>, b: map<string, Value>, order: seq<string>)
    requires forall i :: 0 <= i < |order| ==> order[i] in a && order[i] in b && a[order[i]] == b[order[i]]
    ensures Size(a, order) == Size(b, order)
    decreases |order|
  {
    if order != [] {
      SizeSameValues(a, b, order[1..]);
    }
  }

  // ----- startsWith / endsWith -----

  /** `startsWith(str, prefix)`; `None` is a non-string argument. */
  function StartsWith(str: Option<string>, prefix: Option<string>): (r: bool)
    ensures r <==> str.Some? && prefix.Some? && exists t :: str.value == prefix.value + t
  {
    if str.None? || prefix.None? || |prefix.value| > |str.value| then false
    else
      var s, p := str.value, prefix.value;
      if p == s[..|p|] then
        assert s == p + s[|p|..];
        true
      else
        PrefixOfConcatenation(p);
        false
  }

  /** `endsWith(str, suffix)`; `None` is a non-string argument. */
  function EndsWith(str: Option<string>, suffix: Option<string>): (r: bool)
    ensures r <==> str.Some? && suffix.Some? && exists t :: str.value == t + suffix.value
  {
    if str.None? || suffix.None? || |suffix.value| > |str.value| then false
    else
      var s, x := str.value, suffix.value;
      if x == s[|s| - |x|..] then
        assert s == s[..|s| - |x|] + x;
        true
      else
        SuffixOfConcatenation(x);
        false
  }

  lemma PrefixOfConcatenation(p: string)
    ensures forall t :: (p + t)[..|p|] == p
  {
  }

  lemma SuffixOfConcatenation(x: string)
    ensures forall t :: (t + x)[|t|..] == x
  {
  }

  /** Every string starts with its prefixes and ends with its suffixes. */
  lemma AffixesOfConcatenation(a: string, b: string)
    ensures StartsWith(Some(a + b), Some(a)) && EndsWith(Some(a + b), Some(b))
    ensures StartsWith(Some(a), Some("")) && EndsWith(Some(a), Some(""))
    ensures !StartsWith(None, Some(a)) && !EndsWith(Some(a), None)
  {
    assert a == "" + a && a == a + "";
  }

  // ----- arrayDiff -----

  /** Reference: the elements of `a` that are not in `b`, in order, with
      their repeats. */
  function Without(a: seq<string>, b: seq<string>): (r: seq<string>)
    ensures forall x :: x in r <==> x in a && x !in b
    ensures |r| <= |a|
  {
    if a == [] then []
    else (if a[0] in b then [] else [a[0]]) + Without(a[1..], b)
  }

  /** The difference keeps every surviving element as often as `a` has it. */
  lemma {:induction false} WithoutKeepsMultiplicity(a: seq<string>, b: seq<string>, x: string)
    ensures multiset(Without(a, b))[x] == if x in b then 0 else multiset(a)[x]
    decreases |a|
  {
    if a != [] {
      WithoutKeepsMultiplicity(a[1..], b, x);
      var rest := Without(a[1..], b);
      assert a == [a[0]] + a[1..];
      CountCons(a[0], a[1..], x);
      if a[0] in b {
        assert Without(a, b) == [] + rest == rest;
      } else {
        assert Without(a, b) == [a[0]] + rest;
        CountCons(a[0], rest, x);
      }
    }
  }

  lemma CountCons(h: string, t: seq<string>, x: string)
    ensures multiset([h] + t)[x] == (if h == x then 1 else 0) + multiset(t)[x]
  {
    assert multiset([h] + t) == multiset([h]) + multiset(t);
  }

  /** The names `Object.prototype` provides (ECMAScript 2017 section
      19.1.3 and Annex B.2.2): a lookup `o[v]` in a plain `{}` finds
      them even though nobody stored them. */
  const ObjectPrototypeNames: set<string> := {
    "constructor", "hasOwnProperty", "isPrototypeOf", "propertyIsEnumerable",
    "toLocaleString", "toString", "valueOf", "__proto__",
    "__defineGetter__", "__defineSetter__", "__lookupGetter__", "__lookupSetter__"}

  /** `o[v]` is truthy: stored as `true`, or inherited from the prototype. */
  predicate LookupTruthy(o: set<string>, v: string) {
    v in o || v in ObjectPrototypeNames
  }

  /** `arrayDiff(array1, array2)` as written: the marks live in a plain
      object, so elements named like a prototype member are dropped too. */
  function ArrayDiffAsWritten(a: seq<string>, b: seq<string>): (r: seq<string>)
    ensures forall x :: x in r <==> x in a && x !in b && x !in ObjectPrototypeNames
  {
    Keep(a, Marks(b))
  }

  /** The keys the first loop of `arrayDiff` marks. */
  function Marks(b: seq<string>): (o: set<string>)
    ensures forall x :: x in o <==> x in b
  {
    if b == [] then {} else {b[0]} + Marks(b[1..])
  }

  function Keep(a: seq<string>, o: set<string>): (r: seq<string>)
    ensures forall x :: x in r <==> x in a && !LookupTruthy(o, x)
  {
    if a == [] then [] else (if LookupTruthy(o, a[0]) then [] else [a[0]]) + Keep(a[1..], o)
  }

  /** The discrepancy: "toString" is in neither array's difference. */
  lemma ArrayDiffDropsPrototypeNames()
    ensures ArrayDiffAsWritten(["toString"], []) == []
    ensures Without(["toString"], []) == ["toString"]
  {
    assert "toString" in ObjectPrototypeNames;
    assert Marks([]) == {};
    assert ["toString"][1..] == [];
  }

  /** `arrayDiff` with own-property lookups (the marks kept in a set): the
      elements of `a` not in `b`, in order and with repeats. */
  method ArrayDiff(a: seq<string>, b: seq<string>) returns (r: seq<string>)
    ensures r == Without(a, b)
  {
    var o := MarkAll(b);
    r := KeepUnmarked(a, b, o);
  }

  /** The first loop of `arrayDiff`: mark every element of `b`. */
  method MarkAll(b: seq<string>) returns (o: set<string>)
    ensures o == Marks(b)
  {
    o := {};
    var i := 0;
    while i < |b|
      invariant 0 <= i <= |b|
      invariant o == Marks(b[..i])
    {
      MarksAppend(b[..i], b[i]);
      assert b[..i + 1] == b[..i] + [b[i]];
      o := o + {b[i]};
      i := i + 1;
    }
    assert b[..i] == b;
  }

  /** The second loop of `arrayDiff`: keep the unmarked elements of `a`. */
  method KeepUnmarked(a: seq<string>, b: seq<string>, o: set<string>) returns (r: seq<string>)
    requires o == Marks(b)
    ensures r == Without(a, b)
  {
    r := [];
    var j := 0;
    while j < |a|
      invariant 0 <= j <= |a|
      invariant r == Without(a[..j], b)
    {
      var v := a[j];
      WithoutSnoc(a[..j], v, b);
      assert a[..j + 1] == a[..j] + [v];
      assert v in o <==> v in b;
      if v !in o {
        r := r + [v];
      }
      j := j + 1;
    }
    assert a[..j] == a;
  }

  lemma MarksAppend(b: seq<string>, x: string)
    ensures Marks(b + [x]) == Marks(b) + {x}
  {
  }

  lemma {:induction false} WithoutSnoc(a: seq<string>, v: string, b: seq<string>)
    ensures Without(a + [v], b) == Without(a, b) + (if v in b then [] else [v])
    decreases |a|
  {
    if a == [] {
      assert [] + [v] == [v];
      assert [v][1..] == [];
    } else {
      assert (a + [v])[0] == a[0];
      assert (a + [v])[1..] == a[1..] + [v];
      WithoutSnoc(a[1..], v, b);
      var h := if a[0] in b then [] else [a[0]];
      var t := if v in b then [] else [v];
      var rest := Without(a[1..], b);
      assert Without(a + [v], b) == h + (rest + t);
      assert Without(a, b) == h + rest;
      ConcatAssoc(h, rest, t);
    }
  }

  lemma ConcatAssoc(x: seq<string>, y: seq<string>, z: seq<string>)
    ensures x + (y + z) == (x + y) + z
  {
  }

  // ----- headHandler -----

  /** `x | 0`: JavaScript's conversion to a signed 32-bit integer. */
  function ToInt32(x: int): (r: int)
    ensures -0x8000_0000 <= r < 0x8000_0000
    ensures -0x8000_0000 <= x < 0x8000_0000 ==> r == x
  {
    var m := x % 0x1_0000_0000;
    if m >= 0x8000_0000 then m - 0x1_0000_0000 else m
  }

  /** The body length a 4-byte package head carries: bytes 1 to 3, big
      endian (byte 0 is the package type). */
  function HeadLength(head: seq<Byte>): (n: int)
    requires |head| >= 4
    ensures 0 <= n < 0x100_0000
  {
    (head[1] as int) * 65536 + (head[2] as int) * 256 + head[3]
  }

  /** `headHandler(headBuffer)`: the loop with its 32-bit shifts; a head
      shorter than four bytes makes `readUInt8` throw. */
  method HeadHandler(head: seq<Byte>) returns (r: Option<int>)
    ensures |head| < 4 <==> r.None?
    ensures |head| >= 4 ==> r == Some(HeadLength(head))
  {
    if |head| < 4 {
      return None;
    }
    var len := 0;
    var i := 1;
    while i < 4
      invariant 1 <= i <= 4
      invariant len == (if i == 1 then 0 else if i == 2 then head[1] as int else if i == 3 then (head[1] as int) * 256 + head[2]
                        else HeadLength(head))
    {
      if i > 1 {
        len := ToInt32(ToInt32(len) * 256);
      }
      len := len + head[i];
      i := i + 1;
    }
    return Some(len);
  }

  /** The head a sender writes for a package of type `t` with an `n`-byte
      body. */
  function EncodeHead(t: Byte, n: nat): (h: seq<Byte>)
    requires n < 0x100_0000
    ensures |h| == 4 && h[0] == t
  {
    [t, n / 65536, (n / 256) % 256, n % 256]
  }

  /** Reading the length back from an encoded head gives the length. */
  lemma HeadRoundTrip(t: Byte, n: nat)
    requires n < 0x100_0000
    ensures HeadLength(EncodeHead(t, n)) == n
  {
  }
}
