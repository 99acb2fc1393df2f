/**
  Shared vocabulary for the push-delivery model: optional values, the
  JavaScript property values the core distinguishes, truthiness of the
  string-valued identifiers, and the sequence helpers that several
  services use (`Array.prototype.indexOf` + `splice`, key enumeration).
 */
module Common {

  datatype Option<+T> = None | Some(value: T)

  /** A property value of a plain JavaScript object.  The core only ever
      asks whether a value is a function (`typeof v === 'function'`);
      every other value is abstracted by its printed form. */
  datatype Value = Data(repr: string) | Function(name: string)

  /** User ids, server ids and messages are strings; the empty string
      stands for every falsy value the source tests with `!x`. */
  predicate Truthy(s: string) {
    s != ""
  }

  /** `xs` lists the keys of a set once each: an order in which a
      `for (const k in obj)` loop may visit the keys of `obj`. */
  ghost predicate IsEnumeration<K>(order: seq<K>, keys: set<K>) {
    && (forall i, j :: 0 <= i < j < |order| ==> order[i] != order[j])
    && (set i | 0 <= i < |order| :: order[i]) == keys
  }

  predicate Distinct<T(==)>(xs: seq<T>) {
    forall i, j :: 0 <= i < j < |xs| ==> xs[i] != xs[j]
  }

  /** `xs.splice(xs.indexOf(x), 1)` when `x` occurs: drops the first
      occurrence of `x` and keeps everything else in order. */
  function RemoveFirst<T(==)>(xs: seq<T>, x: T): (r: seq<T>)
    ensures x in xs ==> |r| == |xs| - 1
    ensures x !in xs ==> r == xs
    ensures multiset(r) == multiset(xs) - multiset{x}
  {
    if |xs| == 0 then xs
    else if xs[0] == x then
      assert xs == [xs[0]] + xs[1..];
      xs[1..]
    else
      var rest := RemoveFirst(xs[1..], x);
      assert xs == [xs[0]] + xs[1..];
      MultisetShift(xs[0], multiset(xs[1..]), x);
      [xs[0]] + rest
  }

  lemma MultisetShift<T>(h: T, m: multiset<T>, x: T)
    requires h != x
    ensures multiset{h} + (m - multiset{x}) == (multiset{h} + m) - multiset{x}
  {
  }

  /** Removing an element from a duplicate-free list removes it entirely. */
  lemma {:induction false} RemoveFirstDistinct<T>(xs: seq<T>, x: T)
    requires Distinct(xs)
    ensures Distinct(RemoveFirst(xs, x))
    ensures forall y :: y in RemoveFirst(xs, x) <==> y in xs && y != x
  {
    if |xs| == 0 {
    } else if xs[0] == x {
      assert xs == [xs[0]] + xs[1..];
    } else {
      DistinctSplit(xs);
      RemoveFirstDistinct(xs[1..], x);
      var r := RemoveFirst(xs[1..], x);
      assert xs[0] !in r;
      assert RemoveFirst(xs, x) == [xs[0]] + r;
      ConsDistinct(xs[0], r);
    }
  }

  /** The tail of a duplicate-free list is duplicate-free and lacks the head. */
  lemma DistinctSplit<T>(xs: seq<T>)
    requires Distinct(xs) && xs != []
    ensures Distinct(xs[1..]) && xs[0] !in xs[1..]
  {
    forall i, j | 0 <= i < j < |xs[1..]| ensures xs[1..][i] != xs[1..][j] {
      assert xs[1..][i] == xs[i + 1] && xs[1..][j] == xs[j + 1];
    }
    forall i | 0 <= i < |xs[1..]| ensures xs[1..][i] != xs[0] {
      assert xs[1..][i] == xs[i + 1];
    }
  }

  /** Putting a new element in front keeps a list duplicate-free. */
  lemma ConsDistinct<T>(h: T, r: seq<T>)
    requires Distinct(r) && h !in r
    ensures Distinct([h] + r)
  {
    forall i, j | 0 <= i < j < |[h] + r| ensures ([h] + r)[i] != ([h] + r)[j] {
      if i == 0 {
        assert ([h] + r)[j] == r[j - 1];
        assert r[j - 1] in r;
      } else {
        assert ([h] + r)[i] == r[i - 1] && ([h] + r)[j] == r[j - 1];
      }
    }
  }

  /** Dropping the first key of an enumeration enumerates the other keys. */
  lemma EnumerationTail<K>(order: seq<K>, keys: set<K>)
    requires IsEnumeration(order, keys) && order != []
    ensures IsEnumeration(order[1..], keys - {order[0]})
    ensures order[0] in keys && order[0] !in order[1..]
  {
    var tail := order[1..];
    EnumeratedInKeys(order, keys, 0);
    forall x | x in tail ensures x != order[0] {
      var i :| 0 <= i < |tail| && tail[i] == x;
      assert order[i + 1] == x;
    }
    forall x | x in (set i | 0 <= i < |tail| :: tail[i]) ensures x in keys - {order[0]} {
      var i :| 0 <= i < |tail| && tail[i] == x;
      assert order[i + 1] == x;
      assert x in (set i | 0 <= i < |order| :: order[i]);
    }
    forall x | x in keys - {order[0]} ensures x in (set i | 0 <= i < |tail| :: tail[i]) {
      assert x in (set i | 0 <= i < |order| :: order[i]);
      var i :| 0 <= i < |order| && order[i] == x;
      assert tail[i - 1] == x;
    }
    forall i, j | 0 <= i < j < |tail| ensures tail[i] != tail[j] {
      assert tail[i] == order[i + 1] && tail[j] == order[j + 1];
    }
  }

  lemma EnumeratedInKeys<K>(order: seq<K>, keys: set<K>, i: nat)
    requires IsEnumeration(order, keys) && i < |order|
    ensures order[i] in keys
  {
    var s := set j | 0 <= j < |order| :: order[j];
    assert order[i] in s by {
      assert 0 <= i < |order| && order[i] == order[i];
    }
  }

  /** An empty enumeration enumerates nothing. */
  lemma EnumerationEmpty<K>(keys: set<K>)
    requires IsEnumeration([], keys)
    ensures keys == {}
  {
  }

  /** An enumeration has one entry per key. */
  lemma {:induction false} EnumerationSize<K>(order: seq<K>, keys: set<K>)
    requires IsEnumeration(order, keys)
    ensures |keys| == |order|
    decreases |order|
  {
    if order == [] {
      EnumerationEmpty(keys);
    } else {
      EnumerationTail(order, keys);
      EnumerationSize(order[1..], keys - {order[0]});
    }
  }
}
