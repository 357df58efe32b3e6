/** The children of a radix node, abstractly: (key byte, child) pairs in the order in which the
    node enumerates them. */
module Slots {
  import opened Bytes

  datatype Slot<+T> = Slot(key: byte, child: T)

  predicate DistinctKeys<T>(slots: seq<Slot<T>>) {
    forall i, j :: 0 <= i < j < |slots| ==> slots[i].key != slots[j].key
  }

  predicate IncreasingKeys<T>(slots: seq<Slot<T>>) {
    forall i, j :: 0 <= i < j < |slots| ==> slots[i].key < slots[j].key
  }

  /** The position of a key. */
  function Find<T>(slots: seq<Slot<T>>, key: byte): (r: Option<nat>)
    ensures r.Some? ==> r.value < |slots| && slots[r.value].key == key
    ensures r.None? ==> forall i :: 0 <= i < |slots| ==> slots[i].key != key
  {
    if slots == [] then None
    else if slots[0].key == key then Some(0)
    else
      match Find(slots[1..], key)
      case None => None
      case Some(i) => Some(i + 1)
  }

  /** The largest enumeration that keeps insertion order: 48 children. */
  const KEPT_IN_ORDER: nat := 48

  /** Adding a child under a new key. Up to 48 children are enumerated in the order in which they
      were added; the 49th moves all of them to an array indexed by key, enumerated by key. */
  function Add<T>(slots: seq<Slot<T>>, key: byte, child: T): seq<Slot<T>> {
    if |slots| < KEPT_IN_ORDER then slots + [Slot(key, child)]
    else InsertByKey(SortByKey(slots), Slot(key, child))
  }

  function InsertByKey<T>(sorted: seq<Slot<T>>, s: Slot<T>): seq<Slot<T>> {
    if sorted == [] then [s]
    else if s.key < sorted[0].key then [s] + sorted
    else [sorted[0]] + InsertByKey(sorted[1..], s)
  }

  function SortByKey<T>(slots: seq<Slot<T>>): seq<Slot<T>> {
    if slots == [] then [] else InsertByKey(SortByKey(slots[..|slots| - 1]), slots[|slots| - 1])
  }

  /** Inserting keeps everything and adds one: there is a place where it went. */
  lemma {:induction false} InsertByKeySplits<T>(sorted: seq<Slot<T>>, s: Slot<T>) returns (i: nat)
    ensures i <= |sorted| && InsertByKey(sorted, s) == sorted[..i] + [s] + sorted[i..]
  {
    if sorted == [] || s.key < sorted[0].key {
      i := 0;
    } else {
      var j := InsertByKeySplits(sorted[1..], s);
      i := j + 1;
      assert sorted[..i] == [sorted[0]] + sorted[1..][..j];
    }
  }

  lemma {:induction false} InsertLargest<T>(sorted: seq<Slot<T>>, s: Slot<T>)
    requires forall i :: 0 <= i < |sorted| ==> sorted[i].key < s.key
    ensures InsertByKey(sorted, s) == sorted + [s]
  {
    if sorted != [] {
      InsertLargest(sorted[1..], s);
      assert sorted + [s] == [sorted[0]] + (sorted[1..] + [s]);
    }
  }

  lemma {:induction false} SortOfSorted<T>(slots: seq<Slot<T>>)
    requires IncreasingKeys(slots)
    ensures SortByKey(slots) == slots
  {
    if slots != [] {
      SortOfSorted(slots[..|slots| - 1]);
      InsertLargest(slots[..|slots| - 1], slots[|slots| - 1]);
    }
  }

  /** A child whose key is the largest always comes last, whatever the node grows into. */
  lemma AddLargest<T>(slots: seq<Slot<T>>, key: byte, child: T)
    requires IncreasingKeys(slots) && forall i :: 0 <= i < |slots| ==> slots[i].key < key
    ensures Add(slots, key, child) == slots + [Slot(key, child)]
  {
    SortOfSorted(slots);
    InsertLargest(slots, Slot(key, child));
  }

  lemma {:induction false} SortBag<T>(slots: seq<Slot<T>>)
    ensures multiset(SortByKey(slots)) == multiset(slots)
  {
    if slots != [] {
      var init, last := slots[..|slots| - 1], slots[|slots| - 1];
      SortBag(init);
      var i := InsertByKeySplits(SortByKey(init), last);
      assert SortByKey(init) == SortByKey(init)[..i] + SortByKey(init)[i..];
      assert slots == init + [last];
    }
  }

  /** Adding keeps every child and adds one. */
  lemma AddBag<T>(slots: seq<Slot<T>>, key: byte, child: T)
    ensures multiset(Add(slots, key, child)) == multiset(slots) + multiset{Slot(key, child)}
  {
    if |slots| >= KEPT_IN_ORDER {
      SortBag(slots);
      var sorted := SortByKey(slots);
      var i := InsertByKeySplits(sorted, Slot(key, child));
      assert sorted == sorted[..i] + sorted[i..];
    }
  }

  lemma {:induction false} InsertKeepsIncreasing<T>(sorted: seq<Slot<T>>, s: Slot<T>)
    requires IncreasingKeys(sorted) && forall i :: 0 <= i < |sorted| ==> sorted[i].key != s.key
    ensures IncreasingKeys(InsertByKey(sorted, s))
  {
    if sorted != [] && s.key > sorted[0].key {
      InsertKeepsIncreasing(sorted[1..], s);
      var i := InsertByKeySplits(sorted[1..], s);
      assert forall x :: x in InsertByKey(sorted[1..], s) ==> x == s || x in sorted[1..];
    }
  }

  /** Distinct keys are a property of the bag of slots. */
  lemma BagDistinct<T>(a: seq<Slot<T>>, b: seq<Slot<T>>)
    requires multiset(a) == multiset(b) && DistinctKeys(a)
    ensures DistinctKeys(b)
  {
    forall i, j | 0 <= i < j < |b| ensures b[i].key != b[j].key {
      if b[i].key == b[j].key {
        assert b[i] in multiset(b) && b[j] in multiset(b);
        assert b[i] in multiset(a) && b[j] in multiset(a);
        assert b == b[..i] + [b[i]] + b[i + 1..j] + [b[j]] + b[j + 1..];
        assert b[i] == b[j];
        assert multiset(b)[b[i]] >= 2;
        OnceInDistinct(a, b[i]);
      }
    }
  }

  lemma {:induction false} OnceInDistinct<T>(a: seq<Slot<T>>, s: Slot<T>)
    requires DistinctKeys(a)
    ensures multiset(a)[s] <= 1
  {
    if a != [] {
      assert a == [a[0]] + a[1..];
      OnceInDistinct(a[1..], s);
      if a[0] == s {
        assert s !in a[1..];
      }
    }
  }

  lemma {:induction false} SortIncreasing<T>(slots: seq<Slot<T>>)
    requires DistinctKeys(slots)
    ensures IncreasingKeys(SortByKey(slots))
  {
    if slots != [] {
      var init, last := slots[..|slots| - 1], slots[|slots| - 1];
      SortIncreasing(init);
      SortBag(init);
      forall i | 0 <= i < |SortByKey(init)| ensures SortByKey(init)[i].key != last.key {
        assert SortByKey(init)[i] in multiset(init);
      }
      InsertKeepsIncreasing(SortByKey(init), last);
    }
  }

  lemma AddDistinct<T>(slots: seq<Slot<T>>, key: byte, child: T)
    requires DistinctKeys(slots) && Find(slots, key).None?
    ensures DistinctKeys(Add(slots, key, child))
  {
    AddBag(slots, key, child);
    var appended := slots + [Slot(key, child)];
    assert multiset(appended) == multiset(slots) + multiset{Slot(key, child)};
    BagDistinct(appended, Add(slots, key, child));
  }

  // ---- Two sequences of slots under the same keys ---------------------------------------------

  function Left<T, U>(z: seq<Slot<(T, U)>>): (r: seq<Slot<T>>)
    ensures |r| == |z|
  {
    seq(|z|, i requires 0 <= i < |z| => Slot(z[i].key, z[i].child.0))
  }

  function Right<T, U>(z: seq<Slot<(T, U)>>): (r: seq<Slot<U>>)
    ensures |r| == |z|
  {
    seq(|z|, i requires 0 <= i < |z| => Slot(z[i].key, z[i].child.1))
  }

  function Pair<T, U>(a: seq<Slot<T>>, b: seq<Slot<U>>): (z: seq<Slot<(T, U)>>)
    requires |a| == |b| && forall i :: 0 <= i < |a| ==> a[i].key == b[i].key
    ensures |z| == |a| && Left(z) == a && Right(z) == b
  {
    seq(|a|, i requires 0 <= i < |a| => Slot(a[i].key, (a[i].child, b[i].child)))
  }

  lemma {:induction false} InsertSides<T, U>(z: seq<Slot<(T, U)>>, s: Slot<(T, U)>)
    ensures Left(InsertByKey(z, s)) == InsertByKey(Left(z), Slot(s.key, s.child.0))
    ensures Right(InsertByKey(z, s)) == InsertByKey(Right(z), Slot(s.key, s.child.1))
  {
    if z != [] && s.key >= z[0].key {
      InsertSides(z[1..], s);
      assert Left(z)[1..] == Left(z[1..]) && Right(z)[1..] == Right(z[1..]);
    }
  }

  lemma {:induction false} SortSides<T, U>(z: seq<Slot<(T, U)>>)
    ensures Left(SortByKey(z)) == SortByKey(Left(z)) && Right(SortByKey(z)) == SortByKey(Right(z))
  {
    if z != [] {
      var init := z[..|z| - 1];
      SortSides(init);
      assert Left(z)[..|z| - 1] == Left(init) && Right(z)[..|z| - 1] == Right(init);
      InsertSides(SortByKey(init), z[|z| - 1]);
    }
  }

  /** Where a child goes depends on the keys alone. */
  lemma AddSides<T, U>(z: seq<Slot<(T, U)>>, key: byte, t: T, u: U)
    ensures Left(Add(z, key, (t, u))) == Add(Left(z), key, t) && Right(Add(z, key, (t, u))) == Add(Right(z), key, u)
  {
    SortSides(z);
    InsertSides(SortByKey(z), Slot(key, (t, u)));
  }

  predicate NoDuplicates<T(==)>(s: seq<T>) {
    forall i, j :: 0 <= i < j < |s| ==> s[i] != s[j]
  }

  lemma {:induction false} OnceWithoutDuplicates<T>(s: seq<T>, x: T)
    requires NoDuplicates(s)
    ensures multiset(s)[x] <= 1
  {
    if s != [] {
      assert s == [s[0]] + s[1..];
      OnceWithoutDuplicates(s[1..], x);
      if s[0] == x {
        assert x !in s[1..];
      }
    }
  }

  lemma BagNoDuplicates<T>(a: seq<T>, b: seq<T>)
    requires multiset(a) == multiset(b) && NoDuplicates(a)
    ensures NoDuplicates(b)
  {
    forall i, j | 0 <= i < j < |b| ensures b[i] != b[j] {
      OnceWithoutDuplicates(a, b[i]);
      assert b == b[..i] + [b[i]] + b[i + 1..j] + [b[j]] + b[j + 1..];
      assert multiset(b) == multiset(b[..i]) + multiset{b[i]} + multiset(b[i + 1..j]) + multiset{b[j]} + multiset(b[j + 1..]);
    }
  }

  /** Adding to slots without duplicates a new one: the result has the same slots and the new one,
      still without duplicates. */
  lemma AddMembers<T>(slots: seq<Slot<T>>, key: byte, child: T)
    requires NoDuplicates(slots) && Slot(key, child) !in slots
    ensures var r := Add(slots, key, child);
      NoDuplicates(r) && forall i :: 0 <= i < |r| ==> r[i] == Slot(key, child) || r[i] in slots
  {
    var all, r := slots + [Slot(key, child)], Add(slots, key, child);
    AddBag(slots, key, child);
    hide Add;
    assert multiset(all) == multiset(r);
    BagNoDuplicates(all, r);
    forall i | 0 <= i < |r| ensures r[i] == Slot(key, child) || r[i] in slots {
      assert r[i] in multiset(all);
    }
  }

  // ---- Looking keys up ------------------------------------------------------------------------

  function Lookup<T>(slots: seq<Slot<T>>, key: byte): Option<T> {
    match Find(slots, key)
    case None => None
    case Some(i) => Some(slots[i].child)
  }

  function At<T>(slots: seq<Slot<T>>, i: int): Option<T> {
    if 0 <= i < |slots| then Some(slots[i].child) else None
  }

  lemma {:induction false} FindFirst<T>(slots: seq<Slot<T>>, key: byte, i: nat)
    requires i < |slots| && slots[i].key == key && forall j :: 0 <= j < i ==> slots[j].key != key
    ensures Find(slots, key) == Some(i)
  {
    if i > 0 {
      FindFirst(slots[1..], key, i - 1);
    }
  }

  lemma FindOnly<T>(slots: seq<Slot<T>>, key: byte, i: nat)
    requires DistinctKeys(slots) && i < |slots| && slots[i].key == key
    ensures Find(slots, key) == Some(i)
  {
    FindFirst(slots, key, i);
  }

  lemma AppendDistinct<T>(slots: seq<Slot<T>>, key: byte, child: T)
    requires DistinctKeys(slots) && Find(slots, key).None?
    ensures DistinctKeys(slots + [Slot(key, child)])
  {
  }

  lemma NextIsNew<T>(slots: seq<Slot<T>>, i: nat)
    requires DistinctKeys(slots) && i < |slots|
    ensures Find(slots[..i], slots[i].key) == None && slots[..i + 1] == slots[..i] + [slots[i]]
  {
    NotFound(slots[..i], slots[i].key);
  }

  lemma NotFound<T>(slots: seq<Slot<T>>, key: byte)
    requires forall i :: 0 <= i < |slots| ==> slots[i].key != key
    ensures Find(slots, key) == None
  {
  }

  lemma SortLength<T>(slots: seq<Slot<T>>)
    ensures |SortByKey(slots)| == |slots|
  {
    SortBag(slots);
    assert |multiset(SortByKey(slots))| == |multiset(slots)|;
  }

  lemma InsertLength<T>(sorted: seq<Slot<T>>, s: Slot<T>)
    ensures |InsertByKey(sorted, s)| == |sorted| + 1
  {
    var i := InsertByKeySplits(sorted, s);
  }

  /** Sorting neither adds nor loses keys. */
  lemma SortFinds<T>(slots: seq<Slot<T>>, key: byte)
    requires Find(slots, key).None?
    ensures Find(SortByKey(slots), key).None?
  {
    SortBag(slots);
    var sorted := SortByKey(slots);
    forall i | 0 <= i < |sorted| ensures sorted[i].key != key {
      assert sorted[i] in multiset(slots);
    }
    NotFound(sorted, key);
  }

  /** Containers that were filled in increasing key order enumerate in key order, whatever they have
      grown into. */
  lemma AddKeepsKeyOrder<T>(slots: seq<Slot<T>>, key: byte, child: T)
    requires IncreasingKeys(slots) && forall i :: 0 <= i < |slots| ==> slots[i].key < key
    ensures IncreasingKeys(Add(slots, key, child)) && SortByKey(Add(slots, key, child)) == Add(slots, key, child)
  {
    AddLargest(slots, key, child);
    SortOfSorted(slots + [Slot(key, child)]);
  }

  /** After adding, looking a key up finds the new child under the new key, and what was there before
      under every other key. */
  lemma AddLookup<T>(slots: seq<Slot<T>>, key: byte, child: T, k: byte)
    requires DistinctKeys(slots) && Find(slots, key).None?
    ensures Lookup(Add(slots, key, child), k) == if k == key then Some(child) else Lookup(slots, k)
  {
    var r := Add(slots, key, child);
    AddDistinct(slots, key, child);
    AddBag(slots, key, child);
    hide Add;
    if k == key {
      assert Slot(key, child) in multiset(r);
      var i :| 0 <= i < |r| && r[i] == Slot(key, child);
      FindOnly(r, k, i);
    } else if Find(slots, k).Some? {
      var s := slots[Find(slots, k).value];
      assert s in multiset(slots) && s in multiset(r);
      var i :| 0 <= i < |r| && r[i] == s;
      FindOnly(r, k, i);
    } else {
      forall i | 0 <= i < |r| ensures r[i].key != k {
        assert r[i] in multiset(r);
        assert r[i] == Slot(key, child) || r[i] in multiset(slots);
      }
      NotFound(r, k);
    }
  }

  /** Up to 48 children stay in the order of their addition; from the 49th on they are in key order. */
  lemma AddPlaces<T>(slots: seq<Slot<T>>, key: byte, child: T)
    requires DistinctKeys(slots) && Find(slots, key).None?
    ensures |slots| < 48 ==> Add(slots, key, child) == slots + [Slot(key, child)]
    ensures |slots| >= 48 ==> IncreasingKeys(Add(slots, key, child))
  {
    SortIncreasing(slots + [Slot(key, child)]);
  }
}
