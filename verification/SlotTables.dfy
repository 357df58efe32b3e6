/** What the arrays inside the containers of children stand for. */
module SlotTables {
  import opened Bytes
  import opened Slots

  predicate Full<T>(children: seq<Option<T>>) {
    forall i :: 0 <= i < |children| ==> children[i].Some?
  }

  function Zip<T>(keys: seq<byte>, children: seq<Option<T>>): (r: seq<Slot<T>>)
    requires |keys| == |children| && Full(children)
    ensures |r| == |keys| && forall i :: 0 <= i < |r| ==> r[i] == Slot(keys[i], children[i].value)
  {
    seq(|keys|, i requires 0 <= i < |keys| => Slot(keys[i], children[i].value))
  }

  /** The slots of a table indexed by key, whose first key is `from`. */
  function Listed<T>(table: seq<Option<T>>, from: nat): seq<Slot<T>>
    requires from + |table| <= 256
  {
    if table == [] then []
    else (if table[0].Some? then [Slot(from, table[0].value)] else []) + Listed(table[1..], from + 1)
  }

  lemma {:induction false} ListedKeys<T>(table: seq<Option<T>>, from: nat)
    requires from + |table| <= 256
    ensures IncreasingKeys(Listed(table, from)) && forall i :: 0 <= i < |Listed(table, from)| ==> from <= Listed(table, from)[i].key
  {
    if table != [] {
      ListedKeys(table[1..], from + 1);
    }
  }

  /** A table looked up by key is its list looked up by key. */
  lemma {:induction false} ListedLookup<T>(table: seq<Option<T>>, from: nat, key: byte)
    requires from + |table| <= 256
    ensures Lookup(Listed(table, from), key) == if from <= key < from + |table| then table[key - from] else None
  {
    if table != [] {
      ListedLookup(table[1..], from + 1, key);
      var l := Listed(table[1..], from + 1);
      assert from <= key - 1 < from + |table[1..]| ==> table[1..][key - (from + 1)] == table[key - from];
      if table[0].Some? {
        assert ([Slot(from, table[0].value)] + l)[1..] == l;
      } else {
        assert [] + l == l;
      }
    }
  }

  /** Filling an empty place of a table inserts by key. */
  lemma {:induction false} ListedInsert<T>(table: seq<Option<T>>, from: nat, i: nat, child: T)
    requires from + |table| <= 256 && i < |table| && table[i].None?
    ensures Listed(table[i := Some(child)], from) == InsertByKey(Listed(table, from), Slot(from + i, child))
  {
    var table', l := table[i := Some(child)], Listed(table[1..], from + 1);
    ListedCons(table, from);
    ListedCons(table', from);
    if i == 0 {
      ListedKeys(table[1..], from + 1);
      hide *;
      assert table'[1..] == table[1..] && table'[0] == Some(child);
      InsertFirst(l, from, child);
    } else {
      ListedInsert(table[1..], from + 1, i - 1, child);
      hide *;
      assert table'[1..] == table[1..][i - 1 := Some(child)] && table'[0] == table[0];
      InsertAfter(table[0], from, l, Slot(from + i, child));
    }
  }

  function Own<T>(child: Option<T>, key: byte): seq<Slot<T>> {
    if child.Some? then [Slot(key, child.value)] else []
  }

  lemma ListedCons<T>(table: seq<Option<T>>, from: nat)
    requires from + |table| <= 256 && table != []
    ensures Listed(table, from) == Own(table[0], from) + Listed(table[1..], from + 1)
  {
  }

  lemma InsertFirst<T>(l: seq<Slot<T>>, from: byte, child: T)
    requires forall i :: 0 <= i < |l| ==> from < l[i].key
    ensures InsertByKey(Own(None, from) + l, Slot(from, child)) == Own(Some(child), from) + l
  {
    assert [] + l == l;
  }

  lemma InsertAfter<T>(first: Option<T>, from: byte, l: seq<Slot<T>>, s: Slot<T>)
    requires from < s.key
    ensures InsertByKey(Own(first, from) + l, s) == Own(first, from) + InsertByKey(l, s)
  {
    var own := Own(first, from);
    if own == [] {
      assert own + l == l;
    } else {
      assert (own + l)[1..] == l;
    }
  }

  function Blank<T>(n: nat): (r: seq<Option<T>>)
    ensures |r| == n && forall i :: 0 <= i < n ==> r[i] == None
  {
    seq(n, _ => None)
  }

  lemma {:induction false} ListedBlank<T>(n: nat, from: nat)
    requires from + n <= 256
    ensures Listed(Blank<T>(n), from) == []
  {
    if n > 0 {
      assert Blank<T>(n)[1..] == Blank<T>(n - 1);
      ListedBlank<T>(n - 1, from + 1);
    }
  }

  /** The table into which slots are spread. */
  function Spread<T>(slots: seq<Slot<T>>): (r: seq<Option<T>>)
    ensures |r| == 256
  {
    if slots == [] then Blank(256)
    else var last := slots[|slots| - 1]; Spread(slots[..|slots| - 1])[last.key := Some(last.child)]
  }

  lemma {:induction false} SpreadLookup<T>(slots: seq<Slot<T>>, key: byte)
    requires DistinctKeys(slots)
    ensures Spread(slots)[key] == Lookup(slots, key)
  {
    if slots != [] {
      var init, last := slots[..|slots| - 1], slots[|slots| - 1];
      SpreadLookup(init, key);
      if last.key == key {
        FindOnly(slots, key, |slots| - 1);
      } else if Find(init, key).Some? {
        FindOnly(slots, key, Find(init, key).value);
      } else {
        assert slots == init + [last];
      }
    }
  }

  /** Spreading slots over a table sorts them by key. */
  lemma {:induction false} SpreadSorts<T>(slots: seq<Slot<T>>)
    requires DistinctKeys(slots)
    ensures Listed(Spread(slots), 0) == SortByKey(slots)
  {
    if slots == [] {
      ListedBlank<T>(256, 0);
    } else {
      var init, last := slots[..|slots| - 1], slots[|slots| - 1];
      SpreadSorts(init);
      SpreadLookup(init, last.key);
      ListedInsert(Spread(init), 0, last.key, last.child);
    }
  }

  lemma ZipAppend<T>(keys: seq<byte>, children: seq<Option<T>>, key: byte, child: T)
    requires |keys| == |children| && Full(children)
    ensures Full(children + [Some(child)]) && Zip(keys + [key], children + [Some(child)]) == Zip(keys, children) + [Slot(key, child)]
  {
  }

  /** An index holds, under each key in use, the position of the key plus one. */
  predicate Index(index: seq<byte>, order: seq<byte>) {
    && |index| == 256 && |order| <= 48
    && (forall i :: 0 <= i < |order| ==> index[order[i]] == i + 1)
    && (forall k: byte :: index[k] <= |order| && (index[k] > 0 ==> order[index[k] - 1] == k))
  }

  lemma IndexAppend(index: seq<byte>, order: seq<byte>, key: byte)
    requires Index(index, order) && |order| < 48 && key !in order
    ensures Index(index[key := |order| + 1], order + [key])
  {
  }
}
