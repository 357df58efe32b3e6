/** The adaptive containers of a node's children: 4 and 16 (key, child) pairs, 48 children behind an
    index of 256 keys, and 256 children in a table. All of them hold the same abstract thing, the
    slots in the order in which `getChild` enumerates them. */
module Children {
  import opened Bytes
  import opened Slots
  import opened SlotTables

  // ---- Node4 and Node16 -----------------------------------------------------------------------

  /** Pairs in the order in which they were added. Node4 and Node16 differ in their capacity. */
  class LinearNode<T> {
    const keys: array<byte>
    const children: array<Option<T>>
    var count: nat

    ghost predicate Shaped()
      reads this, keys, children
    {
      keys.Length == children.Length && (keys.Length == 4 || keys.Length == 16) && count <= keys.Length && Full(children[..count])
    }

    ghost function Contents(): seq<Slot<T>>
      requires Shaped()
      reads this, keys, children
    {
      Zip(keys[..count], children[..count])
    }

    ghost predicate Valid()
      reads this, keys, children
    {
      Shaped() && DistinctKeys(Contents())
    }

    constructor (capacity: nat)
      requires capacity == 4 || capacity == 16
      ensures Valid() && keys.Length == capacity && Contents() == [] && fresh(keys) && fresh(children)
    {
      keys := new byte[capacity](_ => 0);
      children := new Option<T>[capacity](_ => None);
      count := 0;
    }

    method FindChild(key: byte) returns (r: Option<T>)
      requires Valid()
      ensures r == Lookup(Contents(), key)
    {
      var i := 0;
      while i < count
        invariant i <= count && forall j :: 0 <= j < i ==> Contents()[j].key != key
      {
        if keys[i] == key {
          FindFirst(Contents(), key, i);
          return children[i];
        }
        i := i + 1;
      }
      r := None;
    }

    /** Room for one more. */
    method Append(key: byte, child: T)
      requires Valid() && count < keys.Length && Find(Contents(), key).None?
      modifies this, keys, children
      ensures Valid() && Contents() == old(Contents()) + [Slot(key, child)]
    {
      hide Zip, Full, DistinctKeys;
      ZipAppend(keys[..count], children[..count], key, child);
      AppendDistinct(Contents(), key, child);
      keys[count] := key;
      children[count] := Some(child);
      count := count + 1;
      assert keys[..count] == old(keys[..count]) + [key] && children[..count] == old(children[..count]) + [Some(child)];
    }

    method GetChild(index: int) returns (r: Option<T>)
      requires Valid()
      ensures r == At(Contents(), index)
    {
      r := if index < 0 || index >= count then None else children[index];
    }

    /** Node4 grows into a Node16 with the same pairs. */
    method Grow4() returns (r: LinearNode<T>)
      requires Valid() && keys.Length == 4
      ensures r.Valid() && fresh(r) && fresh(r.keys) && fresh(r.children) && r.keys.Length == 16 && r.Contents() == Contents()
    {
      r := new LinearNode(16);
      var i := 0;
      while i < count
        invariant i <= count && r.Valid() && fresh(r) && fresh(r.keys) && fresh(r.children) && r.keys.Length == 16
        invariant r.Contents() == Contents()[..i]
      {
        NextIsNew(Contents(), i);
        r.Append(keys[i], children[i].value);
        i := i + 1;
      }
    }

    /** Node16 grows into a Node48 with the same pairs in the same order. */
    method Grow16() returns (r: Node48<T>)
      requires Valid() && keys.Length == 16
      ensures r.Valid() && fresh(r) && fresh(r.keys) && fresh(r.children) && r.Contents() == Contents()
    {
      r := new Node48();
      var i := 0;
      while i < count
        invariant i <= count && r.Valid() && fresh(r) && fresh(r.keys) && fresh(r.children)
        invariant r.Contents() == Contents()[..i]
      {
        NextIsNew(Contents(), i);
        r.Append(keys[i], children[i].value);
        i := i + 1;
      }
    }
  }

  // ---- Node48 ---------------------------------------------------------------------------------

  /** Children in the order in which they were added; `keys` holds, by key, the position plus one. */
  class Node48<T> {
    const keys: array<byte>
    const children: array<Option<T>>
    var count: nat
    ghost var order: seq<byte>

    ghost predicate Shaped()
      reads this, children
    {
      children.Length == 48 && count <= 48 && Full(children[..count]) && |order| == count
    }

    ghost function Contents(): seq<Slot<T>>
      requires Shaped()
      reads this, children
    {
      Zip(order, children[..count])
    }

    ghost predicate Valid()
      reads this, keys, children
    {
      && Shaped() && DistinctKeys(Contents()) && keys.Length == 256
      && Index(keys[..], order)
    }

    constructor ()
      ensures Valid() && Contents() == [] && fresh(keys) && fresh(children)
    {
      keys := new byte[256](_ => 0);
      children := new Option<T>[48](_ => None);
      count, order := 0, [];
    }

    method FindChild(key: byte) returns (r: Option<T>)
      requires Valid()
      ensures r == Lookup(Contents(), key)
    {
      var at := keys[key];
      if at > 0 {
        FindOnly(Contents(), key, at - 1);
        return children[at - 1];
      }
      NotFound(Contents(), key);
      r := None;
    }

    /** Room for one more. */
    method Append(key: byte, child: T)
      requires Valid() && count < 48 && Find(Contents(), key).None?
      modifies this, keys, children
      ensures Valid() && Contents() == old(Contents()) + [Slot(key, child)]
    {
      assert forall i :: 0 <= i < count ==> Contents()[i].key == order[i] != key;
      hide Zip, Full, DistinctKeys, Index;
      ZipAppend(order, children[..count], key, child);
      AppendDistinct(Contents(), key, child);
      IndexAppend(keys[..], order, key);
      keys[key] := count + 1;
      children[count] := Some(child);
      count := count + 1;
      order := order + [key];
      assert children[..count] == old(children[..count]) + [Some(child)];
      assert keys[..] == old(keys[..])[key := count];
    }

    method GetChild(index: int) returns (r: Option<T>)
      requires Valid()
      ensures r == At(Contents(), index)
    {
      if index < 0 || index >= count {
        return None;
      }
      assert keys[..][order[index]] == index + 1;
      var i := 0;
      while i < 256 && keys[i] != index + 1
        invariant 0 <= i <= order[index]
      {
        i := i + 1;
      }
      r := if i < 256 then children[index] else None;
    }

    /** Node48 grows into a Node256, which enumerates by key. */
    method Grow() returns (r: Node256<T>)
      requires Valid() && count == 48
      ensures r.Valid() && fresh(r) && fresh(r.children) && r.Contents() == SortByKey(Contents())
    {
      r := new Node256();
      var i := 0;
      while i < 256
        invariant 0 <= i <= 256 && r.children.Length == 256 && fresh(r) && fresh(r.children)
        invariant forall k: byte :: r.children[k] == if k < i then Lookup(Contents(), k) else None
      {
        if keys[i] != 0 {
          FindOnly(Contents(), i, keys[i] - 1);
          r.children[i] := children[keys[i] - 1];
        } else {
          NotFound(Contents(), i);
        }
        i := i + 1;
      }
      assert r.children[..] == Spread(Contents()) by {
        forall k: byte ensures r.children[k] == Spread(Contents())[k] {
          SpreadLookup(Contents(), k);
        }
      }
      SpreadSorts(Contents());
    }
  }

  // ---- Node256 --------------------------------------------------------------------------------

  /** The children by key. */
  class Node256<T> {
    const children: array<Option<T>>

    ghost predicate Valid()
      reads this, children
    {
      children.Length == 256
    }

    ghost function Contents(): seq<Slot<T>>
      requires Valid()
      reads this, children
    {
      Listed(children[..], 0)
    }

    constructor ()
      ensures Valid() && fresh(children) && forall k: byte :: children[k] == None
    {
      children := new Option<T>[256](_ => None);
    }

    method FindChild(key: byte) returns (r: Option<T>)
      requires Valid()
      ensures r == Lookup(Contents(), key)
    {
      ListedLookup(children[..], 0, key);
      r := children[key];
    }

    method Put(key: byte, child: T)
      requires Valid() && Find(Contents(), key).None?
      modifies children
      ensures Valid() && Contents() == InsertByKey(old(Contents()), Slot(key, child))
    {
      ListedLookup(children[..], 0, key);
      ListedInsert(children[..], 0, key, child);
      children[key] := Some(child);
      assert children[..] == old(children[..])[key := Some(child)];
    }

    method Size() returns (n: nat)
      requires Valid()
      ensures n == |Contents()|
    {
      n := 0;
      var i := 0;
      assert children[0..] == children[..];
      while i < 256
        invariant 0 <= i <= 256 && n + |Listed(children[i..], i)| == |Contents()|
      {
        if children[i].Some? {
          n := n + 1;
        }
        assert children[i..][1..] == children[i + 1..];
        i := i + 1;
      }
    }

    method GetChild(index: int) returns (r: Option<T>)
      requires Valid()
      ensures r == At(Contents(), index)
    {
      var seen, i := 0, 0;
      assert children[0..] == children[..];
      while i < 256
        invariant 0 <= i <= 256 && 0 <= seen && (0 <= index ==> seen <= index)
        invariant seen <= |Contents()| && Contents()[seen..] == Listed(children[i..], i)
      {
        assert children[i..][1..] == children[i + 1..];
        if children[i].Some? {
          assert Contents()[seen] == Contents()[seen..][0];
          if seen == index {
            return children[i];
          }
          assert Contents()[seen + 1..] == Contents()[seen..][1..];
          seen := seen + 1;
        }
        i := i + 1;
      }
      r := None;
    }
  }

  // ---- The interface --------------------------------------------------------------------------

  datatype NodeChildren<T> = Linear(linear: LinearNode<T>) | Indexed(indexed: Node48<T>) | Direct(direct: Node256<T>) {

    ghost function Objects(): set<object> {
      match this
      case Linear(n) => {n, n.keys, n.children}
      case Indexed(n) => {n, n.keys, n.children}
      case Direct(n) => {n, n.children}
    }

    /** A table is used from the 49th child on. */
    ghost predicate Valid()
      reads Objects()
    {
      match this
      case Linear(n) => n.Valid()
      case Indexed(n) => n.Valid()
      case Direct(n) => n.Valid() && |n.Contents()| >= KEPT_IN_ORDER
    }

    ghost function Contents(): seq<Slot<T>>
      requires Valid()
      reads Objects()
    {
      match this
      case Linear(n) => n.Contents()
      case Indexed(n) => n.Contents()
      case Direct(n) => n.Contents()
    }

    method FindChild(key: byte) returns (r: Option<T>)
      requires Valid()
      ensures r == Lookup(Contents(), key)
    {
      match this
      case Linear(n) => r := n.FindChild(key);
      case Indexed(n) => r := n.FindChild(key);
      case Direct(n) => r := n.FindChild(key);
    }

    /** Adding under a new key, into whatever container there is room in. */
    method AddChild(key: byte, child: T) returns (r: NodeChildren<T>, grown: bool)
      requires Valid() && Find(Contents(), key).None?
      modifies Objects()
      ensures r.Valid() && r.Contents() == Add(old(Contents()), key, child)
      ensures if grown then fresh(r.Objects()) else r == this
      ensures grown ==> |old(Contents())| == 4 || |old(Contents())| == 16 || |old(Contents())| == 48
    {
      r, grown := this, false;
      match this
      case Linear(n) =>
        if n.count < n.keys.Length {
          n.Append(key, child);
        } else if n.keys.Length == 4 {
          var more := n.Grow4();
          more.Append(key, child);
          r, grown := Linear(more), true;
        } else {
          var more := n.Grow16();
          more.Append(key, child);
          r, grown := Indexed(more), true;
        }
      case Indexed(n) =>
        if n.count < 48 {
          n.Append(key, child);
        } else {
          var more := n.Grow();
          SortFinds(n.Contents(), key);
          more.Put(key, child);
          SortLength(n.Contents());
          InsertLength(SortByKey(n.Contents()), Slot(key, child));
          r, grown := Direct(more), true;
        }
      case Direct(n) =>
        ListedKeys(n.children[..], 0);
        SortOfSorted(n.Contents());
        InsertLength(n.Contents(), Slot(key, child));
        n.Put(key, child);
    }

    method Size() returns (n: nat)
      requires Valid()
      ensures n == |Contents()|
    {
      match this
      case Linear(m) => n := m.count;
      case Indexed(m) => n := m.count;
      case Direct(m) => n := m.Size();
    }

    method GetChild(index: int) returns (r: Option<T>)
      requires Valid()
      ensures r == At(Contents(), index)
    {
      match this
      case Linear(n) => r := n.GetChild(index);
      case Indexed(n) => r := n.GetChild(index);
      case Direct(n) => r := n.GetChild(index);
    }
  }
}
