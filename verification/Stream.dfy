/** The tree object of a stream, and the stream with its subscribers. */
module Stream {
  import opened Bytes
  import opened Decimal
  import opened Slots
  import opened RadixSpec
  import opened RadixQueries
  import opened Radix
  import opened StreamIds
  import opened StreamRuns
  import RadixLeaves
  import Commands

  class RadixTree {
    var root: RadixNode
    var size: int
    var lastTimestamp: int
    var sequence: int
    var lastId: bytes

    ghost function Clock(): StreamIds.Clock
      reads this
    {
      StreamIds.Clock(lastId, lastTimestamp, sequence)
    }

    ghost function Value(): State
      reads this, root
    {
      State(root.tree, Clock())
    }

    /** The size counts the entries. */
    ghost predicate Valid()
      reads this, root, root.repr
    {
      this !in root.repr && root.Valid() && Sound(Value()) && size == |Dfs(root.tree)|
    }

    constructor ()
      ensures Valid() && fresh(root.repr) && Value() == EMPTY
    {
      root := new RadixNode.Bare([], false, []);
      size, lastTimestamp, sequence, lastId := 0, 0, 0, [];
      new;
      hide Less;
      assert Leaves(EMPTY_TREE, []) == [] && Dfs(EMPTY_TREE) == [];
    }

    method AddEntry(id: bytes, fields: seq<seq<bytes>>)
      requires Valid()
      modifies this, root.repr
      ensures Valid() && root == old(root) && fresh(root.repr - old(root.repr))
      ensures Value() == Put(old(Value()), id, fields) && size == old(size) + 1
    {
      hide Insert, UpdateLast, Less, Dfs, Shape, Keyed, Leaves;
      TreeReaches(Value(), id);
      PutSize(Value(), id, fields);
      root.Insert(id, Entry(id, fields));
      size := size + 1;
      UpdateLastID(id);
    }

    method UpdateLastID(id: bytes)
      modifies `lastId, `lastTimestamp, `sequence
      ensures Clock() == UpdateLast(old(Clock()), id)
    {
      if Less(lastId, id) {
        lastId := id;
        var parts := SplitDash(id);
        if |parts| == 2 {
          var timestamp := ParseInt(parts[0]);
          if timestamp.Some? {
            lastTimestamp := timestamp.value;
            sequence := ParseIntOrNearest(parts[1]);
          }
        }
      }
    }

    method Range(startId: bytes, endId: bytes, count: nat) returns (found: seq<Entry>)
      requires Valid()
      ensures found == Limit(Within(Dfs(root.tree), BoundsOf(startId, endId)), count)
      ensures exists all: seq<Entry> ::
        && RadixLeaves.Selects(all, Dfs(root.tree), startId, endId)
        && found == if count > 0 && |all| > count then all[..count] else all
    {
      hide RadixLeaves.Selects, Within, Less, Shape, Keyed, Leaves, Dfs;
      var inclusiveStart, inclusiveEnd, s, e := true, true, startId, endId;
      if s != [] && s[0] == 40 {
        s, inclusiveStart := s[1..], false;
      }
      if e != [] && e[0] == 40 {
        e, inclusiveEnd := e[1..], false;
      }
      if s == [MINUS] {
        s := [];
      }
      if e == [PLUS] {
        e := [255];
      }
      assert [] + root.prefix == [];
      found := root.Collect([], Bounds(s, e, inclusiveStart, inclusiveEnd), count, []);
      assert [] + Within(Dfs(root.tree), BoundsOf(startId, endId)) == Within(Dfs(root.tree), BoundsOf(startId, endId));
      RadixLeaves.RangeAnswers(Dfs(root.tree), startId, endId, count);
    }

    method GenerateID(now: int) returns (id: bytes)
      modifies `lastTimestamp, `sequence
      ensures Clock() == Tick(old(Clock()), now) && id == FormatId(lastTimestamp, sequence)
    {
      if now <= lastTimestamp {
        sequence := Successor(sequence);
      } else {
        lastTimestamp, sequence := now, 0;
      }
      id := FormatId(lastTimestamp, sequence);
    }

    method GenerateIncompleteID(incompleteId: bytes) returns (id: Option<bytes>)
      requires incompleteId != [STAR]
      modifies `lastTimestamp, `sequence
      ensures var w := Wanted(incompleteId, 0);
        if w.None? then id == None && Clock() == old(Clock())
        else Clock() == Tick(old(Clock()), w.value) && id == Some(FormatId(lastTimestamp, sequence))
    {
      var parts := SplitDash(incompleteId);
      if |parts| != 2 || parts[1] != [STAR] {
        return None;
      }
      var timestamp := ParseInt(parts[0]);
      if timestamp.None? || timestamp.value < 0 {
        return None;
      }
      var ts := if timestamp.value < lastTimestamp then lastTimestamp else timestamp.value;
      if ts == lastTimestamp {
        sequence := Successor(sequence);
      } else {
        lastTimestamp, sequence := ts, 0;
      }
      id := Some(FormatId(lastTimestamp, sequence));
    }

    method IsLargestID(id: bytes) returns (largest: bool)
      ensures largest == IsLargest(Clock(), id)
    {
      if lastId == [] {
        return true;
      }
      largest := Less(lastId, id);
    }

    /** Trimming by size: the size is the number of entries left, and the result the number that
        went. */
    method TrimBySize(maxSize: int) returns (trimmed: nat)
      requires Valid()
      modifies this, root.repr
      ensures Valid() && root == old(root) && root.repr == old(root.repr)
      ensures Value() == TrimTo(old(Value()), maxSize)
      ensures trimmed == |Dfs(old(root.tree))| - |Dfs(root.tree)| && size == old(size) - trimmed
    {
      hide TrimSize, Less, Dfs, Shape, Keyed, Leaves;
      TrimNothingBelow(root.tree);
      if size <= maxSize {
        return 0;
      }
      TrimSizeSound(Value(), size - maxSize);
      RadixLeaves.TrimSizeReaches(root.tree, size - maxSize);
      var excess := size - maxSize;
      var left := root.TrimBySize(excess);
      trimmed := excess - left;
      size := size - trimmed;
    }

    method TrimByMinID(minId: bytes) returns (trimmed: nat)
      requires Valid()
      modifies this, root.repr
      ensures Valid() && root == old(root) && root.repr == old(root.repr)
      ensures Value() == TrimBelow(old(Value()), minId)
      ensures trimmed == |Dfs(old(root.tree))| - |Dfs(root.tree)| && size == old(size) - trimmed
    {
      hide TrimMin, Less, Dfs, Shape, Keyed, Leaves;
      TrimMinSound(Value(), minId);
      var stop;
      trimmed, stop := root.TrimByMinID(minId);
      size := size - trimmed;
    }
  }

  /** How many entries a subscriber may leave unread before it misses some. */
  const BACKLOG: nat := 100

  /** The channel of a subscriber after an entry was offered: a full one is skipped. */
  function Offered(channel: seq<Entry>, e: Entry): seq<Entry> {
    if |channel| < BACKLOG then channel + [e] else channel
  }

  /** What a range holds, for valid bounds a and b in full: exactly the entries from a to b, both inclusive, each
      as often as it is stored, and in their order; "-" is no lower bound, and "+" is the byte 255. */
  ghost predicate IsRange(all: seq<Entry>, es: seq<Entry>, startId: bytes, endId: bytes)
    requires Validate(startId).Some? && Validate(endId).Some?
  {
    var a, b := Validate(startId).value, Validate(endId).value;
    && RadixLeaves.Subsequence(all, es)
    && forall e: Entry ::
      var inside := (startId == Ascii("-") || !Less(e.id, a)) && (if endId == Ascii("+") then !Less([255], e.id) else !Less(b, e.id));
      multiset(all)[e] == if inside then multiset(es)[e] else 0
  }

  lemma RangeOfValid(startId: bytes, endId: bytes, es: seq<Entry>, count: nat)
    requires Validate(startId).Some? && Validate(endId).Some?
    ensures exists all: seq<Entry> ::
      && IsRange(all, es, startId, endId)
      && Limit(Within(es, BoundsOf(Validate(startId).value, Validate(endId).value)), count)
        == if count > 0 && |all| > count then all[..count] else all
  {
    var all := Within(es, BoundsOf(Validate(startId).value, Validate(endId).value));
    RadixLeaves.WithinSelects(es, Validate(startId).value, Validate(endId).value);
    ValidBounds(startId, endId, es);
    hide Within, BoundsOf, Validate, Less, RadixLeaves.Subsequence, RadixLeaves.IsAfter, RadixLeaves.IsBefore, Ascii;
    assert IsRange(all, es, startId, endId);
  }

  /** Between valid bounds the range is that of the full IDs. */
  lemma ValidBounds(startId: bytes, endId: bytes, es: seq<Entry>)
    requires Validate(startId).Some? && Validate(endId).Some?
    ensures var a, b := Validate(startId).value, Validate(endId).value;
      forall id :: RadixLeaves.IsAfter(a, id) && RadixLeaves.IsBefore(b, id) <==>
        (startId == Ascii("-") || !Less(id, a)) && (if endId == Ascii("+") then !Less([255], id) else !Less(b, id))
  {
    FullBound(startId);
    FullBound(endId);
    RadixLeaves.BoundWords(Validate(startId).value);
    RadixLeaves.BoundWords(Validate(endId).value);
    hide Validate, Less, Ascii;
  }

  lemma FullBound(id: bytes)
    requires Validate(id).Some?
    ensures var full := Validate(id).value;
      && (full == [45] <==> id == [45]) && (full == [43] <==> id == [43]) && (full != [] ==> full[0] != 40)
  {
    if id != [45] && id != [43] {
      ValidateMeaning(id);
      var full := Validate(id).value;
      assert FullId(full);
      SplitJoin([45]);
      SplitJoin([43]);
      assert SplitDash([45]) == [[], []] && SplitDash([43]) == [[43]] by {
        assert [45][1..] == [] && [43][1..] == [] && SplitDash([]) == [[]];
      }
    }
  }

  class Stream {
    const tree: RadixTree
    // The entries that subscribers have not read yet, by subscriber.
    var subscribers: map<nat, seq<Entry>>

    ghost predicate Valid()
      reads this, tree, tree.root, tree.root.repr
    {
      this !in tree.root.repr && tree.Valid() && forall c :: c in subscribers ==> |subscribers[c]| <= BACKLOG
    }

    constructor ()
      ensures Valid() && fresh(tree) && fresh(tree.root.repr) && tree.Value() == EMPTY && subscribers == map[]
    {
      tree := new RadixTree();
      subscribers := map[];
    }

    /** Adds an entry, under the ID it is given or under one that is generated, and tells the
        subscribers. */
    method AddEntry(id: bytes, fields: seq<seq<bytes>>, now: int) returns (added: Option<bytes>)
      requires Valid()
      modifies this, tree, tree.root.repr
      ensures Valid() && tree.root == old(tree.root) && fresh(tree.root.repr - old(tree.root.repr))
      ensures (tree.Value(), added) == StreamRuns.AddEntry(old(tree.Value()), id, fields, now)
      ensures Answers(old(tree.Clock()), id, now, added)
      ensures multiset(Dfs(tree.root.tree)) == old(multiset(Dfs(tree.root.tree))) + if added.Some? then multiset{Entry(added.value, fields)} else multiset{}
      ensures subscribers.Keys == old(subscribers.Keys)
      ensures forall c :: c in subscribers ==>
        (subscribers[c] == if added.Some? then Offered(old(subscribers)[c], Entry(added.value, fields)) else old(subscribers)[c])
    {
      hide Answers, Insert, Put, UpdateLast, Less, Dfs, Shape, Keyed, Leaves, FormatId, SplitDash, HasSuffix;
      AddEntryAnswers(tree.Value(), id, fields, now);
      if id == [STAR] {
        var full := tree.GenerateID(now);
        added := Some(full);
      } else if HasSuffix(id, [MINUS, STAR]) {
        added := tree.GenerateIncompleteID(id);
        if added.None? {
          return;
        }
      } else {
        var full := Validate(id);
        if full.None? {
          return None;
        }
        var isLargest := tree.IsLargestID(full.value);
        if !isLargest {
          return None;
        }
        added := full;
      }
      tree.AddEntry(added.value, fields);
      NotifySubscribers(Entry(added.value, fields));
    }

    method NotifySubscribers(e: Entry)
      requires Valid()
      modifies `subscribers
      ensures Valid() && subscribers.Keys == old(subscribers.Keys)
      ensures forall c :: c in subscribers ==> subscribers[c] == Offered(old(subscribers)[c], e)
      ensures forall c :: c in subscribers ==>
        (subscribers[c] == if |old(subscribers)[c]| < 100 then old(subscribers)[c] + [e] else old(subscribers)[c])
    {
      var pending := subscribers.Keys;
      while pending != {}
        invariant pending <= subscribers.Keys == old(subscribers.Keys)
        invariant forall c :: c in subscribers ==>
          (subscribers[c] == if c in pending then old(subscribers)[c] else Offered(old(subscribers)[c], e))
        decreases |pending|
      {
        var c :| c in pending;
        if |subscribers[c]| < BACKLOG {
          subscribers := subscribers[c := subscribers[c] + [e]];
        }
        pending := pending - {c};
      }
    }

    method Range(startId: bytes, endId: bytes, count: nat) returns (found: seq<Entry>)
      requires Valid()
      ensures var s, e := Validate(startId), Validate(endId);
        found == if s.None? || e.None? then [] else Limit(Within(Dfs(tree.root.tree), BoundsOf(s.value, e.value)), count)
      ensures Validate(startId).None? || Validate(endId).None? ==> found == []
      ensures Validate(startId).Some? && Validate(endId).Some? ==>
        exists all: seq<Entry> ::
          && IsRange(all, Dfs(tree.root.tree), startId, endId)
          && found == if count > 0 && |all| > count then all[..count] else all
    {
      hide Validate, Within, BoundsOf, Sound, Dfs, IsRange;
      var s, e := Validate(startId), Validate(endId);
      if s.None? || e.None? {
        return [];
      }
      found := tree.Range(s.value, e.value, count);
      RangeOfValid(startId, endId, Dfs(tree.root.tree), count);
    }

    method TrimBySize(maxSize: int) returns (trimmed: nat)
      requires Valid()
      modifies tree, tree.root.repr
      ensures Valid() && tree.root == old(tree.root) && tree.root.repr == old(tree.root.repr)
      ensures tree.Value() == TrimTo(old(tree.Value()), maxSize)
      ensures trimmed == |Dfs(old(tree.root.tree))| - |Dfs(tree.root.tree)|
    {
      trimmed := tree.TrimBySize(maxSize);
    }

    method TrimByMinID(minId: bytes) returns (trimmed: nat)
      requires Valid()
      modifies tree, tree.root.repr
      ensures Valid() && tree.root == old(tree.root) && tree.root.repr == old(tree.root.repr)
      ensures tree.Value() == TrimBelow(old(tree.Value()), minId)
      ensures trimmed == |Dfs(old(tree.root.tree))| - |Dfs(tree.root.tree)|
    {
      trimmed := tree.TrimByMinID(minId);
    }

    /** What XADD does to the stream once its options are read: an entry, and then at most one trim. */
    method XAdd(x: Commands.XAddOptions, now: int) returns (added: Option<bytes>)
      requires Valid()
      modifies this, tree, tree.root.repr
      ensures Valid() && tree.root == old(tree.root) && fresh(tree.root.repr - old(tree.root.repr))
      ensures Answers(old(tree.Clock()), x.id, now, added)
      ensures (tree.Value(), added) == AddAndTrim(old(tree.Value()), x.id, x.fields, now, x.maxLen, x.minId)
    {
      hide Answers, StreamRuns.AddEntry, TrimTo, TrimBelow, Sound, Dfs, Shape, Leaves;
      added := AddEntry(x.id, x.fields, now);
      if added.None? {
        return;
      }
      if x.maxLen > 0 {
        var n := TrimBySize(x.maxLen);
      } else if x.minId != [] {
        var n := TrimByMinID(x.minId);
      }
    }
  }
}
