/** What damage to a snapshot file the parser notices. */
module RdbDamage {
  import opened Bytes
  import opened RdbFormat
  import Crc64

  /** The records end exactly where the input ends, without an EOF marker; so they do in a file that was cut
      between two records. */
  predicate RunsOut(s: bytes)
    decreases |s|
  {
    s == [] || (s[0] != EOF_MARKER && ReadRecord(s).Ok? && RunsOut(ReadRecord(s).rest))
  }

  /** The records end at an EOF marker. */
  predicate ReachesEof(s: bytes)
    decreases |s|
  {
    s != [] && (s[0] == EOF_MARKER || (ReadRecord(s).Ok? && ReachesEof(ReadRecord(s).rest)))
  }

  lemma {:induction false} RecordsParse(file: bytes, s: bytes, store: Store, now: nat)
    ensures ReadRecords(file, s, store, now).Some? <==> RunsOut(s) || (ReachesEof(s) && ChecksumHolds(file))
    decreases |s|
  {
    hide ReadRecord, ChecksumHolds, Absorb;
    if s != [] && s[0] != EOF_MARKER && ReadRecord(s).Ok? {
      RecordsParse(file, ReadRecord(s).rest, Absorb(store, ReadRecord(s).value, now), now);
    }
  }

  /** A whole file whose checksum holds, after a change that stays inside eight consecutive bytes of what the
      checksum covers: it is parsed all the same if and only if its header is still one and its records now run
      out at the end of the input. Whenever the parse still comes to an EOF marker, the file is rejected. */
  lemma DamageNoticed(before: bytes, u: bytes, v: bytes, after: bytes, sum: bytes, now: nat)
    requires |u| == |v| <= 8 && u != v && |sum| == 8 && ChecksumHolds(before + u + after + sum)
    ensures var g := before + v + after + sum;
      && (ParseFile(g, now).Some? <==> |g| >= 9 && g[..5] == MAGIC && RunsOut(g[9..]))
      && (|g| >= 9 && ReachesEof(g[9..]) ==> ParseFile(g, now) == None)
  {
    hide ChecksumHolds, ReadRecords, RunsOut, ReachesEof;
    var g := before + v + after + sum;
    CorruptionDetected(before, u, v, after, sum);
    if |g| >= 9 {
      RecordsParse(g, g[9..], map[], now);
      NotBoth(g[9..]);
    }
  }

  lemma {:induction false} NotBoth(s: bytes)
    ensures !(RunsOut(s) && ReachesEof(s))
    decreases |s|
  {
    hide ReadRecord;
    if s != [] && s[0] != EOF_MARKER && ReadRecord(s).Ok? {
      NotBoth(ReadRecord(s).rest);
    }
  }

  // ---- A change of one byte that is not noticed -----------------------------------------------

  lemma {:induction false} EncodeAllAppend(ps: seq<Piece>, p: Piece)
    ensures EncodeAll(ps + [p]) == EncodeAll(ps) + Encode(p)
  {
    hide Encode;
    if ps == [] {
      assert [] + [p] == [p] && [p][1..] == [];
    } else {
      assert (ps + [p])[1..] == ps[1..] + [p];
      EncodeAllAppend(ps[1..], p);
    }
  }

  /** What comes before the data of the last piece and its length byte. */
  function Front(ps: seq<Piece>, key: bytes, expiry: uint64): bytes {
    HEADER + (EncodeAll(ps) + (EncodeExpiry(expiry) + [TYPE_STRING] + EncodeString(key)))
  }

  lemma LastEntry(ps: seq<Piece>, key: bytes, data: bytes, expiry: uint64)
    requires |data| < 64
    ensures HEADER + EncodeAll(ps + [Entry(key, data, expiry)]) == Front(ps, key, expiry) + ([|data|] + data)
  {
    EncodeAllAppend(ps, Entry(key, data, expiry));
    assert EncodeString(data) == [|data|] + data;
    hide EncodeExpiry, EncodeString, EncodeAll;
    var head := EncodeExpiry(expiry) + [TYPE_STRING] + EncodeString(key);
    assert Encode(Entry(key, data, expiry)) == head + ([|data|] + data);
    assert EncodeAll(ps) + (head + ([|data|] + data)) == EncodeAll(ps) + head + ([|data|] + data);
  }

  /** The saved file around the length byte of its last value. */
  lemma FileAround(ps: seq<Piece>, key: bytes, data: bytes, expiry: uint64) returns (sum: bytes)
    requires |data| < 64
    ensures |sum| == 8
    ensures File(ps + [Entry(key, data, expiry)]) == Front(ps, key, expiry) + [|data|] + (data + [EOF_MARKER]) + sum
    ensures ChecksumHolds(File(ps + [Entry(key, data, expiry)]))
  {
    var all := ps + [Entry(key, data, expiry)];
    hide Front, EncodeAll, Crc64.Digest, Crc64.Unpack, ChecksumHolds;
    LastEntry(ps, key, data, expiry);
    FileChecksum(Body(all));
    sum := Crc64.Unpack(Crc64.Digest(Body(all)));
    var front := Front(ps, key, expiry);
    assert File(all) == front + ([|data|] + data) + [EOF_MARKER] + sum;
    assert front + ([|data|] + data) + [EOF_MARKER] + sum == front + [|data|] + (data + [EOF_MARKER]) + sum;
  }

  /** The length byte of the last value in a file that was saved in this order. */
  function LengthPlace(f: bytes, n: nat): nat
    requires |f| >= n + 10
  {
    |f| - n - 10
  }

  /** In the file of any store that is not empty, if the value written last is shorter than 55 bytes, raising its
      length byte by 9 makes it swallow the EOF marker and the checksum: the checksum no longer holds, and yet
      the file parses, to a store with a wrong value. */
  lemma DamageSwallowsEnd(order: seq<bytes>, store: Store, ctime: int, size: nat, expires: nat, now: nat)
    requires AllStrings(store) && Short(store) && Enumerates(order, store.Keys) && order != []
    requires |store[order[|order| - 1]].data| < 55
    ensures var f := File(Preamble(ctime, size, expires) + Entries(order, store));
      var last := store[order[|order| - 1]];
      var n := |last.data|;
      && |f| >= n + 10 && f[LengthPlace(f, n)] == n
      && var g := f[LengthPlace(f, n) := n + 9];
      && !ChecksumHolds(g)
      && ParseFile(g, now) ==
          Some(Unexpired(store[order[|order| - 1] := Str(last.data + f[|f| - 9..], last.expiry)], now))
  {
    InStore(order, store);
    hide *;
    var key := order[|order| - 1];
    var last := store[key];
    var pre := Preamble(ctime, size, expires);
    var ps := pre + Entries(order[..|order| - 1], store);
    LastOfEntries(order, store, pre);
    EndSwallowed(ps, key, last.data, last.expiry);
    var f := File(pre + Entries(order, store));
    var tail := f[|f| - 9..];
    assert |tail| == 9;
    SwallowedParses(order, store, ctime, size, expires, now, tail);
  }

  lemma InStore(order: seq<bytes>, store: Store)
    requires AllStrings(store) && Enumerates(order, store.Keys)
    ensures forall i :: 0 <= i < |order| ==> order[i] in store && store[order[i]].Str?
  {
  }

  /** The same for any pieces: the file is now one that was cut after a longer last value. */
  lemma EndSwallowed(ps: seq<Piece>, key: bytes, data: bytes, expiry: uint64)
    requires |data| < 55
    ensures var f := File(ps + [Entry(key, data, expiry)]);
      && |f| >= |data| + 10 && f[LengthPlace(f, |data|)] == |data|
      && var g := f[LengthPlace(f, |data|) := |data| + 9];
      && !ChecksumHolds(g) && g == HEADER + EncodeAll(ps + [Entry(key, data + f[|f| - 9..], expiry)])
  {
    hide ChecksumHolds, File, Front, EncodeAll;
    var n := |data|;
    var f := File(ps + [Entry(key, data, expiry)]);
    var sum := FileAround(ps, key, data, expiry);
    var front := Front(ps, key, expiry);
    var tail := [EOF_MARKER] + sum;
    assert f[|f| - 9..] == tail;
    var g := f[LengthPlace(f, n) := n + 9];
    assert g == front + [n + 9] + (data + [EOF_MARKER]) + sum;
    CorruptionDetected(front, [n], [n + 9], data + [EOF_MARKER], sum);
    LastEntry(ps, key, data + tail, expiry);
    assert g == front + ([n + 9] + (data + tail));
  }

  lemma LastOfEntries(order: seq<bytes>, store: Store, pre: seq<Piece>)
    requires AllStrings(store) && order != [] && forall i :: 0 <= i < |order| ==> order[i] in store
    ensures var key := order[|order| - 1];
      pre + Entries(order, store) ==
        pre + Entries(order[..|order| - 1], store) + [Entry(key, store[key].data, store[key].expiry)]
  {
  }

  lemma SwallowedParses(order: seq<bytes>, store: Store, ctime: int, size: nat, expires: nat, now: nat, tail: bytes)
    requires AllStrings(store) && Short(store) && Enumerates(order, store.Keys) && order != []
    requires |store[order[|order| - 1]].data| < 55 && |tail| == 9
    ensures var key := order[|order| - 1];
      var last := store[key];
      ParseFile(HEADER + EncodeAll(Preamble(ctime, size, expires) + Entries(order[..|order| - 1], store) + [Entry(key, last.data + tail, last.expiry)]), now)
        == Some(Unexpired(store[key := Str(last.data + tail, last.expiry)], now))
  {
    var key := order[|order| - 1];
    var store' := store[key := Str(store[key].data + tail, store[key].expiry)];
    AnotherValue(order, store, store[key].data + tail);
    hide *;
    LastOfEntries(order, store', Preamble(ctime, size, expires));
    CutSavedFileParses(order, store', ctime, size, expires, now, |order|);
    WholeOrder(order, store');
  }

  lemma AnotherValue(order: seq<bytes>, store: Store, data: bytes)
    requires AllStrings(store) && Short(store) && Enumerates(order, store.Keys) && order != [] && |data| < MAX_LENGTH
    ensures var key := order[|order| - 1];
      var store' := store[key := Str(data, store[key].expiry)];
      && AllStrings(store') && Short(store') && Enumerates(order, store'.Keys)
      && (forall i :: 0 <= i < |order| ==> order[i] in store')
      && Entries(order[..|order| - 1], store') == Entries(order[..|order| - 1], store)
  {
    var key := order[|order| - 1];
    assert store[key := Str(data, store[key].expiry)].Keys == store.Keys;
  }

  lemma WholeOrder(order: seq<bytes>, store: Store)
    requires AllStrings(store) && Enumerates(order, store.Keys)
    ensures (forall i :: 0 <= i < |order| ==> order[i] in store)
    ensures Entries(order, store)[..|order|] == Entries(order, store) && Restrict(store, order[..|order|]) == store
  {
    assert order[..|order|] == order;
  }
}
