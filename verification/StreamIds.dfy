/** Stream IDs: their validation, and the clock from which new ones are generated. */
module StreamIds {
  import opened Bytes
  import opened Decimal

  const STAR: byte := 42
  const ZERO: byte := 48

  /** `strings.Split(s, "-")`. */
  function SplitDash(s: bytes): (parts: seq<bytes>)
    ensures parts != []
  {
    if s == [] then [[]]
    else
      var parts := SplitDash(s[1..]);
      if s[0] == MINUS then [[]] + parts else [[s[0]] + parts[0]] + parts[1..]
  }

  predicate HasSuffix(s: bytes, suffix: bytes) {
    |suffix| <= |s| && s[|s| - |suffix|..] == suffix
  }

  /** What `strconv.ParseInt` returns beside its error: the nearest 64-bit integer if the number is
      out of range, 0 if it is no number. */
  function ParseIntOrNearest(s: bytes): int {
    match ParseInt(s)
    case Some(i) => i
    case None =>
      var signed := s != [] && (s[0] == MINUS || s[0] == PLUS);
      var digits := if signed then s[1..] else s;
      if digits == [] || !AllDigits(digits) then 0 else if s[0] == MINUS then MIN_INT64 else MAX_INT64
  }

  /** Increment of an `int64`. */
  function Successor(i: int): int {
    if i == MAX_INT64 then MIN_INT64 else i + 1
  }

  predicate Int64(i: int) {
    MIN_INT64 <= i <= MAX_INT64
  }

  function FormatId(timestamp: int, sequence: int): bytes {
    Format(timestamp) + [MINUS] + Format(sequence)
  }

  /** The fields of the tree from which IDs are generated. */
  datatype Clock = Clock(lastId: bytes, timestamp: int, sequence: int)

  const NEW_CLOCK := Clock([], 0, 0)

  predicate IsLargest(c: Clock, id: bytes) {
    c.lastId == [] || Less(c.lastId, id)
  }

  /** An added ID is the last one only if it is above the last one, in byte order. */
  function UpdateLast(c: Clock, id: bytes): Clock {
    if !Less(c.lastId, id) then c
    else
      var parts := SplitDash(id);
      if |parts| == 2 && ParseInt(parts[0]).Some? then Clock(id, ParseInt(parts[0]).value, ParseIntOrNearest(parts[1]))
      else c.(lastId := id)
  }

  /** `ValidateID`: the ID in full, or nothing. */
  function Validate(id: bytes): Option<bytes> {
    if id == [PLUS] || id == [MINUS] then Some(id)
    else
      var parts := SplitDash(id);
      if |parts| > 2 || !NaturalNumber(parts[0]) then None
      else if |parts| == 2 then if NaturalNumber(parts[1]) then Some(id) else None
      else Some(id + [MINUS, ZERO])
  }

  predicate NaturalNumber(s: bytes) {
    ParseInt(s).Some? && ParseInt(s).value >= 0
  }

  // ---- Generation -----------------------------------------------------------------------------

  /** The next pair for a wanted timestamp. */
  function Tick(c: Clock, wanted: int): Clock {
    if wanted <= c.timestamp then c.(sequence := Successor(c.sequence)) else c.(timestamp := wanted, sequence := 0)
  }

  /** What an ID with a star asks for: `*` the time of day, `<ts>-*` at least that timestamp. */
  function Wanted(id: bytes, now: int): Option<int> {
    if id == [STAR] then Some(now)
    else
      var parts := SplitDash(id);
      if |parts| == 2 && parts[1] == [STAR] && NaturalNumber(parts[0]) then ParseInt(parts[0]) else None
  }

  predicate Starred(id: bytes) {
    id == [STAR] || HasSuffix(id, [MINUS, STAR])
  }

  /** The ID under which an entry is added, and the clock at that moment. */
  function Resolve(c: Clock, id: bytes, now: int): (Clock, Option<bytes>) {
    if Starred(id) then
      match Wanted(id, now)
      case None => (c, None)
      case Some(w) => var c' := Tick(c, w); (c', Some(FormatId(c'.timestamp, c'.sequence)))
    else
      match Validate(id)
      case None => (c, None)
      case Some(full) => (c, if IsLargest(c, full) then Some(full) else None)
  }

  /** The whole effect of an `AddEntry` on the clock. */
  function AddId(c: Clock, id: bytes, now: int): (Clock, Option<bytes>) {
    match Resolve(c, id, now)
    case (c', None) => (c', None)
    case (c', Some(full)) => (UpdateLast(c', full), Some(full))
  }

  datatype Request = Request(id: bytes, now: int)

  /** The replies to a run of additions: the IDs, or errors. */
  function AddIds(c: Clock, rs: seq<Request>): (Clock, seq<Option<bytes>>)
    decreases |rs|
  {
    if rs == [] then (c, [])
    else
      var (c1, id) := AddId(c, rs[0].id, rs[0].now);
      var (c2, ids) := AddIds(c1, rs[1..]);
      (c2, [id] + ids)
  }

  /** The pairs of the IDs generated in the run. */
  function Pairs(c: Clock, rs: seq<Request>): seq<(int, int)>
    decreases |rs|
  {
    if rs == [] then []
    else
      var (c1, id) := AddId(c, rs[0].id, rs[0].now);
      (if id.Some? then [(c1.timestamp, c1.sequence)] else []) + Pairs(c1, rs[1..])
  }

  /** The order of (timestamp, sequence) pairs. */
  predicate Before(a: (int, int), b: (int, int)) {
    a.0 < b.0 || (a.0 == b.0 && a.1 < b.1)
  }

  predicate Running(c: Clock) {
    0 <= c.timestamp <= MAX_INT64 && 0 <= c.sequence <= MAX_INT64
  }

  // ---- The printed form -----------------------------------------------------------------------

  predicate NoDash(s: bytes) {
    forall i :: 0 <= i < |s| ==> s[i] != MINUS
  }

  lemma {:induction false} SplitOfOne(a: bytes)
    requires NoDash(a)
    ensures SplitDash(a) == [a]
  {
    if a != [] {
      SplitOfOne(a[1..]);
      assert [a[0]] + a[1..] == a;
    }
  }

  lemma {:induction false} SplitOfTwo(a: bytes, b: bytes)
    requires NoDash(a) && NoDash(b)
    ensures SplitDash(a + [MINUS] + b) == [a, b]
  {
    var s := a + [MINUS] + b;
    if a == [] {
      SplitOfOne(b);
      assert s[1..] == b;
    } else {
      SplitOfTwo(a[1..], b);
      assert s[1..] == a[1..] + [MINUS] + b;
      assert [a[0]] + a[1..] == a && [a[1..], b][1..] == [b];
    }
  }

  /** The parts with dashes between them. */
  function JoinDash(parts: seq<bytes>): bytes
    requires parts != []
  {
    if |parts| == 1 then parts[0] else parts[0] + [MINUS] + JoinDash(parts[1..])
  }

  /** Splitting gives the parts between the dashes, and loses nothing. */
  lemma {:induction false} SplitJoin(s: bytes)
    ensures JoinDash(SplitDash(s)) == s && forall i :: 0 <= i < |SplitDash(s)| ==> NoDash(SplitDash(s)[i])
  {
    if s != [] {
      SplitJoin(s[1..]);
      var parts := SplitDash(s[1..]);
      if s[0] == MINUS {
        assert ([[]] + parts)[1..] == parts;
        assert [] + [MINUS] + s[1..] == s;
      } else {
        var first := [s[0]] + parts[0];
        assert ([first] + parts[1..])[1..] == parts[1..];
        if |parts| > 1 {
          assert first + [MINUS] + JoinDash(parts[1..]) == [s[0]] + (parts[0] + [MINUS] + JoinDash(parts[1..]));
        }
        assert s == [s[0]] + s[1..];
      }
    }
  }

  /** A valid ID in full: two numbers with a dash between them. */
  predicate FullId(id: bytes) {
    var parts := SplitDash(id);
    |parts| == 2 && NaturalNumber(parts[0]) && NaturalNumber(parts[1])
  }

  /** Validation accepts full IDs as they are and completes a lone timestamp with sequence 0; apart from
      the bounds "-" and "+", whatever it returns is a full ID. */
  lemma ValidateMeaning(id: bytes)
    requires id != [PLUS] && id != [MINUS]
    ensures FullId(id) ==> Validate(id) == Some(id)
    ensures NoDash(id) && NaturalNumber(id) ==> Validate(id) == Some(id + [MINUS, ZERO])
    ensures Validate(id).Some? ==> FullId(Validate(id).value)
  {
    SplitJoin(id);
    hide ParseInt;
    var parts := SplitDash(id);
    if NoDash(id) {
      SplitOfOne(id);
    }
    if |parts| == 1 && NaturalNumber(id) {
      SplitOfTwo(id, [ZERO]);
      assert id + [MINUS] + [ZERO] == id + [MINUS, ZERO];
      ZeroIsNatural();
    }
  }

  /** An exclusive bound, with its parenthesis, is no valid ID. */
  lemma ExclusiveIsInvalid(id: bytes)
    ensures Validate([40] + id) == None
  {
    var s := [40] + id;
    assert s[1..] == id;
    assert SplitDash(s)[0][0] == 40;
  }

  lemma ZeroIsNatural()
    ensures NaturalNumber([ZERO]) && NoDash([ZERO])
  {
    assert [ZERO][..0] == [];
    assert Value([ZERO]) == 0;
  }

  /** A generated ID is read back as the pair it was printed from. */
  lemma UpdateAfterTick(c: Clock, timestamp: nat, sequence: nat)
    requires timestamp <= MAX_INT64 && sequence <= MAX_INT64
    ensures var c' := UpdateLast(Clock(c.lastId, timestamp, sequence), FormatId(timestamp, sequence));
      c'.timestamp == timestamp && c'.sequence == sequence
  {
    SplitOfTwo(Digits(timestamp), Digits(sequence));
    ParseFormat(timestamp);
    ParseFormat(sequence);
    hide Less;
  }

  // ---- When IDs move forward ------------------------------------------------------------------

  /** One generation moves the pair strictly forward, exactly unless the sequence overflows. */
  lemma TickAdvances(c: Clock, wanted: int)
    requires Int64(c.timestamp) && Int64(c.sequence)
    ensures var c' := Tick(c, wanted);
      Before(PairAt(c), PairAt(c')) <==> !(wanted <= c.timestamp && c.sequence == MAX_INT64)
  {
  }

  function PairAt(c: Clock): (int, int) {
    (c.timestamp, c.sequence)
  }

  /** The pair that a full ID spells. */
  function PairOf(id: bytes): (int, int) {
    var parts := SplitDash(id);
    if |parts| == 2 then (ParseIntOrNearest(parts[0]), ParseIntOrNearest(parts[1])) else (0, 0)
  }

  /** The condition under which an addition does no harm to the order of pairs: an ID with a star must not
      overflow the sequence; an explicit one, if it is accepted at all, must be above the clock as a pair of
      numbers, and not one of the bounds. */
  predicate Advances(c: Clock, r: Request) {
    if Starred(r.id) then
      var w := Wanted(r.id, r.now); w.None? || w.value > c.timestamp || c.sequence < MAX_INT64
    else
      match Validate(r.id)
      case None => true
      case Some(full) => IsLargest(c, full) ==> full != [PLUS] && full != [MINUS] && Before(PairAt(c), PairOf(full))
  }

  /** An accepted explicit ID leaves the clock at exactly its own pair. */
  lemma ExplicitSetsClock(c: Clock, id: bytes, now: int)
    requires !Starred(id) && id != [PLUS] && id != [MINUS]
    requires Validate(id).Some? && IsLargest(c, Validate(id).value)
    ensures var full := Validate(id).value;
      AddId(c, id, now) == (Clock(full, PairOf(full).0, PairOf(full).1), Some(full))
    ensures 0 <= PairOf(Validate(id).value).0 <= MAX_INT64 && 0 <= PairOf(Validate(id).value).1 <= MAX_INT64
  {
    ValidateMeaning(id);
    var full := Validate(id).value;
    assert full != [] by {
      assert SplitDash([]) == [[]];
    }
    hide Starred, Validate, AllDigits, Digits, Value;
  }

  /** The bounds "-" and "+", accepted in an empty stream, leave the pair as it is. */
  lemma BoundsKeepPair(c: Clock, id: bytes, now: int)
    requires id == [PLUS] || id == [MINUS]
    ensures PairAt(AddId(c, id, now).0) == PairAt(c) && !Starred(id)
  {
    assert SplitDash([]) == [[]] && [PLUS][1..] == [] && [MINUS][1..] == [];
  }

  /** An addition fails or moves the pair strictly forward if and only if it meets the condition; then the
      ID it returns spells the new pair. */
  lemma AdditionAdvances(c: Clock, r: Request)
    requires Running(c) && Int64(r.now)
    ensures var (c', id) := AddId(c, r.id, r.now);
      && (id.None? || Before(PairAt(c), PairAt(c')) <==> Advances(c, r))
      && (id.None? ==> c' == c)
      && (Advances(c, r) ==> Running(c'))
      && (Advances(c, r) && id.Some? ==> PairOf(id.value) == PairAt(c'))
  {
    if Starred(r.id) {
      StarredAdvances(c, r.id, r.now);
    } else if r.id == [PLUS] || r.id == [MINUS] {
      BoundsKeepPair(c, r.id, r.now);
    } else if Validate(r.id).Some? && IsLargest(c, Validate(r.id).value) {
      ExplicitSetsClock(c, r.id, r.now);
      hide Validate, Starred, UpdateLast, PairOf, Less;
    }
  }

  lemma StarredAdvances(c: Clock, id: bytes, now: int)
    requires Starred(id) && Running(c) && Int64(now)
    ensures var (c', full) := AddId(c, id, now);
      && (full.None? || Before(PairAt(c), PairAt(c')) <==> Advances(c, Request(id, now)))
      && (full.None? ==> c' == c)
      && (Advances(c, Request(id, now)) ==> Running(c'))
      && (Advances(c, Request(id, now)) && full.Some? ==> PairOf(full.value) == PairAt(c'))
  {
    var w := Wanted(id, now);
    if w.Some? {
      assert w.value <= MAX_INT64;
      var t := Tick(c, w.value);
      TickAdvances(c, w.value);
      if Advances(c, Request(id, now)) {
        UpdateAfterTick(c, t.timestamp, t.sequence);
        PairOfFormat(t.timestamp, t.sequence);
      } else {
        OverflowGoesBack(c, t.timestamp);
      }
      hide SplitDash, ParseInt, ParseIntOrNearest, FormatId, PairOf, Starred, Wanted, Validate, Less;
      assert t == Clock(c.lastId, t.timestamp, t.sequence);
    }
  }

  lemma {:induction false} SplitFirst(a: bytes, rest: bytes)
    requires NoDash(a)
    ensures SplitDash(a + [MINUS] + rest) == [a] + SplitDash(rest)
  {
    var s := a + [MINUS] + rest;
    if a == [] {
      assert s[1..] == rest;
    } else {
      SplitFirst(a[1..], rest);
      assert s[1..] == a[1..] + [MINUS] + rest;
      assert [a[0]] + a[1..] == a && ([a[1..]] + SplitDash(rest))[1..] == SplitDash(rest);
    }
  }

  /** After an overflow the pair has gone back to the smallest sequence, and the ID, which has two dashes,
      does not mend it. */
  lemma OverflowGoesBack(c: Clock, timestamp: nat)
    ensures PairAt(UpdateLast(Clock(c.lastId, timestamp, MIN_INT64), FormatId(timestamp, MIN_INT64))) == (timestamp, MIN_INT64)
  {
    var id, n := FormatId(timestamp, MIN_INT64), Digits(-MIN_INT64);
    SplitFirst(Digits(timestamp), [MINUS] + n);
    SplitFirst([], n);
    assert [] + [MINUS] + n == [MINUS] + n;
    SplitOfOne(n);
    hide Digits, Less;
    assert |SplitDash(id)| == 3;
  }

  lemma PairOfFormat(timestamp: nat, sequence: nat)
    requires timestamp <= MAX_INT64 && sequence <= MAX_INT64
    ensures PairOf(FormatId(timestamp, sequence)) == (timestamp, sequence)
  {
    SplitOfTwo(Digits(timestamp), Digits(sequence));
    ParseFormat(timestamp);
    ParseFormat(sequence);
  }

  // ---- Runs of additions, explicit and generated ----------------------------------------------

  /** Every addition of the run meets the condition at its turn. */
  predicate AllAdvance(c: Clock, rs: seq<Request>)
    decreases |rs|
  {
    rs == [] || (Advances(c, rs[0]) && AllAdvance(AddId(c, rs[0].id, rs[0].now).0, rs[1..]))
  }

  /** The pairs come one after the other, all after p. */
  predicate Increase(p: (int, int), ps: seq<(int, int)>) {
    (forall i :: 0 <= i < |ps| ==> Before(p, ps[i])) && forall i, j :: 0 <= i < j < |ps| ==> Before(ps[i], ps[j])
  }

  lemma IncreaseCons(p: (int, int), q: (int, int), ps: seq<(int, int)>)
    ensures Increase(p, [q] + ps) <==> Before(p, q) && Increase(q, ps)
  {
    var all := [q] + ps;
    if Increase(p, all) {
      assert all[0] == q && forall i :: 0 <= i < |ps| ==> ps[i] == all[i + 1];
      forall i | 0 <= i < |ps| ensures Before(q, ps[i]) {
        assert Before(all[0], all[i + 1]);
      }
      forall i, j | 0 <= i < j < |ps| ensures Before(ps[i], ps[j]) {
        assert Before(all[i + 1], all[j + 1]);
      }
    }
  }

  predicate Clocked(rs: seq<Request>) {
    forall i :: 0 <= i < |rs| ==> Int64(rs[i].now)
  }

  /** Over any run of additions, explicit and generated in any mixture, whatever the time of day does: the
      accepted pairs strictly increase, from the pair the run starts with, if and only if every addition
      meets the condition at its turn. */
  lemma {:induction false} PairsIncreaseIff(c: Clock, rs: seq<Request>)
    requires Running(c) && Clocked(rs)
    ensures Increase(PairAt(c), Pairs(c, rs)) <==> AllAdvance(c, rs)
    decreases |rs|
  {
    if rs != [] {
      AdditionAdvances(c, rs[0]);
      var (c1, id) := AddId(c, rs[0].id, rs[0].now);
      var ps := Pairs(c1, rs[1..]);
      hide AddId, Advances, Running, Before, Increase, Int64;
      if Advances(c, rs[0]) {
        PairsIncreaseIff(c1, rs[1..]);
      }
      if id.Some? {
        IncreaseCons(PairAt(c), PairAt(c1), ps);
      } else {
        assert [] + ps == ps;
      }
    }
  }

  /** The IDs among the replies. */
  function Accepted(ids: seq<Option<bytes>>): seq<bytes> {
    if ids == [] then [] else (if ids[0].Some? then [ids[0].value] else []) + Accepted(ids[1..])
  }

  function PairsOf(ids: seq<bytes>): (ps: seq<(int, int)>)
    ensures |ps| == |ids| && forall i :: 0 <= i < |ids| ==> ps[i] == PairOf(ids[i])
  {
    seq(|ids|, i requires 0 <= i < |ids| => PairOf(ids[i]))
  }

  /** In such a run the returned IDs spell the accepted pairs. */
  lemma {:induction false} IdsSpellPairs(c: Clock, rs: seq<Request>)
    requires Running(c) && Clocked(rs) && AllAdvance(c, rs)
    ensures PairsOf(Accepted(AddIds(c, rs).1)) == Pairs(c, rs)
    decreases |rs|
  {
    if rs != [] {
      AdditionAdvances(c, rs[0]);
      var (c1, id) := AddId(c, rs[0].id, rs[0].now);
      hide AddId, Advances, Running, PairOf, Int64, Accepted, PairsOf, PairAt;
      IdsSpellPairs(c1, rs[1..]);
      SpellOneMore(id, AddIds(c1, rs[1..]).1);
    }
  }

  lemma SpellOneMore(id: Option<bytes>, ids: seq<Option<bytes>>)
    ensures PairsOf(Accepted([id] + ids)) == (if id.Some? then [PairOf(id.value)] else []) + PairsOf(Accepted(ids))
  {
    AcceptedCons(id, ids);
    hide Accepted, PairsOf, PairOf;
    if id.Some? {
      PairsOfCons(id.value, Accepted(ids));
    } else {
      assert [] + Accepted(ids) == Accepted(ids);
      assert [] + PairsOf(Accepted(ids)) == PairsOf(Accepted(ids));
    }
  }

  lemma AcceptedCons(id: Option<bytes>, ids: seq<Option<bytes>>)
    ensures Accepted([id] + ids) == (if id.Some? then [id.value] else []) + Accepted(ids)
  {
    assert ([id] + ids)[1..] == ids;
  }

  lemma PairsOfCons(id: bytes, ids: seq<bytes>)
    ensures PairsOf([id] + ids) == [PairOf(id)] + PairsOf(ids)
  {
    hide PairOf;
  }

  /** And so no returned ID repeats, generated or given. */
  lemma IdsDistinct(c: Clock, rs: seq<Request>)
    requires Running(c) && Clocked(rs) && AllAdvance(c, rs)
    ensures var ids := Accepted(AddIds(c, rs).1); forall i, j :: 0 <= i < j < |ids| ==> ids[i] != ids[j]
  {
    hide AddIds, Pairs, Accepted, AllAdvance, Clocked, PairOf;
    PairsIncreaseIff(c, rs);
    IdsSpellPairs(c, rs);
    var ids, ps := Accepted(AddIds(c, rs).1), Pairs(c, rs);
    forall i, j | 0 <= i < j < |ids| ensures ids[i] != ids[j] {
      assert Before(ps[i], ps[j]) && ps[i] == PairOf(ids[i]) && ps[j] == PairOf(ids[j]);
    }
  }

  /** A run of generated IDs meets the condition whenever it is shorter than what is left of the
      sequence. */
  lemma {:induction false} ShortRunsAdvance(c: Clock, rs: seq<Request>)
    requires Running(c) && Clocked(rs) && c.sequence + |rs| <= MAX_INT64
    requires forall i :: 0 <= i < |rs| ==> Starred(rs[i].id)
    ensures AllAdvance(c, rs)
    decreases |rs|
  {
    if rs != [] {
      AdditionAdvances(c, rs[0]);
      var c1 := AddId(c, rs[0].id, rs[0].now).0;
      StarredSequence(c, rs[0].id, rs[0].now);
      hide AddId, Starred, Running;
      ShortRunsAdvance(c1, rs[1..]);
    }
  }

  lemma StarredSequence(c: Clock, id: bytes, now: int)
    requires Starred(id) && Int64(now) && Running(c) && c.sequence < MAX_INT64
    ensures AddId(c, id, now).0.sequence <= c.sequence + 1
  {
    var w := Wanted(id, now);
    if w.Some? {
      var t := Tick(c, w.value);
      UpdateAfterTick(c, t.timestamp, t.sequence);
      assert t == Clock(c.lastId, t.timestamp, t.sequence);
    }
  }

  // "10-0", "9-0" and "10-*".
  const TEN: bytes := [49, 48, MINUS, ZERO]
  const NINE: bytes := [57, MINUS, ZERO]
  const TEN_STAR: bytes := [49, 48, MINUS, STAR]

  /** Without the condition an ID can repeat: "9-0" is above "10-0" in byte order, so it is accepted and
      sets the clock back, and then "10-*" gives "10-0" once more. */
  lemma ExplicitIdRepeats()
    ensures AddIds(NEW_CLOCK, [Request(TEN, 0), Request(NINE, 0), Request(TEN_STAR, 0)]).1 == [Some(TEN), Some(NINE), Some(TEN)]
    ensures !AllAdvance(NEW_CLOCK, [Request(TEN, 0), Request(NINE, 0), Request(TEN_STAR, 0)])
  {
    var c1, c2 := Clock(TEN, 10, 0), Clock(NINE, 9, 0);
    var r1, r2, r3 := Request(TEN, 0), Request(NINE, 0), Request(TEN_STAR, 0);
    ReadTen();
    ReadNine();
    ReadTenStar();
    assert [r1, r2, r3][1..] == [r2, r3] && [r2, r3][1..] == [r3] && [r3][1..] == [];
    hide AddId, Advances;
    var c3 := AddId(c2, TEN_STAR, 0).0;
    assert AddIds(c3, []).1 == [];
    assert AddIds(c2, [r3]).1 == [Some(TEN)] + [];
    assert AddIds(c1, [r2, r3]).1 == [Some(NINE)] + [Some(TEN)];
    assert AddIds(NEW_CLOCK, [r1, r2, r3]).1 == [Some(TEN)] + [Some(NINE), Some(TEN)];
  }

  lemma ReadTen()
    ensures AddId(NEW_CLOCK, TEN, 0) == (Clock(TEN, 10, 0), Some(TEN))
  {
    SplitOfTwo([49, 48], [ZERO]);
    assert [49, 48] + [MINUS] + [ZERO] == TEN;
    assert [49, 48][..1] == [49] && Value([49]) == 1;
    assert Value([49, 48]) == 10;
    assert Value([ZERO]) == 0;
  }

  lemma ReadNine()
    ensures AddId(Clock(TEN, 10, 0), NINE, 0) == (Clock(NINE, 9, 0), Some(NINE))
    ensures !Advances(Clock(TEN, 10, 0), Request(NINE, 0))
  {
    SplitOfTwo([57], [ZERO]);
    assert [57] + [MINUS] + [ZERO] == NINE;
    assert Value([57]) == 9;
    assert Value([ZERO]) == 0;
  }

  lemma ReadTenStar()
    ensures AddId(Clock(NINE, 9, 0), TEN_STAR, 0).1 == Some(TEN)
  {
    AsksForTen();
    TenDashZero();
    hide UpdateLast, Starred, Wanted, FormatId;
  }

  lemma AsksForTen()
    ensures Starred(TEN_STAR) && Wanted(TEN_STAR, 0) == Some(10)
  {
    SplitOfTwo([49, 48], [STAR]);
    assert [49, 48] + [MINUS] + [STAR] == TEN_STAR;
    assert [49, 48][..1] == [49] && Value([49]) == 1;
    assert Value([49, 48]) == 10;
  }

  lemma TenDashZero()
    ensures FormatId(10, 0) == TEN
  {
    assert Digits(10) == Digits(1) + [48] && Digits(1) == [49] && Digits(0) == [ZERO];
  }

  // ---- What an ID with a star is answered with ------------------------------------------------

  lemma {:induction false} SplitAppend(a: bytes, b: bytes)
    ensures SplitDash(a + [MINUS] + b) == SplitDash(a) + SplitDash(b)
    decreases |a|
  {
    var s := a + [MINUS] + b;
    if a == [] {
      assert s[1..] == b;
      assert SplitDash([]) == [[]];
    } else {
      assert s[1..] == a[1..] + [MINUS] + b;
      SplitAppend(a[1..], b);
    }
  }

  lemma StarWords()
    ensures Ascii("*") == [STAR] && Ascii("-*") == [MINUS, STAR] && Ascii("-") == [MINUS] && Ascii("-0") == [MINUS, ZERO]
  {
  }

  /** A timestamp: a number with no dash. */
  predicate IsTimestamp(p: bytes) {
    NoDash(p) && ParseInt(p).Some? && ParseInt(p).value >= 0
  }

  lemma {:induction false} DashIn(p: bytes)
    ensures NoDash(p) <==> |SplitDash(p)| == 1
    ensures NoDash(p) ==> SplitDash(p) == [p]
  {
    if p != [] {
      DashIn(p[1..]);
      assert p == [p[0]] + p[1..];
    }
  }

  lemma WantedOf(p: bytes, now: int)
    ensures Starred(p + [MINUS, STAR]) && p + [MINUS, STAR] != [STAR]
    ensures Wanted(p + [MINUS, STAR], now) == if IsTimestamp(p) then ParseInt(p) else None
  {
    SplitAppend(p, [STAR]);
    assert p + [MINUS] + [STAR] == p + [MINUS, STAR];
    SplitOfOne([STAR]);
    DashIn(p);
    hide SplitDash, ParseInt;
  }

  /** The ID that follows the clock's pair at the timestamp w: the first of a later timestamp, else the next of the
      same one. */
  ghost predicate Follows(c: Clock, w: int, reply: Option<bytes>) {
    && (w > c.timestamp ==> reply == Some(Format(w) + Ascii("-0")))
    && (w <= c.timestamp && c.sequence < MAX_INT64 ==> reply == Some(Format(c.timestamp) + Ascii("-") + Format(c.sequence + 1)))
    && (w <= c.timestamp && c.sequence == MAX_INT64 ==> reply == Some(Format(c.timestamp) + Ascii("-") + Format(MIN_INT64)))
  }

  /** What an addition is answered with: "*" asks for the time of day, "<timestamp>-*" for that timestamp, and any
      other ID with such an end is refused; an ID without a star must be valid and, unless nothing has been added
      yet, above the last one in byte order. */
  ghost predicate Answers(c: Clock, id: bytes, now: int, reply: Option<bytes>) {
    && (id == Ascii("*") ==> Follows(c, now, reply))
    && (forall p :: id == p + Ascii("-*") && IsTimestamp(p) ==> Follows(c, ParseInt(p).value, reply))
    && (forall p :: id == p + Ascii("-*") && !IsTimestamp(p) ==> reply == None)
    && (id != Ascii("*") && (forall p :: id != p + Ascii("-*")) ==>
      reply == if Validate(id).Some? && (c.lastId == [] || Less(c.lastId, Validate(id).value)) then Validate(id) else None)
  }

  /** In particular for a timestamp as it is printed. */
  lemma PrintedTimestamp(c: Clock, n: nat, now: int, reply: Option<bytes>)
    requires n <= MAX_INT64 && Answers(c, Digits(n) + Ascii("-*"), now, reply)
    ensures Follows(c, n, reply)
  {
    ParseFormat(n);
    DigitsNoDash(n);
    hide Follows, ParseInt;
    assert IsTimestamp(Digits(n));
  }

  lemma DigitsNoDash(n: nat)
    ensures NoDash(Digits(n))
  {
  }

  lemma TickFollows(c: Clock, w: int)
    ensures var t := Tick(c, w); Follows(c, w, Some(FormatId(t.timestamp, t.sequence)))
  {
    StarWords();
    assert Format(0) == [ZERO] && [MINUS] + [ZERO] == [MINUS, ZERO];
    assert w > c.timestamp ==> Format(w) + [MINUS] + Format(0) == Format(w) + [MINUS, ZERO];
    hide Format, Ascii;
  }

  lemma AddIdAnswers(c: Clock, id: bytes, now: int)
    ensures Answers(c, id, now, AddId(c, id, now).1)
  {
    StarWords();
    if id == [STAR] {
      TickFollows(c, now);
      hide Follows, Ascii, UpdateLast, FormatId;
    } else if HasSuffix(id, [MINUS, STAR]) {
      StarredAnswers(c, id, now);
    } else {
      NoStar(id);
      hide Follows, Ascii, UpdateLast, Validate, Less;
    }
  }

  lemma NoStar(id: bytes)
    requires !HasSuffix(id, [MINUS, STAR])
    ensures forall p: bytes :: id != p + [MINUS, STAR]
  {
    forall p: bytes ensures id != p + [MINUS, STAR] {
      assert (p + [MINUS, STAR])[|p|..] == [MINUS, STAR];
    }
  }

  lemma StarredAnswers(c: Clock, id: bytes, now: int)
    requires HasSuffix(id, [MINUS, STAR]) && id != [STAR]
    ensures Answers(c, id, now, AddId(c, id, now).1)
  {
    var q := id[..|id| - 2];
    StarWords();
    WantedOf(q, now);
    assert id == q + [MINUS, STAR];
    assert forall p: bytes :: id == p + [MINUS, STAR] ==> p == id[..|p|] && |p| == |id| - 2;
    if IsTimestamp(q) {
      TickFollows(c, ParseInt(q).value);
    }
    hide Follows, Ascii, UpdateLast, FormatId, IsTimestamp, Wanted, Validate, Less;
  }
}
