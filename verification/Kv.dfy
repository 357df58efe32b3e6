/** The key-value store as an object, and the commands that work on it. */
module Kv {
  import opened Bytes
  import opened Decimal
  import opened RdbFormat
  import opened Commands

  class Kv {
    var store: Store

    constructor ()
      ensures store == map[]
    {
      store := map[];
    }

    /** Reading deletes a key whose time is over. */
    method Get(key: bytes, now: nat) returns (data: Option<bytes>)
      modifies this
      ensures (store, data) == Commands.Get(old(store), key, now)
    {
      if key in store && Expired(store[key].expiry, now) {
        store := store - {key};
        return None;
      }
      if key !in store || !store[key].Str? {
        return None;
      }
      data := Some(store[key].data);
    }

    method Set(key: bytes, data: bytes)
      modifies this
      ensures store == Put(old(store), key, data) == old(store)[key := Str(data, 0)]
    {
      store := store[key := Str(data, 0)];
    }

    method DeleteTTL(key: bytes)
      modifies this
      ensures store.Keys == old(store.Keys)
      ensures forall k :: k in store ==> store[k] == if k == key then old(store)[k].(expiry := 0) else old(store)[k]
    {
      if key in store {
        store := store[key := store[key].(expiry := 0)];
      }
    }

    /** The key, if it is there, is to live for so many nanoseconds more. */
    method Expire(key: bytes, duration: nat, now: nat)
      modifies this
      ensures store.Keys == old(store.Keys)
      ensures forall k :: k in store ==>
        store[k] == if k == key then old(store)[k].(expiry := (now + duration / NANOS_PER_MILLI) % 0x1_0000_0000_0000_0000) else old(store)[k]
    {
      ExpireAt(key, now + duration / NANOS_PER_MILLI);
    }

    /** The milliseconds are cast to an unsigned number. */
    method ExpireAt(key: bytes, millis: int)
      modifies this
      ensures store.Keys == old(store.Keys)
      ensures forall k :: k in store ==>
        store[k] == if k == key then old(store)[k].(expiry := millis % 0x1_0000_0000_0000_0000) else old(store)[k]
    {
      if key in store {
        store := store[key := store[key].(expiry := millis % 0x1_0000_0000_0000_0000)];
      }
    }

    /** Whether the key holds a stream, created if it is wanted and the key is free. */
    method GetStream(key: bytes, createIfNotExists: bool) returns (found: Reply)
      modifies this
      ensures store == if key !in old(store) && createIfNotExists then old(store)[key := Other(0)] else old(store)
      ensures found == if key in old(store) && old(store)[key].Str? then Refused else if key in store then Done else Nil
    {
      if key !in store {
        if !createIfNotExists {
          return Nil;
        }
        store := store[key := Other(0)];
        return Done;
      }
      found := if store[key].Str? then Refused else Done;
    }

    method RestoreRDB(data: Store)
      modifies this
      ensures store == data
    {
      store := data;
    }

    /** A copy, made key by key. */
    method Export() returns (data: Store)
      ensures data == store
    {
      data := map[];
      var remaining := store.Keys;
      while remaining != {}
        invariant remaining <= store.Keys && data.Keys == store.Keys - remaining
        invariant forall k :: k in data ==> data[k] == store[k]
        decreases |remaining|
      {
        var k :| k in remaining;
        data := data[k := store[k]];
        remaining := remaining - {k};
      }
    }

    // ---- Commands -----------------------------------------------------------------------------

    method ExecuteSet(args: seq<bytes>, now: nat) returns (reply: Reply)
      modifies this
      ensures (store, reply) == RunSet(old(store), args, now)
    {
      hide ParseOptions, Deadline;
      if |args| < 2 {
        return Refused;
      }
      var opts := ParseSetOptions(args[2..]);
      if opts.None? {
        return Aborted;
      }
      var o := opts.value;
      if o.nx && o.xx {
        return Refused;
      }
      if o.keepTtl && (o.ex > 0 || o.px > 0 || o.exAt != ZERO_TIME || o.pxAt != 1000 * ZERO_TIME) {
        return Refused;
      }
      var was := None;
      if o.get || o.nx || o.xx {
        was := Get(args[0], now);
      }
      if o.nx {
        if o.get && was.Some? {
          return Data(was.value);
        }
        if was.Some? {
          return Nil;
        }
      }
      if o.xx && was.None? {
        return Nil;
      }
      ghost var seen := store;
      Set(args[0], args[1]);
      ghost var after := store;
      if !o.keepTtl {
        DeleteTTL(args[0]);
      }
      assert store == after;
      SetDeadline(args[0], o, now);
      assert store == seen[args[0] := Str(args[1], Deadline(o, now))];
      reply := if !o.get then Done else if was.Some? then Data(was.value) else Nil;
    }

    /** The expiry that the options of SET ask for. */
    method SetDeadline(key: bytes, o: SetOptions, now: nat)
      requires key in store && store[key].expiry == 0
      modifies this
      ensures store == old(store)[key := old(store)[key].(expiry := Deadline(o, now))]
    {
      if o.ex > 0 {
        Expire(key, o.ex, now);
      } else if o.px > 0 {
        Expire(key, o.px, now);
      } else if o.exAt != ZERO_TIME {
        ExpireAt(key, o.exAt * 1000);
      } else if o.pxAt != 1000 * ZERO_TIME {
        ExpireAt(key, o.pxAt);
      }
    }

    method ExecuteIncr(args: seq<bytes>, now: nat) returns (reply: Reply)
      modifies this
      ensures (store, reply) == RunIncr(old(store), args, now)
    {
      if |args| != 1 {
        return Refused;
      }
      var data := Get(args[0], now);
      var current := 0;
      if data.Some? {
        var parsed := ParseInt(data.value);
        if parsed.None? {
          return Refused;
        }
        current := parsed.value;
      }
      if current == MAX_INT64 {
        return Refused;
      }
      Set(args[0], Format(current + 1));
      reply := Number(current + 1);
    }

    method ExecuteGet(args: seq<bytes>, now: nat) returns (reply: Reply)
      modifies this
      ensures (store, reply) == RunGet(old(store), args, now)
    {
      if |args| != 1 {
        return Aborted;
      }
      var data := Get(args[0], now);
      reply := if data.None? then Nil else Data(data.value);
    }

    method ExecuteXAdd(args: seq<bytes>) returns (reply: Reply)
      modifies this
      ensures (store, reply) == RunXAdd(old(store), args)
    {
      hide ParseXAdd;
      if |args| <= 3 {
        return Refused;
      }
      var opts := ParseXAdd(args[1..], XAddOptions(false, 0, [], [], []));
      if opts.None? {
        return Refused;
      }
      reply := GetStream(args[0], !opts.value.noMkStream);
    }

    method Execute(c: Command, now: nat) returns (reply: Reply)
      modifies this
      ensures (store, reply) == Commands.Execute(old(store), c, now)
    {
      hide RunSet, RunIncr, RunGet, RunXAdd;
      var name := Name(c);
      if name == SET_NAME {
        reply := ExecuteSet(c[1..], now);
      } else if name == INCR_NAME {
        reply := ExecuteIncr(c[1..], now);
      } else if name == GET_NAME {
        reply := ExecuteGet(c[1..], now);
      } else if name == XADD_NAME {
        reply := ExecuteXAdd(c[1..]);
      } else {
        reply := Done;
      }
    }
  }

  /** The loop over the option words of SET. */
  method ParseSetOptions(args: seq<bytes>) returns (r: Option<SetOptions>)
    ensures r == ParseOptions(args, NO_OPTIONS)
  {
    hide ParseInt, Timed;
    var o, i := NO_OPTIONS, 0;
    while i < |args|
      invariant i <= |args| && ParseOptions(args[i..], o) == ParseOptions(args, NO_OPTIONS)
    {
      var word := Upper(args[i]);
      assert args[i..][1..] == args[i + 1..];
      if word == NX {
        o := o.(nx := true);
      } else if word == XX {
        o := o.(xx := true);
      } else if word == GET {
        o := o.(get := true);
      } else if word == KEEPTTL {
        o := o.(keepTtl := true);
      } else if word == EX || word == PX || word == EXAT || word == PXAT {
        if i + 1 >= |args| {
          return None;
        }
        assert args[i..][2..] == args[i + 2..];
        i := i + 1;
        var amount := ParseInt(args[i]);
        if amount.None? {
          return None;
        }
        o := Timed(word, amount.value, o);
      } else {
        return None;
      }
      i := i + 1;
    }
    r := Some(o);
  }

  /** Deleting on reading is not seen by later readers: at any later time the same strings are found. */
  lemma LazyDeletionUnseen(store: Store, key: bytes, now: nat, other: bytes, later: nat)
    requires now <= later
    ensures Commands.Get(Commands.Get(store, key, now).0, other, later).1 == Commands.Get(store, other, later).1
  {
  }
}
