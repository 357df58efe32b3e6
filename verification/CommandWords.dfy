/** The words of the command language, spelled out: which messages are commands, and what each of them is
    taken for. */
module CommandWords {
  import opened Bytes
  import opened RdbFormat
  import opened Commands
  import opened Replication

  // ---- Letter case ----------------------------------------------------------------------------

  predicate IsLowerCase(word: string) {
    forall i :: 0 <= i < |word| ==> word[i] < '{' && !('A' <= word[i] <= 'Z')
  }

  predicate IsUpperCase(word: string) {
    forall i :: 0 <= i < |word| ==> word[i] < '{' && !('a' <= word[i] <= 'z')
  }

  lemma LowerIs(b: bytes, word: string)
    requires IsLowerCase(word)
    ensures Lower(b) == Ascii(word) <==> IsWord(b, word)
  {
    if Lower(b) == Ascii(word) {
      forall i | 0 <= i < |b| ensures IsLetter(b[i], word[i]) {
        assert Lower(b)[i] == Ascii(word)[i];
      }
    }
  }

  lemma UpperIs(b: bytes, word: string)
    requires IsUpperCase(word)
    ensures Upper(b) == Ascii(word) <==> IsWord(b, word)
  {
    if Upper(b) == Ascii(word) {
      forall i | 0 <= i < |b| ensures IsLetter(b[i], word[i]) {
        assert Upper(b)[i] == Ascii(word)[i];
      }
    }
  }

  // ---- Names of commands ----------------------------------------------------------------------

  /** The commands that the server knows. */
  const NAMES: seq<string> := [
    "echo", "ping", "set", "get", "hello", "info", "client", "config", "keys", "type", "xadd", "xrange", "xread",
    "replconf", "psync", "save", "wait", "incr", "multi", "discard", "exec"]

  lemma Spelled()
    ensures ECHO_NAME == Ascii("echo") && PING_NAME == Ascii("ping") && SET_NAME == Ascii("set") && GET_NAME == Ascii("get")
    ensures HELLO_NAME == Ascii("hello") && INFO_NAME == Ascii("info") && CLIENT_NAME == Ascii("client") && CONFIG_NAME == Ascii("config")
    ensures KEYS_NAME == Ascii("keys") && TYPE_NAME == Ascii("type") && XADD_NAME == Ascii("xadd") && XRANGE_NAME == Ascii("xrange")
    ensures XREAD_NAME == Ascii("xread") && REPLCONF_NAME == Ascii("replconf") && PSYNC_NAME == Ascii("psync") && SAVE_NAME == Ascii("save")
    ensures WAIT_NAME == Ascii("wait") && INCR_NAME == Ascii("incr") && MULTI_NAME == Ascii("multi") && DISCARD_NAME == Ascii("discard")
    ensures EXEC_NAME == Ascii("exec") && DEL_NAME == Ascii("del")
  {
    FirstSpelled();
    MoreSpelled();
    LastSpelled();
    hide Ascii;
  }

  lemma FirstSpelled()
    ensures ECHO_NAME == Ascii("echo") && PING_NAME == Ascii("ping") && SET_NAME == Ascii("set") && GET_NAME == Ascii("get")
    ensures HELLO_NAME == Ascii("hello") && INFO_NAME == Ascii("info") && CLIENT_NAME == Ascii("client") && CONFIG_NAME == Ascii("config")
    ensures KEYS_NAME == Ascii("keys") && TYPE_NAME == Ascii("type") && XADD_NAME == Ascii("xadd") && XRANGE_NAME == Ascii("xrange")
  {
  }

  lemma MoreSpelled()
    ensures XREAD_NAME == Ascii("xread") && REPLCONF_NAME == Ascii("replconf") && PSYNC_NAME == Ascii("psync") && SAVE_NAME == Ascii("save")
  {
  }

  lemma LastSpelled()
    ensures WAIT_NAME == Ascii("wait") && INCR_NAME == Ascii("incr") && MULTI_NAME == Ascii("multi") && DISCARD_NAME == Ascii("discard")
    ensures EXEC_NAME == Ascii("exec") && DEL_NAME == Ascii("del")
  {
  }

  lemma NamesInPlace()
    ensures |NAMES| == 21
    ensures NAMES[0] == "echo" && NAMES[1] == "ping" && NAMES[2] == "set" && NAMES[3] == "get" && NAMES[4] == "hello" && NAMES[5] == "info" && NAMES[6] == "client"
    ensures NAMES[7] == "config" && NAMES[8] == "keys" && NAMES[9] == "type" && NAMES[10] == "xadd" && NAMES[11] == "xrange" && NAMES[12] == "xread" && NAMES[13] == "replconf"
    ensures NAMES[14] == "psync" && NAMES[15] == "save" && NAMES[16] == "wait" && NAMES[17] == "incr" && NAMES[18] == "multi" && NAMES[19] == "discard" && NAMES[20] == "exec"
  {
  }

  lemma RegisteredAre(word: bytes)
    ensures word in REGISTERED <==> exists i :: 0 <= i < |NAMES| && word == Ascii(NAMES[i])
  {
    Spelled();
    NamesInPlace();
    hide Ascii;
    if word in REGISTERED {
      assert word == ECHO_NAME ==> word == Ascii(NAMES[0]);
      assert word == PING_NAME ==> word == Ascii(NAMES[1]);
      assert word == SET_NAME ==> word == Ascii(NAMES[2]);
      assert word == GET_NAME ==> word == Ascii(NAMES[3]);
      assert word == HELLO_NAME ==> word == Ascii(NAMES[4]);
      assert word == INFO_NAME ==> word == Ascii(NAMES[5]);
      assert word == CLIENT_NAME ==> word == Ascii(NAMES[6]);
      assert word == CONFIG_NAME ==> word == Ascii(NAMES[7]);
      assert word == KEYS_NAME ==> word == Ascii(NAMES[8]);
      assert word == TYPE_NAME ==> word == Ascii(NAMES[9]);
      assert word == XADD_NAME ==> word == Ascii(NAMES[10]);
      assert word == XRANGE_NAME ==> word == Ascii(NAMES[11]);
      assert word == XREAD_NAME ==> word == Ascii(NAMES[12]);
      assert word == REPLCONF_NAME ==> word == Ascii(NAMES[13]);
      assert word == PSYNC_NAME ==> word == Ascii(NAMES[14]);
      assert word == SAVE_NAME ==> word == Ascii(NAMES[15]);
      assert word == WAIT_NAME ==> word == Ascii(NAMES[16]);
      assert word == INCR_NAME ==> word == Ascii(NAMES[17]);
      assert word == MULTI_NAME ==> word == Ascii(NAMES[18]);
      assert word == DISCARD_NAME ==> word == Ascii(NAMES[19]);
      assert word == EXEC_NAME ==> word == Ascii(NAMES[20]);
    }
  }

  /** A message is a command exactly if its first word is one of the names, in any case of letters. */
  lemma IsCommand(c: Command)
    ensures Name(c) in REGISTERED <==> exists i :: 0 <= i < |NAMES| && IsWord(c[0], NAMES[i])
  {
    RegisteredAre(Name(c));
    forall i | 0 <= i < |NAMES| ensures Name(c) == Ascii(NAMES[i]) <==> IsWord(c[0], NAMES[i]) {
      LowerIs(c[0], NAMES[i]);
    }
    hide Lower, Ascii, IsWord;
  }

  lemma OneName(c: Command, name: bytes, word: string)
    requires IsLowerCase(word) && name == Ascii(word)
    ensures Name(c) == name <==> IsWord(c[0], word)
  {
    LowerIs(c[0], word);
  }

  /** What becomes of a message, from its words: one that is no command is dropped; MULTI opens a transaction, EXEC
      hands out what was queued and DISCARD drops it, each only alone and only where there is none or one; any
      other command is queued in a transaction and executed outside of one. */
  lemma MessageMeaning(tx: Tx, c: Command)
    ensures var known := exists i :: 0 <= i < |NAMES| && IsWord(c[0], NAMES[i]);
      var multi, exec, discard := IsWord(c[0], "multi"), IsWord(c[0], "exec"), IsWord(c[0], "discard");
      && (!known ==> Decide(tx, c) == (tx, []))
      && (multi ==> Decide(tx, c) == (if |c| == 1 && !tx.isOpen then Tx(true, []) else tx, []))
      && (exec ==> Decide(tx, c) == if |c| == 1 && tx.isOpen then (Tx(false, []), tx.queue) else (tx, []))
      && (discard ==> Decide(tx, c) == (if |c| == 1 && tx.isOpen then Tx(false, []) else tx, []))
      && (known && !multi && !exec && !discard ==>
        Decide(tx, c) == if tx.isOpen then (Tx(true, tx.queue + [c]), []) else (tx, [c]))
  {
    Spelled();
    IsCommand(c);
    OneName(c, MULTI_NAME, "multi");
    OneName(c, EXEC_NAME, "exec");
    OneName(c, DISCARD_NAME, "discard");
    TransactionNames();
    hide Lower, Ascii, IsWord;
  }

  lemma TransactionNames()
    ensures MULTI_NAME in REGISTERED && EXEC_NAME in REGISTERED && DISCARD_NAME in REGISTERED
    ensures MULTI_NAME != EXEC_NAME && EXEC_NAME != DISCARD_NAME && MULTI_NAME != DISCARD_NAME
  {
  }

  /** WAIT asks the replicas if it is not queued; the commands that are propagated are SET, INCR and DEL, which
      the server does not know. */
  lemma SpecialCommands(tx: Tx, c: Command)
    ensures Waits(tx, c) <==> IsWord(c[0], "wait") && !tx.isOpen
    ensures Name(c) in WRITEABLE <==> IsWord(c[0], "set") || IsWord(c[0], "incr") || IsWord(c[0], "del")
    ensures IsWord(c[0], "del") ==> Name(c) !in REGISTERED
  {
    Spelled();
    OneName(c, WAIT_NAME, "wait");
    OneName(c, SET_NAME, "set");
    OneName(c, INCR_NAME, "incr");
    OneName(c, DEL_NAME, "del");
    hide Lower, Ascii, IsWord;
  }

  /** Which command does what to the store. */
  lemma ExecutionMeaning(store: Store, c: Command, now: nat)
    ensures IsWord(c[0], "set") ==> Execute(store, c, now) == RunSet(store, c[1..], now)
    ensures IsWord(c[0], "incr") ==> Execute(store, c, now) == RunIncr(store, c[1..], now)
    ensures IsWord(c[0], "get") ==> Execute(store, c, now) == RunGet(store, c[1..], now)
    ensures IsWord(c[0], "xadd") ==> Execute(store, c, now) == RunXAdd(store, c[1..])
    ensures !IsWord(c[0], "set") && !IsWord(c[0], "incr") && !IsWord(c[0], "get") && !IsWord(c[0], "xadd") ==>
      Execute(store, c, now) == (store, Done)
  {
    Spelled();
    OneName(c, SET_NAME, "set");
    OneName(c, INCR_NAME, "incr");
    OneName(c, GET_NAME, "get");
    OneName(c, XADD_NAME, "xadd");
    hide Lower, Ascii, IsWord, RunSet, RunIncr, RunGet, RunXAdd;
  }

  /** What the master sends to replicas besides writes. */
  lemma SentWords()
    ensures GETACK_COMMAND == [Ascii("REPLCONF"), Ascii("GETACK"), Ascii("*")] && PING_COMMAND == [Ascii("PING")]
  {
    assert GETACK_COMMAND[0] == Ascii("REPLCONF");
    assert GETACK_COMMAND[1] == Ascii("GETACK");
    assert GETACK_COMMAND[2] == Ascii("*");
    assert PING_COMMAND[0] == Ascii("PING");
  }
}
