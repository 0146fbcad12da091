/** One flat Redis store shared by all sessions: key prefixes make it a product of
    independent stores. */
module Namespace {
  import opened Wrappers

  /** A key's value and how often it was changed, which is what WATCH compares. */
  datatype Cell = Cell(value: Option<string>, version: nat)
  type Store = map<string, Cell>

  datatype Reply = Nil | Text(text: string) | Version(version: nat)

  /** What a single-key command does to its key: leave it, write it, or delete it. */
  datatype Change = Leave | Write(value: string) | Delete
  type Effect = Cell -> (Change, Reply)

  /** An atomic command: one call, a Lua script, or MULTI/EXEC with its watched keys
      compared first. Each move may depend on the replies so far; `limit` bounds the calls. */
  datatype Move = Return(reply: Reply) | Call(key: string, effect: Effect)
  datatype Script = Script(limit: nat, move: seq<Reply> -> Move)

  function Look(db: Store, key: string): Cell
  {
    if key in db then db[key] else Cell(None, 0)
  }

  function Put(db: Store, key: string, change: Change): Store
  {
    match change
    case Leave => db
    case Write(value) => db[key := Cell(Some(value), Look(db, key).version + 1)]
    case Delete =>
      if Look(db, key).value.None? then db else db[key := Cell(None, Look(db, key).version + 1)]
  }

  function ExecFrom(db: Store, script: Script, replies: seq<Reply>): (Store, Reply)
    decreases script.limit - |replies|
  {
    if |replies| >= script.limit then (db, Nil)
    else
      match script.move(replies)
      case Return(reply) => (db, reply)
      case Call(key, effect) =>
        var (change, reply) := effect(Look(db, key));
        ExecFrom(Put(db, key, change), script, replies + [reply])
  }

  function Exec(db: Store, script: Script): (Store, Reply)
  {
    ExecFrom(db, script, [])
  }

  // ---- What commands do ----------------------------------------------------------------

  /** One call changes its own key only: a write sets the value, a delete clears a present
      one, and both count as one more change. */
  ghost predicate Changed(db: Store, db': Store, key: string, change: Change)
  {
    var before := if key in db then db[key] else Cell(None, 0);
    && (forall k: string | k != key :: (k in db' <==> k in db) && (k in db ==> db'[k] == db[k]))
    && (change == Leave || (change == Delete && before.value.None?) ==> db' == db)
    && (change.Write? ==> key in db' && db'[key] == Cell(Some(change.value), before.version + 1))
    && (change == Delete && before.value.Some? ==> key in db' && db'[key] == Cell(None, before.version + 1))
  }

  lemma PutChanges(db: Store, key: string, change: Change)
    ensures Changed(db, Put(db, key, change), key, change)
  {
  }

  /** The call after `replies` looks at its key's cell, changes it and answers. */
  ghost predicate Calls(db: Store, db': Store, script: Script, replies: seq<Reply>, reply: Reply)
  {
    && script.move(replies).Call?
    && var Call(key, effect) := script.move(replies);
       var (change, answer) := effect(if key in db then db[key] else Cell(None, 0));
       reply == answer && Changed(db, db', key, change)
  }

  ghost predicate Traced(dbs: seq<Store>, script: Script, replies: seq<Reply>, from: nat)
  {
    && from <= |replies| && |dbs| == |replies| - from + 1
    && forall k | from <= k < |replies| :: Calls(dbs[k - from], dbs[k - from + 1], script, replies[..k], replies[k])
  }

  lemma {:induction false} ExecTracesFrom(db: Store, script: Script, sofar: seq<Reply>) returns (dbs: seq<Store>, replies: seq<Reply>)
    requires |sofar| <= script.limit
    ensures sofar <= replies && |replies| <= script.limit && Traced(dbs, script, replies, |sofar|)
    ensures dbs[0] == db && dbs[|dbs| - 1] == ExecFrom(db, script, sofar).0
    ensures var answer := ExecFrom(db, script, sofar).1;
            if |replies| == script.limit then answer == Nil else script.move(replies) == Return(answer)
    decreases script.limit - |sofar|
  {
    dbs, replies := [db], sofar;
    if |sofar| < script.limit {
      match script.move(sofar)
      case Return(_) =>
      case Call(key, effect) =>
        var (change, reply) := effect(Look(db, key));
        var db' := Put(db, key, change);
        PutChanges(db, key, change);
        var later, all := ExecTracesFrom(db', script, sofar + [reply]);
        dbs, replies := [db] + later, all;
        assert all[|sofar|] == (sofar + [reply])[|sofar|] && all[..|sofar|] == (sofar + [reply])[..|sofar|] == sofar;
        forall k | |sofar| <= k < |all|
          ensures Calls(dbs[k - |sofar|], dbs[k - |sofar| + 1], script, all[..k], all[k])
        {
          if k > |sofar| {
            var n := |sofar| + 1;
            assert Calls(later[k - n], later[k - n + 1], script, all[..k], all[k]);
          }
        }
    }
  }

  /** An atomic command is a sequence of calls, each on the store the one before left, each
      choosing its key from the replies so far, until it returns or its limit is reached. */
  lemma ExecTraces(db: Store, script: Script) returns (dbs: seq<Store>, replies: seq<Reply>)
    ensures |replies| <= script.limit && Traced(dbs, script, replies, 0)
    ensures dbs[0] == db && dbs[|dbs| - 1] == Exec(db, script).0
    ensures if |replies| == script.limit then Exec(db, script).1 == Nil else script.move(replies) == Return(Exec(db, script).1)
  {
    dbs, replies := ExecTracesFrom(db, script, []);
  }

  // ---- Scoping -----------------------------------------------------------------------

  predicate IsFsKey(key: string) { "fs:" <= key }

  /** A canonical UUID, as `str(uuid.UUID(s)) == s` demands. */
  predicate IsUuid(s: string)
  {
    && |s| == 36
    && forall i | 0 <= i < 36 ::
         if i in {8, 13, 18, 23} then s[i] == '-' else ('0' <= s[i] <= '9' || 'a' <= s[i] <= 'f')
  }

  function Prefix(sid: string): string { "session:" + sid + ":" }

  /** `ScopedRedis.key`. */
  function ScopedKey(prefix: string, key: string): string
  {
    if IsFsKey(key) then prefix + key else key
  }

  /** Which keys are scoped, and how: exactly those that begin with the three characters
      "fs:", by the session's prefix in front. */
  lemma ScopedKeys(sid: string, rest: string, key: string)
    ensures ScopedKey(Prefix(sid), "fs:" + rest) == "session:" + sid + ":fs:" + rest
    ensures !(|key| >= 3 && key[0] == 'f' && key[1] == 's' && key[2] == ':') ==> ScopedKey(Prefix(sid), key) == key
  {
    assert Prefix(sid) + ("fs:" + rest) == "session:" + sid + ":fs:" + rest;
    assert "fs:" <= "fs:" + rest;
    if "fs:" <= key {
      assert key[..3] == "fs:";
      assert key[0] == "fs:"[0] && key[1] == "fs:"[1] && key[2] == "fs:"[2];
    }
  }

  /** Every key a command, script or transaction names is scoped at the Redis boundary. */
  function Scoped(prefix: string, script: Script): Script
  {
    Script(script.limit, replies => ScopedMove(prefix, script.move(replies)))
  }

  function ScopedMove(prefix: string, move: Move): Move
  {
    match move
    case Return(_) => move
    case Call(key, effect) => Call(ScopedKey(prefix, key), effect)
  }

  ghost predicate FsOnly(script: Script)
  {
    forall replies: seq<Reply> | script.move(replies).Call? :: "fs:" <= script.move(replies).key
  }

  /** Session `sid`'s part of the flat store is `local`. */
  ghost predicate Agrees(db: Store, sid: string, local: Store)
  {
    forall key: string | "fs:" <= key :: Look(db, Prefix(sid) + key) == Look(local, key)
  }

  /** Different sessions never share a key, and prefixing loses nothing. */
  lemma PrefixIsInjective(a: string, b: string, k: string, l: string)
    requires |a| == |b|
    ensures Prefix(a) + k == Prefix(b) + l <==> a == b && k == l
  {
    var n := |Prefix(a)|;
    if Prefix(a) + k == Prefix(b) + l {
      assert Prefix(a) == (Prefix(a) + k)[..n] == (Prefix(b) + l)[..n] == Prefix(b);
      assert k == (Prefix(a) + k)[n..] == (Prefix(b) + l)[n..] == l;
      assert a == Prefix(a)[8..n - 1] == Prefix(b)[8..n - 1] == b;
    }
  }

  lemma OwnPut(db: Store, sid: string, local: Store, key: string, change: Change)
    requires Agrees(db, sid, local) && "fs:" <= key
    ensures Agrees(Put(db, Prefix(sid) + key, change), sid, Put(local, key, change))
  {
    forall k: string | "fs:" <= k
      ensures Look(Put(db, Prefix(sid) + key, change), Prefix(sid) + k) == Look(Put(local, key, change), k)
    {
      PrefixIsInjective(sid, sid, key, k);
      assert Look(db, Prefix(sid) + k) == Look(local, k);
    }
  }

  /** A write outside a session's filesystem keys does not show in it. */
  lemma ForeignPut(db: Store, sid: string, local: Store, key: string, change: Change)
    requires Agrees(db, sid, local)
    requires forall k: string | "fs:" <= k :: key != Prefix(sid) + k
    ensures Agrees(Put(db, key, change), sid, local)
  {
    forall k: string | "fs:" <= k ensures Look(Put(db, key, change), Prefix(sid) + k) == Look(local, k) {
      assert key != Prefix(sid) + k;
    }
  }

  /** A scoped command does on the flat store what the plain one does on the session's own,
      and answers the same. */
  lemma {:induction false} ScopedRunsLocally(db: Store, sid: string, local: Store, script: Script, replies: seq<Reply>)
    requires Agrees(db, sid, local) && FsOnly(script)
    ensures var (db', reply) := ExecFrom(db, Scoped(Prefix(sid), script), replies);
            var (local', answer) := ExecFrom(local, script, replies);
            reply == answer && Agrees(db', sid, local')
    decreases script.limit - |replies|
  {
    if |replies| < script.limit {
      match script.move(replies)
      case Return(_) =>
      case Call(key, effect) =>
        assert "fs:" <= script.move(replies).key;
        assert Look(db, Prefix(sid) + key) == Look(local, key);
        var (change, reply) := effect(Look(local, key));
        OwnPut(db, sid, local, key, change);
        ScopedRunsLocally(Put(db, Prefix(sid) + key, change), sid, Put(local, key, change), script, replies + [reply]);
    }
  }

  /** It leaves every other session as it was. */
  lemma {:induction false} ScopedLeavesOthers(
    db: Store, sid: string, other: string, local: Store, script: Script, replies: seq<Reply>)
    requires IsUuid(sid) && IsUuid(other) && sid != other
    requires Agrees(db, other, local) && FsOnly(script)
    ensures Agrees(ExecFrom(db, Scoped(Prefix(sid), script), replies).0, other, local)
    decreases script.limit - |replies|
  {
    if |replies| < script.limit {
      match script.move(replies)
      case Return(_) =>
      case Call(key, effect) =>
        assert "fs:" <= script.move(replies).key;
        forall k: string | "fs:" <= k ensures Prefix(sid) + key != Prefix(other) + k {
          PrefixIsInjective(sid, other, key, k);
        }
        var (change, reply) := effect(Look(db, Prefix(sid) + key));
        ForeignPut(db, other, local, Prefix(sid) + key, change);
        ScopedLeavesOthers(Put(db, Prefix(sid) + key, change), sid, other, local, script, replies + [reply]);
    }
  }

  // ---- Any interleaving of sessions ----------------------------------------------------

  /** What a session sends next, given every reply it has had. */
  type Clients = (string, seq<Reply>) -> Script

  datatype Flat = Flat(db: Store, replies: map<string, seq<Reply>>)
  datatype Own = Own(db: Store, replies: seq<Reply>)

  /** `Unlink` is one deletion of a namespace cleanup; `Control` a control-plane command. */
  datatype Action =
    | Command(sid: string)
    | Unlink(sid: string, key: string)
    | Control(key: string, effect: Effect)

  function RepliesOf(st: Flat, sid: string): seq<Reply>
  {
    if sid in st.replies then st.replies[sid] else []
  }

  function Apply(clients: Clients, st: Flat, a: Action): Flat
  {
    match a
    case Command(sid) =>
      var (db, reply) := Exec(st.db, Scoped(Prefix(sid), clients(sid, RepliesOf(st, sid))));
      Flat(db, st.replies[sid := RepliesOf(st, sid) + [reply]])
    case Unlink(_, key) => st.(db := Put(st.db, key, Delete))
    case Control(key, effect) => st.(db := Put(st.db, key, effect(Look(st.db, key)).0))
  }

  /** A session's command runs scoped and its answer joins that session's replies; a
      cleanup's deletion and a control-plane command change one key. */
  lemma ActionMeans(clients: Clients, st: Flat, a: Action)
    ensures var st' := Apply(clients, st, a);
            match a
            case Command(sid) =>
              var sofar := if sid in st.replies then st.replies[sid] else [];
              var (db, reply) := Exec(st.db, Scoped("session:" + sid + ":", clients(sid, sofar)));
              st'.db == db && st'.replies == st.replies[sid := sofar + [reply]]
            case Unlink(_, key) => st'.replies == st.replies && Changed(st.db, st'.db, key, Delete)
            case Control(key, effect) =>
              && st'.replies == st.replies
              && Changed(st.db, st'.db, key, effect(if key in st.db then st.db[key] else Cell(None, 0)).0)
  {
    if a.Control? || a.Unlink? {
      PutChanges(st.db, a.key, if a.Unlink? then Delete else a.effect(Look(st.db, a.key)).0);
    }
  }

  function RunAll(clients: Clients, st: Flat, schedule: seq<Action>): Flat
    decreases |schedule|
  {
    if schedule == [] then st
    else Apply(clients, RunAll(clients, st, schedule[..|schedule| - 1]), schedule[|schedule| - 1])
  }

  /** The session alone on a store of its own, with only its own steps. */
  function ApplyAlone(clients: Clients, sid: string, own: Own, a: Action): Own
  {
    match a
    case Command(s) =>
      if s != sid then own
      else
        var (db, reply) := Exec(own.db, clients(sid, own.replies));
        Own(db, own.replies + [reply])
    case Unlink(s, key) =>
      if s == sid && Prefix(sid) + "fs:" <= key then own.(db := Put(own.db, key[|Prefix(sid)|..], Delete)) else own
    case Control(_, _) => own
  }

  function RunAlone(clients: Clients, sid: string, own: Own, schedule: seq<Action>): Own
    decreases |schedule|
  {
    if schedule == [] then own
    else ApplyAlone(clients, sid, RunAlone(clients, sid, own, schedule[..|schedule| - 1]), schedule[|schedule| - 1])
  }

  /** Sessions are UUIDs whose commands name filesystem keys; a cleanup touches keys that
      match its pattern; control keys lie outside every session's filesystem. */
  ghost predicate Proper(clients: Clients, a: Action)
  {
    match a
    case Command(sid) => IsUuid(sid) && forall replies: seq<Reply> :: FsOnly(clients(sid, replies))
    case Unlink(sid, key) => IsUuid(sid) && Prefix(sid) <= key
    case Control(key, _) => forall sid: string | IsUuid(sid) :: !(Prefix(sid) + "fs:" <= key)
  }

  ghost predicate SeenBy(st: Flat, sid: string, own: Own)
  {
    Agrees(st.db, sid, own.db) && RepliesOf(st, sid) == own.replies
  }

  lemma UnlinkIsLocal(clients: Clients, st: Flat, sid: string, own: Own, s: string, key: string)
    requires IsUuid(sid) && SeenBy(st, sid, own) && Proper(clients, Unlink(s, key))
    ensures SeenBy(Apply(clients, st, Unlink(s, key)), sid, ApplyAlone(clients, sid, own, Unlink(s, key)))
  {
    hide IsUuid;
    assert |s| == |sid| by { SameLength(s, sid); }
    var n := |Prefix(sid)|;
    var rest := key[|Prefix(s)|..];
    assert key == Prefix(s) + rest;
    if s == sid && Prefix(sid) + "fs:" <= key {
      assert "fs:" == (Prefix(sid) + "fs:")[n..] <= rest;
      OwnPut(st.db, sid, own.db, rest, Delete);
    } else {
      forall k: string | "fs:" <= k ensures key != Prefix(sid) + k {
        PrefixIsInjective(s, sid, rest, k);
        assert Prefix(sid) + "fs:" <= Prefix(sid) + k;
      }
      ForeignPut(st.db, sid, own.db, key, Delete);
    }
  }

  lemma SameLength(a: string, b: string)
    requires IsUuid(a) && IsUuid(b)
    ensures |a| == |b|
  {
  }

  lemma ControlIsInvisible(clients: Clients, st: Flat, sid: string, own: Own, key: string, effect: Effect)
    requires IsUuid(sid) && SeenBy(st, sid, own) && Proper(clients, Control(key, effect))
    ensures SeenBy(Apply(clients, st, Control(key, effect)), sid, own)
  {
    hide IsUuid;
    forall k: string | "fs:" <= k ensures key != Prefix(sid) + k {
      assert Prefix(sid) + "fs:" <= Prefix(sid) + k;
    }
    ForeignPut(st.db, sid, own.db, key, effect(Look(st.db, key)).0);
  }

  lemma CommandIsLocal(clients: Clients, st: Flat, sid: string, own: Own, s: string)
    requires IsUuid(sid) && SeenBy(st, sid, own) && Proper(clients, Command(s))
    ensures SeenBy(Apply(clients, st, Command(s)), sid, ApplyAlone(clients, sid, own, Command(s)))
  {
    hide IsUuid, ExecFrom, Scoped, FsOnly, Agrees;
    if s == sid {
      assert FsOnly(clients(sid, own.replies));
      ScopedRunsLocally(st.db, sid, own.db, clients(sid, own.replies), []);
    } else {
      assert FsOnly(clients(s, RepliesOf(st, s)));
      ScopedLeavesOthers(st.db, s, sid, own.db, clients(s, RepliesOf(st, s)), []);
    }
  }

  /** Non-interference: under every schedule of all sessions' commands, cleanups and
      control-plane writes, a session sees the store and the replies it would have seen
      alone. */
  lemma {:induction false} NonInterference(clients: Clients, st: Flat, sid: string, own: Own, schedule: seq<Action>)
    requires IsUuid(sid) && SeenBy(st, sid, own)
    requires forall t | 0 <= t < |schedule| :: Proper(clients, schedule[t])
    ensures SeenBy(RunAll(clients, st, schedule), sid, RunAlone(clients, sid, own, schedule))
    decreases |schedule|
  {
    hide IsUuid, SeenBy, Apply, ApplyAlone, Proper;
    if schedule != [] {
      var front := schedule[..|schedule| - 1];
      forall t | 0 <= t < |front| ensures Proper(clients, front[t]) { assert front[t] == schedule[t]; }
      NonInterference(clients, st, sid, own, front);
      var before, alone := RunAll(clients, st, front), RunAlone(clients, sid, own, front);
      var a := schedule[|schedule| - 1];
      assert Proper(clients, a);
      match a
      case Command(s) => CommandIsLocal(clients, before, sid, alone, s);
      case Unlink(s, key) => UnlinkIsLocal(clients, before, sid, alone, s, key);
      case Control(key, effect) =>
        ControlIsInvisible(clients, before, sid, alone, key, effect);
        assert ApplyAlone(clients, sid, alone, a) == alone by { ControlAlone(clients, sid, alone, key, effect); }
    }
  }

  lemma ControlAlone(clients: Clients, sid: string, own: Own, key: string, effect: Effect)
    ensures ApplyAlone(clients, sid, own, Control(key, effect)) == own
  {
  }

  // ---- Namespace cleanup ------------------------------------------------------------------

  class FlatRedis {
    var keys: map<string, string>

    /** Every key of the pattern is gone, every other key is as it was; an id that is not
        a canonical UUID is refused before anything is touched. */
    method DeleteNamespace(sid: string) returns (ok: bool)
      modifies this
      ensures ok == IsUuid(sid)
      ensures !ok ==> keys == old(keys)
      ensures ok ==> keys == map key | key in old(keys)
                                      && !("session:" + sid + ":" <= key) && key != "chronos:machine_state:" + sid :: old(keys)[key]
    {
      if !IsUuid(sid) { return false; }
      var found := set key | key in keys && Prefix(sid) <= key;
      while found != {}
        invariant forall key <- found :: key in keys && Prefix(sid) <= key
        invariant forall key <- keys :: key in old(keys) && keys[key] == old(keys)[key]
        invariant forall key <- old(keys) :: key in keys || Prefix(sid) <= key
        invariant forall key <- keys | Prefix(sid) <= key :: key in found
        decreases |found|
      {
        var key :| key in found;
        keys := keys - {key};
        found := found - {key};
      }
      keys := keys - {"chronos:machine_state:" + sid};
      return true;
    }
  }

  predicate HexDigits(s: string) { forall i | 0 <= i < |s| :: s[i] in "0123456789abcdef" }

  /** A canonical id is five groups of lower-case hexadecimal digits, 8-4-4-4-12, joined by
      hyphens. */
  lemma UuidGroups(s: string)
    ensures IsUuid(s) <==>
            && |s| == 36
            && HexDigits(s[..8]) && s[8] == '-' && HexDigits(s[9..13]) && s[13] == '-' && HexDigits(s[14..18])
            && s[18] == '-' && HexDigits(s[19..23]) && s[23] == '-' && HexDigits(s[24..])
  {
    HexRange();
    if |s| == 36 {
      assert forall i | 0 <= i < 8 :: s[i] == s[..8][i];
      assert forall i | 9 <= i < 13 :: s[i] == s[9..13][i - 9];
      assert forall i | 14 <= i < 18 :: s[i] == s[14..18][i - 14];
      assert forall i | 19 <= i < 23 :: s[i] == s[19..23][i - 19];
      assert forall i | 24 <= i < 36 :: s[i] == s[24..][i - 24];
    }
  }

  lemma HexRange()
    ensures forall c: char :: c in "0123456789abcdef" <==> '0' <= c <= '9' || 'a' <= c <= 'f'
  {
    var digits := "0123456789abcdef";
    forall c: char | '0' <= c <= '9' || 'a' <= c <= 'f' ensures c in digits {
      var k := if c <= '9' then c as int - '0' as int else c as int - 'a' as int + 10;
      assert digits[k] == c;
    }
  }

  /** A cleanup's pattern never matches another session's keys. */
  lemma CleanupSparesOthers(sid: string, other: string, key: string)
    requires IsUuid(sid) && IsUuid(other)
    ensures var theirs := "session:" + other + ":" + key;
            ("session:" + sid + ":" <= theirs || theirs == "chronos:machine_state:" + sid) <==> sid == other
  {
    hide IsUuid;
    assert |sid| == |other| by { SameLength(sid, other); }
    var full := Prefix(other) + key;
    if Prefix(sid) <= full {
      PrefixIsInjective(sid, other, full[|Prefix(sid)|..], key);
    }
    assert full[0] == 's' && ("chronos:machine_state:" + sid)[0] == 'c';
  }
}
