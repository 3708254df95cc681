/**
 The revocation table and the advisory lock of refresh-token rotation.
 The table is keyed by the token's hash; hashing is taken to be injective, so it
 is keyed by the token here.
 */
module Revocation {
  /** A token is its claims: a refresh token carries no unique id.  Anything else a client may send is garbage. */
  datatype Token = Signed(sub: string, iat: int, exp: int) | Garbage(text: string)

  type Entries = map<Token, int>

  function RevokeEntry(m: Entries, tok: Token, ttl: nat, now: int): Entries {
    m[tok := now + ttl]
  }

  predicate Revoked(m: Entries, tok: Token, now: int) {
    tok in m && m[tok] > now
  }

  function CleanupEntries(m: Entries, now: int): Entries {
    map tok | tok in m && !(m[tok] < now) :: m[tok]
  }

  class RevocationStore {
    var entries: Entries
    var locks: map<int, nat>   // advisory-lock key -> the request whose transaction holds it

    constructor ()
      ensures entries == map[] && locks == map[]
    {
      entries, locks := map[], map[];
    }

    /** `pg_try_advisory_xact_lock`: never waits. */
    method TryLock(key: int, request: nat) returns (acquired: bool)
      modifies this`locks
      ensures acquired <==> key !in old(locks)
      ensures locks == if acquired then old(locks)[key := request] else old(locks)
    {
      acquired := key !in locks;
      if acquired { locks := locks[key := request]; }
    }

    /** The transaction ended, by commit or by rollback. */
    method Unlock(key: int)
      modifies this`locks
      ensures locks == old(locks) - {key}
    {
      locks := locks - {key};
    }

    method Revoke(tok: Token, ttl: nat, now: int)
      modifies this`entries
      ensures tok in entries && entries[tok] == now + ttl
      ensures entries.Keys == old(entries).Keys + {tok} && forall x | x in old(entries) && x != tok :: entries[x] == old(entries)[x]
      ensures forall t :: Revoked(entries, tok, t) <==> t < now + ttl
      ensures forall x, t | x != tok :: Revoked(entries, x, t) <==> Revoked(old(entries), x, t)
      ensures entries == RevokeEntry(old(entries), tok, ttl, now)
    {
      entries := entries[tok := now + ttl];
    }

    method IsRevoked(tok: Token, now: int) returns (r: bool)
      ensures r == Revoked(entries, tok, now)
      ensures r <==> tok in entries && now < entries[tok]
    {
      r := tok in entries && entries[tok] > now;
    }

    /** Deletes the lapsed rows: nobody who reads the clock at `now - 1` or later can tell. */
    method Cleanup(now: int) returns (count: nat)
      modifies this`entries
      ensures forall tok :: tok in entries <==> tok in old(entries) && now <= old(entries)[tok]
      ensures forall tok | tok in entries :: entries[tok] == old(entries)[tok]
      ensures forall tok, t | now - 1 <= t :: Revoked(entries, tok, t) <==> Revoked(old(entries), tok, t)
      ensures count == |set tok | tok in old(entries) && old(entries)[tok] < now|
    {
      var kept := CleanupEntries(entries, now);
      var lapsed := set tok | tok in entries && entries[tok] < now;
      assert lapsed == entries.Keys - kept.Keys;
      count := |lapsed|;
      entries := kept;
    }
  }

  // ----- cleanup cannot be observed -----

  datatype Op = Revoke(tok: Token, ttl: nat, at: int) | Ask(tok: Token, at: int) | Cleanup(at: int)

  function Do(m: Entries, op: Op): Entries {
    match op
    case Revoke(tok, ttl, at) => RevokeEntry(m, tok, ttl, at)
    case Ask(_, _) => m
    case Cleanup(at) => CleanupEntries(m, at)
  }

  /** The answers that the `Ask` operations of a sequence get. */
  function Answers(m: Entries, ops: seq<Op>): seq<bool>
    decreases ops
  {
    if ops == [] then []
    else (if ops[0].Ask? then [Revoked(m, ops[0].tok, ops[0].at)] else []) + Answers(Do(m, ops[0]), ops[1..])
  }

  function WithoutCleanups(ops: seq<Op>): seq<Op> {
    if ops == [] then [] else (if ops[0].Cleanup? then [] else [ops[0]]) + WithoutCleanups(ops[1..])
  }

  /** No question is asked with a clock reading more than a second behind that of an earlier cleanup. */
  ghost predicate KeepsUp(ops: seq<Op>) {
    forall i, j | 0 <= i < j < |ops| && ops[i].Cleanup? && ops[j].Ask? :: ops[i].at - 1 <= ops[j].at
  }

  /** `m` lacks only rows of `m'` that no question still to come would see. */
  ghost predicate LacksOnlyUnseen(m: Entries, m': Entries, ops: seq<Op>) {
    && (forall tok | tok in m :: tok in m' && m[tok] == m'[tok])
    && (forall tok, j | tok in m' && tok !in m && 0 <= j < |ops| && ops[j].Ask? :: m'[tok] <= ops[j].at)
  }

  lemma CleanupLacksOnlyUnseen(m: Entries, m': Entries, ops: seq<Op>)
    requires ops != [] && ops[0].Cleanup? && LacksOnlyUnseen(m, m', ops) && KeepsUp(ops)
    ensures LacksOnlyUnseen(Do(m, ops[0]), m', ops[1..])
  {
    var rest, kept := ops[1..], Do(m, ops[0]);
    forall tok, j | tok in m' && tok !in kept && 0 <= j < |rest| && rest[j].Ask? ensures m'[tok] <= rest[j].at {
      assert rest[j] == ops[j + 1];
    }
  }

  lemma {:induction false} UnseenAnswers(m: Entries, m': Entries, ops: seq<Op>)
    requires LacksOnlyUnseen(m, m', ops) && KeepsUp(ops)
    ensures Answers(m, ops) == Answers(m', WithoutCleanups(ops))
    decreases ops
  {
    if ops != [] {
      var rest := WithoutCleanups(ops[1..]);
      assert KeepsUp(ops[1..]);
      if ops[0].Cleanup? {
        CleanupLacksOnlyUnseen(m, m', ops);
        UnseenAnswers(Do(m, ops[0]), m', ops[1..]);
        assert WithoutCleanups(ops) == rest;
        assert Answers(m, ops) == Answers(Do(m, ops[0]), ops[1..]);
      } else {
        assert LacksOnlyUnseen(Do(m, ops[0]), Do(m', ops[0]), ops[1..]);
        UnseenAnswers(Do(m, ops[0]), Do(m', ops[0]), ops[1..]);
        assert WithoutCleanups(ops) == [ops[0]] + rest;
        assert WithoutCleanups(ops)[1..] == rest;
      }
    }
  }

  /** Deleting every cleanup from a run changes no answer of `is_token_revoked`, in whatever order clocks are read otherwise. */
  lemma CleanupIsInvisible(m: Entries, ops: seq<Op>)
    requires KeepsUp(ops)
    ensures Answers(m, ops) == Answers(m, WithoutCleanups(ops))
  {
    UnseenAnswers(m, m, ops);
  }

  lemma OneAnswer(m: Entries, tok: Token, asked: int)
    ensures Answers(m, [Ask(tok, asked)]) == [Revoked(m, tok, asked)]
  {
    assert [Ask(tok, asked)][1..] == [];
  }

  /** One cleanup and one question: some table shows the cleanup exactly when the question's reading is more than a second behind. */
  lemma CleanupVisibleIffBehind(tok: Token, cleaned: int, asked: int)
    ensures var ops := [Cleanup(cleaned), Ask(tok, asked)];
            (exists m :: Answers(m, ops) != Answers(m, WithoutCleanups(ops))) <==> asked < cleaned - 1
  {
    var ops := [Cleanup(cleaned), Ask(tok, asked)];
    if asked < cleaned - 1 {
      var m := map[tok := cleaned - 1];
      assert ops[1..] == [Ask(tok, asked)] && WithoutCleanups([Ask(tok, asked)]) == [Ask(tok, asked)];
      assert WithoutCleanups(ops) == [Ask(tok, asked)];
      OneAnswer(m, tok, asked);
      OneAnswer(CleanupEntries(m, cleaned), tok, asked);
      assert Answers(m, ops) == Answers(CleanupEntries(m, cleaned), ops[1..]);
      assert [true][0] != [false][0];
    } else {
      forall m ensures Answers(m, ops) == Answers(m, WithoutCleanups(ops)) {
        CleanupIsInvisible(m, ops);
      }
    }
  }
}
