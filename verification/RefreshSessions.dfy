/** Rotation does not multiply sessions, and the leeway hole is real. */
module RefreshSessions {
  import opened Wrappers
  import opened Revocation
  import opened RefreshMachine
  import opened RefreshSafety

  /** The user's refresh tokens that a client was given and the server would still accept: not expired, not revoked. */
  ghost function LiveTokens(s: State, user: string): set<Token> {
    set tok | tok in s.delivered && tok.Signed? && tok.sub == user && s.now < tok.exp && !Revoked(s.entries, tok, s.now)
  }

  ghost function SignInCount(signIns: seq<Token>, user: string): nat {
    if signIns == [] then 0
    else SignInCount(signIns[..|signIns| - 1], user)
         + if signIns[|signIns| - 1].Signed? && signIns[|signIns| - 1].sub == user then 1 else 0
  }

  /** Exchanges of the user's tokens whose check ran at or after `exp`, inside the leeway. */
  ghost function LateCount(log: seq<Exchange>, user: string): nat {
    if log == [] then 0
    else LateCount(log[..|log| - 1], user)
         + if log[|log| - 1].tok.Signed? && log[|log| - 1].tok.sub == user && !Early(log[|log| - 1]) then 1 else 0
  }

  ghost predicate Spent(s: State, tok: Token) {
    exists i :: 0 <= i < |s.log| && s.log[i].tok == tok
  }

  /** Delivered tokens of the user that no exchange has used up: the potential that bounds the live ones. */
  ghost function Unspent(s: State, user: string): set<Token> {
    set tok | tok in s.delivered && tok.Signed? && tok.sub == user && !Spent(s, tok)
  }

  lemma SpentStays(s: State, s': State, tok: Token)
    requires s.log <= s'.log && Spent(s, tok)
    ensures Spent(s', tok)
  {
    var i :| 0 <= i < |s.log| && s.log[i].tok == tok;
    assert s'.log[i].tok == tok;
  }

  lemma Fits<T>(a: set<T>, b: set<T>)
    requires a <= b
    ensures |a| <= |b|
  {
    assert b == a + (b - a);
  }

  /** A request that holds the lock on a used-up token passed its check at or after `exp`. */
  lemma SpentMeansLate(c: Config, s: State, r: Request)
    requires Inv(c, s) && HoldsLock(c, s, r) && PastCheck(s.reqs[r]) && Spent(s, s.reqs[r].tok)
    ensures s.reqs[r].tok.Signed? && s.reqs[r].checkedAt >= s.reqs[r].tok.exp
  {
    var p := s.reqs[r];
    assert SanePhase(c, s, p);
    assert AgedOut(c, s, p.tok, p.checkedAt);
    var k :| 0 <= k < |s.writes| && s.writes[k].tok == p.tok && p.checkedAt >= s.writes[k].at + c.ttl;
    assert SaneReading(s, p.tok, s.writes[k].at);
  }

  /** An early exchange uses up one unspent token for the one it delivers. */
  lemma DeliverStep(c: Config, s: State, r: Request, s': State, user: string)
    requires Steps(c, s, Deliver(r), s') && Inv(c, s)
    ensures |Unspent(s', user)| + LateCount(s.log, user) <= |Unspent(s, user)| + LateCount(s'.log, user)
  {
    var p := s.reqs[r];
    var x := Exchange(p.tok, p.verifiedAt, p.checkedAt, p.next);
    assert SanePhase(c, s, p);
    assert s'.log[..|s'.log| - 1] == s.log;
    assert s'.log[|s.log|] == x && Spent(s', p.tok);
    var before, after := Unspent(s, user), Unspent(s', user);
    forall tok | tok in after
      ensures tok in before || (tok == p.next && p.tok.sub == user)
    {
      if Spent(s, tok) { SpentStays(s, s', tok); }
    }
    if p.tok.sub != user {
      Fits(after, before);
    } else if !Early(x) {
      Fits(after, before + {p.next});
    } else {
      if Spent(s, p.tok) { SpentMeansLate(c, s, r); }
      assert p.tok in before;
      Fits(after, (before - {p.tok}) + {p.next});
    }
  }

  lemma SignInStep(c: Config, s: State, e: Event, s': State, user: string)
    requires Steps(c, s, e, s') && e.SignIn?
    ensures |Unspent(s', user)| + SignInCount(s.signIns, user) <= |Unspent(s, user)| + SignInCount(s'.signIns, user)
  {
    assert s'.signIns[..|s'.signIns| - 1] == s.signIns;
    var tok := Signed(e.sub, e.iat, e.iat + c.ttl);
    assert forall t :: Spent(s', t) == Spent(s, t);
    Fits(Unspent(s', user), if e.sub == user then Unspent(s, user) + {tok} else Unspent(s, user));
  }

  lemma OtherStep(c: Config, s: State, e: Event, s': State, user: string)
    requires Steps(c, s, e, s') && !e.Deliver? && !e.SignIn?
    ensures s'.log == s.log && s'.signIns == s.signIns && s'.delivered == s.delivered
    ensures Unspent(s', user) == Unspent(s, user)
  {
    assert s'.log == s.log && s'.delivered == s.delivered;
    assert forall t :: Spent(s', t) == Spent(s, t);
  }

  lemma {:induction false} UnspentBounded(c: Config, tr: seq<State>, evs: seq<Event>, n: nat, user: string)
    requires Run(c, tr, evs) && n <= |evs|
    ensures |Unspent(tr[n], user)| <= SignInCount(tr[n].signIns, user) + LateCount(tr[n].log, user)
  {
    if n == 0 {
      assert Unspent(tr[0], user) == {};
    } else {
      UnspentBounded(c, tr, evs, n - 1, user);
      AlwaysInv(c, tr, evs, n - 1);
      assert Steps(c, tr[n - 1], evs[n - 1], tr[n]);
      if evs[n - 1].Deliver? {
        DeliverStep(c, tr[n - 1], evs[n - 1].r, tr[n], user);
      } else if evs[n - 1].SignIn? {
        SignInStep(c, tr[n - 1], evs[n - 1], tr[n], user);
      } else {
        OtherStep(c, tr[n - 1], evs[n - 1], tr[n], user);
      }
    }
  }

  /** A used-up token is revoked until it expires. */
  lemma SpentIsDead(c: Config, s: State, tok: Token)
    requires Inv(c, s) && tok in s.delivered && Spent(s, tok)
    ensures tok.Signed? && (s.now >= tok.exp || Revoked(s.entries, tok, s.now))
  {
    assert Written(s, tok);
    WrittenIsDead(c, s, tok);
  }

  /** A user's live refresh tokens never outnumber that user's sign-ins, but for exchanges made after `exp`. */
  lemma SessionsDoNotMultiply(c: Config, tr: seq<State>, evs: seq<Event>, n: nat, user: string)
    requires Run(c, tr, evs) && n <= |evs|
    ensures |LiveTokens(tr[n], user)| <= SignInCount(tr[n].signIns, user) + LateCount(tr[n].log, user)
  {
    UnspentBounded(c, tr, evs, n, user);
    AlwaysInv(c, tr, evs, n);
    forall tok | tok in LiveTokens(tr[n], user)
      ensures tok in Unspent(tr[n], user)
    {
      if Spent(tr[n], tok) { SpentIsDead(c, tr[n], tok); }
    }
    Fits(LiveTokens(tr[n], user), Unspent(tr[n], user));
  }

  // ----- the leeway hole -----

  /** The first half of a refresh: the lock is taken and the token verified. */
  lemma VerifiedRefresh(c: Config, tr: seq<State>, evs: seq<Event>, r: Request, tok: Token) returns (tr': seq<State>, evs': seq<Event>)
    requires Run(c, tr, evs) && r !in tr[|evs|].reqs && tr[|evs|].locks == map[]
    requires tok in tr[|evs|].delivered && tok.Signed? && tr[|evs|].now <= tok.exp + 30
    ensures Run(c, tr', evs')
    ensures var s := tr[|evs|];
            tr'[|evs'|] == s.(locks := map[c.lockKey(tok) := r], reqs := s.reqs[r := Verified(tok, s.now)])
  {
    tr', evs' := Extend(c, tr, evs, Acquire(r, tok));
    tr', evs' := Extend(c, tr', evs', Verify(r));
  }

  /** The check of the revocation table passes and the new token is made. */
  lemma IssuedRefresh(c: Config, tr: seq<State>, evs: seq<Event>, r: Request, tok: Token, verifiedAt: int)
    returns (tr': seq<State>, evs': seq<Event>)
    requires Run(c, tr, evs) && tok.Signed? && tr[|evs|].reqs == map[r := Verified(tok, verifiedAt)]
    requires !Revoked(tr[|evs|].entries, tok, tr[|evs|].now)
    ensures Run(c, tr', evs')
    ensures var s := tr[|evs|];
            tr'[|evs'|] == s.(reqs := map[r := Issued(tok, verifiedAt, s.now, Signed(tok.sub, s.now, s.now + c.ttl))])
  {
    tr', evs' := Extend(c, tr, evs, ReadClock(r));
    tr', evs' := Extend(c, tr', evs', Check(r));
    tr', evs' := Extend(c, tr', evs', Issue(r));
  }

  /** The second half, at any later time: from the check of the revocation table to the response. */
  lemma RestOfRefresh(c: Config, tr: seq<State>, evs: seq<Event>, r: Request, tok: Token, verifiedAt: int)
    returns (tr': seq<State>, evs': seq<Event>)
    requires Run(c, tr, evs) && tok.Signed?
    requires tr[|evs|].reqs == map[r := Verified(tok, verifiedAt)] && tr[|evs|].locks == map[c.lockKey(tok) := r]
    requires !Revoked(tr[|evs|].entries, tok, tr[|evs|].now)
    ensures Run(c, tr', evs')
    ensures tr'[|evs'|] == AfterRefresh(c, tr[|evs|], tok, verifiedAt)
  {
    var s := tr[|evs|];
    var next := Signed(tok.sub, s.now, s.now + c.ttl);
    tr', evs' := IssuedRefresh(c, tr, evs, r, tok, verifiedAt);
    tr', evs' := Extend(c, tr', evs', ReadRevokeClock(r));
    tr', evs' := Extend(c, tr', evs', Write(r));
    assert tr'[|evs'|].reqs == map[r := Done(tok, verifiedAt, s.now, next)];
    tr', evs' := Extend(c, tr', evs', Deliver(r));
    assert tr'[|evs'|].reqs == map[] && tr'[|evs'|].locks == map[];
  }

  /** The state after a refresh that nothing else ran beside. */
  function AfterRefresh(c: Config, s: State, tok: Token, verifiedAt: int): State
    requires tok.Signed?
  {
    var next := Signed(tok.sub, s.now, s.now + c.ttl);
    s.(locks := map[], reqs := map[], entries := s.entries[tok := s.now + c.ttl], delivered := s.delivered + {next},
       log := s.log + [Exchange(tok, verifiedAt, s.now, next)], writes := s.writes + [Row(tok, s.now)])
  }

  /**
   The window is exact: a token issued at 0 and revoked at any time up to the
   last one at which it still verifies can be exchanged again when its
   revocation row lapses, with the least lag between verification and check
   that `SecondExchangeWindow` allows.
   */
  lemma LeewayAllowsSecondExchange(c: Config, revokedAt: int) returns (tr: seq<State>, evs: seq<Event>)
    requires 0 <= revokedAt <= c.ttl + 30
    ensures Run(c, tr, evs)
    ensures |tr[|evs|].log| == 2
    ensures tr[|evs|].log[0].tok == tr[|evs|].log[1].tok == Signed("user", 0, c.ttl)
    ensures tr[|evs|].writes == [Row(Signed("user", 0, c.ttl), revokedAt), Row(Signed("user", 0, c.ttl), revokedAt + c.ttl)]
    ensures tr[|evs|].log[1].checkedAt == revokedAt + c.ttl
    ensures tr[|evs|].log[1].checkedAt - tr[|evs|].log[1].verifiedAt == Max(0, revokedAt - 30)
  {
    var tok := Signed("user", 0, 0 + c.ttl);
    tr, evs := [State(0, map[], map[], map[], {}, [], [], [])], [];
    tr, evs := Extend(c, tr, evs, SignIn("user", 0));
    tr, evs := Extend(c, tr, evs, Tick(revokedAt));
    tr, evs := VerifiedRefresh(c, tr, evs, 0, tok);
    tr, evs := RestOfRefresh(c, tr, evs, 0, tok, revokedAt);
    var verifiedAt := c.ttl + Min(30, revokedAt);
    tr, evs := Extend(c, tr, evs, Tick(verifiedAt));
    tr, evs := VerifiedRefresh(c, tr, evs, 1, tok);
    tr, evs := Extend(c, tr, evs, Tick(revokedAt + c.ttl));
    tr, evs := RestOfRefresh(c, tr, evs, 1, tok, verifiedAt);
  }

  // ----- a refresh in the second of the issue -----

  /**
   Exactly when the delivered token is live: unless it is the very token that was
   exchanged, which a token issued in the same second is, or an unexpired
   revocation row lists it already, or it has expired.
   */
  lemma DeliveredLiveIff(c: Config, s: State, r: Request, s': State)
    requires Steps(c, s, Deliver(r), s') && Inv(c, s)
    ensures s.reqs[r].next in LiveTokens(s', s.reqs[r].tok.sub) <==>
            && s.reqs[r].next != s.reqs[r].tok
            && s.now < s.reqs[r].next.exp
            && !Revoked(s.entries, s.reqs[r].next, s.now)
  {
    var p := s.reqs[r];
    assert SanePhase(c, s, p) && Written(s, p.tok);
    if p.next == p.tok { WrittenIsDead(c, s, p.tok); }
  }

  /** A written token is revoked until it expires. */
  lemma WrittenIsDead(c: Config, s: State, tok: Token)
    requires Inv(c, s) && tok in s.delivered && Written(s, tok)
    ensures tok.Signed? && (s.now >= tok.exp || Revoked(s.entries, tok, s.now))
  {
    if AgedOut(c, s, tok, s.now) {
      var k :| 0 <= k < |s.writes| && s.writes[k].tok == tok && s.now >= s.writes[k].at + c.ttl;
      assert SaneReading(s, tok, s.writes[k].at);
    } else {
      var k :| 0 <= k < |s.writes| && s.writes[k] == Row(tok, s.entries[tok] - c.ttl);
      assert SaneReading(s, tok, s.writes[k].at);
    }
  }

  /** For every lifetime, lock key, user and time: a sign-in and a refresh in one second leave the user without a live token. */
  lemma SameSecondRefreshIsDead(c: Config, user: string, t: int) returns (tr: seq<State>, evs: seq<Event>)
    ensures Run(c, tr, evs)
    ensures |tr[|evs|].log| == 1 && SignInCount(tr[|evs|].signIns, user) == 1
    ensures LiveTokens(tr[|evs|], user) == {}
  {
    var tok := Signed(user, t, t + c.ttl);
    tr, evs := [State(t, map[], map[], map[], {}, [], [], [])], [];
    tr, evs := Extend(c, tr, evs, SignIn(user, t));
    assert tr[1].signIns == [tok] && [tok][..0] == [];
    assert SignInCount([tok], user) == 1;
    tr, evs := VerifiedRefresh(c, tr, evs, 0, tok);
    tr, evs := RestOfRefresh(c, tr, evs, 0, tok, t);
  }
}
