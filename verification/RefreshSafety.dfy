/**
 What rotation guarantees over whole runs: when a token can be exchanged a
 second time, and that it cannot before its `exp`.
 */
module RefreshSafety {
  import opened Revocation
  import opened RefreshMachine

  // ----- the invariant -----

  /** A revocation row of the token was computed at least a lifetime before `t`. */
  ghost predicate AgedOut(c: Config, s: State, tok: Token, t: int) {
    exists k :: 0 <= k < |s.writes| && s.writes[k].tok == tok && t >= s.writes[k].at + c.ttl
  }

  ghost predicate Written(s: State, tok: Token) {
    exists k :: 0 <= k < |s.writes| && s.writes[k].tok == tok
  }

  /** A revocation row of the token was computed at `t` or before. */
  ghost predicate RowBy(s: State, tok: Token, t: int) {
    exists k :: 0 <= k < |s.writes| && s.writes[k].tok == tok && s.writes[k].at <= t
  }

  predicate PastCheck(p: Phase) {
    p.Checked? || p.Issued? || p.Timed? || p.Done?
  }

  predicate PastVerify(p: Phase) {
    p.Verified? || p.Clocked? || PastCheck(p)
  }

  /** Tokens and clock readings are sane: nothing is dated after `now` or before the token it concerns. */
  ghost predicate Sane(c: Config, s: State) {
    && (forall tok | tok in s.delivered :: tok.Signed? && tok.exp == tok.iat + c.ttl && tok.iat <= s.now)
    && (forall r | r in s.reqs :: SanePhase(c, s, s.reqs[r]))
    && (forall k | 0 <= k < |s.writes| :: Presentable(s, s.writes[k].tok) && SaneReading(s, s.writes[k].tok, s.writes[k].at))
  }

  ghost predicate SaneReading(s: State, tok: Token, t: int) {
    t <= s.now && (tok.Signed? ==> tok.iat <= t)
  }

  ghost predicate SanePhase(c: Config, s: State, p: Phase) {
    && Presentable(s, p.tok)
    && (!p.Locked? && !p.LoggingOut? ==> p.tok.Signed? && p.verifiedAt <= s.now && p.verifiedAt <= p.tok.exp + LEEWAY)
    && (p.Clocked? ==> p.readAt <= s.now)
    && (PastCheck(p) ==> p.checkedAt <= s.now)
    && (p.Timed? || p.LoggingOut? ==> SaneReading(s, p.tok, p.revokeAt))
    && (p.Issued? || p.Timed? || p.Done? ==>
          p.next.Signed? && p.next.sub == p.tok.sub && p.next.exp == p.next.iat + c.ttl && p.next.iat <= s.now)
  }

  /** A written token is still listed, with a lifetime taken from one of its rows, or one of its rows has aged out. */
  ghost predicate Recorded(c: Config, s: State) {
    forall tok | Written(s, tok) ::
      || AgedOut(c, s, tok, s.now)
      || (tok in s.entries && exists k :: 0 <= k < |s.writes| && s.writes[k] == Row(tok, s.entries[tok] - c.ttl))
  }

  /** Exchanged tokens, and tokens about to be, have been written. */
  ghost predicate ExchangedAreWritten(s: State) {
    && (forall i | 0 <= i < |s.log| :: Written(s, s.log[i].tok))
    && (forall r | r in s.reqs && s.reqs[r].Done? :: Written(s, s.reqs[r].tok))
  }

  /** While a request past its check holds the lock, any exchange of its token is one it could see had aged out. */
  ghost predicate LockProtects(c: Config, s: State) {
    forall i, r | 0 <= i < |s.log| && HoldsLock(c, s, r) && PastCheck(s.reqs[r]) && s.reqs[r].tok == s.log[i].tok ::
      AgedOut(c, s, s.log[i].tok, s.reqs[r].checkedAt)
  }

  /** The second of two exchanges of one token was checked after a revocation row of it had aged out. */
  ghost predicate SecondIsLate(c: Config, s: State) {
    forall i, j | 0 <= i < j < |s.log| && s.log[i].tok == s.log[j].tok :: AgedOut(c, s, s.log[j].tok, s.log[j].checkedAt)
  }

  /** A request that holds the lock on an exchanged token verified it after a revocation row of it was computed. */
  ghost predicate LockOrders(c: Config, s: State) {
    forall i, r | 0 <= i < |s.log| && HoldsLock(c, s, r) && PastVerify(s.reqs[r]) && s.reqs[r].tok == s.log[i].tok ::
      RowBy(s, s.log[i].tok, s.reqs[r].verifiedAt)
  }

  /** The second of two exchanges of one token was verified after a revocation row of it was computed. */
  ghost predicate SecondIsAfter(s: State) {
    forall i, j | 0 <= i < j < |s.log| && s.log[i].tok == s.log[j].tok :: RowBy(s, s.log[j].tok, s.log[j].verifiedAt)
  }

  ghost predicate SaneLog(c: Config, s: State) {
    forall i | 0 <= i < |s.log| :: s.log[i].tok in s.delivered && s.log[i].tok.Signed? && s.log[i].verifiedAt <= s.log[i].tok.exp + LEEWAY
  }

  ghost predicate Inv(c: Config, s: State) {
    && Sane(c, s) && SaneLog(c, s) && Recorded(c, s) && ExchangedAreWritten(s)
    && LockProtects(c, s) && SecondIsLate(c, s) && LockOrders(c, s) && SecondIsAfter(s)
  }

  // ----- every step keeps it -----

  lemma AgedOutStays(c: Config, s: State, s': State, tok: Token, t: int)
    requires s.writes <= s'.writes && AgedOut(c, s, tok, t)
    ensures AgedOut(c, s', tok, t)
  {
    var k :| 0 <= k < |s.writes| && s.writes[k].tok == tok && t >= s.writes[k].at + c.ttl;
    assert s'.writes[k] == s.writes[k];
  }

  /** Time and deliveries only grow, and what was sane stays sane. */
  lemma Grows(c: Config, s: State, e: Event, s': State)
    requires Steps(c, s, e, s')
    ensures s.now <= s'.now && s.delivered <= s'.delivered && s.writes <= s'.writes && s.log <= s'.log
  {
  }

  lemma SanePhaseStays(c: Config, s: State, s': State, p: Phase)
    requires SanePhase(c, s, p) && s.now <= s'.now && s.delivered <= s'.delivered
    ensures SanePhase(c, s', p)
  {
  }

  /** The one request that an event moves is sane afterwards. */
  lemma SaneMove(c: Config, s: State, e: Event, s': State, r: Request)
    requires Steps(c, s, e, s') && Sane(c, s)
    requires r in s'.reqs && (r in s.reqs ==> s'.reqs[r] != s.reqs[r])
    ensures SanePhase(c, s', s'.reqs[r])
  {
    Grows(c, s, e, s');
    if r in s.reqs { assert SanePhase(c, s, s.reqs[r]); }
  }

  lemma SaneStep(c: Config, s: State, e: Event, s': State)
    requires Steps(c, s, e, s') && Sane(c, s)
    ensures Sane(c, s')
  {
    Grows(c, s, e, s');
    forall r | r in s'.reqs
      ensures SanePhase(c, s', s'.reqs[r])
    {
      if r in s.reqs && s.reqs[r] == s'.reqs[r] {
        SanePhaseStays(c, s, s', s.reqs[r]);
      } else {
        SaneMove(c, s, e, s', r);
      }
    }
    if e.Write? || e.Deliver? { assert SanePhase(c, s, s.reqs[e.r]); }
    forall k | 0 <= k < |s'.writes|
      ensures Presentable(s', s'.writes[k].tok) && SaneReading(s', s'.writes[k].tok, s'.writes[k].at)
    {
    }
  }

  lemma SaneLogStep(c: Config, s: State, e: Event, s': State)
    requires Steps(c, s, e, s') && Sane(c, s) && SaneLog(c, s)
    ensures SaneLog(c, s')
  {
    Grows(c, s, e, s');
    if e.Deliver? { assert SanePhase(c, s, s.reqs[e.r]); }
  }

  lemma AgedOutLater(c: Config, s: State, tok: Token, t: int, t': int)
    requires AgedOut(c, s, tok, t) && t <= t'
    ensures AgedOut(c, s, tok, t')
  {
    var k :| 0 <= k < |s.writes| && s.writes[k].tok == tok && t >= s.writes[k].at + c.ttl;
    assert t' >= s.writes[k].at + c.ttl;
  }

  lemma RecordedStep(c: Config, s: State, e: Event, s': State)
    requires Steps(c, s, e, s') && Recorded(c, s)
    ensures Recorded(c, s')
  {
    Grows(c, s, e, s');
    forall tok | Written(s', tok)
      ensures || AgedOut(c, s', tok, s'.now)
              || (tok in s'.entries && exists k :: 0 <= k < |s'.writes| && s'.writes[k] == Row(tok, s'.entries[tok] - c.ttl))
    {
      if e.Write? && s.reqs[e.r].tok == tok {
        assert s'.writes[|s.writes|] == Row(tok, s'.entries[tok] - c.ttl);
      } else {
        assert Written(s, tok);
        if AgedOut(c, s, tok, s.now) {
          AgedOutStays(c, s, s', tok, s.now);
          AgedOutLater(c, s', tok, s.now, s'.now);
        } else {
          var k :| 0 <= k < |s.writes| && s.writes[k] == Row(tok, s.entries[tok] - c.ttl);
          assert s'.writes[k] == Row(tok, s.entries[tok] - c.ttl);
        }
      }
    }
  }

  lemma WrittenStays(s: State, s': State, tok: Token)
    requires s.writes <= s'.writes && Written(s, tok)
    ensures Written(s', tok)
  {
    var k :| 0 <= k < |s.writes| && s.writes[k].tok == tok;
    assert s'.writes[k].tok == tok;
  }

  lemma WrittenStep(c: Config, s: State, e: Event, s': State)
    requires Steps(c, s, e, s') && ExchangedAreWritten(s)
    ensures ExchangedAreWritten(s')
  {
    Grows(c, s, e, s');
    forall i | 0 <= i < |s'.log|
      ensures Written(s', s'.log[i].tok)
    {
      WrittenStays(s, s', s'.log[i].tok);
    }
    forall r | r in s'.reqs && s'.reqs[r].Done?
      ensures Written(s', s'.reqs[r].tok)
    {
      if r in s.reqs && s.reqs[r].Done? {
        WrittenStays(s, s', s'.reqs[r].tok);
      } else {
        assert s'.writes[|s.writes|].tok == s'.reqs[r].tok;
      }
    }
  }

  /** A check that passes on a written token passes only because a row of it has aged out. */
  lemma PassedCheck(c: Config, s: State, r: Request)
    requires Sane(c, s) && Recorded(c, s)
    requires r in s.reqs && s.reqs[r].Clocked? && Written(s, s.reqs[r].tok)
    requires !Revoked(s.entries, s.reqs[r].tok, s.reqs[r].readAt)
    ensures AgedOut(c, s, s.reqs[r].tok, s.now)
  {
    assert SanePhase(c, s, s.reqs[r]);
  }

  lemma LockStep(c: Config, s: State, e: Event, s': State)
    requires Steps(c, s, e, s') && Sane(c, s) && Recorded(c, s) && ExchangedAreWritten(s) && LockProtects(c, s)
    ensures LockProtects(c, s')
  {
    Grows(c, s, e, s');
    forall i, r | 0 <= i < |s'.log| && HoldsLock(c, s', r) && PastCheck(s'.reqs[r]) && s'.reqs[r].tok == s'.log[i].tok
      ensures AgedOut(c, s', s'.log[i].tok, s'.reqs[r].checkedAt)
    {
      LockStepAt(c, s, e, s', i, r);
    }
  }

  /** A request that is past its check and holds its lock held it before, on the same token, and nobody else delivered it. */
  lemma StillLocked(c: Config, s: State, e: Event, s': State, i: nat, r: Request)
    requires Steps(c, s, e, s')
    requires i < |s'.log| && HoldsLock(c, s', r) && PastCheck(s'.reqs[r]) && s'.reqs[r].tok == s'.log[i].tok
    ensures i < |s.log| && s.log[i] == s'.log[i] && HoldsLock(c, s, r) && s.reqs[r].tok == s'.reqs[r].tok
    ensures PastCheck(s.reqs[r]) ==> s'.reqs[r].checkedAt == s.reqs[r].checkedAt
    ensures !PastCheck(s.reqs[r]) ==> e == Check(r) && s.reqs[r].Clocked? && s'.reqs[r].checkedAt == s.now
  {
  }

  lemma LockStepAt(c: Config, s: State, e: Event, s': State, i: nat, r: Request)
    requires Steps(c, s, e, s') && Sane(c, s) && Recorded(c, s) && ExchangedAreWritten(s) && LockProtects(c, s)
    requires i < |s'.log| && HoldsLock(c, s', r) && PastCheck(s'.reqs[r]) && s'.reqs[r].tok == s'.log[i].tok
    ensures AgedOut(c, s', s'.log[i].tok, s'.reqs[r].checkedAt)
  {
    Grows(c, s, e, s');
    StillLocked(c, s, e, s', i, r);
    if PastCheck(s.reqs[r]) {
      AgedOutStays(c, s, s', s.log[i].tok, s.reqs[r].checkedAt);
    } else {
      PassedCheck(c, s, r);
      AgedOutStays(c, s, s', s.log[i].tok, s.now);
    }
  }

  lemma SecondStep(c: Config, s: State, e: Event, s': State)
    requires Steps(c, s, e, s') && LockProtects(c, s) && SecondIsLate(c, s)
    ensures SecondIsLate(c, s')
  {
    Grows(c, s, e, s');
    forall i, j | 0 <= i < j < |s'.log| && s'.log[i].tok == s'.log[j].tok
      ensures AgedOut(c, s', s'.log[j].tok, s'.log[j].checkedAt)
    {
      assert AgedOut(c, s, s'.log[j].tok, s'.log[j].checkedAt);
      AgedOutStays(c, s, s', s'.log[j].tok, s'.log[j].checkedAt);
    }
  }

  lemma RowByStays(s: State, s': State, tok: Token, t: int)
    requires s.writes <= s'.writes && RowBy(s, tok, t)
    ensures RowBy(s', tok, t)
  {
    var k :| 0 <= k < |s.writes| && s.writes[k].tok == tok && s.writes[k].at <= t;
    assert s'.writes[k] == s.writes[k];
  }

  /** The same for a request past its verification. */
  lemma StillOrdered(c: Config, s: State, e: Event, s': State, i: nat, r: Request)
    requires Steps(c, s, e, s')
    requires i < |s'.log| && HoldsLock(c, s', r) && PastVerify(s'.reqs[r]) && s'.reqs[r].tok == s'.log[i].tok
    ensures i < |s.log| && s.log[i] == s'.log[i] && HoldsLock(c, s, r) && s.reqs[r].tok == s'.reqs[r].tok
    ensures PastVerify(s.reqs[r]) ==> s'.reqs[r].verifiedAt == s.reqs[r].verifiedAt
    ensures !PastVerify(s.reqs[r]) ==> e == Verify(r) && s'.reqs[r].verifiedAt == s.now
  {
  }

  lemma OrderStepAt(c: Config, s: State, e: Event, s': State, i: nat, r: Request)
    requires Steps(c, s, e, s') && Sane(c, s) && ExchangedAreWritten(s) && LockOrders(c, s)
    requires i < |s'.log| && HoldsLock(c, s', r) && PastVerify(s'.reqs[r]) && s'.reqs[r].tok == s'.log[i].tok
    ensures RowBy(s', s'.log[i].tok, s'.reqs[r].verifiedAt)
  {
    Grows(c, s, e, s');
    StillOrdered(c, s, e, s', i, r);
    if !PastVerify(s.reqs[r]) {
      assert Written(s, s.log[i].tok);
      var k :| 0 <= k < |s.writes| && s.writes[k].tok == s.log[i].tok;
      assert SaneReading(s, s.writes[k].tok, s.writes[k].at);
    }
    RowByStays(s, s', s.log[i].tok, s'.reqs[r].verifiedAt);
  }

  lemma OrderStep(c: Config, s: State, e: Event, s': State)
    requires Steps(c, s, e, s') && Sane(c, s) && ExchangedAreWritten(s) && LockOrders(c, s)
    ensures LockOrders(c, s')
  {
    forall i, r | 0 <= i < |s'.log| && HoldsLock(c, s', r) && PastVerify(s'.reqs[r]) && s'.reqs[r].tok == s'.log[i].tok
      ensures RowBy(s', s'.log[i].tok, s'.reqs[r].verifiedAt)
    {
      OrderStepAt(c, s, e, s', i, r);
    }
  }

  lemma SecondAfterStep(c: Config, s: State, e: Event, s': State)
    requires Steps(c, s, e, s') && LockOrders(c, s) && SecondIsAfter(s)
    ensures SecondIsAfter(s')
  {
    Grows(c, s, e, s');
    forall i, j | 0 <= i < j < |s'.log| && s'.log[i].tok == s'.log[j].tok
      ensures RowBy(s', s'.log[j].tok, s'.log[j].verifiedAt)
    {
      assert RowBy(s, s'.log[j].tok, s'.log[j].verifiedAt);
      RowByStays(s, s', s'.log[j].tok, s'.log[j].verifiedAt);
    }
  }

  lemma {:induction false} AlwaysInv(c: Config, tr: seq<State>, evs: seq<Event>, n: nat)
    requires Run(c, tr, evs) && n <= |evs|
    ensures Inv(c, tr[n])
  {
    if n > 0 {
      AlwaysInv(c, tr, evs, n - 1);
      var s, e, s' := tr[n - 1], evs[n - 1], tr[n];
      assert Steps(c, s, e, s');
      SaneStep(c, s, e, s');
      SaneLogStep(c, s, e, s');
      RecordedStep(c, s, e, s');
      WrittenStep(c, s, e, s');
      LockStep(c, s, e, s');
      SecondStep(c, s, e, s');
      OrderStep(c, s, e, s');
      SecondAfterStep(c, s, e, s');
    }
  }

  // ----- what a user of the protocol can rely on -----

  predicate Early(x: Exchange) {
    x.tok.Signed? && x.checkedAt < x.tok.exp
  }

  /**
   The window: if no revocation of the token was computed before `r`, a second
   exchange is verified at `r` or later and checked at `r` plus one lifetime or
   later.  Verification allows only the leeway beyond `exp`, so `r` itself is at
   most that, and the check lags behind the verification unless `r` is within
   the leeway of the issue.
   */
  lemma SecondExchangeWindow(c: Config, tr: seq<State>, evs: seq<Event>, n: nat, i: nat, j: nat, r: int)
    requires Run(c, tr, evs) && n <= |evs|
    requires i < j < |tr[n].log| && tr[n].log[i].tok == tr[n].log[j].tok
    requires forall k | 0 <= k < |tr[n].writes| && tr[n].writes[k].tok == tr[n].log[j].tok :: r <= tr[n].writes[k].at
    ensures tr[n].log[j].checkedAt >= r + c.ttl
    ensures tr[n].log[j].tok.Signed?
    ensures r <= tr[n].log[j].verifiedAt <= tr[n].log[j].tok.exp + 30
    ensures tr[n].log[j].checkedAt - tr[n].log[j].verifiedAt >= r - (tr[n].log[j].tok.iat + 30)
  {
    AlwaysInv(c, tr, evs, n);
    var s := tr[n];
    var x := s.log[j];
    assert AgedOut(c, s, x.tok, x.checkedAt) && RowBy(s, x.tok, x.verifiedAt);
    assert x.tok in s.delivered;
  }

  /** Each refresh token is exchanged at most once among the exchanges checked before its `exp`. */
  lemma AtMostOneEarlyExchange(c: Config, tr: seq<State>, evs: seq<Event>, n: nat, i: nat, j: nat)
    requires Run(c, tr, evs) && n <= |evs|
    requires i < j < |tr[n].log| && tr[n].log[i].tok == tr[n].log[j].tok
    ensures !Early(tr[n].log[j])
  {
    AlwaysInv(c, tr, evs, n);
    var s := tr[n];
    var x := s.log[j];
    assert AgedOut(c, s, x.tok, x.checkedAt);
    var k :| 0 <= k < |s.writes| && s.writes[k].tok == x.tok && x.checkedAt >= s.writes[k].at + c.ttl;
    assert x.tok in s.delivered && SaneReading(s, x.tok, s.writes[k].at);
  }
}
