/**
 All interleavings of `refresh`, `logout`, sign-ins and `cleanup_revoked_tokens`.
 Every clock reading, every statement and the commit are separate steps, any
 request may be aborted between two of them, and the connection that holds the
 advisory lock may be lost while its request goes on.
 */
module RefreshMachine {
  import opened Revocation

  // `validation.leeway`
  const LEEWAY := 30

  /** The refresh lifetime, and the lock key of a token: any function, collisions included. */
  datatype Config = Config(ttl: nat, lockKey: Token -> int)

  type Request = nat

  datatype Phase =
    | Locked(tok: Token)                                                // lock acquired
    | Verified(tok: Token, verifiedAt: int)                             // signature, type and expiry accepted
    | Clocked(tok: Token, verifiedAt: int, readAt: int)                 // `is_token_revoked` has read its clock
    | Checked(tok: Token, verifiedAt: int, checkedAt: int)              // the table did not say revoked
    | Issued(tok: Token, verifiedAt: int, checkedAt: int, next: Token) // user accepted, new token made
    | Timed(tok: Token, verifiedAt: int, checkedAt: int, next: Token, revokeAt: int) // `revoke_token` has read its clock
    | Done(tok: Token, verifiedAt: int, checkedAt: int, next: Token)   // old token written as revoked
    | LoggingOut(tok: Token, revokeAt: int)

  /** A refresh whose response was sent. */
  datatype Exchange = Exchange(tok: Token, verifiedAt: int, checkedAt: int, next: Token)

  /** A row written to the revocation table, with the clock value it was computed from. */
  datatype Row = Row(tok: Token, at: int)

  /** `delivered`, `log`, `writes` and `signIns` record what has happened; no request reads them. */
  datatype State = State(
    now: int,
    locks: map<int, Request>,
    entries: Entries,
    reqs: map<Request, Phase>,
    delivered: set<Token>,
    signIns: seq<Token>,
    log: seq<Exchange>,
    writes: seq<Row>)

  datatype Event =
    | Tick(now: int)
    | SignIn(sub: string, iat: int)
    | Acquire(r: Request, tok: Token)
    | LoseLock(r: Request)
    | Verify(r: Request)
    | ReadClock(r: Request)
    | Check(r: Request)
    | Issue(r: Request)
    | ReadRevokeClock(r: Request)
    | Write(r: Request)
    | Deliver(r: Request)
    | Abort(r: Request)
    | Logout(r: Request, tok: Token)
    | Cleanup(at: int)

  /** A client can send a token it was given, or something no key ever signed. */
  predicate Presentable(s: State, tok: Token) {
    tok.Garbage? || tok in s.delivered
  }

  /** The request's transaction is alive and holds the token's lock. */
  predicate HoldsLock(c: Config, s: State, r: Request) {
    r in s.reqs && c.lockKey(s.reqs[r].tok) in s.locks && s.locks[c.lockKey(s.reqs[r].tok)] == r
  }

  predicate Enabled(c: Config, s: State, e: Event) {
    match e
    case Tick(t) => s.now <= t
    case SignIn(_, iat) => iat <= s.now
    case Acquire(r, tok) => r !in s.reqs && Presentable(s, tok)
    case LoseLock(r) => r in s.reqs
    case Verify(r) => r in s.reqs && s.reqs[r].Locked?
    case ReadClock(r) => r in s.reqs && s.reqs[r].Verified?
    case Check(r) => r in s.reqs && s.reqs[r].Clocked?
    case Issue(r) => r in s.reqs && s.reqs[r].Checked? && s.reqs[r].tok.Signed?
    case ReadRevokeClock(r) => r in s.reqs && s.reqs[r].Issued?
    case Write(r) => r in s.reqs && (s.reqs[r].Timed? || s.reqs[r].LoggingOut?)
    case Deliver(r) => r in s.reqs && s.reqs[r].Done? && HoldsLock(c, s, r)
    case Abort(r) => r in s.reqs
    case Logout(r, tok) => r !in s.reqs && Presentable(s, tok)
    case Cleanup(at) => at <= s.now
  }

  /** Drop the request and, if its transaction still holds the lock, the lock. */
  function Finish(c: Config, s: State, r: Request): State
    requires r in s.reqs
  {
    s.(reqs := s.reqs - {r}, locks := if HoldsLock(c, s, r) then s.locks - {c.lockKey(s.reqs[r].tok)} else s.locks)
  }

  function Move(s: State, r: Request, p: Phase): State {
    s.(reqs := s.reqs[r := p])
  }

  function Apply(c: Config, s: State, e: Event): State
    requires Enabled(c, s, e)
  {
    match e
    case Tick(t) => s.(now := t)
    case SignIn(sub, iat) =>
      var tok := Signed(sub, iat, iat + c.ttl);
      s.(delivered := s.delivered + {tok}, signIns := s.signIns + [tok])
    case Acquire(r, tok) =>
      if c.lockKey(tok) in s.locks then s
      else Move(s, r, Locked(tok)).(locks := s.locks[c.lockKey(tok) := r])
    case LoseLock(r) =>
      if HoldsLock(c, s, r) then s.(locks := s.locks - {c.lockKey(s.reqs[r].tok)}) else s
    case Verify(r) =>
      var tok := s.reqs[r].tok;
      if tok.Signed? && s.now <= tok.exp + LEEWAY then Move(s, r, Verified(tok, s.now)) else Finish(c, s, r)
    case ReadClock(r) => Move(s, r, Clocked(s.reqs[r].tok, s.reqs[r].verifiedAt, s.now))
    case Check(r) =>
      var p := s.reqs[r];
      if Revoked(s.entries, p.tok, p.readAt) then Finish(c, s, r) else Move(s, r, Checked(p.tok, p.verifiedAt, s.now))
    case Issue(r) =>
      var p := s.reqs[r];
      Move(s, r, Issued(p.tok, p.verifiedAt, p.checkedAt, Signed(p.tok.sub, s.now, s.now + c.ttl)))
    case ReadRevokeClock(r) =>
      var p := s.reqs[r];
      Move(s, r, Timed(p.tok, p.verifiedAt, p.checkedAt, p.next, s.now))
    case Write(r) =>
      var p := s.reqs[r];
      var s' := s.(entries := RevokeEntry(s.entries, p.tok, c.ttl, p.revokeAt), writes := s.writes + [Row(p.tok, p.revokeAt)]);
      if p.Timed? then Move(s', r, Done(p.tok, p.verifiedAt, p.checkedAt, p.next)) else s'.(reqs := s.reqs - {r})
    case Deliver(r) =>
      var p := s.reqs[r];
      Finish(c, s, r).(delivered := s.delivered + {p.next}, log := s.log + [Exchange(p.tok, p.verifiedAt, p.checkedAt, p.next)])
    case Abort(r) => Finish(c, s, r)
    case Logout(r, tok) => Move(s, r, LoggingOut(tok, s.now))
    case Cleanup(at) => s.(entries := CleanupEntries(s.entries, at))
  }

  predicate Initial(s: State) {
    && s.locks == map[] && s.entries == map[] && s.reqs == map[]
    && s.delivered == {} && s.signIns == [] && s.log == [] && s.writes == []
  }

  ghost predicate Steps(c: Config, s: State, e: Event, s': State) {
    Enabled(c, s, e) && s' == Apply(c, s, e)
  }

  ghost predicate Run(c: Config, tr: seq<State>, evs: seq<Event>) {
    && |tr| == |evs| + 1
    && Initial(tr[0])
    && forall i :: 0 <= i < |evs| ==> Steps(c, tr[i], evs[i], tr[i + 1])
  }

  /** What the model leaves open: at any moment time may pass, requests be aborted or lose their lock, and lapsed rows be deleted. */
  lemma AnythingCanHappen(c: Config, s: State, r: Request, t: int)
    ensures r in s.reqs ==> Enabled(c, s, Abort(r)) && Enabled(c, s, LoseLock(r))
    ensures Enabled(c, s, Tick(t)) <==> s.now <= t
    ensures Enabled(c, s, Event.Cleanup(t)) <==> t <= s.now
    ensures forall tok: Token | tok.Garbage? || tok in s.delivered ::
              (Enabled(c, s, Acquire(r, tok)) <==> r !in s.reqs) && (Enabled(c, s, Logout(r, tok)) <==> r !in s.reqs)
  {
  }

  /** The advisory lock never waits: a request starts exactly when the key is free, and a refusal changes nothing. */
  lemma AcquireIsTryLock(c: Config, s: State, r: Request, tok: Token)
    requires Enabled(c, s, Acquire(r, tok))
    ensures var s' := Apply(c, s, Acquire(r, tok));
            if c.lockKey(tok) in s.locks then s' == s
            else s' == s.(locks := s.locks[c.lockKey(tok) := r], reqs := s.reqs[r := Locked(tok)])
  {
  }

  /** Nobody takes the lock from its holder: it goes only when the holder ends or its connection is lost. */
  lemma LockIsKept(c: Config, s: State, e: Event, s': State, r: Request)
    requires Steps(c, s, e, s') && HoldsLock(c, s, r) && e != LoseLock(r) && r in s'.reqs
    ensures HoldsLock(c, s', r) && s'.reqs[r].tok == s.reqs[r].tok
  {
  }

  /** A run can always be continued by an enabled event. */
  lemma Extend(c: Config, tr: seq<State>, evs: seq<Event>, e: Event) returns (tr': seq<State>, evs': seq<Event>)
    requires Run(c, tr, evs) && Enabled(c, tr[|evs|], e)
    ensures evs' == evs + [e] && tr' == tr + [Apply(c, tr[|evs|], e)]
    ensures Run(c, tr', evs') && tr'[|evs'|] == Apply(c, tr[|evs|], e)
  {
    evs', tr' := evs + [e], tr + [Apply(c, tr[|evs|], e)];
    forall i | 0 <= i < |evs'|
      ensures Steps(c, tr'[i], evs'[i], tr'[i + 1])
    {
      if i < |evs| {
        assert Steps(c, tr[i], evs[i], tr[i + 1]);
      }
    }
  }
}
