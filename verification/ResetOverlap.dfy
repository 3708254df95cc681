/**
 Overlapping password resets.  `reset_password` checks the pending token, then
 hashes the new password, then writes; other requests may run in between.
 */
module ResetOverlap {
  import opened Wrappers
  import PasswordReset

  type Token = PasswordReset.ResetToken
  type UserId = PasswordReset.UserId

  /** A reset that has passed its checks and not written yet. */
  datatype Flight = Flight(tok: Token, newHash: string)

  /** `issued` and `used` list the tokens handed out and the tokens that changed a password. */
  datatype State = State(users: PasswordReset.Users, flights: map<nat, Flight>, issued: seq<Token>, used: seq<Token>)

  datatype Event =
    | Register(id: UserId, hash: string, at: int)
    | Forgot(id: UserId, at: int)
    | Check(r: nat, tok: Token, newHash: string, strong: bool, at: int)
    | Write(r: nat, at: int)
    | Abandon(r: nat)

  predicate Enabled(s: State, e: Event) {
    match e
    case Register(_, _, _) => true
    case Forgot(_, _) => true
    case Check(r, _, _, _, _) => r !in s.flights
    case Write(r, _) => r in s.flights && s.flights[r].tok.sub in s.users
    case Abandon(r) => r in s.flights
  }

  function Apply(s: State, e: Event): State
    requires Enabled(s, e)
  {
    match e
    case Register(id, hash, at) => s.(users := PasswordReset.Apply(s.users, PasswordReset.Register(id, hash, at)))
    case Forgot(id, at) =>
      s.(users := PasswordReset.ForgotEffect(s.users, id, at),
         issued := if id in s.users then s.issued + [PasswordReset.ResetToken(id, at)] else s.issued)
    case Check(r, tok, newHash, strong, at) =>
      if PasswordReset.ResetVerdict(s.users, tok, strong, at).Ok? then s.(flights := s.flights[r := Flight(tok, newHash)]) else s
    case Write(r, at) =>
      var f := s.flights[r];
      s.(users := s.users[f.tok.sub := PasswordReset.User(f.newHash, None, None, true, Some(at))],
         flights := s.flights - {r}, used := s.used + [f.tok])
    case Abandon(r) => s.(flights := s.flights - {r})
  }

  ghost predicate Steps(s: State, e: Event, s': State) {
    Enabled(s, e) && s' == Apply(s, e)
  }

  /** Without overlap the two halves are the atomic reset of `PasswordReset`. */
  lemma HalvesMakeAReset(s: State, r: nat, tok: Token, newHash: string, strong: bool, at: int)
    requires r !in s.flights && PasswordReset.ResetVerdict(s.users, tok, strong, at).Ok?
    ensures Enabled(Apply(s, Check(r, tok, newHash, strong, at)), Write(r, at))
    ensures var s' := Apply(Apply(s, Check(r, tok, newHash, strong, at)), Write(r, at));
            && s'.users == PasswordReset.ResetEffect(s.users, tok, newHash, strong, at)
            && s'.flights == s.flights && s'.used == s.used + [tok] && s'.issued == s.issued
  {
  }

  /** The user's resets between check and write. */
  function UnderWay(s: State, id: UserId): set<nat> {
    set r | r in s.flights && s.flights[r].tok.sub == id
  }

  const START := State(map[], map[], [], [])

  /** A run in which at most `c` resets of the user are ever under way at once. */
  ghost predicate Run(c: nat, id: UserId, tr: seq<State>, evs: seq<Event>) {
    && |tr| == |evs| + 1
    && tr[0] == START
    && (forall i :: 0 <= i < |evs| ==> Steps(tr[i], evs[i], tr[i + 1]))
    && (forall i :: 0 <= i < |tr| ==> |UnderWay(tr[i], id)| <= c)
  }

  function CountFor(toks: seq<Token>, id: UserId): nat {
    if toks == [] then 0 else CountFor(toks[..|toks| - 1], id) + if toks[|toks| - 1].sub == id then 1 else 0
  }

  predicate Pending(s: State, id: UserId) {
    id in s.users && s.users[id].resetToken.Some?
  }

  /** A pending token has not been used yet; once it is gone, only resets already under way can still write. */
  predicate Within(c: nat, pending: bool, issued: nat, used: nat, underWay: nat) {
    if pending then issued > 0 && used <= c * (issued - 1) else used + underWay <= c * issued
  }

  ghost predicate Covered(c: nat, s: State, id: UserId) {
    Within(c, Pending(s, id), CountFor(s.issued, id), CountFor(s.used, id), |UnderWay(s, id)|)
  }

  /** Each kind of event, by what it does to the numbers. */
  lemma WithinSteps(c: nat, pending: bool, issued: nat, used: nat, underWay: nat)
    requires Within(c, pending, issued, used, underWay) && underWay <= c
    ensures Within(c, true, issued + 1, used, underWay)                                    // a token is issued
    ensures pending ==> Within(c, pending, issued, used, underWay + 1)                     // a reset passes its checks
    ensures underWay > 0 ==> Within(c, false, issued, used + 1, underWay - 1)              // a reset writes
    ensures underWay > 0 ==> Within(c, pending, issued, used, underWay - 1)                // a reset is given up
  {
    OneMore(c, issued);
    if issued > 0 { OneMore(c, issued - 1); }
  }

  lemma CountSnoc(toks: seq<Token>, t: Token, id: UserId)
    ensures CountFor(toks + [t], id) == CountFor(toks, id) + if t.sub == id then 1 else 0
  {
    assert (toks + [t])[..|toks|] == toks;
  }

  lemma OneMore(c: nat, n: nat)
    ensures c * (n + 1) == c * n + c
  {
  }

  /** What an event does to the numbers of one user. */
  lemma NumbersStep(s: State, e: Event, s': State, id: UserId)
    requires Steps(s, e, s')
    ensures CountFor(s'.issued, id) == CountFor(s.issued, id) + if e.Forgot? && e.id == id && id in s.users then 1 else 0
    ensures CountFor(s'.used, id) == CountFor(s.used, id) + if e.Write? && s.flights[e.r].tok.sub == id then 1 else 0
  {
    if e.Forgot? && e.id in s.users { CountSnoc(s.issued, PasswordReset.ResetToken(e.id, e.at), id); }
    if e.Write? { CountSnoc(s.used, s.flights[e.r].tok, id); }
  }

  lemma UnderWayStep(s: State, e: Event, s': State, id: UserId)
    requires Steps(s, e, s')
    ensures (e.Write? || e.Abandon?) && s.flights[e.r].tok.sub == id ==> |UnderWay(s', id)| == |UnderWay(s, id)| - 1
    ensures (e.Write? || e.Abandon?) && s.flights[e.r].tok.sub != id ==> |UnderWay(s', id)| == |UnderWay(s, id)|
    ensures e.Check? ==> |UnderWay(s', id)| == |UnderWay(s, id)| || (Pending(s, id) && |UnderWay(s', id)| == |UnderWay(s, id)| + 1)
    ensures e.Register? || e.Forgot? ==> |UnderWay(s', id)| == |UnderWay(s, id)|
  {
    if e.Write? || e.Abandon? {
      assert UnderWay(s', id) == UnderWay(s, id) - {e.r};
      assert e.r in UnderWay(s, id) <==> s.flights[e.r].tok.sub == id;
    } else if e.Check? && s'.flights != s.flights && e.tok.sub == id {
      assert UnderWay(s', id) == UnderWay(s, id) + {e.r};
    } else {
      assert UnderWay(s', id) == UnderWay(s, id);
    }
  }

  lemma PendingStep(s: State, e: Event, s': State, id: UserId)
    requires Steps(s, e, s')
    ensures Pending(s', id) ==
            if e.Forgot? && e.id == id && id in s.users then true
            else if e.Write? && s.flights[e.r].tok.sub == id then false
            else Pending(s, id)
  {
  }

  lemma CoveredStep(c: nat, s: State, e: Event, s': State, id: UserId)
    requires Steps(s, e, s') && Covered(c, s, id) && |UnderWay(s, id)| <= c
    ensures Covered(c, s', id)
  {
    NumbersStep(s, e, s', id);
    UnderWayStep(s, e, s', id);
    PendingStep(s, e, s', id);
    WithinSteps(c, Pending(s, id), CountFor(s.issued, id), CountFor(s.used, id), |UnderWay(s, id)|);
  }

  lemma CoveredStart(c: nat, id: UserId)
    ensures Covered(c, START, id)
  {
    assert UnderWay(START, id) == {} && c * 0 == 0;
  }

  lemma {:induction false} AlwaysCovered(c: nat, id: UserId, tr: seq<State>, evs: seq<Event>, n: nat)
    requires Run(c, id, tr, evs) && n <= |evs|
    ensures Covered(c, tr[n], id)
  {
    if n == 0 {
      CoveredStart(c, id);
    } else {
      AlwaysCovered(c, id, tr, evs, n - 1);
      assert Steps(tr[n - 1], evs[n - 1], tr[n]) && |UnderWay(tr[n - 1], id)| <= c;
      CoveredStep(c, tr[n - 1], evs[n - 1], tr[n], id);
    }
  }

  /** In every interleaving with at most `c` resets of the user under way, the resets are at most `c` times the issued tokens. */
  lemma ResetsPerIssuance(c: nat, id: UserId, tr: seq<State>, evs: seq<Event>, n: nat)
    requires Run(c, id, tr, evs) && n <= |evs|
    ensures CountFor(tr[n].used, id) <= c * CountFor(tr[n].issued, id)
  {
    AlwaysCovered(c, id, tr, evs, n);
    if Pending(tr[n], id) { OneMore(c, CountFor(tr[n].issued, id) - 1); }
  }

  // ----- the bound is attained -----

  /** One token is pending for the user, and `n` resets with it are under way. */
  ghost predicate Loaded(s: State, tok: Token, n: nat) {
    && tok.sub in s.users && s.users[tok.sub].resetToken == Some(tok) && s.users[tok.sub].resetExpires == Some(tok.iat + PasswordReset.RESET_TTL)
    && !s.users[tok.sub].resetUsed
    && s.flights.Keys == Below(n)
    && (forall r | r in s.flights :: s.flights[r].tok == tok)
    && s.issued == [tok] && s.used == []
  }

  lemma Extend(c: nat, id: UserId, tr: seq<State>, evs: seq<Event>, e: Event) returns (tr': seq<State>, evs': seq<Event>)
    requires Run(c, id, tr, evs) && Enabled(tr[|evs|], e) && |UnderWay(Apply(tr[|evs|], e), id)| <= c
    ensures Run(c, id, tr', evs') && tr'[|evs'|] == Apply(tr[|evs|], e)
  {
    evs', tr' := evs + [e], tr + [Apply(tr[|evs|], e)];
    forall i | 0 <= i < |evs'| ensures Steps(tr'[i], evs'[i], tr'[i + 1]) {
      if i < |evs| { assert Steps(tr[i], evs[i], tr[i + 1]); }
    }
  }

  lemma LoadedUnderWay(s: State, tok: Token, n: nat)
    requires Loaded(s, tok, n)
    ensures |UnderWay(s, tok.sub)| == n
  {
    assert UnderWay(s, tok.sub) == s.flights.Keys;
  }

  /** A registered user who has asked for one token. */
  lemma LoadFirst(c: nat, id: UserId, hash: string) returns (tr: seq<State>, evs: seq<Event>)
    ensures Run(c, id, tr, evs) && Loaded(tr[|evs|], PasswordReset.ResetToken(id, 0), 0)
  {
    assert UnderWay(START, id) == {};
    tr, evs := [START], [];
    assert UnderWay(Apply(START, Register(id, hash, 0)), id) == {};
    tr, evs := Extend(c, id, tr, evs, Register(id, hash, 0));
    assert UnderWay(Apply(tr[|evs|], Forgot(id, 0)), id) == {};
    tr, evs := Extend(c, id, tr, evs, Forgot(id, 0));
  }

  lemma LoadOne(s: State, tok: Token, hash: string, n: nat)
    requires Loaded(s, tok, n)
    ensures Enabled(s, Check(n, tok, hash, true, tok.iat)) && Loaded(Apply(s, Check(n, tok, hash, true, tok.iat)), tok, n + 1)
    ensures |UnderWay(Apply(s, Check(n, tok, hash, true, tok.iat)), tok.sub)| == n + 1
  {
    var e := Check(n, tok, hash, true, tok.iat);
    assert PasswordReset.ResetVerdict(s.users, tok, true, tok.iat).Ok?;
    assert Apply(s, e).flights.Keys == Below(n + 1);
    LoadedUnderWay(Apply(s, e), tok, n + 1);
  }

  lemma {:induction false} Load(c: nat, id: UserId, hash: string, n: nat) returns (tr: seq<State>, evs: seq<Event>)
    requires n <= c
    ensures Run(c, id, tr, evs) && Loaded(tr[|evs|], PasswordReset.ResetToken(id, 0), n)
  {
    var tok := PasswordReset.ResetToken(id, 0);
    if n == 0 {
      tr, evs := LoadFirst(c, id, hash);
    } else {
      tr, evs := Load(c, id, hash, n - 1);
      LoadOne(tr[|evs|], tok, hash, n - 1);
      tr, evs := Extend(c, id, tr, evs, Check(n - 1, tok, hash, true, 0));
    }
  }

  /** `n` resets with one token still to write, `m` already written. */
  ghost predicate Firing(s: State, tok: Token, n: nat, m: nat) {
    && tok.sub in s.users
    && s.flights.Keys == Below(n)
    && (forall r | r in s.flights :: s.flights[r].tok == tok)
    && CountFor(s.issued, tok.sub) == 1 && CountFor(s.used, tok.sub) == m
  }

  lemma Fire(s: State, tok: Token, n: nat, m: nat)
    requires n > 0 && Firing(s, tok, n, m)
    ensures Enabled(s, Write(n - 1, 0)) && Firing(Apply(s, Write(n - 1, 0)), tok, n - 1, m + 1)
    ensures |UnderWay(Apply(s, Write(n - 1, 0)), tok.sub)| == n - 1
  {
    var s' := Apply(s, Write(n - 1, 0));
    CountSnoc(s.used, tok, tok.sub);
    assert s'.flights.Keys == Below(n - 1);
    assert UnderWay(s', tok.sub) == s'.flights.Keys;
  }

  lemma {:induction false} FireAll(c: nat, id: UserId, tr: seq<State>, evs: seq<Event>, tok: Token, n: nat, m: nat)
    returns (tr': seq<State>, evs': seq<Event>)
    requires Run(c, id, tr, evs) && tok.sub == id && n <= c && Firing(tr[|evs|], tok, n, m)
    ensures Run(c, id, tr', evs') && Firing(tr'[|evs'|], tok, 0, m + n)
    decreases n
  {
    tr', evs' := tr, evs;
    if n > 0 {
      Fire(tr[|evs|], tok, n, m);
      tr', evs' := Extend(c, id, tr, evs, Write(n - 1, 0));
      tr', evs' := FireAll(c, id, tr', evs', tok, n - 1, m + 1);
    }
  }

  /** For every `c` there is a run in which one issued token resets the password `c` times. */
  lemma OneTokenResetsManyTimes(c: nat, id: UserId, hash: string) returns (tr: seq<State>, evs: seq<Event>)
    ensures Run(c, id, tr, evs)
    ensures CountFor(tr[|evs|].issued, id) == 1 && CountFor(tr[|evs|].used, id) == c
  {
    var tok := PasswordReset.ResetToken(id, 0);
    tr, evs := Load(c, id, hash, c);
    CountSnoc([], tok, id);
    assert [] + [tok] == [tok];
    assert Firing(tr[|evs|], tok, c, 0);
    tr, evs := FireAll(c, id, tr, evs, tok, c, 0);
  }
}
