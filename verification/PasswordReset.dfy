/**
 Password reset and the session cut it makes, for all users, each request one
 atomic step with one clock reading.  Token hashes are injective, so a stored
 hash is the token itself.
 */
module PasswordReset {
  import opened Wrappers

  type UserId = string

  const RESET_TTL := 3600
  const LEEWAY := 30

  /** A reset token is its claims; `exp` is one hour after `iat`. */
  datatype ResetToken = ResetToken(sub: UserId, iat: int)

  datatype User = User(
    passwordHash: string,
    resetToken: Option<ResetToken>,
    resetExpires: Option<int>,
    resetUsed: bool,
    passwordChangedAt: Option<int>)

  type Users = map<UserId, User>

  datatype Failure = WeakPassword | BadToken | UserNotFound | NoResetPending | TokenMismatch | TokenExpired | TokenUsed

  function ForgotEffect(users: Users, id: UserId, now: int): Users {
    if id in users
    then users[id := users[id].(resetToken := Some(ResetToken(id, now)), resetExpires := Some(now + RESET_TTL), resetUsed := false)]
    else users
  }

  /** The checks of `reset_password`, in order. */
  function ResetVerdict(users: Users, tok: ResetToken, strong: bool, now: int): Result<User, Failure> {
    if !strong then Err(WeakPassword)
    else if now > tok.iat + RESET_TTL + LEEWAY then Err(BadToken)
    else if tok.sub !in users then Err(UserNotFound)
    else
      var u := users[tok.sub];
      if u.resetToken.None? then Err(NoResetPending)
      else if u.resetToken.value != tok then Err(TokenMismatch)
      else if now > (if u.resetExpires.Some? then u.resetExpires.value else 0) then Err(TokenExpired)
      else if u.resetUsed then Err(TokenUsed)
      else Ok(u)
  }

  function ResetEffect(users: Users, tok: ResetToken, newHash: string, strong: bool, now: int): Users {
    var v := ResetVerdict(users, tok, strong, now);
    if v.Ok?
    then users[tok.sub := User(newHash, None, None, true, Some(now))]
    else users
  }

  /** The password-change test of `refresh`: a token issued before the last change is refused. */
  predicate RefreshAccepted(u: User, iat: int) {
    u.passwordChangedAt.None? || u.passwordChangedAt.value <= iat
  }

  /** The stored expiry is past; a missing one counts as 0. */
  ghost predicate Lapsed(u: User, now: int) {
    match u.resetExpires
    case Some(t) => t < now
    case None => 0 < now
  }

  class UserStore {
    var users: Users

    constructor ()
      ensures users == map[]
    {
      users := map[];
    }

    /** The response is the same for unknown users; a token is made only for known ones. */
    method ForgotPassword(id: UserId, now: int) returns (tok: Option<ResetToken>)
      modifies this
      ensures users.Keys == old(users).Keys && forall x | x in users && x != id :: users[x] == old(users)[x]
      ensures id in users ==>
                && users[id].resetToken == tok && users[id].resetExpires == Some(now + 3600) && !users[id].resetUsed
                && users[id].passwordHash == old(users)[id].passwordHash
                && users[id].passwordChangedAt == old(users)[id].passwordChangedAt
      ensures users == ForgotEffect(old(users), id, now)
      ensures tok == if id in old(users) then Some(ResetToken(id, now)) else None
    {
      if id !in users { return None; }
      tok := Some(ResetToken(id, now));
      users := users[id := users[id].(resetToken := tok, resetExpires := Some(now + RESET_TTL), resetUsed := false)];
    }

    method ResetPassword(tok: ResetToken, newHash: string, strong: bool, now: int) returns (r: Result<User, Failure>)
      modifies this
      ensures users.Keys == old(users).Keys && forall x | x in users && x != tok.sub :: users[x] == old(users)[x]
      ensures r.Err? ==> users == old(users)
      ensures r == Err(WeakPassword) <==> !strong
      ensures r == Err(BadToken) <==> strong && tok.iat + 3600 + 30 < now
      ensures r == Err(UserNotFound) <==> strong && now <= tok.iat + 3600 + 30 && tok.sub !in old(users)
      ensures var known := strong && now <= tok.iat + 3600 + 30 && tok.sub in old(users);
              && (r == Err(NoResetPending) <==> known && old(users)[tok.sub].resetToken.None?)
              && (r == Err(TokenMismatch) <==> known && old(users)[tok.sub].resetToken.Some? && old(users)[tok.sub].resetToken.value != tok)
              && (r == Err(TokenExpired) <==> known && old(users)[tok.sub].resetToken == Some(tok) && Lapsed(old(users)[tok.sub], now))
              && (r == Err(TokenUsed) <==> && known && old(users)[tok.sub].resetToken == Some(tok)
                                           && !Lapsed(old(users)[tok.sub], now) && old(users)[tok.sub].resetUsed)
      ensures r.Ok? <==>
                && strong && now <= tok.iat + 3600 + 30 && tok.sub in old(users)
                && old(users)[tok.sub].resetToken == Some(tok) && !old(users)[tok.sub].resetUsed
                && !Lapsed(old(users)[tok.sub], now)
      ensures r.Ok? ==> r.value == old(users)[tok.sub]
      ensures r.Ok? ==>
                && users[tok.sub].passwordHash == newHash && users[tok.sub].passwordChangedAt == Some(now)
                && users[tok.sub].resetToken.None? && users[tok.sub].resetExpires.None? && users[tok.sub].resetUsed
                && forall iat :: RefreshAccepted(users[tok.sub], iat) <==> now <= iat
      ensures r == ResetVerdict(old(users), tok, strong, now)
      ensures users == ResetEffect(old(users), tok, newHash, strong, now)
    {
      if !strong { return Err(WeakPassword); }
      if now > tok.iat + RESET_TTL + LEEWAY { return Err(BadToken); }
      if tok.sub !in users { return Err(UserNotFound); }
      var u := users[tok.sub];
      if u.resetToken.None? { return Err(NoResetPending); }
      if u.resetToken.value != tok { return Err(TokenMismatch); }
      var expires := if u.resetExpires.Some? then u.resetExpires.value else 0;
      if now > expires { return Err(TokenExpired); }
      if u.resetUsed { return Err(TokenUsed); }
      users := users[tok.sub := User(newHash, None, None, true, Some(now))];
      r := Ok(u);
    }
  }

  // ----- comparing hashes -----

  /** `constant_time_eq`: accumulate the differences of all bytes, without stopping early. */
  function Differences(a: seq<bv8>, b: seq<bv8>, acc: bv8): bv8
    requires |a| == |b|
  {
    if a == [] then acc else Differences(a[1..], b[1..], acc | (a[0] ^ b[0]))
  }

  predicate ConstantTimeEq(a: seq<bv8>, b: seq<bv8>) {
    |a| == |b| && Differences(a, b, 0) == 0
  }

  lemma NoDifference(acc: bv8, x: bv8, y: bv8)
    ensures acc | (x ^ y) == 0 <==> acc == 0 && x == y
  {
  }

  lemma {:induction false} DifferencesZero(a: seq<bv8>, b: seq<bv8>, acc: bv8)
    requires |a| == |b|
    ensures Differences(a, b, acc) == 0 <==> acc == 0 && a == b
  {
    if a != [] {
      var acc' := acc | (a[0] ^ b[0]);
      NoDifference(acc, a[0], b[0]);
      DifferencesZero(a[1..], b[1..], acc');
      HeadAndTail(a, b);
    }
  }

  lemma HeadAndTail(a: seq<bv8>, b: seq<bv8>)
    requires |a| == |b| > 0
    ensures a == b <==> a[0] == b[0] && a[1..] == b[1..]
  {
    assert a == [a[0]] + a[1..] && b == [b[0]] + b[1..];
  }

  /** It decides equality, which is what `ResetVerdict` uses. */
  lemma ConstantTimeEqIsEquality(a: seq<bv8>, b: seq<bv8>)
    ensures ConstantTimeEq(a, b) <==> a == b
  {
    if |a| == |b| { DifferencesZero(a, b, 0); }
  }

  // ----- runs -----

  datatype Request =
    | Register(id: UserId, hash: string, at: int)
    | Forgot(id: UserId, at: int)
    | Reset(tok: ResetToken, newHash: string, strong: bool, at: int)

  function Apply(users: Users, q: Request): Users {
    match q
    case Register(id, hash, _) => if id in users then users else users[id := User(hash, None, None, false, None)]
    case Forgot(id, at) => ForgotEffect(users, id, at)
    case Reset(tok, newHash, strong, at) => ResetEffect(users, tok, newHash, strong, at)
  }

  function After(qs: seq<Request>): Users {
    if qs == [] then map[] else Apply(After(qs[..|qs| - 1]), qs[|qs| - 1])
  }

  ghost predicate InOrder(qs: seq<Request>) {
    forall i, j | 0 <= i < j < |qs| :: qs[i].at <= qs[j].at
  }

  predicate Issues(users: Users, q: Request, id: UserId) {
    q.Forgot? && q.id == id && id in users
  }

  predicate Resets(users: Users, q: Request, id: UserId) {
    q.Reset? && q.tok.sub == id && ResetVerdict(users, q.tok, q.strong, q.at).Ok?
  }

  /** The reset tokens issued to the user, in order. */
  function Issued(qs: seq<Request>, id: UserId): seq<ResetToken> {
    if qs == [] then []
    else
      var n := |qs| - 1;
      Issued(qs[..n], id) + if Issues(After(qs[..n]), qs[n], id) then [ResetToken(id, qs[n].at)] else []
  }

  /** How often the user's password has been reset. */
  function ResetCount(qs: seq<Request>, id: UserId): nat {
    if qs == [] then 0
    else
      var n := |qs| - 1;
      ResetCount(qs[..n], id) + if Resets(After(qs[..n]), qs[n], id) then 1 else 0
  }

  // ----- resets never outnumber issuances, and use the latest token -----

  lemma {:induction false} PendingIsLatest(qs: seq<Request>, id: UserId)
    ensures id in After(qs) && After(qs)[id].resetToken.Some? ==>
              Issued(qs, id) != [] && After(qs)[id].resetToken.value == Issued(qs, id)[|Issued(qs, id)| - 1]
    ensures ResetCount(qs, id) + (if id in After(qs) && After(qs)[id].resetToken.Some? then 1 else 0) <= |Issued(qs, id)|
    ensures id !in After(qs) ==> ResetCount(qs, id) == 0
  {
    if qs != [] {
      PendingIsLatest(qs[..|qs| - 1], id);
    }
  }

  lemma ResetsNeedIssuances(qs: seq<Request>, id: UserId)
    ensures ResetCount(qs, id) <= |Issued(qs, id)|
  {
    PendingIsLatest(qs, id);
  }

  /** A reset succeeds only with the token issued last. */
  lemma OnlyLatestTokenWorks(qs: seq<Request>, tok: ResetToken, strong: bool, now: int)
    requires ResetVerdict(After(qs), tok, strong, now).Ok?
    ensures Issued(qs, tok.sub) != [] && tok == Issued(qs, tok.sub)[|Issued(qs, tok.sub)| - 1]
  {
    PendingIsLatest(qs, tok.sub);
  }

  /** And it does not succeed a second time, until a new one is issued. */
  lemma {:induction false} TokenDiesWithReset(qs: seq<Request>, later: seq<Request>, id: UserId)
    requires qs != [] && Resets(After(qs[..|qs| - 1]), qs[|qs| - 1], id)
    requires forall i | 0 <= i < |later| :: !(later[i].Forgot? && later[i].id == id)
    ensures id in After(qs + later) && After(qs + later)[id].resetToken.None?
    ensures ResetCount(qs + later, id) == ResetCount(qs, id)
  {
    if later == [] {
      assert qs + later == qs;
    } else {
      var n := |later| - 1;
      TokenDiesWithReset(qs, later[..n], id);
      assert (qs + later)[..|qs + later| - 1] == qs + later[..n];
    }
  }

  // ----- a reset cuts older sessions off for good -----

  /** After a reset at time P, in every later state each refresh token that is still accepted was issued at P or later. */
  lemma {:induction false} ResetCutsSessions(qs: seq<Request>, later: seq<Request>, id: UserId, iat: int)
    requires qs != [] && InOrder(qs + later) && Resets(After(qs[..|qs| - 1]), qs[|qs| - 1], id)
    ensures id in After(qs + later)
    ensures After(qs + later)[id].passwordChangedAt.Some? && After(qs + later)[id].passwordChangedAt.value >= qs[|qs| - 1].at
    ensures RefreshAccepted(After(qs + later)[id], iat) ==> iat >= qs[|qs| - 1].at
  {
    if later == [] {
      assert qs + later == qs;
    } else {
      var n := |later| - 1;
      var all := qs + later;
      var most := qs + later[..n];
      assert all[..|all| - 1] == most;
      assert all[|qs| - 1] == qs[|qs| - 1] && all[|all| - 1] == later[n];
      assert InOrder(most) by {
        assert forall i | 0 <= i < |most| :: most[i] == all[i];
      }
      ResetCutsSessions(qs, later[..n], id, iat);
      ChangeTimeGrows(After(most), later[n], id, qs[|qs| - 1].at);
    }
  }

  lemma ChangeTimeGrows(users: Users, q: Request, id: UserId, since: int)
    requires id in users && users[id].passwordChangedAt.Some? && users[id].passwordChangedAt.value >= since && q.at >= since
    ensures id in Apply(users, q)
    ensures Apply(users, q)[id].passwordChangedAt.Some? && Apply(users, q)[id].passwordChangedAt.value >= since
  {
  }
}
