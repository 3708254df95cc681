/** `refresh` and `logout` as they run when nothing interrupts them. */
module RefreshHandler {
  import opened Wrappers
  import opened Revocation
  import opened RefreshMachine

  datatype Refusal = AlreadyRotating | NotVerified | TokenRevoked | UserNotFound | UserDisabled | PasswordChanged

  /** The clock as one refresh reads it: to verify, to check, to issue and to revoke. */
  datatype Readings = Readings(verify: int, check: int, issue: int, revoke: int)

  /** What `refresh` looks at in the user record. */
  datatype Account = Account(disabled: bool, passwordChangedAt: Option<int>)

  /** An unexpired row of the token is in the table. */
  ghost predicate Listed(entries: Entries, tok: Token, now: int) { tok in entries && now < entries[tok] }

  /** The password was changed after the token was issued. */
  ghost predicate Outdated(user: Account, tok: Token)
    requires tok.Signed?
  {
    user.passwordChangedAt.Some? && tok.iat < user.passwordChangedAt.value
  }

  /**
   Each refusal has its own guard, behind those of the refusals before it, and
   leaves no trace.  The returned token is good until a revocation row of it lapses: its own old
   row if it has one, or, when it was issued in the very second of the old token
   and so is the old token, the row this call has just written.
   */
  method Refresh(c: Config, store: RevocationStore, request: nat, tok: Token, user: Option<Account>, at: Readings)
    returns (r: Result<Token, Refusal>)
    modifies store
    ensures store.locks == old(store.locks)
    ensures r == Err(AlreadyRotating) <==> c.lockKey(tok) in old(store.locks)
    ensures r == Err(NotVerified) <==> c.lockKey(tok) !in old(store.locks) && (tok.Garbage? || tok.exp + 30 < at.verify)
    ensures var checked := c.lockKey(tok) !in old(store.locks) && tok.Signed? && at.verify <= tok.exp + 30;
            var live := checked && !Listed(old(store.entries), tok, at.check);
            && (r == Err(TokenRevoked) <==> checked && !live)
            && (r == Err(UserNotFound) <==> live && user.None?)
            && (r == Err(UserDisabled) <==> live && user.Some? && user.value.disabled)
            && (r == Err(PasswordChanged) <==> live && user.Some? && !user.value.disabled && Outdated(user.value, tok))
            && (r.Ok? <==> live && user.Some? && !user.value.disabled && !Outdated(user.value, tok))
    ensures r.Err? ==> store.entries == old(store.entries)
    ensures r.Ok? ==> tok.Signed? && r.value == Signed(tok.sub, at.issue, at.issue + c.ttl)
    ensures r.Ok? ==> forall t :: Revoked(store.entries, tok, t) <==> t < at.revoke + c.ttl
    ensures r.Ok? ==> forall x, t | x != tok :: Revoked(store.entries, x, t) <==> Revoked(old(store.entries), x, t)
    ensures r.Ok? ==> forall t :: Revoked(store.entries, r.value, t) <==>
                        if tok.iat == at.issue && tok.exp == at.issue + c.ttl then t < at.revoke + c.ttl
                        else Revoked(old(store.entries), r.value, t)
  {
    var acquired := store.TryLock(c.lockKey(tok), request);
    if !acquired { return Err(AlreadyRotating); }
    if tok.Garbage? || tok.exp + LEEWAY < at.verify {
      r := Err(NotVerified);
    } else {
      var revoked := store.IsRevoked(tok, at.check);
      if revoked {
        r := Err(TokenRevoked);
      } else if user.None? {
        r := Err(UserNotFound);
      } else if user.value.disabled {
        r := Err(UserDisabled);
      } else if user.value.passwordChangedAt.Some? && tok.iat < user.value.passwordChangedAt.value {
        r := Err(PasswordChanged);
      } else {
        r := Ok(Signed(tok.sub, at.issue, at.issue + c.ttl));
        store.Revoke(tok, c.ttl, at.revoke);
      }
    }
    store.Unlock(c.lockKey(tok));
  }

  /** `logout` takes no lock and revokes whatever it is sent, a token or not; only an empty one is refused. */
  method Logout(c: Config, store: RevocationStore, tok: Token, now: int) returns (ok: bool)
    modifies store
    ensures store.locks == old(store.locks)
    ensures ok <==> tok != Garbage("")
    ensures !ok ==> store.entries == old(store.entries)
    ensures ok ==> forall t :: Revoked(store.entries, tok, t) <==> t < now + c.ttl
    ensures ok ==> forall x, t | x != tok :: Revoked(store.entries, x, t) <==> Revoked(old(store.entries), x, t)
  {
    ok := tok != Garbage("");
    if ok { store.Revoke(tok, c.ttl, now); }
  }
}
