/**
 One-time OAuth state tokens.  A callback decodes the token, reads the clock,
 sweeps out expired nonces part by part (the concurrent map has one lock per
 shard) and removes its own nonce, each as a separate step that other callbacks
 and new authorizations may interleave with.
 */
module OAuthState {
  import opened Wrappers

  type Nonce = nat

  const STATE_TTL := 600

  class NonceMap {
    var nonces: map<Nonce, int>

    constructor ()
      ensures nonces == map[]
    {
      nonces := map[];
    }

    method Insert(nonce: Nonce, exp: int)
      modifies this
      ensures nonces == old(nonces)[nonce := exp]
    {
      nonces := nonces[nonce := exp];
    }

    method Retain(now: int)
      modifies this
      ensures nonces == Swept(old(nonces), old(nonces).Keys, now)
    {
      nonces := Swept(nonces, nonces.Keys, now);
    }

    method Remove(nonce: Nonce) returns (exp: Option<int>)
      modifies this
      ensures exp.Some? <==> nonce in old(nonces)
      ensures nonces == old(nonces) - {nonce}
    {
      exp := if nonce in nonces then Some(nonces[nonce]) else None;
      nonces := nonces - {nonce};
    }
  }

  /** The nonces left when those of `part` that expire by `now` are dropped. */
  function Swept(m: map<Nonce, int>, part: set<Nonce>, now: int): map<Nonce, int> {
    map x | x in m && !(x in part && m[x] <= now) :: m[x]
  }

  /** `issue_google_oauth_state` with a fresh nonce: it can be consumed until ten minutes from now. */
  method IssueState(store: NonceMap, nonce: Nonce, now: int)
    requires nonce !in store.nonces
    modifies store
    ensures nonce in store.nonces && store.nonces[nonce] == now + 600
    ensures forall x | x != nonce :: x in store.nonces <==> x in old(store.nonces)
    ensures forall x | x in old(store.nonces) :: store.nonces[x] == old(store.nonces)[x]
  {
    store.Insert(nonce, now + STATE_TTL);
  }

  /**
   `decode_google_oauth_state`, uninterrupted: a token with a good signature and
   type is accepted exactly when its nonce is there and unexpired.  The nonce is
   gone afterwards, together with every expired one.
   */
  method DecodeState(store: NonceMap, nonce: Nonce, genuine: bool, now: int) returns (ok: bool)
    modifies store
    ensures ok <==> genuine && nonce in old(store.nonces) && now < old(store.nonces)[nonce]
    ensures genuine ==> forall x :: x in store.nonces <==> x in old(store.nonces) && now < old(store.nonces)[x] && x != nonce
    ensures !genuine ==> store.nonces == old(store.nonces)
    ensures forall x | x in store.nonces :: x in old(store.nonces) && store.nonces[x] == old(store.nonces)[x]
  {
    if !genuine { return false; }
    store.Retain(now);
    var consumed := store.Remove(nonce);
    ok := consumed.Some?;
  }

  // ----- all interleavings -----

  datatype Phase =
    | Decoded(nonce: Nonce)
    | Sweeping(nonce: Nonce, readAt: int, past: bool)   // past: the sweep has reached its own nonce

  datatype Consumption = Consumption(nonce: Nonce, readAt: int)

  /** `issued` gives the `exp` claim of every token ever issued; `consumed` records the successful callbacks. */
  datatype State = State(
    now: int,
    nonces: map<Nonce, int>,
    callbacks: map<nat, Phase>,
    issued: map<Nonce, int>,
    consumed: seq<Consumption>)

  datatype Event =
    | Tick(now: int)
    | Issue(nonce: Nonce, iat: int)
    | Begin(r: nat, nonce: Nonce)
    | ReadClock(r: nat)
    | Sweep(r: nat, part: set<Nonce>)
    | Remove(r: nat)
    | Reject(r: nat)

  /** Nonces are fresh.  A callback carries an issued token; how late JWT validation lets it in does not matter. */
  predicate Enabled(s: State, e: Event) {
    match e
    case Tick(t) => s.now <= t
    case Issue(nonce, iat) => nonce !in s.issued && iat <= s.now
    case Begin(r, nonce) => r !in s.callbacks && nonce in s.issued
    case ReadClock(r) => r in s.callbacks && s.callbacks[r].Decoded?
    case Sweep(r, _) => r in s.callbacks && s.callbacks[r].Sweeping?
    case Remove(r) => r in s.callbacks && s.callbacks[r].Sweeping? && s.callbacks[r].past
    case Reject(r) => r in s.callbacks
  }

  function Apply(s: State, e: Event): State
    requires Enabled(s, e)
  {
    match e
    case Tick(t) => s.(now := t)
    case Issue(nonce, iat) => s.(nonces := s.nonces[nonce := iat + STATE_TTL], issued := s.issued[nonce := iat + STATE_TTL])
    case Begin(r, nonce) => s.(callbacks := s.callbacks[r := Decoded(nonce)])
    case ReadClock(r) => s.(callbacks := s.callbacks[r := Sweeping(s.callbacks[r].nonce, s.now, false)])
    case Sweep(r, part) =>
      var p := s.callbacks[r];
      s.(nonces := Swept(s.nonces, part, p.readAt), callbacks := s.callbacks[r := p.(past := p.past || p.nonce in part)])
    case Remove(r) =>
      var p := s.callbacks[r];
      s.(nonces := s.nonces - {p.nonce}, callbacks := s.callbacks - {r},
         consumed := if p.nonce in s.nonces then s.consumed + [Consumption(p.nonce, p.readAt)] else s.consumed)
    case Reject(r) => s.(callbacks := s.callbacks - {r})
  }

  ghost predicate Steps(s: State, e: Event, s': State) {
    Enabled(s, e) && s' == Apply(s, e)
  }

  ghost predicate Run(tr: seq<State>, evs: seq<Event>) {
    && |tr| == |evs| + 1
    && tr[0].nonces == map[] && tr[0].callbacks == map[] && tr[0].issued == map[] && tr[0].consumed == []
    && forall i :: 0 <= i < |evs| ==> Steps(tr[i], evs[i], tr[i + 1])
  }

  /** A callback whose sweep has passed its nonce sees it only while that is unexpired; a consumed nonce is gone for good. */
  ghost predicate Inv(s: State) {
    && (forall x | x in s.nonces :: x in s.issued && s.issued[x] == s.nonces[x])
    && (forall r | r in s.callbacks :: s.callbacks[r].nonce in s.issued)
    && (forall r | r in s.callbacks && s.callbacks[r].Sweeping? && s.callbacks[r].past && s.callbacks[r].nonce in s.nonces ::
          s.callbacks[r].readAt < s.nonces[s.callbacks[r].nonce])
    && (forall i | 0 <= i < |s.consumed| ::
          s.consumed[i].nonce !in s.nonces && s.consumed[i].nonce in s.issued && s.consumed[i].readAt < s.issued[s.consumed[i].nonce])
    && (forall i, j | 0 <= i < j < |s.consumed| :: s.consumed[i].nonce != s.consumed[j].nonce)
  }

  lemma InvStep(s: State, e: Event, s': State)
    requires Steps(s, e, s') && Inv(s)
    ensures Inv(s')
  {
  }

  lemma {:induction false} AlwaysInv(tr: seq<State>, evs: seq<Event>, n: nat)
    requires Run(tr, evs) && n <= |evs|
    ensures Inv(tr[n])
  {
    if n > 0 {
      AlwaysInv(tr, evs, n - 1);
      assert Steps(tr[n - 1], evs[n - 1], tr[n]);
      InvStep(tr[n - 1], evs[n - 1], tr[n]);
    }
  }

  /** A nonce was issued by an event, ten minutes before its `exp`. */
  lemma {:induction false} IssuedBy(tr: seq<State>, evs: seq<Event>, n: nat, nonce: Nonce) returns (m: nat)
    requires Run(tr, evs) && n <= |evs| && nonce in tr[n].issued
    ensures m < n && evs[m].Issue? && evs[m].nonce == nonce && tr[n].issued[nonce] == evs[m].iat + 600
  {
    assert n > 0 && Steps(tr[n - 1], evs[n - 1], tr[n]);
    if nonce in tr[n - 1].issued {
      m := IssuedBy(tr, evs, n - 1, nonce);
    } else {
      m := n - 1;
    }
  }

  /** Every state token is consumed at most once, and only by a callback that read a time within ten minutes of its issue. */
  lemma ConsumedOnceBeforeExpiry(tr: seq<State>, evs: seq<Event>, n: nat, i: nat, j: nat) returns (m: nat)
    requires Run(tr, evs) && n <= |evs| && i < |tr[n].consumed| && j < |tr[n].consumed|
    ensures m < n && evs[m].Issue? && evs[m].nonce == tr[n].consumed[i].nonce
    ensures tr[n].consumed[i].readAt < evs[m].iat + 600
    ensures tr[n].consumed[i].nonce == tr[n].consumed[j].nonce ==> i == j
  {
    AlwaysInv(tr, evs, n);
    m := IssuedBy(tr, evs, n, tr[n].consumed[i].nonce);
  }

  // ----- no token is lost -----

  ghost predicate Consumed(s: State, nonce: Nonce) {
    exists i | 0 <= i < |s.consumed| :: s.consumed[i].nonce == nonce
  }

  /** An issued nonce is there until it is consumed or expires, and sweeps run on past readings only. */
  ghost predicate Available(s: State) {
    && (forall x | x in s.issued :: x in s.nonces || Consumed(s, x) || s.issued[x] <= s.now)
    && (forall r | r in s.callbacks && s.callbacks[r].Sweeping? :: s.callbacks[r].readAt <= s.now)
  }

  lemma ConsumedStays(s: State, e: Event, s': State, x: Nonce)
    requires Steps(s, e, s') && Consumed(s, x)
    ensures Consumed(s', x)
  {
    var i :| 0 <= i < |s.consumed| && s.consumed[i].nonce == x;
    assert s'.consumed[i] == s.consumed[i];
  }

  lemma AvailableStep(s: State, e: Event, s': State)
    requires Steps(s, e, s') && Inv(s) && Available(s)
    ensures Available(s')
  {
    forall x | x in s'.issued
      ensures x in s'.nonces || Consumed(s', x) || s'.issued[x] <= s'.now
    {
      if Consumed(s, x) {
        ConsumedStays(s, e, s', x);
      } else if e.Remove? && s.callbacks[e.r].nonce == x && x in s.nonces {
        assert s'.consumed[|s.consumed|].nonce == x;
      }
    }
  }

  lemma {:induction false} AlwaysAvailable(tr: seq<State>, evs: seq<Event>, n: nat)
    requires Run(tr, evs) && n <= |evs|
    ensures Available(tr[n])
  {
    if n > 0 {
      AlwaysAvailable(tr, evs, n - 1);
      AlwaysInv(tr, evs, n - 1);
      assert Steps(tr[n - 1], evs[n - 1], tr[n]);
      AvailableStep(tr[n - 1], evs[n - 1], tr[n]);
    }
  }

  /** The events of a callback that nothing interrupts; its sweep takes the whole map. */
  function Callback(s: State, r: nat, nonce: Nonce): seq<Event> {
    [Begin(r, nonce), ReadClock(r), Sweep(r, s.nonces.Keys + {nonce}), Remove(r)]
  }

  ghost function AfterAll(s: State, evs: seq<Event>): Option<State>
    decreases evs
  {
    if evs == [] then Some(s)
    else if !Enabled(s, evs[0]) then None
    else AfterAll(Apply(s, evs[0]), evs[1..])
  }

  /** An uninterrupted callback goes through, and consumes its nonce exactly when that is there and unexpired. */
  lemma CallbackConsumes(s: State, r: nat, nonce: Nonce)
    requires r !in s.callbacks && nonce in s.issued
    ensures var s' := AfterAll(s, Callback(s, r, nonce));
            && s'.Some? && s'.value.callbacks == s.callbacks && nonce !in s'.value.nonces
            && s'.value.consumed == if nonce in s.nonces && s.now < s.nonces[nonce]
                                    then s.consumed + [Consumption(nonce, s.now)] else s.consumed
  {
    var s1 := Apply(s, Begin(r, nonce));
    var s2 := Apply(s1, ReadClock(r));
    var s3 := Apply(s2, Sweep(r, s.nonces.Keys + {nonce}));
    var s4 := Apply(s3, Remove(r));
    FourSteps(s, Begin(r, nonce), ReadClock(r), Sweep(r, s.nonces.Keys + {nonce}), Remove(r));
    assert s4.callbacks == s.callbacks;
  }

  lemma FourSteps(s: State, a: Event, b: Event, c: Event, d: Event)
    requires Enabled(s, a) && Enabled(Apply(s, a), b) && Enabled(Apply(Apply(s, a), b), c)
    requires Enabled(Apply(Apply(Apply(s, a), b), c), d)
    ensures AfterAll(s, [a, b, c, d]) == Some(Apply(Apply(Apply(Apply(s, a), b), c), d))
  {
    assert [a, b, c, d][1..] == [b, c, d] && [b, c, d][1..] == [c, d] && [c, d][1..] == [d] && [d][1..] == [];
    var s3 := Apply(Apply(Apply(s, a), b), c);
    assert AfterAll(s3, [d]) == Some(Apply(s3, d));
    assert AfterAll(Apply(Apply(s, a), b), [c, d]) == AfterAll(s3, [d]);
  }

  /** So in every run a state token that has not expired and was not consumed is accepted by an uninterrupted callback. */
  lemma NotLostBeforeExpiry(tr: seq<State>, evs: seq<Event>, n: nat, r: nat, nonce: Nonce)
    requires Run(tr, evs) && n <= |evs| && r !in tr[n].callbacks
    requires nonce in tr[n].issued && tr[n].now < tr[n].issued[nonce] && !Consumed(tr[n], nonce)
    ensures AfterAll(tr[n], Callback(tr[n], r, nonce)).Some?
    ensures AfterAll(tr[n], Callback(tr[n], r, nonce)).value.consumed == tr[n].consumed + [Consumption(nonce, tr[n].now)]
  {
    AlwaysAvailable(tr, evs, n);
    AlwaysInv(tr, evs, n);
    CallbackConsumes(tr[n], r, nonce);
  }
}
