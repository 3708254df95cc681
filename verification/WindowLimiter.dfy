/** The in-memory limiter: per address, a request count and the start of its window. */
module WindowLimiter {
  import opened Wrappers

  type Address = nat

  datatype Entry = Entry(count: nat, start: int)

  type Entries = map<Address, Entry>

  datatype Limits = Limits(max: nat, window: nat)

  /** `duration_since` never goes below zero. */
  function Since(now: int, start: int): nat {
    if now < start then 0 else now - start
  }

  /** The entry that `check` leaves behind: inserted, restarted or counted up. */
  function Bump(l: Limits, m: Entries, ip: Address, now: int): Entry {
    var e := if ip in m then m[ip] else Entry(0, now);
    if Since(now, e.start) >= l.window then Entry(1, now) else Entry(e.count + 1, e.start)
  }

  function CleanupEntries(l: Limits, m: Entries, now: int): Entries {
    map ip | ip in m && Since(now, m[ip].start) < l.window :: m[ip]
  }

  class RateLimiter {
    var state: Entries
    const limits: Limits

    constructor (max: nat, window: nat)
      ensures state == map[] && limits == Limits(max, window)
    {
      state := map[];
      limits := Limits(max, window);
    }

    method Check(ip: Address, now: int) returns (allowed: bool)
      modifies this
      ensures state.Keys == old(state).Keys + {ip} && forall x | x in old(state) && x != ip :: state[x] == old(state)[x]
      ensures if ip in old(state) && limits.window > 0 && now < old(state)[ip].start + limits.window
              then state[ip].start == old(state)[ip].start && state[ip].count == old(state)[ip].count + 1
              else state[ip].start == now && state[ip].count == 1
      ensures allowed <==> state[ip].count <= limits.max
      ensures state[ip] == Bump(limits, old(state), ip, now)
    {
      var count, start := 0, now;
      if ip in state { count, start := state[ip].count, state[ip].start; }
      if Since(now, start) >= limits.window {
        count := 0;
        start := now;
      }
      count := count + 1;
      state := state[ip := Entry(count, start)];
      allowed := count <= limits.max;
    }

    /** Drops the entries whose window has passed: a check that reads the clock at `now` or later cannot tell. */
    method Cleanup(now: int)
      modifies this
      ensures forall ip :: ip in state <==> ip in old(state) && limits.window > 0 && now < old(state)[ip].start + limits.window
      ensures forall ip | ip in state :: state[ip] == old(state)[ip]
      ensures forall ip, t | now <= t :: Bump(limits, state, ip, t) == Bump(limits, old(state), ip, t)
    {
      state := CleanupEntries(limits, state, now);
    }
  }

  // ----- whole runs -----

  datatype Op = Check(ip: Address, at: int) | Cleanup(at: int)

  function Do(l: Limits, m: Entries, op: Op): Entries {
    match op
    case Check(ip, at) => m[ip := Bump(l, m, ip, at)]
    case Cleanup(at) => CleanupEntries(l, m, at)
  }

  /** The answers of the checks in a sequence of operations, each with its address and time. */
  datatype Answer = Answer(ip: Address, at: int, allowed: bool)

  function Answers(l: Limits, m: Entries, ops: seq<Op>): seq<Answer>
    decreases ops
  {
    if ops == [] then []
    else (if ops[0].Check? then [Answer(ops[0].ip, ops[0].at, Bump(l, m, ops[0].ip, ops[0].at).count <= l.max)] else [])
         + Answers(l, Do(l, m, ops[0]), ops[1..])
  }

  function WithoutCleanups(ops: seq<Op>): seq<Op> {
    if ops == [] then [] else (if ops[0].Cleanup? then [] else [ops[0]]) + WithoutCleanups(ops[1..])
  }

  // ----- cleanup cannot be observed -----

  /** No check reads the clock behind an earlier cleanup. */
  ghost predicate KeepsUp(ops: seq<Op>) {
    forall i, j | 0 <= i < j < |ops| && ops[i].Cleanup? && ops[j].Check? :: ops[i].at <= ops[j].at
  }

  /** `m` lacks only entries of `m'` that every check still to come would restart. */
  ghost predicate LacksOnlyPassed(l: Limits, m: Entries, m': Entries, ops: seq<Op>) {
    && (forall ip | ip in m :: ip in m' && m[ip] == m'[ip])
    && (forall ip, j | ip in m' && ip !in m && 0 <= j < |ops| && ops[j].Check? && ops[j].ip == ip ::
          Since(ops[j].at, m'[ip].start) >= l.window)
  }

  lemma CleanupLacksOnlyPassed(l: Limits, m: Entries, m': Entries, ops: seq<Op>)
    requires ops != [] && ops[0].Cleanup? && LacksOnlyPassed(l, m, m', ops) && KeepsUp(ops)
    ensures LacksOnlyPassed(l, Do(l, m, ops[0]), m', ops[1..])
  {
    var rest, kept := ops[1..], Do(l, m, ops[0]);
    forall ip, j | ip in m' && ip !in kept && 0 <= j < |rest| && rest[j].Check? && rest[j].ip == ip
      ensures Since(rest[j].at, m'[ip].start) >= l.window
    {
      assert rest[j] == ops[j + 1];
    }
  }

  lemma {:induction false} UnseenAnswers(l: Limits, m: Entries, m': Entries, ops: seq<Op>)
    requires LacksOnlyPassed(l, m, m', ops) && KeepsUp(ops)
    ensures Answers(l, m, ops) == Answers(l, m', WithoutCleanups(ops))
    decreases ops
  {
    if ops != [] {
      var op, rest := ops[0], WithoutCleanups(ops[1..]);
      assert KeepsUp(ops[1..]);
      if op.Cleanup? {
        CleanupLacksOnlyPassed(l, m, m', ops);
        UnseenAnswers(l, Do(l, m, op), m', ops[1..]);
        assert WithoutCleanups(ops) == rest;
        assert Answers(l, m, ops) == Answers(l, Do(l, m, op), ops[1..]);
      } else {
        assert Bump(l, m, op.ip, op.at) == Bump(l, m', op.ip, op.at);
        assert LacksOnlyPassed(l, Do(l, m, op), Do(l, m', op), ops[1..]);
        UnseenAnswers(l, Do(l, m, op), Do(l, m', op), ops[1..]);
        assert WithoutCleanups(ops) == [op] + rest;
        assert WithoutCleanups(ops)[1..] == rest;
      }
    }
  }

  /** Deleting every cleanup from a run changes no answer, in whatever order the checks read the clock. */
  lemma CleanupIsInvisible(l: Limits, m: Entries, ops: seq<Op>)
    requires KeepsUp(ops)
    ensures Answers(l, m, ops) == Answers(l, m, WithoutCleanups(ops))
  {
    UnseenAnswers(l, m, m, ops);
  }

  lemma OneAnswer(l: Limits, m: Entries, ip: Address, at: int)
    ensures Answers(l, m, [Check(ip, at)]) == [Answer(ip, at, Bump(l, m, ip, at).count <= l.max)]
  {
    assert [Check(ip, at)][1..] == [];
  }

  /** One cleanup and one check: some state shows the cleanup exactly when the check reads an earlier time. */
  lemma CleanupVisibleIffBehind(l: Limits, ip: Address, cleaned: int, checked: int)
    requires l.window > 0 && l.max > 0
    ensures var ops := [Cleanup(cleaned), Check(ip, checked)];
            (exists m :: Answers(l, m, ops) != Answers(l, m, WithoutCleanups(ops))) <==> checked < cleaned
  {
    var ops := [Cleanup(cleaned), Check(ip, checked)];
    if checked < cleaned {
      var m := map[ip := Entry(l.max, cleaned - l.window)];
      assert ops[1..] == [Check(ip, checked)] && WithoutCleanups([Check(ip, checked)]) == [Check(ip, checked)];
      assert WithoutCleanups(ops) == [Check(ip, checked)];
      OneAnswer(l, m, ip, checked);
      OneAnswer(l, CleanupEntries(l, m, cleaned), ip, checked);
      assert Answers(l, m, ops) == Answers(l, CleanupEntries(l, m, cleaned), ops[1..]);
      assert Answers(l, m, ops)[0].allowed && !Answers(l, m, WithoutCleanups(ops))[0].allowed;
    } else {
      forall m ensures Answers(l, m, ops) == Answers(l, m, WithoutCleanups(ops)) {
        CleanupIsInvisible(l, m, ops);
      }
    }
  }

  // ----- how much gets through -----

  /** Requests of one address admitted in the closed interval from `a` to `b`. */
  function Admitted(answers: seq<Answer>, ip: Address, a: int, b: int): nat {
    if answers == [] then 0
    else (if answers[0].ip == ip && answers[0].allowed && a <= answers[0].at <= b then 1 else 0) + Admitted(answers[1..], ip, a, b)
  }

  /**
   Threads read the clock before they reach the map, so the readings need not be
   in order: none lies more than `lag` behind an earlier one.
   */
  ghost predicate Within(lag: nat, ops: seq<Op>) {
    forall i, j | 0 <= i < j < |ops| :: ops[i].at - lag <= ops[j].at
  }

  /** How many windows of one address can have admissions in a closed interval of one window's length. */
  function Windows(l: Limits, lag: nat): nat
    requires lag < l.window
  {
    (2 * l.window + lag - 1) / (l.window - lag) + 1
  }

  /** What the proof remembers of an address: the start of its last window, how many windows reach into the interval, and the admissions there. */
  datatype Tally = Tally(last: Option<int>, windows: nat, admitted: nat)

  ghost predicate Fits(l: Limits, lag: nat, m: Entries, ip: Address, peak: int, a: int, g: Tally)
    requires lag < l.window
  {
    && (ip in m ==> g.last == Some(m[ip].start) && m[ip].count >= 1)
    && (g.last.None? ==> g.windows == 0)
    && (g.last.Some? ==>
          && g.last.value <= peak
          && (ip !in m ==> g.last.value + l.window <= peak)
          && (g.windows > 0 <==> g.last.value > a - l.window)
          && (g.windows > 0 ==> g.last.value > a - l.window + (g.windows - 1) * (l.window - lag)))
    && g.admitted <= l.max * g.windows
    && (ip in m && g.windows > 0 ==> g.admitted <= l.max * (g.windows - 1) + Min(m[ip].count, l.max))
    && g.admitted <= l.max * Windows(l, lag)
  }

  /** The tally after a check of the address. */
  function Tallied(l: Limits, m: Entries, ip: Address, a: int, g: Tally, at: int): Tally {
    var e := Bump(l, m, ip, at);
    Tally(Some(e.start),
          if e.count == 1 && at > a - l.window then g.windows + 1 else g.windows,
          g.admitted + if e.count <= l.max && a <= at <= a + l.window then 1 else 0)
  }

  /** A new window starts a window length after the last, less the lag when a cleanup came between. */
  lemma NewWindow(l: Limits, lag: nat, m: Entries, ip: Address, peak: int, a: int, g: Tally, at: int)
    requires lag < l.window && Fits(l, lag, m, ip, peak, a, g) && peak - lag <= at && Bump(l, m, ip, at).count == 1
    ensures Bump(l, m, ip, at).start == at
    ensures g.windows > 0 ==> at > a - l.window + g.windows * (l.window - lag)
  {
    if g.windows > 0 {
      Stretch(g.windows, l.window - lag);
    }
  }

  lemma Stretch(w: nat, d: nat)
    requires w > 0
    ensures (w - 1) * d + d == w * d
  {
  }

  /** A window with an admission in the interval starts early enough for `Windows` to count it. */
  lemma CountedWindow(l: Limits, lag: nat, a: int, start: int, w: nat)
    requires lag < l.window && w > 0
    requires start > a - l.window + (w - 1) * (l.window - lag) && start <= a + l.window + lag
    ensures w <= Windows(l, lag) && l.max * w <= l.max * Windows(l, lag)
  {
    var d, x := l.window - lag, 2 * l.window + lag - 1;
    assert (w - 1) * d <= x;
    Quotient(w - 1, d, x);
    Grow(l.max, w, Windows(l, lag));
  }

  lemma Quotient(k: nat, d: nat, x: nat)
    requires d > 0 && k * d <= x
    ensures k <= x / d
  {
    if k > x / d {
      Grow(d, x / d + 1, k);
    }
  }

  lemma Grow(c: nat, x: nat, y: nat)
    requires x <= y
    ensures c * x <= c * y
  {
    assert c * y == c * x + c * (y - x);
  }

  lemma TallyCheck(l: Limits, lag: nat, m: Entries, ip: Address, peak: int, a: int, g: Tally, at: int)
    requires lag < l.window && Fits(l, lag, m, ip, peak, a, g) && peak - lag <= at
    ensures Fits(l, lag, m[ip := Bump(l, m, ip, at)], ip, Max(peak, at), a, Tallied(l, m, ip, a, g, at))
  {
    var e, g' := Bump(l, m, ip, at), Tallied(l, m, ip, a, g, at);
    if e.count == 1 {
      NewWindow(l, lag, m, ip, peak, a, g, at);
    }
    TallyCounts(l, lag, m, ip, peak, a, g, at);
    if g'.admitted > g.admitted {
      CountedWindow(l, lag, a, e.start, g'.windows);
    }
  }

  lemma Product(c: nat, w: nat)
    requires w > 0
    ensures c * w == c * (w - 1) + c
  {
  }

  lemma TallyCounts(l: Limits, lag: nat, m: Entries, ip: Address, peak: int, a: int, g: Tally, at: int)
    requires lag < l.window && Fits(l, lag, m, ip, peak, a, g) && peak - lag <= at
    ensures var e, g' := Bump(l, m, ip, at), Tallied(l, m, ip, a, g, at);
            && g'.admitted <= l.max * g'.windows
            && (g'.windows > 0 ==> g'.admitted <= l.max * (g'.windows - 1) + Min(e.count, l.max))
  {
    var e, g' := Bump(l, m, ip, at), Tallied(l, m, ip, a, g, at);
    if g'.windows > 0 {
      Product(l.max, g'.windows);
      if e.count == 1 {
        NewWindow(l, lag, m, ip, peak, a, g, at);
      }
    }
  }

  /** The tally after any operation. */
  function TalliedBy(l: Limits, m: Entries, ip: Address, a: int, g: Tally, op: Op): Tally {
    if op.Check? && op.ip == ip then Tallied(l, m, ip, a, g, op.at) else g
  }

  lemma TallyStep(l: Limits, lag: nat, m: Entries, ip: Address, peak: int, a: int, g: Tally, op: Op)
    requires lag < l.window && Fits(l, lag, m, ip, peak, a, g) && peak - lag <= op.at
    ensures Fits(l, lag, Do(l, m, op), ip, Max(peak, op.at), a, TalliedBy(l, m, ip, a, g, op))
  {
    if op.Check? && op.ip == ip {
      TallyCheck(l, lag, m, ip, peak, a, g, op.at);
    }
  }

  lemma {:induction false} TallyAll(l: Limits, lag: nat, m: Entries, ip: Address, peak: int, a: int, g: Tally, ops: seq<Op>)
    requires lag < l.window && Fits(l, lag, m, ip, peak, a, g) && Within(lag, ops)
    requires forall j | 0 <= j < |ops| :: peak - lag <= ops[j].at
    ensures g.admitted + Admitted(Answers(l, m, ops), ip, a, a + l.window) <= l.max * Windows(l, lag)
    decreases ops
  {
    if ops != [] {
      var op, m' := ops[0], Do(l, m, ops[0]);
      TallyStep(l, lag, m, ip, peak, a, g, op);
      assert Within(lag, ops[1..]);
      TallyAll(l, lag, m', ip, Max(peak, op.at), a, TalliedBy(l, m, ip, a, g, op), ops[1..]);
      FirstAnswer(l, m, ops, ip, a, g);
    }
  }

  lemma FirstAnswer(l: Limits, m: Entries, ops: seq<Op>, ip: Address, a: int, g: Tally)
    requires ops != []
    ensures g.admitted + Admitted(Answers(l, m, ops), ip, a, a + l.window)
            == TalliedBy(l, m, ip, a, g, ops[0]).admitted + Admitted(Answers(l, Do(l, m, ops[0]), ops[1..]), ip, a, a + l.window)
  {
    if ops[0].Check? {
      assert Answers(l, m, ops)[1..] == Answers(l, Do(l, m, ops[0]), ops[1..]);
    } else {
      assert Answers(l, m, ops) == Answers(l, Do(l, m, ops[0]), ops[1..]);
    }
  }

  /** Checks and cleanups whose readings overtake each other by at most `lag` admit no more than `Windows` times the limit. */
  lemma AdmittedPerWindow(l: Limits, lag: nat, ops: seq<Op>, ip: Address, a: int)
    requires lag < l.window && Within(lag, ops)
    ensures Admitted(Answers(l, map[], ops), ip, a, a + l.window) <= l.max * Windows(l, lag)
  {
    if ops != [] {
      TallyAll(l, lag, map[], ip, ops[0].at, a, Tally(None, 0, 0), ops);
    }
  }

  /** In clock order, any sequence of checks and cleanups admits at most twice the limit in any closed interval of one window. */
  lemma AtMostTwiceTheLimit(l: Limits, ops: seq<Op>, ip: Address, a: int)
    requires l.window > 0 && forall i, j | 0 <= i < j < |ops| :: ops[i].at <= ops[j].at
    ensures Admitted(Answers(l, map[], ops), ip, a, a + l.window) <= 2 * l.max
  {
    AdmittedPerWindow(l, 0, ops, ip, a);
    InOrderTwo(l);
  }

  lemma InOrderTwo(l: Limits)
    requires l.window > 0
    ensures Windows(l, 0) == 2 && l.max * Windows(l, 0) == 2 * l.max
  {
  }

  /** `n` checks of one address at one time, followed by `rest`. */
  function Burst(ip: Address, at: int, n: nat, rest: seq<Op>): seq<Op> {
    if n == 0 then rest else [Check(ip, at)] + Burst(ip, at, n - 1, rest)
  }

  /** One admitted check counts once and leaves its entry. */
  lemma OneAdmitted(l: Limits, m: Entries, ip: Address, at: int, rest: seq<Op>, a: int)
    requires a <= at <= a + l.window && Bump(l, m, ip, at).count <= l.max
    ensures Admitted(Answers(l, m, [Check(ip, at)] + rest), ip, a, a + l.window)
            == 1 + Admitted(Answers(l, m[ip := Bump(l, m, ip, at)], rest), ip, a, a + l.window)
  {
    var ops := [Check(ip, at)] + rest;
    assert ops[1..] == rest;
    assert Answers(l, m, ops)[1..] == Answers(l, Do(l, m, ops[0]), rest);
  }

  /** A burst within a recorded window and within the limit is admitted. */
  lemma {:induction false} BurstAdmitted(l: Limits, m: Entries, ip: Address, at: int, n: nat, rest: seq<Op>, a: int)
    requires ip in m && Since(at, m[ip].start) < l.window && m[ip].count + n <= l.max && a <= at <= a + l.window
    ensures Admitted(Answers(l, m, Burst(ip, at, n, rest)), ip, a, a + l.window)
            == n + Admitted(Answers(l, m[ip := Entry(m[ip].count + n, m[ip].start)], rest), ip, a, a + l.window)
    decreases n
  {
    if n == 0 {
      assert m[ip := Entry(m[ip].count, m[ip].start)] == m;
    } else {
      var m' := m[ip := Bump(l, m, ip, at)];
      OneAdmitted(l, m, ip, at, Burst(ip, at, n - 1, rest), a);
      BurstAdmitted(l, m', ip, at, n - 1, rest, a);
      Overwritten(m, ip, m'[ip], Entry(m[ip].count + n, m[ip].start));
    }
  }

  lemma FirstOfWindow(l: Limits, m: Entries, ip: Address, at: int)
    requires l.window > 0 && (ip in m ==> Since(at, m[ip].start) >= l.window)
    ensures Bump(l, m, ip, at) == Entry(1, at)
  {
  }

  lemma Overwritten(m: Entries, ip: Address, x: Entry, y: Entry)
    ensures m[ip := x][ip := y] == m[ip := y]
  {
  }

  lemma BurstAfterFirst(l: Limits, m: Entries, ip: Address, at: int, n: nat, rest: seq<Op>, a: int)
    requires l.window > 0 && 1 + n <= l.max && Bump(l, m, ip, at) == Entry(1, at) && a <= at <= a + l.window
    ensures Admitted(Answers(l, m, Burst(ip, at, n + 1, rest)), ip, a, a + l.window)
            == 1 + n + Admitted(Answers(l, m[ip := Entry(1 + n, at)], rest), ip, a, a + l.window)
  {
    OneAdmitted(l, m, ip, at, Burst(ip, at, n, rest), a);
    BurstAdmitted(l, m[ip := Entry(1, at)], ip, at, n, rest, a);
    Overwritten(m, ip, Entry(1, at), Entry(1 + n, at));
  }

  /** A burst that starts a window of its own. */
  lemma WindowAdmitted(l: Limits, m: Entries, ip: Address, at: int, rest: seq<Op>, a: int)
    requires l.window > 0 && l.max > 0 && (ip in m ==> Since(at, m[ip].start) >= l.window) && a <= at <= a + l.window
    ensures Admitted(Answers(l, m, Burst(ip, at, l.max, rest)), ip, a, a + l.window)
            == l.max + Admitted(Answers(l, m[ip := Entry(l.max, at)], rest), ip, a, a + l.window)
  {
    FirstOfWindow(l, m, ip, at);
    BurstAfterFirst(l, m, ip, at, l.max - 1, rest, a);
  }

  /** Twice the limit is attained for every limit, window, address and time: one burst at each end of the interval. */
  lemma TwiceTheLimitIsAttained(l: Limits, ip: Address, a: int)
    requires l.window > 0 && l.max > 0
    ensures Admitted(Answers(l, map[], Burst(ip, a, l.max, Burst(ip, a + l.window, l.max, []))), ip, a, a + l.window) == 2 * l.max
  {
    var second := Burst(ip, a + l.window, l.max, []);
    WindowAdmitted(l, map[], ip, a, second, a);
    var m := map[ip := Entry(l.max, a)];
    assert map[][ip := Entry(l.max, a)] == m;
    WindowAdmitted(l, m, ip, a + l.window, [], a);
  }

  /** Within one recorded window the admissions and the count together stay at the limit. */
  lemma {:induction false} AtMostLimitPerWindow(l: Limits, m: Entries, ip: Address, ops: seq<Op>, a: int, b: int)
    requires ip in m
    requires forall i | 0 <= i < |ops| :: ops[i].Check? && (ops[i].ip == ip ==> Since(ops[i].at, m[ip].start) < l.window)
    ensures Admitted(Answers(l, m, ops), ip, a, b) + Min(m[ip].count, l.max) <= l.max
    decreases ops
  {
    if ops != [] {
      AtMostLimitPerWindow(l, Do(l, m, ops[0]), ip, ops[1..], a, b);
      assert Answers(l, m, ops)[1..] == Answers(l, Do(l, m, ops[0]), ops[1..]);
    }
  }

  /** A zero window limits nothing: every check restarts it, so any number of requests at one instant passes. */
  lemma {:induction false} ZeroWindowAdmitsAll(l: Limits, m: Entries, ip: Address, at: int, n: nat)
    requires l.window == 0 && l.max > 0
    ensures Admitted(Answers(l, m, seq(n, _ => Check(ip, at))), ip, at, at) == n
    decreases n
  {
    if n > 0 {
      var ops := seq(n, _ => Check(ip, at));
      assert ops[1..] == seq(n - 1, _ => Check(ip, at));
      ZeroWindowAdmitsAll(l, Do(l, m, ops[0]), ip, at, n - 1);
      assert Answers(l, m, ops)[1..] == Answers(l, Do(l, m, ops[0]), ops[1..]);
    }
  }
}
