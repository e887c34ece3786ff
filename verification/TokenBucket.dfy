/**
 The lazily refilled token bucket kept in a Redis hash.  `Step` is one call for
 one identifier; a run interleaves calls with expiries of the hash.  Times are
 milliseconds, tokens are reals.
 */
module TokenBucket {
  import opened Wrappers

  /** The stored hash and the instant its time-to-live ends. */
  datatype Bucket = Bucket(tokens: real, lastRefill: nat, expiresAt: nat)

  /** `resetAt` is None where the source computes an invalid date (a refill rate of zero). */
  datatype Verdict = Verdict(allowed: bool, remaining: int, resetAt: Option<int>)

  const KEY_TTL_MS := 60 * 1000

  function Min(a: real, b: real): real { if a <= b then a else b }

  function Ceil(x: real): int { -((-x).Floor) }

  /** Tokens earned in `ms` milliseconds. */
  function Refill(rate: real, ms: int): real { ms as real / 1000.0 * rate }

  /** The tokens a call at `now` finds before it spends any. */
  function Found(b: Option<Bucket>, now: nat, capacity: real, rate: real): real {
    match b
    case None => capacity
    case Some(h) => Min(capacity, h.tokens + Refill(rate, now - h.lastRefill))
  }

  function ResetAt(now: nat, tokens: real, rate: real): Option<int> {
    if rate == 0.0 then None else Some(now + 1000 * Ceil((1.0 - tokens) / rate))
  }

  function Step(b: Option<Bucket>, now: nat, capacity: real, rate: real): (Bucket, Verdict) {
    var found := Found(b, now, capacity, rate);
    var tokens := if found >= 1.0 then found - 1.0 else found;
    (Bucket(tokens, now, now + KEY_TTL_MS),
     Verdict(found >= 1.0, tokens.Floor, ResetAt(now, tokens, rate)))
  }

  // ---------------------------------------------------------------- runs

  datatype Event = Call(now: nat) | Expire(now: nat)

  datatype Config = Config(capacity: real, rate: real)

  /** What is left of the hash at `now` if Redis has got round to dropping it. */
  function Unexpired(b: Option<Bucket>, now: nat): Option<Bucket> {
    if b.Some? && now >= b.value.expiresAt then None else b
  }

  /** The hash may vanish once its time-to-live is over; an `Expire` before that does nothing. */
  function Apply(cfg: Config, b: Option<Bucket>, e: Event): Option<Bucket> {
    match e
    case Call(now) => Some(Step(b, now, cfg.capacity, cfg.rate).0)
    case Expire(now) => Unexpired(b, now)
  }

  function State(cfg: Config, es: seq<Event>): Option<Bucket> {
    if es == [] then None else Apply(cfg, State(cfg, es[..|es| - 1]), es[|es| - 1])
  }

  /** Whether event `e`, arriving after run `es`, is an admitted call. */
  predicate Admits(cfg: Config, es: seq<Event>, e: Event) {
    e.Call? && Step(State(cfg, es), e.now, cfg.capacity, cfg.rate).1.allowed
  }

  function Outcomes(cfg: Config, es: seq<Event>): (o: seq<bool>)
    ensures |o| == |es|
  {
    if es == [] then [] else
      Outcomes(cfg, es[..|es| - 1]) + [Admits(cfg, es[..|es| - 1], es[|es| - 1])]
  }

  /** Calls admitted at an instant in [t1, t2]. */
  function Admitted(cfg: Config, es: seq<Event>, t1: int, t2: int): nat {
    if es == [] then 0 else
      var last := es[|es| - 1];
      Admitted(cfg, es[..|es| - 1], t1, t2) +
      if Admits(cfg, es[..|es| - 1], last) && t1 <= last.now <= t2 then 1 else 0
  }

  /** The events arrive in clock order and none is later than `until`. */
  predicate Timed(es: seq<Event>, until: int) {
    es == [] || (es[|es| - 1].now <= until && Timed(es[..|es| - 1], es[|es| - 1].now))
  }

  predicate Sane(cfg: Config) { 0.0 <= cfg.capacity && 0.0 <= cfg.rate }

  /** A hash that outlives its time-to-live is full again by then. */
  predicate ExpiryLossless(cfg: Config) { Sane(cfg) && cfg.capacity <= 60.0 * cfg.rate }

  /** No expiry of the run dropped a hash. */
  predicate Undropped(cfg: Config, es: seq<Event>) {
    es == [] ||
    (Undropped(cfg, es[..|es| - 1]) &&
     (es[|es| - 1].Expire? ==> Unexpired(State(cfg, es[..|es| - 1]), es[|es| - 1].now) == State(cfg, es[..|es| - 1])))
  }

  /** No expiry of the run gave tokens away. */
  predicate Steady(cfg: Config, es: seq<Event>) { Sane(cfg) && (ExpiryLossless(cfg) || Undropped(cfg, es)) }

  function Budget(cfg: Config, ms: int): real { cfg.capacity + Refill(cfg.rate, ms) }

  lemma RefillAdds(rate: real, a: int, b: int)
    ensures Refill(rate, a) + Refill(rate, b) == Refill(rate, a + b)
  {
  }

  lemma RefillGrows(rate: real, a: int, b: int)
    requires a <= b && 0.0 <= rate
    ensures Refill(rate, a) <= Refill(rate, b)
  {
    RefillAdds(rate, a, b - a);
    assert Refill(rate, b - a) >= 0.0;
  }

  /** One more event at the end of a run. */
  lemma Snoc(cfg: Config, es: seq<Event>, e: Event)
    ensures State(cfg, es + [e]) == Apply(cfg, State(cfg, es), e)
    ensures Outcomes(cfg, es + [e]) == Outcomes(cfg, es) + [Admits(cfg, es, e)]
    ensures forall t :: Timed(es + [e], t) <==> e.now <= t && Timed(es, e.now)
    ensures Undropped(cfg, es + [e]) <==>
              Undropped(cfg, es) && (e.Expire? ==> Unexpired(State(cfg, es), e.now) == State(cfg, es))
  {
    assert (es + [e])[..|es|] == es;
  }

  lemma AdmittedSnoc(cfg: Config, es: seq<Event>, e: Event, t1: int, t2: int)
    ensures Admitted(cfg, es + [e], t1, t2) ==
              Admitted(cfg, es, t1, t2) + if Admits(cfg, es, e) && t1 <= e.now <= t2 then 1 else 0
  {
    assert (es + [e])[..|es|] == es;
  }

  lemma TimedLater(es: seq<Event>, t: int, t': int)
    requires Timed(es, t) && t <= t'
    ensures Timed(es, t')
  {
  }

  /** What every reachable hash satisfies. */
  lemma {:induction false} HashInvariant(cfg: Config, es: seq<Event>, until: int)
    requires Sane(cfg) && Timed(es, until)
    ensures var s := State(cfg, es);
            s.Some? ==> 0.0 <= s.value.tokens <= cfg.capacity &&
                        s.value.lastRefill <= until &&
                        s.value.expiresAt == s.value.lastRefill + KEY_TTL_MS
  {
    if es != [] {
      var p, e := es[..|es| - 1], es[|es| - 1];
      HashInvariant(cfg, p, e.now);
      var s := State(cfg, p);
      if s.Some? {
        RefillGrows(cfg.rate, 0, e.now - s.value.lastRefill);
      }
    }
  }

  /** Dropping an expired hash changes nothing a later call can find. */
  lemma ExpiredIsFull(cfg: Config, h: Bucket, t: nat)
    requires ExpiryLossless(cfg) && 0.0 <= h.tokens
    requires h.expiresAt == h.lastRefill + KEY_TTL_MS <= t
    ensures Found(Some(h), t, cfg.capacity, cfg.rate) == cfg.capacity
  {
    RefillGrows(cfg.rate, KEY_TTL_MS, t - h.lastRefill);
    assert Refill(cfg.rate, KEY_TTL_MS) == 60.0 * cfg.rate;
  }

  lemma {:induction false} NoneBefore(cfg: Config, es: seq<Event>, t1: int, t2: int, until: int)
    requires Timed(es, until) && until < t1
    ensures Admitted(cfg, es, t1, t2) == 0
  {
    if es != [] {
      NoneBefore(cfg, es[..|es| - 1], t1, t2, es[|es| - 1].now);
    }
  }

  /** Calls admitted since t1 and tokens still in hand never exceed the budget since t1. */
  lemma {:induction false} Potential(cfg: Config, es: seq<Event>, t1: int, t2: int, t: nat)
    requires Steady(cfg, es) && Timed(es, t) && t1 <= t
    ensures Admitted(cfg, es, t1, t2) as real + Found(State(cfg, es), t, cfg.capacity, cfg.rate)
            <= Budget(cfg, t - t1)
  {
    RefillGrows(cfg.rate, 0, t - t1);
    if es != [] {
      var p, e := es[..|es| - 1], es[|es| - 1];
      var s := State(cfg, p);
      HashInvariant(cfg, p, e.now);
      TimedLater(p, e.now, t);
      match e
      case Expire(u) =>
        Potential(cfg, p, t1, t2, t);
        if s.Some? && u >= s.value.expiresAt && ExpiryLossless(cfg) {
          ExpiredIsFull(cfg, s.value, t);
        }
      case Call(u) =>
        if u < t1 {
          NoneBefore(cfg, es, t1, t2, u);
        } else {
          Potential(cfg, p, t1, t2, u);
          RefillAdds(cfg.rate, u - t1, t - u);
        }
    }
  }

  /**
   No interval admits more than a full bucket plus what is earned during the
   interval, if the capacity is at most sixty seconds of refill or no hash expires.
   */
  lemma {:induction false} BurstBound(cfg: Config, es: seq<Event>, t1: int, t2: int, until: int)
    requires Steady(cfg, es) && Timed(es, until) && t1 <= t2
    ensures Admitted(cfg, es, t1, t2) as real <= Budget(cfg, t2 - t1)
  {
    RefillGrows(cfg.rate, 0, t2 - t1);
    if es != [] {
      var p, e := es[..|es| - 1], es[|es| - 1];
      BurstBound(cfg, p, t1, t2, e.now);
      if Admits(cfg, p, e) && t1 <= e.now <= t2 {
        Potential(cfg, p, t1, t2, e.now);
        RefillGrows(cfg.rate, e.now - t1, t2 - t1);
      }
    }
  }

  // ------------------------------------------- the bound holds exactly when expiry is lossless

  ghost predicate Bounded(cfg: Config) {
    forall es: seq<Event>, t1: int, t2: int, until: int ::
      Timed(es, until) && t1 <= t2 ==> Admitted(cfg, es, t1, t2) as real <= Budget(cfg, t2 - t1)
  }

  function Burst(n: nat, now: nat): (es: seq<Event>)
    ensures |es| == n
  {
    if n == 0 then [] else Burst(n - 1, now) + [Call(now)]
  }

  /** Run es admits n calls more than p, at `now`, and has that many tokens less. */
  predicate Spent(cfg: Config, p: seq<Event>, es: seq<Event>, n: nat, now: nat, t2: int) {
    Timed(es, now) && Admitted(cfg, es, 0, t2) == Admitted(cfg, p, 0, t2) + n &&
    Found(State(cfg, es), now, cfg.capacity, cfg.rate) ==
      Found(State(cfg, p), now, cfg.capacity, cfg.rate) - n as real &&
    (n > 0 ==>
      State(cfg, es) == Some(Bucket(Found(State(cfg, es), now, cfg.capacity, cfg.rate), now, now + KEY_TTL_MS)))
  }

  lemma SpendOne(cfg: Config, p: seq<Event>, es: seq<Event>, n: nat, now: nat, t2: int)
    requires Spent(cfg, p, es, n, now, t2) && now <= t2
    requires Found(State(cfg, p), now, cfg.capacity, cfg.rate) >= (n + 1) as real
    ensures Spent(cfg, p, es + [Call(now)], n + 1, now, t2)
  {
    Snoc(cfg, es, Call(now));
    AdmittedSnoc(cfg, es, Call(now), 0, t2);
    assert Refill(cfg.rate, now - now) == 0.0;
  }

  /** A burst of n calls at one instant is admitted in full when n tokens are there. */
  lemma {:induction false} BurstAdmitted(cfg: Config, p: seq<Event>, n: nat, now: nat, t2: int)
    requires Timed(p, now) && now <= t2 && Found(State(cfg, p), now, cfg.capacity, cfg.rate) >= n as real
    ensures Spent(cfg, p, p + Burst(n, now), n, now, t2)
  {
    if n == 0 {
      assert p + [] == p;
    } else {
      BurstAdmitted(cfg, p, n - 1, now, t2);
      SpendOne(cfg, p, p + Burst(n - 1, now), n - 1, now, t2);
      assert p + (Burst(n - 1, now) + [Call(now)]) == p + Burst(n - 1, now) + [Call(now)];
    }
  }

  /** Drain a full bucket, let the hash expire one minute later, and drain it again. */
  function Drain(n: nat): seq<Event> { Burst(n, 0) + [Expire(KEY_TTL_MS)] + Burst(n, KEY_TTL_MS) }

  lemma TwoBursts(cfg: Config, n: nat)
    requires n >= 1 && cfg.capacity == n as real
    ensures Timed(Drain(n), KEY_TTL_MS) && Admitted(cfg, Drain(n), 0, KEY_TTL_MS) == 2 * n
  {
    FirstBurst(cfg, n, KEY_TTL_MS);
    SecondBurst(cfg, Burst(n, 0), n);
  }

  lemma FirstBurst(cfg: Config, n: nat, t2: nat)
    requires n >= 1 && cfg.capacity == n as real
    ensures Timed(Burst(n, 0), 0) && Admitted(cfg, Burst(n, 0), 0, t2) == n
    ensures State(cfg, Burst(n, 0)) == Some(Bucket(0.0, 0, KEY_TTL_MS))
  {
    BurstAdmitted(cfg, [], n, 0, t2);
    assert [] + Burst(n, 0) == Burst(n, 0);
  }

  lemma SecondBurst(cfg: Config, first: seq<Event>, n: nat)
    requires n >= 1 && cfg.capacity == n as real && Timed(first, 0)
    requires State(cfg, first).Some? && State(cfg, first).value.expiresAt == KEY_TTL_MS
    ensures var es := first + [Expire(KEY_TTL_MS)] + Burst(n, KEY_TTL_MS);
            Timed(es, KEY_TTL_MS) &&
            Admitted(cfg, es, 0, KEY_TTL_MS) == Admitted(cfg, first, 0, KEY_TTL_MS) + n
  {
    TimedLater(first, 0, KEY_TTL_MS);
    Snoc(cfg, first, Expire(KEY_TTL_MS));
    AdmittedSnoc(cfg, first, Expire(KEY_TTL_MS), 0, KEY_TTL_MS);
    BurstAdmitted(cfg, first + [Expire(KEY_TTL_MS)], n, KEY_TTL_MS, KEY_TTL_MS);
  }

  /** For whole-number capacities the promised bound holds on every run if and only if expiry is lossless. */
  lemma BoundedExactly(capacity: nat, rate: real)
    requires capacity >= 1 && rate >= 0.0
    ensures Bounded(Config(capacity as real, rate)) <==> capacity as real <= 60.0 * rate
  {
    var cfg := Config(capacity as real, rate);
    if ExpiryLossless(cfg) {
      forall es: seq<Event>, t1: int, t2: int, until: int | Timed(es, until) && t1 <= t2
        ensures Admitted(cfg, es, t1, t2) as real <= Budget(cfg, t2 - t1)
      {
        BurstBound(cfg, es, t1, t2, until);
      }
    } else {
      TwoBursts(cfg, capacity);
      assert Refill(rate, KEY_TTL_MS) == 60.0 * rate;
      assert Admitted(cfg, Drain(capacity), 0, KEY_TTL_MS) as real > Budget(cfg, KEY_TTL_MS - 0);
    }
  }

  // ------------------------------------------- refinement of a continuously refilled bucket

  /** The specification: a level that rises all the time and is touched by admitted calls only. */
  datatype Fluid = Fluid(level: real, at: nat)

  function Level(cfg: Config, f: Fluid, t: nat): real {
    Min(cfg.capacity, f.level + Refill(cfg.rate, t - f.at))
  }

  function FluidState(cfg: Config, es: seq<Event>): Fluid {
    if es == [] then Fluid(cfg.capacity, 0) else
      var f := FluidState(cfg, es[..|es| - 1]);
      var e := es[|es| - 1];
      if FluidAdmits(cfg, f, e) then Fluid(Level(cfg, f, e.now) - 1.0, e.now) else f
  }

  predicate FluidAdmits(cfg: Config, f: Fluid, e: Event) {
    e.Call? && Level(cfg, f, e.now) >= 1.0
  }

  /**
   At every later instant the stored hash and the continuous level agree, if the
   capacity is at most sixty seconds of refill or no hash expires.
   */
  lemma {:induction false} Refines(cfg: Config, es: seq<Event>, t: nat)
    requires Steady(cfg, es) && Timed(es, t)
    ensures FluidState(cfg, es).at <= t
    ensures Found(State(cfg, es), t, cfg.capacity, cfg.rate) == Level(cfg, FluidState(cfg, es), t)
  {
    if es == [] {
      RefillGrows(cfg.rate, 0, t);
    } else {
      var p, e := es[..|es| - 1], es[|es| - 1];
      var s := State(cfg, p);
      HashInvariant(cfg, p, e.now);
      TimedLater(p, e.now, t);
      Refines(cfg, p, t);
      Refines(cfg, p, e.now);
      match e
      case Expire(u) =>
        if s.Some? && u >= s.value.expiresAt && ExpiryLossless(cfg) {
          ExpiredIsFull(cfg, s.value, t);
        }
      case Call(u) =>
        var f := FluidState(cfg, p);
        RefillAdds(cfg.rate, u - f.at, t - u);
        RefillGrows(cfg.rate, 0, t - u);
    }
  }

  /** The elements of `s` at the positions not in `drop`. */
  function Delete<T>(s: seq<T>, drop: set<int>): seq<T> {
    if s == [] then []
    else if |s| - 1 in drop then Delete(s[..|s| - 1], drop)
    else Delete(s[..|s| - 1], drop) + [s[|s| - 1]]
  }

  lemma DeleteLast<T>(s: seq<T>, x: T, drop: set<int>)
    ensures Delete(s + [x], drop) == if |s| in drop then Delete(s, drop) else Delete(s, drop) + [x]
  {
    assert (s + [x])[..|s|] == s;
  }

  lemma {:induction false} DeleteTimed(es: seq<Event>, drop: set<int>, until: int)
    requires Timed(es, until)
    ensures Timed(Delete(es, drop), until)
  {
    if es != [] {
      var p, e := es[..|es| - 1], es[|es| - 1];
      DeleteTimed(p, drop, e.now);
      if |es| - 1 in drop {
        TimedLater(Delete(p, drop), e.now, until);
      } else {
        assert Delete(es, drop)[..|Delete(p, drop)|] == Delete(p, drop);
      }
    }
  }

  /** Every position in `drop` holds an event that admitted nothing: a refused call or an expiry. */
  predicate NoneAdmitted(cfg: Config, es: seq<Event>, drop: set<int>) {
    es == [] ||
    (NoneAdmitted(cfg, es[..|es| - 1], drop) &&
     (|es| - 1 in drop ==> !Admits(cfg, es[..|es| - 1], es[|es| - 1])))
  }

  /** Deleting from the run leaves the continuous bucket as it was and no other event's outcome changed. */
  predicate NoTrace(cfg: Config, es: seq<Event>, drop: set<int>) {
    FluidState(cfg, Delete(es, drop)) == FluidState(cfg, es) &&
    Outcomes(cfg, Delete(es, drop)) == Delete(Outcomes(cfg, es), drop)
  }

  lemma NoTraceNext(cfg: Config, p: seq<Event>, e: Event, drop: set<int>)
    requires ExpiryLossless(cfg) && Timed(p, e.now) && NoTrace(cfg, p, drop)
    requires |p| in drop ==> !Admits(cfg, p, e)
    ensures NoTrace(cfg, p + [e], drop)
  {
    Snoc(cfg, p, e);
    FluidSnoc(cfg, p, e);
    DeleteLast(p, e, drop);
    DeleteLast(Outcomes(cfg, p), Admits(cfg, p, e), drop);
    Refines(cfg, p, e.now);
    if |p| !in drop {
      var q := Delete(p, drop);
      DeleteTimed(p, drop, e.now);
      Snoc(cfg, q, e);
      FluidSnoc(cfg, q, e);
      SameFluidSameOutcome(cfg, p, q, e);
    }
  }

  lemma FluidSnoc(cfg: Config, es: seq<Event>, e: Event)
    ensures var f := FluidState(cfg, es);
            FluidState(cfg, es + [e]) == if FluidAdmits(cfg, f, e) then Fluid(Level(cfg, f, e.now) - 1.0, e.now) else f
  {
    assert (es + [e])[..|es|] == es;
  }

  /**
   Deleting any set of events that admitted nothing leaves the continuous
   bucket as it was and changes no other event's outcome, if the capacity is at
   most sixty seconds of refill.
   */
  lemma {:induction false} RefusalsLeaveNoTrace(cfg: Config, es: seq<Event>, drop: set<int>, until: nat)
    requires ExpiryLossless(cfg) && Timed(es, until) && NoneAdmitted(cfg, es, drop)
    ensures FluidState(cfg, Delete(es, drop)) == FluidState(cfg, es)
    ensures Outcomes(cfg, Delete(es, drop)) == Delete(Outcomes(cfg, es), drop)
  {
    if es != [] {
      var p, e := es[..|es| - 1], es[|es| - 1];
      RefusalsLeaveNoTrace(cfg, p, drop, e.now);
      NoTraceNext(cfg, p, e, drop);
      assert p + [e] == es;
    }
  }

  lemma SameFluidSameOutcome(cfg: Config, p: seq<Event>, q: seq<Event>, e: Event)
    requires Steady(cfg, p) && Steady(cfg, q) && Timed(p, e.now) && Timed(q, e.now)
    requires FluidState(cfg, p) == FluidState(cfg, q)
    ensures Admits(cfg, p, e) == Admits(cfg, q, e) == FluidAdmits(cfg, FluidState(cfg, p), e)
  {
    Refines(cfg, p, e.now);
    Refines(cfg, q, e.now);
  }

  // ------------------------------------------- deletions show exactly when expiry is not lossless

  /** Deleting events that admitted nothing never changes another event's outcome. */
  ghost predicate Traceless(cfg: Config) {
    forall es: seq<Event>, drop: set<int>, until: nat ::
      Timed(es, until) && NoneAdmitted(cfg, es, drop) ==>
        Outcomes(cfg, Delete(es, drop)) == Delete(Outcomes(cfg, es), drop)
  }

  function Trues(o: seq<bool>): nat {
    if o == [] then 0 else Trues(o[..|o| - 1]) + if o[|o| - 1] then 1 else 0
  }

  lemma {:induction false} TruesAreAdmitted(cfg: Config, es: seq<Event>, until: int, t2: int)
    requires Timed(es, until) && until <= t2
    ensures Trues(Outcomes(cfg, es)) == Admitted(cfg, es, 0, t2)
  {
    if es != [] {
      var p, e := es[..|es| - 1], es[|es| - 1];
      TruesAreAdmitted(cfg, p, e.now, t2);
      assert Outcomes(cfg, es)[..|p|] == Outcomes(cfg, p);
    }
  }

  lemma {:induction false} DropKeepsTrues(cfg: Config, es: seq<Event>, drop: set<int>)
    requires NoneAdmitted(cfg, es, drop)
    ensures Trues(Delete(Outcomes(cfg, es), drop)) == Trues(Outcomes(cfg, es))
  {
    if es != [] {
      var p, e := es[..|es| - 1], es[|es| - 1];
      var o, d := Outcomes(cfg, p), Delete(Outcomes(cfg, p), drop);
      DropKeepsTrues(cfg, p, drop);
      DeleteLast(o, Admits(cfg, p, e), drop);
      assert (o + [Admits(cfg, p, e)])[..|o|] == o && (d + [Admits(cfg, p, e)])[..|d|] == d;
    }
  }

  lemma {:induction false} DeleteNothing<T>(s: seq<T>, i: int)
    requires i >= |s|
    ensures Delete(s, {i}) == s
  {
    if s != [] {
      DeleteNothing(s[..|s| - 1], i);
      assert s == s[..|s| - 1] + [s[|s| - 1]];
    }
  }

  lemma {:induction false} DeleteOne<T>(a: seq<T>, x: T, b: seq<T>)
    ensures Delete(a + [x] + b, {|a|}) == a + b
    decreases |b|
  {
    if b == [] {
      DeleteNothing(a, |a|);
      DeleteLast(a, x, {|a|});
      assert a + [x] + b == a + [x] && a + b == a;
    } else {
      var c, y := b[..|b| - 1], b[|b| - 1];
      DeleteOne(a, x, c);
      DeleteLast(a + [x] + c, y, {|a|});
      assert a + [x] + b == a + [x] + c + [y] && a + b == a + c + [y];
    }
  }

  lemma {:induction false} OnlyOneDropped(cfg: Config, a: seq<Event>, x: Event, b: seq<Event>)
    requires !Admits(cfg, a, x)
    ensures NoneAdmitted(cfg, a + [x] + b, {|a|})
    decreases |b|
  {
    var es := a + [x] + b;
    if b == [] {
      NoneDropped(cfg, a, |a|);
      assert es == a + [x] && es[..|a|] == a;
    } else {
      OnlyOneDropped(cfg, a, x, b[..|b| - 1]);
      assert es[..|es| - 1] == a + [x] + b[..|b| - 1];
    }
  }

  lemma {:induction false} NoneDropped(cfg: Config, a: seq<Event>, i: int)
    requires i >= |a|
    ensures NoneAdmitted(cfg, a, {i})
  {
    if a != [] { NoneDropped(cfg, a[..|a| - 1], i); }
  }

  predicate Intact(cfg: Config, es: seq<Event>, until: int) { Undropped(cfg, es) && Timed(es, until) }

  lemma OneMoreCall(cfg: Config, es: seq<Event>, now: nat)
    requires Intact(cfg, es, now)
    ensures Intact(cfg, es + [Call(now)], now)
  {
    Snoc(cfg, es, Call(now));
  }

  lemma {:induction false} BurstUndropped(cfg: Config, p: seq<Event>, n: nat, now: nat)
    requires Intact(cfg, p, now)
    ensures Intact(cfg, p + Burst(n, now), now)
  {
    if n == 0 {
      assert p + [] == p;
    } else {
      BurstUndropped(cfg, p, n - 1, now);
      OneMoreCall(cfg, p + Burst(n - 1, now), now);
      assert p + (Burst(n - 1, now) + [Call(now)]) == p + Burst(n - 1, now) + [Call(now)];
    }
  }

  /** Deleting event x, which admitted nothing, changes an outcome if it changes how many calls are admitted. */
  lemma DeletionShows(cfg: Config, a: seq<Event>, x: Event, b: seq<Event>, until: nat)
    requires Timed(a + [x] + b, until) && Timed(a + b, until) && !Admits(cfg, a, x)
    requires Admitted(cfg, a + [x] + b, 0, until) != Admitted(cfg, a + b, 0, until)
    ensures Delete(a + [x] + b, {|a|}) == a + b && NoneAdmitted(cfg, a + [x] + b, {|a|})
    ensures Outcomes(cfg, a + b) != Delete(Outcomes(cfg, a + [x] + b), {|a|})
  {
    DeleteOne(a, x, b);
    OnlyOneDropped(cfg, a, x, b);
    DropKeepsTrues(cfg, a + [x] + b, {|a|});
    TruesAreAdmitted(cfg, a + [x] + b, until, until);
    TruesAreAdmitted(cfg, a + b, until, until);
  }

  lemma TimedConcat(cfg: Config, a: seq<Event>, n: nat)
    requires Undropped(cfg, a) && Timed(a, 0)
    ensures Undropped(cfg, a + Burst(n, KEY_TTL_MS)) && Timed(a + Burst(n, KEY_TTL_MS), KEY_TTL_MS)
  {
    TimedLater(a, 0, KEY_TTL_MS);
    BurstUndropped(cfg, a, n, KEY_TTL_MS);
  }

  lemma BurstKept(cfg: Config, n: nat)
    ensures Undropped(cfg, Burst(n, 0)) && Timed(Burst(n, 0), 0)
  {
    BurstUndropped(cfg, [], n, 0);
    assert [] + Burst(n, 0) == Burst(n, 0);
  }

  /** With no hash dropped, too few calls are admitted for two full bursts within a minute. */
  lemma FewerThanTwoBursts(cfg: Config, es: seq<Event>, n: nat)
    requires n >= 1 && cfg.capacity == n as real && Sane(cfg) && !ExpiryLossless(cfg)
    requires Undropped(cfg, es) && Timed(es, KEY_TTL_MS)
    ensures Admitted(cfg, es, 0, KEY_TTL_MS) < 2 * n
  {
    BurstBound(cfg, es, 0, KEY_TTL_MS, KEY_TTL_MS);
    assert Refill(cfg.rate, KEY_TTL_MS) == 60.0 * cfg.rate;
  }

  /** Without its expiry the run of two bursts stays within the bound. */
  lemma ExpiryShows(cfg: Config, n: nat)
    requires n >= 1 && cfg.capacity == n as real && Sane(cfg) && !ExpiryLossless(cfg)
    ensures Timed(Drain(n), KEY_TTL_MS) && NoneAdmitted(cfg, Drain(n), {n})
    ensures Outcomes(cfg, Delete(Drain(n), {n})) != Delete(Outcomes(cfg, Drain(n)), {n})
  {
    TwoBursts(cfg, n);
    BurstKept(cfg, n);
    TimedConcat(cfg, Burst(n, 0), n);
    FewerThanTwoBursts(cfg, Burst(n, 0) + Burst(n, KEY_TTL_MS), n);
    DeletionShows(cfg, Burst(n, 0), Expire(KEY_TTL_MS), Burst(n, KEY_TTL_MS), KEY_TTL_MS);
  }

  /**
   For whole-number capacities refused calls and expiries can be deleted from
   every run without a trace if and only if expiry is lossless.
   */
  lemma TracelessExactly(capacity: nat, rate: real)
    requires capacity >= 1 && rate >= 0.0
    ensures Traceless(Config(capacity as real, rate)) <==> capacity as real <= 60.0 * rate
  {
    var cfg := Config(capacity as real, rate);
    if ExpiryLossless(cfg) {
      forall es: seq<Event>, drop: set<int>, until: nat | Timed(es, until) && NoneAdmitted(cfg, es, drop)
        ensures Outcomes(cfg, Delete(es, drop)) == Delete(Outcomes(cfg, es), drop)
      {
        RefusalsLeaveNoTrace(cfg, es, drop, until);
      }
    } else {
      ExpiryShows(cfg, capacity);
    }
  }

  /** The two bursts, with one more call just after the first. */
  function DrainAndAsk(n: nat): seq<Event> {
    Burst(n, 0) + [Call(1)] + ([Expire(KEY_TTL_MS)] + Burst(n, KEY_TTL_MS))
  }

  /** The call finds less than a token, and prolongs the key. */
  lemma AskKeepsKey(cfg: Config, a: seq<Event>)
    requires cfg.rate < 1000.0 && Sane(cfg) && Undropped(cfg, a) && Timed(a, 0)
    requires State(cfg, a) == Some(Bucket(0.0, 0, KEY_TTL_MS))
    ensures !Admits(cfg, a, Call(1))
    ensures var es := a + [Call(1)] + [Expire(KEY_TTL_MS)]; Undropped(cfg, es) && Timed(es, KEY_TTL_MS)
  {
    TimedLater(a, 0, 1);
    assert Refill(cfg.rate, 1) < 1.0;
    Snoc(cfg, a, Call(1));
    TimedLater(a + [Call(1)], 1, KEY_TTL_MS);
    Snoc(cfg, a + [Call(1)], Expire(KEY_TTL_MS));
  }

  lemma AskThenBurst(cfg: Config, a: seq<Event>, n: nat)
    requires cfg.rate < 1000.0 && Sane(cfg) && Undropped(cfg, a) && Timed(a, 0)
    requires State(cfg, a) == Some(Bucket(0.0, 0, KEY_TTL_MS))
    ensures !Admits(cfg, a, Call(1))
    ensures Intact(cfg, a + [Call(1)] + ([Expire(KEY_TTL_MS)] + Burst(n, KEY_TTL_MS)), KEY_TTL_MS)
  {
    var ask, drop, b := [Call(1)], [Expire(KEY_TTL_MS)], Burst(n, KEY_TTL_MS);
    AskKeepsKey(cfg, a);
    BurstUndropped(cfg, a + ask + drop, n, KEY_TTL_MS);
    assert a + ask + (drop + b) == a + ask + drop + b;
  }

  lemma AskUndropped(cfg: Config, n: nat)
    requires n >= 1 && cfg.capacity == n as real && cfg.rate < 1000.0 && Sane(cfg)
    ensures !Admits(cfg, Burst(n, 0), Call(1)) && Intact(cfg, DrainAndAsk(n), KEY_TTL_MS)
  {
    FirstBurst(cfg, n, 0);
    BurstKept(cfg, n);
    AskThenBurst(cfg, Burst(n, 0), n);
  }

  /**
   A refused call leaves a trace too: it keeps an emptied hash from expiring, and
   without it the calls a minute later are all admitted.
   */
  lemma RefusedCallShows(cfg: Config, n: nat)
    requires n >= 1 && cfg.capacity == n as real && cfg.rate < 1000.0 && Sane(cfg) && !ExpiryLossless(cfg)
    ensures !Admits(cfg, Burst(n, 0), Call(1)) && Delete(DrainAndAsk(n), {n}) == Drain(n)
    ensures Outcomes(cfg, Drain(n)) != Delete(Outcomes(cfg, DrainAndAsk(n)), {n})
  {
    var a, b := Burst(n, 0), [Expire(KEY_TTL_MS)] + Burst(n, KEY_TTL_MS);
    assert a + b == Drain(n);
    TwoBursts(cfg, n);
    AskUndropped(cfg, n);
    FewerThanTwoBursts(cfg, DrainAndAsk(n), n);
    DeletionShows(cfg, a, Call(1), b, KEY_TTL_MS);
  }

  // ------------------------------------------- refused calls alone

  /** Every position in `drop` holds a refused call. */
  predicate OnlyRefused(cfg: Config, es: seq<Event>, drop: set<int>) {
    NoneAdmitted(cfg, es, drop) && forall i | i in drop && 0 <= i < |es| :: es[i].Call?
  }

  /** Deleting refused calls never changes another event's outcome. */
  ghost predicate RefusedTraceless(cfg: Config) {
    forall es: seq<Event>, drop: set<int>, until: nat ::
      Timed(es, until) && OnlyRefused(cfg, es, drop) ==>
        Outcomes(cfg, Delete(es, drop)) == Delete(Outcomes(cfg, es), drop)
  }

  /**
   Where a millisecond earns a whole token a refused call comes in the same
   millisecond as the call before it and leaves the hash as it was.
   */
  lemma RefusedKeepsHash(cfg: Config, es: seq<Event>, now: nat)
    requires cfg.capacity >= 1.0 && cfg.rate >= 1000.0 && Timed(es, now) && !Admits(cfg, es, Call(now))
    ensures State(cfg, es + [Call(now)]) == State(cfg, es)
  {
    Snoc(cfg, es, Call(now));
    HashInvariant(cfg, es, now);
    var h := State(cfg, es).value;
    assert Refill(cfg.rate, 0) == 0.0 && Refill(cfg.rate, 1) >= 1.0;
    if h.lastRefill < now { RefillGrows(cfg.rate, 1, now - h.lastRefill); }
  }

  /** The run without the deleted events ends in the same hash. */
  predicate SameHash(cfg: Config, es: seq<Event>, drop: set<int>) {
    State(cfg, Delete(es, drop)) == State(cfg, es) &&
    Outcomes(cfg, Delete(es, drop)) == Delete(Outcomes(cfg, es), drop)
  }

  lemma SameHashNext(cfg: Config, p: seq<Event>, e: Event, drop: set<int>)
    requires cfg.capacity >= 1.0 && cfg.rate >= 1000.0 && Timed(p, e.now) && SameHash(cfg, p, drop)
    requires |p| in drop ==> e.Call? && !Admits(cfg, p, e)
    ensures SameHash(cfg, p + [e], drop)
  {
    Snoc(cfg, p, e);
    DeleteLast(p, e, drop);
    DeleteLast(Outcomes(cfg, p), Admits(cfg, p, e), drop);
    if |p| in drop {
      RefusedKeepsHash(cfg, p, e.now);
    } else {
      Snoc(cfg, Delete(p, drop), e);
    }
  }

  lemma {:induction false} FastRefillKeepsHash(cfg: Config, es: seq<Event>, drop: set<int>, until: nat)
    requires cfg.capacity >= 1.0 && cfg.rate >= 1000.0 && Timed(es, until) && OnlyRefused(cfg, es, drop)
    ensures SameHash(cfg, es, drop)
  {
    if es != [] {
      var p, e := es[..|es| - 1], es[|es| - 1];
      FastRefillKeepsHash(cfg, p, drop, e.now);
      SameHashNext(cfg, p, e, drop);
      assert p + [e] == es;
    }
  }

  lemma SlowRefillShows(cfg: Config, n: nat)
    requires n >= 1 && cfg.capacity == n as real && cfg.rate < 1000.0 && Sane(cfg) && !ExpiryLossless(cfg)
    ensures !RefusedTraceless(cfg)
  {
    RefusedCallShows(cfg, n);
    AskUndropped(cfg, n);
    var es := DrainAndAsk(n);
    OnlyOneDropped(cfg, Burst(n, 0), Call(1), [Expire(KEY_TTL_MS)] + Burst(n, KEY_TTL_MS));
    assert es[n] == Call(1);
    assert Timed(es, KEY_TTL_MS) && OnlyRefused(cfg, es, {n});
  }

  /**
   For whole-number capacities refused calls can be deleted from every run without a
   trace if and only if the capacity is at most sixty seconds of refill or every
   millisecond earns a token.
   */
  lemma RefusedTracelessExactly(capacity: nat, rate: real)
    requires capacity >= 1 && rate >= 0.0
    ensures RefusedTraceless(Config(capacity as real, rate)) <==> capacity as real <= 60.0 * rate || rate >= 1000.0
  {
    var cfg := Config(capacity as real, rate);
    if ExpiryLossless(cfg) || rate >= 1000.0 {
      forall es: seq<Event>, drop: set<int>, until: nat | Timed(es, until) && OnlyRefused(cfg, es, drop)
        ensures Outcomes(cfg, Delete(es, drop)) == Delete(Outcomes(cfg, es), drop)
      {
        if ExpiryLossless(cfg) {
          RefusalsLeaveNoTrace(cfg, es, drop, until);
        } else {
          FastRefillKeepsHash(cfg, es, drop, until);
        }
      }
    } else {
      SlowRefillShows(cfg, capacity);
    }
  }

  // ------------------------------------------- resetAt

  /** A refused call and an expiry take no token from any later call. */
  lemma QuietNeverLowers(cfg: Config, es: seq<Event>, e: Event, t: nat)
    requires Sane(cfg) && Timed(es, e.now) && e.now <= t && !Admits(cfg, es, e)
    ensures Found(State(cfg, es + [e]), t, cfg.capacity, cfg.rate) >= Found(State(cfg, es), t, cfg.capacity, cfg.rate)
  {
    Snoc(cfg, es, e);
    HashInvariant(cfg, es, e.now);
    var s := State(cfg, es);
    if e.Call? {
      RefillGrows(cfg.rate, 0, t - e.now);
      if s.Some? { RefillAdds(cfg.rate, e.now - s.value.lastRefill, t - e.now); }
    }
  }

  /** None of the events after the run es admits a call. */
  predicate AllQuiet(cfg: Config, es: seq<Event>, quiet: seq<Event>) {
    quiet == [] ||
    (AllQuiet(cfg, es, quiet[..|quiet| - 1]) && !Admits(cfg, es + quiet[..|quiet| - 1], quiet[|quiet| - 1]))
  }

  lemma {:induction false} QuietTakesNothing(cfg: Config, es: seq<Event>, quiet: seq<Event>, until: int, t: nat)
    requires Sane(cfg) && Timed(es + quiet, until) && until <= t && AllQuiet(cfg, es, quiet)
    ensures Found(State(cfg, es + quiet), t, cfg.capacity, cfg.rate) >= Found(State(cfg, es), t, cfg.capacity, cfg.rate)
    decreases |quiet|
  {
    if quiet == [] {
      assert es + quiet == es;
    } else {
      var q, e := quiet[..|quiet| - 1], quiet[|quiet| - 1];
      assert es + quiet == es + q + [e];
      Snoc(cfg, es + q, e);
      QuietTakesNothing(cfg, es, q, e.now, t);
      QuietNeverLowers(cfg, es + q, e, t);
    }
  }

  /**
   A refused caller that comes back at `resetAt` or later is admitted, whatever
   refused calls and expiries happened in between, when a token can ever be held.
   */
  lemma ResetIsHonoured(cfg: Config, es: seq<Event>, now: nat, quiet: seq<Event>, t: nat)
    requires cfg.capacity >= 1.0 && cfg.rate > 0.0
    requires var refused := Step(State(cfg, es), now, cfg.capacity, cfg.rate).1;
             !refused.allowed && refused.resetAt.Some? && refused.resetAt.value <= t
    requires Timed(es + [Call(now)] + quiet, t) && AllQuiet(cfg, es + [Call(now)], quiet)
    ensures Admits(cfg, es + [Call(now)] + quiet, Call(t))
  {
    var asked := es + [Call(now)];
    QuietTakesNothing(cfg, asked, quiet, t, t);
    TimedPrefix(asked, quiet, t);
    Snoc(cfg, es, Call(now));
    var h := State(cfg, asked).value;
    assert Refill(cfg.rate, now - now) == 0.0;
    FullByReset(cfg, Fluid(h.tokens, now), now, t);
  }

  /** What a call at `now` leaves is what the next one at that instant finds. */
  lemma FoundAfterCall(cfg: Config, es: seq<Event>, now: nat)
    requires Sane(cfg) && Timed(es, now)
    ensures var found := Found(State(cfg, es), now, cfg.capacity, cfg.rate);
            Found(State(cfg, es + [Call(now)]), now, cfg.capacity, cfg.rate)
              == if found >= 1.0 then found - 1.0 else found
  {
    Snoc(cfg, es, Call(now));
    HashInvariant(cfg, es, now);
    assert Refill(cfg.rate, now - now) == 0.0;
  }

  lemma FoundIsNonnegative(cfg: Config, es: seq<Event>, now: nat)
    requires Sane(cfg) && Timed(es, now)
    ensures Found(State(cfg, es), now, cfg.capacity, cfg.rate) >= 0.0
  {
    HashInvariant(cfg, es, now);
    if State(cfg, es).Some? { RefillGrows(cfg.rate, 0, now - State(cfg, es).value.lastRefill); }
  }

  /** What n calls at one instant leave of the tokens found. */
  function LeftAfter(found: real, n: nat): real { found - (if n <= found.Floor then n else found.Floor) as real }

  lemma OneLess(found: real, n: nat)
    requires found >= 0.0 && n > 0
    ensures var left := LeftAfter(found, n - 1); LeftAfter(found, n) == if left >= 1.0 then left - 1.0 else left
  {
  }

  lemma {:induction false} FoundAfterBurst(cfg: Config, es: seq<Event>, n: nat, now: nat)
    requires Sane(cfg) && Timed(es, now)
    ensures Timed(es + Burst(n, now), now)
    ensures var found := Found(State(cfg, es), now, cfg.capacity, cfg.rate);
            0.0 <= found && Found(State(cfg, es + Burst(n, now)), now, cfg.capacity, cfg.rate) == LeftAfter(found, n)
  {
    FoundIsNonnegative(cfg, es, now);
    if n == 0 {
      assert es + [] == es;
    } else {
      FoundAfterBurst(cfg, es, n - 1, now);
      OneLess(Found(State(cfg, es), now, cfg.capacity, cfg.rate), n);
      BurstNext(cfg, es + Burst(n - 1, now), now);
      BurstSplit(es, n, now);
    }
  }

  lemma BurstSplit(es: seq<Event>, n: nat, now: nat)
    requires n > 0
    ensures es + Burst(n, now) == es + Burst(n - 1, now) + [Call(now)]
  {
  }

  lemma BurstNext(cfg: Config, es: seq<Event>, now: nat)
    requires Sane(cfg) && Timed(es, now)
    ensures Timed(es + [Call(now)], now)
    ensures var found := Found(State(cfg, es), now, cfg.capacity, cfg.rate);
            Found(State(cfg, es + [Call(now)]), now, cfg.capacity, cfg.rate)
              == if found >= 1.0 then found - 1.0 else found
  {
    Snoc(cfg, es, Call(now));
    FoundAfterCall(cfg, es, now);
  }

  /**
   `remaining` is the number of further calls at the same instant that are admitted:
   after n more of them the next is admitted exactly when n is less.
   */
  lemma RemainingIsExact(cfg: Config, es: seq<Event>, now: nat, n: nat)
    requires Sane(cfg) && Timed(es, now)
    ensures var verdict := Step(State(cfg, es), now, cfg.capacity, cfg.rate).1;
            verdict.remaining >= 0 &&
            (Admits(cfg, es + [Call(now)] + Burst(n, now), Call(now)) <==> n < verdict.remaining)
  {
    FoundAfterCall(cfg, es, now);
    Snoc(cfg, es, Call(now));
    FoundAfterBurst(cfg, es + [Call(now)], n, now);
  }

  /**
   `resetAt` is the earliest of the instants whole seconds from now at which the next
   call, if nothing comes between, is admitted; it is missing for a rate of zero alone.
   */
  lemma ResetExact(cfg: Config, es: seq<Event>, now: nat, t: nat)
    requires Sane(cfg) && Timed(es, now) && now <= t
    ensures var resetAt := Step(State(cfg, es), now, cfg.capacity, cfg.rate).1.resetAt;
            (resetAt == None <==> cfg.rate == 0.0) &&
            (resetAt.Some? ==>
              (resetAt.value - now) % 1000 == 0 &&
              (t <= resetAt.value - 1000 ==> !Admits(cfg, es + [Call(now)], Call(t))) &&
              (resetAt.value <= t && cfg.capacity >= 1.0 ==> Admits(cfg, es + [Call(now)], Call(t))))
  {
    AdmitsAfterCall(cfg, es, now, t);
    ResetIsEarliest(State(cfg, es), cfg, now, t);
  }

  lemma ResetIsEarliest(b: Option<Bucket>, cfg: Config, now: nat, t: nat)
    requires Sane(cfg) && now <= t
    ensures var (h, verdict) := Step(b, now, cfg.capacity, cfg.rate);
            (verdict.resetAt == None <==> cfg.rate == 0.0) &&
            (verdict.resetAt.Some? ==>
              var resetAt := verdict.resetAt.value;
              (resetAt - now) % 1000 == 0 &&
              (t <= resetAt - 1000 ==> h.tokens + Refill(cfg.rate, t - now) < 1.0) &&
              (resetAt <= t ==> h.tokens + Refill(cfg.rate, t - now) >= 1.0))
  {
    if cfg.rate > 0.0 {
      var left := Step(b, now, cfg.capacity, cfg.rate).0.tokens;
      TokenByReset(left, cfg.rate, t - now);
      WholeSeconds(now, Ceil((1.0 - left) / cfg.rate));
    }
  }

  lemma WholeSeconds(now: int, seconds: int)
    ensures (now + 1000 * seconds - now) % 1000 == 0
  {
  }

  /** The call after one at `now` is admitted exactly when a token has been earned by then and can be held. */
  lemma AdmitsAfterCall(cfg: Config, es: seq<Event>, now: nat, t: nat)
    requires now <= t
    ensures Admits(cfg, es + [Call(now)], Call(t)) <==>
              cfg.capacity >= 1.0 &&
              Step(State(cfg, es), now, cfg.capacity, cfg.rate).0.tokens + Refill(cfg.rate, t - now) >= 1.0
  {
    Snoc(cfg, es, Call(now));
  }

  /** A bucket with these tokens gains the first whole one just when the waiting time in seconds is over. */
  lemma TokenByReset(tokens: real, rate: real, ms: nat)
    requires rate > 0.0
    ensures var wait := Ceil((1.0 - tokens) / rate);
            (ms >= 1000 * wait ==> tokens + Refill(rate, ms) >= 1.0) &&
            (ms <= 1000 * (wait - 1) ==> tokens + Refill(rate, ms) < 1.0)
  {
    var q := (1.0 - tokens) / rate;
    var wait := Ceil(q);
    assert q * rate == 1.0 - tokens;
    assert wait as real >= q && (wait - 1) as real < q;
    if ms >= 1000 * wait {
      Waited(rate, wait, q);
      RefillGrows(rate, 1000 * wait, ms);
    }
    if ms <= 1000 * (wait - 1) {
      Waited(rate, wait - 1, q);
      RefillGrows(rate, ms, 1000 * (wait - 1));
    }
  }

  lemma Waited(rate: real, seconds: int, q: real)
    requires rate > 0.0
    ensures seconds as real >= q ==> Refill(rate, 1000 * seconds) >= q * rate
    ensures seconds as real < q ==> Refill(rate, 1000 * seconds) < q * rate
  {
    assert Refill(rate, 1000 * seconds) == seconds as real * rate;
  }

  lemma FullByReset(cfg: Config, f: Fluid, now: nat, t: nat)
    requires cfg.capacity >= 1.0 && cfg.rate > 0.0
    requires Level(cfg, f, now) < 1.0
    requires now <= t && ResetAt(now, Level(cfg, f, now), cfg.rate).value <= t
    ensures Level(cfg, f, t) >= 1.0
  {
    var missing := 1.0 - Level(cfg, f, now);
    var q := missing / cfg.rate;
    var wait := Ceil(q);
    assert q * cfg.rate == missing;
    assert wait as real * cfg.rate >= q * cfg.rate;
    assert Refill(cfg.rate, 1000 * wait) == wait as real * cfg.rate;
    RefillGrows(cfg.rate, 1000 * wait, t - now);
    RefillAdds(cfg.rate, now - f.at, t - now);
  }

  lemma {:induction false} TimedPrefix(es: seq<Event>, rest: seq<Event>, until: int)
    requires Timed(es + rest, until)
    ensures Timed(es, until)
    decreases |rest|
  {
    if rest == [] {
      assert es + rest == es;
    } else {
      var all := es + rest;
      assert all[..|all| - 1] == es + rest[..|rest| - 1];
      TimedPrefix(es, rest[..|rest| - 1], all[|all| - 1].now);
      TimedLater(es, all[|all| - 1].now, until);
    }
  }
}
