/**
 The dead-letter queue: a failed publication is queued with its attempt number;
 handling a queued message either gives up, resends it, or, when the resend
 fails, queues it again with the next attempt number.
 */
module DeadLetter {
  import opened Wrappers

  const MAX_ATTEMPTS := 3

  /** `origin` tells the failures of a run apart. */
  datatype Letter = Letter(origin: nat, attempt: int, retryAfter: int)

  datatype State = State(queue: seq<Letter>, enqueued: nat, retried: nat, permanent: nat,
                         resendFailed: nat, dropped: nat)

  datatype Event =
    | Fail(origin: nat, sendOk: bool)
    | Handle(index: nat, resendOk: bool, sendOk: bool)

  function RetryAfterMs(attempt: int): int {
    if attempt == 0 then 30 * 1000
    else if attempt == 1 then 5 * 60 * 1000
    else if attempt == 2 then 30 * 60 * 1000
    else -1
  }

  /** A publication the broker refuses is logged and lost. */
  function Publish(st: State, origin: nat, attempt: int, sendOk: bool): State {
    if sendOk then
      st.(queue := st.queue + [Letter(origin, attempt, RetryAfterMs(attempt))], enqueued := st.enqueued + 1)
    else st.(dropped := st.dropped + 1)
  }

  predicate GivesUp(m: Letter) { m.retryAfter == -1 || m.attempt >= MAX_ATTEMPTS }

  function HandleStep(st: State, i: nat, resendOk: bool, sendOk: bool): State {
    if i >= |st.queue| then st else
      var m := st.queue[i];
      var taken := st.(queue := Without(st.queue, i));
      if GivesUp(m) then taken.(permanent := st.permanent + 1)
      else if resendOk then taken.(retried := st.retried + 1)
      else Publish(taken.(resendFailed := st.resendFailed + 1), m.origin, m.attempt + 1, sendOk)
  }

  function Step(st: State, e: Event): State {
    match e
    case Fail(origin, sendOk) => Publish(st, origin, 0, sendOk)
    case Handle(i, resendOk, sendOk) => HandleStep(st, i, resendOk, sendOk)
  }

  const EMPTY := State([], 0, 0, 0, 0, 0)

  function After(es: seq<Event>): State {
    if es == [] then EMPTY else Step(After(es[..|es| - 1]), es[|es| - 1])
  }

  function Failures(es: seq<Event>): nat {
    if es == [] then 0 else Failures(es[..|es| - 1]) + if es[|es| - 1].Fail? then 1 else 0
  }

  // ------------------------------------------- what is queued

  predicate LetterOk(m: Letter) {
    0 <= m.attempt <= MAX_ATTEMPTS && m.retryAfter == RetryAfterMs(m.attempt)
  }

  predicate QueueOk(q: seq<Letter>) { forall i | 0 <= i < |q| :: LetterOk(q[i]) }

  /** Queued attempts are 0 .. 3, and exactly those at 3 are marked never to be retried. */
  lemma {:induction false} AttemptsInRange(es: seq<Event>)
    ensures QueueOk(After(es).queue)
    ensures forall i | 0 <= i < |After(es).queue| ::
              After(es).queue[i].retryAfter == -1 <==> After(es).queue[i].attempt == MAX_ATTEMPTS
  {
    if es != [] { AttemptsInRange(es[..|es| - 1]); }
  }

  /**
   Every queued message is pending, resent, given up or followed by a failed
   resend; every original failure is pending, resent, given up or lost in publishing.
   */
  lemma {:induction false} Conservation(es: seq<Event>)
    ensures var st := After(es);
            st.enqueued == |st.queue| + st.retried + st.permanent + st.resendFailed &&
            Failures(es) == |st.queue| + st.retried + st.permanent + st.dropped
  {
    if es != [] { Conservation(es[..|es| - 1]); }
  }

  // ------------------------------------------- retries end

  /** Handlings the queue can still cause. */
  function Fuel(q: seq<Letter>): int {
    if q == [] then 0 else Fuel(q[..|q| - 1]) + MAX_ATTEMPTS + 1 - q[|q| - 1].attempt
  }

  lemma {:induction false} FuelConcat(a: seq<Letter>, b: seq<Letter>)
    ensures Fuel(a + b) == Fuel(a) + Fuel(b)
    decreases |b|
  {
    if b == [] { assert a + b == a; } else {
      FuelConcat(a, b[..|b| - 1]);
      assert (a + b)[..|a + b| - 1] == a + b[..|b| - 1];
    }
  }

  lemma FuelSingle(m: Letter)
    ensures Fuel([m]) == MAX_ATTEMPTS + 1 - m.attempt
  {
    assert [m][..0] == [];
  }

  lemma FuelThree(a: seq<Letter>, m: Letter, b: seq<Letter>)
    ensures Fuel(a + [m] + b) == Fuel(a + b) + MAX_ATTEMPTS + 1 - m.attempt
  {
    FuelConcat(a + [m], b);
    FuelConcat(a, [m]);
    FuelConcat(a, b);
    FuelSingle(m);
  }

  lemma FuelWithout(q: seq<Letter>, i: nat)
    requires i < |q|
    ensures Fuel(q) == Fuel(Without(q, i)) + MAX_ATTEMPTS + 1 - q[i].attempt
  {
    Around(q, i);
    FuelThree(q[..i], q[i], q[i + 1..]);
  }

  lemma {:induction false} FuelNonnegative(q: seq<Letter>)
    requires QueueOk(q)
    ensures Fuel(q) >= |q|
  {
    if q != [] { FuelNonnegative(q[..|q| - 1]); }
  }

  /** Handling a message uses up fuel, whatever the broker answers. */
  lemma HandleUsesFuel(st: State, i: nat, resendOk: bool, sendOk: bool)
    requires QueueOk(st.queue) && i < |st.queue|
    ensures Fuel(HandleStep(st, i, resendOk, sendOk).queue) < Fuel(st.queue)
  {
    var m, q := st.queue[i], Without(st.queue, i);
    FuelWithout(st.queue, i);
    var next := Letter(m.origin, m.attempt + 1, RetryAfterMs(m.attempt + 1));
    FuelConcat(q, [next]);
    FuelSingle(next);
  }

  /** Handlings of queued messages. */
  function Handlings(es: seq<Event>): nat {
    if es == [] then 0 else
      var p, e := es[..|es| - 1], es[|es| - 1];
      Handlings(p) + if e.Handle? && e.index < |After(p).queue| then 1 else 0
  }

  lemma FailFuel(st: State, origin: nat, sendOk: bool)
    ensures Fuel(Publish(st, origin, 0, sendOk).queue) <= Fuel(st.queue) + MAX_ATTEMPTS + 1
  {
    var m := Letter(origin, 0, RetryAfterMs(0));
    FuelConcat(st.queue, [m]);
    FuelSingle(m);
  }

  /** Over any run the queue is handled at most four times per original failure. */
  lemma {:induction false} HandlingsBounded(es: seq<Event>)
    ensures Handlings(es) + Fuel(After(es).queue) <= (MAX_ATTEMPTS + 1) * Failures(es)
    ensures Handlings(es) <= (MAX_ATTEMPTS + 1) * Failures(es)
  {
    AttemptsInRange(es);
    FuelNonnegative(After(es).queue);
    if es != [] {
      var p, e := es[..|es| - 1], es[|es| - 1];
      HandlingsBounded(p);
      AttemptsInRange(p);
      var st := After(p);
      match e
      case Fail(origin, sendOk) => FailFuel(st, origin, sendOk);
      case Handle(i, resendOk, sendOk) =>
        if i < |st.queue| { HandleUsesFuel(st, i, resendOk, sendOk); }
    }
  }

  // ------------------------------------------- per failure

  /** The event is about the failure: it reports it or takes up a queued message of it. */
  predicate Concerns(st: State, e: Event, origin: nat) {
    match e
    case Fail(o, _) => o == origin
    case Handle(i, _, _) => i < |st.queue| && st.queue[i].origin == origin
  }

  /** The event sends a message of the failure to its topic again, well or badly: told by the counters. */
  predicate Resends(st: State, e: Event, origin: nat) {
    Concerns(st, e, origin) &&
    Step(st, e).retried + Step(st, e).resendFailed == st.retried + st.resendFailed + 1
  }

  /** The event queues a message for the failure. */
  predicate Queues(st: State, e: Event, origin: nat) {
    Concerns(st, e, origin) && Step(st, e).enqueued == st.enqueued + 1
  }

  function Resendings(es: seq<Event>, origin: nat): nat {
    if es == [] then 0 else
      var p := es[..|es| - 1];
      Resendings(p, origin) + if Resends(After(p), es[|es| - 1], origin) then 1 else 0
  }

  function Publications(es: seq<Event>, origin: nat): nat {
    if es == [] then 0 else
      var p := es[..|es| - 1];
      Publications(p, origin) + if Queues(After(p), es[|es| - 1], origin) then 1 else 0
  }

  function Count(q: seq<Letter>, origin: nat): nat {
    if q == [] then 0 else Count(q[..|q| - 1], origin) + if q[|q| - 1].origin == origin then 1 else 0
  }

  /** Each failure is reported once. */
  ghost predicate Valid(es: seq<Event>) {
    forall i, j | 0 <= i < j < |es| && es[i].Fail? && es[j].Fail? :: es[i].origin != es[j].origin
  }

  predicate Reported(es: seq<Event>, origin: nat) {
    es != [] && ((es[|es| - 1].Fail? && es[|es| - 1].origin == origin) || Reported(es[..|es| - 1], origin))
  }

  lemma {:induction false} CountConcat(a: seq<Letter>, b: seq<Letter>, origin: nat)
    ensures Count(a + b, origin) == Count(a, origin) + Count(b, origin)
    decreases |b|
  {
    if b == [] { assert a + b == a; } else {
      CountConcat(a, b[..|b| - 1], origin);
      assert (a + b)[..|a + b| - 1] == a + b[..|b| - 1];
    }
  }

  lemma CountThree(a: seq<Letter>, m: Letter, b: seq<Letter>, origin: nat)
    ensures Count(a + [m] + b, origin) == Count(a + b, origin) + if m.origin == origin then 1 else 0
  {
    CountConcat(a + [m], b, origin);
    CountConcat(a, [m], origin);
    CountConcat(a, b, origin);
    assert [m][..0] == [];
  }

  lemma CountWithout(q: seq<Letter>, i: nat, origin: nat)
    requires i < |q|
    ensures Count(q, origin) == Count(Without(q, i), origin) + if q[i].origin == origin then 1 else 0
  {
    CountThree(q[..i], q[i], q[i + 1..], origin);
    assert q == q[..i] + [q[i]] + q[i + 1..];
  }

  lemma {:induction false} CountPresent(q: seq<Letter>, i: nat)
    requires i < |q|
    ensures Count(q, q[i].origin) >= 1
  {
    if i < |q| - 1 { CountPresent(q[..|q| - 1], i); }
  }

  lemma CountZero(q: seq<Letter>, origin: nat)
    requires Count(q, origin) == 0
    ensures forall m | m in q :: m.origin != origin
  {
    forall i | 0 <= i < |q| ensures q[i].origin != origin { CountPresent(q, i); }
  }

  /**
   Where a failure stands: at most one message of it is queued, and its attempt
   number counts the resends and publications so far.
   */
  ghost predicate Standing(q: seq<Letter>, origin: nat, resendings: nat, publications: nat) {
    Count(q, origin) <= 1 && resendings <= MAX_ATTEMPTS && publications <= MAX_ATTEMPTS + 1 &&
    forall m | m in q && m.origin == origin :: resendings == m.attempt && publications == m.attempt + 1
  }

  lemma PublishStands(st: State, origin: nat, attempt: int, sendOk: bool, resendings: nat, publications: nat)
    requires Count(st.queue, origin) == 0 && 0 <= attempt <= MAX_ATTEMPTS
    requires resendings == attempt == publications
    ensures Standing(Publish(st, origin, attempt, sendOk).queue, origin, resendings,
                     publications + if sendOk then 1 else 0)
  {
    var m := Letter(origin, attempt, RetryAfterMs(attempt));
    CountZero(st.queue, origin);
    CountConcat(st.queue, [m], origin);
    assert Count([m], origin) == 1;
  }

  lemma PublishOther(st: State, other: nat, attempt: int, sendOk: bool, origin: nat, resendings: nat, publications: nat)
    requires Standing(st.queue, origin, resendings, publications) && other != origin
    ensures Standing(Publish(st, other, attempt, sendOk).queue, origin, resendings, publications)
    ensures Count(Publish(st, other, attempt, sendOk).queue, origin) == Count(st.queue, origin)
  {
    var m := Letter(other, attempt, RetryAfterMs(attempt));
    CountConcat(st.queue, [m], origin);
    assert Count([m], origin) == 0;
  }

  lemma HandleStands(st: State, e: Event, origin: nat, resendings: nat, publications: nat)
    requires QueueOk(st.queue) && e.Handle? && Standing(st.queue, origin, resendings, publications)
    ensures Standing(Step(st, e).queue, origin,
                     resendings + (if Resends(st, e, origin) then 1 else 0),
                     publications + (if Queues(st, e, origin) then 1 else 0))
    ensures Count(st.queue, origin) == 0 ==> Count(Step(st, e).queue, origin) == 0
  {
    var i := e.index;
    if i < |st.queue| {
      var m, q := st.queue[i], Without(st.queue, i);
      CountWithout(st.queue, i, origin);
      assert m in st.queue && forall x | x in q :: x in st.queue;
      if m.origin == origin {
        OwnHandled(st, e, origin, resendings, publications);
      } else {
        OtherHandled(st, e, origin, resendings, publications);
      }
    }
  }

  lemma OtherHandled(st: State, e: Event, origin: nat, resendings: nat, publications: nat)
    requires e.Handle? && e.index < |st.queue| && !Concerns(st, e, origin)
    requires Standing(Without(st.queue, e.index), origin, resendings, publications)
    ensures Standing(Step(st, e).queue, origin, resendings, publications)
    ensures Count(Step(st, e).queue, origin) == Count(Without(st.queue, e.index), origin)
  {
    var m, q := st.queue[e.index], Without(st.queue, e.index);
    PublishOther(st.(queue := q, resendFailed := st.resendFailed + 1), m.origin, m.attempt + 1, e.sendOk, origin,
                 resendings, publications);
  }

  /** What the counters tell of a handling. */
  lemma HandleCounters(st: State, e: Event, origin: nat)
    requires e.Handle? && Concerns(st, e, origin)
    ensures var given := GivesUp(st.queue[e.index]);
            (Resends(st, e, origin) <==> !given) &&
            (Queues(st, e, origin) <==> !given && !e.resendOk && e.sendOk) &&
            (given || e.resendOk ==> Step(st, e).queue == Without(st.queue, e.index))
  {
  }

  lemma OwnHandled(st: State, e: Event, origin: nat, resendings: nat, publications: nat)
    requires QueueOk(st.queue) && e.Handle? && Standing(st.queue, origin, resendings, publications)
    requires Concerns(st, e, origin) && Count(Without(st.queue, e.index), origin) == 0
    ensures Standing(Step(st, e).queue, origin,
                     resendings + (if Resends(st, e, origin) then 1 else 0),
                     publications + (if Queues(st, e, origin) then 1 else 0))
  {
    var m, q := st.queue[e.index], Without(st.queue, e.index);
    assert m in st.queue && LetterOk(m);
    CountZero(q, origin);
    HandleCounters(st, e, origin);
    if !GivesUp(m) && !e.resendOk {
      PublishStands(st.(queue := q, resendFailed := st.resendFailed + 1), origin, m.attempt + 1, e.sendOk,
                    resendings + 1, publications);
    }
  }

  lemma {:induction false} NotReported(es: seq<Event>, origin: nat)
    requires forall i | 0 <= i < |es| && es[i].Fail? :: es[i].origin != origin
    ensures !Reported(es, origin)
  {
    if es != [] { NotReported(es[..|es| - 1], origin); }
  }

  lemma {:induction false} AlwaysStanding(es: seq<Event>, origin: nat)
    requires Valid(es)
    ensures Standing(After(es).queue, origin, Resendings(es, origin), Publications(es, origin))
    ensures !Reported(es, origin) ==>
              Count(After(es).queue, origin) == Publications(es, origin) == Resendings(es, origin) == 0
  {
    if es != [] {
      var p, e := es[..|es| - 1], es[|es| - 1];
      AlwaysStanding(p, origin);
      AttemptsInRange(p);
      match e
      case Fail(o, sendOk) =>
        if o == origin {
          assert forall i | 0 <= i < |p| && p[i].Fail? :: p[i] == es[i] && es[i].origin != origin;
          NotReported(p, origin);
          PublishStands(After(p), origin, 0, sendOk, 0, 0);
        } else {
          PublishOther(After(p), o, 0, sendOk, origin, Resendings(p, origin), Publications(p, origin));
        }
      case Handle(i, resendOk, sendOk) =>
        HandleStands(After(p), e, origin, Resendings(p, origin), Publications(p, origin));
        if !Reported(p, origin) && i < |After(p).queue| {
          CountPresent(After(p).queue, i);
        }
    }
  }

  // ------------------------------------------- what becomes of a failure

  lemma AfterSnoc(es: seq<Event>, e: Event)
    ensures After(es + [e]) == Step(After(es), e)
  {
    assert (es + [e])[..|es|] == es;
  }

  /** The delays of the four attempts; -1 is never. */
  predicate Delayed(m: Letter) {
    (m.attempt == 0 && m.retryAfter == 30_000) || (m.attempt == 1 && m.retryAfter == 300_000) ||
    (m.attempt == 2 && m.retryAfter == 1_800_000) || (m.attempt == 3 && m.retryAfter == -1)
  }

  /** Half a minute, five minutes, half an hour, never. */
  lemma DelaysOfQueued(es: seq<Event>)
    ensures forall m | m in After(es).queue :: Delayed(m)
  {
    AttemptsInRange(es);
  }

  /** A failed publication is queued as attempt 0, to be resent after half a minute, or lost. */
  lemma FailExact(es: seq<Event>, origin: nat, sendOk: bool)
    ensures var st, after := After(es), After(es + [Fail(origin, sendOk)]);
            if sendOk then
              after == st.(queue := st.queue + [Letter(origin, 0, 30_000)], enqueued := st.enqueued + 1)
            else after == st.(dropped := st.dropped + 1)
  {
    AfterSnoc(es, Fail(origin, sendOk));
  }

  /** What handling `m` makes of a queue that is in state `left` but for its counters once `m` is off it. */
  predicate Handled(left: State, m: Letter, resendOk: bool, sendOk: bool, after: State) {
    if m.attempt == 3 then after == left.(permanent := left.permanent + 1)
    else if resendOk then after == left.(retried := left.retried + 1)
    else if !sendOk then after == left.(resendFailed := left.resendFailed + 1, dropped := left.dropped + 1)
    else
      var delay := if m.attempt == 0 then 300_000 else if m.attempt == 1 then 1_800_000 else -1;
      after == left.(queue := left.queue + [Letter(m.origin, m.attempt + 1, delay)],
                     resendFailed := left.resendFailed + 1, enqueued := left.enqueued + 1)
  }

  /**
   In every reachable state a handled message of attempt 3 is given up; one of attempt
   0, 1 or 2 is resent, and where the broker refuses that, queued as the next attempt.
   */
  lemma HandleExact(es: seq<Event>, i: nat, resendOk: bool, sendOk: bool)
    requires i < |After(es).queue|
    ensures var st := After(es);
            0 <= st.queue[i].attempt <= 3 &&
            Handled(st.(queue := Without(st.queue, i)), st.queue[i], resendOk, sendOk,
                    After(es + [Handle(i, resendOk, sendOk)]))
  {
    AfterSnoc(es, Handle(i, resendOk, sendOk));
    AttemptsInRange(es);
    assert LetterOk(After(es).queue[i]);
  }

  /** A handled message is given up, and not resent, exactly when its failure has been resent three times. */
  lemma GivenUpExactly(es: seq<Event>, i: nat, resendOk: bool, sendOk: bool)
    requires Valid(es) && i < |After(es).queue|
    ensures var st, origin := After(es), After(es).queue[i].origin;
            var after := After(es + [Handle(i, resendOk, sendOk)]);
            (after.permanent == st.permanent + 1 <==> Resendings(es, origin) == 3) &&
            (after.permanent == st.permanent <==> Resendings(es, origin) < 3) &&
            (Resendings(es, origin) < 3 <==>
              after.retried + after.resendFailed == st.retried + st.resendFailed + 1)
  {
    var m := After(es).queue[i];
    AlwaysStanding(es, m.origin);
    assert m in After(es).queue;
    HandleExact(es, i, resendOk, sendOk);
  }

  /** Events about the failure after which one counter is up by one. */
  datatype Fate = Retried | GivenUp | Lost

  function Tally(st: State, f: Fate): nat {
    match f
    case Retried => st.retried
    case GivenUp => st.permanent
    case Lost => st.dropped
  }

  function Met(es: seq<Event>, origin: nat, f: Fate): nat {
    if es == [] then 0 else
      var p, e := After(es[..|es| - 1]), es[|es| - 1];
      Met(es[..|es| - 1], origin, f) +
      if Concerns(p, e, origin) && Tally(Step(p, e), f) > Tally(p, f) then 1 else 0
  }

  /** What the event adds to the queue's messages of the failure and to its fates. */
  function Adds(st: State, e: Event, origin: nat, f: Fate): int {
    if Concerns(st, e, origin) && Tally(Step(st, e), f) > Tally(st, f) then 1 else 0
  }

  lemma PublishCount(st: State, origin: nat, attempt: int, sendOk: bool, o: nat)
    ensures Count(Publish(st, origin, attempt, sendOk).queue, o)
              == Count(st.queue, o) + if sendOk && origin == o then 1 else 0
  {
    var m := Letter(origin, attempt, RetryAfterMs(attempt));
    CountConcat(st.queue, [m], o);
    assert [m][..0] == [];
  }

  lemma StepKeepsFates(st: State, e: Event, o: nat)
    ensures Count(Step(st, e).queue, o) + Adds(st, e, o, Retried) + Adds(st, e, o, GivenUp) + Adds(st, e, o, Lost)
              == Count(st.queue, o) + if e.Fail? && e.origin == o then 1 else 0
  {
    match e
    case Fail(origin, sendOk) => PublishCount(st, origin, 0, sendOk, o);
    case Handle(i, resendOk, sendOk) =>
      if i < |st.queue| {
        var m, q := st.queue[i], Without(st.queue, i);
        CountWithout(st.queue, i, o);
        PublishCount(st.(queue := q, resendFailed := st.resendFailed + 1), m.origin, m.attempt + 1, sendOk, o);
      }
  }

  /**
   A failure has exactly one fate: it is queued, in one message, or was resent with
   success, given up or lost in publishing, once.
   */
  lemma {:induction false} OneFate(es: seq<Event>, o: nat)
    requires Valid(es)
    ensures Count(After(es).queue, o) + Met(es, o, Retried) + Met(es, o, GivenUp) + Met(es, o, Lost)
              == if Reported(es, o) then 1 else 0
  {
    if es != [] {
      var p, e := es[..|es| - 1], es[|es| - 1];
      OneFate(p, o);
      StepKeepsFates(After(p), e, o);
      if e.Fail? && e.origin == o {
        assert forall i | 0 <= i < |p| && p[i].Fail? :: p[i] == es[i] && es[i].origin != o;
        NotReported(p, o);
      }
    }
  }

  /** The run that is refused everywhere: three resends and four publications, and then the end. */
  lemma BoundsAreReached(o: nat)
    ensures var es := [Fail(o, true), Handle(0, false, true), Handle(0, false, true), Handle(0, false, true)];
            Valid(es) && Resendings(es, o) == 3 && Publications(es, o) == 4 &&
            After(es).queue == [Letter(o, 3, -1)] &&
            After(es + [Handle(0, true, true)]) == State([], 4, 0, 1, 3, 0)
  {
    var f, h := Fail(o, true), Handle(0, false, true);
    var s0, s1, s2, s3 := State([Letter(o, 0, 30_000)], 1, 0, 0, 0, 0), State([Letter(o, 1, 300_000)], 2, 0, 0, 1, 0),
                          State([Letter(o, 2, 1_800_000)], 3, 0, 0, 2, 0), State([Letter(o, 3, -1)], 4, 0, 0, 3, 0);
    FirstThree(o);
    assert [f, h, h] + [h] == [f, h, h, h];
    Refused(s2, o, 2, s3);
    Counted([f, h, h], h, o, s2, s3);
    assert Without(s3.queue, 0) == [];
    AfterSnoc([f, h, h, h], Handle(0, true, true));
  }

  lemma FirstThree(o: nat)
    ensures var es := [Fail(o, true), Handle(0, false, true), Handle(0, false, true)];
            Resendings(es, o) == 2 && Publications(es, o) == 3 &&
            After(es) == State([Letter(o, 2, 1_800_000)], 3, 0, 0, 2, 0)
  {
    var f, h := Fail(o, true), Handle(0, false, true);
    var s0, s1, s2 := State([Letter(o, 0, 30_000)], 1, 0, 0, 0, 0), State([Letter(o, 1, 300_000)], 2, 0, 0, 1, 0),
                      State([Letter(o, 2, 1_800_000)], 3, 0, 0, 2, 0);
    assert [] + [f] == [f] && [f] + [h] == [f, h] && [f, h] + [h] == [f, h, h];
    assert [] + [Letter(o, 0, 30_000)] == [Letter(o, 0, 30_000)];
    Counted([], f, o, EMPTY, s0);
    Refused(s0, o, 0, s1);
    Counted([f], h, o, s0, s1);
    Refused(s1, o, 1, s2);
    Counted([f, h], h, o, s1, s2);
  }

  /** The only queued message is taken up, refused, and queued again. */
  lemma Refused(st: State, o: nat, attempt: nat, after: State)
    requires attempt <= 2 && st.queue == [Letter(o, attempt, RetryAfterMs(attempt))]
    requires after == st.(queue := [Letter(o, attempt + 1, RetryAfterMs(attempt + 1))],
                          resendFailed := st.resendFailed + 1, enqueued := st.enqueued + 1)
    ensures Step(st, Handle(0, false, true)) == after
    ensures Resends(st, Handle(0, false, true), o) && Queues(st, Handle(0, false, true), o)
  {
    assert Without(st.queue, 0) == [];
    assert [] + after.queue == after.queue;
  }

  /** One event of a run written out. */
  lemma Counted(es: seq<Event>, e: Event, o: nat, st: State, after: State)
    requires After(es) == st && Step(st, e) == after
    ensures After(es + [e]) == after
    ensures Resendings(es + [e], o) == Resendings(es, o) + if Resends(st, e, o) then 1 else 0
    ensures Publications(es + [e], o) == Publications(es, o) + if Queues(st, e, o) then 1 else 0
  {
    assert (es + [e])[..|es|] == es;
  }

  /** An original failure causes at most three resends and four dead-letter messages. */
  lemma RetriesBounded(es: seq<Event>, origin: nat)
    requires Valid(es)
    ensures Resendings(es, origin) <= 3 && Publications(es, origin) <= 4
  {
    AlwaysStanding(es, origin);
  }

  // ---------------------------------------------------------------- the service

  class DlqService {
    var queue: seq<Letter>
    var enqueued: nat
    var retried: nat
    var permanent: nat
    var resendFailed: nat
    var dropped: nat

    function Contents(): State
      reads this
    {
      State(queue, enqueued, retried, permanent, resendFailed, dropped)
    }

    constructor ()
      ensures Contents() == EMPTY
    {
      queue, enqueued, retried, permanent, resendFailed, dropped := [], 0, 0, 0, 0, 0;
    }

    method PublishToDlq(origin: nat, attempt: int, sendOk: bool)
      modifies this
      ensures Contents() == Publish(old(Contents()), origin, attempt, sendOk)
    {
      var letter := Letter(origin, attempt, RetryAfterMs(attempt));
      if sendOk {
        queue := queue + [letter];
        enqueued := enqueued + 1;
      } else {
        dropped := dropped + 1;
      }
    }

    /** The subscriber's handler for the queued message at `index`. */
    method EachMessage(index: nat, resendOk: bool, sendOk: bool)
      requires index < |queue|
      modifies this
      ensures Contents() == HandleStep(old(Contents()), index, resendOk, sendOk)
    {
      var dlqMsg := queue[index];
      queue := queue[..index] + queue[index + 1..];
      if dlqMsg.retryAfter == -1 || dlqMsg.attempt >= 3 {
        permanent := permanent + 1;
        return;
      }
      if resendOk {
        retried := retried + 1;
      } else {
        resendFailed := resendFailed + 1;
        PublishToDlq(dlqMsg.origin, dlqMsg.attempt + 1, sendOk);
      }
    }
  }
}
