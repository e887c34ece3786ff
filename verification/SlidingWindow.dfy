/**
 The sliding-window limiter kept in a Redis sorted set.  Every call is recorded,
 admitted or not; entries older than the window are trimmed; the set as a whole
 expires.  A run interleaves the calls of one identifier with expiries of its set
 and with calls whose pipeline gave no reply.
 */
module SlidingWindow {
  import opened Wrappers

  type Members = map<string, nat>

  /** The sorted set (request id to score) and the instant its time-to-live ends. */
  datatype Window = Window(members: Members, expiresAt: nat)

  datatype Verdict = Verdict(allowed: bool, remaining: int, resetAt: nat)

  function Max(a: int, b: int): int { if a >= b then a else b }

  /** `Math.ceil(windowMs / 1000)`. */
  function CeilSeconds(windowMs: nat): nat { (windowMs + 999) / 1000 }

  /** What `zremrangebyscore 0 upTo` leaves. */
  function Trim(m: Members, upTo: int): Members {
    map id | id in m && !(0 <= m[id] <= upTo) :: m[id]
  }

  function MembersOf(w: Option<Window>): Members {
    if w.Some? then w.value.members else map[]
  }

  function Judge(count: nat, now: nat, limit: int, windowMs: nat): Verdict {
    Verdict(count <= limit, Max(0, limit - count), now + windowMs)
  }

  function Step(w: Option<Window>, now: nat, id: string, limit: int, windowMs: nat): (Window, Verdict) {
    var m := Trim(MembersOf(w)[id := now], now - windowMs);
    (Window(m, now + 1000 * CeilSeconds(windowMs)), Judge(|m|, now, limit, windowMs))
  }

  /** A pipeline without a usable reply admits the call. */
  function FailOpen(now: nat, limit: int, windowMs: nat): Verdict {
    Verdict(true, Max(0, limit), now + windowMs)
  }

  // ---------------------------------------------------------------- runs

  datatype Event =
    | Call(now: nat, id: string, limit: int, windowMs: nat)
    | Fault(now: nat, limit: int, windowMs: nat)
    | Expire(now: nat)

  function Apply(w: Option<Window>, e: Event): Option<Window> {
    match e
    case Call(now, id, limit, windowMs) => Some(Step(w, now, id, limit, windowMs).0)
    case Fault(_, _, _) => w
    case Expire(now) => Unexpired(w, now)
  }

  /** What is left of the set at `now` if Redis has got round to dropping it. */
  function Unexpired(w: Option<Window>, now: nat): Option<Window> {
    if w.Some? && now >= w.value.expiresAt then None else w
  }

  function State(es: seq<Event>): Option<Window> {
    if es == [] then None else Apply(State(es[..|es| - 1]), es[|es| - 1])
  }

  function VerdictOf(es: seq<Event>, e: Event): Verdict
    requires e.Call?
  {
    Step(State(es), e.now, e.id, e.limit, e.windowMs).1
  }

  /** The clock never goes back and request ids are fresh. */
  predicate Later(e: Event, f: Event) { e.now <= f.now && (e.Call? && f.Call? ==> e.id != f.id) }

  ghost predicate Timed(es: seq<Event>) {
    forall i, j {:trigger Later(es[i], es[j])} | 0 <= i < j < |es| :: Later(es[i], es[j])
  }

  /** Besides, the window asked for one identifier never grows. */
  predicate InOrder(e: Event, f: Event) {
    Later(e, f) && (e.Call? && f.Call? ==> f.windowMs <= e.windowMs)
  }

  ghost predicate Valid(es: seq<Event>) {
    forall i, j {:trigger InOrder(es[i], es[j])} | 0 <= i < j < |es| :: InOrder(es[i], es[j])
  }

  /** Recorded calls, admitted or refused, made after `since`. */
  function CallsSince(es: seq<Event>, since: int): nat {
    if es == [] then 0 else
      var last := es[|es| - 1];
      CallsSince(es[..|es| - 1], since) + if last.Call? && last.now > since then 1 else 0
  }

  /** The run's last event is a recorded call that was admitted. */
  predicate RecordedLast(es: seq<Event>)
    requires es != []
  {
    es[|es| - 1].Call? && VerdictOf(es[..|es| - 1], es[|es| - 1]).allowed
  }

  /** The run's last event is a call that was admitted, recorded or not. */
  predicate AdmittedLast(es: seq<Event>)
    requires es != []
  {
    var e := es[|es| - 1];
    RecordedLast(es) || (e.Fault? && FailOpen(e.now, e.limit, e.windowMs).allowed)
  }

  /** Calls admitted in (since, until]. */
  function AdmittedIn(es: seq<Event>, since: int, until: int): nat {
    if es == [] then 0 else
      AdmittedIn(es[..|es| - 1], since, until) +
      if since < es[|es| - 1].now <= until && AdmittedLast(es) then 1 else 0
  }

  /** Calls in (since, until] whose pipeline gave no reply. */
  function FaultsIn(es: seq<Event>, since: int, until: int): nat {
    if es == [] then 0 else
      FaultsIn(es[..|es| - 1], since, until) +
      if since < es[|es| - 1].now <= until && es[|es| - 1].Fault? then 1 else 0
  }

  /** For each event, whether it is a recorded call admitted in (since, until]. */
  function Flags(es: seq<Event>, since: int, until: int): (fs: seq<bool>)
    ensures |fs| == |es|
  {
    if es == [] then [] else
      Flags(es[..|es| - 1], since, until) + [since < es[|es| - 1].now <= until && RecordedLast(es)]
  }

  function CountTrue(fs: seq<bool>): nat {
    if fs == [] then 0 else CountTrue(fs[..|fs| - 1]) + if fs[|fs| - 1] then 1 else 0
  }

  /** Recorded calls admitted in (since, until]. */
  function RecordedIn(es: seq<Event>, since: int, until: int): nat { CountTrue(Flags(es, since, until)) }

  lemma {:induction false} AdmittedSplit(es: seq<Event>, since: int, until: int)
    ensures AdmittedIn(es, since, until) == RecordedIn(es, since, until) + FaultsIn(es, since, until)
  {
    if es != [] {
      AdmittedSplit(es[..|es| - 1], since, until);
      assert Flags(es, since, until)[..|es| - 1] == Flags(es[..|es| - 1], since, until);
    }
  }

  // ------------------------------------------- the store tracks the history

  function Record(h: Members, e: Event): Members {
    if e.Call? then h[e.id := e.now] else h
  }

  /** Every call of the run, never trimmed. */
  function History(es: seq<Event>): Members {
    if es == [] then map[] else Record(History(es[..|es| - 1]), es[|es| - 1])
  }

  lemma {:induction false} HistoryOrigin(es: seq<Event>, id: string)
    requires id in History(es)
    ensures exists i :: 0 <= i < |es| && es[i].Call? && es[i].id == id && es[i].now == History(es)[id]
  {
    var last := es[|es| - 1];
    if !(last.Call? && last.id == id) {
      HistoryOrigin(es[..|es| - 1], id);
      var p := es[..|es| - 1];
      var i :| 0 <= i < |p| && p[i].Call? && p[i].id == id && p[i].now == History(p)[id];
      assert es[i].now == History(es)[id];
    }
  }

  /** The set outlives every recorded call by at least any window still asked for. */
  lemma {:induction false} OutlivesCalls(es: seq<Event>, i: nat, w: nat)
    requires Valid(es) && i < |es| && es[i].Call?
    requires forall j :: 0 <= j < |es| && es[j].Call? ==> w <= es[j].windowMs
    ensures State(es).Some? ==> es[i].now + w <= State(es).value.expiresAt
  {
    var n := |es| - 1;
    if i < n {
      OutlivesCalls(es[..n], i, w);
      assert InOrder(es[i], es[n]);
    }
  }

  /** A call sets its key to live for the least number of whole seconds that covers its window. */
  lemma KeyLifetime(es: seq<Event>, e: Event)
    requires e.Call?
    ensures var w := State(es + [e]);
            w.Some? && (w.value.expiresAt - e.now) % 1000 == 0 &&
            e.windowMs <= w.value.expiresAt - e.now < e.windowMs + 1000
  {
    assert (es + [e])[..|es|] == es;
  }

  /** Dropping the set at its expiry loses nothing that the trim for a later call would keep. */
  lemma ExpiryKeepsNothing(es: seq<Event>, u: nat, w: nat)
    requires Valid(es) && State(es).Some? && u >= State(es).value.expiresAt
    requires forall i :: 0 <= i < |es| && es[i].Call? ==> w <= es[i].windowMs
    ensures Trim(History(es), u - w) == map[]
  {
    forall id | id in History(es)
      ensures History(es)[id] <= u - w
    {
      HistoryOrigin(es, id);
      var i :| 0 <= i < |es| && es[i].Call? && es[i].id == id && es[i].now == History(es)[id];
      OutlivesCalls(es, i, w);
    }
  }

  /** No event is later than t and no call asked for less than w. */
  ghost predicate Covered(es: seq<Event>, t: nat, w: nat) {
    forall i | 0 <= i < |es| :: es[i].now <= t && (es[i].Call? ==> w <= es[i].windowMs)
  }

  lemma CallTracks(m: Members, h: Members, e: Event, t: nat, w: nat)
    requires Trim(m, t - w) == Trim(h, t - w) && e.Call? && e.now <= t && w <= e.windowMs
    ensures Trim(Trim(m[e.id := e.now], e.now - e.windowMs), t - w) == Trim(Record(h, e), t - w)
  {
    TrimStep(m, h, e.id, e.now, e.now - e.windowMs, t - w);
  }

  /** One event keeps store and history in agreement from the horizon on. */
  lemma TracksStep(s: Option<Window>, h: Members, e: Event, t: nat, w: nat)
    requires Trim(MembersOf(s), t - w) == Trim(h, t - w)
    requires e.now <= t && (e.Call? ==> w <= e.windowMs)
    requires e.Expire? && s.Some? && e.now >= s.value.expiresAt ==> Trim(h, t - w) == map[]
    ensures Trim(MembersOf(Apply(s, e)), t - w) == Trim(Record(h, e), t - w)
  {
    match e
    case Call(_, _, _, _) => CallTracks(MembersOf(s), h, e, t, w);
    case Fault(_, _, _) =>
    case Expire(now) => assert Record(h, e) == h;
  }

  /** For every window still to be asked for, the stored set and the full history agree. */
  lemma {:induction false} Tracks(es: seq<Event>, t: nat, w: nat)
    requires Valid(es) && Covered(es, t, w)
    ensures Trim(MembersOf(State(es)), t - w) == Trim(History(es), t - w)
  {
    if es != [] {
      var p, e := es[..|es| - 1], es[|es| - 1];
      assert Covered(p, t, w);
      Tracks(p, t, w);
      if e.Expire? && State(p).Some? && e.now >= State(p).value.expiresAt {
        ExpiryKeepsNothing(p, e.now, w);
        TrimTwice(History(p), e.now - w, t - w);
      }
      TracksStep(State(p), History(p), e, t, w);
    }
  }

  /** What a recorded call does to agreement from `lo` on, when it trims up to `a`. */
  lemma TrimStep(m: Members, h: Members, id: string, u: nat, a: int, lo: int)
    requires Trim(m, lo) == Trim(h, lo) && a <= lo
    ensures Trim(Trim(m[id := u], a), lo) == Trim(h[id := u], lo)
  {
    TrimUpdate(m, h, id, u, lo);
    TrimTwice(m[id := u], a, lo);
  }

  lemma TrimTwice(m: Members, a: int, b: int)
    requires a <= b
    ensures Trim(Trim(m, a), b) == Trim(m, b)
  {
  }

  lemma TrimUpdate(m: Members, h: Members, id: string, u: nat, lo: int)
    requires Trim(m, lo) == Trim(h, lo)
    ensures Trim(m[id := u], lo) == Trim(h[id := u], lo)
  {
    var a, b := Trim(m[id := u], lo), Trim(h[id := u], lo);
    forall k
      ensures k in a <==> k in b
      ensures k in a ==> a[k] == b[k]
    {
      assert k in Trim(m, lo) <==> k in Trim(h, lo);
      assert k in Trim(m, lo) ==> Trim(m, lo)[k] == Trim(h, lo)[k];
    }
  }

  lemma FreshId(es: seq<Event>)
    requires Valid(es) && es != [] && es[|es| - 1].Call?
    ensures es[|es| - 1].id !in History(es[..|es| - 1])
  {
    var n := |es| - 1;
    forall id | id in History(es[..n])
      ensures id != es[n].id
    {
      HistoryOrigin(es[..n], id);
      var i :| 0 <= i < n && es[..n][i].Call? && es[..n][i].id == id;
      assert InOrder(es[i], es[n]);
    }
  }

  lemma TrimCount(m: Members, id: string, u: nat, lo: int)
    requires id !in m
    ensures |Trim(m[id := u], lo)| == |Trim(m, lo)| + if u > lo then 1 else 0
  {
    assert Trim(m[id := u], lo) == if u > lo then Trim(m, lo)[id := u] else Trim(m, lo);
  }

  lemma {:induction false} HistoryCount(es: seq<Event>, since: int)
    requires Valid(es)
    ensures |Trim(History(es), since)| == CallsSince(es, since)
  {
    if es != [] {
      var p, e := es[..|es| - 1], es[|es| - 1];
      HistoryCount(p, since);
      if e.Call? {
        FreshId(es);
        TrimCount(History(p), e.id, e.now, since);
      }
    }
  }

  // ------------------------------------------- the promises

  /** The verdict for the exact number of calls in the window of the run's last call. */
  function Deserved(es: seq<Event>): Verdict
    requires es != [] && es[|es| - 1].Call?
  {
    var e := es[|es| - 1];
    var n := CallsSince(es, e.now - e.windowMs);
    Verdict(n <= e.limit, if n < e.limit then e.limit - n else 0, e.now + e.windowMs)
  }

  lemma VerdictIsDeserved(es: seq<Event>)
    requires Valid(es) && es != [] && es[|es| - 1].Call?
    ensures VerdictOf(es[..|es| - 1], es[|es| - 1]) == Deserved(es)
  {
    var e := es[|es| - 1];
    StoreCount(es, e.now - e.windowMs);
    StepCounts(State(es[..|es| - 1]), e);
  }

  /**
   On every run whose windows do not grow a recorded call is admitted exactly when the
   recorded calls of its last `windowMs`, admitted or refused and itself included, are
   within its limit; it is told what is left of the limit, and the end of a window that
   starts now.
   */
  lemma ExactCount(es: seq<Event>)
    requires Valid(es) && es != [] && es[|es| - 1].Call?
    ensures var e, v := es[|es| - 1], VerdictOf(es[..|es| - 1], es[|es| - 1]);
            var n := CallsSince(es, e.now - e.windowMs);
            (v.allowed <==> n <= e.limit) && v.resetAt == e.now + e.windowMs &&
            (n <= e.limit ==> v.remaining == e.limit - n) && (n > e.limit ==> v.remaining == 0)
  {
    VerdictIsDeserved(es);
  }

  /** A call's verdict follows from what its trimmed set counts. */
  lemma StepCounts(w: Option<Window>, e: Event)
    requires e.Call?
    ensures var n := |Trim(MembersOf(w)[e.id := e.now], e.now - e.windowMs)|;
            Step(w, e.now, e.id, e.limit, e.windowMs).1
              == Verdict(n <= e.limit, if n < e.limit then e.limit - n else 0, e.now + e.windowMs)
  {
  }

  lemma LastCovers(es: seq<Event>)
    requires Valid(es) && es != [] && es[|es| - 1].Call?
    ensures Valid(es[..|es| - 1]) && Covered(es[..|es| - 1], es[|es| - 1].now, es[|es| - 1].windowMs)
  {
    var n := |es| - 1;
    forall i | 0 <= i < n
      ensures es[..n][i].now <= es[n].now && (es[..n][i].Call? ==> es[n].windowMs <= es[..n][i].windowMs)
    {
      assert InOrder(es[i], es[n]);
    }
  }

  lemma AgreeingCount(m: Members, h: Members, id: string, u: nat, lo: int)
    requires Trim(m, lo) == Trim(h, lo) && id !in h
    ensures |Trim(m[id := u], lo)| == |Trim(h, lo)| + if u > lo then 1 else 0
  {
    TrimUpdate(m, h, id, u, lo);
    TrimCount(h, id, u, lo);
  }

  /** What the trimmed set counts is the calls of the window. */
  lemma StoreCount(es: seq<Event>, lo: int)
    requires Valid(es) && es != [] && es[|es| - 1].Call? && lo == es[|es| - 1].now - es[|es| - 1].windowMs
    ensures |Trim(MembersOf(State(es[..|es| - 1]))[es[|es| - 1].id := es[|es| - 1].now], lo)| == CallsSince(es, lo)
  {
    var p, e := es[..|es| - 1], es[|es| - 1];
    FreshId(es);
    LastCovers(es);
    Tracks(p, e.now, e.windowMs);
    HistoryCount(p, lo);
    AgreeingCount(MembersOf(State(p)), History(p), e.id, e.now, lo);
  }

  lemma {:induction false} RecordedAreCalls(es: seq<Event>, since: int, until: int)
    ensures RecordedIn(es, since, until) <= CallsSince(es, since)
  {
    if es != [] {
      RecordedAreCalls(es[..|es| - 1], since, until);
      assert Flags(es, since, until)[..|es| - 1] == Flags(es[..|es| - 1], since, until);
    }
  }

  lemma LimitHolds(es: seq<Event>, since: int, until: int)
    requires Valid(es) && es != [] && RecordedLast(es)
    requires es[|es| - 1].now - es[|es| - 1].windowMs <= since
    ensures RecordedIn(es, since, until) <= es[|es| - 1].limit
  {
    var e := es[|es| - 1];
    VerdictIsDeserved(es);
    RecordedAreCalls(es, since, until);
    FewerSinceLater(es, e.now - e.windowMs, since);
  }

  predicate NoneAfter(fs: seq<bool>, i: int)
    requires -1 <= i
  {
    forall j | i < j < |fs| :: !fs[j]
  }

  /** The last true flag, or -1 when there is none. */
  lemma {:induction false} LastTrue(fs: seq<bool>) returns (i: int)
    ensures -1 <= i < |fs| && (i == -1 <==> CountTrue(fs) == 0)
    ensures i >= 0 ==> fs[i] && CountTrue(fs) == CountTrue(fs[..i + 1]) && NoneAfter(fs, i)
  {
    if fs == [] {
      i := -1;
    } else if fs[|fs| - 1] {
      i := |fs| - 1;
      assert fs[..|fs|] == fs;
    } else {
      i := LastTrue(fs[..|fs| - 1]);
      if i >= 0 { assert fs[..|fs| - 1][..i + 1] == fs[..i + 1]; }
    }
  }

  lemma {:induction false} FlagsOfPrefix(es: seq<Event>, n: nat, since: int, until: int)
    requires n <= |es|
    ensures Flags(es, since, until)[..n] == Flags(es[..n], since, until)
  {
    if n == |es| {
      assert es[..n] == es;
    } else {
      var p := es[..|es| - 1];
      FlagsOfPrefix(p, n, since, until);
      assert p[..n] == es[..n];
      assert Flags(es, since, until)[..|p|] == Flags(p, since, until);
    }
  }

  /** A flag says its event is a recorded and admitted call; the flags before it count those of the run up to it. */
  lemma FlagAt(es: seq<Event>, i: nat, since: int, until: int)
    requires i < |es|
    ensures Flags(es, since, until)[i] <==> since < es[i].now <= until && RecordedLast(es[..i + 1])
    ensures CountTrue(Flags(es, since, until)[..i + 1]) == RecordedIn(es[..i + 1], since, until)
  {
    FlagsOfPrefix(es, i + 1, since, until);
    assert Flags(es, since, until)[i] == Flags(es, since, until)[..i + 1][i];
  }

  lemma PrefixValid(es: seq<Event>, n: nat)
    requires Valid(es) && n <= |es|
    ensures Valid(es[..n])
  {
  }

  lemma LimitAt(es: seq<Event>, i: nat, since: int, until: int)
    requires Valid(es) && i < |es| && Flags(es, since, until)[i]
    requires es[i].Call? ==> until - since <= es[i].windowMs
    ensures es[i].Call? && CountTrue(Flags(es, since, until)[..i + 1]) <= es[i].limit
  {
    FlagAt(es, i, since, until);
    PrefixValid(es, i + 1);
    LimitHolds(es[..i + 1], since, until);
  }

  /**
   An interval holds no admitted call but those without a reply, or, when it is no
   longer than the window of the last recorded call it admits, at most as many more
   as the limit given to that call.
   */
  lemma WindowBound(es: seq<Event>, since: int, until: int) returns (last: int)
    requires Valid(es)
    ensures last < 0 ==> AdmittedIn(es, since, until) == FaultsIn(es, since, until)
    ensures last >= 0 ==>
              last < |es| && Flags(es, since, until)[last] && NoneAfter(Flags(es, since, until), last) &&
              es[last].Call? &&
              (until - since <= es[last].windowMs ==>
                AdmittedIn(es, since, until) <= es[last].limit + FaultsIn(es, since, until))
  {
    AdmittedSplit(es, since, until);
    last := LastTrue(Flags(es, since, until));
    if last >= 0 {
      FlagAt(es, last, since, until);
      if until - since <= es[last].windowMs {
        LimitAt(es, last, since, until);
      }
    }
  }

  lemma {:induction false} FewerSinceLater(es: seq<Event>, a: int, b: int)
    requires a <= b
    ensures CallsSince(es, b) <= CallsSince(es, a)
  {
    if es != [] {
      FewerSinceLater(es[..|es| - 1], a, b);
    }
  }

  // ------------------------------------------- expiry is invisible

  function WithoutExpiry(es: seq<Event>): seq<Event> {
    if es == [] then [] else
      var q := WithoutExpiry(es[..|es| - 1]);
      if es[|es| - 1].Expire? then q else q + [es[|es| - 1]]
  }

  /** The verdicts of the calls of a run, in order. */
  function Verdicts(es: seq<Event>): seq<Verdict> {
    if es == [] then [] else
      var vs := Verdicts(es[..|es| - 1]);
      if es[|es| - 1].Call? then vs + [VerdictOf(es[..|es| - 1], es[|es| - 1])] else vs
  }

  lemma {:induction false} WithoutExpirySame(es: seq<Event>, since: int)
    ensures CallsSince(WithoutExpiry(es), since) == CallsSince(es, since)
    ensures forall e :: e in WithoutExpiry(es) ==> e in es
  {
    if es != [] {
      var p, e := es[..|es| - 1], es[|es| - 1];
      WithoutExpirySame(p, since);
      assert !e.Expire? ==> WithoutExpiry(es)[..|WithoutExpiry(p)|] == WithoutExpiry(p);
    }
  }

  /** The event comes in order after each of the run's. */
  ghost predicate Follows(es: seq<Event>, e: Event) { forall x | x in es :: InOrder(x, e) }

  lemma LastFollows(es: seq<Event>)
    requires Valid(es) && es != []
    ensures Valid(es[..|es| - 1]) && Follows(es[..|es| - 1], es[|es| - 1])
  {
    var n := |es| - 1;
    forall x | x in es[..n] ensures InOrder(x, es[n]) {
      var i :| 0 <= i < n && es[i] == x;
      assert InOrder(es[i], es[n]);
    }
  }

  lemma ValidNext(es: seq<Event>, e: Event)
    requires Valid(es) && Follows(es, e)
    ensures Valid(es + [e])
  {
    var all := es + [e];
    forall i, j | 0 <= i < j < |all| ensures InOrder(all[i], all[j]) {
      if j < |es| { assert InOrder(es[i], es[j]); } else { assert es[i] in es; }
    }
  }

  lemma {:induction false} WithoutExpiryValid(es: seq<Event>)
    requires Valid(es)
    ensures Valid(WithoutExpiry(es))
  {
    if es != [] {
      var p, e := es[..|es| - 1], es[|es| - 1];
      LastFollows(es);
      WithoutExpiryValid(p);
      WithoutExpirySame(p, 0);
      if !e.Expire? { ValidNext(WithoutExpiry(p), e); }
    }
  }

  function AllDeserved(es: seq<Event>): seq<Verdict> {
    if es == [] then [] else
      var vs := AllDeserved(es[..|es| - 1]);
      if es[|es| - 1].Call? then vs + [Deserved(es)] else vs
  }

  lemma {:induction false} VerdictsAreDeserved(es: seq<Event>)
    requires Valid(es)
    ensures Verdicts(es) == AllDeserved(es)
  {
    if es != [] {
      PrefixValid(es, |es| - 1);
      VerdictsAreDeserved(es[..|es| - 1]);
      if es[|es| - 1].Call? { VerdictIsDeserved(es); }
    }
  }

  lemma {:induction false} DeservedWithoutExpiry(es: seq<Event>)
    ensures AllDeserved(WithoutExpiry(es)) == AllDeserved(es)
  {
    if es != [] {
      var p, e := es[..|es| - 1], es[|es| - 1];
      var q := WithoutExpiry(p);
      DeservedWithoutExpiry(p);
      assert (q + [e])[..|q|] == q;
      if e.Call? { WithoutExpirySame(es, e.now - e.windowMs); }
    }
  }

  /** A run with its expiries deleted gives every call the same verdict. */
  lemma ExpiryInvisible(es: seq<Event>)
    requires Valid(es)
    ensures Verdicts(WithoutExpiry(es)) == Verdicts(es)
  {
    WithoutExpiryValid(es);
    VerdictsAreDeserved(es);
    VerdictsAreDeserved(WithoutExpiry(es));
    DeservedWithoutExpiry(es);
  }

  lemma Snoc(es: seq<Event>, e: Event)
    ensures State(es + [e]) == Apply(State(es), e)
    ensures forall since: int :: CallsSince(es + [e], since)
              == CallsSince(es, since) + if e.Call? && e.now > since then 1 else 0
  {
    assert (es + [e])[..|es|] == es;
  }

  lemma TwoShortCalls(a: string, b: string, v: nat)
    requires a != b
    ensures MembersOf(State([Call(0, a, 1, v), Call(v, b, 1, v)])) == if v == 0 then map[] else map[b := v]
  {
    var first: Members := map[a := 0];
    Snoc([], Call(0, a, 1, v));
    Snoc([Call(0, a, 1, v)], Call(v, b, 1, v));
    assert [Call(0, a, 1, v)] + [Call(v, b, 1, v)] == [Call(0, a, 1, v), Call(v, b, 1, v)];
    assert [] + [Call(0, a, 1, v)] == [Call(0, a, 1, v)];
    assert State([]) == None && MembersOf(None)[a := 0] == first;
    if v == 0 {
      assert Trim(first, 0) == map[];
      assert Trim(map[b := 0], 0) == map[];
    } else {
      assert Trim(first, 0 - v) == first;
      assert Trim(first[b := v], 0) == map[b := v];
    }
  }

  /**
   The window must not grow: whenever a call asks for a longer window than an
   earlier one did, a run exists whose count misses a call that the longer window covers.
   */
  lemma GrowingWindowForgets(a: string, b: string, c: string, v: nat, w: nat)
    requires a != b && a != c && b != c && v < w
    ensures var es := [Call(0, a, 1, v), Call(v, b, 1, v)];
            var e := Call(v, c, 2, w);
            VerdictOf(es, e).allowed && CallsSince(es + [e], v - w) == 3
  {
    var es := [Call(0, a, 1, v), Call(v, b, 1, v)];
    TwoShortCalls(a, b, v);
    Snoc([], Call(0, a, 1, v));
    assert [] + [Call(0, a, 1, v)] == [Call(0, a, 1, v)];
    Snoc([Call(0, a, 1, v)], Call(v, b, 1, v));
    assert [Call(0, a, 1, v)] + [Call(v, b, 1, v)] == es;
    Snoc(es, Call(v, c, 2, w));
    var m := MembersOf(State(es));
    assert Trim(m[c := v], v - w) == m[c := v];
  }

  // ------------------------------------------- one window is all it can count

  /** Every call of the run asks for a window of the set. */
  predicate Asks(es: seq<Event>, windows: set<nat>) {
    forall i | 0 <= i < |es| && es[i].Call? :: es[i].windowMs in windows
  }

  /** Whatever windows of the set calls ask for, their verdicts are those they deserve. */
  ghost predicate ExactFor(windows: set<nat>) {
    forall es: seq<Event> | es != [] && Timed(es) && Asks(es, windows) && es[|es| - 1].Call? ::
      VerdictOf(es[..|es| - 1], es[|es| - 1]) == Deserved(es)
  }

  /** The run that grows from v to w, and that its last call is not given the verdict it deserves. */
  lemma TwoWindowsMiss(a: string, b: string, c: string, v: nat, w: nat, windows: set<nat>)
    requires a != b && a != c && b != c && v < w && v in windows && w in windows
    ensures !ExactFor(windows)
  {
    var es, e := [Call(0, a, 1, v), Call(v, b, 1, v)], Call(v, c, 2, w);
    GrowingWindowForgets(a, b, c, v, w);
    TwoWindowsTimed(a, b, c, v, w, windows);
    MissesOne(es, e, windows);
  }

  lemma TwoWindowsTimed(a: string, b: string, c: string, v: nat, w: nat, windows: set<nat>)
    requires a != b && a != c && b != c && v in windows && w in windows
    ensures var es := [Call(0, a, 1, v), Call(v, b, 1, v)] + [Call(v, c, 2, w)]; Timed(es) && Asks(es, windows)
  {
  }

  lemma MissesOne(es: seq<Event>, e: Event, windows: set<nat>)
    requires e.Call? && Timed(es + [e]) && Asks(es + [e], windows)
    requires VerdictOf(es, e).allowed && CallsSince(es + [e], e.now - e.windowMs) > e.limit
    ensures !ExactFor(windows)
  {
    var all := es + [e];
    assert all[..|all| - 1] == es && all[|all| - 1] == e;
    assert !Deserved(all).allowed;
  }

  /** Every run counts exactly if and only if all its calls ask for one window. */
  lemma ExactForOneWindow(windows: set<nat>)
    ensures ExactFor(windows) <==> forall v, w | v in windows && w in windows :: v == w
  {
    if v, w :| v in windows && w in windows && v != w {
      TwoWindowsMiss(['a'], ['b'], ['c'], if v < w then v else w, if v < w then w else v, windows);
    } else {
      forall es: seq<Event> | es != [] && Timed(es) && Asks(es, windows) && es[|es| - 1].Call?
        ensures VerdictOf(es[..|es| - 1], es[|es| - 1]) == Deserved(es)
      {
        forall i, j | 0 <= i < j < |es| ensures InOrder(es[i], es[j]) { assert Later(es[i], es[j]); }
        VerdictIsDeserved(es);
      }
    }
  }
}
