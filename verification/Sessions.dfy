/**
 Refresh-token sessions: a score-ordered set of devices per user, kept beside a
 map of live refresh tokens.  Minting adds the device, evicts the oldest when
 there are more than MAX_SESSIONS, and stores the token; refreshing redeems the
 stored token once and mints the next; logging out forgets the device.
 */
module Sessions {
  import opened Wrappers
  import opened RefreshToken
  import Strings

  const MAX_SESSIONS := 5
  const REFRESH_TOKEN_TTL_MS := 7 * 24 * 60 * 60 * 1000

  /** A token stored under `refresh:<user>:<device>` and the instant it expires. */
  datatype Live = Live(token: string, expiresAt: nat)

  type Key = (string, string)

  datatype State = State(refresh: map<Key, Live>, sessions: map<string, map<string, nat>>)

  const EMPTY := State(map[], map[])

  function Devices(st: State, user: string): map<string, nat> {
    if user in st.sessions then st.sessions[user] else map[]
  }

  /** `redis.get`: an expired key reads as absent; at the very instant it expires it is still there. */
  function Stored(st: State, user: string, device: string, now: nat): Option<string> {
    if (user, device) in st.refresh && now <= st.refresh[(user, device)].expiresAt
    then Some(st.refresh[(user, device)].token) else None
  }

  // ------------------------------------------- `zrange key 0 0`

  /** The sorted set's order: by score, ties by member. */
  predicate NotAfter(m: map<string, nat>, d: string, e: string)
    requires d in m && e in m
  {
    m[d] < m[e] || (m[d] == m[e] && Strings.LexLe(d, e))
  }

  predicate IsOldest(m: map<string, nat>, d: string) {
    d in m && forall e | e in m :: NotAfter(m, d, e)
  }

  lemma {:induction false} OldestExists(m: map<string, nat>)
    requires m != map[]
    ensures exists d :: IsOldest(m, d)
    decreases |m|
  {
    var x :| x in m;
    var rest := m - {x};
    Strings.LexTotal(x, x);
    if rest == map[] {
      assert forall e | e in m :: e == x by {
        forall e | e in m ensures e == x { assert e != x ==> e in rest; }
      }
      assert IsOldest(m, x);
    } else {
      OldestExists(rest);
      var y :| IsOldest(rest, y);
      Strings.LexTotal(x, y);
      if NotAfter(m, x, y) {
        forall e | e in m
          ensures NotAfter(m, x, e)
        {
          if e != x {
            assert e in rest && NotAfter(rest, y, e);
            if m[x] == m[y] == m[e] { Strings.LexTransitive(x, y, e); }
          }
        }
        assert IsOldest(m, x);
      } else {
        assert forall e | e in m :: e == x || (e in rest && NotAfter(rest, y, e));
        assert IsOldest(m, y);
      }
    }
  }

  lemma OldestUnique(m: map<string, nat>, d: string, e: string)
    requires IsOldest(m, d) && IsOldest(m, e)
    ensures d == e
  {
    assert NotAfter(m, d, e) && NotAfter(m, e, d);
    Strings.LexAntisymmetric(d, e);
  }

  function Oldest(m: map<string, nat>): (d: string)
    requires m != map[]
    ensures IsOldest(m, d)
  {
    OldestExists(m);
    assert forall d, e | IsOldest(m, d) && IsOldest(m, e) :: d == e by {
      forall d, e | IsOldest(m, d) && IsOldest(m, e) ensures d == e { OldestUnique(m, d, e); }
    }
    var d :| d in m && IsOldest(m, d);
    d
  }

  // ------------------------------------------- one request

  datatype Event =
    | Login(user: string, agentHash: string, uuid: string, now: nat)
    | Refresh(token: string, agentHash: string, uuid: string, active: bool, now: nat)
    | Logout(user: string, token: string, now: nat)

  /** The device pushed out when `device` is added to the set `m`, if one is. */
  function Evicted(m: map<string, nat>, device: string, now: nat): Option<string> {
    var devices := m[device := now];
    if |devices| > MAX_SESSIONS then Some(Oldest(devices)) else None
  }

  /** The session set after `device` is added. */
  function Enrol(m: map<string, nat>, device: string, now: nat): map<string, nat> {
    var out := Evicted(m, device, now);
    if out.Some? then m[device := now] - {out.value} else m[device := now]
  }

  /** `generateTokenPair` from the chosen device on. */
  function MintFor(st: State, p: Parts, now: nat): State {
    var m := Devices(st, p.user);
    var out := Evicted(m, p.device, now);
    var refresh := if out.Some? then st.refresh - {(p.user, out.value)} else st.refresh;
    State(refresh[(p.user, p.device) := Live(Mint(p), now + REFRESH_TOKEN_TTL_MS)],
          st.sessions[p.user := Enrol(m, p.device, now)])
  }

  /** The stored token the request redeems: the source deletes it before it looks the user up. */
  function RedeemedKey(st: State, e: Event): Option<Key> {
    if !e.Refresh? || Parse(e.token).None? then None else
      var p := Parse(e.token).value;
      if Stored(st, p.user, p.device, e.now) == Some(e.token) then Some((p.user, p.device)) else None
  }

  /** What the request mints, if it mints. */
  function IssuedParts(st: State, e: Event): Option<Parts> {
    match e
    case Login(user, agentHash, uuid, _) => Some(Parts(user, agentHash, uuid))
    case Refresh(_, agentHash, uuid, active, _) =>
      var k := RedeemedKey(st, e);
      if k.None? || !active then None
      else Some(Parts(k.value.0, if k.value.1 == "" then agentHash else k.value.1, uuid))
    case Logout(_, _, _) => None
  }

  function LogoutKey(e: Event): Option<Key> {
    if !e.Logout? || Parse(e.token).None? then None else Some((e.user, Parse(e.token).value.device))
  }

  /** The device pushed out by the request's mint. */
  function EvictedKey(st: State, e: Event): Option<Key> {
    var i := IssuedParts(st, e);
    if i.None? then None else
      var out := Evicted(Devices(st, i.value.user), i.value.device, e.now);
      if out.None? then None else Some((i.value.user, out.value))
  }

  function AfterLogout(st: State, k: Key): State {
    State(st.refresh - {k}, st.sessions[k.0 := Devices(st, k.0) - {k.1}])
  }

  function Step(st: State, e: Event): State {
    match e
    case Login(_, _, _, _) => MintFor(st, IssuedParts(st, e).value, e.now)
    case Refresh(_, _, _, _, _) =>
      var k := RedeemedKey(st, e);
      if k.None? then st else
        var deleted := st.(refresh := st.refresh - {k.value});
        if IssuedParts(st, e).None? then deleted else MintFor(deleted, IssuedParts(st, e).value, e.now)
    case Logout(_, _, _) =>
      var k := LogoutKey(e);
      if k.None? then st else AfterLogout(st, k.value)
  }

  // ------------------------------------------- runs

  function After(es: seq<Event>): State {
    if es == [] then EMPTY else Step(After(es[..|es| - 1]), es[|es| - 1])
  }

  /** Ids carry no colon and a user-agent hash is never empty. */
  predicate WellFormed(e: Event) {
    match e
    case Login(user, agentHash, uuid, _) => Plain(user) && Plain(agentHash) && agentHash != "" && Plain(uuid)
    case Refresh(_, agentHash, uuid, _, _) => Plain(agentHash) && agentHash != "" && Plain(uuid)
    case Logout(user, _, _) => Plain(user)
  }

  predicate FreshIds(e: Event, f: Event) { !e.Logout? && !f.Logout? ==> e.uuid != f.uuid }

  /** Requests are well formed and their uuids fresh. */
  ghost predicate Valid(es: seq<Event>) {
    (forall i | 0 <= i < |es| :: WellFormed(es[i])) &&
    forall i, j {:trigger FreshIds(es[i], es[j])} | 0 <= i < j < |es| :: FreshIds(es[i], es[j])
  }

  /** The clock moves between requests, and before `now`. */
  predicate MovingClock(es: seq<Event>, now: nat) {
    es == [] || (es[|es| - 1].now < now && MovingClock(es[..|es| - 1], es[|es| - 1].now))
  }

  /** The request's mint evicts the very device it adds. */
  predicate EvictsItself(st: State, e: Event) {
    IssuedParts(st, e).Some? &&
    EvictedKey(st, e) == Some((IssuedParts(st, e).value.user, IssuedParts(st, e).value.device))
  }

  predicate NoneEvictsItself(es: seq<Event>) {
    es == [] || (NoneEvictsItself(es[..|es| - 1]) && !EvictsItself(After(es[..|es| - 1]), es[|es| - 1]))
  }

  // ------------------------------------------- the set and the map agree

  ghost predicate Consistent(st: State) {
    (forall u :: |Devices(st, u)| <= MAX_SESSIONS) &&
    (forall k: Key | k in st.refresh :: k.1 in Devices(st, k.0) && k.1 != "" && Plain(k.0) && Plain(k.1))
  }

  ghost predicate ScoredBefore(st: State, now: nat) {
    forall u: string, d: string | d in Devices(st, u) :: Devices(st, u)[d] < now
  }

  ghost predicate ScoredUpTo(st: State, now: nat) {
    forall u: string, d: string | d in Devices(st, u) :: Devices(st, u)[d] <= now
  }

  /** With a clock that moved a mint never evicts the device it adds. */
  lemma ClockSparesNewest(m: map<string, nat>, device: string, now: nat)
    requires forall d | d in m :: m[d] < now
    ensures Evicted(m, device, now) != Some(device)
  {
    var devices := m[device := now];
    assert devices.Keys == m.Keys + {device};
    if |devices| > MAX_SESSIONS {
      var others := devices.Keys - {device};
      assert devices.Keys == others + {device};
      assert |others| >= MAX_SESSIONS;
      var other :| other in others;
      assert !NotAfter(devices, device, other);
    }
  }

  /** Unless a mint evicts the device it adds, that device stays, and at most MAX_SESSIONS do. */
  lemma EnrolKeepsLimit(m: map<string, nat>, device: string, now: nat)
    requires |m| <= MAX_SESSIONS && Evicted(m, device, now) != Some(device)
    ensures var kept := Enrol(m, device, now);
            device in kept && |kept| <= MAX_SESSIONS &&
            forall d | d in m && Evicted(m, device, now) != Some(d) :: d in kept
  {
    EnrolSize(m, device, now);
  }

  lemma EnrolSize(m: map<string, nat>, device: string, now: nat)
    requires |m| <= MAX_SESSIONS
    ensures |Enrol(m, device, now)| <= MAX_SESSIONS
  {
    var devices := m[device := now];
    assert devices.Keys == m.Keys + {device};
    if |devices| > MAX_SESSIONS {
      assert (devices - {Oldest(devices)}).Keys == devices.Keys - {Oldest(devices)};
    }
  }

  lemma MintDevices(st: State, p: Parts, now: nat, u: string)
    ensures Devices(MintFor(st, p, now), u) ==
              if u == p.user then Enrol(Devices(st, p.user), p.device, now) else Devices(st, u)
  {
  }

  /** A mint keeps the limit and the agreement of tokens and devices if and only if it does not evict its own device. */
  lemma MintKeepsExactly(st: State, p: Parts, now: nat)
    requires Consistent(st) && PlainParts(p) && p.device != ""
    ensures Consistent(MintFor(st, p, now)) <==> Evicted(Devices(st, p.user), p.device, now) != Some(p.device)
  {
    if Evicted(Devices(st, p.user), p.device, now) == Some(p.device) {
      SelfEvictionBreaksAgreement(st, p, now);
      assert (p.user, p.device) in MintFor(st, p, now).refresh;
    } else {
      MintKeepsConsistent(st, p, now);
    }
  }

  lemma MintKeepsConsistent(st: State, p: Parts, now: nat)
    requires Consistent(st) && PlainParts(p) && p.device != ""
    requires Evicted(Devices(st, p.user), p.device, now) != Some(p.device)
    ensures Consistent(MintFor(st, p, now))
  {
    var st' := MintFor(st, p, now);
    var m := Devices(st, p.user);
    EnrolKeepsLimit(m, p.device, now);
    forall u ensures |Devices(st', u)| <= MAX_SESSIONS {
      MintDevices(st, p, now, u);
    }
    forall k: Key | k in st'.refresh
      ensures k.1 in Devices(st', k.0) && k.1 != "" && Plain(k.0) && Plain(k.1)
    {
      MintDevices(st, p, now, k.0);
      if k != (p.user, p.device) {
        MintEntry(st, p, now, k);
        assert k in st.refresh;
      }
    }
  }

  /** Deleting a token disturbs nothing. */
  lemma DeleteKeepsConsistent(st: State, k: Key)
    requires Consistent(st)
    ensures Consistent(st.(refresh := st.refresh - {k}))
  {
    assert forall u :: Devices(st.(refresh := st.refresh - {k}), u) == Devices(st, u);
  }

  lemma LogoutDevices(st: State, k: Key, u: string)
    ensures Devices(AfterLogout(st, k), u) == if u == k.0 then Devices(st, u) - {k.1} else Devices(st, u)
    ensures |Devices(AfterLogout(st, k), u)| <= |Devices(st, u)|
  {
    var d, d' := Devices(st, u), Devices(AfterLogout(st, k), u);
    assert d'.Keys <= d.Keys;
    SubsetSize(d'.Keys, d.Keys);
  }

  lemma LogoutKeepsConsistent(st: State, k: Key)
    requires Consistent(st)
    ensures Consistent(AfterLogout(st, k))
  {
    var st' := AfterLogout(st, k);
    forall u ensures |Devices(st', u)| <= MAX_SESSIONS {
      LogoutDevices(st, k, u);
    }
    forall r: Key | r in st'.refresh
      ensures r.1 in Devices(st', r.0) && r.1 != "" && Plain(r.0) && Plain(r.1)
    {
      LogoutDevices(st, k, r.0);
      assert r in st.refresh;
    }
  }

  /** What a request that mints mints for: the state with the redeemed token deleted. */
  function Redeemed(st: State, e: Event): State {
    if RedeemedKey(st, e).Some? then st.(refresh := st.refresh - {RedeemedKey(st, e).value}) else st
  }

  lemma IssueKeepsExactly(st: State, e: Event)
    requires Consistent(st) && WellFormed(e) && IssuedParts(st, e).Some?
    ensures Consistent(Step(st, e)) <==> !EvictsItself(st, e)
  {
    var p := IssuedParts(st, e).value;
    IssuedArePlain(st, e);
    if RedeemedKey(st, e).Some? { DeleteKeepsConsistent(st, RedeemedKey(st, e).value); }
    assert Devices(Redeemed(st, e), p.user) == Devices(st, p.user);
    assert Step(st, e) == MintFor(Redeemed(st, e), p, e.now);
    MintKeepsExactly(Redeemed(st, e), p, e.now);
  }

  /** A request keeps the limit and the agreement if and only if it does not evict the device it mints for. */
  lemma StepKeepsExactly(st: State, e: Event)
    requires Consistent(st) && WellFormed(e)
    ensures Consistent(Step(st, e)) <==> !EvictsItself(st, e)
  {
    if IssuedParts(st, e).Some? {
      IssueKeepsExactly(st, e);
    } else if e.Logout? && LogoutKey(e).Some? {
      LogoutKeepsConsistent(st, LogoutKey(e).value);
    } else if RedeemedKey(st, e).Some? {
      DeleteKeepsConsistent(st, RedeemedKey(st, e).value);
    }
  }

  /** Limit and agreement hold after each request of the run. */
  ghost predicate ConsistentThroughout(es: seq<Event>) {
    es == [] || (ConsistentThroughout(es[..|es| - 1]) && Consistent(After(es)))
  }

  /**
   At every moment of a run no user has more than MAX_SESSIONS devices and every
   stored token's device is one of them, if and only if no mint of the run evicts
   the device it adds.
   */
  lemma {:induction false} AlwaysConsistent(es: seq<Event>)
    requires Valid(es)
    ensures ConsistentThroughout(es) <==> NoneEvictsItself(es)
    ensures NoneEvictsItself(es) ==> Consistent(After(es))
  {
    if es != [] {
      var p, e := es[..|es| - 1], es[|es| - 1];
      ValidPrefix(es);
      AlwaysConsistent(p);
      if NoneEvictsItself(p) {
        StepKeepsExactly(After(p), e);
      }
    }
  }

  lemma ValidPrefix(es: seq<Event>)
    requires Valid(es) && es != []
    ensures Valid(es[..|es| - 1])
  {
    var p := es[..|es| - 1];
    forall i, j | 0 <= i < j < |p| ensures FreshIds(p[i], p[j]) { assert FreshIds(es[i], es[j]); }
  }

  /** What a request makes of a user's session set. */
  lemma StepDevices(st: State, e: Event, u: string)
    ensures var before, after := Devices(st, u), Devices(Step(st, e), u);
            if IssuedParts(st, e).Some? then
              var p := IssuedParts(st, e).value;
              after == if u == p.user then Enrol(before, p.device, e.now) else before
            else forall d | d in after :: d in before && after[d] == before[d]
  {
    if IssuedParts(st, e).Some? {
      var p := IssuedParts(st, e).value;
      assert Step(st, e) == MintFor(Redeemed(st, e), p, e.now);
      MintDevices(Redeemed(st, e), p, e.now, u);
      assert Devices(Redeemed(st, e), u) == Devices(st, u) && Devices(Redeemed(st, e), p.user) == Devices(st, p.user);
    } else if LogoutKey(e).Some? {
      LogoutDevices(st, LogoutKey(e).value, u);
    }
  }

  lemma StepScores(st: State, e: Event)
    requires ScoredBefore(st, e.now)
    ensures ScoredUpTo(Step(st, e), e.now)
  {
    forall u: string, d: string | d in Devices(Step(st, e), u) ensures Devices(Step(st, e), u)[d] <= e.now {
      StepDevices(st, e, u);
    }
  }

  /** As long as the clock moves between requests no mint evicts the device it adds. */
  lemma {:induction false} MovingClockSuffices(es: seq<Event>, now: nat)
    requires MovingClock(es, now)
    ensures NoneEvictsItself(es) && ScoredBefore(After(es), now)
  {
    if es != [] {
      var p, e := es[..|es| - 1], es[|es| - 1];
      MovingClockSuffices(p, e.now);
      StepScores(After(p), e);
      if IssuedParts(After(p), e).Some? {
        var i := IssuedParts(After(p), e).value;
        ClockSparesNewest(Devices(After(p), i.user), i.device, e.now);
      }
    }
  }

  /**
   At most MAX_SESSIONS refresh tokens of a user are redeemable at any time of any
   run in which no mint evicts the device it adds.
   */
  lemma AtMostFiveRedeemable(es: seq<Event>, user: string, now: nat, devices: set<string>)
    requires Valid(es) && NoneEvictsItself(es)
    requires forall d | d in devices :: Stored(After(es), user, d, now).Some?
    ensures |devices| <= 5
  {
    AlwaysConsistent(es);
    var st := After(es);
    forall d | d in devices ensures d in Devices(st, user) { assert (user, d) in st.refresh; }
    assert devices <= Devices(st, user).Keys;
    SubsetSize(devices, Devices(st, user).Keys);
  }

  lemma {:induction false} SubsetSize<T>(a: set<T>, b: set<T>)
    requires a <= b
    ensures |a| <= |b|
  {
    if a != {} {
      var x :| x in a;
      SubsetSize(a - {x}, b - {x});
    }
  }

  // ------------------------------------------- which token is redeemable

  /** The event mints a token for the user and device. */
  predicate Mints(st: State, e: Event, u: string, d: string) {
    IssuedParts(st, e).Some? && IssuedParts(st, e).value.user == u && IssuedParts(st, e).value.device == d
  }

  /** The event redeems, logs out or evicts the user's device. */
  predicate Kills(st: State, e: Event, u: string, d: string) {
    RedeemedKey(st, e) == Some((u, d)) || LogoutKey(e) == Some((u, d)) || EvictedKey(st, e) == Some((u, d))
  }

  /** What an event means for the token of one user and device. */
  datatype Mark = Minted | Killed | Quiet

  function MarkOf(st: State, e: Event, u: string, d: string): Mark {
    if Mints(st, e, u, d) then Minted else if Kills(st, e, u, d) then Killed else Quiet
  }

  function Marks(es: seq<Event>, u: string, d: string): (ms: seq<Mark>)
    ensures |ms| == |es|
  {
    if es == [] then [] else
      Marks(es[..|es| - 1], u, d) + [MarkOf(After(es[..|es| - 1]), es[|es| - 1], u, d)]
  }

  function TokenAt(es: seq<Event>, i: nat): string
    requires i < |es| && IssuedParts(After(es[..i]), es[i]).Some?
  {
    Mint(IssuedParts(After(es[..i]), es[i]).value)
  }

  /** Mark i is a mint and nothing happened since. */
  predicate Latest(ms: seq<Mark>, i: nat) {
    i < |ms| && ms[i] == Minted && forall k | i < k < |ms| :: ms[k] == Quiet
  }

  /** What a mint does to the entry of one user and device. */
  lemma MintEntry(st: State, p: Parts, now: nat, k: Key)
    ensures var st', out := MintFor(st, p, now), Evicted(Devices(st, p.user), p.device, now);
            if k == (p.user, p.device) then
              k in st'.refresh && st'.refresh[k] == Live(Mint(p), now + REFRESH_TOKEN_TTL_MS)
            else if out.Some? && k == (p.user, out.value) then k !in st'.refresh
            else SameEntry(st, st', k)
  {
  }

  predicate SameEntry(st: State, st': State, k: Key) {
    (k in st'.refresh <==> k in st.refresh) && (k in st.refresh ==> st'.refresh[k] == st.refresh[k])
  }

  predicate EntryAfter(st: State, e: Event, st': State, k: Key) {
    if Mints(st, e, k.0, k.1) then
      k in st'.refresh && st'.refresh[k] == Live(Mint(IssuedParts(st, e).value), e.now + REFRESH_TOKEN_TTL_MS)
    else if Kills(st, e, k.0, k.1) then k !in st'.refresh
    else SameEntry(st, st', k)
  }

  lemma RefreshEntry(st: State, e: Event, k: Key)
    requires e.Refresh? && RedeemedKey(st, e).Some?
    ensures EntryAfter(st, e, Step(st, e), k)
  {
    var r := RedeemedKey(st, e).value;
    var deleted := st.(refresh := st.refresh - {r});
    var issued := IssuedParts(st, e);
    if issued.Some? {
      assert Devices(deleted, issued.value.user) == Devices(st, issued.value.user);
      MintEntry(deleted, issued.value, e.now, k);
    }
  }

  /** What one event does to the entry of one user and device. */
  lemma StepEntry(st: State, e: Event, k: Key)
    ensures EntryAfter(st, e, Step(st, e), k)
  {
    match e
    case Login(_, _, _, _) => MintEntry(st, IssuedParts(st, e).value, e.now, k);
    case Refresh(_, _, _, _, _) => if RedeemedKey(st, e).Some? { RefreshEntry(st, e, k); }
    case Logout(_, _, _) =>
  }

  function LastMint(ms: seq<Mark>): (i: int)
    ensures -1 <= i < |ms|
  {
    if ms == [] then -1 else
      match ms[|ms| - 1]
      case Minted => |ms| - 1
      case Killed => -1
      case Quiet => LastMint(ms[..|ms| - 1])
  }

  lemma {:induction false} LastMintIsLatest(ms: seq<Mark>, i: nat)
    ensures Latest(ms, i) <==> i == LastMint(ms)
  {
    if ms != [] && ms[|ms| - 1] == Quiet {
      var p := ms[..|ms| - 1];
      LastMintIsLatest(p, i);
      assert Latest(ms, i) ==> i < |p| && Latest(p, i);
      assert Latest(p, i) ==> Latest(ms, i);
    }
  }

  lemma {:induction false} MarksOfPrefix(es: seq<Event>, n: nat, u: string, d: string)
    requires n <= |es|
    ensures Marks(es, u, d)[..n] == Marks(es[..n], u, d)
  {
    if n == |es| {
      assert es[..n] == es;
    } else {
      var p := es[..|es| - 1];
      MarksOfPrefix(p, n, u, d);
      assert p[..n] == es[..n];
      assert Marks(es, u, d)[..|p|] == Marks(p, u, d);
    }
  }

  lemma MarkAt(es: seq<Event>, i: nat, u: string, d: string)
    requires i < |es|
    ensures Marks(es, u, d)[i] == MarkOf(After(es[..i]), es[i], u, d)
  {
    MarksOfPrefix(es, i + 1, u, d);
    assert es[..i + 1][..i] == es[..i];
    assert Marks(es, u, d)[i] == Marks(es, u, d)[..i + 1][i];
  }

  /** The entry is the one event i minted, or there is none. */
  predicate FromMint(es: seq<Event>, k: Key, i: int)
    requires i < |es|
  {
    if i < 0 then k !in After(es).refresh
    else Mints(After(es[..i]), es[i], k.0, k.1) && k in After(es).refresh &&
         After(es).refresh[k] == Live(TokenAt(es, i), es[i].now + REFRESH_TOKEN_TTL_MS)
  }

  lemma FromMintNext(es: seq<Event>, k: Key, i: int)
    requires es != [] && i < |es| - 1 && FromMint(es[..|es| - 1], k, i)
    ensures var n := |es| - 1;
            FromMint(es, k, match MarkOf(After(es[..n]), es[n], k.0, k.1)
                            case Minted => n
                            case Killed => -1
                            case Quiet => i)
  {
    var n := |es| - 1;
    StepEntry(After(es[..n]), es[n], k);
    if i >= 0 { assert es[..n][..i] == es[..i]; }
  }

  lemma LastMintNext(ms: seq<Mark>, m: Mark)
    ensures LastMint(ms + [m]) == match m case Minted => |ms| case Killed => -1 case Quiet => LastMint(ms)
  {
    assert (ms + [m])[..|ms|] == ms;
  }

  lemma {:induction false} StoredIsLastMint(es: seq<Event>, u: string, d: string)
    ensures FromMint(es, (u, d), LastMint(Marks(es, u, d)))
  {
    if es != [] {
      var p, e := es[..|es| - 1], es[|es| - 1];
      StoredIsLastMint(p, u, d);
      LastMintNext(Marks(p, u, d), MarkOf(After(p), e, u, d));
      FromMintNext(es, (u, d), LastMint(Marks(p, u, d)));
    }
  }

  /** Event i minted the token, and the token's user and device were not touched since. */
  predicate MintedLast(es: seq<Event>, i: nat, u: string, d: string, token: string) {
    Latest(Marks(es, u, d), i) && IssuedParts(After(es[..i]), es[i]).Some? && TokenAt(es, i) == token
  }

  /**
   On every run a token is redeemable for a device if and only if it is the one
   most recently minted for it, has not outlived its time, and the device has
   since been neither redeemed, logged out nor evicted.
   */
  lemma RedeemableExactly(es: seq<Event>, u: string, d: string, token: string, now: nat)
    ensures Stored(After(es), u, d, now) == Some(token) <==>
            exists i: nat :: MintedLast(es, i, u, d, token) && now <= es[i].now + REFRESH_TOKEN_TTL_MS
  {
    StoredIsLastMint(es, u, d);
    forall i: nat
      ensures Latest(Marks(es, u, d), i) <==> i == LastMint(Marks(es, u, d))
    {
      LastMintIsLatest(Marks(es, u, d), i);
    }
    var i := LastMint(Marks(es, u, d));
    if i >= 0 && TokenAt(es, i) == token && now <= es[i].now + REFRESH_TOKEN_TTL_MS {
      assert MintedLast(es, i, u, d, token);
    }
  }

  lemma IssuedArePlain(st: State, e: Event)
    requires WellFormed(e) && IssuedParts(st, e).Some?
    ensures PlainParts(IssuedParts(st, e).value) && !e.Logout? && IssuedParts(st, e).value.uuid == e.uuid
  {
    if e.Refresh? { ParsedPartsArePlain(e.token); }
  }

  /** No two events of a run issue the same token. */
  lemma TokensAreFresh(es: seq<Event>, i: nat, j: nat)
    requires Valid(es) && i < |es| && j < |es|
    requires IssuedParts(After(es[..i]), es[i]).Some? && IssuedParts(After(es[..j]), es[j]).Some?
    requires TokenAt(es, i) == TokenAt(es, j)
    ensures i == j
  {
    IssuedArePlain(After(es[..i]), es[i]);
    IssuedArePlain(After(es[..j]), es[j]);
    MintInjective(IssuedParts(After(es[..i]), es[i]).value, IssuedParts(After(es[..j]), es[j]).value);
    assert i < j ==> FreshIds(es[i], es[j]);
    assert j < i ==> FreshIds(es[j], es[i]);
  }

  predicate RedeemedAt(es: seq<Event>, i: nat)
    requires i < |es|
  {
    RedeemedKey(After(es[..i]), es[i]).Some?
  }

  lemma IssuedInPrefix(es: seq<Event>, j: nat, i: nat)
    requires i < j <= |es| && IssuedParts(After(es[..j][..i]), es[..j][i]).Some?
    ensures IssuedParts(After(es[..i]), es[i]).Some? && TokenAt(es[..j], i) == TokenAt(es, i)
  {
    assert es[..j][..i] == es[..i] && es[..j][i] == es[i];
  }

  /** A redeemed token was issued before, and its device was not touched in between. */
  lemma RedeemedWasLatest(es: seq<Event>, j: nat) returns (i: nat)
    requires j < |es| && RedeemedAt(es, j)
    ensures var k := RedeemedKey(After(es[..j]), es[j]).value;
            i < j && IssuedParts(After(es[..i]), es[i]).Some? && TokenAt(es, i) == es[j].token &&
            Latest(Marks(es[..j], k.0, k.1), i)
  {
    var p, e := es[..j], es[j];
    var k := RedeemedKey(After(p), e).value;
    RedeemableExactly(p, k.0, k.1, e.token, e.now);
    i :| MintedLast(p, i, k.0, k.1, e.token);
    IssuedInPrefix(es, j, i);
  }

  lemma RedeemIsNotQuiet(es: seq<Event>, i: nat, j: nat)
    requires i < j <= |es| && RedeemedAt(es, i)
    ensures var k := RedeemedKey(After(es[..i]), es[i]).value;
            Marks(es[..j], k.0, k.1)[i] != Quiet
  {
    var k := RedeemedKey(After(es[..i]), es[i]).value;
    assert es[..j][..i] == es[..i];
    MarkAt(es[..j], i, k.0, k.1);
  }

  /** Over any run a refresh token is accepted at most once. */
  lemma RedeemedOnce(es: seq<Event>, i: nat, j: nat)
    requires Valid(es) && i < j < |es| && RedeemedAt(es, i) && RedeemedAt(es, j)
    ensures es[i].token != es[j].token
  {
    var a := RedeemedWasLatest(es, i);
    var b := RedeemedWasLatest(es, j);
    RedeemIsNotQuiet(es, i, j);
    if es[i].token == es[j].token {
      TokensAreFresh(es, a, b);
      assert false;
    }
  }

  // ------------------------------------------- what each request does, in the service's own terms

  lemma AfterSnoc(es: seq<Event>, e: Event)
    ensures After(es + [e]) == Step(After(es), e)
  {
    assert (es + [e])[..|es|] == es;
  }

  /** State `after` is `st` with the user's device out of the set and its token gone, and nothing else. */
  ghost predicate LoggedOut(st: State, u: string, device: string, after: State) {
    after.refresh == st.refresh - {(u, device)} &&
    forall v: string :: Devices(after, v) == if v == u then Devices(st, u) - {device} else Devices(st, v)
  }

  /**
   The request logs the token's device out for this user, whoever the token names, and
   touches no other token and no other device; a text that is no token changes nothing.
   */
  lemma LogoutExact(es: seq<Event>, u: string, token: string, now: nat)
    ensures var st, after := After(es), After(es + [Logout(u, token, now)]);
            match Parse(token)
            case None => after == st
            case Some(p) => LoggedOut(st, u, p.device, after)
    ensures Parse(token).Some? ==>
              forall at: nat ::
                Stored(After(es + [Logout(u, token, now)]), u, Parse(token).value.device, at) == None
  {
    AfterSnoc(es, Logout(u, token, now));
    if Parse(token).Some? { LogoutIsLoggedOut(After(es), (u, Parse(token).value.device)); }
  }

  lemma LogoutIsLoggedOut(st: State, k: Key)
    ensures LoggedOut(st, k.0, k.1, AfterLogout(st, k))
  {
    forall v ensures Devices(AfterLogout(st, k), v) == if v == k.0 then Devices(st, v) - {k.1} else Devices(st, v) {
      LogoutDevices(st, k, v);
    }
  }

  /** The device leads the set: least score, and least name among those. */
  ghost predicate Leads(m: map<string, nat>, d: string) {
    d in m && forall e | e in m :: m[d] < m[e] || (m[d] == m[e] && Strings.LexLe(d, e))
  }

  /**
   State `after` is `st` with a token stored for seven days and its device in the set,
   less the leading device and its token where the set came to more than five.
   */
  ghost predicate MintedInto(st: State, u: string, device: string, uuid: string, now: nat, after: State) {
    var m := Devices(st, u)[device := now];
    var live := Live(Mint(Parts(u, device, uuid)), now + 604_800_000);
    (forall v | v != u :: Devices(after, v) == Devices(st, v)) &&
    if |m| <= 5 then Devices(after, u) == m && after.refresh == st.refresh[(u, device) := live]
    else exists d | Leads(m, d) ::
      Devices(after, u) == m - {d} && after.refresh == (st.refresh - {(u, d)})[(u, device) := live]
  }

  lemma MintExact(st: State, p: Parts, now: nat)
    ensures MintedInto(st, p.user, p.device, p.uuid, now, MintFor(st, p, now))
  {
    var m := Devices(st, p.user)[p.device := now];
    forall v | v != p.user ensures Devices(MintFor(st, p, now), v) == Devices(st, v) { MintDevices(st, p, now, v); }
    if |m| > 5 {
      assert forall e | e in m :: NotAfter(m, Oldest(m), e);
      assert Leads(m, Oldest(m));
    }
  }

  lemma LoginExact(es: seq<Event>, u: string, agentHash: string, uuid: string, now: nat)
    ensures MintedInto(After(es), u, agentHash, uuid, now, After(es + [Login(u, agentHash, uuid, now)]))
  {
    AfterSnoc(es, Login(u, agentHash, uuid, now));
    MintExact(After(es), Parts(u, agentHash, uuid), now);
  }

  /** The token is the one stored for the user and device it names. */
  predicate IsStored(st: State, token: string, now: nat) {
    match Parse(token)
    case None => false
    case Some(p) => Stored(st, p.user, p.device, now) == Some(token)
  }

  /**
   A token that is not the stored one changes nothing.  One that is is deleted, and
   for an active user replaced by a token for the device it names, or for the user
   agent's where it names none.
   */
  lemma RefreshExact(es: seq<Event>, token: string, agentHash: string, uuid: string, active: bool, now: nat)
    ensures var st, after := After(es), After(es + [Refresh(token, agentHash, uuid, active, now)]);
            if !IsStored(st, token, now) then after == st
            else
              var p := Parse(token).value;
              var deleted := st.(refresh := st.refresh - {(p.user, p.device)});
              if active then
                MintedInto(deleted, p.user, if p.device == "" then agentHash else p.device, uuid, now, after)
              else after == deleted
  {
    var e := Refresh(token, agentHash, uuid, active, now);
    AfterSnoc(es, e);
    var st := After(es);
    if IsStored(st, token, now) && active {
      MintExact(Redeemed(st, e), IssuedParts(st, e).value, now);
    }
  }

  /** A token of the user issued before the user logged out with it is not redeemable at any moment after. */
  lemma LoggedOutForGood(es: seq<Event>, h: nat, i: nat, u: string, token: string, at: nat)
    requires Valid(es) && h < i < |es|
    requires IssuedParts(After(es[..h]), es[h]).Some? && TokenAt(es, h) == token
    requires es[i].Logout? && es[i].user == u && es[i].token == token
    requires Parse(token).Some? && Parse(token).value.user == u
    ensures !IsStored(After(es), token, at)
  {
    var d := Parse(token).value.device;
    RedeemableExactly(es, u, d, token, at);
    if IsStored(After(es), token, at) {
      var k: nat :| MintedLast(es, k, u, d, token);
      TokensAreFresh(es, h, k);
      MarkAt(es, i, u, d);
      assert false;
    }
  }

  // ------------------------------------------- why the clock must move

  /**
   Once the set is over its limit, the device just added is itself the one
   evicted exactly when every other device has a later score or the same score
   and a later name.
   */
  lemma EvictsItselfExactly(m: map<string, nat>, device: string, now: nat)
    ensures Evicted(m, device, now) == Some(device) <==>
            |m[device := now]| > MAX_SESSIONS &&
            forall d | d in m && d != device :: now < m[d] || (now == m[d] && Strings.LexLe(device, d))
  {
    var devices := m[device := now];
    Strings.LexTotal(device, device);
    if |devices| > MAX_SESSIONS {
      if forall d | d in m && d != device :: now < m[d] || (now == m[d] && Strings.LexLe(device, d)) {
        assert forall d | d in devices :: NotAfter(devices, device, d);
        OldestUnique(devices, device, Oldest(devices));
      } else if Oldest(devices) == device {
        assert forall d | d in m && d != device :: d in devices && NotAfter(devices, device, d);
      }
    }
  }

  /** Then the token just minted is redeemable for a device that is in no session set. */
  lemma SelfEvictionBreaksAgreement(st: State, p: Parts, now: nat)
    requires Evicted(Devices(st, p.user), p.device, now) == Some(p.device)
    ensures var st' := MintFor(st, p, now);
            Stored(st', p.user, p.device, now) == Some(Mint(p)) && p.device !in Devices(st', p.user)
  {
  }

  /** One login after another at one instant, from the devices in the order given. */
  function Logins(user: string, devices: seq<string>, uuids: seq<string>, now: nat): (es: seq<Event>)
    requires |uuids| == |devices|
    ensures |es| == |devices|
    ensures forall i | 0 <= i < |es| :: es[i] == Login(user, devices[i], uuids[i], now)
  {
    if devices == [] then [] else
      var n := |devices| - 1;
      Logins(user, devices[..n], uuids[..n], now) + [Login(user, devices[n], uuids[n], now)]
  }

  /** The set holds exactly these devices, all with the same score. */
  ghost predicate Holds(m: map<string, nat>, devices: seq<string>, now: nat) {
    |m| == |devices| && (forall d :: d in m <==> d in devices) && forall d | d in m :: m[d] == now
  }

  predicate Distinct(ds: seq<string>) { forall i, j | 0 <= i < j < |ds| :: ds[i] != ds[j] }

  /** The next login of a user as an event and as a mint. */
  lemma NextLogin(user: string, devices: seq<string>, uuids: seq<string>, now: nat)
    requires |uuids| == |devices| > 0
    ensures var n := |devices| - 1;
            After(Logins(user, devices, uuids, now)) ==
              MintFor(After(Logins(user, devices[..n], uuids[..n], now)), Parts(user, devices[n], uuids[n]), now)
  {
    var n := |devices| - 1;
    var p := Logins(user, devices[..n], uuids[..n], now);
    assert (p + [Login(user, devices[n], uuids[n], now)])[..n] == p;
  }

  lemma AddOne(m: map<string, nat>, devices: seq<string>, d: string, now: nat)
    requires Holds(m, devices, now) && d !in devices
    ensures Holds(m[d := now], devices + [d], now)
  {
    assert m[d := now].Keys == m.Keys + {d};
  }

  lemma EnrolBelowLimit(m: map<string, nat>, device: string, now: nat)
    requires |m[device := now]| <= MAX_SESSIONS
    ensures Enrol(m, device, now) == m[device := now]
  {
  }

  /** A login from a device not in the set adds it as long as there is room. */
  lemma LoginAdds(st: State, p: Parts, devices: seq<string>, now: nat)
    requires Holds(Devices(st, p.user), devices, now) && p.device !in devices && |devices| < MAX_SESSIONS
    ensures Holds(Devices(MintFor(st, p, now), p.user), devices + [p.device], now)
  {
    AddOne(Devices(st, p.user), devices, p.device, now);
    EnrolBelowLimit(Devices(st, p.user), p.device, now);
    MintDevices(st, p, now, p.user);
  }

  lemma {:induction false} FirstLogins(user: string, devices: seq<string>, uuids: seq<string>, now: nat)
    requires |uuids| == |devices| <= MAX_SESSIONS && Distinct(devices)
    ensures Holds(Devices(After(Logins(user, devices, uuids, now)), user), devices, now)
  {
    if devices != [] {
      var n := |devices| - 1;
      var st := After(Logins(user, devices[..n], uuids[..n], now));
      FirstLogins(user, devices[..n], uuids[..n], now);
      NextLogin(user, devices, uuids, now);
      LoginAdds(st, Parts(user, devices[n], uuids[n]), devices[..n], now);
      assert devices[..n] + [devices[n]] == devices;
    }
  }

  lemma LoginsValid(user: string, devices: seq<string>, uuids: seq<string>, now: nat)
    requires |uuids| == |devices| && Distinct(uuids) && Plain(user)
    requires forall i | 0 <= i < |devices| :: devices[i] != "" && Plain(devices[i]) && Plain(uuids[i])
    ensures Valid(Logins(user, devices, uuids, now))
  {
  }

  /**
   Six logins within one millisecond, the last from the device whose name sorts
   first: its token is redeemable, and the device is in no session set.
   */
  lemma SixLoginsAtOnce(user: string, devices: seq<string>, uuids: seq<string>, now: nat)
    requires |uuids| == |devices| == MAX_SESSIONS + 1 && Distinct(devices) && Distinct(uuids) && Plain(user)
    requires forall i | 0 <= i < |devices| :: devices[i] != "" && Plain(devices[i]) && Plain(uuids[i])
    requires forall i | 0 <= i < MAX_SESSIONS :: Strings.LexLe(devices[MAX_SESSIONS], devices[i])
    ensures var es, newest := Logins(user, devices, uuids, now), devices[MAX_SESSIONS];
            Valid(es) && Stored(After(es), user, newest, now).Some? && newest !in Devices(After(es), user)
  {
    var n := MAX_SESSIONS;
    var p, st := Parts(user, devices[n], uuids[n]), After(Logins(user, devices[..n], uuids[..n], now));
    LoginsValid(user, devices, uuids, now);
    FirstLogins(user, devices[..n], uuids[..n], now);
    NextLogin(user, devices, uuids, now);
    AddOne(Devices(st, user), devices[..n], devices[n], now);
    EvictsItselfExactly(Devices(st, user), devices[n], now);
    SelfEvictionBreaksAgreement(st, p, now);
  }

  // ------------------------------------------- the service

  class AuthSessions {
    var refresh: map<Key, Live>
    var sessions: map<string, map<string, nat>>

    function Contents(): State
      reads this
    {
      State(refresh, sessions)
    }

    constructor ()
      ensures Contents() == EMPTY
    {
      refresh, sessions := map[], map[];
    }

    /** `existingDeviceId` is "" when there is none; JavaScript treats both alike. */
    method GenerateTokenPair(user: string, agentHash: string, uuid: string, existingDeviceId: string, now: nat)
      returns (refreshToken: string)
      modifies this
      ensures var p := Parts(user, if existingDeviceId == "" then agentHash else existingDeviceId, uuid);
              Contents() == MintFor(old(Contents()), p, now) && refreshToken == Mint(p)
    {
      var deviceId := if existingDeviceId != "" then existingDeviceId else agentHash;
      refreshToken := Mint(Parts(user, deviceId, uuid));
      var members := if user in sessions then sessions[user] else map[];
      members := members[deviceId := now];
      if |members| > MAX_SESSIONS {
        var oldest := Oldest(members);
        refresh := refresh - {(user, oldest)};
        members := members - {oldest};
      }
      sessions := sessions[user := members];
      refresh := refresh[(user, deviceId) := Live(refreshToken, now + REFRESH_TOKEN_TTL_MS)];
    }

    /** None is the source's UnauthorizedException. */
    method RefreshTokens(token: string, agentHash: string, uuid: string, active: bool, now: nat)
      returns (next: Option<string>)
      modifies this
      ensures var e := Refresh(token, agentHash, uuid, active, now);
              Contents() == Step(old(Contents()), e) &&
              next == if IssuedParts(old(Contents()), e).None? then None
                      else Some(Mint(IssuedParts(old(Contents()), e).value))
      ensures next.Some? <==> active && IsStored(old(Contents()), token, now)
      ensures next.Some? ==>
                var p := Parse(token).value;
                next == Some(Mint(Parts(p.user, if p.device == "" then agentHash else p.device, uuid)))
    {
      var parsed := Parse(token);
      if parsed.None? { return None; }
      var userId, deviceId := parsed.value.user, parsed.value.device;
      var stored := Stored(Contents(), userId, deviceId, now);
      if stored != Some(token) { return None; }
      refresh := refresh - {(userId, deviceId)};
      if !active { return None; }
      var minted := GenerateTokenPair(userId, agentHash, uuid, deviceId, now);
      next := Some(minted);
    }

    method Logout(user: string, token: string, now: nat)
      modifies this
      ensures Contents() == Step(old(Contents()), Event.Logout(user, token, now))
    {
      var parsed := Parse(token);
      if parsed.Some? {
        var deviceId := parsed.value.device;
        refresh := refresh - {(user, deviceId)};
        sessions := sessions[user := (if user in sessions then sessions[user] else map[]) - {deviceId}];
      }
    }
  }
}
