/**
 The two-tier edge cache: memory over Redis over the origin, each tier with its
 own time-to-live, and the handler of pub/sub invalidations.  A request is cut at
 every wait for Redis or the origin, and the pieces of different requests and
 invalidations may come in any order.  What the origin holds at each instant is
 the `World` of a run.
 */
module CdnCache {
  import opened Wrappers
  import opened CdnKey
  import Base64

  type FileId = (string, string)

  /** An origin answer: the body and the content-type header, if there is one. */
  datatype File = File(data: Bytes, contentType: Option<string>)

  datatype Body = Body(data: Bytes, contentType: string)

  datatype MemEntry = MemEntry(body: Body, expiresAt: nat)

  /** The JSON object Redis holds, its data in base64, or text that does not parse. */
  datatype Payload = Json(data64: string, contentType: string) | Unparsable

  datatype RedisEntry = RedisEntry(payload: Payload, expiresAt: nat)

  /** What a request asks for. */
  datatype Request = Request(bucket: string, key: string, transforms: Option<Transforms>)

  /**
   A request that waits: for its Redis read; having read Redis at `at`, for the
   remaining time-to-live; for the origin; with the origin's answer of the instant
   `at`, for its Redis store; having stored at `at`, for the reply.
   */
  datatype Pending =
    | Asked(request: Request)
    | Hit(request: Request, body: Body, at: nat)
    | Missed(request: Request)
    | Fetched(request: Request, body: Body, at: nat)
    | Written(request: Request, body: Body, fetchedAt: nat, at: nat)

  /** The request already has its body in hand. */
  predicate Carries(p: Pending) { p.Hit? || p.Fetched? || p.Written? }

  datatype State = State(memory: map<string, MemEntry>, redis: map<string, RedisEntry>, pending: multiset<Pending>)

  /** `optimize` is the image transformation; None where it throws. */
  datatype Config = Config(region: string, memTtlSeconds: nat,
                           optimize: (Body, Transforms) -> Option<Body>)

  type Origin = map<FileId, File>

  type World = nat -> Origin

  /** `Waiting` is no answer yet. */
  datatype Answer = Served(body: Body, cacheHit: bool) | Failed | Waiting

  // ---------------------------------------------------------------- fetching

  function Lower(s: string): string {
    if s == [] then []
    else [if 'A' <= s[0] <= 'Z' then (s[0] as int + 32) as char else s[0]] + Lower(s[1..])
  }

  predicate IsImage(contentType: string) {
    Lower(contentType) in
      ["image/jpeg", "image/png", "image/gif", "image/webp", "image/avif", "image/svg+xml"]
  }

  /** An absent or empty header counts as a binary stream. */
  function ContentType(f: File): string {
    if f.contentType.Some? && f.contentType.value != "" then f.contentType.value else "application/octet-stream"
  }

  /** Fetching and transforming without any cache. */
  function Direct(cfg: Config, origin: Origin, r: Request): Option<Body> {
    if (r.bucket, r.key) !in origin then None else
      var file := origin[(r.bucket, r.key)];
      var body := Body(file.data, ContentType(file));
      if r.transforms.Some? && IsImage(body.contentType) then cfg.optimize(body, r.transforms.value) else Some(body)
  }

  // ---------------------------------------------------------------- serveFile

  datatype Event =
    | Ask(now: nat, request: Request)
    | RedisRead(now: nat, request: Request)
    | TtlRead(now: nat, pending: Pending, ok: bool)
    | OriginAnswer(now: nat, request: Request)
    | RedisWrite(now: nat, pending: Pending, ttlSeconds: int)
    | WriteDone(now: nat, pending: Pending)
    | Invalidate(target: Option<string>, file: Option<string>)
    | RedisDrop(keys: set<string>)
    | RedisGarble(cacheKey: string)

  function KeyOf(cfg: Config, r: Request): string {
    CacheKey(cfg.region, r.bucket, r.key, r.transforms)
  }

  /** At the very instant its time-to-live ends an entry is still there, in either tier. */
  function FromMemory(st: State, k: string, now: nat): Option<Body> {
    if k in st.memory && now <= st.memory[k].expiresAt then Some(st.memory[k].body) else None
  }

  function Unpacked(p: Payload): Body
    requires p.Json?
  {
    Body(Base64.Decode(p.data64), p.contentType)
  }

  function FromRedis(st: State, k: string, now: nat): Option<Body> {
    if k in st.redis && now <= st.redis[k].expiresAt && st.redis[k].payload.Json?
    then Some(Unpacked(st.redis[k].payload)) else None
  }

  function Remember(cfg: Config, st: State, k: string, body: Body, now: nat): State {
    st.(memory := st.memory[k := MemEntry(body, now + cfg.memTtlSeconds * 1000)])
  }

  /** The request goes on from waiting as p to waiting as q. */
  function GoesOn(st: State, p: Pending, q: Pending): State {
    st.(pending := st.pending - multiset{p} + multiset{q})
  }

  function Leaves(st: State, p: Pending): State { st.(pending := st.pending - multiset{p}) }

  function AskStep(cfg: Config, st: State, now: nat, r: Request): (State, Answer) {
    var found := FromMemory(st, KeyOf(cfg, r), now);
    if found.Some? then (st, Served(found.value, true))
    else (st.(pending := st.pending + multiset{Asked(r)}), Waiting)
  }

  function ReadStep(cfg: Config, st: State, now: nat, r: Request): (State, Answer) {
    if Asked(r) !in st.pending then (st, Waiting) else
      var found := FromRedis(st, KeyOf(cfg, r), now);
      (GoesOn(st, Asked(r), if found.Some? then Hit(r, found.value, now) else Missed(r)), Waiting)
  }

  /** Where the remaining time-to-live cannot be read the request goes to the origin. */
  function TtlStep(cfg: Config, st: State, now: nat, p: Pending, ok: bool): (State, Answer) {
    if p !in st.pending || !p.Hit? then (st, Waiting)
    else if !ok then (GoesOn(st, p, Missed(p.request)), Waiting)
    else (Remember(cfg, Leaves(st, p), KeyOf(cfg, p.request), p.body, now), Served(p.body, true))
  }

  function OriginStep(cfg: Config, origin: Origin, st: State, now: nat, r: Request): (State, Answer) {
    if Missed(r) !in st.pending then (st, Waiting) else
      var answer := Direct(cfg, origin, r);
      if answer.None? then (Leaves(st, Missed(r)), Failed)
      else (GoesOn(st, Missed(r), Fetched(r, answer.value, now)), Waiting)
  }

  function Packed(body: Body, now: nat, ttlSeconds: nat): RedisEntry {
    RedisEntry(Json(Base64.Encode(body.data), body.contentType), now + ttlSeconds * 1000)
  }

  /** A time-to-live that is not positive makes Redis refuse the store, and the request fails. */
  function WriteStep(cfg: Config, st: State, now: nat, p: Pending, ttlSeconds: int): (State, Answer) {
    if p !in st.pending || !p.Fetched? then (st, Waiting)
    else if ttlSeconds <= 0 then (Leaves(st, p), Failed)
    else
      (GoesOn(st, p, Written(p.request, p.body, p.at, now))
         .(redis := st.redis[KeyOf(cfg, p.request) := Packed(p.body, now, ttlSeconds)]),
       Waiting)
  }

  function DoneStep(cfg: Config, st: State, now: nat, p: Pending): (State, Answer) {
    if p !in st.pending || !p.Written? then (st, Waiting)
    else (Remember(cfg, Leaves(st, p), KeyOf(cfg, p.request), p.body, now), Served(p.body, false))
  }

  // ---------------------------------------------------------------- invalidation

  predicate Includes(s: string, part: string) {
    exists i {:trigger s[i..]} | 0 <= i <= |s| - |part| :: part <= s[i..]
  }

  /** A template prints an absent field as "undefined". */
  function Printed(x: Option<string>): string { if x.Some? then x.value else "undefined" }

  predicate Truthy(x: Option<string>) { x.Some? && x.value != "" }

  /** The text whose presence in a memory key makes the handler delete it; None where it deletes nothing. */
  function FilterText(target: Option<string>, file: Option<string>): Option<string> {
    if Truthy(file) then Some([':'] + Printed(target) + [':'] + file.value + [':'])
    else if Truthy(target) then Some([':'] + target.value + [':'])
    else None
  }

  function Purge(memory: map<string, MemEntry>, text: string): map<string, MemEntry> {
    map k | k in memory && !Includes(k, text) :: memory[k]
  }

  function InvalidateStep(st: State, target: Option<string>, file: Option<string>): State {
    var text := FilterText(target, file);
    if text.None? then st else st.(memory := Purge(st.memory, text.value))
  }

  // ---------------------------------------------------------------- runs

  function Step(cfg: Config, world: World, st: State, e: Event): (State, Answer) {
    match e
    case Ask(now, r) => AskStep(cfg, st, now, r)
    case RedisRead(now, r) => ReadStep(cfg, st, now, r)
    case TtlRead(now, p, ok) => TtlStep(cfg, st, now, p, ok)
    case OriginAnswer(now, r) => OriginStep(cfg, world(now), st, now, r)
    case RedisWrite(now, p, ttlSeconds) => WriteStep(cfg, st, now, p, ttlSeconds)
    case WriteDone(now, p) => DoneStep(cfg, st, now, p)
    case Invalidate(target, file) => (InvalidateStep(st, target, file), Waiting)
    case RedisDrop(keys) => (st.(redis := st.redis - keys), Waiting)
    case RedisGarble(k) =>
      (if k in st.redis then st.(redis := st.redis[k := st.redis[k].(payload := Unparsable)]) else st, Waiting)
  }

  const EMPTY := State(map[], map[], multiset{})

  function Onward(cfg: Config, world: World, st: State, es: seq<Event>): State {
    if es == [] then st else Step(cfg, world, Onward(cfg, world, st, es[..|es| - 1]), es[|es| - 1]).0
  }

  function After(cfg: Config, world: World, es: seq<Event>): State { Onward(cfg, world, EMPTY, es) }

  lemma {:induction false} OnwardConcat(cfg: Config, world: World, st: State, a: seq<Event>, b: seq<Event>)
    ensures Onward(cfg, world, st, a + b) == Onward(cfg, world, Onward(cfg, world, st, a), b)
    decreases |b|
  {
    if b == [] {
      assert a + b == a;
    } else {
      OnwardConcat(cfg, world, st, a, b[..|b| - 1]);
      assert (a + b)[..|a + b| - 1] == a + b[..|b| - 1];
    }
  }

  lemma OnwardFirst(cfg: Config, world: World, st: State, e: Event, es: seq<Event>)
    ensures Onward(cfg, world, st, [e] + es) == Onward(cfg, world, Step(cfg, world, st, e).0, es)
  {
    OnwardConcat(cfg, world, st, [e], es);
    assert [e][..0] == [];
  }

  lemma OneStep(cfg: Config, world: World, st: State, e: Event)
    ensures Onward(cfg, world, st, [e]) == Step(cfg, world, st, e).0
  {
    assert [e][..0] == [];
  }

  /** What event e, coming after the run es from st, answers. */
  function AnswerFrom(cfg: Config, world: World, st: State, es: seq<Event>, e: Event): Answer {
    Step(cfg, world, Onward(cfg, world, st, es), e).1
  }

  /** The request whose step this is. */
  function RequestOf(e: Event): Option<Request> {
    match e
    case Ask(_, r) => Some(r)
    case RedisRead(_, r) => Some(r)
    case TtlRead(_, p, _) => Some(p.request)
    case OriginAnswer(_, r) => Some(r)
    case RedisWrite(_, p, _) => Some(p.request)
    case WriteDone(_, p) => Some(p.request)
    case _ => None
  }

  /** Event e answers a request for cache key k with the body. */
  predicate Serves(cfg: Config, world: World, st: State, es: seq<Event>, e: Event, k: string, body: Body) {
    RequestOf(e).Some? && KeyOf(cfg, RequestOf(e).value) == k &&
    AnswerFrom(cfg, world, st, es, e).Served? && AnswerFrom(cfg, world, st, es, e).body == body
  }

  /**
   The longest configured time-to-live, and the longest a request waits between the
   origin's answer and its Redis store, and between Redis and its memory store.
   */
  datatype Limits = Limits(ttlSeconds: nat, storeMs: nat, replyMs: nat)

  /** Time does not go back, stores use no longer time-to-live, and no wait is longer, than the limits say. */
  predicate Within(e: Event, until: nat, lim: Limits) {
    match e
    case Ask(now, _) => now <= until
    case RedisRead(now, _) => now <= until
    case OriginAnswer(now, _) => now <= until
    case TtlRead(now, p, _) => p.Hit? ==> p.at <= now <= until && now <= p.at + lim.replyMs
    case RedisWrite(now, p, ttlSeconds) =>
      p.Fetched? ==> p.at <= now <= until && now <= p.at + lim.storeMs && ttlSeconds <= lim.ttlSeconds
    case WriteDone(now, p) => p.Written? ==> p.at <= now <= until && now <= p.at + lim.replyMs
    case _ => true
  }

  predicate AllWithin(es: seq<Event>, until: nat, lim: Limits) { forall i | 0 <= i < |es| :: Within(es[i], until, lim) }

  /** Both requests have one cache entry: the same text names their files, and their parameters print alike. */
  predicate Sharing(q: Request, r: Request) {
    FileText(q.bucket, q.key) == FileText(r.bucket, r.key) && Given(q.transforms) == Given(r.transforms)
  }

  lemma SharingIsOneKey(cfg: Config, q: Request, r: Request)
    ensures KeyOf(cfg, q) == KeyOf(cfg, r) <==> Sharing(q, r)
  {
    CacheKeyExact(cfg.region, q.bucket, q.key, q.transforms, r.bucket, r.key, r.transforms);
  }

  /** Of the requests that share r's cache entry only r itself got a body from the origin. */
  predicate Unmixed(cfg: Config, world: World, es: seq<Event>, r: Request) {
    forall i | 0 <= i < |es| && es[i].OriginAnswer? && Sharing(es[i].request, r) ::
      Direct(cfg, world(es[i].now), es[i].request).Some? ==> es[i].request == r
  }

  // ------------------------------------------- every cached body has an origin

  /** Event i is the origin's answer to a request for cache key k, and `body` is what it gave. */
  predicate SourceAt(cfg: Config, world: World, es: seq<Event>, i: nat, k: string, body: Body) {
    i < |es| && es[i].OriginAnswer? && KeyOf(cfg, es[i].request) == k &&
    Direct(cfg, world(es[i].now), es[i].request) == Some(body)
  }

  /** The origin gave the body, at most `ageMs` before the instant `until`. */
  ghost predicate HasSource(cfg: Config, world: World, es: seq<Event>, k: string, body: Body, until: nat, ageMs: nat) {
    exists i: nat :: SourceAt(cfg, world, es, i, k, body) && until <= es[i].now + ageMs
  }

  function RedisAge(lim: Limits): nat { lim.storeMs + lim.ttlSeconds * 1000 }

  /** The two waits and the two times-to-live together. */
  function MemoryAge(cfg: Config, lim: Limits): nat { RedisAge(lim) + lim.replyMs + cfg.memTtlSeconds * 1000 }

  /** What a waiting request has in hand was fetched in this run, and not too long ago. */
  ghost predicate PendingTraced(cfg: Config, world: World, es: seq<Event>, lim: Limits, p: Pending) {
    match p
    case Asked(_) => true
    case Missed(_) => true
    case Hit(r, body, at) => HasSource(cfg, world, es, KeyOf(cfg, r), body, at, RedisAge(lim))
    case Fetched(r, body, at) => OriginAnswer(at, r) in es && Direct(cfg, world(at), r) == Some(body)
    case Written(r, body, fetchedAt, at) =>
      OriginAnswer(fetchedAt, r) in es && Direct(cfg, world(fetchedAt), r) == Some(body) &&
      at <= fetchedAt + lim.storeMs
  }

  ghost predicate PendingsTraced(cfg: Config, world: World, es: seq<Event>, lim: Limits, pending: multiset<Pending>,
                                 k: string)
  {
    forall p: Pending | p in pending && KeyOf(cfg, p.request) == k :: PendingTraced(cfg, world, es, lim, p)
  }

  ghost predicate RedisTraced(cfg: Config, world: World, es: seq<Event>, lim: Limits, redis: map<string, RedisEntry>,
                              k: string)
  {
    k in redis && redis[k].payload.Json? ==>
      HasSource(cfg, world, es, k, Unpacked(redis[k].payload), redis[k].expiresAt, RedisAge(lim))
  }

  ghost predicate MemoryTraced(cfg: Config, world: World, es: seq<Event>, lim: Limits, memory: map<string, MemEntry>,
                               k: string)
  {
    k in memory ==> HasSource(cfg, world, es, k, memory[k].body, memory[k].expiresAt, MemoryAge(cfg, lim))
  }

  /** Whatever Redis and the waiting requests have for cache key k was fetched in the run es. */
  ghost predicate Flows(cfg: Config, world: World, es: seq<Event>, lim: Limits, st: State, k: string) {
    RedisTraced(cfg, world, es, lim, st.redis, k) && PendingsTraced(cfg, world, es, lim, st.pending, k)
  }

  /** And whatever memory has. */
  ghost predicate Traced(cfg: Config, world: World, es: seq<Event>, lim: Limits, st: State, k: string) {
    Flows(cfg, world, es, lim, st, k) && MemoryTraced(cfg, world, es, lim, st.memory, k)
  }

  lemma SourceLater(cfg: Config, world: World, es: seq<Event>, e: Event, k: string, body: Body, until: nat, age: nat)
    requires HasSource(cfg, world, es, k, body, until, age)
    ensures HasSource(cfg, world, es + [e], k, body, until, age)
  {
    var i: nat :| SourceAt(cfg, world, es, i, k, body) && until <= es[i].now + age;
    assert (es + [e])[i] == es[i];
    assert SourceAt(cfg, world, es + [e], i, k, body);
  }

  /** A body no older than one age at one instant is no older than another at a later one. */
  lemma SourceAges(cfg: Config, world: World, es: seq<Event>, k: string, body: Body, t: nat, age: nat,
                   t': nat, age': nat)
    requires HasSource(cfg, world, es, k, body, t, age) && t' + age <= t + age'
    ensures HasSource(cfg, world, es, k, body, t', age')
  {
    var i: nat :| SourceAt(cfg, world, es, i, k, body) && t <= es[i].now + age;
    assert t' <= es[i].now + age';
  }

  lemma AnswerIsSource(cfg: Config, world: World, es: seq<Event>, r: Request, body: Body, at: nat, until: nat, age: nat)
    requires OriginAnswer(at, r) in es && Direct(cfg, world(at), r) == Some(body) && until <= at + age
    ensures HasSource(cfg, world, es, KeyOf(cfg, r), body, until, age)
  {
    var i :| 0 <= i < |es| && es[i] == OriginAnswer(at, r);
    assert SourceAt(cfg, world, es, i, KeyOf(cfg, r), body);
  }

  lemma PendingLater(cfg: Config, world: World, es: seq<Event>, e: Event, lim: Limits, p: Pending)
    requires PendingTraced(cfg, world, es, lim, p)
    ensures PendingTraced(cfg, world, es + [e], lim, p)
  {
    if p.Hit? { SourceLater(cfg, world, es, e, KeyOf(cfg, p.request), p.body, p.at, RedisAge(lim)); }
  }

  lemma FlowsLater(cfg: Config, world: World, es: seq<Event>, e: Event, lim: Limits, st: State, k: string)
    requires Flows(cfg, world, es, lim, st, k)
    ensures Flows(cfg, world, es + [e], lim, st, k)
  {
    if k in st.redis && st.redis[k].payload.Json? {
      SourceLater(cfg, world, es, e, k, Unpacked(st.redis[k].payload), st.redis[k].expiresAt, RedisAge(lim));
    }
    forall p: Pending | p in st.pending && KeyOf(cfg, p.request) == k
      ensures PendingTraced(cfg, world, es + [e], lim, p)
    {
      PendingLater(cfg, world, es, e, lim, p);
    }
  }

  lemma TracedLater(cfg: Config, world: World, es: seq<Event>, e: Event, lim: Limits, st: State, k: string)
    requires Traced(cfg, world, es, lim, st, k)
    ensures Traced(cfg, world, es + [e], lim, st, k)
  {
    FlowsLater(cfg, world, es, e, lim, st, k);
    if k in st.memory {
      SourceLater(cfg, world, es, e, k, st.memory[k].body, st.memory[k].expiresAt, MemoryAge(cfg, lim));
    }
  }

  /** Waiting for something else with a body as well traced. */
  lemma GoesOnTraced(cfg: Config, world: World, es: seq<Event>, lim: Limits, st: State, p: Pending, q: Pending,
                     k: string)
    requires PendingsTraced(cfg, world, es, lim, st.pending, k)
    requires KeyOf(cfg, q.request) == k ==> PendingTraced(cfg, world, es, lim, q)
    ensures PendingsTraced(cfg, world, es, lim, GoesOn(st, p, q).pending, k)
  {
    forall x: Pending | x in GoesOn(st, p, q).pending && KeyOf(cfg, x.request) == k
      ensures PendingTraced(cfg, world, es, lim, x)
    {
      assert x == q || x in st.pending;
    }
  }

  lemma LeavesTraced(cfg: Config, world: World, es: seq<Event>, lim: Limits, st: State, p: Pending, k: string)
    requires PendingsTraced(cfg, world, es, lim, st.pending, k)
    ensures PendingsTraced(cfg, world, es, lim, Leaves(st, p).pending, k)
  {
  }

  lemma ReadFlows(cfg: Config, world: World, es: seq<Event>, lim: Limits, st: State, now: nat, r: Request, k: string)
    requires Flows(cfg, world, es, lim, st, k)
    ensures Flows(cfg, world, es, lim, ReadStep(cfg, st, now, r).0, k)
  {
    var found, j := FromRedis(st, KeyOf(cfg, r), now), KeyOf(cfg, r);
    if j == k && found.Some? {
      SourceAges(cfg, world, es, k, found.value, st.redis[k].expiresAt, RedisAge(lim), now, RedisAge(lim));
    }
    GoesOnTraced(cfg, world, es, lim, st, Asked(r), if found.Some? then Hit(r, found.value, now) else Missed(r), k);
  }

  /** The body a request has in hand may be remembered as long as a whole memory time-to-live. */
  lemma CarriedAges(cfg: Config, world: World, es: seq<Event>, lim: Limits, p: Pending, now: nat)
    requires (p.Hit? || p.Written?) && PendingTraced(cfg, world, es, lim, p) && now <= p.at + lim.replyMs
    ensures HasSource(cfg, world, es, KeyOf(cfg, p.request), p.body, now + cfg.memTtlSeconds * 1000,
                      MemoryAge(cfg, lim))
    ensures HasSource(cfg, world, es, KeyOf(cfg, p.request), p.body, now, MemoryAge(cfg, lim))
  {
    var k, later := KeyOf(cfg, p.request), now + cfg.memTtlSeconds * 1000;
    if p.Hit? {
      SourceAges(cfg, world, es, k, p.body, p.at, RedisAge(lim), later, MemoryAge(cfg, lim));
    } else {
      AnswerIsSource(cfg, world, es, p.request, p.body, p.fetchedAt, later, MemoryAge(cfg, lim));
    }
    SourceAges(cfg, world, es, k, p.body, later, MemoryAge(cfg, lim), now, MemoryAge(cfg, lim));
  }

  lemma TtlDoneFlows(cfg: Config, world: World, es: seq<Event>, lim: Limits, st: State, now: nat, p: Pending, ok: bool,
                     k: string)
    requires Flows(cfg, world, es, lim, st, k)
    ensures Flows(cfg, world, es, lim, TtlStep(cfg, st, now, p, ok).0, k)
    ensures Flows(cfg, world, es, lim, DoneStep(cfg, st, now, p).0, k)
  {
    GoesOnTraced(cfg, world, es, lim, st, p, Missed(p.request), k);
    LeavesTraced(cfg, world, es, lim, st, p, k);
  }

  lemma OriginFlows(cfg: Config, world: World, es: seq<Event>, lim: Limits, st: State, now: nat, r: Request, k: string)
    requires Flows(cfg, world, es, lim, st, k) && OriginAnswer(now, r) in es
    ensures Flows(cfg, world, es, lim, OriginStep(cfg, world(now), st, now, r).0, k)
  {
    var answer := Direct(cfg, world(now), r);
    LeavesTraced(cfg, world, es, lim, st, Missed(r), k);
    if answer.Some? { GoesOnTraced(cfg, world, es, lim, st, Missed(r), Fetched(r, answer.value, now), k); }
  }

  lemma WriteFlows(cfg: Config, world: World, es: seq<Event>, lim: Limits, st: State, now: nat, p: Pending,
                    ttlSeconds: int, k: string)
    requires Flows(cfg, world, es, lim, st, k)
    requires p.Fetched? ==> now <= p.at + lim.storeMs && ttlSeconds <= lim.ttlSeconds
    ensures Flows(cfg, world, es, lim, WriteStep(cfg, st, now, p, ttlSeconds).0, k)
  {
    if p in st.pending && p.Fetched? {
      LeavesTraced(cfg, world, es, lim, st, p, k);
      if ttlSeconds > 0 {
        GoesOnTraced(cfg, world, es, lim, st, p, Written(p.request, p.body, p.at, now), k);
        if KeyOf(cfg, p.request) == k {
          Base64.RoundTrip(p.body.data);
          AnswerIsSource(cfg, world, es, p.request, p.body, p.at, now + ttlSeconds * 1000, RedisAge(lim));
        }
      }
    }
  }

  /** What Redis and the waiting requests have never comes from memory. */
  lemma StepFlows(cfg: Config, world: World, es: seq<Event>, e: Event, until: nat, lim: Limits, st: State, k: string)
    requires Flows(cfg, world, es, lim, st, k) && e in es && Within(e, until, lim)
    ensures Flows(cfg, world, es, lim, Step(cfg, world, st, e).0, k)
  {
    match e
    case Ask(_, _) =>
    case RedisRead(now, r) => ReadFlows(cfg, world, es, lim, st, now, r, k);
    case TtlRead(now, p, ok) => TtlDoneFlows(cfg, world, es, lim, st, now, p, ok, k);
    case OriginAnswer(now, r) => OriginFlows(cfg, world, es, lim, st, now, r, k);
    case RedisWrite(now, p, ttlSeconds) => WriteFlows(cfg, world, es, lim, st, now, p, ttlSeconds, k);
    case WriteDone(now, p) => TtlDoneFlows(cfg, world, es, lim, st, now, p, true, k);
    case Invalidate(_, _) =>
    case RedisDrop(_) =>
    case RedisGarble(_) =>
  }

  /** Memory is filled by a request with its body in hand and by nothing else. */
  lemma StepMemory(cfg: Config, world: World, es: seq<Event>, e: Event, until: nat, lim: Limits, st: State, k: string)
    requires Traced(cfg, world, es, lim, st, k) && Within(e, until, lim)
    ensures MemoryTraced(cfg, world, es, lim, Step(cfg, world, st, e).0.memory, k)
  {
    if e.TtlRead? && e.pending in st.pending && e.pending.Hit? && KeyOf(cfg, e.pending.request) == k {
      CarriedAges(cfg, world, es, lim, e.pending, e.now);
    } else if e.WriteDone? && e.pending in st.pending && e.pending.Written? && KeyOf(cfg, e.pending.request) == k {
      CarriedAges(cfg, world, es, lim, e.pending, e.now);
    }
  }

  lemma {:induction false} AlwaysFlows(cfg: Config, world: World, pre: seq<Event>, st: State, es: seq<Event>,
                                        until: nat, lim: Limits, k: string)
    requires Flows(cfg, world, pre, lim, st, k) && AllWithin(es, until, lim)
    ensures Flows(cfg, world, pre + es, lim, Onward(cfg, world, st, es), k)
    decreases |es|
  {
    if es == [] {
      assert pre + es == pre;
    } else {
      var p, e := es[..|es| - 1], es[|es| - 1];
      AlwaysFlows(cfg, world, pre, st, p, until, lim, k);
      FlowsLater(cfg, world, pre + p, e, lim, Onward(cfg, world, st, p), k);
      StepFlows(cfg, world, pre + p + [e], e, until, lim, Onward(cfg, world, st, p), k);
      assert pre + es == pre + p + [e];
    }
  }

  lemma StepTraced(cfg: Config, world: World, es: seq<Event>, e: Event, until: nat, lim: Limits, st: State, k: string)
    requires Traced(cfg, world, es, lim, st, k) && Within(e, until, lim)
    ensures Traced(cfg, world, es + [e], lim, Step(cfg, world, st, e).0, k)
  {
    TracedLater(cfg, world, es, e, lim, st, k);
    StepFlows(cfg, world, es + [e], e, until, lim, st, k);
    StepMemory(cfg, world, es + [e], e, until, lim, st, k);
  }

  /**
   If whatever there is of a cache key, cached or in the hands of a request, was
   fetched in an earlier run, then after a further run it was fetched in one of the
   two, and recently enough for its expiry.
   */
  lemma {:induction false} AlwaysTraced(cfg: Config, world: World, pre: seq<Event>, st: State, es: seq<Event>,
                                         until: nat, lim: Limits, k: string)
    requires Traced(cfg, world, pre, lim, st, k) && AllWithin(es, until, lim)
    ensures Traced(cfg, world, pre + es, lim, Onward(cfg, world, st, es), k)
    decreases |es|
  {
    if es == [] {
      assert pre + es == pre;
    } else {
      var p, e := es[..|es| - 1], es[|es| - 1];
      AlwaysTraced(cfg, world, pre, st, p, until, lim, k);
      StepTraced(cfg, world, pre + p, e, until, lim, Onward(cfg, world, st, p), k);
      assert pre + es == pre + p + [e];
    }
  }

  /** Whoever serves a body for the key serves one fetched in one of the two runs, and not too long ago. */
  lemma ServedHasSource(cfg: Config, world: World, pre: seq<Event>, st: State, es: seq<Event>, e: Event, until: nat,
                        lim: Limits, k: string, body: Body)
    requires Traced(cfg, world, pre, lim, st, k) && AllWithin(es, until, lim) && Within(e, until, lim)
    requires Serves(cfg, world, st, es, e, k, body)
    ensures HasSource(cfg, world, pre + es, k, body, e.now, MemoryAge(cfg, lim))
  {
    var s, all := Onward(cfg, world, st, es), pre + es;
    AlwaysTraced(cfg, world, pre, st, es, until, lim, k);
    match e
    case Ask(now, _) =>
      SourceAges(cfg, world, all, k, body, s.memory[k].expiresAt, MemoryAge(cfg, lim), now, MemoryAge(cfg, lim));
    case TtlRead(now, p, _) => CarriedAges(cfg, world, all, lim, p, now);
    case WriteDone(now, p) => CarriedAges(cfg, world, all, lim, p, now);
  }

  lemma ServedFromStart(cfg: Config, world: World, es: seq<Event>, e: Event, until: nat, lim: Limits, k: string,
                        body: Body)
    requires AllWithin(es, until, lim) && Within(e, until, lim) && Serves(cfg, world, EMPTY, es, e, k, body)
    ensures HasSource(cfg, world, es, k, body, e.now, MemoryAge(cfg, lim))
  {
    ServedHasSource(cfg, world, [], EMPTY, es, e, until, lim, k, body);
    assert [] + es == es;
  }

  // ------------------------------------------- bounded staleness, transparency

  /**
   Whatever requests, expiries and invalidations came before or in between, the
   body any request is served is what fetching and transforming gave at some
   instant earlier by at most the two waits and the two times-to-live.
   */
  lemma BoundedStaleness(cfg: Config, world: World, es: seq<Event>, e: Event, r: Request, body: Body, lim: Limits)
    returns (fetchedAt: nat)
    requires RequestOf(e) == Some(r) && AllWithin(es, e.now, lim) && Within(e, e.now, lim) && Unmixed(cfg, world, es, r)
    requires Serves(cfg, world, EMPTY, es, e, KeyOf(cfg, r), body)
    ensures fetchedAt <= e.now <= fetchedAt + MemoryAge(cfg, lim)
    ensures Direct(cfg, world(fetchedAt), r) == Some(body)
  {
    ServedFromStart(cfg, world, es, e, e.now, lim, KeyOf(cfg, r), body);
    var i: nat :| SourceAt(cfg, world, es, i, KeyOf(cfg, r), body) && e.now <= es[i].now + MemoryAge(cfg, lim);
    SharingIsOneKey(cfg, es[i].request, r);
    assert Within(es[i], e.now, lim);
    fetchedAt := es[i].now;
  }

  /** A request that fetched is served what the origin gave it. */
  lemma FetchedIsDirect(cfg: Config, world: World, es: seq<Event>, now: nat, p: Pending, lim: Limits)
    requires AllWithin(es, now, lim) && AnswerFrom(cfg, world, EMPTY, es, WriteDone(now, p)).Served?
    ensures p.Written? && Direct(cfg, world(p.fetchedAt), p.request) == Some(p.body)
    ensures OriginAnswer(p.fetchedAt, p.request) in es
    ensures AnswerFrom(cfg, world, EMPTY, es, WriteDone(now, p)).body == p.body
  {
    AlwaysTraced(cfg, world, [], EMPTY, es, now, lim, KeyOf(cfg, p.request));
    assert [] + es == es;
    assert PendingTraced(cfg, world, es, lim, p);
  }

  /**
   While the origin file has not changed for the two waits and the two
   times-to-live, every answer is exactly the direct one.
   */
  lemma Transparent(cfg: Config, world: World, es: seq<Event>, e: Event, r: Request, body: Body, lim: Limits)
    requires RequestOf(e) == Some(r) && AllWithin(es, e.now, lim) && Within(e, e.now, lim) && Unmixed(cfg, world, es, r)
    requires Serves(cfg, world, EMPTY, es, e, KeyOf(cfg, r), body)
    requires forall t: nat | t <= e.now <= t + MemoryAge(cfg, lim) ::
               Direct(cfg, world(t), r) == Direct(cfg, world(e.now), r)
    ensures Some(body) == Direct(cfg, world(e.now), r)
  {
    var t := BoundedStaleness(cfg, world, es, e, r, body, lim);
  }

  // ------------------------------------------- callers that mix

  /** One request through all its waits at one instant. */
  function WholeRequest(r: Request, body: Body, t: nat, ttlSeconds: int): seq<Event> {
    [Ask(t, r)] + ([RedisRead(t, r)] + ([OriginAnswer(t, r)] +
      ([RedisWrite(t, Fetched(r, body, t), ttlSeconds)] + [WriteDone(t, Written(r, body, t, t))])))
  }

  /** One request waits, and for nothing else than before or for nothing at all. */
  lemma OnlyOne(memory: map<string, MemEntry>, redis: map<string, RedisEntry>, p: Pending, q: Pending)
    ensures GoesOn(State(memory, redis, multiset{p}), p, q) == State(memory, redis, multiset{q})
    ensures Leaves(State(memory, redis, multiset{p}), p) == State(memory, redis, multiset{})
  {
  }

  lemma ColdRead(cfg: Config, r: Request, t: nat)
    ensures AskStep(cfg, EMPTY, t, r).0 == State(map[], map[], multiset{Asked(r)})
    ensures ReadStep(cfg, State(map[], map[], multiset{Asked(r)}), t, r).0 == State(map[], map[], multiset{Missed(r)})
  {
    OnlyOne(map[], map[], Asked(r), Missed(r));
    assert EMPTY.pending + multiset{Asked(r)} == multiset{Asked(r)};
  }

  lemma ColdFetch(cfg: Config, origin: Origin, r: Request, body: Body, t: nat)
    requires Direct(cfg, origin, r) == Some(body)
    ensures OriginStep(cfg, origin, State(map[], map[], multiset{Missed(r)}), t, r).0
            == State(map[], map[], multiset{Fetched(r, body, t)})
  {
    OnlyOne(map[], map[], Missed(r), Fetched(r, body, t));
  }

  lemma ColdStore(cfg: Config, r: Request, body: Body, t: nat, ttlSeconds: nat)
    requires ttlSeconds > 0
    ensures var k, w := KeyOf(cfg, r), Written(r, body, t, t);
            var written := State(map[], map[k := Packed(body, t, ttlSeconds)], multiset{w});
            WriteStep(cfg, State(map[], map[], multiset{Fetched(r, body, t)}), t, Fetched(r, body, t), ttlSeconds).0
              == written &&
            DoneStep(cfg, written, t, w).0 ==
              State(map[k := MemEntry(body, t + cfg.memTtlSeconds * 1000)], written.redis, multiset{})
  {
    OnlyOne(map[], map[], Fetched(r, body, t), Written(r, body, t, t));
    OnlyOne(map[], map[KeyOf(cfg, r) := Packed(body, t, ttlSeconds)], Written(r, body, t, t), Missed(r));
  }

  lemma WholeRequestFills(cfg: Config, world: World, r: Request, body: Body, t: nat, ttlSeconds: nat)
    requires Direct(cfg, world(t), r) == Some(body) && ttlSeconds > 0
    ensures After(cfg, world, WholeRequest(r, body, t, ttlSeconds)) ==
              State(map[KeyOf(cfg, r) := MemEntry(body, t + cfg.memTtlSeconds * 1000)],
                    map[KeyOf(cfg, r) := Packed(body, t, ttlSeconds)], multiset{})
  {
    var write, done := RedisWrite(t, Fetched(r, body, t), ttlSeconds), WriteDone(t, Written(r, body, t, t));
    var rest := [write] + [done];
    var stored := State(map[], map[KeyOf(cfg, r) := Packed(body, t, ttlSeconds)], multiset{Written(r, body, t, t)});
    ColdRead(cfg, r, t);
    ColdFetch(cfg, world(t), r, body, t);
    ColdStore(cfg, r, body, t, ttlSeconds);
    OnwardFirst(cfg, world, EMPTY, Ask(t, r), [RedisRead(t, r)] + ([OriginAnswer(t, r)] + rest));
    OnwardFirst(cfg, world, State(map[], map[], multiset{Asked(r)}), RedisRead(t, r), [OriginAnswer(t, r)] + rest);
    OnwardFirst(cfg, world, State(map[], map[], multiset{Missed(r)}), OriginAnswer(t, r), rest);
    OnwardFirst(cfg, world, State(map[], map[], multiset{Fetched(r, body, t)}), write, [done]);
    OneStep(cfg, world, stored, done);
  }

  /** A request is served what one that shares its entry has just fetched. */
  lemma SharedEntryServes(cfg: Config, world: World, q: Request, r: Request, body: Body, t: nat, ttlSeconds: nat,
                          now: nat)
    requires Sharing(q, r) && Direct(cfg, world(t), q) == Some(body)
    requires ttlSeconds > 0 && t <= now <= t + cfg.memTtlSeconds * 1000
    ensures AnswerFrom(cfg, world, EMPTY, WholeRequest(q, body, t, ttlSeconds), Ask(now, r)) == Served(body, true)
  {
    WholeRequestFills(cfg, world, q, body, t, ttlSeconds);
    SharingIsOneKey(cfg, q, r);
  }

  /**
   Why callers must not mix: on a node that has just served an image without
   parameters, a request with five undefined ones is served it untransformed, which
   is not what the origin and the transformation give.
   */
  lemma MixedCallsShareAnEntry(cfg: Config, world: World, bucket: string, key: string, t: nat, ttlSeconds: nat,
                               now: nat)
    requires (bucket, key) in world(t) && IsImage(ContentType(world(t)[(bucket, key)])) && ttlSeconds > 0
    requires t <= now <= t + cfg.memTtlSeconds * 1000
    requires var file := world(t)[(bucket, key)];
             cfg.optimize(Body(file.data, ContentType(file)), NO_TRANSFORMS) != Some(Body(file.data, ContentType(file)))
    ensures var file := world(t)[(bucket, key)];
            var plain, r := Body(file.data, ContentType(file)), Request(bucket, key, Some(NO_TRANSFORMS));
            AnswerFrom(cfg, world, EMPTY, WholeRequest(r.(transforms := None), plain, t, ttlSeconds), Ask(now, r))
              == Served(plain, true) &&
            Direct(cfg, world(t), r) != Some(plain)
  {
    var file := world(t)[(bucket, key)];
    var r := Request(bucket, key, Some(NO_TRANSFORMS));
    SharedEntryServes(cfg, world, r.(transforms := None), r, Body(file.data, ContentType(file)), t, ttlSeconds, now);
  }

  /** A file that does not exist is served another's body when a colon moves between bucket and key. */
  lemma ColonServesAnotherFile(cfg: Config, world: World, a: string, b: string, c: string, x: Option<Transforms>,
                               body: Body, t: nat, ttlSeconds: nat, now: nat)
    requires Direct(cfg, world(t), Request(a, b + [':'] + c, x)) == Some(body) && (a + [':'] + b, c) !in world(t)
    requires ttlSeconds > 0 && t <= now <= t + cfg.memTtlSeconds * 1000
    ensures var q, r := Request(a, b + [':'] + c, x), Request(a + [':'] + b, c, x);
            AnswerFrom(cfg, world, EMPTY, WholeRequest(q, body, t, ttlSeconds), Ask(now, r)) == Served(body, true) &&
            Direct(cfg, world(t), r) == None
  {
    var q, r := Request(a, b + [':'] + c, x), Request(a + [':'] + b, c, x);
    assert FileText(q.bucket, q.key) == FileText(r.bucket, r.key);
    SharedEntryServes(cfg, world, q, r, body, t, ttlSeconds, now);
  }

  // ------------------------------------------- which requests the cache is transparent for

  /** An origin that never changes. */
  function Still(origin: Origin): World { (t: nat) => origin }

  /** Every step of a request in the run is of one of these. */
  predicate Among(es: seq<Event>, asked: set<Request>) {
    forall i | 0 <= i < |es| && RequestOf(es[i]).Some? :: RequestOf(es[i]).value in asked
  }

  /** In every run of these requests over the origin each answer is the direct one. */
  ghost predicate AlwaysDirect(cfg: Config, origin: Origin, asked: set<Request>) {
    forall es: seq<Event>, e: Event, r: Request, until: nat, lim: Limits, body: Body ::
      r in asked && ServedAmong(cfg, origin, asked, es, e, r, until, lim, body) ==> Direct(cfg, origin, r) == Some(body)
  }

  predicate ServedAmong(cfg: Config, origin: Origin, asked: set<Request>, es: seq<Event>, e: Event, r: Request,
                        until: nat, lim: Limits, body: Body)
  {
    Among(es, asked) && AllWithin(es, until, lim) && Within(e, until, lim) && RequestOf(e) == Some(r) &&
    Serves(cfg, Still(origin), EMPTY, es, e, KeyOf(cfg, r), body)
  }

  /** Requests that share an entry with one that has a body have that body themselves. */
  predicate Agreeing(cfg: Config, origin: Origin, asked: set<Request>) {
    forall q, r | q in asked && r in asked :: Agree(cfg, origin, q, r)
  }

  predicate Agree(cfg: Config, origin: Origin, q: Request, r: Request) {
    Sharing(q, r) && Direct(cfg, origin, q).Some? ==> Direct(cfg, origin, r) == Direct(cfg, origin, q)
  }

  lemma AgreeingIsDirect(cfg: Config, origin: Origin, asked: set<Request>, es: seq<Event>, e: Event, r: Request,
                         until: nat, lim: Limits, body: Body)
    requires Agreeing(cfg, origin, asked) && r in asked
    requires ServedAmong(cfg, origin, asked, es, e, r, until, lim, body)
    ensures Direct(cfg, origin, r) == Some(body)
  {
    var k := KeyOf(cfg, r);
    ServedFromStart(cfg, Still(origin), es, e, until, lim, k, body);
    var i: nat :| SourceAt(cfg, Still(origin), es, i, k, body);
    SharingIsOneKey(cfg, es[i].request, r);
    assert RequestOf(es[i]).Some?;
    assert Agree(cfg, origin, es[i].request, r);
  }

  lemma WholeRequestAmong(q: Request, body: Body, asked: set<Request>)
    requires q in asked
    ensures Among(WholeRequest(q, body, 0, 1), asked) && AllWithin(WholeRequest(q, body, 0, 1), 0, Limits(1, 0, 0))
  {
  }

  lemma DisagreeingIsNotDirect(cfg: Config, origin: Origin, asked: set<Request>, q: Request, r: Request)
    requires q in asked && r in asked && !Agree(cfg, origin, q, r)
    ensures !AlwaysDirect(cfg, origin, asked)
  {
    var body, lim := Direct(cfg, origin, q).value, Limits(1, 0, 0);
    var es := WholeRequest(q, body, 0, 1);
    SharedEntryServes(cfg, Still(origin), q, r, body, 0, 1, 0);
    WholeRequestAmong(q, body, asked);
    assert ServedAmong(cfg, origin, asked, es, Ask(0, r), r, 0, lim, body);
  }

  /**
   The cache is transparent for a set of requests over an unchanging origin, on all
   runs, if and only if requests of the set that share an entry have one answer.
   */
  lemma TransparentExactly(cfg: Config, origin: Origin, asked: set<Request>)
    ensures AlwaysDirect(cfg, origin, asked) <==> Agreeing(cfg, origin, asked)
  {
    if Agreeing(cfg, origin, asked) {
      forall es: seq<Event>, e: Event, r: Request, until: nat, lim: Limits, body: Body
        | r in asked && ServedAmong(cfg, origin, asked, es, e, r, until, lim, body)
        ensures Direct(cfg, origin, r) == Some(body)
      {
        AgreeingIsDirect(cfg, origin, asked, es, e, r, until, lim, body);
      }
    } else {
      var q, r :| q in asked && r in asked && !Agree(cfg, origin, q, r);
      DisagreeingIsNotDirect(cfg, origin, asked, q, r);
    }
  }

  /** Buckets that hold files have names without colons. */
  predicate PlainBuckets(origin: Origin) { forall f | f in origin :: ':' !in f.0 }

  /** A request as the controller makes it, for a bucket name without a colon. */
  predicate Ordinary(r: Request) { r.transforms.Some? && ':' !in r.bucket }

  lemma OrdinaryShareNothing(cfg: Config, origin: Origin, q: Request, r: Request)
    requires PlainBuckets(origin) && q.transforms.Some? && Ordinary(r)
    requires Sharing(q, r) && Direct(cfg, origin, q).Some?
    ensures q == r
  {
    assert (q.bucket, q.key) in origin;
    ColonFreeTextIsFile(q.bucket, q.key, r.bucket, r.key);
  }

  /**
   As long as no bucket with a file has a colon in its name, nobody's requests, for
   whatever bucket, mix with the controller's requests for a bucket without one.
   */
  lemma OrdinaryIsUnmixed(cfg: Config, world: World, es: seq<Event>, r: Request)
    requires forall i | 0 <= i < |es| && es[i].OriginAnswer? ::
               es[i].request.transforms.Some? && PlainBuckets(world(es[i].now))
    requires Ordinary(r)
    ensures Unmixed(cfg, world, es, r)
  {
    forall i | 0 <= i < |es| && es[i].OriginAnswer? && Sharing(es[i].request, r)
      ensures Direct(cfg, world(es[i].now), es[i].request).Some? ==> es[i].request == r
    {
      if Direct(cfg, world(es[i].now), es[i].request).Some? {
        OrdinaryShareNothing(cfg, world(es[i].now), es[i].request, r);
      }
    }
  }

  // ------------------------------------------- purging

  lemma IncludesAt(s: string, before: string, part: string, after: string)
    requires s == before + (part + after)
    ensures Includes(s, part)
  {
    assert s[|before|..] == part + after;
  }

  /** The filter text occurs in every key the purge is meant for. */
  lemma KeyIncludesText(region: string, bucket: string, key: string, t: Option<Transforms>)
    ensures Includes(CacheKey(region, bucket, key, t), [':'] + bucket + [':'] + key + [':'])
    ensures Includes(CacheKey(region, bucket, key, t), [':'] + bucket + [':'])
  {
    var s, head, j := CacheKey(region, bucket, key, t), "cdn:" + region, TransformKey(t);
    Regroup(head, bucket, key, j);
    IncludesAt(s, head, [':'] + bucket + [':'] + key + [':'], j);
    IncludesAt(s, head, [':'] + bucket + [':'], key + [':'] + j);
  }

  lemma Regroup(head: string, b: string, k: string, j: string)
    ensures head + [':'] + (b + [':'] + (k + [':'] + j)) == head + (([':'] + b + [':'] + k + [':']) + j)
    ensures head + [':'] + (b + [':'] + (k + [':'] + j)) == head + (([':'] + b + [':']) + (k + [':'] + j))
  {
    assert [':'] + (b + [':'] + (k + [':'] + j)) == [':'] + b + [':'] + k + [':'] + j;
  }

  /** After an event naming a bucket and a key, memory holds nothing for that file under any parameters. */
  lemma PurgedFile(st: State, region: string, bucket: string, key: string, t: Option<Transforms>)
    requires key != ""
    ensures CacheKey(region, bucket, key, t) !in InvalidateStep(st, Some(bucket), Some(key)).memory
  {
    KeyIncludesText(region, bucket, key, t);
  }

  /** After an event naming only a bucket, memory holds nothing for that bucket. */
  lemma PurgedBucket(st: State, region: string, bucket: string, file: Option<string>, key: string,
                     t: Option<Transforms>)
    requires bucket != "" && !Truthy(file)
    ensures CacheKey(region, bucket, key, t) !in InvalidateStep(st, Some(bucket), file).memory
  {
    KeyIncludesText(region, bucket, key, t);
  }

  /** The event that the memory handlers get at the end of a purge. */
  function PurgeEvent(r: Request): Event { Invalidate(Some(r.bucket), Some(r.key)) }

  /** The event takes the file out of memory and changes nothing else under its key. */
  lemma AfterEvent(cfg: Config, world: World, st: State, es: seq<Event>, r: Request)
    requires r.key != ""
    ensures var before, after := Onward(cfg, world, st, es), Onward(cfg, world, st, es + [PurgeEvent(r)]);
            after == InvalidateStep(before, Some(r.bucket), Some(r.key)) && KeyOf(cfg, r) !in after.memory
  {
    OnwardConcat(cfg, world, st, es, [PurgeEvent(r)]);
    OneStep(cfg, world, Onward(cfg, world, st, es), PurgeEvent(r));
    PurgedFile(Onward(cfg, world, st, es), cfg.region, r.bucket, r.key, r.transforms);
  }

  /**
   State st is the one in which the file's Redis key has been deleted; the run goes
   on until the event is handled and beyond, and then event e serves the file.
   */
  predicate ServedAfterPurge(cfg: Config, world: World, st: State, r: Request, mid: seq<Event>, later: seq<Event>,
                             e: Event, until: nat, lim: Limits, body: Body)
  {
    AllWithin(mid, until, lim) && AllWithin(later, until, lim) && Within(e, until, lim) &&
    Serves(cfg, world, Onward(cfg, world, st, mid + [PurgeEvent(r)]), later, e, KeyOf(cfg, r), body)
  }

  ghost predicate FetchedIn(cfg: Config, world: World, es: seq<Event>, k: string, body: Body) {
    exists i: nat :: SourceAt(cfg, world, es, i, k, body)
  }

  /** Whatever happens before and after the event, a body served after it was fetched after the Redis deletion. */
  ghost predicate FinallyPurged(cfg: Config, world: World, st: State, r: Request) {
    forall mid: seq<Event>, later: seq<Event>, e: Event, until: nat, lim: Limits, body: Body ::
      ServedAfterPurge(cfg, world, st, r, mid, later, e, until, lim, body) ==>
        FetchedIn(cfg, world, mid + later, KeyOf(cfg, r), body)
  }

  /** What is left of the steps of a request that has its body in hand, all at instant t. */
  function Completion(p: Pending, t: nat): seq<Event>
    requires Carries(p)
  {
    match p
    case Hit(_, _, _) => [TtlRead(t, p, true)]
    case Fetched(r, body, at) => [RedisWrite(t, p, 1)] + [WriteDone(t, Written(r, body, at, t))]
    case Written(_, _, _, _) => [WriteDone(t, p)]
  }

  lemma RememberFills(cfg: Config, st: State, k: string, body: Body, t: nat)
    ensures FilledBy(cfg, Remember(cfg, st, k, body, t), k, body, t)
  {
  }

  predicate FilledBy(cfg: Config, st: State, k: string, body: Body, t: nat) {
    k in st.memory && st.memory[k] == MemEntry(body, t + cfg.memTtlSeconds * 1000)
  }

  lemma FetchedGoesOn(cfg: Config, st: State, p: Pending, t: nat)
    requires p.Fetched? && p in st.pending
    ensures Written(p.request, p.body, p.at, t) in WriteStep(cfg, st, t, p, 1).0.pending
  {
  }

  lemma FetchedCompletes(cfg: Config, world: World, st: State, p: Pending, t: nat)
    requires p.Fetched? && p in st.pending
    ensures FilledBy(cfg, Onward(cfg, world, st, Completion(p, t)), KeyOf(cfg, p.request), p.body, t)
  {
    var w, next := Written(p.request, p.body, p.at, t), WriteStep(cfg, st, t, p, 1).0;
    OnwardFirst(cfg, world, st, RedisWrite(t, p, 1), [WriteDone(t, w)]);
    FetchedGoesOn(cfg, st, p, t);
    OneStep(cfg, world, next, WriteDone(t, w));
    RememberFills(cfg, Leaves(next, w), KeyOf(cfg, p.request), p.body, t);
  }

  lemma CompletionFills(cfg: Config, world: World, st: State, p: Pending, t: nat)
    requires Carries(p) && p in st.pending
    ensures FilledBy(cfg, Onward(cfg, world, st, Completion(p, t)), KeyOf(cfg, p.request), p.body, t)
  {
    if p.Fetched? {
      FetchedCompletes(cfg, world, st, p, t);
    } else {
      OneStep(cfg, world, st, if p.Hit? then TtlRead(t, p, true) else WriteDone(t, p));
      RememberFills(cfg, Leaves(st, p), KeyOf(cfg, p.request), p.body, t);
    }
  }

  /**
   A request that has a body of the file in hand when the event is handled, read
   from Redis or fetched, puts that body back, and the next request is served it.
   */
  lemma PendingOutlivesPurge(cfg: Config, world: World, es: seq<Event>, p: Pending, t: nat, now: nat)
    requires p in After(cfg, world, es).pending && Carries(p) && p.request.key != ""
    requires t <= now <= t + cfg.memTtlSeconds * 1000
    ensures var purged := After(cfg, world, es + [PurgeEvent(p.request)]);
            AnswerFrom(cfg, world, purged, Completion(p, t), Ask(now, p.request)) == Served(p.body, true)
  {
    AfterEvent(cfg, world, EMPTY, es, p.request);
    CompletionFills(cfg, world, After(cfg, world, es + [PurgeEvent(p.request)]), p, t);
  }

  /** The steps that are left are none of the origin's, and take no time. */
  lemma CompletionIsNoSource(cfg: Config, world: World, p: Pending, k: string)
    requires Carries(p)
    ensures AllWithin(Completion(p, p.at), p.at, Limits(1, 0, 0))
    ensures !FetchedIn(cfg, world, Completion(p, p.at), k, p.body)
  {
  }

  lemma CarrierIsServed(cfg: Config, world: World, st: State, p: Pending, r: Request)
    requires p in st.pending && Carries(p) && r.key != "" && KeyOf(cfg, p.request) == KeyOf(cfg, r)
    ensures ServedAfterPurge(cfg, world, st, r, [], Completion(p, p.at), Ask(p.at, r), p.at, Limits(1, 0, 0), p.body)
  {
    AfterEvent(cfg, world, st, [], r);
    CompletionFills(cfg, world, Onward(cfg, world, st, [] + [PurgeEvent(r)]), p, p.at);
    CompletionIsNoSource(cfg, world, p, KeyOf(cfg, r));
  }

  lemma NotFinalBy(cfg: Config, world: World, st: State, r: Request, later: seq<Event>, e: Event, until: nat,
                   lim: Limits, body: Body)
    requires ServedAfterPurge(cfg, world, st, r, [], later, e, until, lim, body)
    requires !FetchedIn(cfg, world, later, KeyOf(cfg, r), body)
    ensures !FinallyPurged(cfg, world, st, r)
  {
    assert [] + later == later;
  }

  lemma CarrierIsNotFinal(cfg: Config, world: World, st: State, p: Pending, r: Request)
    requires p in st.pending && Carries(p) && r.key != "" && KeyOf(cfg, p.request) == KeyOf(cfg, r)
    ensures !FinallyPurged(cfg, world, st, r)
  {
    CarrierIsServed(cfg, world, st, p, r);
    CompletionIsNoSource(cfg, world, p, KeyOf(cfg, r));
    NotFinalBy(cfg, world, st, r, Completion(p, p.at), Ask(p.at, r), p.at, Limits(1, 0, 0), p.body);
  }

  lemma EmptyHandedIsFinal(cfg: Config, world: World, st: State, r: Request, mid: seq<Event>, later: seq<Event>,
                           e: Event, until: nat, lim: Limits, body: Body)
    requires r.key != "" && Flows(cfg, world, [], lim, st, KeyOf(cfg, r))
    requires ServedAfterPurge(cfg, world, st, r, mid, later, e, until, lim, body)
    ensures FetchedIn(cfg, world, mid + later, KeyOf(cfg, r), body)
  {
    var k := KeyOf(cfg, r);
    AlwaysFlows(cfg, world, [], st, mid, until, lim, k);
    assert [] + mid == mid;
    AfterEvent(cfg, world, st, mid, r);
    var purged := Onward(cfg, world, st, mid + [PurgeEvent(r)]);
    assert Traced(cfg, world, mid, lim, purged, k);
    ServedHasSource(cfg, world, mid, purged, later, e, until, lim, k, body);
  }

  lemma AfterDrop(cfg: Config, world: World, es: seq<Event>, keys: set<string>)
    ensures var st := After(cfg, world, es);
            After(cfg, world, es + [RedisDrop(keys)]) == st.(redis := st.redis - keys)
  {
    OnwardConcat(cfg, world, EMPTY, es, [RedisDrop(keys)]);
    OneStep(cfg, world, After(cfg, world, es), RedisDrop(keys));
  }

  /**
   A purge that reaches the file's Redis key is final, whatever happens between the
   Redis deletion and the event and after it, if and only if no request has a body of
   the file in hand at the Redis deletion.
   */
  lemma PurgeIsFinalExactly(cfg: Config, world: World, es: seq<Event>, keys: set<string>, r: Request)
    requires r.key != "" && KeyOf(cfg, r) in keys
    ensures FinallyPurged(cfg, world, After(cfg, world, es + [RedisDrop(keys)]), r) <==>
            forall p: Pending | p in After(cfg, world, es).pending && Carries(p) ::
              KeyOf(cfg, p.request) != KeyOf(cfg, r)
  {
    var st := After(cfg, world, es + [RedisDrop(keys)]);
    AfterDrop(cfg, world, es, keys);
    if p: Pending :| p in st.pending && Carries(p) && KeyOf(cfg, p.request) == KeyOf(cfg, r) {
      CarrierIsNotFinal(cfg, world, st, p, r);
    } else {
      forall mid: seq<Event>, later: seq<Event>, e: Event, until: nat, lim: Limits, body: Body
        | ServedAfterPurge(cfg, world, st, r, mid, later, e, until, lim, body)
        ensures FetchedIn(cfg, world, mid + later, KeyOf(cfg, r), body)
      {
        EmptyHandedIsFinal(cfg, world, st, r, mid, later, e, until, lim, body);
      }
    }
  }

  // ------------------------------------------- a purge erases the past

  /** Both states hold the same for cache key k. */
  predicate SameEntries(st: State, st': State, k: string) {
    (k in st.memory <==> k in st'.memory) && (k in st.memory ==> st.memory[k] == st'.memory[k]) &&
    (k in st.redis <==> k in st'.redis) && (k in st.redis ==> st.redis[k] == st'.redis[k])
  }

  /** The same requests for cache key k wait in both states. */
  ghost predicate SamePending(cfg: Config, a: multiset<Pending>, b: multiset<Pending>, k: string) {
    forall p: Pending {:trigger a[p]} {:trigger b[p]} | KeyOf(cfg, p.request) == k :: a[p] == b[p]
  }

  ghost predicate AgreeAt(cfg: Config, st: State, st': State, k: string) {
    SameEntries(st, st', k) && SamePending(cfg, st.pending, st'.pending, k)
  }

  lemma SameChange(cfg: Config, a: multiset<Pending>, b: multiset<Pending>, p: Pending, q: Pending, k: string)
    requires SamePending(cfg, a, b, k)
    ensures SamePending(cfg, a - multiset{p} + multiset{q}, b - multiset{p} + multiset{q}, k)
    ensures SamePending(cfg, a - multiset{p}, b - multiset{p}, k)
    ensures SamePending(cfg, a + multiset{q}, b + multiset{q}, k)
  {
  }

  lemma SameMembers(cfg: Config, a: multiset<Pending>, b: multiset<Pending>, p: Pending, k: string)
    requires SamePending(cfg, a, b, k) && KeyOf(cfg, p.request) == k
    ensures p in a <==> p in b
  {
    assert a[p] == b[p];
  }

  lemma PendingElsewhere(cfg: Config, a: multiset<Pending>, p: Pending, q: Pending, k: string)
    requires KeyOf(cfg, p.request) != k && KeyOf(cfg, q.request) != k
    ensures SamePending(cfg, a, a - multiset{p} + multiset{q}, k) && SamePending(cfg, a, a - multiset{p}, k)
    ensures SamePending(cfg, a, a + multiset{q}, k)
  {
  }

  lemma AskReadElsewhere(cfg: Config, st: State, now: nat, r: Request, k: string)
    requires KeyOf(cfg, r) != k
    ensures AgreeAt(cfg, st, AskStep(cfg, st, now, r).0, k) && AgreeAt(cfg, st, ReadStep(cfg, st, now, r).0, k)
  {
    var found := FromRedis(st, KeyOf(cfg, r), now);
    PendingElsewhere(cfg, st.pending, Asked(r), Asked(r), k);
    PendingElsewhere(cfg, st.pending, Asked(r), if found.Some? then Hit(r, found.value, now) else Missed(r), k);
  }

  lemma OriginElsewhere(cfg: Config, origin: Origin, st: State, now: nat, r: Request, k: string)
    requires KeyOf(cfg, r) != k
    ensures AgreeAt(cfg, st, OriginStep(cfg, origin, st, now, r).0, k)
  {
    var answer := Direct(cfg, origin, r);
    PendingElsewhere(cfg, st.pending, Missed(r), if answer.Some? then Fetched(r, answer.value, now) else Missed(r), k);
  }

  lemma TtlDoneElsewhere(cfg: Config, st: State, now: nat, p: Pending, ok: bool, k: string)
    requires KeyOf(cfg, p.request) != k
    ensures AgreeAt(cfg, st, TtlStep(cfg, st, now, p, ok).0, k) && AgreeAt(cfg, st, DoneStep(cfg, st, now, p).0, k)
  {
    PendingElsewhere(cfg, st.pending, p, Missed(p.request), k);
  }

  lemma WriteElsewhere(cfg: Config, st: State, now: nat, p: Pending, ttlSeconds: int, k: string)
    requires KeyOf(cfg, p.request) != k
    ensures AgreeAt(cfg, st, WriteStep(cfg, st, now, p, ttlSeconds).0, k)
  {
    PendingElsewhere(cfg, st.pending, p, if p.Fetched? then Written(p.request, p.body, p.at, now) else p, k);
  }

  /** A step of a request for another key changes no entry of the key and no request for it. */
  lemma StepElsewhere(cfg: Config, world: World, st: State, e: Event, k: string)
    requires RequestOf(e).Some? && KeyOf(cfg, RequestOf(e).value) != k
    ensures AgreeAt(cfg, st, Step(cfg, world, st, e).0, k)
  {
    match e
    case Ask(now, r) => AskReadElsewhere(cfg, st, now, r, k);
    case RedisRead(now, r) => AskReadElsewhere(cfg, st, now, r, k);
    case TtlRead(now, p, ok) => TtlDoneElsewhere(cfg, st, now, p, ok, k);
    case OriginAnswer(now, r) => OriginElsewhere(cfg, world(now), st, now, r, k);
    case RedisWrite(now, p, ttlSeconds) => WriteElsewhere(cfg, st, now, p, ttlSeconds, k);
    case WriteDone(now, p) => TtlDoneElsewhere(cfg, st, now, p, true, k);
  }

  lemma AgreeBoth(cfg: Config, st: State, st': State, a: State, b: State, k: string)
    requires AgreeAt(cfg, st, st', k) && AgreeAt(cfg, st, a, k) && AgreeAt(cfg, st', b, k)
    ensures AgreeAt(cfg, a, b, k)
  {
    forall p: Pending | KeyOf(cfg, p.request) == k ensures a.pending[p] == b.pending[p] {
      assert st.pending[p] == st'.pending[p] == b.pending[p] && st.pending[p] == a.pending[p];
    }
  }

  lemma ReadTogether(cfg: Config, st: State, st': State, now: nat, r: Request)
    requires AgreeAt(cfg, st, st', KeyOf(cfg, r))
    ensures AgreeAt(cfg, AskStep(cfg, st, now, r).0, AskStep(cfg, st', now, r).0, KeyOf(cfg, r))
    ensures AskStep(cfg, st, now, r).1 == AskStep(cfg, st', now, r).1
    ensures AgreeAt(cfg, ReadStep(cfg, st, now, r).0, ReadStep(cfg, st', now, r).0, KeyOf(cfg, r))
  {
    var k := KeyOf(cfg, r);
    var found := FromRedis(st, k, now);
    assert FromRedis(st', k, now) == found;
    SameMembers(cfg, st.pending, st'.pending, Asked(r), k);
    SameChange(cfg, st.pending, st'.pending, Asked(r), Asked(r), k);
    SameChange(cfg, st.pending, st'.pending, Asked(r), if found.Some? then Hit(r, found.value, now) else Missed(r), k);
  }

  lemma OriginTogether(cfg: Config, origin: Origin, st: State, st': State, now: nat, r: Request)
    requires AgreeAt(cfg, st, st', KeyOf(cfg, r))
    ensures AgreeAt(cfg, OriginStep(cfg, origin, st, now, r).0, OriginStep(cfg, origin, st', now, r).0, KeyOf(cfg, r))
    ensures OriginStep(cfg, origin, st, now, r).1 == OriginStep(cfg, origin, st', now, r).1
  {
    var k, answer := KeyOf(cfg, r), Direct(cfg, origin, r);
    SameMembers(cfg, st.pending, st'.pending, Missed(r), k);
    SameChange(cfg, st.pending, st'.pending, Missed(r),
               if answer.Some? then Fetched(r, answer.value, now) else Missed(r), k);
  }

  lemma RememberTogether(cfg: Config, st: State, st': State, k: string, body: Body, now: nat)
    requires AgreeAt(cfg, st, st', k)
    ensures AgreeAt(cfg, Remember(cfg, st, k, body, now), Remember(cfg, st', k, body, now), k)
  {
  }

  lemma TtlDoneTogether(cfg: Config, st: State, st': State, now: nat, p: Pending, ok: bool)
    requires AgreeAt(cfg, st, st', KeyOf(cfg, p.request))
    ensures AgreeAt(cfg, TtlStep(cfg, st, now, p, ok).0, TtlStep(cfg, st', now, p, ok).0, KeyOf(cfg, p.request))
    ensures AgreeAt(cfg, DoneStep(cfg, st, now, p).0, DoneStep(cfg, st', now, p).0, KeyOf(cfg, p.request))
    ensures TtlStep(cfg, st, now, p, ok).1 == TtlStep(cfg, st', now, p, ok).1
    ensures DoneStep(cfg, st, now, p).1 == DoneStep(cfg, st', now, p).1
  {
    var k := KeyOf(cfg, p.request);
    SameMembers(cfg, st.pending, st'.pending, p, k);
    SameChange(cfg, st.pending, st'.pending, p, Missed(p.request), k);
    if p.Hit? || p.Written? { RememberTogether(cfg, Leaves(st, p), Leaves(st', p), k, p.body, now); }
  }

  lemma WriteTogether(cfg: Config, st: State, st': State, now: nat, p: Pending, ttlSeconds: int)
    requires AgreeAt(cfg, st, st', KeyOf(cfg, p.request))
    ensures AgreeAt(cfg, WriteStep(cfg, st, now, p, ttlSeconds).0, WriteStep(cfg, st', now, p, ttlSeconds).0,
                    KeyOf(cfg, p.request))
    ensures WriteStep(cfg, st, now, p, ttlSeconds).1 == WriteStep(cfg, st', now, p, ttlSeconds).1
  {
    var k := KeyOf(cfg, p.request);
    SameMembers(cfg, st.pending, st'.pending, p, k);
    SameChange(cfg, st.pending, st'.pending, p, if p.Fetched? then Written(p.request, p.body, p.at, now) else p, k);
  }

  /** What the request's step finds is the same in both states, and so are its answer and what it leaves. */
  lemma StepTogether(cfg: Config, world: World, st: State, st': State, e: Event, k: string)
    requires AgreeAt(cfg, st, st', k) && RequestOf(e).Some? && KeyOf(cfg, RequestOf(e).value) == k
    ensures AgreeAt(cfg, Step(cfg, world, st, e).0, Step(cfg, world, st', e).0, k)
    ensures Step(cfg, world, st, e).1 == Step(cfg, world, st', e).1
  {
    match e
    case Ask(now, r) => ReadTogether(cfg, st, st', now, r);
    case RedisRead(now, r) => ReadTogether(cfg, st, st', now, r);
    case TtlRead(now, p, ok) => TtlDoneTogether(cfg, st, st', now, p, ok);
    case OriginAnswer(now, r) => OriginTogether(cfg, world(now), st, st', now, r);
    case RedisWrite(now, p, ttlSeconds) => WriteTogether(cfg, st, st', now, p, ttlSeconds);
    case WriteDone(now, p) => TtlDoneTogether(cfg, st, st', now, p, true);
  }

  /** What happens under one key depends on that key's entries and requests alone. */
  lemma StepAgrees(cfg: Config, world: World, st: State, st': State, e: Event, k: string)
    requires AgreeAt(cfg, st, st', k)
    ensures AgreeAt(cfg, Step(cfg, world, st, e).0, Step(cfg, world, st', e).0, k)
  {
    if RequestOf(e).Some? {
      if KeyOf(cfg, RequestOf(e).value) == k {
        StepTogether(cfg, world, st, st', e, k);
      } else {
        StepElsewhere(cfg, world, st, e, k);
        StepElsewhere(cfg, world, st', e, k);
        AgreeBoth(cfg, st, st', Step(cfg, world, st, e).0, Step(cfg, world, st', e).0, k);
      }
    }
  }

  lemma {:induction false} RunsAgree(cfg: Config, world: World, st: State, st': State, es: seq<Event>, k: string)
    requires AgreeAt(cfg, st, st', k)
    ensures AgreeAt(cfg, Onward(cfg, world, st, es), Onward(cfg, world, st', es), k)
  {
    if es != [] {
      var p, e := es[..|es| - 1], es[|es| - 1];
      RunsAgree(cfg, world, st, st', p, k);
      StepAgrees(cfg, world, Onward(cfg, world, st, p), Onward(cfg, world, st', p), e, k);
    }
  }

  /**
   The event erases what memory knew: from then on every request for the file is
   answered as by any node that has nothing in memory for it, the same in Redis and
   the same requests for it under way; with neither, as by a node that has just
   started.
   */
  lemma PurgeErasesThePast(cfg: Config, world: World, es: seq<Event>, r: Request, start: State, later: seq<Event>,
                           e: Event)
    requires r.key != "" && KeyOf(cfg, r) !in start.memory
    requires AgreeAt(cfg, After(cfg, world, es).(memory := map[]), start.(memory := map[]), KeyOf(cfg, r))
    requires RequestOf(e).Some? && KeyOf(cfg, RequestOf(e).value) == KeyOf(cfg, r)
    ensures AnswerFrom(cfg, world, After(cfg, world, es + [PurgeEvent(r)]), later, e)
            == AnswerFrom(cfg, world, start, later, e)
  {
    var k, st := KeyOf(cfg, r), After(cfg, world, es + [PurgeEvent(r)]);
    AfterEvent(cfg, world, EMPTY, es, r);
    RunsAgree(cfg, world, st, start, later, k);
    StepTogether(cfg, world, Onward(cfg, world, st, later), Onward(cfg, world, start, later), e, k);
  }

  // ---------------------------------------------------------------- the service

  class CdnService {
    const cfg: Config
    var memoryCache: map<string, MemEntry>
    var redis: map<string, RedisEntry>
    /** The calls of `serveFile` that wait. */
    var pending: multiset<Pending>

    function Contents(): State
      reads this
    {
      State(memoryCache, redis, pending)
    }

    constructor (cfg: Config)
      ensures this.cfg == cfg && Contents() == EMPTY
    {
      this.cfg := cfg;
      memoryCache, redis, pending := map[], map[], multiset{};
    }

    /** `serveFile` up to its Redis read. */
    method ServeFile(now: nat, bucket: string, key: string, transforms: Option<Transforms>) returns (answer: Answer)
      modifies this
      ensures (Contents(), answer) == AskStep(cfg, old(Contents()), now, Request(bucket, key, transforms))
    {
      var transformKey := if transforms.Some? then Stringify(transforms.value) else "{}";
      var cacheKey := "cdn:" + cfg.region + [':'] + (bucket + [':'] + (key + [':'] + transformKey));
      assert cacheKey == KeyOf(cfg, Request(bucket, key, transforms));
      if cacheKey in memoryCache && now <= memoryCache[cacheKey].expiresAt {
        return Served(memoryCache[cacheKey].body, true);
      }
      pending := pending + multiset{Asked(Request(bucket, key, transforms))};
      answer := Waiting;
    }

    /** With the Redis reply: parse it and ask for the remaining time-to-live, or go to the origin. */
    method OnRedisRead(now: nat, request: Request) returns (answer: Answer)
      requires Asked(request) in pending
      modifies this
      ensures (Contents(), answer) == ReadStep(cfg, old(Contents()), now, request)
    {
      var cacheKey := KeyOf(cfg, request);
      var next := Missed(request);
      if cacheKey in redis && now <= redis[cacheKey].expiresAt {
        match redis[cacheKey].payload {
          case Json(data64, contentType) => next := Hit(request, Body(Base64.Decode(data64), contentType), now);
          case Unparsable =>
        }
      }
      pending := pending - multiset{Asked(request)} + multiset{next};
      answer := Waiting;
    }

    /** With the remaining time-to-live: fill memory and answer. */
    method OnTtlRead(now: nat, p: Pending, ok: bool) returns (answer: Answer)
      requires p in pending && p.Hit?
      modifies this
      ensures (Contents(), answer) == TtlStep(cfg, old(Contents()), now, p, ok)
    {
      pending := pending - multiset{p};
      if !ok {
        pending := pending + multiset{Missed(p.request)};
        return Waiting;
      }
      memoryCache := memoryCache[KeyOf(cfg, p.request) := MemEntry(p.body, now + cfg.memTtlSeconds * 1000)];
      answer := Served(p.body, true);
    }

    /** With the origin's answer: transform it and go on to the stores. */
    method OnOriginAnswer(now: nat, origin: Origin, request: Request) returns (answer: Answer)
      requires Missed(request) in pending
      modifies this
      ensures (Contents(), answer) == OriginStep(cfg, origin, old(Contents()), now, request)
    {
      pending := pending - multiset{Missed(request)};
      if (request.bucket, request.key) !in origin { return Failed; }
      var file := origin[(request.bucket, request.key)];
      var contentType := ContentType(file);
      var data := file.data;
      if request.transforms.Some? && IsImage(contentType) {
        var result := cfg.optimize(Body(data, contentType), request.transforms.value);
        if result.None? { return Failed; }
        data, contentType := result.value.data, result.value.contentType;
      }
      pending := pending + multiset{Fetched(request, Body(data, contentType), now)};
      answer := Waiting;
    }

    /** With the configured time-to-live: the Redis store. */
    method StoreFetched(now: nat, p: Pending, ttlSeconds: int) returns (answer: Answer)
      requires p in pending && p.Fetched?
      modifies this
      ensures (Contents(), answer) == WriteStep(cfg, old(Contents()), now, p, ttlSeconds)
    {
      var cacheObject := Json(Base64.Encode(p.body.data), p.body.contentType);
      pending := pending - multiset{p};
      if ttlSeconds <= 0 { return Failed; }
      redis := redis[KeyOf(cfg, p.request) := RedisEntry(cacheObject, now + ttlSeconds * 1000)];
      pending := pending + multiset{Written(p.request, p.body, p.at, now)};
      answer := Waiting;
    }

    /** With the reply of the Redis store: fill memory and answer. */
    method OnStored(now: nat, p: Pending) returns (answer: Answer)
      requires p in pending && p.Written?
      modifies this
      ensures (Contents(), answer) == DoneStep(cfg, old(Contents()), now, p)
    {
      pending := pending - multiset{p};
      memoryCache := memoryCache[KeyOf(cfg, p.request) := MemEntry(p.body, now + cfg.memTtlSeconds * 1000)];
      answer := Served(p.body, false);
    }

    method OnInvalidation(target: Option<string>, file: Option<string>)
      modifies this`memoryCache
      ensures Contents() == InvalidateStep(old(Contents()), target, file)
    {
      var text := FilterText(target, file);
      if text.None? { return; }
      var before := memoryCache;
      var keys := set k | k in memoryCache && Includes(k, text.value);
      while keys != {}
        invariant keys <= memoryCache.Keys
        invariant forall k | k in keys :: Includes(k, text.value)
        invariant memoryCache.Keys == keys + Purge(before, text.value).Keys
        invariant forall k | k in memoryCache :: k in before && memoryCache[k] == before[k]
        decreases keys
      {
        var k :| k in keys;
        memoryCache := memoryCache - {k};
        keys := keys - {k};
      }
      assert memoryCache == Purge(before, text.value);
    }
  }
}
