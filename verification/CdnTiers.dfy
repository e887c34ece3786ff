/**
 What each tier answers, in the terms of the origin's file alone: the body a cold
 node makes of it, how long memory and then Redis give it again, and when the next
 request goes to the origin.
 */
module CdnTiers {
  import opened Wrappers
  import opened CdnKey
  import opened CdnCache
  import Base64

  // ------------------------------------------- what a file is served as

  /** The character is the letter or its ASCII capital. */
  predicate SameLetter(c: char, letter: char) {
    c == letter || ('a' <= letter <= 'z' && c as int == letter as int - 32)
  }

  predicate SameLetters(s: string, name: string) {
    |s| == |name| && forall i | 0 <= i < |s| :: SameLetter(s[i], name[i])
  }

  /** The image types, in any capitals. */
  predicate Transformable(contentType: string) {
    SameLetters(contentType, "image/jpeg") || SameLetters(contentType, "image/png") ||
    SameLetters(contentType, "image/gif") || SameLetters(contentType, "image/webp") ||
    SameLetters(contentType, "image/avif") || SameLetters(contentType, "image/svg+xml")
  }

  function TypeOf(header: Option<string>): string {
    match header
    case None => "application/octet-stream"
    case Some(h) => if |h| == 0 then "application/octet-stream" else h
  }

  /** What a request for a file the origin has, or has not, is to get; None is an error. */
  function Promised(cfg: Config, file: Option<File>, params: Option<Transforms>): Option<Body> {
    match file
    case None => None
    case Some(f) =>
      var untouched := Body(f.data, TypeOf(f.contentType));
      match params
      case None => Some(untouched)
      case Some(x) => if Transformable(TypeOf(f.contentType)) then cfg.optimize(untouched, x) else Some(untouched)
  }

  predicate NoCapitals(s: string) { forall i | 0 <= i < |s| :: !('A' <= s[i] <= 'Z') }

  /** Lower case is the letter-by-letter comparison, for a name without capitals. */
  lemma {:induction false} LowerExact(s: string, name: string)
    requires NoCapitals(name)
    ensures Lower(s) == name <==> SameLetters(s, name)
  {
    if s == [] || name == [] {
      assert |Lower(s)| == 0 <==> s == [];
    } else {
      LowerExact(s[1..], name[1..]);
      LowerFirst(s, name);
      LettersFirst(s, name);
    }
  }

  lemma LowerFirst(s: string, name: string)
    requires s != [] && name != [] && NoCapitals(name)
    ensures Lower(s) == name <==> SameLetter(s[0], name[0]) && Lower(s[1..]) == name[1..]
  {
    assert Lower(s)[1..] == Lower(s[1..]);
    assert SameLetter(s[0], name[0]) <==> Lower(s)[0] == name[0];
    if Lower(s)[0] == name[0] && Lower(s[1..]) == name[1..] { SameHeadAndTail(Lower(s), name); }
  }

  lemma LettersFirst(s: string, name: string)
    requires s != [] && name != []
    ensures SameLetters(s, name) <==> SameLetter(s[0], name[0]) && SameLetters(s[1..], name[1..])
  {
    if SameLetter(s[0], name[0]) && SameLetters(s[1..], name[1..]) {
      forall i | 0 <= i < |s| ensures SameLetter(s[i], name[i]) {
        if i > 0 { assert SameLetter(s[1..][i - 1], name[1..][i - 1]); }
      }
    }
    if SameLetters(s, name) {
      forall i | 0 <= i < |s[1..]| ensures SameLetter(s[1..][i], name[1..][i]) {
        assert SameLetter(s[i + 1], name[i + 1]);
      }
    }
  }

  lemma ImagesAreTransformable(contentType: string)
    ensures IsImage(contentType) <==> Transformable(contentType)
  {
    LowerExact(contentType, "image/jpeg");
    LowerExact(contentType, "image/png");
    LowerExact(contentType, "image/gif");
    LowerExact(contentType, "image/webp");
    LowerExact(contentType, "image/avif");
    LowerExact(contentType, "image/svg+xml");
  }

  function At(origin: Origin, r: Request): Option<File> {
    if (r.bucket, r.key) in origin then Some(origin[(r.bucket, r.key)]) else None
  }

  /**
   A request is answered with the file's data and header, a binary stream's where the
   header is absent or empty; with what the transformation makes of them exactly when
   parameters are given and the type is, in any capitals, one of the six image types.
   */
  lemma DirectExact(cfg: Config, origin: Origin, r: Request)
    ensures Direct(cfg, origin, r) == Promised(cfg, At(origin, r), r.transforms)
  {
    var file := At(origin, r);
    if file.Some? { ImagesAreTransformable(TypeOf(file.value.contentType)); }
  }

  /** The body any request is served is what the file of some instant, not too long ago, is to be served as. */
  lemma StaleAsPromised(cfg: Config, world: World, es: seq<Event>, e: Event, r: Request, body: Body, lim: Limits)
    returns (fetchedAt: nat)
    requires RequestOf(e) == Some(r) && AllWithin(es, e.now, lim) && Within(e, e.now, lim) && Unmixed(cfg, world, es, r)
    requires Serves(cfg, world, EMPTY, es, e, KeyOf(cfg, r), body)
    ensures fetchedAt <= e.now &&
            e.now <= fetchedAt + lim.storeMs + lim.replyMs + (lim.ttlSeconds + cfg.memTtlSeconds) * 1000
    ensures Promised(cfg, At(world(fetchedAt), r), r.transforms) == Some(body)
  {
    fetchedAt := BoundedStaleness(cfg, world, es, e, r, body, lim);
    DirectExact(cfg, world(fetchedAt), r);
  }

  /** A request that fetched is served what the file of the instant of the origin's answer is to be served as. */
  lemma FetchedAsPromised(cfg: Config, world: World, es: seq<Event>, now: nat, p: Pending, lim: Limits)
    requires AllWithin(es, now, lim) && AnswerFrom(cfg, world, EMPTY, es, WriteDone(now, p)).Served?
    ensures p.Written? && OriginAnswer(p.fetchedAt, p.request) in es
    ensures Promised(cfg, At(world(p.fetchedAt), p.request), p.request.transforms)
            == Some(AnswerFrom(cfg, world, EMPTY, es, WriteDone(now, p)).body)
  {
    FetchedIsDirect(cfg, world, es, now, p, lim);
    DirectExact(cfg, world(p.fetchedAt), p.request);
  }

  // ------------------------------------------- a cold node

  /** A request up to the origin's answer, on a node with nothing in it. */
  function ToOrigin(r: Request, t: nat): seq<Event> { [Ask(t, r)] + [RedisRead(t, r)] }

  lemma ToOriginMisses(cfg: Config, world: World, r: Request, t: nat)
    ensures After(cfg, world, ToOrigin(r, t)) == State(map[], map[], multiset{Missed(r)})
  {
    ColdRead(cfg, r, t);
    OnwardFirst(cfg, world, EMPTY, Ask(t, r), [RedisRead(t, r)]);
    OneStep(cfg, world, State(map[], map[], multiset{Asked(r)}), RedisRead(t, r));
  }

  lemma AfterSnoc(cfg: Config, world: World, es: seq<Event>, e: Event)
    ensures After(cfg, world, es + [e]) == Step(cfg, world, After(cfg, world, es), e).0
  {
    OnwardConcat(cfg, world, EMPTY, es, [e]);
    OneStep(cfg, world, After(cfg, world, es), e);
  }

  /**
   On a node with nothing in it a request fails where the file is missing or its
   transformation throws; otherwise it is served what was promised, as a miss, if the
   time-to-live is positive, and else fails at the store.
   */
  lemma ColdServes(cfg: Config, world: World, r: Request, t: nat, ttlSeconds: int)
    ensures var promised := Promised(cfg, At(world(t), r), r.transforms);
            var fetched := ToOrigin(r, t) + [OriginAnswer(t, r)];
            match promised
            case None =>
              AnswerFrom(cfg, world, EMPTY, ToOrigin(r, t), OriginAnswer(t, r)) == Failed &&
              After(cfg, world, fetched) == EMPTY
            case Some(body) =>
              var store := RedisWrite(t, Fetched(r, body, t), ttlSeconds);
              if ttlSeconds <= 0 then AnswerFrom(cfg, world, EMPTY, fetched, store) == Failed
              else
                AnswerFrom(cfg, world, EMPTY, fetched + [store], WriteDone(t, Written(r, body, t, t)))
                  == Served(body, false)
  {
    DirectExact(cfg, world(t), r);
    ToOriginMisses(cfg, world, r, t);
    AfterSnoc(cfg, world, ToOrigin(r, t), OriginAnswer(t, r));
    OnlyOne(map[], map[], Missed(r), Missed(r));
    var promised := Direct(cfg, world(t), r);
    if promised.Some? {
      var body := promised.value;
      ColdFetch(cfg, world(t), r, body, t);
      AfterSnoc(cfg, world, ToOrigin(r, t) + [OriginAnswer(t, r)], RedisWrite(t, Fetched(r, body, t), ttlSeconds));
      if ttlSeconds > 0 { ColdStore(cfg, r, body, t, ttlSeconds); }
    }
  }

  // ------------------------------------------- the two tiers in time

  /** What a node holds that served one request at the instant t. */
  function Filled(cfg: Config, r: Request, body: Body, t: nat, ttlSeconds: nat): State {
    State(map[KeyOf(cfg, r) := MemEntry(body, t + cfg.memTtlSeconds * 1000)],
          map[KeyOf(cfg, r) := Packed(body, t, ttlSeconds)], multiset{})
  }

  lemma FilledAnswers(cfg: Config, r: Request, body: Body, t: nat, ttlSeconds: nat, now: nat)
    ensures var st := Filled(cfg, r, body, t, ttlSeconds);
            var asked := st.(pending := multiset{Asked(r)});
            (now <= t + cfg.memTtlSeconds * 1000 ==> AskStep(cfg, st, now, r) == (st, Served(body, true))) &&
            (now > t + cfg.memTtlSeconds * 1000 ==> AskStep(cfg, st, now, r) == (asked, Waiting)) &&
            ReadStep(cfg, asked, now, r).0 ==
              st.(pending := multiset{if now <= t + ttlSeconds * 1000 then Hit(r, body, now) else Missed(r)})
  {
    Base64.RoundTrip(body.data);
    var st := Filled(cfg, r, body, t, ttlSeconds);
    assert st.pending + multiset{Asked(r)} == multiset{Asked(r)};
    OnlyOne(st.memory, st.redis, Asked(r), Hit(r, body, now));
    OnlyOne(st.memory, st.redis, Asked(r), Missed(r));
  }

  /**
   A request that was served at t is answered from memory, as a hit, exactly while
   memory's time-to-live lasts.  After it it reads Redis, and exactly while Redis's
   lasts it is served the same body from there, as a hit, if the remaining time can be
   read; otherwise, and after that, it waits for the origin again.
   */
  lemma TiersAnswer(cfg: Config, world: World, r: Request, body: Body, t: nat, ttlSeconds: nat, now: nat)
    requires Promised(cfg, At(world(t), r), r.transforms) == Some(body) && ttlSeconds > 0
    ensures var es := WholeRequest(r, body, t, ttlSeconds);
            var read := es + [Ask(now, r)] + [RedisRead(now, r)];
            if now <= t + cfg.memTtlSeconds * 1000 then
              AnswerFrom(cfg, world, EMPTY, es, Ask(now, r)) == Served(body, true)
            else
              AnswerFrom(cfg, world, EMPTY, es, Ask(now, r)) == Waiting &&
              if now <= t + ttlSeconds * 1000 then
                After(cfg, world, read).pending == multiset{Hit(r, body, now)} &&
                AnswerFrom(cfg, world, EMPTY, read, TtlRead(now, Hit(r, body, now), true)) == Served(body, true) &&
                After(cfg, world, read + [TtlRead(now, Hit(r, body, now), false)]).pending == multiset{Missed(r)}
              else After(cfg, world, read).pending == multiset{Missed(r)}
  {
    DirectExact(cfg, world(t), r);
    WholeRequestFills(cfg, world, r, body, t, ttlSeconds);
    FilledAnswers(cfg, r, body, t, ttlSeconds, now);
    var es := WholeRequest(r, body, t, ttlSeconds);
    AfterSnoc(cfg, world, es, Ask(now, r));
    AfterSnoc(cfg, world, es + [Ask(now, r)], RedisRead(now, r));
    if t + cfg.memTtlSeconds * 1000 < now <= t + ttlSeconds * 1000 {
      var read := es + [Ask(now, r)] + [RedisRead(now, r)];
      AfterSnoc(cfg, world, read, TtlRead(now, Hit(r, body, now), false));
      OnlyOne(After(cfg, world, read).memory, After(cfg, world, read).redis, Hit(r, body, now), Missed(r));
    }
  }

  /** And what Redis gave is in memory again, for memory's time-to-live from then on. */
  lemma RedisFillsMemory(cfg: Config, world: World, r: Request, body: Body, t: nat, ttlSeconds: nat, now: nat,
                         later: nat)
    requires Promised(cfg, At(world(t), r), r.transforms) == Some(body) && ttlSeconds > 0
    requires t + cfg.memTtlSeconds * 1000 < now <= t + ttlSeconds * 1000 && now <= later
    ensures var read := WholeRequest(r, body, t, ttlSeconds) + [Ask(now, r)] + [RedisRead(now, r)];
            var again := AnswerFrom(cfg, world, EMPTY, read + [TtlRead(now, Hit(r, body, now), true)], Ask(later, r));
            if later <= now + cfg.memTtlSeconds * 1000 then again == Served(body, true) else again == Waiting
  {
    TiersAnswer(cfg, world, r, body, t, ttlSeconds, now);
    var read := WholeRequest(r, body, t, ttlSeconds) + [Ask(now, r)] + [RedisRead(now, r)];
    AfterSnoc(cfg, world, read, TtlRead(now, Hit(r, body, now), true));
    HitFills(cfg, After(cfg, world, read), now, Hit(r, body, now), later);
  }

  lemma HitFills(cfg: Config, st: State, now: nat, p: Pending, later: nat)
    requires p in st.pending && p.Hit?
    ensures AskStep(cfg, TtlStep(cfg, st, now, p, true).0, later, p.request).1 ==
              if later <= now + cfg.memTtlSeconds * 1000 then Served(p.body, true) else Waiting
  {
  }
}
