/**
 Multipart upload: sessions kept by upload id, over an ideal object store that
 holds the uploaded parts and, on completion, joins the parts it is told to.  A
 request is cut where the code awaits the object store or the database, and the
 pieces of different requests may come in any order.
 */
module Multipart {
  import opened Wrappers
  import opened PartMath
  import opened PartList

  datatype Session = Session(minioId: string, bucket: string, key: string, totalSize: int,
                             partCount: int, completedParts: Parts)

  // ---------------------------------------------------------------- the object store

  datatype StoredPart = StoredPart(data: Bytes, etag: string)

  type Upload = map<int, StoredPart>

  /** The store joins a list whose numbers ascend strictly and whose tags are those of the stored parts. */
  predicate Acceptable(upload: Upload, list: Parts) {
    list != [] &&
    (forall i | 0 <= i < |list| - 1 :: list[i].partNumber < list[i + 1].partNumber) &&
    forall i | 0 <= i < |list| :: Matches(upload, list[i])
  }

  predicate Matches(upload: Upload, p: CompletedPart) {
    p.partNumber in upload && upload[p.partNumber].etag == p.etag
  }

  function Joined(upload: Upload, list: Parts): Bytes
    requires forall i | 0 <= i < |list| :: Matches(upload, list[i])
  {
    if list == [] then [] else
      assert Matches(upload, list[|list| - 1]);
      Joined(upload, list[..|list| - 1]) + upload[list[|list| - 1].partNumber].data
  }

  // ---------------------------------------------------------------- requests

  datatype Record = Record(bucket: string, key: string, size: int)

  /** A part on its way to the object store. */
  datatype Send = Send(uploadId: string, number: Number, data: Bytes)

  /** A part the object store has, whose request has not yet come back. */
  datatype Put = Put(uploadId: string, part: CompletedPart)

  /** A completion on its way to the object store, with the list it sends. */
  datatype Assembly = Assembly(uploadId: string, list: Parts)

  /**
   `sessions` are the session objects, which a waiting request keeps even when
   their id has left the store; `live` are the ids in the store.  `dropping` are the
   aborts on their way to the object store, `completing` and `aborting` what it has
   done and has yet to be heard of.
   */
  datatype State = State(sessions: map<string, Session>, live: set<string>,
                         uploads: map<string, Upload>, objects: map<(string, string), Bytes>,
                         records: seq<Record>, sending: seq<Send>, putting: seq<Put>,
                         assembling: seq<Assembly>, completing: multiset<string>,
                         dropping: multiset<string>, aborting: multiset<string>)

  datatype Event =
    | Initiate(uploadId: string, minioId: string, bucket: string, key: string, totalSize: int)
    | PutPart(uploadId: string, number: Number, data: Bytes)
    | PutArrives(index: nat, etag: string, storeOk: bool)
    | PutDone(index: nat)
    | Complete(uploadId: string)
    | Assemble(index: nat, storeOk: bool)
    | CompleteDone(uploadId: string, dbOk: bool)
    | Abort(uploadId: string)
    | Drop(uploadId: string, storeOk: bool)
    | AbortDone(uploadId: string)
    | Status(uploadId: string)

  /** `Waiting` is no reply yet. */
  datatype Reply =
    | Initiated(partCount: int)
    | PartStored(uploadedBytes: nat)
    | Completed
    | Aborted
    | InProgress(completedParts: nat, totalParts: int)
    | NotFound
    | BadRequest
    | StoreError
    | DbError
    | Waiting

  /** `partNumber < 1 || partNumber > partCount`: both comparisons are false of NaN. */
  predicate OutOfRange(x: Number, partCount: int) { x.Num? && (x.n < 1 || x.n > partCount) }

  predicate Known(st: State, u: string) { u in st.live && u in st.sessions }

  function InitiateStep(st: State, e: Event): (State, Reply)
    requires e.Initiate?
  {
    var partCount := PartCount(e.totalSize);
    (st.(sessions := st.sessions[e.uploadId := Session(e.minioId, e.bucket, e.key, e.totalSize, partCount, [])],
         live := st.live + {e.uploadId},
         uploads := st.uploads[e.minioId := map[]]),
     Initiated(partCount))
  }

  /** `uploadPart` up to its call of the object store. */
  function PutStep(st: State, u: string, number: Number, data: Bytes): (State, Reply) {
    if !Known(st, u) then (st, NotFound)
    else if OutOfRange(number, st.sessions[u].partCount) then (st, BadRequest)
    else (st.(sending := st.sending + [Send(u, number, data)]), Waiting)
  }

  /** The part reaches the object store, which takes it or not. */
  function ArriveStep(st: State, i: nat, etag: string, storeOk: bool): (State, Reply) {
    if i >= |st.sending| || st.sending[i].uploadId !in st.sessions then (st, Waiting) else
      var x := st.sending[i];
      var m := st.sessions[x.uploadId].minioId;
      var left := st.(sending := Without(st.sending, i));
      if !storeOk || x.number.NaN? || m !in st.uploads then (left, StoreError)
      else
        (left.(uploads := st.uploads[m := st.uploads[m][x.number.n := StoredPart(x.data, etag)]],
               putting := st.putting + [Put(x.uploadId, CompletedPart(x.number.n, etag, |x.data|))]),
         Waiting)
  }

  /** The rest of `uploadPart`: the part is pushed and the session object is set in the store again. */
  function PutDoneStep(st: State, i: nat): (State, Reply) {
    if i >= |st.putting| || st.putting[i].uploadId !in st.sessions then (st, Waiting) else
      var p := st.putting[i];
      var s := st.sessions[p.uploadId];
      (st.(sessions := st.sessions[p.uploadId := s.(completedParts := s.completedParts + [p.part])],
           live := st.live + {p.uploadId},
           putting := Without(st.putting, i)),
       PartStored(p.part.size))
  }

  /** `completeUpload` up to its call of the object store; sorting happens in place and stays. */
  function CompleteStep(st: State, u: string): (State, Reply) {
    if !Known(st, u) then (st, NotFound) else
      var s := st.sessions[u];
      if |s.completedParts| != s.partCount then (st, BadRequest) else
        var list := Sort(s.completedParts);
        (st.(sessions := st.sessions[u := s.(completedParts := list)],
             assembling := st.assembling + [Assembly(u, list)]),
         Waiting)
  }

  /** The list reaches the object store, which joins the parts or refuses. */
  function AssembleStep(st: State, i: nat, storeOk: bool): (State, Reply) {
    if i >= |st.assembling| || st.assembling[i].uploadId !in st.sessions then (st, Waiting) else
      var a := st.assembling[i];
      var s := st.sessions[a.uploadId];
      var left := st.(assembling := Without(st.assembling, i));
      if !storeOk || s.minioId !in st.uploads || !Acceptable(st.uploads[s.minioId], a.list) then (left, StoreError)
      else
        (left.(objects := st.objects[(s.bucket, s.key) := Joined(st.uploads[s.minioId], a.list)],
               uploads := st.uploads - {s.minioId},
               completing := st.completing + multiset{a.uploadId}),
         Waiting)
  }

  /** The rest of `completeUpload`: the file record, and the end of the session. */
  function CompleteDoneStep(st: State, u: string, dbOk: bool): (State, Reply) {
    if u !in st.completing || u !in st.sessions then (st, Waiting) else
      var back := st.(completing := st.completing - multiset{u});
      if !dbOk then (back, DbError) else
        var s := st.sessions[u];
        (back.(records := st.records + [Record(s.bucket, s.key, s.totalSize)], live := st.live - {u}), Completed)
  }

  function AbortStep(st: State, u: string): (State, Reply) {
    if !Known(st, u) then (st, Aborted) else (st.(dropping := st.dropping + multiset{u}), Waiting)
  }

  /** The abort reaches the object store. */
  function DropStep(st: State, u: string, storeOk: bool): (State, Reply) {
    if u !in st.dropping || u !in st.sessions then (st, Waiting) else
      var m := st.sessions[u].minioId;
      var left := st.(dropping := st.dropping - multiset{u});
      if !storeOk || m !in st.uploads then (left, StoreError)
      else (left.(uploads := st.uploads - {m}, aborting := st.aborting + multiset{u}), Waiting)
  }

  function AbortDoneStep(st: State, u: string): (State, Reply) {
    if u !in st.aborting then (st, Waiting) else
      (st.(aborting := st.aborting - multiset{u}, live := st.live - {u}), Aborted)
  }

  function Step(st: State, e: Event): (State, Reply) {
    match e
    case Initiate(_, _, _, _, _) => InitiateStep(st, e)
    case PutPart(u, number, data) => PutStep(st, u, number, data)
    case PutArrives(i, etag, storeOk) => ArriveStep(st, i, etag, storeOk)
    case PutDone(i) => PutDoneStep(st, i)
    case Complete(u) => CompleteStep(st, u)
    case Assemble(i, storeOk) => AssembleStep(st, i, storeOk)
    case CompleteDone(u, dbOk) => CompleteDoneStep(st, u, dbOk)
    case Abort(u) => AbortStep(st, u)
    case Drop(u, storeOk) => DropStep(st, u, storeOk)
    case AbortDone(u) => AbortDoneStep(st, u)
    case Status(u) =>
      (st, if !Known(st, u) then NotFound
           else InProgress(|st.sessions[u].completedParts|, st.sessions[u].partCount))
  }

  // ---------------------------------------------------------------- runs

  const EMPTY := State(map[], {}, map[], map[], [], [], [], [], multiset{}, multiset{}, multiset{})

  function After(es: seq<Event>): State {
    if es == [] then EMPTY else Step(After(es[..|es| - 1]), es[|es| - 1]).0
  }

  function ReplyAt(es: seq<Event>, i: nat): Reply
    requires i < |es|
  {
    Step(After(es[..i]), es[i]).1
  }

  lemma AfterNext(es: seq<Event>, i: nat)
    requires i < |es|
    ensures After(es[..i + 1]) == Step(After(es[..i]), es[i]).0
  {
    assert es[..i + 1][..i] == es[..i];
  }

  lemma AfterSnoc(es: seq<Event>, e: Event)
    ensures After(es + [e]) == Step(After(es), e).0
  {
    assert (es + [e])[..|es|] == es;
  }

  /** Upload ids and the store's own ids are fresh. */
  predicate Fresh(e: Event, f: Event) {
    e.Initiate? && f.Initiate? ==> e.uploadId != f.uploadId && e.minioId != f.minioId
  }

  ghost predicate Valid(es: seq<Event>) {
    forall i, j {:trigger Fresh(es[i], es[j])} | 0 <= i < j < |es| :: Fresh(es[i], es[j])
  }

  predicate Opened(es: seq<Event>, i: nat, u: string, m: string) {
    i < |es| && es[i].Initiate? && es[i].uploadId == u && es[i].minioId == m
  }

  lemma StepSessions(st: State, e: Event, u: string)
    requires !(e.Initiate? && e.uploadId == u)
    ensures u in Step(st, e).0.sessions <==> u in st.sessions
    ensures u in st.sessions ==>
              Step(st, e).0.sessions[u] == st.sessions[u].(completedParts := Step(st, e).0.sessions[u].completedParts)
  {
  }

  /** Every session was opened by one event of the run. */
  lemma {:induction false} SessionOrigin(es: seq<Event>, u: string) returns (i: nat)
    requires u in After(es).sessions
    ensures Opened(es, i, u, After(es).sessions[u].minioId)
  {
    var n := |es| - 1;
    if es[n].Initiate? && es[n].uploadId == u {
      i := n;
    } else {
      StepSessions(After(es[..n]), es[n], u);
      i := SessionOrigin(es[..n], u);
    }
  }

  // ------------------------------------------- what every reachable state satisfies

  predicate SessionOk(s: Session) {
    s.partCount == PartCount(s.totalSize) && InRange(s.completedParts, s.partCount)
  }

  /** The parts of an upload the store has and whose requests have not come back. */
  function Pending(putting: seq<Put>, u: string): Parts {
    if putting == [] then [] else
      var p := putting[|putting| - 1];
      Pending(putting[..|putting| - 1], u) + if p.uploadId == u then [p.part] else []
  }

  /** The store has every part of the list, under its tag unless a number was sent twice. */
  predicate Backed(list: Parts, upload: Upload) {
    (forall i | 0 <= i < |list| :: list[i].partNumber in upload) &&
    (Distinct(list) ==> forall i | 0 <= i < |list| :: Matches(upload, list[i]))
  }

  function Sent(st: State, u: string): Parts
    requires u in st.sessions
  {
    st.sessions[u].completedParts + Pending(st.putting, u)
  }

  ghost predicate AllOk(sessions: map<string, Session>) {
    forall u | u in sessions :: SessionOk(sessions[u])
  }

  ghost predicate OwnIds(sessions: map<string, Session>) {
    forall u, v | u in sessions && v in sessions && u != v :: sessions[u].minioId != sessions[v].minioId
  }

  ghost predicate AllBacked(st: State) {
    forall u | u in st.sessions && st.sessions[u].minioId in st.uploads ::
      Backed(Sent(st, u), st.uploads[st.sessions[u].minioId])
  }

  ghost predicate PutsOk(st: State) {
    forall i | 0 <= i < |st.putting| :: PutOk(st, st.putting[i])
  }

  predicate PutOk(st: State, p: Put) {
    p.uploadId in st.sessions && 1 <= p.part.partNumber <= st.sessions[p.uploadId].partCount
  }

  /** Sessions, store and parts agree. */
  ghost predicate Sound(st: State) {
    AllOk(st.sessions) && OwnIds(st.sessions) && AllBacked(st) && PutsOk(st) &&
    st.live <= st.sessions.Keys
  }

  predicate SendOk(sessions: map<string, Session>, x: Send) {
    x.uploadId in sessions && !OutOfRange(x.number, sessions[x.uploadId].partCount)
  }

  predicate AssemblyOk(sessions: map<string, Session>, a: Assembly) {
    a.uploadId in sessions && |a.list| == sessions[a.uploadId].partCount &&
    InRange(a.list, sessions[a.uploadId].partCount) && Sorted(a.list)
  }

  /** The object store has nothing more of the session. */
  predicate Ended(st: State, u: string) { u in st.sessions && st.sessions[u].minioId !in st.uploads }

  /** Waiting requests are of known sessions, and those the store is done with have ended there. */
  ghost predicate WaitersOk(st: State) {
    (forall x | x in st.sending :: SendOk(st.sessions, x)) &&
    (forall a | a in st.assembling :: AssemblyOk(st.sessions, a)) &&
    (forall u | u in st.dropping :: u in st.sessions) &&
    (forall u | u in st.completing :: Ended(st, u)) &&
    (forall u | u in st.aborting :: Ended(st, u))
  }

  ghost predicate Consistent(st: State) { Sound(st) && WaitersOk(st) }

  /** No session uses the store's id yet, and the upload id is new. */
  ghost predicate Unused(st: State, e: Event)
    requires e.Initiate?
  {
    e.uploadId !in st.sessions && forall u | u in st.sessions :: st.sessions[u].minioId != e.minioId
  }

  lemma {:induction false} PendingConcat(a: seq<Put>, b: seq<Put>, u: string)
    ensures Pending(a + b, u) == Pending(a, u) + Pending(b, u)
    decreases |b|
  {
    if b == [] {
      assert a + b == a;
    } else {
      PendingConcat(a, b[..|b| - 1], u);
      assert (a + b)[..|a + b| - 1] == a + b[..|b| - 1];
    }
  }

  /** Only puts of known sessions are pending. */
  lemma {:induction false} PendingNone(putting: seq<Put>, u: string)
    requires forall i | 0 <= i < |putting| :: putting[i].uploadId != u
    ensures Pending(putting, u) == []
  {
    if putting != [] { PendingNone(putting[..|putting| - 1], u); }
  }

  lemma AppendBacked(list: Parts, upload: Upload, p: CompletedPart, data: Bytes)
    requires Backed(list, upload)
    ensures Backed(list + [p], upload[p.partNumber := StoredPart(data, p.etag)])
  {
    var more := list + [p];
    if Distinct(more) {
      assert forall i | 0 <= i < |list| :: more[i] == list[i];
      assert Distinct(list);
      assert forall i | 0 <= i < |list| :: more[i].partNumber != more[|list|].partNumber;
    }
  }

  lemma SameBacked(a: Parts, b: Parts, upload: Upload)
    requires SameParts(a, b) && Backed(a, upload)
    ensures Backed(b, upload)
  {
    SameDistinct(a, b);
    forall i | 0 <= i < |b|
      ensures b[i].partNumber in upload
      ensures Distinct(b) ==> Matches(upload, b[i])
    {
      assert b[i] in b;
      var k :| 0 <= k < |a| && a[k] == b[i];
    }
  }

  lemma InitiateSound(st: State, e: Event)
    requires Sound(st) && e.Initiate? && Unused(st, e)
    ensures Sound(InitiateStep(st, e).0)
  {
    var st' := InitiateStep(st, e).0;
    assert AllOk(st'.sessions);
    assert OwnIds(st'.sessions);
    forall i | 0 <= i < |st.putting| ensures st.putting[i].uploadId != e.uploadId && PutOk(st', st.putting[i]) {
      assert PutOk(st, st.putting[i]);
    }
    PendingNone(st.putting, e.uploadId);
    forall u | u in st'.sessions && st'.sessions[u].minioId in st'.uploads
      ensures Backed(Sent(st', u), st'.uploads[st'.sessions[u].minioId])
    {
      if u != e.uploadId { assert Backed(Sent(st, u), st.uploads[st.sessions[u].minioId]); }
    }
  }

  /** The store takes the part. */
  predicate Arrives(st: State, i: nat, storeOk: bool) {
    i < |st.sending| && st.sending[i].uploadId in st.sessions && storeOk && st.sending[i].number.Num? &&
    st.sessions[st.sending[i].uploadId].minioId in st.uploads
  }

  function ArrivedPart(x: Send, etag: string): CompletedPart
    requires x.number.Num?
  {
    CompletedPart(x.number.n, etag, |x.data|)
  }

  lemma ArriveSent(st: State, i: nat, etag: string, u: string)
    requires Arrives(st, i, true) && u in st.sessions
    ensures Sent(ArriveStep(st, i, etag, true).0, u) ==
              Sent(st, u) + if u == st.sending[i].uploadId then [ArrivedPart(st.sending[i], etag)] else []
  {
    assert ArriveStep(st, i, etag, true).0.putting[..|st.putting|] == st.putting;
  }

  lemma ArriveBacked(st: State, i: nat, etag: string, u: string)
    requires Sound(st) && Arrives(st, i, true)
    requires u in st.sessions && st.sessions[u].minioId in ArriveStep(st, i, etag, true).0.uploads
    ensures var st' := ArriveStep(st, i, etag, true).0; Backed(Sent(st', u), st'.uploads[st.sessions[u].minioId])
  {
    var m, x := st.sessions[u].minioId, st.sending[i];
    assert m in st.uploads && Backed(Sent(st, u), st.uploads[m]);
    ArriveSent(st, i, etag, u);
    if u == x.uploadId {
      AppendBacked(Sent(st, u), st.uploads[m], ArrivedPart(x, etag), x.data);
    } else {
      assert m != st.sessions[x.uploadId].minioId;
      assert Sent(st, u) + [] == Sent(st, u);
    }
  }

  lemma ArriveSound(st: State, i: nat, etag: string)
    requires Sound(st) && Arrives(st, i, true) && SendOk(st.sessions, st.sending[i])
    ensures Sound(ArriveStep(st, i, etag, true).0)
  {
    var st' := ArriveStep(st, i, etag, true).0;
    forall k | 0 <= k < |st'.putting| ensures PutOk(st', st'.putting[k]) {
      if k < |st.putting| { assert PutOk(st, st.putting[k]); }
    }
    forall u | u in st'.sessions && st'.sessions[u].minioId in st'.uploads
      ensures Backed(Sent(st', u), st'.uploads[st'.sessions[u].minioId])
    {
      ArriveBacked(st, i, etag, u);
    }
  }

  /** Session `u` gets the list instead of its own, in the store's eyes an equal one; the others are as before. */
  ghost predicate Relisted(st: State, u: string, list: Parts, st': State) {
    u in st.sessions &&
    st'.sessions == st.sessions[u := st.sessions[u].(completedParts := list)] && st'.uploads == st.uploads &&
    SameParts(Sent(st, u), list + Pending(st'.putting, u)) &&
    forall v | v in st.sessions && v != u :: Pending(st'.putting, v) == Pending(st.putting, v)
  }

  lemma RelistedBacked(st: State, u: string, list: Parts, st': State, v: string)
    requires AllBacked(st) && Relisted(st, u, list, st')
    requires v in st'.sessions && st'.sessions[v].minioId in st'.uploads
    ensures Backed(Sent(st', v), st'.uploads[st'.sessions[v].minioId])
  {
    assert Backed(Sent(st, v), st.uploads[st.sessions[v].minioId]);
    if v == u { SameBacked(Sent(st, u), Sent(st', u), st.uploads[st.sessions[u].minioId]); }
  }

  lemma ReorderSound(st: State, u: string, list: Parts, st': State)
    requires Sound(st) && Relisted(st, u, list, st')
    requires InRange(list, st.sessions[u].partCount) && st'.live <= st'.sessions.Keys && PutsOk(st')
    ensures Sound(st')
  {
    assert SessionOk(st.sessions[u]);
    assert AllOk(st'.sessions);
    assert OwnIds(st'.sessions);
    forall v | v in st'.sessions && st'.sessions[v].minioId in st'.uploads
      ensures Backed(Sent(st', v), st'.uploads[st'.sessions[v].minioId])
    {
      RelistedBacked(st, u, list, st', v);
    }
  }

  lemma PendingWithout(putting: seq<Put>, i: nat, v: string)
    requires i < |putting|
    ensures var a, b, p := putting[..i], putting[i + 1..], putting[i];
            Pending(Without(putting, i), v) == Pending(a, v) + Pending(b, v) &&
            Pending(putting, v) == Pending(a, v) + (if p.uploadId == v then [p.part] else []) + Pending(b, v)
  {
    var a, b, p := putting[..i], putting[i + 1..], putting[i];
    PendingConcat(a, b, v);
    PendingConcat(a + [p], b, v);
    PendingConcat(a, [p], v);
    assert [p][..0] == [];
    Around(putting, i);
  }

  lemma PutDoneSound(st: State, i: nat)
    requires Sound(st)
    ensures Sound(PutDoneStep(st, i).0)
  {
    if i < |st.putting| {
      var p, st' := st.putting[i], PutDoneStep(st, i).0;
      assert PutOk(st, p);
      var u, s := p.uploadId, st.sessions[p.uploadId];
      assert SessionOk(s);
      forall k | 0 <= k < |st'.putting| ensures PutOk(st', st'.putting[k]) {
        assert st'.putting[k] in st.putting;
        var q :| 0 <= q < |st.putting| && st.putting[q] == st'.putting[k];
        assert PutOk(st, st.putting[q]);
      }
      forall v | v in st.sessions && v != u ensures Pending(st'.putting, v) == Pending(st.putting, v) {
        PendingWithout(st.putting, i, v);
        assert Pending(st.putting[..i], v) + [] == Pending(st.putting[..i], v);
      }
      PendingWithout(st.putting, i, u);
      MoveIsSame(s.completedParts, Pending(st.putting[..i], u), p.part, Pending(st.putting[i + 1..], u));
      ReorderSound(st, u, s.completedParts + [p.part], st');
    }
  }

  /** Dropping uploads from the store and ids from the live ones leaves the rest as it was. */
  lemma DropSound(st: State, st': State)
    requires Sound(st) && st'.sessions == st.sessions && st'.putting == st.putting && st'.live <= st.live
    requires forall m | m in st'.uploads :: m in st.uploads && st'.uploads[m] == st.uploads[m]
    ensures Sound(st')
  {
    forall u | u in st'.sessions && st'.sessions[u].minioId in st'.uploads
      ensures Backed(Sent(st', u), st'.uploads[st'.sessions[u].minioId])
    {
      assert Backed(Sent(st, u), st.uploads[st.sessions[u].minioId]);
    }
    forall i | 0 <= i < |st'.putting| ensures PutOk(st', st'.putting[i]) { assert PutOk(st, st.putting[i]); }
  }

  lemma CompleteSound(st: State, u: string)
    requires Sound(st)
    ensures Sound(CompleteStep(st, u).0)
  {
    if Known(st, u) && |st.sessions[u].completedParts| == st.sessions[u].partCount {
      var s, st' := st.sessions[u], CompleteStep(st, u).0;
      var list := Sort(s.completedParts);
      assert SessionOk(s);
      SortKeepsRange(s.completedParts, s.partCount);
      SortIsSame(s.completedParts);
      SameWithRest(s.completedParts, list, Pending(st.putting, u));
      forall i | 0 <= i < |st.putting| ensures PutOk(st', st'.putting[i]) { assert PutOk(st, st.putting[i]); }
      ReorderSound(st, u, list, st');
    }
  }

  lemma PutSound(st: State, u: string, number: Number, data: Bytes)
    requires Sound(st)
    ensures Sound(PutStep(st, u, number, data).0)
  {
    DropSound(st, PutStep(st, u, number, data).0);
  }

  lemma ArriveStepSound(st: State, i: nat, etag: string, storeOk: bool)
    requires Consistent(st)
    ensures Sound(ArriveStep(st, i, etag, storeOk).0)
  {
    if Arrives(st, i, storeOk) {
      assert st.sending[i] in st.sending;
      ArriveSound(st, i, etag);
    } else {
      DropSound(st, ArriveStep(st, i, etag, storeOk).0);
    }
  }

  lemma AssembleSound(st: State, i: nat, storeOk: bool)
    requires Sound(st)
    ensures Sound(AssembleStep(st, i, storeOk).0)
  {
    DropSound(st, AssembleStep(st, i, storeOk).0);
  }

  lemma CompleteDoneSound(st: State, u: string, dbOk: bool)
    requires Sound(st)
    ensures Sound(CompleteDoneStep(st, u, dbOk).0)
  {
    DropSound(st, CompleteDoneStep(st, u, dbOk).0);
  }

  lemma AbortSound(st: State, u: string)
    requires Sound(st)
    ensures Sound(AbortStep(st, u).0) && Sound(AbortDoneStep(st, u).0)
  {
    DropSound(st, AbortStep(st, u).0);
    DropSound(st, AbortDoneStep(st, u).0);
  }

  lemma DropStepSound(st: State, u: string, storeOk: bool)
    requires Sound(st)
    ensures Sound(DropStep(st, u, storeOk).0)
  {
    DropSound(st, DropStep(st, u, storeOk).0);
  }

  lemma StepSound(st: State, e: Event)
    requires Consistent(st) && (e.Initiate? ==> Unused(st, e))
    ensures Sound(Step(st, e).0)
  {
    match e
    case Initiate(_, _, _, _, _) => InitiateSound(st, e);
    case PutPart(u, number, data) => PutSound(st, u, number, data);
    case PutArrives(i, etag, storeOk) => ArriveStepSound(st, i, etag, storeOk);
    case PutDone(i) => PutDoneSound(st, i);
    case Complete(u) => CompleteSound(st, u);
    case Assemble(i, storeOk) => AssembleSound(st, i, storeOk);
    case CompleteDone(u, dbOk) => CompleteDoneSound(st, u, dbOk);
    case Abort(u) => AbortSound(st, u);
    case Drop(u, storeOk) => DropStepSound(st, u, storeOk);
    case AbortDone(u) => AbortSound(st, u);
    case Status(_) =>
  }

  /** Sessions keep their part counts and store ids. */
  predicate SameShape(a: map<string, Session>, b: map<string, Session>) {
    forall u | u in a :: u in b && b[u].partCount == a[u].partCount && b[u].minioId == a[u].minioId
  }

  predicate NoSessionsId(sessions: map<string, Session>, m: string) {
    forall u | u in sessions :: sessions[u].minioId != m
  }

  /** What waits after the step waited before, or is as it should be. */
  ghost predicate Follows(st: State, st': State) {
    SameShape(st.sessions, st'.sessions) &&
    (forall m | m in st'.uploads :: m in st.uploads || NoSessionsId(st.sessions, m)) &&
    (forall x | x in st'.sending :: x in st.sending || SendOk(st'.sessions, x)) &&
    (forall a | a in st'.assembling :: a in st.assembling || AssemblyOk(st'.sessions, a)) &&
    (forall u | u in st'.dropping :: u in st.dropping || u in st'.sessions) &&
    (forall u | u in st'.completing :: u in st.completing || Ended(st', u)) &&
    forall u | u in st'.aborting :: u in st.aborting || Ended(st', u)
  }

  lemma FollowsWaiters(st: State, st': State)
    requires WaitersOk(st) && Follows(st, st')
    ensures WaitersOk(st')
  {
    forall x | x in st'.sending ensures SendOk(st'.sessions, x) { assert x in st.sending ==> SendOk(st.sessions, x); }
    forall a | a in st'.assembling ensures AssemblyOk(st'.sessions, a) {
      assert a in st.assembling ==> AssemblyOk(st.sessions, a);
    }
    forall u | u in st'.completing ensures Ended(st', u) { assert u in st.completing ==> Ended(st, u); }
    forall u | u in st'.aborting ensures Ended(st', u) { assert u in st.aborting ==> Ended(st, u); }
  }

  lemma InitiateFollows(st: State, e: Event)
    requires e.Initiate? && Unused(st, e)
    ensures Follows(st, InitiateStep(st, e).0)
  {
  }

  lemma PutFollows(st: State, u: string, number: Number, data: Bytes)
    ensures Follows(st, PutStep(st, u, number, data).0)
  {
  }

  lemma ArriveFollows(st: State, i: nat, etag: string, storeOk: bool)
    ensures Follows(st, ArriveStep(st, i, etag, storeOk).0)
  {
    if i < |st.sending| { WithoutIsPart(st.sending, i); }
  }

  lemma PutDoneFollows(st: State, i: nat)
    ensures Follows(st, PutDoneStep(st, i).0)
  {
  }

  lemma CompleteFollows(st: State, u: string)
    requires Sound(st)
    ensures Follows(st, CompleteStep(st, u).0)
  {
    if Known(st, u) && |st.sessions[u].completedParts| == st.sessions[u].partCount {
      var s := st.sessions[u];
      assert SessionOk(s);
      SortKeepsRange(s.completedParts, s.partCount);
      SortSorts(s.completedParts);
      assert AssemblyOk(CompleteStep(st, u).0.sessions, Assembly(u, Sort(s.completedParts)));
    }
  }

  lemma AssembleFollows(st: State, i: nat, storeOk: bool)
    ensures Follows(st, AssembleStep(st, i, storeOk).0)
  {
    if i < |st.assembling| { WithoutIsPart(st.assembling, i); }
  }

  lemma CompleteDoneFollows(st: State, u: string, dbOk: bool)
    ensures Follows(st, CompleteDoneStep(st, u, dbOk).0)
  {
  }

  lemma AbortFollows(st: State, u: string)
    ensures Follows(st, AbortStep(st, u).0)
  {
  }

  lemma DropFollows(st: State, u: string, storeOk: bool)
    ensures Follows(st, DropStep(st, u, storeOk).0)
  {
  }

  lemma AbortDoneFollows(st: State, u: string)
    ensures Follows(st, AbortDoneStep(st, u).0)
  {
  }

  predicate OfParts(e: Event) { e.Initiate? || e.PutPart? || e.PutArrives? || e.PutDone? }

  lemma PartStepFollows(st: State, e: Event)
    requires OfParts(e) && (e.Initiate? ==> Unused(st, e))
    ensures Follows(st, Step(st, e).0)
  {
    match e
    case Initiate(_, _, _, _, _) => InitiateFollows(st, e);
    case PutPart(u, number, data) => PutFollows(st, u, number, data);
    case PutArrives(i, etag, storeOk) => ArriveFollows(st, i, etag, storeOk);
    case PutDone(i) => PutDoneFollows(st, i);
  }

  lemma EndStepFollows(st: State, e: Event)
    requires Sound(st) && !OfParts(e)
    ensures Follows(st, Step(st, e).0)
  {
    match e
    case Complete(u) => CompleteFollows(st, u);
    case Assemble(i, storeOk) => AssembleFollows(st, i, storeOk);
    case CompleteDone(u, dbOk) => CompleteDoneFollows(st, u, dbOk);
    case Abort(u) => AbortFollows(st, u);
    case Drop(u, storeOk) => DropFollows(st, u, storeOk);
    case AbortDone(u) => AbortDoneFollows(st, u);
    case Status(_) =>
  }

  lemma StepConsistent(st: State, e: Event)
    requires Consistent(st) && (e.Initiate? ==> Unused(st, e))
    ensures Consistent(Step(st, e).0)
  {
    StepSound(st, e);
    if OfParts(e) { PartStepFollows(st, e); } else { EndStepFollows(st, e); }
    FollowsWaiters(st, Step(st, e).0);
  }

  lemma StillUnused(es: seq<Event>, e: Event)
    requires Valid(es + [e]) && e.Initiate?
    ensures Unused(After(es), e)
  {
    var all, st := es + [e], After(es);
    forall u | u in st.sessions ensures u != e.uploadId && st.sessions[u].minioId != e.minioId {
      var i := SessionOrigin(es, u);
      assert Fresh(all[i], all[|es|]);
    }
  }

  lemma ValidPrefix(es: seq<Event>, e: Event)
    requires Valid(es + [e])
    ensures Valid(es)
  {
    var all := es + [e];
    forall i, j | 0 <= i < j < |es| ensures Fresh(es[i], es[j]) { assert Fresh(all[i], all[j]); }
  }

  /** In every reachable state part numbers are in range, the store backs the sessions, and requests wait in order. */
  lemma {:induction false} AlwaysConsistent(es: seq<Event>)
    requires Valid(es)
    ensures Consistent(After(es))
  {
    if es != [] {
      var p, e := es[..|es| - 1], es[|es| - 1];
      assert p + [e] == es;
      ValidPrefix(p, e);
      AlwaysConsistent(p);
      if e.Initiate? { StillUnused(p, e); }
      StepConsistent(After(p), e);
    }
  }

  // ------------------------------------------- the round trip

  /** Every part sent for the upload carries that part's bytes of the file. */
  ghost predicate Carries(es: seq<Event>, u: string, file: Bytes)
    requires file != []
  {
    forall i | 0 <= i < |es| :: CarriesOne(es[i], u, file)
  }

  predicate CarriesOne(e: Event, u: string, file: Bytes)
    requires file != []
  {
    e.PutPart? && e.uploadId == u && e.number.Num? && 1 <= e.number.n <= PartCount(|file|) ==>
      e.data == Cut(file, e.number.n)
  }

  predicate Holds(upload: Upload, file: Bytes)
    requires file != []
  {
    forall n | n in upload :: 1 <= n <= PartCount(|file|) && upload[n].data == Cut(file, n)
  }

  /** If the session is for a file of this size, the store has nothing but cuts of the file for it. */
  predicate HoldsFor(st: State, u: string, file: Bytes)
    requires file != []
  {
    u in st.sessions && st.sessions[u].minioId in st.uploads && st.sessions[u].totalSize == |file| ==>
      Holds(st.uploads[st.sessions[u].minioId], file)
  }

  /** The parts of the upload on their way to the store carry that part's bytes of the file. */
  predicate SendsCarry(sending: seq<Send>, u: string, file: Bytes)
    requires file != []
  {
    forall x | x in sending :: CarriesOne(PutPart(x.uploadId, x.number, x.data), u, file)
  }

  predicate FileOnly(st: State, u: string, file: Bytes)
    requires file != []
  {
    HoldsFor(st, u, file) && SendsCarry(st.sending, u, file)
  }

  lemma HoldsMore(upload: Upload, n: int, part: StoredPart, file: Bytes)
    requires file != [] && Holds(upload, file) && 1 <= n <= PartCount(|file|) && part.data == Cut(file, n)
    ensures Holds(upload[n := part], file)
  {
  }

  lemma ArriveHolds(st: State, i: nat, etag: string, u: string, file: Bytes)
    requires Consistent(st) && file != [] && FileOnly(st, u, file) && Arrives(st, i, true)
    ensures HoldsFor(ArriveStep(st, i, etag, true).0, u, file)
  {
    var x := st.sending[i];
    assert x in st.sending;
    assert SendOk(st.sessions, x) && SessionOk(st.sessions[x.uploadId]);
    if x.uploadId == u {
      assert CarriesOne(PutPart(x.uploadId, x.number, x.data), u, file);
      if HoldsFor(st, u, file) && st.sessions[u].totalSize == |file| {
        HoldsMore(st.uploads[st.sessions[u].minioId], x.number.n, StoredPart(x.data, etag), file);
      }
    } else if u in st.sessions {
      assert st.sessions[x.uploadId].minioId != st.sessions[u].minioId;
    }
  }

  lemma StepHolds(st: State, e: Event, u: string, file: Bytes)
    requires Consistent(st) && file != [] && FileOnly(st, u, file)
    requires e.Initiate? ==> Unused(st, e)
    ensures HoldsFor(Step(st, e).0, u, file)
  {
    if e.PutArrives? && Arrives(st, e.index, e.storeOk) {
      ArriveHolds(st, e.index, e.etag, u, file);
    } else if !(e.Initiate? && e.uploadId == u) {
      StepSessions(st, e, u);
    }
  }

  lemma StepSends(st: State, e: Event, u: string, file: Bytes)
    requires file != [] && SendsCarry(st.sending, u, file) && CarriesOne(e, u, file)
    ensures SendsCarry(Step(st, e).0.sending, u, file)
  {
    if e.PutArrives? && e.index < |st.sending| { WithoutIsPart(st.sending, e.index); }
  }

  lemma {:induction false} StoreHolds(es: seq<Event>, u: string, file: Bytes)
    requires Valid(es) && file != [] && Carries(es, u, file)
    ensures FileOnly(After(es), u, file)
  {
    if es != [] {
      var p, e := es[..|es| - 1], es[|es| - 1];
      assert p + [e] == es;
      ValidPrefix(p, e);
      AlwaysConsistent(p);
      assert Carries(p, u, file);
      StoreHolds(p, u, file);
      if e.Initiate? { StillUnused(p, e); }
      assert CarriesOne(e, u, file);
      StepHolds(After(p), e, u, file);
      StepSends(After(p), e, u, file);
    }
  }

  lemma {:induction false} JoinedIsGlue(upload: Upload, list: Parts, file: Bytes, n: nat)
    requires file != [] && n <= PartCount(|file|) && |list| == n
    requires forall i | 0 <= i < n :: Matches(upload, list[i])
    requires OneTo(list, n) && Holds(upload, file)
    ensures Joined(upload, list) == Glue(file, n)
  {
    if n > 0 {
      assert Matches(upload, list[n - 1]);
      JoinedIsGlue(upload, list[..n - 1], file, n - 1);
    }
  }

  /** A whole list that the store accepts is joined to the file. */
  lemma AcceptedIsFile(list: Parts, upload: Upload, file: Bytes)
    requires file != [] && |list| == PartCount(|file|) && InRange(list, PartCount(|file|)) && Sorted(list)
    requires Holds(upload, file) && Acceptable(upload, list)
    ensures OneTo(list, |list|) && Joined(upload, list) == file
  {
    if !Distinct(list) { AscendingIsDistinct(upload, list); }
    AscendingIsOneTo(list, |list|);
    JoinedIsGlue(upload, list, file, |list|);
    GlueAll(file);
  }

  /** A sorted list the store backs is accepted exactly if no number repeats. */
  lemma BackedIsAccepted(list: Parts, upload: Upload)
    requires list != [] && Sorted(list) && Backed(list, upload)
    ensures Acceptable(upload, list) <==> Distinct(list)
  {
    if !Distinct(list) { AscendingIsDistinct(upload, list); }
  }

  lemma AscendingIsDistinct(upload: Upload, list: Parts)
    requires Sorted(list) && !Distinct(list)
    ensures !Acceptable(upload, list)
  {
    var i, j :| 0 <= i < j < |list| && list[i].partNumber == list[j].partNumber;
    assert list[i].partNumber <= list[i + 1].partNumber;
    assert i + 1 < j ==> list[i + 1].partNumber <= list[j].partNumber;
  }

  /** The session asked for a file of this size, lists as many parts as it asked for, and waits for none. */
  predicate Ready(st: State, u: string, file: Bytes) {
    Known(st, u) && st.sessions[u].totalSize == |file| && st.sessions[u].minioId in st.uploads &&
    |st.sessions[u].completedParts| == st.sessions[u].partCount && Pending(st.putting, u) == []
  }

  /**
   Whatever came in between, if the object store accepts a completion of a session
   for a file of this size, it joins exactly that file, from the list 1, 2, .. partCount.
   */
  lemma AssembledIsFile(es: seq<Event>, i: nat, file: Bytes)
    requires Valid(es) && file != [] && i < |After(es).assembling|
    requires Carries(es, After(es).assembling[i].uploadId, file)
    requires var a := After(es).assembling[i];
             a.uploadId in After(es).sessions ==> After(es).sessions[a.uploadId].totalSize == |file|
    requires Step(After(es), Assemble(i, true)).1 == Waiting
    ensures var st, a := After(es), After(es).assembling[i];
            a.uploadId in st.sessions && OneTo(a.list, PartCount(|file|)) &&
            var s := st.sessions[a.uploadId];
            Step(st, Assemble(i, true)).0.objects == st.objects[(s.bucket, s.key) := file]
  {
    var st, a := After(es), After(es).assembling[i];
    AlwaysConsistent(es);
    StoreHolds(es, a.uploadId, file);
    assert a in st.assembling;
    var s := st.sessions[a.uploadId];
    assert SessionOk(s);
    AcceptedIsFile(a.list, st.uploads[s.minioId], file);
  }

  /** A part of the session reaches the store. */
  predicate Reaches(st: State, e: Event, u: string) {
    e.PutArrives? && Arrives(st, e.index, e.storeOk) && st.sending[e.index].uploadId == u
  }

  /** The store has less uploads, and those it has are as they were. */
  predicate Shrinks(a: map<string, Upload>, b: map<string, Upload>) {
    forall m | m in b :: m in a && b[m] == a[m]
  }

  lemma AssembleShrinks(st: State, i: nat, storeOk: bool)
    ensures Shrinks(st.uploads, AssembleStep(st, i, storeOk).0.uploads)
  {
  }

  lemma DropShrinks(st: State, u: string, storeOk: bool)
    ensures Shrinks(st.uploads, DropStep(st, u, storeOk).0.uploads)
  {
  }

  lemma OthersShrink(st: State, e: Event)
    requires !e.Initiate? && !e.PutArrives? && !e.Assemble? && !e.Drop?
    ensures Step(st, e).0.uploads == st.uploads
  {
  }

  lemma ArriveUploads(st: State, i: nat, etag: string, storeOk: bool, m: string)
    requires m in ArriveStep(st, i, etag, storeOk).0.uploads
    ensures m in st.uploads
    ensures ArriveStep(st, i, etag, storeOk).0.uploads[m] == st.uploads[m] ||
            (Arrives(st, i, storeOk) && st.sessions[st.sending[i].uploadId].minioId == m)
  {
  }

  /** No step puts an upload back, and only an arriving part changes one. */
  lemma StepUploads(st: State, e: Event, m: string)
    requires m in Step(st, e).0.uploads && !(e.Initiate? && e.minioId == m)
    ensures m in st.uploads
    ensures Step(st, e).0.uploads[m] == st.uploads[m] ||
            (e.PutArrives? && Arrives(st, e.index, e.storeOk) && st.sessions[st.sending[e.index].uploadId].minioId == m)
  {
    match e
    case Initiate(_, _, _, _, _) =>
    case PutArrives(i, etag, storeOk) => ArriveUploads(st, i, etag, storeOk, m);
    case Assemble(i, storeOk) => AssembleShrinks(st, i, storeOk);
    case Drop(u, storeOk) => DropShrinks(st, u, storeOk);
    case _ => OthersShrink(st, e);
  }

  /** The session keeps its upload as it was, unless the store has dropped it. */
  predicate UploadKept(st: State, st': State, u: string) {
    u in st.sessions && u in st'.sessions && st'.sessions[u].minioId == st.sessions[u].minioId &&
    var m := st.sessions[u].minioId;
    m in st'.uploads ==> m in st.uploads && st'.uploads[m] == st.uploads[m]
  }

  lemma KeptTwice(a: State, b: State, c: State, u: string)
    requires UploadKept(a, b, u) && UploadKept(b, c, u)
    ensures UploadKept(a, c, u)
  {
  }

  /** A step with no part of the session reaching the store keeps its upload. */
  lemma StepUpload(st: State, e: Event, u: string)
    requires Sound(st) && u in st.sessions && !Reaches(st, e, u) && (e.Initiate? ==> Unused(st, e))
    ensures UploadKept(st, Step(st, e).0, u)
  {
    StepSessions(st, e, u);
    var m := st.sessions[u].minioId;
    if m in Step(st, e).0.uploads { StepUploads(st, e, m); }
  }

  /** From event n of the run on no part of the session reaches the store. */
  predicate NoneReaches(es: seq<Event>, n: nat, u: string) {
    |es| <= n ||
    (NoneReaches(es[..|es| - 1], n, u) && !Reaches(After(es[..|es| - 1]), es[|es| - 1], u))
  }

  lemma {:induction false} UploadStays(es: seq<Event>, n: nat, st: State, u: string)
    requires Valid(es) && n <= |es| && st == After(es[..n]) && u in st.sessions && NoneReaches(es, n, u)
    ensures UploadKept(st, After(es), u)
  {
    if n == |es| {
      assert es[..n] == es;
    } else {
      var k := |es| - 1;
      var p, e := es[..k], es[k];
      assert p[..n] == es[..n] && p + [e] == es;
      ValidPrefix(p, e);
      UploadStays(p, n, st, u);
      AlwaysConsistent(p);
      if e.Initiate? { StillUnused(p, e); }
      StepUpload(After(p), e, u);
      KeptTwice(st, After(p), Step(After(p), e).0, u);
    }
  }

  /** The completion of the session, with the list it had at run es, is on its way as assembly i. */
  predicate OnItsWay(es: seq<Event>, all: seq<Event>, u: string, i: nat) {
    u in After(es).sessions && i < |After(all).assembling| &&
    After(all).assembling[i] == Assembly(u, Sort(After(es).sessions[u].completedParts))
  }

  /**
   A completion called for with as many parts as the session asks for and none on
   the way back, however long it is on its way, as long as no part of the session
   reaches the store meanwhile and the upload is still there: it joins exactly the
   file if no number was sent twice, and is refused, leaving every object alone, if
   one was.
   */
  lemma CompletionExact(es: seq<Event>, mid: seq<Event>, u: string, file: Bytes, i: nat)
    requires var all := es + [Complete(u)] + mid;
             Valid(all) && file != [] && Carries(all, u, file) && Ready(After(es), u, file) &&
             NoneReaches(all, |es|, u) && OnItsWay(es, all, u, i) &&
             After(es).sessions[u].minioId in After(all).uploads
    ensures var st, s := After(es + [Complete(u)] + mid), After(es).sessions[u];
            var (st', reply) := Step(st, Assemble(i, true));
            if Distinct(s.completedParts) then
              reply == Waiting && st'.objects == st.objects[(s.bucket, s.key) := file]
            else
              reply == StoreError && st'.objects == st.objects
  {
    var all, s := es + [Complete(u)] + mid, After(es).sessions[u];
    var upload, list := After(es).uploads[s.minioId], Sort(s.completedParts);
    assert all[..|es|] == es;
    PrefixValid(all, |es|);
    AlwaysConsistent(es);
    UploadStays(all, |es|, After(es), u);
    SessionKeeps(all, |es|, u);
    ReadyIsBacked(After(es), u, file);
    BackedIsAccepted(list, upload);
    SortKeepsDistinct(s.completedParts);
    StoreDecides(After(all), i);
    if Distinct(s.completedParts) { AssembledIsFile(all, i, file); }
  }

  lemma StoreDecides(st: State, i: nat)
    requires i < |st.assembling| && st.assembling[i].uploadId in st.sessions
    requires st.sessions[st.assembling[i].uploadId].minioId in st.uploads
    ensures var (st', reply), a := Step(st, Assemble(i, true)), st.assembling[i];
            if Acceptable(st.uploads[st.sessions[a.uploadId].minioId], a.list) then reply == Waiting
            else reply == StoreError && st'.objects == st.objects
  {
  }

  lemma SortedIsBacked(parts: Parts, upload: Upload)
    requires Backed(parts, upload)
    ensures |Sort(parts)| == |parts| && Sorted(Sort(parts)) && Backed(Sort(parts), upload)
  {
    SortSorts(parts);
    SortIsSame(parts);
    SameBacked(parts, Sort(parts), upload);
  }

  lemma ReadyIsBacked(st: State, u: string, file: Bytes)
    requires Sound(st) && file != [] && Ready(st, u, file)
    ensures var s, list := st.sessions[u], Sort(st.sessions[u].completedParts);
            list != [] && Sorted(list) && Backed(list, st.uploads[s.minioId])
  {
    var s := st.sessions[u];
    assert SessionOk(s);
    assert Sent(st, u) == s.completedParts;
    SortedIsBacked(s.completedParts, st.uploads[s.minioId]);
  }

  /** A session keeps what it was opened with. */
  lemma {:induction false} SessionKeeps(es: seq<Event>, n: nat, u: string)
    requires Valid(es) && n <= |es| && u in After(es[..n]).sessions
    ensures u in After(es).sessions
    ensures After(es).sessions[u] == After(es[..n]).sessions[u].(completedParts := After(es).sessions[u].completedParts)
  {
    if n == |es| {
      assert es[..n] == es;
    } else {
      var k := |es| - 1;
      var p, e := es[..k], es[k];
      assert p[..n] == es[..n] && p + [e] == es;
      ValidPrefix(p, e);
      SessionKeeps(p, n, u);
      if e.Initiate? { StillUnused(p, e); }
      StepSessions(After(p), e, u);
    }
  }

  /** A part sent again under another tag, reaching the store before the list does, makes the store refuse the list. */
  lemma ResentPartRefuses(st: State, i: nat, j: nat, k: nat, etag: string)
    requires i < |st.assembling| && Arrives(st, j, true)
    requires st.sending[j].uploadId == st.assembling[i].uploadId && k < |st.assembling[i].list|
    requires st.sending[j].number == Num(st.assembling[i].list[k].partNumber) && st.assembling[i].list[k].etag != etag
    ensures Step(Step(st, PutArrives(j, etag, true)).0, Assemble(i, true)).1 == StoreError
  {
    var st', a := Step(st, PutArrives(j, etag, true)).0, st.assembling[i];
    assert !Matches(st'.uploads[st'.sessions[a.uploadId].minioId], a.list[k]);
  }

  /**
   One client sending parts in the order given, each request coming back before the
   next; `sending` and `putting` others wait before and after the store.
   */
  function Puts(u: string, order: seq<int>, datas: seq<Bytes>, etags: seq<string>, sending: nat, putting: nat)
    : seq<Event>
    requires |etags| == |datas| == |order|
  {
    if order == [] then [] else
      var n := |order| - 1;
      Puts(u, order[..n], datas[..n], etags[..n], sending, putting) +
      OnePut(u, order[n], datas[n], etags[n], sending, putting)
  }

  function OnePut(u: string, number: int, data: Bytes, etag: string, sending: nat, putting: nat): seq<Event> {
    [PutPart(u, Num(number), data)] + [PutArrives(sending, etag, true)] + [PutDone(putting)]
  }

  /** After the parts in `order` went out, the session lists them in that order and nothing else moved. */
  ghost predicate Listed(st: State, st': State, u: string, order: seq<int>) {
    Known(st, u) && Known(st', u) && st'.objects == st.objects &&
    st'.sending == st.sending && st'.putting == st.putting && st'.assembling == st.assembling &&
    st'.sessions[u] == st.sessions[u].(completedParts := st'.sessions[u].completedParts) &&
    st'.sessions[u].minioId in st'.uploads &&
    Numbers(st'.sessions[u].completedParts) == order
  }

  lemma PutListed(st: State, st': State, u: string, order: seq<int>, n: int, data: Bytes, etag: string)
    requires Listed(st, st', u, order) && 1 <= n <= st.sessions[u].partCount
    ensures var sent := PutStep(st', u, Num(n), data).0;
            Listed(st, PutDoneStep(ArriveStep(sent, |st.sending|, etag, true).0, |st.putting|).0, u, order + [n])
  {
    var p, sent := CompletedPart(n, etag, |data|), PutStep(st', u, Num(n), data).0;
    var there := ArriveStep(sent, |st.sending|, etag, true).0;
    assert sent.sending == st.sending + [Send(u, Num(n), data)];
    assert Without(sent.sending, |st.sending|) == st.sending;
    assert there.putting == st.putting + [Put(u, p)];
    assert Without(there.putting, |st.putting|) == st.putting;
    NumbersConcat(st'.sessions[u].completedParts, [p]);
    assert Numbers([p]) == [n];
  }

  lemma ThreeMore(es: seq<Event>, sent: seq<Event>, a: Event, b: Event, c: Event)
    ensures After(es + (sent + ([a] + [b] + [c]))) == Step(Step(Step(After(es + sent), a).0, b).0, c).0
  {
    AfterSnoc(es + sent, a);
    AfterSnoc(es + sent + [a], b);
    AfterSnoc(es + sent + [a] + [b], c);
    ThreeAtEnd(es, sent, a, b, c);
  }

  lemma ThreeAtEnd(es: seq<Event>, sent: seq<Event>, a: Event, b: Event, c: Event)
    ensures es + (sent + ([a] + [b] + [c])) == es + sent + [a] + [b] + [c]
  {
  }

  lemma ListedNext(es: seq<Event>, st: State, sent: seq<Event>, u: string, order: seq<int>, n: int, data: Bytes,
                   etag: string)
    requires Listed(st, After(es + sent), u, order) && 1 <= n <= st.sessions[u].partCount
    ensures Listed(st, After(es + (sent + OnePut(u, n, data, etag, |st.sending|, |st.putting|))), u, order + [n])
  {
    PutListed(st, After(es + sent), u, order, n, data, etag);
    ThreeMore(es, sent, PutPart(u, Num(n), data), PutArrives(|st.sending|, etag, true), PutDone(|st.putting|));
  }

  lemma {:induction false} PutsArrive(es: seq<Event>, st: State, u: string, order: seq<int>, datas: seq<Bytes>,
                                      etags: seq<string>, sending: nat, putting: nat)
    requires |etags| == |datas| == |order| && After(es) == st && Listed(st, st, u, [])
    requires sending == |st.sending| && putting == |st.putting|
    requires forall i | 0 <= i < |order| :: 1 <= order[i] <= st.sessions[u].partCount
    ensures Listed(st, After(es + Puts(u, order, datas, etags, sending, putting)), u, order)
    decreases |order|
  {
    if order == [] {
      assert es + [] == es;
    } else {
      var n := |order| - 1;
      var sent := Puts(u, order[..n], datas[..n], etags[..n], sending, putting);
      PutsArrive(es, st, u, order[..n], datas[..n], etags[..n], sending, putting);
      ListedNext(es, st, sent, u, order[..n], order[n], datas[n], etags[n]);
      assert order[..n] + [order[n]] == order;
    }
  }

  lemma {:induction false} PutsCarry(u: string, file: Bytes, order: seq<int>, datas: seq<Bytes>,
                                      etags: seq<string>, sending: nat, putting: nat)
    requires file != [] && |etags| == |datas| == |order|
    requires forall i | 0 <= i < |order| :: 1 <= order[i] <= PartCount(|file|) && datas[i] == Cut(file, order[i])
    ensures var puts := Puts(u, order, datas, etags, sending, putting);
            Carries(puts, u, file) && forall i | 0 <= i < |puts| :: !puts[i].Initiate?
  {
    if order != [] {
      var n := |order| - 1;
      PutsCarry(u, file, order[..n], datas[..n], etags[..n], sending, putting);
    }
  }

  /** The events of a run before it was opened say nothing of an upload id. */
  predicate Silent(e: Event, u: string) {
    match e
    case PutPart(v, _, _) => v != u
    case _ => true
  }

  /**
   Cut a file, send each part once in any order, complete: the object is the
   file, whatever run came before.
   */
  lemma RoundTrip(es: seq<Event>, open: Event, file: Bytes, order: seq<int>, datas: seq<Bytes>, etags: seq<string>)
    requires Valid(es + [open]) && open.Initiate? && file != [] && open.totalSize == |file|
    requires forall i | 0 <= i < |es| :: Silent(es[i], open.uploadId)
    requires |order| == PartCount(|file|) == |etags| == |datas| && DistinctInts(order)
    requires forall i | 0 <= i < |order| :: 1 <= order[i] <= PartCount(|file|) && datas[i] == Cut(file, order[i])
    ensures var u, st := open.uploadId, After(es);
            var run := es + [open] + Puts(u, order, datas, etags, |st.sending|, |st.putting|) + [Complete(u)];
            var (st', reply) := Step(After(run), Assemble(|st.assembling|, true));
            reply == Waiting && st'.objects == st.objects[(open.bucket, open.key) := file]
  {
    var u, begun, st := open.uploadId, es + [open], After(es);
    var puts := Puts(u, order, datas, etags, |st.sending|, |st.putting|);
    BeginState(es, open);
    PutsArrive(begun, After(begun), u, order, datas, etags, |st.sending|, |st.putting|);
    PutsCarry(u, file, order, datas, etags, |st.sending|, |st.putting|);
    RunCarries(es, open, puts, file);
    var parts := After(begun + puts).sessions[u].completedParts;
    DistinctNumbers(parts);
    NumbersAt(parts);
    CompleteAtOnce(begun + puts, u, file);
  }

  lemma CarriesNext(es: seq<Event>, e: Event, u: string, file: Bytes)
    requires file != [] && Carries(es, u, file) && CarriesOne(e, u, file)
    ensures Carries(es + [e], u, file)
  {
    forall i | 0 <= i < |es + [e]| ensures CarriesOne((es + [e])[i], u, file) {
      if i < |es| { assert CarriesOne(es[i], u, file); }
    }
  }

  lemma NoneReachesNext(es: seq<Event>, e: Event, u: string)
    requires !e.PutArrives?
    ensures NoneReaches(es + [e], |es|, u)
  {
    var all := es + [e];
    assert all[..|all| - 1] == es && all[|all| - 1] == e;
    assert NoneReaches(all[..|all| - 1], |es|, u) && !Reaches(After(all[..|all| - 1]), all[|all| - 1], u);
  }

  /** A completion that reaches the store at once. */
  lemma CompleteAtOnce(es: seq<Event>, u: string, file: Bytes)
    requires Valid(es) && file != [] && Carries(es, u, file) && Ready(After(es), u, file)
    requires Distinct(After(es).sessions[u].completedParts)
    ensures var st, s := After(es), After(es).sessions[u];
            var (st', reply) := Step(After(es + [Complete(u)]), Assemble(|st.assembling|, true));
            reply == Waiting && st'.objects == st.objects[(s.bucket, s.key) := file]
  {
    var all := es + [Complete(u)];
    AfterSnoc(es, Complete(u));
    NoInitiateIsFresh(es, Complete(u));
    assert all + [] == all && all[..|es|] == es;
    CarriesNext(es, Complete(u), u, file);
    NoneReachesNext(es, Complete(u), u);
    CompletionExact(es, [], u, file, |After(es).assembling|);
  }

  lemma BeginState(es: seq<Event>, open: Event)
    requires Valid(es + [open]) && open.Initiate?
    ensures var st, old' := After(es + [open]), After(es);
            var n := PartCount(open.totalSize);
            Known(st, open.uploadId) && open.minioId in st.uploads && st.objects == old'.objects &&
            st.sending == old'.sending && st.putting == old'.putting && st.assembling == old'.assembling &&
            Pending(st.putting, open.uploadId) == [] &&
            st.sessions[open.uploadId] == Session(open.minioId, open.bucket, open.key, open.totalSize, n, [])
  {
    AfterSnoc(es, open);
    ValidPrefix(es, open);
    AlwaysConsistent(es);
    StillUnused(es, open);
    var putting := After(es).putting;
    forall i | 0 <= i < |putting| ensures putting[i].uploadId != open.uploadId { assert PutOk(After(es), putting[i]); }
    PendingNone(putting, open.uploadId);
  }

  lemma RunCarries(es: seq<Event>, open: Event, puts: seq<Event>, file: Bytes)
    requires Valid(es + [open]) && open.Initiate? && file != []
    requires forall i | 0 <= i < |es| :: Silent(es[i], open.uploadId)
    requires Carries(puts, open.uploadId, file) && forall i | 0 <= i < |puts| :: !puts[i].Initiate?
    ensures Valid(es + [open] + puts) && Carries(es + [open] + puts, open.uploadId, file)
  {
    var u, begun, run := open.uploadId, es + [open], es + [open] + puts;
    forall i, j | 0 <= i < j < |run| ensures Fresh(run[i], run[j]) {
      if j < |begun| { assert Fresh(begun[i], begun[j]); } else { assert run[j] == puts[j - |begun|]; }
    }
    forall i | 0 <= i < |run| ensures CarriesOne(run[i], u, file) {
      if i < |es| { assert Silent(es[i], u); }
      else if i > |es| { assert run[i] == puts[i - |begun|]; }
    }
  }

  // ------------------------------------------- the end of a session

  /**
   The id has left the store, and no part on its way can bring it back: none has
   been taken by the object store, and it takes no more.
   */
  predicate Gone(st: State, u: string) { u !in st.live && Pending(st.putting, u) == [] && Ended(st, u) }

  lemma ArrivePending(st: State, i: nat, etag: string, storeOk: bool, u: string)
    requires Ended(st, u)
    ensures Pending(ArriveStep(st, i, etag, storeOk).0.putting, u) == Pending(st.putting, u)
  {
    if Arrives(st, i, storeOk) {
      assert ArriveStep(st, i, etag, true).0.putting[..|st.putting|] == st.putting;
      assert Pending(st.putting, u) + [] == Pending(st.putting, u);
    }
  }

  lemma DonePending(st: State, i: nat, u: string)
    requires Pending(st.putting, u) == []
    ensures Pending(PutDoneStep(st, i).0.putting, u) == []
  {
    if i < |st.putting| { PendingWithout(st.putting, i, u); }
  }

  /** No step takes in a part of a session that the object store is done with. */
  lemma StepPending(st: State, e: Event, u: string)
    requires Ended(st, u) && Pending(st.putting, u) == []
    ensures Pending(Step(st, e).0.putting, u) == []
  {
    match e
    case PutArrives(i, etag, storeOk) => ArrivePending(st, i, etag, storeOk, u);
    case PutDone(i) => DonePending(st, i, u);
    case _ => assert Step(st, e).0.putting == st.putting;
  }

  /** And only a part that comes back, or an initiation, makes an id known again. */
  lemma StepLive(st: State, e: Event, u: string)
    requires u !in st.live && !(e.Initiate? && e.uploadId == u)
    requires forall i | 0 <= i < |st.putting| :: st.putting[i].uploadId != u
    ensures u !in Step(st, e).0.live
  {
  }

  lemma StaysGone(st: State, e: Event, u: string)
    requires Gone(st, u) && !(e.Initiate? && e.uploadId == u) && (e.Initiate? ==> Unused(st, e))
    ensures Gone(Step(st, e).0, u)
  {
    EndedStep(st, e, u);
    StepPending(st, e, u);
    forall i | 0 <= i < |st.putting| ensures st.putting[i].uploadId != u { PendingSome(st.putting, i); }
    StepLive(st, e, u);
  }

  lemma PendingSome(putting: seq<Put>, i: nat)
    requires i < |putting|
    ensures Pending(putting, putting[i].uploadId) != []
  {
    PendingWithout(putting, i, putting[i].uploadId);
  }

  lemma {:induction false} GoneStaysGone(es: seq<Event>, n: nat, u: string)
    requires Valid(es) && n <= |es| && Gone(After(es[..n]), u)
    ensures Gone(After(es), u)
  {
    if n == |es| {
      assert es[..n] == es;
    } else {
      var k := |es| - 1;
      var p, e := es[..k], es[k];
      assert p[..n] == es[..n] && p + [e] == es;
      ValidPrefix(p, e);
      GoneStaysGone(p, n, u);
      if e.Initiate? { StillUnused(p, e); }
      StaysGone(After(p), e, u);
    }
  }

  /** What a client gets for a session that is not in the store. */
  ghost predicate Refused(st: State, u: string) {
    (forall n, data :: Step(st, PutPart(u, n, data)) == (st, NotFound)) &&
    Step(st, Complete(u)) == (st, NotFound) && Step(st, Status(u)) == (st, NotFound) &&
    Step(st, Abort(u)) == (st, Aborted)
  }

  lemma NotLiveIsRefused(st: State, u: string)
    requires u !in st.live
    ensures Refused(st, u)
  {
  }

  /** The event ended the session: its completion or its abort came back. */
  predicate Ends(es: seq<Event>, i: nat, u: string)
    requires i < |es|
  {
    (es[i].CompleteDone? && es[i].uploadId == u && ReplyAt(es, i) == Completed) ||
    (es[i].AbortDone? && es[i].uploadId == u && ReplyAt(es, i) == Aborted)
  }

  lemma EndRemoves(es: seq<Event>, i: nat, u: string)
    requires Valid(es) && i < |es| && Ends(es, i, u)
    ensures var st, st' := After(es[..i]), After(es[..i + 1]);
            u !in st'.live && st'.putting == st.putting && Ended(st', u)
  {
    PrefixValid(es, i);
    AlwaysConsistent(es[..i]);
    AfterNext(es, i);
    assert Ended(After(es[..i]), u);
  }

  /**
   After the completion or abort that ended it, if no part was on the way back then,
   a session is refused for good: every later part, completion and status request
   is turned down and an abort does nothing.
   */
  lemma EndedIsRefused(es: seq<Event>, i: nat, u: string)
    requires Valid(es) && i < |es| && Ends(es, i, u) && Pending(After(es[..i]).putting, u) == []
    ensures Refused(After(es), u)
  {
    EndRemoves(es, i, u);
    GoneStaysGone(es, i + 1, u);
    NotLiveIsRefused(After(es), u);
  }

  /** A part that comes back after its session ended sets the session in the store again. */
  lemma LatePartReopens(st: State, i: nat)
    requires Sound(st) && i < |st.putting| && st.putting[i].uploadId !in st.live
    ensures Refused(st, st.putting[i].uploadId)
    ensures var u, st' := st.putting[i].uploadId, PutDoneStep(st, i).0;
            Step(st', Status(u)).1.InProgress? && !Refused(st', u)
  {
    assert PutOk(st, st.putting[i]);
    NotLiveIsRefused(st, st.putting[i].uploadId);
    KnownIsNotRefused(PutDoneStep(st, i).0, st.putting[i].uploadId);
  }

  lemma KnownIsNotRefused(st: State, u: string)
    requires Known(st, u)
    ensures Step(st, Status(u)).1.InProgress? && !Refused(st, u)
  {
    assert Step(st, Status(u)).1 != NotFound;
  }

  lemma NoInitiateIsFresh(es: seq<Event>, e: Event)
    requires Valid(es) && !e.Initiate?
    ensures Valid(es + [e])
  {
    var all := es + [e];
    forall i, j | 0 <= i < j < |all| ensures Fresh(all[i], all[j]) {
      if j < |es| { assert Fresh(es[i], es[j]); }
    }
  }

  /** However the run goes on, the session is refused. */
  ghost predicate RefusedForGood(es: seq<Event>, u: string) {
    forall later: seq<Event> | Valid(es + later) :: Refused(After(es + later), u)
  }

  lemma RefusedOnward(es: seq<Event>, later: seq<Event>, u: string)
    requires es != [] && Valid(es + later) && Ends(es, |es| - 1, u) && Pending(After(es).putting, u) == []
    ensures Refused(After(es + later), u)
  {
    var n, all := |es| - 1, es + later;
    assert all[..|es|] == es;
    PrefixValid(all, |es|);
    EndRemoves(es, n, u);
    assert es[..n + 1] == es && all[..n] == es[..n] && all[n] == es[n];
    EndedIsRefused(all, n, u);
  }

  lemma PendingIndex(putting: seq<Put>, u: string) returns (i: nat)
    requires Pending(putting, u) != []
    ensures i < |putting| && putting[i].uploadId == u
  {
    if forall k | 0 <= k < |putting| :: putting[k].uploadId != u { PendingNone(putting, u); }
    i :| 0 <= i < |putting| && putting[i].uploadId == u;
  }

  lemma NotForGood(es: seq<Event>, e: Event, u: string)
    requires Valid(es + [e]) && !Refused(After(es + [e]), u)
    ensures !RefusedForGood(es, u)
  {
  }

  lemma PendingReopens(es: seq<Event>, u: string)
    requires Valid(es) && u !in After(es).live && Pending(After(es).putting, u) != []
    ensures !RefusedForGood(es, u)
  {
    var i := PendingIndex(After(es).putting, u);
    AlwaysConsistent(es);
    LatePartReopens(After(es), i);
    AfterSnoc(es, PutDone(i));
    NoInitiateIsFresh(es, PutDone(i));
    NotForGood(es, PutDone(i), u);
  }

  /**
   A completion or abort that comes back ends its session for good if and only if no
   part of it is on the way back from the object store.
   */
  lemma EndedForGoodExactly(es: seq<Event>, u: string)
    requires Valid(es) && es != [] && Ends(es, |es| - 1, u)
    ensures RefusedForGood(es, u) <==> Pending(After(es).putting, u) == []
  {
    var st := After(es);
    if Pending(st.putting, u) == [] {
      forall later: seq<Event> | Valid(es + later) ensures Refused(After(es + later), u) {
        RefusedOnward(es, later, u);
      }
    } else {
      EndRemoves(es, |es| - 1, u);
      assert es[..|es|] == es;
      PendingReopens(es, u);
    }
  }

  /** Open a session, send a part, abort: the part comes back last. */
  function AbortDuringPut(open: Event, data: Bytes, etag: string): seq<Event>
    requires open.Initiate?
  {
    [open] + [PutPart(open.uploadId, Num(1), data)] + [PutArrives(0, etag, true)] + [Abort(open.uploadId)] +
    [Drop(open.uploadId, true)] + [AbortDone(open.uploadId)] + [PutDone(0)]
  }

  /** The state in which the opened session, if live, and parts of it wait. */
  function OpenState(open: Event, parts: Parts, uploads: map<string, Upload>, live: set<string>): State
    requires open.Initiate?
  {
    var s := Session(open.minioId, open.bucket, open.key, open.totalSize, PartCount(open.totalSize), parts);
    EMPTY.(sessions := map[open.uploadId := s], live := live, uploads := uploads)
  }

  lemma OpenAndSend(open: Event, data: Bytes)
    requires open.Initiate? && open.totalSize >= 1
    ensures var u, st := open.uploadId, OpenState(open, [], map[open.minioId := map[]], {open.uploadId});
            Step(EMPTY, open).0 == st &&
            Step(st, PutPart(u, Num(1), data)).0 == st.(sending := [Send(u, Num(1), data)])
  {
  }

  /** The only part on its way reaches the store, and comes back. */
  lemma SentArrives(open: Event, parts: Parts, upload: Upload, data: Bytes, etag: string)
    requires open.Initiate?
    ensures var u, m := open.uploadId, open.minioId;
            var st := OpenState(open, parts, map[m := upload], {u});
            Step(st.(sending := [Send(u, Num(1), data)]), PutArrives(0, etag, true)).0 ==
              OpenState(open, parts, map[m := upload[1 := StoredPart(data, etag)]], {u})
                .(putting := [Put(u, CompletedPart(1, etag, |data|))])
  {
    var x := [Send(open.uploadId, Num(1), data)];
    assert Without(x, 0) == [];
    assert map[open.minioId := upload][open.minioId := upload[1 := StoredPart(data, etag)]]
        == map[open.minioId := upload[1 := StoredPart(data, etag)]];
  }

  lemma AbortAndReturn(open: Event, upload: Upload, p: Put)
    requires open.Initiate?
    ensures var u, m := open.uploadId, open.minioId;
            var st, gone := OpenState(open, [], map[m := upload], {u}).(putting := [p]),
                            OpenState(open, [], map[], {u}).(putting := [p]);
            Step(st, Abort(u)).0 == st.(dropping := multiset{u}) &&
            Step(st.(dropping := multiset{u}), Drop(u, true)).0 == gone.(aborting := multiset{u}) &&
            Step(gone.(aborting := multiset{u}), AbortDone(u)) == (gone.(live := {}), Aborted)
  {
    var u, m := open.uploadId, open.minioId;
    var none: multiset<string> := multiset{};
    assert map[m := upload] - {m} == map[] && {u} - {u} == {};
    assert none + multiset{u} == multiset{u} && multiset{u} - multiset{u} == none;
  }

  lemma PartComesBack(open: Event, p: Put)
    requires open.Initiate? && p.uploadId == open.uploadId
    ensures var st := OpenState(open, [], map[], {}).(putting := [p]);
            Refused(st, open.uploadId) &&
            Step(Step(st, PutDone(0)).0, Status(open.uploadId)).1 == InProgress(1, PartCount(open.totalSize))
  {
    NotLiveIsRefused(OpenState(open, [], map[], {}).(putting := [p]), open.uploadId);
  }

  /** The state after seven events. */
  lemma Seven(a: Event, b: Event, c: Event, d: Event, e: Event, f: Event, g: Event)
    ensures var run, st := [a] + [b] + [c] + [d] + [e] + [f], Step(Step(Step(EMPTY, a).0, b).0, c).0;
            After(run[..5]) == Step(Step(st, d).0, e).0 && After(run) == Step(After(run[..5]), f).0 &&
            After(run + [g]) == Step(After(run), g).0
  {
    assert [] + [a] == [a];
    AfterSnoc([], a);
    AfterSnoc([a], b);
    AfterSnoc([a] + [b], c);
    AfterSnoc([a] + [b] + [c], d);
    AfterSnoc([a] + [b] + [c] + [d], e);
    AfterSnoc([a] + [b] + [c] + [d] + [e], f);
    AfterSnoc([a] + [b] + [c] + [d] + [e] + [f], g);
    assert ([a] + [b] + [c] + [d] + [e] + [f])[..5] == [a] + [b] + [c] + [d] + [e];
  }

  lemma AbortedWhileWaiting(open: Event, data: Bytes, etag: string)
    requires open.Initiate? && open.totalSize >= 1
    ensures var u, run := open.uploadId, AbortDuringPut(open, data, etag);
            Valid(run) && Ends(run, 5, u) && Refused(After(run[..6]), u) &&
            Step(After(run), Status(u)).1 == InProgress(1, PartCount(open.totalSize))
  {
    var u, run, p := open.uploadId, AbortDuringPut(open, data, etag), CompletedPart(1, etag, |data|);
    OpenAndSend(open, data);
    SentArrives(open, [], map[], data, etag);
    AbortAndReturn(open, map[1 := StoredPart(data, etag)], Put(u, p));
    PartComesBack(open, Put(u, p));
    Seven(open, PutPart(u, Num(1), data), PutArrives(0, etag, true), Abort(u), Drop(u, true), AbortDone(u), PutDone(0));
    var six := [open] + [PutPart(u, Num(1), data)] + [PutArrives(0, etag, true)] + [Abort(u)] + [Drop(u, true)] +
               [AbortDone(u)];
    assert run[..6] == six && run[..5] == six[..5];
  }

  /** Open a session for one part, send it, send it again, complete: the list is on its way before the second part. */
  function ResendDuringComplete(open: Event, data: Bytes, etag: string, again: Bytes): seq<Event>
    requires open.Initiate?
  {
    [open] + [PutPart(open.uploadId, Num(1), data)] + [PutArrives(0, etag, true)] + [PutDone(0)] +
    [PutPart(open.uploadId, Num(1), again)] + [Complete(open.uploadId)]
  }

  lemma ResendSteps(open: Event, p: CompletedPart, upload: Upload, again: Bytes)
    requires open.Initiate? && 1 <= open.totalSize <= PART_SIZE
    ensures var u, m := open.uploadId, open.minioId;
            var st, listed := OpenState(open, [], map[m := upload], {u}), OpenState(open, [p], map[m := upload], {u});
            Step(st.(putting := [Put(u, p)]), PutDone(0)).0 == listed &&
            Step(listed, PutPart(u, Num(1), again)).0 == listed.(sending := [Send(u, Num(1), again)]) &&
            Step(listed.(sending := [Send(u, Num(1), again)]), Complete(u)).0 ==
              listed.(sending := [Send(u, Num(1), again)], assembling := [Assembly(u, [p])])
  {
    var u := open.uploadId;
    assert Without([Put(u, p)], 0) == [] && {u} + {u} == {u} && [] + [p] == [p];
    assert [p][..0] == [] && Sort([p]) == [p];
  }

  /** The store would join the list, but not once the second part has reached it. */
  lemma ResentWhileCompleting(open: Event, data: Bytes, etag: string, again: Bytes, etag': string)
    requires open.Initiate? && 1 <= open.totalSize <= PART_SIZE && etag != etag'
    ensures var st := After(ResendDuringComplete(open, data, etag, again));
            Step(st, Assemble(0, true)).1 == Waiting &&
            Step(Step(st, PutArrives(0, etag', true)).0, Assemble(0, true)).1 == StoreError
  {
    var u, p := open.uploadId, CompletedPart(1, etag, |data|);
    var upload: Upload := map[1 := StoredPart(data, etag)];
    OpenAndSend(open, data);
    SentArrives(open, [], map[], data, etag);
    ResendSteps(open, p, upload, again);
    Seven(open, PutPart(u, Num(1), data), PutArrives(0, etag, true), PutDone(0), PutPart(u, Num(1), again), Complete(u),
          Complete(u));
    var st := OpenState(open, [p], map[open.minioId := upload], {u})
                .(sending := [Send(u, Num(1), again)], assembling := [Assembly(u, [p])]);
    assert Matches(upload, p);
    StoreDecides(st, 0);
    ResentPartRefuses(st, 0, 0, 0, etag');
  }

  lemma EndedStep(st: State, e: Event, u: string)
    requires Ended(st, u) && (e.Initiate? ==> e.uploadId != u && Unused(st, e))
    ensures Ended(Step(st, e).0, u)
  {
    StepSessions(st, e, u);
  }

  lemma {:induction false} EndedStaysEnded(es: seq<Event>, n: nat, u: string)
    requires Valid(es) && n <= |es| && Ended(After(es[..n]), u)
    ensures Ended(After(es), u)
  {
    if n == |es| {
      assert es[..n] == es;
    } else {
      var k := |es| - 1;
      var p, e := es[..k], es[k];
      assert p[..n] == es[..n] && p + [e] == es;
      ValidPrefix(p, e);
      EndedStaysEnded(p, n, u);
      if e.Initiate? { StillUnused(p, e); }
      EndedStep(After(p), e, u);
    }
  }

  /** Event e makes the store join the session's parts. */
  predicate Joins(st: State, e: Event, u: string) {
    e.Assemble? && e.index < |st.assembling| && st.assembling[e.index].uploadId == u && u in st.sessions &&
    Step(st, e).1 == Waiting
  }

  /** The store joined the upload's parts. */
  predicate AssembledAt(es: seq<Event>, i: nat, u: string)
    requires i < |es|
  {
    Joins(After(es[..i]), es[i], u)
  }

  lemma PrefixValid(es: seq<Event>, n: nat)
    requires Valid(es) && n <= |es|
    ensures Valid(es[..n])
  {
    forall i, j | 0 <= i < j < n ensures Fresh(es[..n][i], es[..n][j]) { assert Fresh(es[i], es[j]); }
  }

  /** An upload is assembled at most once over any run. */
  lemma AssembledOnce(es: seq<Event>, i: nat, j: nat, u: string)
    requires Valid(es) && i < j < |es| && AssembledAt(es, i, u)
    ensures !AssembledAt(es, j, u)
  {
    AfterNext(es, i);
    assert Ended(After(es[..i + 1]), u);
    assert es[..j][..i + 1] == es[..i + 1];
    PrefixValid(es, j);
    EndedStaysEnded(es[..j], i + 1, u);
  }

  function Assemblies(es: seq<Event>, u: string): nat {
    if es == [] then 0 else
      Assemblies(es[..|es| - 1], u) + if AssembledAt(es, |es| - 1, u) then 1 else 0
  }

  /** Completions that came back, recorded or not. */
  function Returns(es: seq<Event>, u: string): nat {
    if es == [] then 0 else
      var p, e := es[..|es| - 1], es[|es| - 1];
      Returns(p, u) + if e.CompleteDone? && e.uploadId == u && !Step(After(p), e).1.Waiting? then 1 else 0
  }

  lemma {:induction false} AtMostOneAssembly(es: seq<Event>, u: string)
    requires Valid(es)
    ensures Assemblies(es, u) <= 1
    ensures Assemblies(es, u) == 1 ==> exists i :: 0 <= i < |es| && AssembledAt(es, i, u)
  {
    if es != [] {
      var n := |es| - 1;
      PrefixValid(es, n);
      AtMostOneAssembly(es[..n], u);
      if Assemblies(es[..n], u) == 1 {
        var i :| 0 <= i < n && AssembledAt(es[..n], i, u);
        assert es[..n][..i] == es[..i];
        assert AssembledAt(es, i, u);
        AssembledOnce(es, i, n, u);
      }
    }
  }

  lemma CompletingStep(st: State, e: Event, u: string)
    ensures var (st', reply) := Step(st, e);
            st'.completing[u] + (if e.CompleteDone? && e.uploadId == u && !reply.Waiting? then 1 else 0) ==
            st.completing[u] + if Joins(st, e, u) then 1 else 0
  {
  }

  lemma {:induction false} ReturnsFollowAssemblies(es: seq<Event>, u: string)
    ensures Returns(es, u) + After(es).completing[u] == Assemblies(es, u)
  {
    if es != [] {
      var n := |es| - 1;
      ReturnsFollowAssemblies(es[..n], u);
      assert es[..n] == es[..|es| - 1];
      CompletingStep(After(es[..n]), es[n], u);
    }
  }

  /** Over any run an upload is completed at most once, even if saving the file record fails. */
  lemma CompletedOnce(es: seq<Event>, u: string)
    requires Valid(es)
    ensures Returns(es, u) <= Assemblies(es, u) <= 1
  {
    AtMostOneAssembly(es, u);
    ReturnsFollowAssemblies(es, u);
  }

  // ---------------------------------------------------------------- the service

  class MultipartService {
    /** The session objects, and the ids under which `redisStore` has them. */
    var sessions: map<string, Session>
    var redisStore: set<string>
    /** The object store and the table of files. */
    var uploads: map<string, Upload>
    var objects: map<(string, string), Bytes>
    var records: seq<Record>
    /** The calls that wait for the object store or the database. */
    var sending: seq<Send>
    var putting: seq<Put>
    var assembling: seq<Assembly>
    var completing: multiset<string>
    var dropping: multiset<string>
    var aborting: multiset<string>

    function Contents(): State
      reads this
    {
      State(sessions, redisStore, uploads, objects, records, sending, putting, assembling, completing, dropping,
            aborting)
    }

    constructor ()
      ensures Contents() == EMPTY
    {
      sessions, redisStore, uploads, objects, records := map[], {}, map[], map[], [];
      sending, putting, assembling := [], [], [];
      completing, dropping, aborting := multiset{}, multiset{}, multiset{};
    }

    method InitiateUpload(uploadId: string, minioId: string, bucket: string, key: string, totalSize: int)
      returns (reply: Reply)
      modifies this
      ensures (Contents(), reply) == Step(old(Contents()), Initiate(uploadId, minioId, bucket, key, totalSize))
    {
      var partSize := 5 * 1024 * 1024;
      var partCount := if totalSize <= partSize then 1 else (totalSize + partSize - 1) / partSize;
      uploads := uploads[minioId := map[]];
      sessions := sessions[uploadId := Session(minioId, bucket, key, totalSize, partCount, [])];
      redisStore := redisStore + {uploadId};
      reply := Initiated(partCount);
    }

    method UploadPart(uploadId: string, partNumber: Number, data: Bytes) returns (reply: Reply)
      modifies this
      ensures (Contents(), reply) == Step(old(Contents()), PutPart(uploadId, partNumber, data))
    {
      if uploadId !in redisStore || uploadId !in sessions { return NotFound; }
      var session := sessions[uploadId];
      if partNumber.Num? && (partNumber.n < 1 || partNumber.n > session.partCount) { return BadRequest; }
      sending := sending + [Send(uploadId, partNumber, data)];
      reply := Waiting;
    }

    /** The object store gets the part. */
    method PartArrived(index: nat, etag: string, storeOk: bool) returns (reply: Reply)
      requires index < |sending| && sending[index].uploadId in sessions
      modifies this
      ensures (Contents(), reply) == Step(old(Contents()), PutArrives(index, etag, storeOk))
    {
      var send := sending[index];
      sending := sending[..index] + sending[index + 1..];
      var minioId := sessions[send.uploadId].minioId;
      if !storeOk || send.number.NaN? || minioId !in uploads { return StoreError; }
      uploads := uploads[minioId := uploads[minioId][send.number.n := StoredPart(send.data, etag)]];
      putting := putting + [Put(send.uploadId, CompletedPart(send.number.n, etag, |send.data|))];
      reply := Waiting;
    }

    /** The rest of `uploadPart`, with the part's tag. */
    method PartUploaded(index: nat) returns (reply: Reply)
      requires index < |putting| && putting[index].uploadId in sessions
      modifies this
      ensures (Contents(), reply) == Step(old(Contents()), PutDone(index))
    {
      var put := putting[index];
      putting := putting[..index] + putting[index + 1..];
      var session := sessions[put.uploadId];
      sessions := sessions[put.uploadId := session.(completedParts := session.completedParts + [put.part])];
      redisStore := redisStore + {put.uploadId};
      reply := PartStored(put.part.size);
    }

    method CompleteUpload(uploadId: string) returns (reply: Reply)
      modifies this
      ensures (Contents(), reply) == Step(old(Contents()), Complete(uploadId))
    {
      if uploadId !in redisStore || uploadId !in sessions { return NotFound; }
      var session := sessions[uploadId];
      if |session.completedParts| != session.partCount { return BadRequest; }
      var sortedParts := Sort(session.completedParts);
      sessions := sessions[uploadId := session.(completedParts := sortedParts)];
      assembling := assembling + [Assembly(uploadId, sortedParts)];
      reply := Waiting;
    }

    /** The object store gets the list of parts. */
    method PartsJoined(index: nat, storeOk: bool) returns (reply: Reply)
      requires index < |assembling| && assembling[index].uploadId in sessions
      modifies this
      ensures (Contents(), reply) == Step(old(Contents()), Assemble(index, storeOk))
    {
      var assembly := assembling[index];
      assembling := assembling[..index] + assembling[index + 1..];
      var session := sessions[assembly.uploadId];
      if !storeOk || session.minioId !in uploads || !Acceptable(uploads[session.minioId], assembly.list) {
        return StoreError;
      }
      objects := objects[(session.bucket, session.key) := Joined(uploads[session.minioId], assembly.list)];
      uploads := uploads - {session.minioId};
      completing := completing + multiset{assembly.uploadId};
      reply := Waiting;
    }

    /** The rest of `completeUpload`, once the object store has joined the parts. */
    method FileSaved(uploadId: string, dbOk: bool) returns (reply: Reply)
      requires uploadId in completing && uploadId in sessions
      modifies this
      ensures (Contents(), reply) == Step(old(Contents()), CompleteDone(uploadId, dbOk))
    {
      completing := completing - multiset{uploadId};
      if !dbOk { return DbError; }
      var session := sessions[uploadId];
      records := records + [Record(session.bucket, session.key, session.totalSize)];
      redisStore := redisStore - {uploadId};
      reply := Completed;
    }

    method AbortUpload(uploadId: string) returns (reply: Reply)
      modifies this
      ensures (Contents(), reply) == Step(old(Contents()), Abort(uploadId))
    {
      if uploadId !in redisStore || uploadId !in sessions { return Aborted; }
      dropping := dropping + multiset{uploadId};
      reply := Waiting;
    }

    /** The object store gets the abort. */
    method UploadDropped(uploadId: string, storeOk: bool) returns (reply: Reply)
      requires uploadId in dropping && uploadId in sessions
      modifies this
      ensures (Contents(), reply) == Step(old(Contents()), Drop(uploadId, storeOk))
    {
      dropping := dropping - multiset{uploadId};
      var minioId := sessions[uploadId].minioId;
      if !storeOk || minioId !in uploads { return StoreError; }
      uploads := uploads - {minioId};
      aborting := aborting + multiset{uploadId};
      reply := Waiting;
    }

    /** The rest of `abortUpload`. */
    method UploadAborted(uploadId: string) returns (reply: Reply)
      requires uploadId in aborting
      modifies this
      ensures (Contents(), reply) == Step(old(Contents()), AbortDone(uploadId))
    {
      aborting := aborting - multiset{uploadId};
      redisStore := redisStore - {uploadId};
      reply := Aborted;
    }

    method GetUploadStatus(uploadId: string) returns (reply: Reply)
      ensures (Contents(), reply) == Step(Contents(), Status(uploadId))
    {
      if uploadId !in redisStore || uploadId !in sessions { return NotFound; }
      reply := InProgress(|sessions[uploadId].completedParts|, sessions[uploadId].partCount);
    }
  }
}
