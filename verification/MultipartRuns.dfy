/**
 What a run of multipart requests says about its state: the sessions are those
 opened, the records those of the completions answered, the counts those of the
 parts answered, and each request is answered from these alone.
 */
module MultipartRuns {
  import opened Wrappers
  import opened PartMath
  import opened PartList
  import opened Multipart

  // ------------------------------------------- what was asked and answered

  /** The reply to the run's last event. */
  function LastReply(es: seq<Event>): Reply
    requires es != []
  {
    Step(After(es[..|es| - 1]), es[|es| - 1]).1
  }

  /** The request that opened the upload. */
  function Opening(es: seq<Event>, u: string): Option<Event>
    ensures Opening(es, u).Some? ==> Opening(es, u).value.Initiate?
  {
    if es == [] then None
    else if es[|es| - 1].Initiate? && es[|es| - 1].uploadId == u then Some(es[|es| - 1])
    else Opening(es[..|es| - 1], u)
  }

  /** The part that the run's last event brought back for the upload, answered as stored. */
  predicate CameBack(es: seq<Event>, u: string)
    requires es != []
  {
    var p, e := es[..|es| - 1], es[|es| - 1];
    e.PutDone? && e.index < |After(p).putting| && After(p).putting[e.index].uploadId == u && LastReply(es).PartStored?
  }

  /** How many parts of the upload came back. */
  function Came(es: seq<Event>, u: string): nat {
    if es == [] then 0 else Came(es[..|es| - 1], u) + if CameBack(es, u) then 1 else 0
  }

  /** The run's last event is a completion or abort of the upload, answered as done. */
  predicate EndedLast(es: seq<Event>, u: string)
    requires es != []
  {
    var e := es[|es| - 1];
    (e.CompleteDone? && e.uploadId == u && LastReply(es) == Completed) ||
    (e.AbortDone? && e.uploadId == u && LastReply(es) == Aborted)
  }

  /** Opened or with a part come back since it last ended. */
  predicate Open(es: seq<Event>, u: string) {
    es != [] &&
    if es[|es| - 1].Initiate? && es[|es| - 1].uploadId == u then true
    else if CameBack(es, u) then true
    else !EndedLast(es, u) && Open(es[..|es| - 1], u)
  }

  /** One record for each completion that was answered as done, with what its upload was opened with. */
  function Saved(es: seq<Event>): seq<Record> {
    if es == [] then [] else
      var p, e := es[..|es| - 1], es[|es| - 1];
      if e.CompleteDone? && LastReply(es) == Completed && Opening(p, e.uploadId).Some? then
        var o := Opening(p, e.uploadId).value;
        Saved(p) + [Record(o.bucket, o.key, o.totalSize)]
      else Saved(p)
  }

  // ------------------------------------------- the state is what the run says

  predicate SessionOf(st: State, u: string, open: Option<Event>)
    requires open.Some? ==> open.value.Initiate?
  {
    (u in st.sessions <==> open.Some?) &&
    (u in st.sessions ==>
      var s, o := st.sessions[u], open.value;
      s.minioId == o.minioId && s.bucket == o.bucket && s.key == o.key && s.totalSize == o.totalSize &&
      s.partCount == if o.totalSize <= 5_242_880 then 1 else (o.totalSize + 5_242_879) / 5_242_880)
  }

  lemma {:induction false} SessionIsOpened(es: seq<Event>, u: string)
    ensures SessionOf(After(es), u, Opening(es, u))
  {
    if es != [] {
      var p, e := es[..|es| - 1], es[|es| - 1];
      SessionIsOpened(p, u);
      if !(e.Initiate? && e.uploadId == u) { StepSessions(After(p), e, u); }
    }
  }

  lemma StepRecords(st: State, e: Event)
    ensures var (st', reply) := Step(st, e);
            if e.CompleteDone? && reply == Completed then
              e.uploadId in st.sessions &&
              var s := st.sessions[e.uploadId];
              st'.records == st.records + [Record(s.bucket, s.key, s.totalSize)]
            else st'.records == st.records
  {
  }

  /** The records are exactly those of the completions that were answered as done, in that order. */
  lemma {:induction false} RecordsExact(es: seq<Event>)
    ensures After(es).records == Saved(es)
  {
    if es != [] {
      var p, e := es[..|es| - 1], es[|es| - 1];
      RecordsExact(p);
      StepRecords(After(p), e);
      if e.CompleteDone? { SessionIsOpened(p, e.uploadId); }
    }
  }

  lemma StepListed(st: State, e: Event, u: string)
    requires u in st.sessions && !(e.Initiate? && e.uploadId == u)
    ensures var came := e.PutDone? && e.index < |st.putting| && st.putting[e.index].uploadId == u;
            var (st', reply) := Step(st, e);
            u in st'.sessions &&
            (e.PutDone? && came ==> reply.PartStored?) &&
            |st'.sessions[u].completedParts| == |st.sessions[u].completedParts| + if came then 1 else 0
  {
    if e.Complete? && e.uploadId in st.sessions { SortSorts(st.sessions[e.uploadId].completedParts); }
  }

  lemma {:induction false} UnopenedIsSilent(es: seq<Event>, u: string)
    requires Opening(es, u) == None
    ensures Came(es, u) == 0 && !Open(es, u)
  {
    if es != [] {
      UnopenedIsSilent(es[..|es| - 1], u);
      SessionIsOpened(es[..|es| - 1], u);
    }
  }

  /** A session lists as many parts as came back. */
  lemma {:induction false} ListedExact(es: seq<Event>, u: string)
    requires Valid(es) && u in After(es).sessions
    ensures |After(es).sessions[u].completedParts| == Came(es, u)
  {
    var p, e := es[..|es| - 1], es[|es| - 1];
    assert p + [e] == es;
    ValidPrefix(p, e);
    if e.Initiate? && e.uploadId == u {
      StillUnused(p, e);
      SessionIsOpened(p, u);
      UnopenedIsSilent(p, u);
    } else {
      StepSessions(After(p), e, u);
      ListedExact(p, u);
      StepListed(After(p), e, u);
    }
  }

  lemma StepOpen(st: State, e: Event, u: string)
    ensures var (st', reply) := Step(st, e);
            var came := e.PutDone? && e.index < |st.putting| && st.putting[e.index].uploadId == u && reply.PartStored?;
            var ended := (e.CompleteDone? && e.uploadId == u && reply == Completed) ||
                         (e.AbortDone? && e.uploadId == u && reply == Aborted);
            u in st'.live <==> if e.Initiate? && e.uploadId == u then true else if came then true
                               else !ended && u in st.live
  {
  }

  /** An id is in the store exactly when it was opened, or a part of it came back, since it last ended. */
  lemma {:induction false} OpenExact(es: seq<Event>, u: string)
    ensures u in After(es).live <==> Open(es, u)
  {
    if es != [] {
      OpenExact(es[..|es| - 1], u);
      StepOpen(After(es[..|es| - 1]), es[|es| - 1], u);
    }
  }

  // ------------------------------------------- the replies

  function PartsOf(open: Event): int
    requires open.Initiate?
  {
    if open.totalSize <= 5_242_880 then 1 else (open.totalSize + 5_242_879) / 5_242_880
  }

  /** How many parts of a session have come back, and how many it asks for; None where it is not open. */
  function Progress(es: seq<Event>, u: string): Option<(nat, int)> {
    if Open(es, u) && Opening(es, u).Some? then Some((Came(es, u), PartsOf(Opening(es, u).value))) else None
  }

  lemma ProgressIsState(es: seq<Event>, u: string)
    requires Valid(es)
    ensures Progress(es, u).Some? <==> Known(After(es), u)
    ensures Known(After(es), u) ==>
              var s := After(es).sessions[u];
              Progress(es, u) == Some((|s.completedParts|, s.partCount))
  {
    OpenExact(es, u);
    SessionIsOpened(es, u);
    if Known(After(es), u) { ListedExact(es, u); }
  }

  /** A status request tells how many parts have come back of how many, and changes nothing. */
  lemma StatusExact(es: seq<Event>, u: string)
    requires Valid(es)
    ensures Step(After(es), Status(u)) ==
              (After(es), match Progress(es, u)
                          case None => NotFound
                          case Some(p) => InProgress(p.0, p.1))
  {
    ProgressIsState(es, u);
    StatusOf(After(es), u);
  }

  lemma StatusOf(st: State, u: string)
    ensures Step(st, Status(u)).0 == st
    ensures Step(st, Status(u)).1 ==
              if Known(st, u) then InProgress(|st.sessions[u].completedParts|, st.sessions[u].partCount) else NotFound
  {
  }

  /** A part is sent on exactly when the session is open and its number, if it is one, is in 1 .. the part count. */
  lemma PartExact(es: seq<Event>, u: string, number: Number, data: Bytes)
    requires Valid(es)
    ensures var st := After(es);
            Step(st, PutPart(u, number, data)) ==
              match Progress(es, u)
              case None => (st, NotFound)
              case Some(p) =>
                if number.NaN? || 1 <= number.n <= p.1 then
                  (st.(sending := st.sending + [Send(u, number, data)]), Waiting)
                else (st, BadRequest)
  {
    ProgressIsState(es, u);
  }

  /** A completion is sent on exactly when the session is open and as many parts have come back as it asks for. */
  lemma CompleteExact(es: seq<Event>, u: string)
    requires Valid(es)
    ensures var st, (st', reply) := After(es), Step(After(es), Complete(u));
            match Progress(es, u)
            case None => st' == st && reply == NotFound
            case Some(p) =>
              if p.0 != p.1 then st' == st && reply == BadRequest
              else
                reply == Waiting && u in st.sessions &&
                var s, list := st.sessions[u], Sort(st.sessions[u].completedParts);
                st'.assembling == st.assembling + [Assembly(u, list)] &&
                st'.sessions == st.sessions[u := s.(completedParts := list)] &&
                Sorted(list) && SameParts(s.completedParts, list) && |list| == p.1
  {
    ProgressIsState(es, u);
    if Known(After(es), u) {
      SortSorts(After(es).sessions[u].completedParts);
      SortIsSame(After(es).sessions[u].completedParts);
    }
  }

  /** An abort of a session that is not open is done at once, without a change; of any other it is sent on. */
  lemma AbortExact(es: seq<Event>, u: string)
    requires Valid(es)
    ensures var st := After(es);
            Step(st, Abort(u)) ==
              if Progress(es, u).None? then (st, Aborted)
              else (st.(dropping := st.dropping + multiset{u}), Waiting)
  {
    ProgressIsState(es, u);
  }

  /**
   A joined upload whose completion has not come back is completed exactly when the
   database takes the record, which is then the last; no other completion is answered.
   */
  lemma CompletionAnswered(es: seq<Event>, u: string, dbOk: bool)
    requires Valid(es)
    ensures var st, (st', reply) := After(es), Step(After(es), CompleteDone(u, dbOk));
            if Assemblies(es, u) == Returns(es, u) then st' == st && reply == Waiting
            else if !dbOk then reply == DbError && st'.records == st.records && st'.live == st.live
            else
              Opening(es, u).Some? && reply == Completed &&
              var o := Opening(es, u).value;
              st'.records == st.records + [Record(o.bucket, o.key, o.totalSize)] && st'.live == st.live - {u}
  {
    AlwaysConsistent(es);
    ReturnsFollowAssemblies(es, u);
    SessionIsOpened(es, u);
    assert u in After(es).completing ==> Ended(After(es), u);
  }

  // ------------------------------------------- what a request leaves alone

  /** The upload that the event is about. */
  function Concerned(st: State, e: Event): Option<string> {
    match e
    case Initiate(u, _, _, _, _) => Some(u)
    case PutPart(u, _, _) => Some(u)
    case PutArrives(i, _, _) => if i < |st.sending| then Some(st.sending[i].uploadId) else None
    case PutDone(i) => if i < |st.putting| then Some(st.putting[i].uploadId) else None
    case Complete(u) => Some(u)
    case Assemble(i, _) => if i < |st.assembling| then Some(st.assembling[i].uploadId) else None
    case CompleteDone(u, _) => Some(u)
    case Abort(u) => Some(u)
    case Drop(u, _) => Some(u)
    case AbortDone(u) => Some(u)
    case Status(u) => Some(u)
  }

  /** Session, standing and stored parts of the upload are the same in both states. */
  predicate SameUpload(st: State, st': State, u: string) {
    (u in st'.live <==> u in st.live) && (u in st'.sessions <==> u in st.sessions) &&
    (u in st.sessions ==>
      st'.sessions[u] == st.sessions[u] &&
      var m := st.sessions[u].minioId;
      (m in st'.uploads <==> m in st.uploads) && (m in st.uploads ==> st'.uploads[m] == st.uploads[m]))
  }

  lemma StepElsewhere(st: State, e: Event, u: string)
    requires OwnIds(st.sessions) && (e.Initiate? ==> Unused(st, e)) && Concerned(st, e) != Some(u)
    ensures SameUpload(st, Step(st, e).0, u)
  {
    match e
    case Initiate(_, _, _, _, _) => InitiatesElsewhere(st, e, u);
    case PutPart(v, number, data) => SentElsewhere(st, v, number, data, u);
    case PutArrives(i, etag, storeOk) => ArrivesElsewhere(st, i, etag, storeOk, u);
    case PutDone(i) => DoneElsewhere(st, i, u);
    case Complete(v) => CompletesElsewhere(st, v, u);
    case Assemble(i, storeOk) => AssemblesElsewhere(st, i, storeOk, u);
    case CompleteDone(v, dbOk) => CompletedElsewhere(st, v, dbOk, u);
    case Abort(v) => AbortsElsewhere(st, v, u);
    case Drop(v, storeOk) => DropsElsewhere(st, v, storeOk, u);
    case AbortDone(v) => AbortedElsewhere(st, v, u);
    case Status(_) =>
  }

  lemma InitiatesElsewhere(st: State, e: Event, u: string)
    requires e.Initiate? && Unused(st, e) && e.uploadId != u
    ensures SameUpload(st, InitiateStep(st, e).0, u)
  {
  }

  lemma SentElsewhere(st: State, v: string, number: Number, data: Bytes, u: string)
    ensures SameUpload(st, PutStep(st, v, number, data).0, u)
  {
  }

  lemma DoneElsewhere(st: State, i: nat, u: string)
    requires Concerned(st, PutDone(i)) != Some(u)
    ensures SameUpload(st, PutDoneStep(st, i).0, u)
  {
  }

  lemma CompletesElsewhere(st: State, v: string, u: string)
    requires v != u
    ensures SameUpload(st, CompleteStep(st, v).0, u)
  {
  }

  lemma CompletedElsewhere(st: State, v: string, dbOk: bool, u: string)
    requires v != u
    ensures SameUpload(st, CompleteDoneStep(st, v, dbOk).0, u)
  {
  }

  lemma AbortsElsewhere(st: State, v: string, u: string)
    ensures SameUpload(st, AbortStep(st, v).0, u)
  {
  }

  lemma AbortedElsewhere(st: State, v: string, u: string)
    requires v != u
    ensures SameUpload(st, AbortDoneStep(st, v).0, u)
  {
  }

  lemma ArrivesElsewhere(st: State, i: nat, etag: string, storeOk: bool, u: string)
    requires OwnIds(st.sessions) && Concerned(st, PutArrives(i, etag, storeOk)) != Some(u)
    ensures SameUpload(st, ArriveStep(st, i, etag, storeOk).0, u)
  {
  }

  lemma AssemblesElsewhere(st: State, i: nat, storeOk: bool, u: string)
    requires OwnIds(st.sessions) && Concerned(st, Assemble(i, storeOk)) != Some(u)
    ensures SameUpload(st, AssembleStep(st, i, storeOk).0, u)
  {
  }

  lemma DropsElsewhere(st: State, v: string, storeOk: bool, u: string)
    requires OwnIds(st.sessions) && v != u
    ensures SameUpload(st, DropStep(st, v, storeOk).0, u)
  {
  }

  lemma ObjectsChange(st: State, e: Event)
    requires !e.Assemble? || Step(st, e).1 == StoreError
    ensures Step(st, e).0.objects == st.objects
  {
    if OfParts(e) { PartObjects(st, e); } else if !e.Assemble? { EndObjects(st, e); }
  }

  lemma PartObjects(st: State, e: Event)
    requires OfParts(e)
    ensures Step(st, e).0.objects == st.objects
  {
  }

  lemma EndObjects(st: State, e: Event)
    requires !OfParts(e) && !e.Assemble?
    ensures Step(st, e).0.objects == st.objects
  {
    match e
    case Complete(u) => CompleteObjects(st, u);
    case CompleteDone(u, dbOk) => CompleteDoneObjects(st, u, dbOk);
    case Drop(u, storeOk) => DropObjects(st, u, storeOk);
    case Abort(u) => AbortObjects(st, u);
    case AbortDone(u) => AbortObjects(st, u);
    case Status(_) =>
  }

  lemma CompleteObjects(st: State, u: string)
    ensures CompleteStep(st, u).0.objects == st.objects
  {
  }

  lemma CompleteDoneObjects(st: State, u: string, dbOk: bool)
    ensures CompleteDoneStep(st, u, dbOk).0.objects == st.objects
  {
  }

  lemma DropObjects(st: State, u: string, storeOk: bool)
    ensures DropStep(st, u, storeOk).0.objects == st.objects
  {
  }

  lemma AbortObjects(st: State, u: string)
    ensures AbortStep(st, u).0.objects == st.objects && AbortDoneStep(st, u).0.objects == st.objects
  {
  }

  /**
   In every reachable state a request leaves every upload it is not about as it was, and
   no request but a joining one changes an object.
   */
  lemma OthersUntouched(es: seq<Event>, e: Event, u: string)
    requires Valid(es + [e]) && Concerned(After(es), e) != Some(u)
    ensures SameUpload(After(es), After(es + [e]), u)
    ensures !e.Assemble? || Step(After(es), e).1 == StoreError ==> After(es + [e]).objects == After(es).objects
  {
    ValidPrefix(es, e);
    AlwaysConsistent(es);
    AfterSnoc(es, e);
    if e.Initiate? { StillUnused(es, e); }
    StepElsewhere(After(es), e, u);
    if !e.Assemble? || Step(After(es), e).1 == StoreError { ObjectsChange(After(es), e); }
  }

  /** The object store or the database refuses the request. */
  predicate RefusedBelow(e: Event) {
    match e
    case PutArrives(_, _, storeOk) => !storeOk
    case Assemble(_, storeOk) => !storeOk
    case Drop(_, storeOk) => !storeOk
    case CompleteDone(_, dbOk) => !dbOk
    case _ => false
  }

  /**
   A request that the object store or the database refuses fails, and leaves sessions,
   stored parts, objects and records as they were.
   */
  lemma FailuresLeaveNoTrace(es: seq<Event>, e: Event)
    requires Valid(es) && RefusedBelow(e)
    ensures var st, (st', reply) := After(es), Step(After(es), e);
            (reply == (if e.CompleteDone? then DbError else StoreError) || (reply == Waiting && st' == st)) &&
            st'.sessions == st.sessions && st'.live == st.live && st'.uploads == st.uploads &&
            st'.objects == st.objects && st'.records == st.records && st'.putting == st.putting
  {
  }

  /** An abort that the object store takes drops that upload from it, and the session when it is heard of. */
  lemma AbortedExact(es: seq<Event>, u: string)
    requires Valid(es) && u in After(es).dropping && u in After(es).sessions
    requires After(es).sessions[u].minioId in After(es).uploads
    ensures DropsOut(After(es), u)
  {
    var st := After(es);
    DropTaken(st, u);
    AbortHeard(Step(st, Drop(u, true)).0, u);
  }

  predicate DropsOut(st: State, u: string)
    requires u in st.sessions
  {
    var (st', reply) := Step(Step(st, Drop(u, true)).0, AbortDone(u));
    reply == Aborted && u !in st'.live && st.sessions[u].minioId !in st'.uploads &&
    st'.objects == st.objects && st'.records == st.records && st'.sessions == st.sessions
  }

  lemma DropTaken(st: State, u: string)
    requires u in st.dropping && u in st.sessions && st.sessions[u].minioId in st.uploads
    ensures var m, st' := st.sessions[u].minioId, Step(st, Drop(u, true)).0;
            u in st'.aborting && st'.uploads == st.uploads - {m} &&
            st'.objects == st.objects && st'.records == st.records && st'.sessions == st.sessions
  {
  }

  lemma AbortHeard(st: State, u: string)
    requires u in st.aborting
    ensures var (st', reply) := Step(st, AbortDone(u));
            reply == Aborted && u !in st'.live && st'.uploads == st.uploads &&
            st'.objects == st.objects && st'.records == st.records && st'.sessions == st.sessions
  {
  }

  /** An initiation is answered with the number of parts it asks for, none of which has come back yet. */
  lemma InitiateExact(es: seq<Event>, open: Event)
    requires Valid(es + [open]) && open.Initiate?
    ensures Step(After(es), open).1 == Initiated(PartsOf(open))
    ensures Progress(es + [open], open.uploadId) == Some((0, PartsOf(open)))
  {
    BeginState(es, open);
    ProgressIsState(es + [open], open.uploadId);
  }

  /** What a part leaves that was sent, taken by the store and heard of, with nothing of others in between. */
  predicate Transferred(st: State, st': State, u: string, number: int, data: Bytes, etag: string)
    requires u in st.sessions && st.sessions[u].minioId in st.uploads
  {
    var s := st.sessions[u];
    var upload := st.uploads[s.minioId];
    st'.sessions == st.sessions[u := s.(completedParts := s.completedParts + [CompletedPart(number, etag, |data|)])] &&
    st'.uploads == st.uploads[s.minioId := upload[number := StoredPart(data, etag)]] &&
    st'.sending == st.sending && st'.putting == st.putting && u in st'.live
  }

  /**
   A part sent to an open session whose upload the store has is answered with its
   size; the store holds its bytes under its number and tag, and the session lists it.
   */
  lemma TransferExact(es: seq<Event>, u: string, number: int, data: Bytes, etag: string)
    requires Valid(es) && Known(After(es), u) && After(es).sessions[u].minioId in After(es).uploads
    requires 1 <= number <= After(es).sessions[u].partCount
    ensures var st := After(es);
            var sent := Step(Step(st, PutPart(u, Num(number), data)).0, PutArrives(|st.sending|, etag, true)).0;
            var (st', reply) := Step(sent, PutDone(|st.putting|));
            reply == PartStored(|data|) && Transferred(st, st', u, number, data, etag)
  {
    var st := After(es);
    var sent := PutStep(st, u, Num(number), data).0;
    assert sent.sending == st.sending + [Send(u, Num(number), data)];
    assert Without(sent.sending, |st.sending|) == st.sending;
    var there := ArriveStep(sent, |st.sending|, etag, true).0;
    assert there.putting == st.putting + [Put(u, CompletedPart(number, etag, |data|))];
    assert Without(there.putting, |st.putting|) == st.putting;
  }

  // ------------------------------------------- the round trip to the record

  /** None of the events opens an upload or brings a completion back. */
  predicate Between(es: seq<Event>) { forall i | 0 <= i < |es| :: !es[i].CompleteDone? && !es[i].Initiate? }

  lemma BetweenConcat(a: seq<Event>, b: seq<Event>)
    requires Between(a) && Between(b)
    ensures Between(a + b)
  {
  }

  lemma {:induction false} NoFinishNoRecord(es: seq<Event>, more: seq<Event>)
    requires forall i | 0 <= i < |more| :: !more[i].CompleteDone?
    ensures After(es + more).records == After(es).records
    decreases |more|
  {
    if more == [] {
      assert es + more == es;
    } else {
      var n := |more| - 1;
      NoFinishNoRecord(es, more[..n]);
      assert es + more == es + more[..n] + [more[n]];
      OneNoRecord(es + more[..n], more[n]);
    }
  }

  lemma OneNoRecord(es: seq<Event>, e: Event)
    requires !e.CompleteDone?
    ensures After(es + [e]).records == After(es).records
  {
    AfterSnoc(es, e);
    StepRecords(After(es), e);
  }

  lemma {:induction false} PutsFinishNothing(u: string, order: seq<int>, datas: seq<Bytes>, etags: seq<string>,
                                             sending: nat, putting: nat)
    requires |etags| == |datas| == |order|
    ensures Between(Puts(u, order, datas, etags, sending, putting))
  {
    if order != [] {
      var n := |order| - 1;
      PutsFinishNothing(u, order[..n], datas[..n], etags[..n], sending, putting);
      BetweenConcat(Puts(u, order[..n], datas[..n], etags[..n], sending, putting),
                    OnePut(u, order[n], datas[n], etags[n], sending, putting));
    }
  }

  /** One client's whole upload: open, send the parts in the order given, complete, and hear of it. */
  function WholeUpload(st: State, open: Event, order: seq<int>, datas: seq<Bytes>, etags: seq<string>): seq<Event>
    requires open.Initiate? && |etags| == |datas| == |order|
  {
    [open] + Puts(open.uploadId, order, datas, etags, |st.sending|, |st.putting|) + [Complete(open.uploadId)] +
    [Assemble(|st.assembling|, true)]
  }

  lemma UploadRegroups(es: seq<Event>, open: Event, puts: seq<Event>, c: Event, a: Event)
    ensures es + ([open] + puts + [c] + [a]) == (es + [open] + puts + [c]) + [a]
  {
  }

  /** After the whole list came back the completion goes out as the last assembly. */
  lemma GoesOut(es: seq<Event>, st: State, u: string, order: seq<int>)
    requires Known(st, u) && Listed(st, After(es), u, order) && |order| == st.sessions[u].partCount
    ensures var st' := After(es + [Complete(u)]);
            |st'.assembling| == |st.assembling| + 1 && st'.assembling[|st.assembling|].uploadId == u &&
            u in st'.sessions && st'.putting == st.putting
  {
    AfterSnoc(es, Complete(u));
    NumbersAt(After(es).sessions[u].completedParts);
  }

  /** The upload is joined to the file, unrecorded as yet, and its completion is on the way back. */
  predicate JoinedFile(st: State, joined: State, open: Event, file: Bytes)
    requires open.Initiate?
  {
    SessionOf(joined, open.uploadId, Some(open)) && open.uploadId in joined.completing &&
    joined.objects == st.objects[(open.bucket, open.key) := file] && joined.records == st.records
  }

  /**
   Cut a file, send each part once in any order, complete, whatever run came before:
   the object is the file, its record is the last, the client is told so, and the
   session is refused from then on.
   */
  lemma RoundTripRecorded(es: seq<Event>, open: Event, file: Bytes, order: seq<int>, datas: seq<Bytes>,
                          etags: seq<string>)
    requires Valid(es + [open]) && open.Initiate? && file != [] && open.totalSize == |file|
    requires forall i | 0 <= i < |es| :: Silent(es[i], open.uploadId)
    requires |order| == PartCount(|file|) == |etags| == |datas| && DistinctInts(order)
    requires forall i | 0 <= i < |order| :: 1 <= order[i] <= PartCount(|file|) && datas[i] == Cut(file, order[i])
    ensures var u, st := open.uploadId, After(es);
            var (st', reply) := Step(After(es + WholeUpload(st, open, order, datas, etags)), CompleteDone(u, true));
            reply == Completed && st'.objects == st.objects[(open.bucket, open.key) := file] &&
            st'.records == st.records + [Record(open.bucket, open.key, |file|)] && Refused(st', u)
  {
    UploadJoins(es, open, file, order, datas, etags);
    JoinedCompletes(After(es), After(es + WholeUpload(After(es), open, order, datas, etags)), open, file);
  }

  lemma JoinedCompletes(st: State, joined: State, open: Event, file: Bytes)
    requires open.Initiate? && open.totalSize == |file| && JoinedFile(st, joined, open, file)
    ensures var (st', reply) := Step(joined, CompleteDone(open.uploadId, true));
            reply == Completed && st'.objects == st.objects[(open.bucket, open.key) := file] &&
            st'.records == st.records + [Record(open.bucket, open.key, |file|)] && Refused(st', open.uploadId)
  {
    NotLiveIsRefused(Step(joined, CompleteDone(open.uploadId, true)).0, open.uploadId);
  }

  lemma UploadJoins(es: seq<Event>, open: Event, file: Bytes, order: seq<int>, datas: seq<Bytes>, etags: seq<string>)
    requires Valid(es + [open]) && open.Initiate? && file != [] && open.totalSize == |file|
    requires forall i | 0 <= i < |es| :: Silent(es[i], open.uploadId)
    requires |order| == PartCount(|file|) == |etags| == |datas| && DistinctInts(order)
    requires forall i | 0 <= i < |order| :: 1 <= order[i] <= PartCount(|file|) && datas[i] == Cut(file, order[i])
    ensures JoinedFile(After(es), After(es + WholeUpload(After(es), open, order, datas, etags)), open, file)
  {
    UploadObjects(es, open, file, order, datas, etags);
    UploadSession(es, open, order, datas, etags);
  }

  lemma UploadObjects(es: seq<Event>, open: Event, file: Bytes, order: seq<int>, datas: seq<Bytes>, etags: seq<string>)
    requires Valid(es + [open]) && open.Initiate? && file != [] && open.totalSize == |file|
    requires forall i | 0 <= i < |es| :: Silent(es[i], open.uploadId)
    requires |order| == PartCount(|file|) == |etags| == |datas| && DistinctInts(order)
    requires forall i | 0 <= i < |order| :: 1 <= order[i] <= PartCount(|file|) && datas[i] == Cut(file, order[i])
    ensures var joined := After(es + WholeUpload(After(es), open, order, datas, etags));
            open.uploadId in joined.completing && joined.objects == After(es).objects[(open.bucket, open.key) := file]
  {
    var u, begun, st := open.uploadId, es + [open], After(es);
    var puts := Puts(u, order, datas, etags, |st.sending|, |st.putting|);
    var run, assemble := begun + puts + [Complete(u)], Assemble(|st.assembling|, true);
    RoundTrip(es, open, file, order, datas, etags);
    BeginState(es, open);
    PutsArrive(begun, After(begun), u, order, datas, etags, |st.sending|, |st.putting|);
    GoesOut(begun + puts, After(begun), u, order);
    UploadRegroups(es, open, puts, Complete(u), assemble);
    AfterSnoc(run, assemble);
    JoinIsOnItsWay(After(run), |st.assembling|, u);
  }

  lemma UploadSession(es: seq<Event>, open: Event, order: seq<int>, datas: seq<Bytes>, etags: seq<string>)
    requires open.Initiate? && |etags| == |datas| == |order|
    ensures var joined := After(es + WholeUpload(After(es), open, order, datas, etags));
            joined.records == After(es).records && SessionOf(joined, open.uploadId, Some(open))
  {
    var u, st := open.uploadId, After(es);
    var puts := Puts(u, order, datas, etags, |st.sending|, |st.putting|);
    var more := puts + ([Complete(u)] + [Assemble(|st.assembling|, true)]);
    PutsFinishNothing(u, order, datas, etags, |st.sending|, |st.putting|);
    BetweenConcat(puts, [Complete(u)] + [Assemble(|st.assembling|, true)]);
    assert WholeUpload(st, open, order, datas, etags) == [open] + more;
    assert es + ([open] + more) == es + [open] + more;
    NoFinishNoRecord(es, [open] + more);
    OpeningStays(es, open, more);
    SessionIsOpened(es + [open] + more, u);
  }

  lemma JoinIsOnItsWay(st: State, i: nat, u: string)
    requires i < |st.assembling| && st.assembling[i].uploadId == u && u in st.sessions
    requires Step(st, Assemble(i, true)).1 == Waiting
    ensures u in Step(st, Assemble(i, true)).0.completing
  {
  }

  lemma {:induction false} OpeningStays(es: seq<Event>, open: Event, more: seq<Event>)
    requires open.Initiate? && Between(more)
    ensures Opening(es + [open] + more, open.uploadId) == Some(open)
    decreases |more|
  {
    var all := es + [open] + more;
    if more == [] {
      assert all == es + [open];
    } else {
      assert all[..|all| - 1] == es + [open] + more[..|more| - 1] && all[|all| - 1] == more[|more| - 1];
      OpeningStays(es, open, more[..|more| - 1]);
    }
  }
}
