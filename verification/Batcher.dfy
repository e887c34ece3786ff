/**
 The analytics consumer: events gather in a batch that is handed to the store
 when it reaches a thousand or when the timer fires, never while an earlier
 hand-over is still running.  A run interleaves messages, timer ticks,
 completions and the two halves of the shutdown in any order.
 */
module Batcher {
  import opened Wrappers

  const BATCH_LIMIT := 1000

  datatype Topic = RequestEvents | StorageEvents

  /** A message without a value, one that does not parse, or an event. */
  datatype Value<T> = Absent | Malformed | Parsed(event: T)

  /**
   How far the shutdown is: not begun, waiting for the flush it started, about to
   disconnect, disconnected.
   */
  datatype Stage = Running | Flushing | Leaving | Gone

  /**
   `ingesting` lists the hand-overs that have started and not completed,
   `settled` counts those that have; `handed` lists all of them in the order they started.
   */
  datatype State<T> = State(batch: seq<T>, isProcessing: bool, timer: bool, stage: Stage,
                            ingesting: seq<seq<T>>, settled: nat, handed: seq<seq<T>>)

  datatype Event<T> =
    | Message(topic: Topic, value: Value<T>)
    | Tick
    | Settle(index: nat)
    | Destroy
    | Disconnect

  function Start<T>(): State<T> { State([], false, true, Running, [], 0, []) }

  /** `flushBatch` up to its await. */
  function Flush<T>(st: State<T>): State<T> {
    if st.batch == [] || st.isProcessing then st else
      st.(batch := [], isProcessing := true,
          ingesting := st.ingesting + [st.batch], handed := st.handed + [st.batch])
  }

  /** The ingest a pending `flushBatch` waits for completes, well or badly; a shutdown waiting for it goes on. */
  function SettleStep<T>(st: State<T>, i: nat): State<T> {
    if i >= |st.ingesting| then st else
      st.(isProcessing := false, settled := st.settled + 1,
          stage := if st.stage == Flushing then Leaving else st.stage,
          ingesting := Without(st.ingesting, i))
  }

  /** A consumer that has disconnected gets no messages. */
  function MessageStep<T>(st: State<T>, topic: Topic, value: Value<T>): State<T> {
    if st.stage == Gone || !value.Parsed? || topic != RequestEvents then st else
      var pushed := st.(batch := st.batch + [value.event]);
      if |pushed.batch| >= BATCH_LIMIT then Flush(pushed) else pushed
  }

  /** `onModuleDestroy`, which is called once, up to the end of its flush or to the wait for it. */
  function DestroyStep<T>(st: State<T>): State<T> {
    if st.stage != Running then st else
      var flushed := Flush(st.(timer := false));
      flushed.(stage := if |flushed.handed| > |st.handed| then Flushing else Leaving)
  }

  function Step<T>(st: State<T>, e: Event<T>): State<T> {
    match e
    case Message(topic, value) => MessageStep(st, topic, value)
    case Tick => if st.timer then Flush(st) else st
    case Settle(i) => SettleStep(st, i)
    case Destroy => DestroyStep(st)
    case Disconnect => if st.stage == Leaving then st.(stage := Gone) else st
  }

  // ---------------------------------------------------------------- runs

  function Onward<T>(st: State<T>, es: seq<Event<T>>): State<T> {
    if es == [] then st else Step(Onward(st, es[..|es| - 1]), es[|es| - 1])
  }

  function After<T>(es: seq<Event<T>>): State<T> { Onward(Start(), es) }

  lemma {:induction false} OnwardConcat<T>(st: State<T>, a: seq<Event<T>>, b: seq<Event<T>>)
    ensures Onward(st, a + b) == Onward(Onward(st, a), b)
    decreases |b|
  {
    if b == [] {
      assert a + b == a;
    } else {
      OnwardConcat(st, a, b[..|b| - 1]);
      assert (a + b)[..|a + b| - 1] == a + b[..|b| - 1];
    }
  }

  lemma OnwardOne<T>(st: State<T>, e: Event<T>)
    ensures Onward(st, [e]) == Step(st, e)
  {
    assert [e][..0] == [];
  }

  /** The request event the step brings in, if it does. */
  function Arrival<T>(st: State<T>, e: Event<T>): seq<T> {
    if e.Message? && st.stage != Gone && e.topic == RequestEvents && e.value.Parsed? then [e.value.event] else []
  }

  /** The request events a run from `st` receives, in order. */
  function Arrivals<T>(st: State<T>, es: seq<Event<T>>): seq<T> {
    if es == [] then [] else
      var p := es[..|es| - 1];
      Arrivals(st, p) + Arrival(Onward(st, p), es[|es| - 1])
  }

  function Received<T>(es: seq<Event<T>>): seq<T> { Arrivals(Start(), es) }

  function Concat<T>(batches: seq<seq<T>>): seq<T> {
    if batches == [] then [] else Concat(batches[..|batches| - 1]) + batches[|batches| - 1]
  }

  lemma ConcatSnoc<T>(batches: seq<seq<T>>, b: seq<T>)
    ensures Concat(batches + [b]) == Concat(batches) + b
  {
    assert (batches + [b])[..|batches|] == batches;
  }

  /** Everything handed over, then the batch. */
  function Kept<T>(st: State<T>): seq<T> { Concat(st.handed) + st.batch }

  lemma FlushKeeps<T>(st: State<T>)
    ensures Kept(Flush(st)) == Kept(st)
  {
    ConcatSnoc(st.handed, st.batch);
  }

  lemma StepKeeps<T>(st: State<T>, e: Event<T>)
    ensures Kept(Step(st, e)) == Kept(st) + Arrival(st, e)
  {
    match e
    case Message(topic, value) =>
      if Arrival(st, e) != [] {
        var pushed := st.(batch := st.batch + [value.event]);
        assert Kept(pushed) == Kept(st) + Arrival(st, e);
        FlushKeeps(pushed);
      }
    case Tick => FlushKeeps(st);
    case Settle(_) =>
    case Destroy => FlushKeeps(st.(timer := false));
    case Disconnect =>
  }

  /**
   Under every interleaving the batches handed over, followed by the batch still
   gathering, are exactly the request events received, in order: none is lost
   and none is handed over twice.
   */
  lemma {:induction false} NothingLost<T>(es: seq<Event<T>>)
    ensures Concat(After(es).handed) + After(es).batch == Received(es)
  {
    if es != [] {
      NothingLost(es[..|es| - 1]);
      StepKeeps(After(es[..|es| - 1]), es[|es| - 1]);
    }
  }

  /**
   At most one hand-over is running, the flag says whether one is, every hand-over
   is running or settled, none is empty, and a shutdown that waits for its flush
   waits for the one that is running.
   */
  ghost predicate OneRunning<T>(st: State<T>) {
    |st.ingesting| == (if st.isProcessing then 1 else 0) &&
    |st.handed| == st.settled + |st.ingesting| &&
    (st.isProcessing ==> st.ingesting[0] == st.handed[|st.handed| - 1]) &&
    (st.stage == Flushing ==> st.isProcessing) && (st.timer <==> st.stage == Running) &&
    forall i | 0 <= i < |st.handed| :: |st.handed[i]| > 0
  }

  lemma FlushOneRunning<T>(st: State<T>)
    requires OneRunning(st)
    ensures OneRunning(Flush(st)) && Flush(st).stage == st.stage && Flush(st).timer == st.timer
  {
  }

  lemma StepOneRunning<T>(st: State<T>, e: Event<T>)
    requires OneRunning(st)
    ensures OneRunning(Step(st, e))
  {
    match e
    case Message(topic, value) => MessageOneRunning(st, topic, value);
    case Tick => FlushOneRunning(st);
    case Settle(i) => SettleOneRunning(st, i);
    case Destroy => DestroyOneRunning(st);
    case Disconnect =>
  }

  lemma MessageOneRunning<T>(st: State<T>, topic: Topic, value: Value<T>)
    requires OneRunning(st)
    ensures OneRunning(MessageStep(st, topic, value))
  {
    if value.Parsed? { FlushOneRunning(st.(batch := st.batch + [value.event])); }
  }

  lemma SettleOneRunning<T>(st: State<T>, i: nat)
    requires OneRunning(st)
    ensures OneRunning(SettleStep(st, i))
  {
  }

  lemma DestroyOneRunning<T>(st: State<T>)
    requires OneRunning(st)
    ensures OneRunning(DestroyStep(st))
  {
  }

  /** So it is in every reachable state. */
  lemma {:induction false} OneAtATime<T>(es: seq<Event<T>>)
    ensures OneRunning(After(es))
  {
    if es != [] {
      OneAtATime(es[..|es| - 1]);
      StepOneRunning(After(es[..|es| - 1]), es[|es| - 1]);
    }
  }

  /**
   A timer tick with no hand-over running gets everything received so far handed over.
   */
  lemma TickCatchesUp<T>(es: seq<Event<T>>)
    requires After(es).timer && !After(es).isProcessing
    ensures Concat(After(es + [Tick]).handed) == Received(es) && After(es + [Tick]).batch == []
  {
    var all := es + [Tick];
    assert all[..|es|] == es;
    NothingLost(all);
    assert Concat(After(all).handed) + [] == Concat(After(all).handed);
    assert Received(es) + [] == Received(es);
  }

  lemma AfterSnoc<T>(es: seq<Event<T>>, e: Event<T>)
    ensures After(es + [e]) == Step(After(es), e) && Received(es + [e]) == Received(es) + Arrival(After(es), e)
  {
    assert (es + [e])[..|es|] == es;
  }

  /**
   A request event joins the batch; when that makes a thousand and no hand-over is
   running, timer or no timer, the whole batch is handed over at once, and otherwise
   nothing is.  Any other message, and any after the disconnect, changes nothing.
   */
  lemma MessageExact<T>(es: seq<Event<T>>, topic: Topic, value: Value<T>)
    ensures var st, after := After(es), After(es + [Message(topic, value)]);
            if st.stage == Gone || topic != RequestEvents || !value.Parsed? then after == st
            else
              var batch := st.batch + [value.event];
              if |batch| >= 1000 && |st.ingesting| == 0 then
                after == st.(batch := [], isProcessing := true, ingesting := [batch], handed := st.handed + [batch])
              else after == st.(batch := batch)
  {
    AfterSnoc(es, Message(topic, value));
    OneAtATime(es);
  }

  /**
   Until the shutdown, whatever has been received is handed over once the running
   hand-over, if there is one, has ended and the timer has fired.
   */
  lemma SettledThenTick<T>(es: seq<Event<T>>)
    requires After(es).stage == Running
    ensures var all := es + [Settle(0)] + [Tick];
            Concat(After(all).handed) == Received(es) && After(all).batch == []
  {
    OneAtATime(es);
    AfterSnoc(es, Settle(0));
    assert Received(es) + [] == Received(es);
    TickCatchesUp(es + [Settle(0)]);
  }

  // ------------------------------------------- what a shutdown leaves behind

  /**
   No event arrived and none was waiting, or the last one to arrive filled the
   batch while no hand-over was running.
   */
  predicate Cleared<T>(st: State<T>, es: seq<Event<T>>) {
    if es == [] then |st.batch| == 0 else
      var p, e := es[..|es| - 1], es[|es| - 1];
      var s := Onward(st, p);
      if |Arrival(s, e)| == 0 then Cleared(st, p) else !s.isProcessing && |s.batch| + 1 >= BATCH_LIMIT
  }

  /** With the timer cleared an event changes the batch only by arriving and by filling it. */
  lemma StepWithoutTimer<T>(st: State<T>, e: Event<T>)
    requires !st.timer && st.stage != Running
    ensures var after := Step(st, e);
            !after.timer && after.stage != Running &&
            if Arrival(st, e) == [] then after.batch == st.batch
            else if !st.isProcessing && |st.batch| + 1 >= BATCH_LIMIT then after.batch == []
            else after.batch == st.batch + Arrival(st, e)
  {
  }

  /** Once the timer is cleared only a full batch is handed over, and the batch is empty exactly when `Cleared`. */
  lemma {:induction false} WithoutTimer<T>(st: State<T>, es: seq<Event<T>>)
    requires !st.timer && st.stage != Running
    ensures !Onward(st, es).timer && Onward(st, es).stage != Running
    ensures |Onward(st, es).batch| == 0 <==> Cleared(st, es)
  {
    if es != [] {
      var p, e := es[..|es| - 1], es[|es| - 1];
      WithoutTimer(st, p);
      StepWithoutTimer(Onward(st, p), e);
    }
  }

  lemma {:induction false} FewArrivalsStay<T>(st: State<T>, es: seq<Event<T>>)
    requires !st.timer && st.stage != Running && |st.batch| + |Arrivals(st, es)| < BATCH_LIMIT
    ensures Onward(st, es).batch == st.batch + Arrivals(st, es)
  {
    if es == [] {
      assert st.batch + [] == st.batch;
    } else {
      var p, e := es[..|es| - 1], es[|es| - 1];
      var s, a := Onward(st, p), Arrival(Onward(st, p), e);
      FewArrivalsStay(st, p);
      WithoutTimer(st, p);
      StepWithoutTimer(s, e);
      assert st.batch + (Arrivals(st, p) + a) == s.batch + a;
      assert s.batch + [] == s.batch;
    }
  }

  /** What the flush of the shutdown could not hand over. */
  function Behind<T>(st: State<T>): seq<T> { if st.isProcessing then st.batch else [] }

  /**
   A shutdown leaves nothing behind when it disconnects if and only if its flush had
   nothing to leave and no event arrived after it, or the last that did filled the
   batch while no hand-over was running.  Short of a full batch it leaves behind
   exactly what its flush left and what arrived after it.
   */
  lemma ShutdownExact<T>(es: seq<Event<T>>, later: seq<Event<T>>)
    requires After(es).stage == Running && Onward(DestroyStep(After(es)), later).stage == Leaving
    ensures var began, gone := DestroyStep(After(es)), After(es + [Destroy] + later + [Disconnect]);
            gone.stage == Gone &&
            (gone.batch == [] <==> Cleared(began, later)) &&
            (gone.batch == [] <==> Concat(gone.handed) == Received(es + [Destroy] + later)) &&
            (|Behind(After(es))| + |Arrivals(began, later)| < BATCH_LIMIT ==>
              gone.batch == Behind(After(es)) + Arrivals(began, later))
  {
    var run := es + [Destroy] + later;
    ShutdownRun(es, later);
    DestroyLeaves(After(es));
    WithoutTimer(DestroyStep(After(es)), later);
    if |Behind(After(es))| + |Arrivals(DestroyStep(After(es)), later)| < BATCH_LIMIT {
      FewArrivalsStay(DestroyStep(After(es)), later);
    }
    NothingLost(run);
    EmptyExactly(After(run), Received(run));
    DisconnectKeeps(After(run));
  }

  lemma DestroyLeaves<T>(st: State<T>)
    requires st.stage == Running
    ensures var began := DestroyStep(st);
            began.batch == Behind(st) && !began.timer && began.stage != Running
  {
  }

  lemma DisconnectKeeps<T>(st: State<T>)
    ensures Step(st, Disconnect).batch == st.batch && Step(st, Disconnect).handed == st.handed
    ensures st.stage == Leaving ==> Step(st, Disconnect).stage == Gone
  {
  }

  lemma EmptyExactly<T>(st: State<T>, received: seq<T>)
    requires Concat(st.handed) + st.batch == received
    ensures st.batch == [] <==> Concat(st.handed) == received
  {
    assert |Concat(st.handed)| + |st.batch| == |received|;
    assert Concat(st.handed) + [] == Concat(st.handed);
  }

  lemma ShutdownRun<T>(es: seq<Event<T>>, later: seq<Event<T>>)
    ensures After(es + [Destroy] + later) == Onward(DestroyStep(After(es)), later)
    ensures After(es + [Destroy] + later + [Disconnect]) == Step(After(es + [Destroy] + later), Disconnect)
  {
    OnwardConcat(Start(), es, [Destroy]);
    OnwardOne(After(es), Destroy);
    OnwardConcat(Start(), es + [Destroy], later);
    OnwardConcat(Start(), es + [Destroy] + later, [Disconnect]);
    OnwardOne(After(es + [Destroy] + later), Disconnect);
  }

  /** After it has disconnected nothing changes the batch: what is left then is left for good. */
  lemma {:induction false} LeftForGood<T>(st: State<T>, es: seq<Event<T>>)
    requires st.stage == Gone && !st.timer
    ensures var after := Onward(st, es);
            after.stage == Gone && !after.timer && after.batch == st.batch && after.handed == st.handed
  {
    if es != [] { LeftForGood(st, es[..|es| - 1]); }
  }

  lemma OnwardFirst<T>(st: State<T>, e: Event<T>, es: seq<Event<T>>)
    ensures Onward(st, [e] + es) == Onward(Step(st, e), es)
  {
    OnwardConcat(st, [e], es);
    OnwardOne(st, e);
  }

  /** An event that comes while the shutdown waits for its flush is left behind, though no hand-over was running. */
  lemma ArrivalIsLeft<T>(a: T, b: T)
    ensures var came, later := Message(RequestEvents, Parsed(a)), Message(RequestEvents, Parsed(b));
            var left := After([came] + ([Destroy] + ([later] + ([Settle(0)] + [Disconnect]))));
            left.stage == Gone && left.batch == [b] && left.ingesting == []
  {
    var came, later := Message(RequestEvents, Parsed(a)), Message(RequestEvents, Parsed(b));
    var one := Start<T>().(batch := [a]);
    var two := State([], true, false, Flushing, [[a]], 0, [[a]]);
    var three := two.(batch := [b]);
    var four := State([b], false, false, Leaving, [], 1, [[a]]);
    assert Step(Start(), came) == one by { assert [] + [a] == [a]; }
    assert Step(one, Destroy) == two by { assert [] + [[a]] == [[a]]; }
    assert Step(two, later) == three by { assert [] + [b] == [b]; }
    assert Step(three, Settle(0)) == four by { assert [[a]][..0] + [[a]][1..] == []; }
    OnwardFirst(Start(), came, [Destroy] + ([later] + ([Settle(0)] + [Disconnect])));
    OnwardFirst(one, Destroy, [later] + ([Settle(0)] + [Disconnect]));
    OnwardFirst(two, later, [Settle(0)] + [Disconnect]);
    OnwardFirst(three, Settle(0), [Disconnect]);
    OnwardOne(four, Disconnect);
  }

  // ---------------------------------------------------------------- the service

  class KafkaConsumer<T(==)> {
    var batch: seq<T>
    var isProcessing: bool
    var timer: bool
    var stage: Stage
    /** The calls to `ingestEventBatch`. */
    var ingesting: seq<seq<T>>
    var settled: nat
    var handed: seq<seq<T>>

    function Contents(): State<T>
      reads this
    {
      State(batch, isProcessing, timer, stage, ingesting, settled, handed)
    }

    constructor ()
      ensures Contents() == Start()
    {
      batch, isProcessing, timer, stage, ingesting, settled, handed := [], false, true, Running, [], 0, [];
    }

    method FlushBatch()
      modifies this
      ensures Contents() == Flush(old(Contents()))
    {
      if |batch| == 0 || isProcessing { return; }
      isProcessing := true;
      var currentBatch := batch;
      batch := [];
      ingesting, handed := ingesting + [currentBatch], handed + [currentBatch];
    }

    method EachMessage(topic: Topic, value: Value<T>)
      requires stage != Gone
      modifies this
      ensures Contents() == MessageStep(old(Contents()), topic, value)
    {
      if value.Parsed? && topic == RequestEvents {
        batch := batch + [value.event];
        if |batch| >= BATCH_LIMIT {
          FlushBatch();
        }
      }
    }

    method OnTimer()
      modifies this
      ensures Contents() == Step(old(Contents()), Tick)
    {
      if timer { FlushBatch(); }
    }

    /** The `finally` of the flush that started hand-over i. */
    method OnSettled(i: nat)
      modifies this
      ensures Contents() == SettleStep(old(Contents()), i)
    {
      if i < |ingesting| {
        isProcessing, settled := false, settled + 1;
        if stage == Flushing { stage := Leaving; }
        ingesting := ingesting[..i] + ingesting[i + 1..];
      }
    }

    /** `onModuleDestroy` up to the wait for its flush. */
    method OnModuleDestroy()
      requires stage == Running
      modifies this
      ensures Contents() == Step(old(Contents()), Destroy)
    {
      timer := false;
      var started := |handed|;
      FlushBatch();
      stage := if |handed| > started then Flushing else Leaving;
    }

    /** The rest of it: the consumer has disconnected. */
    method OnDisconnected()
      requires stage == Leaving
      modifies this`stage
      ensures Contents() == Step(old(Contents()), Disconnect)
    {
      stage := Gone;
    }
  }
}
