/** The admission loop exactly as src/main.rs writes it: a retried admission failure adds one
    to the accumulator INSIDE the loop, so it is admitted again in the same loop. The loop has
    no bound, so it is modelled with fuel: `None` means "still looping after `fuel` turns". */
module AdmissionAsWritten {
  import opened Options
  import opened Requests
  import opened Engine
  import opened EngineProperties

  function AdmitLoopAsWritten(st: SimState, cfg: Config, o: Oracle, fuel: nat): Option<SimState>
    decreases fuel
  {
    if st.incoming <= 0 then
      Some(st)
    else if fuel == 0 then
      None
    else
      var a := AdmitOne(st, cfg, o);
      var back := a.state.(incoming := a.state.incoming + if a.retry then 1 else 0);
      AdmitLoopAsWritten(back, cfg, o, fuel - 1)
  }

  /** Whenever the loop as written ends, it has kept the invariant, so the queue bound and
      conservation hold for the program's own loop too; failures only grew. */
  lemma {:induction false} AsWrittenKeepsInv(st: SimState, cfg: Config, o: Oracle, fuel: nat)
    requires Inv(st, cfg)
    ensures var r := AdmitLoopAsWritten(st, cfg, o, fuel);
      r.Some? ==> Inv(r.value, cfg) && r.value.failed >= st.failed && r.value.succeeded == st.succeeded
    decreases fuel
  {
    if st.incoming > 0 && fuel > 0 {
      var a := AdmitOne(st, cfg, o);
      AdmitOneInv(st, cfg, o);
      var back := a.state.(incoming := a.state.incoming + if a.retry then 1 else 0);
      AsWrittenKeepsInv(back, cfg, o, fuel - 1);
    }
  }

  /** Whenever the loop as written ends, the accumulator is drained to its non-positive
      remainder, and the loop created one request per whole unit plus one more for every
      admission failure that drew a retry. */
  lemma {:induction false} AsWrittenCreates(st: SimState, cfg: Config, o: Oracle, fuel: nat)
    ensures var r := AdmitLoopAsWritten(st, cfg, o, fuel);
      r.Some? ==>
        && r.value.failed >= st.failed
        && r.value.incoming == Min0(st.incoming)
        && r.value.total == st.total + Monus(st.incoming, 0) + Retries(o.retry, st.failed, r.value.failed)
    decreases fuel
  {
    if st.incoming > 0 && fuel > 0 {
      var a := AdmitOne(st, cfg, o);
      var back := a.state.(incoming := a.state.incoming + if a.retry then 1 else 0);
      AsWrittenCreates(back, cfg, o, fuel - 1);
    }
  }

  /** One tick with the admission loop as written: aging and arrivals, then that loop (at most
      `fuel` turns; `None` while it still runs), then the pass over the workers. */
  function TickAsWritten(st: SimState, cfg: Config, o: Oracle, t: nat, fuel: nat): Option<SimState>
  {
    var aged := st.(queue := Age(st.queue), incoming := st.incoming + o.arrivals(t));
    match AdmitLoopAsWritten(aged, cfg, o, fuel)
    case None => None
    case Some(admitted) => Some(AdvanceFrom(admitted, cfg, o, 0))
  }

  /** Whenever a tick as written ends, it has kept the invariant (so the queue stays within its
      bound), neither counter went down, and it created at least the whole units of the
      accumulator after the tick's arrivals. */
  lemma TickAsWrittenInv(st: SimState, cfg: Config, o: Oracle, t: nat, fuel: nat)
    requires Inv(st, cfg)
    ensures var r := TickAsWritten(st, cfg, o, t, fuel);
      r.Some? ==>
        && Inv(r.value, cfg)
        && r.value.failed >= st.failed
        && r.value.total >= st.total + Monus(st.incoming + o.arrivals(t), 0)
  {
    var aged := st.(queue := Age(st.queue), incoming := st.incoming + o.arrivals(t));
    AgeAt(st.queue);
    assert Inv(aged, cfg);
    AsWrittenKeepsInv(aged, cfg, o, fuel);
    AsWrittenCreates(aged, cfg, o, fuel);
    var admitted := AdmitLoopAsWritten(aged, cfg, o, fuel);
    if admitted.Some? {
      AdvanceFacts(admitted.value, cfg, o, 0);
    }
  }

  /** Every worker busy and the queue full. */
  predicate Saturated(st: SimState, cfg: Config)
  {
    (forall j :: 0 <= j < |st.workers| ==> st.workers[j].Some?) && |st.queue| >= cfg.queueSize
  }

  /** With retry probability 1, once every worker is busy and the queue is full, a positive
      accumulator never empties: each turn fails the request and puts it straight back, and
      nothing inside the loop frees a worker or a queue slot. The loop never ends, for any
      amount of fuel. */
  lemma {:induction false} SaturatedAlwaysRetryNeverEnds(st: SimState, cfg: Config, o: Oracle, fuel: nat)
    requires Saturated(st, cfg) && st.incoming > 0
    requires forall k :: o.retry(k)
    ensures AdmitLoopAsWritten(st, cfg, o, fuel) == None
    decreases fuel
  {
    if fuel > 0 {
      var a := AdmitOne(st, cfg, o);
      assert Place(st.workers, |st.queue|, cfg.queueSize).Rejected?;
      var back := a.state.(incoming := a.state.incoming + 1);
      assert back.incoming == st.incoming && Saturated(back, cfg);
      SaturatedAlwaysRetryNeverEnds(back, cfg, o, fuel - 1);
    }
  }

  /** A concrete run that hangs: one busy worker, no queue, one arrival, every failure retried. */
  lemma OneWorkerNoQueueHangs(fuel: nat)
    ensures var cfg := Config(1, 1000, 1000, 0, false, false);
      var o := Oracle(_ => 1, _ => 500, _ => true);
      var st := SimState([Some(Request(10, 1000))], [], 0, 1, 0, 0, 1);
      AdmitLoopAsWritten(st, cfg, o, fuel) == None
  {
    var cfg := Config(1, 1000, 1000, 0, false, false);
    var o := Oracle(_ => 1, _ => 500, _ => true);
    var st := SimState([Some(Request(10, 1000))], [], 0, 1, 0, 0, 1);
    SaturatedAlwaysRetryNeverEnds(st, cfg, o, fuel);
  }

  /** The two loops differ as soon as an admission failure draws a retry, whatever the retry
      probability: with one busy worker, no queue and one pending unit, a first failure that is
      retried and a second that is not, the loop as written creates two requests in this tick,
      while the corrected loop creates one and leaves the retried one for the next tick. */
  lemma OneRetryDiverges()
    ensures var cfg := Config(1, 1000, 1000, 0, false, false);
      var o := Oracle(_ => 1, _ => 500, k => k == 0);
      var st := SimState([Some(Request(10, 1000))], [], 0, 1, 0, 0, 1);
      && AdmitLoopAsWritten(st, cfg, o, 2) == Some(st.(failed := 2, total := 3, incoming := 0))
      && AdmitLoop(st, cfg, o, 0) == st.(failed := 1, total := 2, incoming := 1)
  {
    var cfg := Config(1, 1000, 1000, 0, false, false);
    var o := Oracle(_ => 1, _ => 500, k => k == 0);
    var st := SimState([Some(Request(10, 1000))], [], 0, 1, 0, 0, 1);
    assert Place(st.workers, 0, 0) == Rejected;
    // First turn: the admission fails and draws a retry.
    var first := st.(failed := 1, total := 2, incoming := 0);
    assert AdmitOne(st, cfg, o) == Admitted(first, true);
    // As written, the retried unit is admitted again at once and fails without a retry.
    var again := first.(incoming := 1);
    assert Place(again.workers, 0, 0) == Rejected;
    assert AdmitOne(again, cfg, o) == Admitted(st.(failed := 2, total := 3, incoming := 0), false);
    // Corrected, the loop ends and the retried unit waits for the next tick.
    assert AdmitLoop(st, cfg, o, 0) == AdmitLoop(first, cfg, o, 1);
  }

  /** When no failure is retried the two loops agree: the correction only changes when a
      retried admission failure is admitted again. */
  lemma {:induction false} AsWrittenAgreesWithoutRetry(st: SimState, cfg: Config, o: Oracle, fuel: nat)
    requires forall k :: !o.retry(k)
    requires fuel >= st.incoming
    ensures AdmitLoopAsWritten(st, cfg, o, fuel) == Some(AdmitLoop(st, cfg, o, 0))
    decreases fuel
  {
    if st.incoming > 0 {
      var a := AdmitOne(st, cfg, o);
      assert !a.retry;
      AsWrittenAgreesWithoutRetry(a.state, cfg, o, fuel - 1);
    }
  }
}
