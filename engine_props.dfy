/** What the engine promises, proved about the functions of module Engine. */
module EngineProperties {
  import opened Options
  import opened Requests
  import opened Workers
  import opened Engine

  /** Aging keeps the queue's length and order and gives each request one waiting tick. */
  lemma {:induction false} AgeAt(q: seq<Request>)
    ensures |Age(q)| == |q|
    ensures forall i :: 0 <= i < |q| ==> Age(q)[i] == q[i].WaitingTick()
  {
    if q != [] {
      AgeAt(q[1..]);
    }
  }

  lemma {:induction false} BusyUpdate(slots: seq<Option<Request>>, i: nat, x: Option<Request>)
    requires i < |slots|
    ensures Busy(slots[i := x]) + (if slots[i].Some? then 1 else 0)
         == Busy(slots) + (if x.Some? then 1 else 0)
  {
    if i > 0 {
      assert slots[i := x][1..] == slots[1..][i - 1 := x];
      BusyUpdate(slots[1..], i - 1, x);
    } else {
      assert slots[i := x][1..] == slots[1..];
    }
  }

  lemma {:induction false} BusyAllIdle(n: nat)
    ensures Busy(seq(n, _ => None)) == 0
  {
    if n > 0 {
      var idle: seq<Option<Request>> := seq(n, _ => None);
      assert idle[1..] == seq(n - 1, _ => None);
      BusyAllIdle(n - 1);
    }
  }

  /** A run starts in a state that satisfies the invariant. */
  lemma InitialInv(cfg: Config)
    ensures Inv(Initial(cfg), cfg)
  {
    BusyAllIdle(cfg.numWorkers);
  }

  lemma {:induction false} RetriesAdd(retry: nat -> bool, a: nat, b: nat, c: nat)
    requires a <= b <= c
    ensures Retries(retry, a, c) == Retries(retry, a, b) + Retries(retry, b, c)
    decreases b - a
  {
    if a < b {
      RetriesAdd(retry, a + 1, b, c);
    }
  }

  /** With retry probability 0, no failure is retried. */
  lemma {:induction false} RetriesNone(retry: nat -> bool, a: nat, b: nat)
    requires forall k :: !retry(k)
    ensures Retries(retry, a, b) == 0
    decreases b - a
  {
    if a < b {
      RetriesNone(retry, a + 1, b);
    }
  }

  /** With retry probability 1, every failure is retried. */
  lemma {:induction false} RetriesAll(retry: nat -> bool, a: nat, b: nat)
    requires forall k :: retry(k)
    requires a <= b
    ensures Retries(retry, a, b) == b - a
    decreases b - a
  {
    if a < b {
      RetriesAll(retry, a + 1, b);
    }
  }

  /** One admission keeps the invariant: the request is counted once and lands in exactly
      one place (a worker, the queue, or the failures), and the queue grows only below its
      bound. */
  lemma AdmitOneInv(st: SimState, cfg: Config, o: Oracle)
    requires Inv(st, cfg)
    ensures Inv(AdmitOne(st, cfg, o).state, cfg)
  {
    var a := AdmitOne(st, cfg, o);
    match Place(st.workers, |st.queue|, cfg.queueSize)
    case ToWorker(i) =>
      BusyUpdate(st.workers, i, Some(NewRequest(st, cfg, o)));
    case ToQueue =>
    case Rejected =>
  }

  /** The admission loop ends for every retry oracle, after creating exactly one request per
      whole unit in the accumulator; it keeps the invariant; every failure it counts drew one
      retry, and the retried ones are left in the accumulator for the next tick. */
  lemma {:induction false} AdmitLoopFacts(st: SimState, cfg: Config, o: Oracle, retried: nat)
    requires Inv(st, cfg)
    ensures var r := AdmitLoop(st, cfg, o, retried);
      && Inv(r, cfg)
      && r.total == st.total + Monus(st.incoming, 0)
      && r.failed >= st.failed
      && r.succeeded == st.succeeded
      && r.incoming == Min0(st.incoming) + retried + Retries(o.retry, st.failed, r.failed)
    decreases if st.incoming > 0 then st.incoming else 0
  {
    if st.incoming > 0 {
      var a := AdmitOne(st, cfg, o);
      AdmitOneInv(st, cfg, o);
      AdmitLoopFacts(a.state, cfg, o, retried + if a.retry then 1 else 0);
    }
  }

  /** The counting rule for one worker: it gets one `Worker::tick`, nothing else changes
      in the pool or the queue, and a request it hands back adds one to the failures exactly
      when its timeout counter is zero (otherwise it finished in time); only such a failure
      can put a retry into the accumulator. */
  lemma CompletionCounting(st: SimState, cfg: Config, o: Oracle, i: nat)
    requires i < |st.workers|
    ensures var t := WorkerTick(st.workers[i], st.queue, cfg.lifo);
      var r := StepWorker(st, cfg, o, i);
      && r.workers == st.workers[i := t.slot] && r.queue == t.queue
      && r.total == st.total && r.spike == st.spike
      && (r.failed == st.failed + 1 <==> t.finished.Some? && t.finished.value.IsTimedOut())
      && (r.succeeded == st.succeeded + 1 <==> t.finished.Some? && !t.finished.value.IsTimedOut())
      && r.failed <= st.failed + 1 && r.succeeded <= st.succeeded + 1
      && r.incoming == st.incoming + (if r.failed > st.failed && o.retry(st.failed) then 1 else 0)
  {
  }

  /** Advancing one worker keeps the invariant and the count of created requests, and only
      moves the failure and success counters up; a timed-out completion adds its retry. */
  lemma StepWorkerFacts(st: SimState, cfg: Config, o: Oracle, i: nat)
    requires Inv(st, cfg) && i < |st.workers|
    ensures var r := StepWorker(st, cfg, o, i);
      && Inv(r, cfg)
      && r.total == st.total && r.spike == st.spike
      && r.failed >= st.failed && r.succeeded >= st.succeeded
      && r.incoming == st.incoming + Retries(o.retry, st.failed, r.failed)
  {
    var t := WorkerTick(st.workers[i], st.queue, cfg.lifo);
    BusyUpdate(st.workers, i, t.slot);
  }

  lemma {:induction false} AdvanceFacts(st: SimState, cfg: Config, o: Oracle, i: nat)
    requires Inv(st, cfg) && i <= |st.workers|
    ensures var r := AdvanceFrom(st, cfg, o, i);
      && Inv(r, cfg)
      && r.total == st.total && r.spike == st.spike
      && r.failed >= st.failed && r.succeeded >= st.succeeded
      && r.incoming == st.incoming + Retries(o.retry, st.failed, r.failed)
    decreases |st.workers| - i
  {
    if i < |st.workers| {
      var s := StepWorker(st, cfg, o, i);
      StepWorkerFacts(st, cfg, o, i);
      AdvanceFacts(s, cfg, o, i + 1);
      RetriesAdd(o.retry, st.failed, s.failed, AdvanceFrom(s, cfg, o, i + 1).failed);
    }
  }

  /** One tick keeps the invariant (in particular the queue bound); it creates exactly the
      whole units of the accumulator after the tick's arrivals; the counters never go down;
      and what is left in the accumulator is the non-positive remainder plus one unit per
      failure of this tick that drew a retry. */
  lemma TickFacts(st: SimState, cfg: Config, o: Oracle, t: nat)
    requires Inv(st, cfg)
    ensures var r := Tick(st, cfg, o, t);
      && Inv(r, cfg)
      && r.total == st.total + Monus(st.incoming + o.arrivals(t), 0)
      && r.failed >= st.failed && r.succeeded >= st.succeeded
      && r.incoming == Min0(st.incoming + o.arrivals(t)) + Retries(o.retry, st.failed, r.failed)
  {
    var aged := st.(queue := Age(st.queue), incoming := st.incoming + o.arrivals(t));
    AgeAt(st.queue);
    var admitted := AdmitLoop(aged, cfg, o, 0);
    AdmitLoopFacts(aged, cfg, o, 0);
    AdvanceFacts(admitted, cfg, o, 0);
    RetriesAdd(o.retry, st.failed, admitted.failed, AdvanceFrom(admitted, cfg, o, 0).failed);
  }

  /** Iterating `n + 1` steps is iterating `n` steps and then taking one more. */
  lemma {:induction false} IterateSnoc<S>(step: (S, nat) -> S, s: S, t: nat, n: nat)
    ensures Iterate(step, s, t, n + 1) == step(Iterate(step, s, t, n), t + n)
    decreases n
  {
    if n > 0 {
      IterateSnoc(step, step(s, t), t + 1, n - 1);
    }
  }

  /** The state after tick `n` is tick `n` applied to the state before it. */
  lemma RunStep(cfg: Config, o: Oracle, n: nat)
    ensures Run(cfg, o, n + 1) == Tick(Run(cfg, o, n), cfg, o, n)
  {
    IterateSnoc((s: SimState, k: nat) => Tick(s, cfg, o, k), Initial(cfg), 0, n);
  }

  /** From any state that satisfies the invariant, the rest of a run keeps it, and the
      failure and total counters end no lower than they are now. */
  lemma {:induction false} RunFromGrows(st: SimState, cfg: Config, o: Oracle, t: nat, n: nat)
    requires Inv(st, cfg)
    ensures var r := RunFrom(st, cfg, o, t, n);
      Inv(r, cfg) && st.failed <= r.failed && st.total <= r.total
    decreases n
  {
    if n > 0 {
      TickFacts(st, cfg, o, t);
      RunFromGrows(Tick(st, cfg, o, t), cfg, o, t + 1, n - 1);
    }
  }

  /** Every state a run reaches satisfies the invariant. */
  lemma RunInv(cfg: Config, o: Oracle, n: nat)
    ensures Inv(Run(cfg, o, n), cfg)
  {
    InitialInv(cfg);
    RunFromGrows(Initial(cfg), cfg, o, 0, n);
  }

  /** The spike rule: the request with creation index `k` gets the 10x latency exactly when
      `k` is below the budget, so exactly the first min(budget, created) requests do. */
  lemma SpikedExactlyTheFirst(st: SimState, cfg: Config, o: Oracle)
    requires Inv(st, cfg)
    ensures NewRequest(st, cfg, o).remaining
         == ExecutionTime(st.total < SpikeBudget(cfg), o.latencyTenths(st.total))
  {
  }

  /** With retry probability 0 nothing is ever put back into the accumulator: after a tick
      it holds only the non-positive remainder of the arrivals. */
  lemma NoRetryNoReinjection(st: SimState, cfg: Config, o: Oracle, t: nat)
    requires Inv(st, cfg)
    requires forall k :: !o.retry(k)
    ensures Tick(st, cfg, o, t).incoming == Min0(st.incoming + o.arrivals(t))
  {
    TickFacts(st, cfg, o, t);
    RetriesNone(o.retry, st.failed, Tick(st, cfg, o, t).failed);
  }

  /** With retry probability 1 every failure of a tick comes back as one arrival. */
  lemma AlwaysRetryReinjectsEveryFailure(st: SimState, cfg: Config, o: Oracle, t: nat)
    requires Inv(st, cfg)
    requires forall k :: o.retry(k)
    ensures var r := Tick(st, cfg, o, t);
      r.incoming == Min0(st.incoming + o.arrivals(t)) + (r.failed - st.failed)
  {
    TickFacts(st, cfg, o, t);
    RetriesAll(o.retry, st.failed, Tick(st, cfg, o, t).failed);
  }

  /** Two states that agree on everything the workers' pass looks at when it decides what
      finishes: the counters, the queue's length, which workers are busy, and the exact
      requests of the workers not yet advanced (from index `i` on). */
  ghost predicate SamePass(a: SimState, b: SimState, i: nat)
  {
    && a.failed == b.failed && a.total == b.total && a.succeeded == b.succeeded
    && a.spike == b.spike && a.incoming == b.incoming
    && |a.queue| == |b.queue| && |a.workers| == |b.workers|
    && (forall j :: 0 <= j < |a.workers| ==> (a.workers[j].Some? <==> b.workers[j].Some?))
    && (forall j :: i <= j < |a.workers| ==> a.workers[j] == b.workers[j])
  }

  /** FIFO against LIFO: from the same state, a pass over the workers finishes the same
      requests and takes as many from the queue under either discipline; only which queued
      requests are taken differs. */
  lemma {:induction false} DisciplineOnlyChoosesWhich(a: SimState, b: SimState, cfg: Config, o: Oracle, i: nat)
    requires SamePass(a, b, i) && i <= |a.workers|
    ensures SamePass(AdvanceFrom(a, cfg, o, i), AdvanceFrom(b, cfg.(lifo := !cfg.lifo), o, i), |a.workers|)
    decreases |a.workers| - i
  {
    if i < |a.workers| {
      var cfg' := cfg.(lifo := !cfg.lifo);
      var a1 := StepWorker(a, cfg, o, i);
      var b1 := StepWorker(b, cfg', o, i);
      assert SamePass(a1, b1, i + 1);
      DisciplineOnlyChoosesWhich(a1, b1, cfg, o, i + 1);
    }
  }
}
