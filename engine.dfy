/** The per-tick simulation engine (the loop body of `main` in src/main.rs) as functions
    of an explicit simulation state. The class in simulation.dfy runs the same steps in
    place and is proved to agree with these functions. */
module Engine {
  import opened Options
  import opened Requests
  import opened Workers

  /** The validated run parameters that the engine uses. The arrival rate, the mean latency
      and the retry probability only shape the random draws, which come from the `Oracle`. */
  datatype Config = Config(
    numWorkers: nat,
    timeout: u32,
    simulationTicks: u32,
    queueSize: nat,
    lifo: bool,
    simulateSpike: bool)

  /** The random draws, fixed in advance:
      - `arrivals(t)`: the arrival sample added to the accumulator on tick `t`, in whole
        requests (a normal sample can be negative);
      - `latencyTenths(k)`: for the `k`-th request created (from 0), its latency sample
        floored at zero, in tenths of a tick and truncated;
      - `retry(k)`: whether the `k`-th failure (from 0) is retried. */
  datatype Oracle = Oracle(arrivals: nat -> int, latencyTenths: nat -> nat, retry: nat -> bool)

  /** The engine's state between steps: the workers' slots in index order, the queue front
      first, the two counters the program keeps, the number of requests that finished in time
      (kept only by the model, to state conservation), the remaining spike budget and the
      arrival accumulator in whole requests. */
  datatype SimState = SimState(
    workers: seq<Option<Request>>,
    queue: seq<Request>,
    failed: nat,
    total: nat,
    succeeded: nat,
    spike: nat,
    incoming: int)

  /** How many of the first requests get the 10x latency. */
  function SpikeBudget(cfg: Config): nat
  {
    if cfg.simulateSpike then cfg.simulationTicks as nat / 1000 else 0
  }

  /** Every worker idle, nothing queued, nothing counted yet. */
  function Initial(cfg: Config): SimState
  {
    SimState(seq(cfg.numWorkers, _ => None), [], 0, 0, 0, SpikeBudget(cfg), 0)
  }

  /** Number of busy workers. */
  function Busy(slots: seq<Option<Request>>): nat
  {
    if slots == [] then 0 else (if slots[0].Some? then 1 else 0) + Busy(slots[1..])
  }

  /** Every created request is exactly one of: queued, on a worker, failed, or finished in
      time; the queue is within its bound; the spike budget is what the created requests
      have not used up. */
  ghost predicate Inv(st: SimState, cfg: Config)
  {
    && |st.workers| == cfg.numWorkers
    && |st.queue| <= cfg.queueSize
    && st.total == |st.queue| + Busy(st.workers) + st.failed + st.succeeded
    && st.spike == Monus(SpikeBudget(cfg), st.total)
  }

  /** Queue aging: one waiting tick for every queued request, front to back. */
  function Age(queue: seq<Request>): seq<Request>
  {
    if queue == [] then [] else [queue[0].WaitingTick()] + Age(queue[1..])
  }

  /** The first idle worker at index `from` or later, scanning in index order. */
  function FirstFreeFrom(slots: seq<Option<Request>>, from: nat): (i: Option<nat>)
    requires from <= |slots|
    ensures i.Some? ==>
      from <= i.value < |slots| && slots[i.value] == None
      && forall j :: from <= j < i.value ==> slots[j].Some?
    ensures i.None? ==> forall j :: from <= j < |slots| ==> slots[j].Some?
    decreases |slots| - from
  {
    if from == |slots| then None
    else if slots[from] == None then Some(from)
    else FirstFreeFrom(slots, from + 1)
  }

  /** Where a new request goes. */
  datatype Placement = ToWorker(index: nat) | ToQueue | Rejected

  /** The admission policy: the lowest-index idle worker; otherwise the back of the queue
      if it has room; otherwise the request fails. */
  function Place(slots: seq<Option<Request>>, queueLen: nat, queueSize: nat): (p: Placement)
    ensures p.ToWorker? ==>
      p.index < |slots| && slots[p.index] == None
      && forall j :: 0 <= j < p.index ==> slots[j].Some?
    ensures p.ToWorker? <==> exists j :: 0 <= j < |slots| && slots[j] == None
    ensures p.ToQueue? <==> (forall j :: 0 <= j < |slots| ==> slots[j].Some?) && queueLen < queueSize
    ensures p.Rejected? <==> (forall j :: 0 <= j < |slots| ==> slots[j].Some?) && queueLen >= queueSize
  {
    match FirstFreeFrom(slots, 0)
    case Some(i) => ToWorker(i)
    case None => if queueLen < queueSize then ToQueue else Rejected
  }

  /** The work of a new request: the latency sample truncated to whole ticks, or ten times
      the sample while the spike lasts, cast to `u32`. */
  function ExecutionTime(spiking: bool, latencyTenths: nat): u32
  {
    SaturatingU32(if spiking then latencyTenths else latencyTenths / 10)
  }

  /** The request created next: its latency is the oracle's draw for its creation index. */
  function NewRequest(st: SimState, cfg: Config, o: Oracle): Request
  {
    Request(ExecutionTime(st.spike > 0, o.latencyTenths(st.total)), cfg.timeout)
  }

  /** The state after one admission, and whether a failed admission drew a retry. */
  datatype Admitted = Admitted(state: SimState, retry: bool)

  /** One turn of the admission loop: take one unit from the accumulator, count and create
      a request (using up one unit of spike budget if any is left), and place it. */
  function AdmitOne(st: SimState, cfg: Config, o: Oracle): (a: Admitted)
    ensures a.state.total == st.total + 1 && a.state.incoming == st.incoming - 1
    ensures a.state.spike == Monus(st.spike, 1) && a.state.succeeded == st.succeeded
    ensures var r := NewRequest(st, cfg, o);
      match Place(st.workers, |st.queue|, cfg.queueSize)
      case ToWorker(i) =>
        a.state.workers == st.workers[i := Some(r)] && a.state.queue == st.queue
        && a.state.failed == st.failed && !a.retry
      case ToQueue =>
        a.state.workers == st.workers && a.state.queue == st.queue + [r]
        && a.state.failed == st.failed && !a.retry
      case Rejected =>
        a.state.workers == st.workers && a.state.queue == st.queue
        && a.state.failed == st.failed + 1 && a.retry == o.retry(st.failed)
  {
    var r := NewRequest(st, cfg, o);
    var s := st.(incoming := st.incoming - 1, total := st.total + 1, spike := Monus(st.spike, 1));
    match Place(st.workers, |st.queue|, cfg.queueSize)
    case ToWorker(i) => Admitted(s.(workers := st.workers[i := Some(r)]), false)
    case ToQueue => Admitted(s.(queue := st.queue + [r]), false)
    case Rejected => Admitted(s.(failed := st.failed + 1), o.retry(st.failed))
  }

  /** The admission loop: admit while the accumulator holds a positive amount. A retried
      admission failure is returned to the accumulator once the loop is over (`retried`
      counts them), so it is admitted on the next tick. */
  function AdmitLoop(st: SimState, cfg: Config, o: Oracle, retried: nat): SimState
    decreases if st.incoming > 0 then st.incoming else 0
  {
    if st.incoming <= 0 then
      st.(incoming := st.incoming + retried)
    else
      var a := AdmitOne(st, cfg, o);
      AdmitLoop(a.state, cfg, o, retried + if a.retry then 1 else 0)
  }

  /** Advance worker `i`: a request it hands back that has timed out is a failure, and the
      failure's retry draw may add one request to the accumulator for the next tick. */
  function StepWorker(st: SimState, cfg: Config, o: Oracle, i: nat): (r: SimState)
    requires i < |st.workers|
    ensures |r.workers| == |st.workers|
  {
    var t := WorkerTick(st.workers[i], st.queue, cfg.lifo);
    var s := st.(workers := st.workers[i := t.slot], queue := t.queue);
    match t.finished
    case None => s
    case Some(done) =>
      if done.IsTimedOut() then
        s.(failed := st.failed + 1, incoming := st.incoming + if o.retry(st.failed) then 1 else 0)
      else
        s.(succeeded := st.succeeded + 1)
  }

  /** Advance workers `i`, `i + 1`, ... in index order. */
  function AdvanceFrom(st: SimState, cfg: Config, o: Oracle, i: nat): SimState
    requires i <= |st.workers|
    decreases |st.workers| - i
  {
    if i == |st.workers| then st else AdvanceFrom(StepWorker(st, cfg, o, i), cfg, o, i + 1)
  }

  /** One tick `t`: age the queue, add the tick's arrivals, run admission, advance workers. */
  function Tick(st: SimState, cfg: Config, o: Oracle, t: nat): SimState
  {
    var aged := st.(queue := Age(st.queue), incoming := st.incoming + o.arrivals(t));
    AdvanceFrom(AdmitLoop(aged, cfg, o, 0), cfg, o, 0)
  }

  /** `step` applied for steps `t`, `t + 1`, ..., `t + n - 1`, starting from `s`. */
  function Iterate<S>(step: (S, nat) -> S, s: S, t: nat, n: nat): S
    decreases n
  {
    if n == 0 then s else Iterate(step, step(s, t), t + 1, n - 1)
  }

  /** The state after ticks `t`, `t + 1`, ..., `t + n - 1`, starting from `st`. */
  function RunFrom(st: SimState, cfg: Config, o: Oracle, t: nat, n: nat): SimState
  {
    Iterate((s: SimState, k: nat) => Tick(s, cfg, o, k), st, t, n)
  }

  /** The state after the first `n` ticks of a run. */
  function Run(cfg: Config, o: Oracle, n: nat): SimState
  {
    RunFrom(Initial(cfg), cfg, o, 0, n)
  }

  /** How many of the failures numbered `from` .. `to - 1` drew a retry. */
  function Retries(retry: nat -> bool, from: nat, to: nat): nat
    decreases to - from
  {
    if to <= from then 0 else (if retry(from) then 1 else 0) + Retries(retry, from + 1, to)
  }

  /** The non-positive part of `x`: what is left in the accumulator once it is drained. */
  function Min0(x: int): int
  {
    if x < 0 then x else 0
  }
}
