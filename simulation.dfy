/** The simulation run in place, as `main` in src/main.rs does it: the queue, the worker pool
    and the counters are updated step by step. Each method is proved to produce exactly the
    state that the matching function of module Engine describes. */
module Simulations {
  import opened Options
  import opened Requests
  import opened Deques
  import opened Workers
  import opened Engine
  import opened EngineProperties

  class Simulation {
    const cfg: Config
    const queue: Deque<Request>
    /** The worker pool, created once; the vector itself never changes, its workers do. */
    const workers: seq<Worker>
    var failedRequests: nat
    var totalRequests: nat
    var spikeTicks: nat
    var incomingRequests: int
    /** Requests that finished in time; the program does not count them. */
    ghost var succeeded: nat

    ghost function WorkerSet(): set<Worker>
      reads this
    {
      set w | w in workers
    }

    ghost predicate Valid()
      reads this
    {
      |workers| == cfg.numWorkers
      && forall i, j :: 0 <= i < j < |workers| ==> workers[i] != workers[j]
    }

    /** The workers' slots in index order. */
    ghost function Slots(): seq<Option<Request>>
      reads this, WorkerSet()
    {
      seq(|workers|, i requires 0 <= i < |workers| reads set w | w in workers => workers[i].current)
    }

    ghost function State(): SimState
      reads this, queue, WorkerSet()
    {
      SimState(Slots(), queue.items, failedRequests, totalRequests, succeeded, spikeTicks, incomingRequests)
    }

    constructor (cfg: Config)
      ensures Valid() && this.cfg == cfg && State() == Initial(cfg)
      ensures fresh(queue) && fresh(WorkerSet())
    {
      var ws: seq<Worker> := [];
      while |ws| < cfg.numWorkers
        invariant |ws| <= cfg.numWorkers
        invariant forall i, j :: 0 <= i < j < |ws| ==> ws[i] != ws[j]
        invariant forall w :: w in ws ==> fresh(w) && w.current == None
      {
        var w := new Worker();
        ws := ws + [w];
      }
      this.cfg := cfg;
      queue := new Deque();
      workers := ws;
      failedRequests, totalRequests, succeeded, incomingRequests := 0, 0, 0, 0;
      spikeTicks := if cfg.simulateSpike then cfg.simulationTicks as nat / 1000 else 0;
      new;
      assert Slots() == seq(cfg.numWorkers, _ => None);
    }

    /** Requests waiting in the queue are one tick closer to their timeout. */
    method AgeQueue()
      modifies queue
      ensures queue.items == Age(old(queue.items))
    {
      ghost var q0 := queue.items;
      var i := 0;
      while i < |queue.items|
        invariant |queue.items| == |q0| && i <= |q0|
        invariant forall j :: 0 <= j < i ==> queue.items[j] == q0[j].WaitingTick()
        invariant forall j :: i <= j < |q0| ==> queue.items[j] == q0[j]
      {
        queue.items := queue.items[i := queue.items[i].WaitingTick()];
        i := i + 1;
      }
      AgeAt(q0);
    }

    /** The first idle worker in index order, if any. */
    method FindFree() returns (idle: Option<nat>)
      requires Valid()
      ensures idle == FirstFreeFrom(Slots(), 0)
    {
      var i := 0;
      while i < |workers|
        invariant i <= |workers|
        invariant FirstFreeFrom(Slots(), i) == FirstFreeFrom(Slots(), 0)
      {
        assert Slots()[i] == workers[i].current;
        if workers[i].IsFree() {
          return Some(i);
        }
        i := i + 1;
      }
      return None;
    }

    /** The slots after worker `k` alone changed. */
    twostate lemma OnlyWorkerChanged(k: nat)
      requires Valid() && old(Valid()) && k < |workers|
      requires forall j :: 0 <= j < |workers| && j != k ==> workers[j].current == old(workers[j].current)
      ensures Slots() == old(Slots())[k := workers[k].current]
    {
    }

    /** Give `request` to worker `k`. */
    method Assign(k: nat, request: Request)
      requires Valid() && k < |workers|
      modifies workers[k]
      ensures Slots() == old(Slots())[k := Some(request)]
    {
      workers[k].Take(request);
      forall j | 0 <= j < |workers| && j != k
        ensures workers[j].current == old(workers[j].current)
      {
        assert workers[j] != workers[k];
      }
      OnlyWorkerChanged(k);
    }

    /** Take one unit from the accumulator and create the next request, using up one unit
        of spike budget if any is left. */
    method CreateNext(o: Oracle) returns (request: Request)
      modifies this
      ensures request == NewRequest(old(State()), cfg, o)
      ensures State() == old(State()).(incoming := old(incomingRequests) - 1,
                                       total := old(totalRequests) + 1,
                                       spike := Monus(old(spikeTicks), 1))
    {
      var index := totalRequests;
      incomingRequests := incomingRequests - 1;
      totalRequests := totalRequests + 1;
      var tenths := o.latencyTenths(index);
      var executionTime: nat;
      if spikeTicks > 0 {
        spikeTicks := spikeTicks - 1;
        executionTime := tenths;
      } else {
        executionTime := tenths / 10;
      }
      request := Request(SaturatingU32(executionTime), cfg.timeout);
    }

    /** The admission policy applied to `request`. Returns whether it was rejected and its
        retry was drawn. */
    method Admit(request: Request, o: Oracle) returns (retry: bool)
      requires Valid()
      modifies this, queue, WorkerSet()
      ensures Valid()
      ensures match Place(old(Slots()), |old(queue.items)|, cfg.queueSize)
        case ToWorker(k) => State() == old(State()).(workers := old(Slots())[k := Some(request)]) && !retry
        case ToQueue => State() == old(State()).(queue := old(queue.items) + [request]) && !retry
        case Rejected =>
          State() == old(State()).(failed := old(failedRequests) + 1) && retry == o.retry(old(failedRequests))
    {
      ghost var slots := Slots();
      var idle := FindFree();
      assert Slots() == slots;
      retry := false;
      if idle.Some? {
        Assign(idle.value, request);
      } else if queue.Len() < cfg.queueSize {
        queue.PushBack(request);
      } else {
        failedRequests := failedRequests + 1;
        retry := o.retry(failedRequests - 1);
      }
    }

    /** One turn of the admission loop: create the next request and place it. Returns
        whether it was rejected and its retry was drawn. */
    method AdmitNext(o: Oracle) returns (retry: bool)
      requires Valid() && incomingRequests > 0
      modifies this, queue, WorkerSet()
      ensures Valid()
      ensures State() == AdmitOne(old(State()), cfg, o).state
      ensures retry == AdmitOne(old(State()), cfg, o).retry
    {
      var request := CreateNext(o);
      retry := Admit(request, o);
    }

    /** Drain the accumulator through the admission policy. */
    method AdmitArrivals(o: Oracle)
      requires Valid()
      modifies this, queue, WorkerSet()
      ensures Valid() && State() == AdmitLoop(old(State()), cfg, o, 0)
    {
      var retried: nat := 0;
      while incomingRequests > 0
        invariant Valid()
        invariant AdmitLoop(State(), cfg, o, retried) == AdmitLoop(old(State()), cfg, o, 0)
        decreases incomingRequests
      {
        var retry := AdmitNext(o);
        if retry {
          retried := retried + 1;
        }
      }
      incomingRequests := incomingRequests + retried;
    }

    /** Advance worker `i`, counting its completion as a failure if it timed out. */
    method AdvanceOne(o: Oracle, i: nat)
      requires Valid() && i < |workers|
      modifies this, queue, workers[i]
      ensures Valid() && State() == StepWorker(old(State()), cfg, o, i)
    {
      var request := workers[i].Tick(queue, cfg.lifo);
      forall j | 0 <= j < |workers| && j != i
        ensures workers[j].current == old(workers[j].current)
      {
        assert workers[j] != workers[i];
      }
      OnlyWorkerChanged(i);
      if request.Some? && request.value.IsTimedOut() {
        failedRequests := failedRequests + 1;
        if o.retry(failedRequests - 1) {
          incomingRequests := incomingRequests + 1;
        }
      } else if request.Some? {
        succeeded := succeeded + 1;
      }
    }

    /** Advance every worker in index order. */
    method AdvanceWorkers(o: Oracle)
      requires Valid()
      modifies this, queue, WorkerSet()
      ensures Valid() && State() == AdvanceFrom(old(State()), cfg, o, 0)
    {
      for i := 0 to |workers|
        invariant Valid()
        invariant AdvanceFrom(State(), cfg, o, i) == AdvanceFrom(old(State()), cfg, o, 0)
      {
        AdvanceOne(o, i);
      }
    }

    /** One tick of the simulation. */
    method Step(o: Oracle, t: nat)
      requires Valid()
      modifies this, queue, WorkerSet()
      ensures Valid() && State() == Tick(old(State()), cfg, o, t)
    {
      ghost var s0 := State();
      AgeQueue();
      incomingRequests := incomingRequests + o.arrivals(t);
      ghost var aged := s0.(queue := Age(s0.queue), incoming := s0.incoming + o.arrivals(t));
      assert State() == aged;
      AdmitArrivals(o);
      ghost var admitted := AdmitLoop(aged, cfg, o, 0);
      AdvanceWorkers(o);
      assert State() == AdvanceFrom(admitted, cfg, o, 0);
    }
  }

  /** A whole run: the failure and total counts the program divides at the end, which are
      those of `Run`, and of which the failures are never more than the total. */
  method Simulate(cfg: Config, o: Oracle) returns (failed: nat, total: nat)
    ensures failed == Run(cfg, o, cfg.simulationTicks as nat).failed
    ensures total == Run(cfg, o, cfg.simulationTicks as nat).total
    ensures failed <= total
  {
    var sim := new Simulation(cfg);
    for t := 0 to cfg.simulationTicks as nat
      invariant sim.Valid() && sim.cfg == cfg
      invariant fresh(sim) && fresh(sim.queue) && fresh(sim.WorkerSet())
      invariant sim.State() == Run(cfg, o, t)
    {
      sim.Step(o, t);
      RunStep(cfg, o, t);
    }
    failed, total := sim.failedRequests, sim.totalRequests;
    RunInv(cfg, o, cfg.simulationTicks as nat);
  }
}
