# Queueing simulator: the tick engine in Dafny

The system is a discrete-tick simulator of a bounded request queue served by a fixed pool of
workers. It is used to study congestion collapse, where timeouts and retries feed load back into
an already saturated system. All of its logic is in `src/main.rs`. This project models the core
of that file and proves what it promises:

- **`Request`** (module `Requests`, `request.dfy`). A request has two `u32` countdowns: the work
  still to do and the ticks left before its client gives up. A waiting tick lowers only the
  timeout. A working tick lowers both. Each decrement stops at zero. Rust moves requests by value,
  so a request is a datatype here, and each `&mut self` tick is a function that returns the next
  value.
- **`VecDeque`** (module `Deques`, `deque.dfy`). This is the part of the double-ended queue that
  the simulator uses: push at the back, pop at either end. It is a class over a `seq`.
- **`Worker`** (module `Workers`, `worker.dfy`). A worker is idle or holds one request. It is a
  class with the field `current`. Its `Tick` method changes the worker and the queue in place. It
  is proved equal to the function `WorkerTick`, whose contract is the state machine.
- **The engine** (modules `Engine` and `EngineProperties`, `engine.dfy` and `engine_props.dfy`).
  These functions describe the loop body of `main`:
  - queue aging;
  - the admission loop: request creation, the latency spike, and the admission policy (first idle
    worker in index order, then the back of the queue if it has room, then failure with an
    optional retry);
  - the in-order pass over the workers, which counts a completed request as a failure when its
    timeout counter is zero.

  The lemmas prove the invariant every reachable state keeps:
  - every created request is in exactly one place: queued, on a worker, failed, or finished in
    time;
  - the queue stays within `queue_size`;
  - the spike budget equals what the created requests have not used.

  They also prove the counting rules, the spike rule and the retry rules.
- **The simulation run in place** (module `Simulations`, `simulation.dfy`). The class
  `Simulation` holds the deque, the vector of workers and the counters, and updates them step by
  step as `main` does. Each method is proved to produce the state that the matching engine
  function describes. `Simulate` runs the whole loop and returns the two counts that the program
  divides at the end.
- **The admission loop as written** (module `AdmissionAsWritten`, `admission_as_written.dfy`).
  This is the loop exactly as the source writes it, together with the input on which it never
  ends. See "Findings".

Randomness is an input. The record `Engine.Oracle` holds three functions:
- `arrivals`, indexed by tick: the arrival sample added on that tick;
- `latencyTenths`, indexed by creation order: each request's latency sample;
- `retry`, indexed by failure order: each failure's retry draw.

The model follows the code except at one place, the retry of a failed admission. The run
is a bounded `for _ in 0..opt.simulation_ticks` (src/main.rs:79), so it is meant to end. Each
turn of the admission loop takes one unit from the accumulator (src/main.rs:87-88). A failed
admission that draws a retry puts that unit straight back (src/main.rs:110-111), and nothing
inside the loop frees a worker or a queue slot. With `retry_probability = 1` and a saturated
pool, the first failure in a tick therefore makes that tick, and the run, go on forever. As
its own choice, the model's engine lets the admission loop end and adds a retried admission
failure to the accumulator afterwards, so that it is admitted on the next tick, the same way
a retried timeout failure is (src/main.rs:125-126). "Findings" gives the details.
`AdmissionAsWritten` models the loop as the code writes it and proves its properties
separately.

## Model

| member | source | states |
|---|---|---|
| Requests.SaturatingU32 | src/main.rs:99 | `as u32` on a non-negative tick count: the value itself when it fits, `u32::MAX` when it does not, never more than the input |
| Requests.Request.WaitingTick | src/main.rs:201-207 | the work is unchanged; the timeout drops by one if non-zero and otherwise stays at 0; the request is timed out afterwards iff its timeout was at most 1 |
| Requests.Request.WorkingTick | src/main.rs:209-219 | both counters drop by one if non-zero and never grow; done afterwards iff the work was at most 1; timed out afterwards iff the timeout was at most 1 |
| Requests.WaitedClosedForm | src/main.rs:203-207 | after n waiting ticks the work is unchanged and the timeout is max(timeout - n, 0) |
| Requests.WorkedClosedForm | src/main.rs:211-219 | after n working ticks each counter is max(counter - n, 0) |
| Requests.CompletionVerdict | src/main.rs:156-163 | a request held by a worker is done after exactly max(work, 1) working ticks and not before, and it is timed out then iff its timeout was at most that many ticks |
| Deques.Deque.constructor | src/main.rs:61 | the queue starts empty |
| Deques.Deque.PushBack | src/main.rs:104 | the element is appended at the back and nothing else changes |
| Deques.Deque.PopFront | src/main.rs:170 | on an empty queue: `None`, queue unchanged; otherwise: the front element, and the queue loses exactly its front |
| Deques.Deque.PopBack | src/main.rs:168 | on an empty queue: `None`, queue unchanged; otherwise: the back element, and the queue loses exactly its back |
| Workers.WorkerTick | src/main.rs:156-177 | busy worker: one working tick, queue untouched, request handed back and worker idle iff the work was at most 1, otherwise kept. Idle worker: never hands back; takes the back (LIFO) or the front (FIFO) unchanged, the rest keeps its order, stays idle iff the queue is empty; the multiset of queued and held requests is preserved |
| Workers.Worker.constructor | src/main.rs:146-150 | a new worker is idle |
| Workers.Worker.Take | src/main.rs:183-185 | the worker now holds exactly the given request |
| Workers.Worker.Tick | src/main.rs:156-177 | the worker's new request, the queue's new contents and the returned request are exactly those of `WorkerTick` on the old worker and queue |
| Engine.SpikeBudget | src/main.rs:72-76 | the number of requests that get the 10x latency: `simulation_ticks / 1000` with the spike option, else 0; `InitialInv` and `SpikedExactlyTheFirst` state how it is used up |
| Engine.Initial | src/main.rs:61-78 | the start state: all workers idle, empty queue, zero counters, budget `simulation_ticks / 1000` with the spike option, else 0; `InitialInv` proves it satisfies the invariant |
| Engine.Age | src/main.rs:81 | one waiting tick for every queued request; `AgeAt` proves it keeps length and order and ages each request once |
| Engine.ExecutionTime | src/main.rs:92-99 | a new request's work: the latency sample truncated to whole ticks, or, while the spike lasts, ten times the sample truncated, cast to `u32`; `SpikedExactlyTheFirst` states when the spike applies |
| Engine.NewRequest | src/main.rs:92-99 | the next request created: its work from the latency draw of its creation index, its timeout the configured one; `SpikedExactlyTheFirst` states its work |
| Engine.AdmitLoop | src/main.rs:87-114 | the admission loop with a retried admission failure deferred to the next tick; `AdmitLoopFacts` states its termination, creation count and invariant |
| Engine.AdvanceFrom | src/main.rs:116-129 | the in-order pass over the workers; `AdvanceFacts` states what it keeps and counts |
| Engine.Tick | src/main.rs:79-130 | one tick: aging, arrivals, admission, the worker pass; `TickFacts` states its invariant and counts |
| Engine.Run | src/main.rs:79-130 | the state after the first n ticks of the run, starting from `Initial`; `RunStep`, `RunFromGrows` and `RunInv` state its properties, and `Simulate` returns its counts |
| Engine.FirstFreeFrom | src/main.rs:100 | the result is an idle worker at or after `from` with every worker before it busy; `None` iff every worker from `from` on is busy |
| Engine.Place | src/main.rs:100-113 | to a worker iff one is idle, and then the lowest-index idle one; to the queue iff all are busy and the queue is below its bound; rejected iff all are busy and the queue is full |
| Engine.AdmitOne | src/main.rs:88-113 | one admission takes one unit from the accumulator and adds one to the total. To a worker: only that worker changes. To the queue: the request is appended at the back. Rejected: the failures grow by one, workers and queue are unchanged, and the retry is that failure's draw. The spike budget drops by one while positive |
| Engine.StepWorker | src/main.rs:117-128 | advancing one worker keeps the pool's size; its counting rule is `CompletionCounting` |
| EngineProperties.AgeAt | src/main.rs:81 | aging keeps the queue's length and order and gives each queued request exactly one waiting tick |
| EngineProperties.InitialInv | src/main.rs:61-78 | the start state (all workers idle, empty queue, zero counters, budget `simulation_ticks / 1000` with the spike option, else 0) satisfies the invariant |
| EngineProperties.AdmitOneInv | src/main.rs:100-113 | one admission keeps conservation, the queue bound and the spike equation |
| EngineProperties.AdmitLoopFacts | src/main.rs:87-114 | the (corrected) admission loop ends for every oracle after creating exactly max(accumulator, 0) requests; it keeps the invariant; failures only grow; the accumulator ends as its non-positive remainder plus one unit per retried failure of this loop |
| EngineProperties.CompletionCounting | src/main.rs:116-129 | advancing a worker applies `Worker::tick` to it and the queue and changes no other worker; failures grow by one iff the handed-back request has a zero timeout counter; otherwise the request finished in time; only such a failure can add a retry |
| EngineProperties.StepWorkerFacts | src/main.rs:117-128 | advancing one worker keeps the invariant and the total; failures and completions only grow; the accumulator gains the retries of its failures |
| EngineProperties.AdvanceFacts | src/main.rs:116-129 | the whole pass over the workers keeps the invariant and the total; counters only grow; the accumulator gains exactly the retries drawn by the pass's failures |
| EngineProperties.TickFacts | src/main.rs:79-130 | one tick keeps the invariant (so the queue stays within `queue_size`); it creates exactly max(accumulator + arrivals, 0) requests; failures never decrease; the accumulator is the remainder plus one unit per retried failure |
| EngineProperties.RunStep | src/main.rs:79-130 | the state after tick n + 1 is one tick applied to the state after tick n |
| EngineProperties.RunFromGrows | src/main.rs:79-130 | from any state satisfying the invariant, the rest of the run keeps it, and the failure and total counters end no lower |
| EngineProperties.RunInv | src/main.rs:79-130 | every state the run reaches satisfies the invariant |
| EngineProperties.SpikedExactlyTheFirst | src/main.rs:93-99 | in every state satisfying the invariant, the request with creation index k gets ten times its latency iff k is below the budget `simulation_ticks / 1000`; that the remaining budget is max(budget - created, 0) is part of the invariant, established by `InitialInv` and kept by `AdmitOneInv` |
| EngineProperties.NoRetryNoReinjection | src/main.rs:105-127 | with retry probability 0 nothing is put back: after a tick the accumulator holds only the non-positive remainder of the arrivals |
| EngineProperties.AlwaysRetryReinjectsEveryFailure | src/main.rs:105-127 | with retry probability 1 each failure of a tick comes back as exactly one unit in the accumulator |
| EngineProperties.DisciplineOnlyChoosesWhich | src/main.rs:116-117 | from states that agree on the counters, the queue's length, which workers are busy and the requests still to be advanced, a pass over the workers under FIFO and under LIFO ends with the same counters, queue length and busy workers |
| AdmissionAsWritten.AdmitLoopAsWritten | src/main.rs:87-113 | the admission loop exactly as written, with a retried failure re-admitted in the same loop, run for at most `fuel` turns; `AsWrittenKeepsInv`, `AsWrittenCreates` and `SaturatedAlwaysRetryNeverEnds` state its properties |
| AdmissionAsWritten.AsWrittenKeepsInv | src/main.rs:87-113 | whenever the loop as written ends, it has kept the invariant (queue bound, conservation, spike budget), and the failures only grew |
| AdmissionAsWritten.AsWrittenCreates | src/main.rs:87-113 | whenever the loop as written ends, the accumulator is drained to its non-positive remainder, and the loop created max(accumulator, 0) requests plus one per retried admission failure |
| AdmissionAsWritten.TickAsWritten | src/main.rs:79-130 | one tick with the admission loop as written: aging and arrivals, that loop, then the pass over the workers; `TickAsWrittenInv` states its properties |
| AdmissionAsWritten.TickAsWrittenInv | src/main.rs:79-130 | whenever a tick with the loop as written ends, it has kept the invariant (so the queue stays within `queue_size`), neither counter went down, and it created at least max(accumulator + arrivals, 0) requests |
| AdmissionAsWritten.OneRetryDiverges | src/main.rs:87-113 | at any retry probability the loops differ once an admission failure draws a retry: one busy worker, no queue, one pending unit, first failure retried and second not: as written, 3 requests and 2 failures in the tick; corrected, 2 and 1, with the retry left for the next tick |
| AdmissionAsWritten.SaturatedAlwaysRetryNeverEnds | src/main.rs:87-113 | as written, with retry probability 1, a positive accumulator, every worker busy and the queue full, the admission loop does not end within any number of turns |
| AdmissionAsWritten.OneWorkerNoQueueHangs | src/main.rs:110-111 | a concrete hang: one busy worker, queue size 0, one pending arrival and every failure retried |
| AdmissionAsWritten.AsWrittenAgreesWithoutRetry | src/main.rs:87-113 | when no failure is retried, the loop as written ends and yields exactly the corrected loop's state |
| Simulations.Simulation.constructor | src/main.rs:61-78 | fresh deque and workers; the state is the engine's start state |
| Simulations.Simulation.AgeQueue | src/main.rs:81 | the queue, aged in place, equals `Age` of the old queue |
| Simulations.Simulation.FindFree | src/main.rs:100 | the scan returns `FirstFreeFrom` of the workers' slots from index 0 |
| Simulations.Simulation.Assign | src/main.rs:101-102 | only the chosen worker's slot changes, to the request |
| Simulations.Simulation.CreateNext | src/main.rs:88-99 | one unit is taken from the accumulator, the total grows by one, the budget drops while positive, and the request is `NewRequest` of the old state |
| Simulations.Simulation.Admit | src/main.rs:100-113 | the new state is exactly the one `Place` dictates, and the retry is drawn only for a rejection |
| Simulations.Simulation.AdmitNext | src/main.rs:88-113 | the new state and the retry are those of `AdmitOne` |
| Simulations.Simulation.AdmitArrivals | src/main.rs:87-114 | draining the accumulator in place yields `AdmitLoop` of the old state |
| Simulations.Simulation.AdvanceOne | src/main.rs:117-128 | the new state is `StepWorker` of the old one |
| Simulations.Simulation.AdvanceWorkers | src/main.rs:116-129 | the new state is `AdvanceFrom` of the old one from worker 0 |
| Simulations.Simulation.Step | src/main.rs:79-130 | one tick in place yields `Tick` of the old state |
| Simulations.Simulate | src/main.rs:61-130 | the failure and total counts of the whole run are those of `Run`, and the failures never exceed the total |

## Left out

- Command-line parsing and the start-up validation panics (src/main.rs:7-59). They are library glue and configuration checks. The engine takes a validated `Config`.
- Random sampling (`Normal::sample`, `gen_bool`). The draws are inputs (`Oracle`). Arrival samples are indexed by tick, latency samples by creation order and retry draws by failure order. The model does not describe the distributions, so no statistical property is stated.
- The `f64` arrival accumulator is an integer count of whole requests. The source creates a request for any positive fractional remainder (an accumulator of 0.3 yields one request and leaves -0.7). The model receives arrivals already in whole units.
- Latency is an integer number of tenths of a tick: 10·max(sample, 0), truncated. The normal case uses it divided by 10, the spike case uses it as is. The rounding of `f64` multiplication is not modelled. Requests.SaturatingU32 covers the saturating `as u32` cast but not the cast of NaN.
- The final failure percentage and its `println!` (src/main.rs:132-133). This is float division plus output, and it is NaN when no request was created.
- The counters `failed_requests` and `total_requests` are unbounded naturals. In the source they are `i32`, so a run creating more than 2^31 - 1 requests would overflow. The model does not capture that overflow.
- `num_workers: u16` and `queue_size: usize` are naturals. The pool size is the configuration's, so the width never matters.
- In-place mutation of a `Request` through `&mut` is the replacement of the request's value in its queue slot or worker slot. A request has no identity in the source (it is moved by value), so nothing is lost.
- `Request::new` is the datatype constructor `Requests.Request`. `is_timed_out`, `is_done` and `is_free` are the predicates `IsTimedOut`, `IsDone` and `IsFree`.
- Engine.AdmitLoop: a retried admission failure is handled on the next tick, not in the same loop as the code does. This is the correction described under "Findings". The as-written loop is `AdmissionAsWritten.AdmitLoopAsWritten`.
- EngineProperties.TickFacts: its creation count max(accumulator + arrivals, 0) and its accumulator equation describe the engine's deferred loop. So do `AdmitLoopFacts`, `AlwaysRetryReinjectsEveryFailure`, `RunFromGrows`, `RunInv` and `Simulations.Simulate`. At every retry probability, not only at 1, the program's own loop creates one more request in the same tick for each retried admission failure (`AdmissionAsWritten.OneRetryDiverges`). For that loop, the invariant, the growth of the failures and its creation count are stated separately by `AdmissionAsWritten.AsWrittenKeepsInv` and `AdmissionAsWritten.AsWrittenCreates`. One tick with that loop keeps the invariant and never lowers a counter (`AdmissionAsWritten.TickAsWrittenInv`). A whole run of such ticks, and the in-place class, are not restated for it.
- EngineProperties.DisciplineOnlyChoosesWhich is stated for one pass over the workers only. Over a whole run, FIFO and LIFO hand different requests to the workers. Those requests have different work and timeouts, so later completions, failures and totals can differ. The whole-run claim of unchanged counts does not hold in general.
- The model counts requests that finish in time (`succeeded`, a ghost field in the class) in order to state conservation. The source does not keep this count.

## Findings

| source | as written | input that shows it | evidently intended | confidence | as-written member | corrected member |
|---|---|---|---|---|---|---|
| src/main.rs:110-111 | a retried admission failure adds 1.0 to `incoming_requests` inside the `while incoming_requests > 0.0` loop, and nothing inside that loop can free a worker or a queue slot | `retry_probability = 1`, all workers busy and the queue full when an arrival is admitted, e.g. 1 worker busy, `queue_size = 0`, one pending arrival: the loop fails and re-adds the same unit forever, so the simulation never finishes | every tick of the bounded `for` loop at src/main.rs:79 ends; the model's choice is to end the admission pass and admit the retried request on the next tick, as a retried timeout failure is | high, not executed | AdmissionAsWritten.SaturatedAlwaysRetryNeverEnds | EngineProperties.AdmitLoopFacts |
