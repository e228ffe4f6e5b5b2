/** The simulated request (`struct Request` in src/main.rs): two `u32` countdowns, the work
    still to do and the ticks left before the client gives up. Rust moves a request by value
    between the queue and a worker, so it has no identity: it is a datatype here, and each
    `&mut self` tick is a function giving the request's next value, which the owner stores
    back into its slot. */
module Requests {

  const U32_MAX: int := 0xFFFF_FFFF

  newtype u32 = x: int | 0 <= x <= 0xFFFF_FFFF

  /** Rust's `as u32` applied to a non-negative, already truncated amount of ticks:
      the largest `u32` not above it (the cast saturates at `u32::MAX`). */
  function SaturatingU32(x: nat): (r: u32)
    ensures r as int <= x
    ensures x <= U32_MAX ==> r as int == x
    ensures x > U32_MAX ==> r as int == U32_MAX
  {
    if x <= U32_MAX then x as u32 else U32_MAX as u32
  }

  /** Subtraction floored at zero, the closed form of repeated saturating decrements. */
  function Monus(a: int, n: int): nat
  {
    if a <= n then 0 else a - n
  }

  datatype Request = Request(remaining: u32, timeout: u32)
  {
    /** The client has given up on this request. */
    predicate IsTimedOut()
    {
      timeout == 0
    }

    /** All the work on this request has been done. */
    predicate IsDone()
    {
      remaining == 0
    }

    /** One tick spent waiting in the queue: closer to the timeout, no progress on the work. */
    function WaitingTick(): (r: Request)
      ensures r.remaining == remaining
      ensures r.timeout <= timeout
      ensures timeout != 0 ==> r.timeout == timeout - 1
      ensures r.IsTimedOut() <==> timeout <= 1
    {
      if timeout != 0 then this.(timeout := timeout - 1) else this
    }

    /** One tick spent on a worker: closer both to the timeout and to completion. */
    function WorkingTick(): (r: Request)
      ensures r.remaining <= remaining && r.timeout <= timeout
      ensures remaining != 0 ==> r.remaining == remaining - 1
      ensures timeout != 0 ==> r.timeout == timeout - 1
      ensures r.IsDone() <==> remaining <= 1
      ensures r.IsTimedOut() <==> timeout <= 1
    {
      var t := if timeout != 0 then timeout - 1 else timeout;
      var w := if remaining != 0 then remaining - 1 else remaining;
      Request(w, t)
    }
  }

  /** The request after `n` ticks spent waiting in the queue. */
  function Waited(r: Request, n: nat): Request
  {
    if n == 0 then r else Waited(r, n - 1).WaitingTick()
  }

  /** The request after `n` ticks spent on a worker. */
  function Worked(r: Request, n: nat): Request
  {
    if n == 0 then r else Worked(r, n - 1).WorkingTick()
  }

  /** Waiting never touches the work, and the timeout counts down to zero and stays there. */
  lemma {:induction false} WaitedClosedForm(r: Request, n: nat)
    ensures Waited(r, n).remaining == r.remaining
    ensures Waited(r, n).timeout as int == Monus(r.timeout as int, n)
  {
    if n > 0 {
      WaitedClosedForm(r, n - 1);
    }
  }

  /** Working lowers both countdowns by one per tick, each stopping at zero. */
  lemma {:induction false} WorkedClosedForm(r: Request, n: nat)
    ensures Worked(r, n).remaining as int == Monus(r.remaining as int, n)
    ensures Worked(r, n).timeout as int == Monus(r.timeout as int, n)
  {
    if n > 0 {
      WorkedClosedForm(r, n - 1);
    }
  }

  /** A request that a worker holds is finished after exactly max(remaining, 1) working
      ticks, and at that moment it has timed out exactly when its timeout was at most that. */
  lemma CompletionVerdict(r: Request)
    ensures var n := if r.remaining == 0 then 1 else r.remaining as nat;
      Worked(r, n).IsDone()
      && (forall m: nat :: 1 <= m < n ==> !Worked(r, m).IsDone())
      && (Worked(r, n).IsTimedOut() <==> r.timeout as nat <= n)
  {
    var n := if r.remaining == 0 then 1 else r.remaining as nat;
    WorkedClosedForm(r, n);
    forall m: nat | 1 <= m < n
      ensures !Worked(r, m).IsDone()
    {
      WorkedClosedForm(r, m);
    }
  }
}
