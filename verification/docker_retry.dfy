/** The readiness loop of a deployed container (retryFn) in an ideal clock: entering a select takes no time, a select
    fires at the first instant one of its cases is ready, and among cases ready at that instant any may be taken. */
module DockerRetry {
  import opened Wrappers

  /** Durations are nanoseconds; the loop retries after 100 ms. */
  const TICK: nat := 100_000_000

  datatype Case = Tick | NodeStopped | Timer

  datatype Outcome = Ready | Stopped | TimedOut

  /** What the loop runs against: when waitCh is closed, how long the i-th handler call takes, whether it succeeds,
      and which case the scheduler prefers in round i. */
  datatype Env = Env(closesAt: Option<nat>, duration: nat -> nat, succeeds: nat -> bool, prefers: nat -> Case)

  function Max(a: int, b: int): int {
    if a < b then b else a
  }

  /** The instant a case becomes ready in a select entered at now. */
  function ReadyAt(c: Case, now: nat, deadline: nat, closesAt: Option<nat>): Option<nat> {
    match c
    case Tick => Some(now + TICK)
    case NodeStopped => if closesAt.Some? then Some(Max(now, closesAt.value)) else None
    case Timer => Some(Max(now, deadline))
  }

  /** A case may be taken when no other case is ready earlier. */
  ghost predicate MayTake(c: Case, now: nat, deadline: nat, closesAt: Option<nat>) {
    var at := ReadyAt(c, now, deadline, closesAt);
    && at.Some?
    && forall d :: ReadyAt(d, now, deadline, closesAt).Some? ==> at.value <= ReadyAt(d, now, deadline, closesAt).value
  }

  method Select(now: nat, deadline: nat, closesAt: Option<nat>, preferred: Case) returns (c: Case)
    ensures MayTake(c, now, deadline, closesAt)
    ensures MayTake(preferred, now, deadline, closesAt) ==> c == preferred
  {
    var tick := now + TICK;
    var timer := Max(now, deadline);
    var first := if tick <= timer then tick else timer;
    if closesAt.Some? && Max(now, closesAt.value) < first {
      first := Max(now, closesAt.value);
    }
    var at := ReadyAt(preferred, now, deadline, closesAt);
    if at == Some(first) {
      c := preferred;
    } else if first == tick {
      c := Tick;
    } else if first == timer {
      c := Timer;
    } else {
      c := NodeStopped;
    }
  }

  /** When the i-th handler call starts if the loop gets that far. */
  function CallTime(env: Env, i: nat): nat {
    if i == 0 then TICK else CallTime(env, i - 1) + env.duration(i - 1) + TICK
  }

  lemma {:induction false} CallTimeSpaced(env: Env, i: nat, j: nat)
    requires i <= j
    ensures CallTime(env, j) >= CallTime(env, i) + (j - i) * TICK
  {
    if i < j {
      CallTimeSpaced(env, i, j - 1);
    }
  }

  predicate NoneSucceeds(env: Env, n: nat) {
    forall i :: 0 <= i < n ==> !env.succeeds(i)
  }

  function Deadline(timeout: int): nat {
    if timeout < 0 then 0 else timeout
  }

  /** What RetryFn promises about its outcome and the number of its handler calls. */
  ghost predicate Retried(timeout: int, env: Env, r: Outcome, calls: nat) {
    && calls <= Deadline(timeout) / TICK
    && (r.Ready? <==> calls > 0 && env.succeeds(calls - 1))
    && (r.Ready? ==> NoneSucceeds(env, calls - 1))
    && (!r.Ready? ==> NoneSucceeds(env, calls))
    && (r.Stopped? ==> env.closesAt.Some? && env.closesAt.value <= CallTime(env, calls))
    && (r.TimedOut? ==> Deadline(timeout) <= CallTime(env, calls))
    && (calls > 0 ==> CallTime(env, calls - 1) <= Deadline(timeout))
    && (calls > 0 && env.closesAt.Some? ==> CallTime(env, calls - 1) <= env.closesAt.value)
  }

  /** The handler runs at most timeout / 100 ms times. The loop reports success exactly when its last call succeeded,
      and it gives up only for an event that came no later than the next call was due. */
  method RetryFn(timeout: int, env: Env) returns (r: Outcome, calls: nat)
    ensures Retried(timeout, env, r, calls)
  {
    var deadline := Deadline(timeout);
    var now := 0;
    calls := 0;
    while true
      invariant CallTime(env, calls) == now + TICK && NoneSucceeds(env, calls)
      invariant calls > 0 ==> CallTime(env, calls - 1) <= deadline
      invariant calls > 0 && env.closesAt.Some? ==> CallTime(env, calls - 1) <= env.closesAt.value
      invariant calls <= deadline / TICK
      decreases deadline - now
    {
      var c := Select(now, deadline, env.closesAt, env.prefers(calls));
      match c
      case Tick =>
        assert ReadyAt(Timer, now, deadline, env.closesAt).Some?;
        assert ReadyAt(NodeStopped, now, deadline, env.closesAt).Some? ==> now + TICK <= env.closesAt.value;
        CallTimeSpaced(env, 0, calls);
        now := now + TICK + env.duration(calls);
        calls := calls + 1;
        if env.succeeds(calls - 1) {
          return Ready, calls;
        }
      case NodeStopped =>
        assert ReadyAt(Tick, now, deadline, env.closesAt).Some?;
        return Stopped, calls;
      case Timer =>
        assert ReadyAt(Tick, now, deadline, env.closesAt).Some?;
        return TimedOut, calls;
    }
  }

  /** Whatever the scheduler prefers: a handler that first succeeds on a call due strictly before the timeout and
      before the container stops makes the deployment succeed, and one due after either makes it fail. */
  lemma ReadyExactlyInTime(timeout: int, env: Env, r: Outcome, calls: nat, i: nat)
    requires Retried(timeout, env, r, calls)
    requires env.succeeds(i) && NoneSucceeds(env, i)
    ensures CallTime(env, i) < Deadline(timeout) && (env.closesAt.Some? ==> CallTime(env, i) < env.closesAt.value)
            ==> r.Ready?
    ensures CallTime(env, i) > Deadline(timeout) || (env.closesAt.Some? && CallTime(env, i) > env.closesAt.value)
            ==> !r.Ready?
  {
    if !r.Ready? {
      CallTimeSpaced(env, calls, i);
    } else {
      CallTimeSpaced(env, i, calls - 1);
    }
  }

  /** The exit bookkeeping of a container. run() waits for the container, records the result, then closes waitCh. */
  class Node {
    var exitResult: Option<Option<string>>
    var waitClosed: bool

    /** Whoever sees waitCh closed finds the exit result recorded. */
    ghost predicate Valid()
      reads this
    {
      waitClosed ==> exitResult.Some?
    }

    constructor ()
      ensures Valid() && exitResult == None && !waitClosed
    {
      exitResult, waitClosed := None, false;
    }

    method Record(exitErr: Option<string>)
      requires Valid()
      modifies this`exitResult
      ensures Valid() && exitResult == Some(exitErr)
    {
      exitResult := Some(exitErr);
    }

    /** Closing a closed channel panics. */
    method CloseWait()
      requires Valid() && !waitClosed && exitResult.Some?
      modifies this`waitClosed
      ensures Valid() && waitClosed
    {
      waitClosed := true;
    }

    method Run(exitErr: Option<string>)
      requires Valid() && !waitClosed
      modifies this
      ensures Valid() && waitClosed && exitResult == Some(exitErr)
    {
      Record(exitErr);
      CloseWait();
    }
  }

  // ---------- run and the readiness loop side by side ----------

  datatype RunPc = Waiting | Recorded | Closed

  datatype LoopPc = Selecting | Calling | Finished(outcome: Outcome, at: nat)

  /** The goroutine of run, the readiness loop, what they share, and the time. */
  datatype Pair = Pair(now: nat, run: RunPc, exitResult: Option<Option<string>>, closedAt: Option<nat>, loop: LoopPc)

  const BOTH_START: Pair := Pair(0, Waiting, None, None, Selecting)

  datatype PairStep =
    | Pass(time: nat)
    | Exit(exitErr: Option<string>)
    | Close
    | CallHandler
    | HandlerReturns(ok: bool)
    | SeeClosed
    | TimeOut

  predicate CanStep(p: Pair, x: PairStep) {
    match x
    case Pass(_) => true
    case Exit(_) => p.run.Waiting?
    case Close => p.run.Recorded?
    case CallHandler => p.loop.Selecting?
    case HandlerReturns(_) => p.loop.Calling?
    case SeeClosed => p.loop.Selecting? && p.closedAt.Some?
    case TimeOut => p.loop.Selecting?
  }

  function PairAfter(p: Pair, x: PairStep): Pair {
    match x
    case Pass(time) => p.(now := p.now + time)
    case Exit(exitErr) => p.(run := Recorded, exitResult := Some(exitErr))
    case Close => p.(run := Closed, closedAt := Some(p.now))
    case CallHandler => p.(loop := Calling)
    case HandlerReturns(ok) => p.(loop := if ok then Finished(Ready, p.now) else Selecting)
    case SeeClosed => p.(loop := Finished(Stopped, p.now))
    case TimeOut => p.(loop := Finished(TimedOut, p.now))
  }

  predicate PairRun(p: Pair, steps: seq<PairStep>)
    decreases |steps|
  {
    steps == [] || (CanStep(p, steps[0]) && PairRun(PairAfter(p, steps[0]), steps[1..]))
  }

  function PairEnd(p: Pair, steps: seq<PairStep>): Pair
    decreases |steps|
  {
    if steps == [] then p else PairEnd(PairAfter(p, steps[0]), steps[1..])
  }

  function Closes(steps: seq<PairStep>): nat {
    if steps == [] then 0 else (if steps[0].Close? then 1 else 0) + Closes(steps[1..])
  }

  predicate PairInv(p: Pair) {
    && (p.run.Waiting? <==> p.exitResult.None?) && (p.closedAt.Some? <==> p.run.Closed?)
    && (p.closedAt.Some? ==> p.closedAt.value <= p.now)
    && (p.loop.Finished? ==> p.loop.at <= p.now)
    && (p.loop.Finished? && p.loop.outcome.Stopped? ==> p.closedAt.Some? && p.closedAt.value <= p.loop.at)
  }

  lemma {:induction false} PairKeepsInv(p: Pair, steps: seq<PairStep>)
    requires PairInv(p) && PairRun(p, steps)
    ensures PairInv(PairEnd(p, steps))
    ensures Closes(steps) + (if p.run.Closed? then 1 else 0) <= 1
    decreases |steps|
  {
    if steps != [] {
      PairKeepsInv(PairAfter(p, steps[0]), steps[1..]);
    }
  }

  /** However the two run side by side: the loop reports "node stopped" only after the exit result was recorded and the
      wait channel closed, and the channel is closed at most once. */
  lemma StoppedIsRecorded(steps: seq<PairStep>)
    requires PairRun(BOTH_START, steps)
    ensures Closes(steps) <= 1
    ensures var p := PairEnd(BOTH_START, steps);
            p.loop.Finished? && p.loop.outcome.Stopped? ==>
              p.exitResult.Some? && p.closedAt.Some? && p.closedAt.value <= p.loop.at
  {
    PairKeepsInv(BOTH_START, steps);
  }
}
