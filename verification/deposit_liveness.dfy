/** Every MakeDeposits call returns under every fair schedule: while it is open one of its steps can be taken, and there are
    only so many of them. */
module DepositLiveness {
  import opened Wrappers
  import opened Keys
  import opened DepositProtocol
  import opened DepositTheorems

  /** The steps of a goroutine, and the execution of the deposit it waits for. */
  predicate MovesWorker(s: State, x: Action, w: nat) {
    && w < |s.workers| && WorkerOf(x) == w
    && (StepOf(x, w) || (x.ExecuteDeposit? && s.workers[w].pc.AwaitingDeposit?))
  }

  /** The steps of a call: those of its goroutines, and taking a result from its channel. */
  predicate CallStep(s: State, x: Action, b: nat) {
    x == Receive(b) || exists w :: 0 <= w < |s.workers| && MovesWorker(s, x, w) && s.workers[w].batch == b
  }

  predicate Open(s: State, b: nat) {
    b < |s.batches| && s.batches[b].result.None?
  }

  /** A bound on the steps the call can still take. */
  function Potential(s: State, b: nat): int
    requires b < |s.batches|
  {
    Work(s.workers, b) + |s.batches[b].accounts| - |s.batches[b].received|
  }

  lemma PotentialIsNat(s: State, b: nat)
    requires Inv(s) && b < |s.batches|
    ensures Potential(s, b) >= 0
  {
    assert BatchInv(s.batches[b], s.workers, b);
    CountGap(s.workers, b, Reported, Member);
  }

  // ---------- someone can always move ----------

  /** A goroutine that has not ended can move. */
  lemma GoroutineMoves(s: State, w: nat)
    requires Reachable(s) && w < |s.workers| && !s.workers[w].pc.Exited?
    ensures exists x :: Enabled(s, x) && MovesWorker(s, x, w)
  {
    ReachableInv(s);
    if s.workers[w].pc.Reporting? {
      PushNeverBlocks(s, w);
    }
    NextStepAdvances(s, w);
    assert MovesWorker(s, NextStep(w, s.workers[w]), w);
  }

  /** So a call none of whose steps can be taken has returned. */
  lemma OpenCallMoves(s: State, b: nat)
    requires Reachable(s) && Open(s, b)
    ensures exists x :: Enabled(s, x) && CallStep(s, x, b)
  {
    ReachableInv(s);
    if s.batches[b].channel == [] {
      var w := SomeoneWorks(s, b);
      GoroutineMoves(s, w);
      var x :| Enabled(s, x) && MovesWorker(s, x, w);
      assert CallStep(s, x, b);
    } else {
      assert Enabled(s, Receive(b)) && CallStep(s, Receive(b), b);
    }
  }

  // ---------- each step brings the end nearer ----------

  lemma {:induction false} WorkReplace(workers: seq<Worker>, i: nat, w: Worker, b: nat)
    requires i < |workers| && workers[i].batch == w.batch
    ensures Work(workers[i := w], b) == Work(workers, b) + if w.batch == b then Rank(w) - Rank(workers[i]) else 0
  {
    var last := |workers| - 1;
    if i == last {
      assert workers[i := w][..last] == workers[..last];
    } else {
      WorkReplace(workers[..last], i, w, b);
      assert workers[i := w][..last] == workers[..last][i := w];
    }
  }

  lemma {:induction false} WorkElsewhere(workers: seq<Worker>, more: seq<Worker>, b: nat)
    requires forall i :: 0 <= i < |more| ==> more[i].batch != b
    ensures Work(workers + more, b) == Work(workers, b)
  {
    if more == [] {
      assert workers + more == workers;
    } else {
      WorkElsewhere(workers, more[..|more| - 1], b);
      assert (workers + more)[..|workers + more| - 1] == workers + more[..|more| - 1];
    }
  }

  lemma WorkerStepShape(s: State, x: Action)
    requires Inv(s) && Enabled(s, x) && !x.Start? && !x.Receive?
    ensures var s' := Apply(s, x);
            && |s'.batches| == |s.batches|
            && (forall b :: 0 <= b < |s.batches| ==>
                  s'.batches[b].accounts == s.batches[b].accounts && s'.batches[b].received == s.batches[b].received)
            && (s'.workers == s.workers
                || (WorkerOf(x) < |s.workers| && |s'.workers| == |s.workers|
                    && s'.workers == s.workers[WorkerOf(x) := s'.workers[WorkerOf(x)]]
                    && s'.workers[WorkerOf(x)].batch == s.workers[WorkerOf(x)].batch))
  {
    if x.Push? {
      assert Apply(s, x).workers == s.workers[x.w := s.workers[x.w].(pc := Exited(s.workers[x.w].pc.ok))];
    } else {
      QuietStepShape(s, x);
    }
  }

  lemma MoveLowersRank(s: State, x: Action, w: nat)
    requires Inv(s) && Enabled(s, x) && w < |s.workers|
    ensures w < |Apply(s, x).workers|
    ensures Rank(Apply(s, x).workers[w]) + (if MovesWorker(s, x, w) then 1 else 0) <= Rank(s.workers[w])
  {
    RankFalls(s, x, w);
  }

  lemma CallStepMoves(s: State, x: Action, b: nat)
    requires !x.Receive?
    ensures CallStep(s, x, b) <==>
            WorkerOf(x) < |s.workers| && MovesWorker(s, x, WorkerOf(x)) && s.workers[WorkerOf(x)].batch == b
  {
  }

  lemma WorkerStepFalls(s: State, x: Action, b: nat)
    requires Inv(s) && Enabled(s, x) && b < |s.batches| && !x.Start? && !x.Receive?
    ensures b < |Apply(s, x).batches|
    ensures Potential(Apply(s, x), b) + (if CallStep(s, x, b) then 1 else 0) <= Potential(s, b)
  {
    var s', w := Apply(s, x), WorkerOf(x);
    WorkerStepShape(s, x);
    CallStepMoves(s, x, b);
    if w < |s.workers| {
      MoveLowersRank(s, x, w);
      if s'.workers != s.workers {
        WorkReplace(s.workers, w, s'.workers[w], b);
      }
    }
  }

  lemma PotentialFalls(s: State, x: Action, b: nat)
    requires Inv(s) && Enabled(s, x) && b < |s.batches|
    ensures b < |Apply(s, x).batches|
    ensures Potential(Apply(s, x), b) + (if CallStep(s, x, b) then 1 else 0) <= Potential(s, b)
  {
    match x
    case Start(accounts) => WorkElsewhere(s.workers, Spawn(|s.batches|, accounts), b);
    case Receive(_) =>
    case _ => WorkerStepFalls(s, x, b);
  }

  /** How many steps of the call a run takes. */
  function CallSteps(s: State, run: seq<Action>, b: nat): nat
    requires ValidRun(s, run)
    decreases |run|
  {
    if run == [] then 0
    else (if CallStep(s, run[0], b) then 1 else 0) + CallSteps(Apply(s, run[0]), run[1..], b)
  }

  lemma {:induction false} CallStepsFall(s: State, run: seq<Action>, b: nat)
    requires Inv(s) && ValidRun(s, run) && b < |s.batches|
    ensures b < |After(s, run).batches| && CallSteps(s, run, b) + Potential(After(s, run), b) <= Potential(s, b)
    decreases |run|
  {
    if run != [] {
      StepKeepsInv(s, run[0]);
      PotentialFalls(s, run[0], b);
      CallStepsFall(Apply(s, run[0]), run[1..], b);
    }
  }

  lemma {:induction false} NewWork(b: nat, accounts: seq<Account>)
    ensures Work(Spawn(b, accounts), b) == |accounts| * (POLLS + 8)
  {
    if accounts != [] {
      NewWork(b, accounts[..|accounts| - 1]);
      assert Spawn(b, accounts)[..|accounts| - 1] == Spawn(b, accounts[..|accounts| - 1]);
      assert |accounts| * (POLLS + 8) == (|accounts| - 1) * (POLLS + 8) + (POLLS + 8);
    }
  }

  lemma {:induction false} WorkAdds(workers: seq<Worker>, more: seq<Worker>, b: nat)
    ensures Work(workers + more, b) == Work(workers, b) + Work(more, b)
  {
    if more == [] {
      assert workers + more == workers;
    } else {
      WorkAdds(workers, more[..|more| - 1], b);
      assert (workers + more)[..|workers + more| - 1] == workers + more[..|more| - 1];
    }
  }

  lemma {:induction false} NoWork(workers: seq<Worker>, b: nat)
    requires forall w :: 0 <= w < |workers| ==> workers[w].batch != b
    ensures Work(workers, b) == 0
  {
    if workers != [] {
      NoWork(workers[..|workers| - 1], b);
    }
  }

  /** After its start a call takes at most POLLS + 9 steps for each of its accounts, whatever else happens in between. */
  lemma CallStepsBounded(s: State, accounts: seq<Account>, run: seq<Action>)
    requires Reachable(s) && Enabled(s, Start(accounts)) && ValidRun(Apply(s, Start(accounts)), run)
    ensures CallSteps(Apply(s, Start(accounts)), run, |s.batches|) <= |accounts| * (POLLS + 9)
  {
    var b, started := |s.batches|, Apply(s, Start(accounts));
    ReachableInv(s);
    StepKeepsInv(s, Start(accounts));
    NoWork(s.workers, b);
    WorkAdds(s.workers, Spawn(b, accounts), b);
    NewWork(b, accounts);
    CallStepsFall(started, run, b);
    RunKeepsInv(started, run);
    PotentialIsNat(After(started, run), b);
  }

  // ---------- fair schedules ----------

  /** An infinite schedule; at None nothing happens. */
  ghost predicate Schedule(states: nat -> State, steps: nat -> Option<Action>) {
    && states(0) == INITIAL
    && forall n: nat :: Next(states(n), steps(n), states(n + 1))
  }

  predicate Next(s: State, x: Option<Action>, s': State) {
    if x.None? then s' == s else Enabled(s, x.value) && s' == Apply(s, x.value)
  }

  ghost predicate Attends(states: nat -> State, steps: nat -> Option<Action>, b: nat, m: nat) {
    !Open(states(m), b) || (steps(m).Some? && CallStep(states(m), steps(m).value, b))
  }

  /** An open call, which can always move, is not passed over for ever. */
  ghost predicate FairTo(states: nat -> State, steps: nat -> Option<Action>, b: nat) {
    forall n :: Open(states(n), b) ==> exists m :: m >= n && Attends(states, steps, b, m)
  }

  lemma {:induction false} ScheduleInv(states: nat -> State, steps: nat -> Option<Action>, n: nat)
    requires Schedule(states, steps)
    ensures Inv(states(n))
  {
    if n == 0 {
      InitialInv();
    } else {
      ScheduleInv(states, steps, n - 1);
      assert Next(states(n - 1), steps(n - 1), states(n - 1 + 1));
      if steps(n - 1).Some? {
        StepKeepsInv(states(n - 1), steps(n - 1).value);
      }
    }
  }

  lemma OneStepOn(states: nat -> State, steps: nat -> Option<Action>, b: nat, n: nat)
    requires Schedule(states, steps) && b < |states(n).batches|
    ensures b < |states(n + 1).batches|
    ensures var taken := if steps(n).Some? && CallStep(states(n), steps(n).value, b) then 1 else 0;
            Potential(states(n + 1), b) + taken <= Potential(states(n), b)
  {
    ScheduleInv(states, steps, n);
    assert Next(states(n), steps(n), states(n + 1));
    if steps(n).Some? {
      PotentialFalls(states(n), steps(n).value, b);
    }
  }

  lemma {:induction false} StepsOn(states: nat -> State, steps: nat -> Option<Action>, b: nat, n: nat, m: nat)
    requires Schedule(states, steps) && n <= m && b < |states(n).batches|
    ensures b < |states(m).batches| && Potential(states(m), b) <= Potential(states(n), b)
    decreases m - n
  {
    if n < m {
      OneStepOn(states, steps, b, n);
      StepsOn(states, steps, b, n + 1, m);
    }
  }

  lemma {:induction false} ReturnsBy(states: nat -> State, steps: nat -> Option<Action>, b: nat, n: nat, fuel: nat)
    returns (m: nat)
    requires Schedule(states, steps) && FairTo(states, steps, b) && b < |states(n).batches|
    requires Potential(states(n), b) <= fuel
    ensures m >= n && b < |states(m).batches| && states(m).batches[b].result.Some?
    decreases fuel
  {
    if !Open(states(n), b) {
      return n;
    }
    m :| m >= n && Attends(states, steps, b, m);
    StepsOn(states, steps, b, n, m);
    if Open(states(m), b) {
      OneStepOn(states, steps, b, m);
      ScheduleInv(states, steps, m + 1);
      PotentialIsNat(states(m + 1), b);
      m := ReturnsBy(states, steps, b, m + 1, fuel - 1);
    }
  }

  /** Every call returns under every schedule that is fair to it. */
  lemma FairCallReturns(states: nat -> State, steps: nat -> Option<Action>, b: nat, n: nat)
    requires Schedule(states, steps) && FairTo(states, steps, b) && b < |states(n).batches|
    ensures exists m :: m >= n && b < |states(m).batches| && states(m).batches[b].result.Some?
  {
    ScheduleInv(states, steps, n);
    PotentialIsNat(states(n), b);
    var m := ReturnsBy(states, steps, b, n, Potential(states(n), b));
  }

  // ---------- weak fairness of each participant ----------

  ghost predicate CanMove(s: State, w: nat) {
    exists x :: Enabled(s, x) && MovesWorker(s, x, w)
  }

  predicate Moved(s: State, x: Option<Action>, w: nat) {
    x.Some? && MovesWorker(s, x.value, w)
  }

  /** A goroutine that can always move is not passed over for ever. */
  ghost predicate FairToWorker(states: nat -> State, steps: nat -> Option<Action>, w: nat) {
    forall n :: w < |states(n).workers| ==>
      exists m :: m >= n && (!CanMove(states(m), w) || Moved(states(m), steps(m), w))
  }

  /** Nor is a collector with a result to take. */
  ghost predicate FairToCollector(states: nat -> State, steps: nat -> Option<Action>, b: nat) {
    forall n :: b < |states(n).batches| ==>
      exists m :: m >= n && (!Enabled(states(m), Receive(b)) || steps(m) == Some(Receive(b)))
  }

  ghost predicate WeaklyFair(states: nat -> State, steps: nat -> Option<Action>) {
    (forall w :: FairToWorker(states, steps, w)) && forall b :: FairToCollector(states, steps, b)
  }

  lemma {:induction false} OneMore(s: State, run: seq<Action>, x: Action)
    requires ValidRun(s, run) && Enabled(After(s, run), x)
    ensures ValidRun(s, run + [x]) && After(s, run + [x]) == Apply(After(s, run), x)
    decreases |run|
  {
    if run == [] {
      assert [] + [x] == [x] && [x][1..] == [];
    } else {
      OneMore(Apply(s, run[0]), run[1..], x);
      assert (run + [x])[1..] == run[1..] + [x];
    }
  }

  lemma {:induction false} ScheduleReachable(states: nat -> State, steps: nat -> Option<Action>, n: nat)
    requires Schedule(states, steps)
    ensures Reachable(states(n))
  {
    if n == 0 {
      assert ValidRun(INITIAL, []) && After(INITIAL, []) == INITIAL;
    } else {
      ScheduleReachable(states, steps, n - 1);
      assert Next(states(n - 1), steps(n - 1), states(n - 1 + 1));
      if steps(n - 1).Some? {
        var run :| ValidRun(INITIAL, run) && After(INITIAL, run) == states(n - 1);
        OneMore(INITIAL, run, steps(n - 1).value);
      }
    }
  }

  /** Only its own moves change where a goroutine is; its call stays the same. */
  lemma OthersDoNotMove(s: State, x: Action, w: nat)
    requires Inv(s) && Enabled(s, x) && w < |s.workers|
    ensures w < |Apply(s, x).workers| && Apply(s, x).workers[w].batch == s.workers[w].batch
    ensures Apply(s, x).workers[w].pc == s.workers[w].pc || MovesWorker(s, x, w)
  {
  }

  /** A goroutine that is somewhere else later has moved in between. */
  lemma {:induction false} MovedBetween(states: nat -> State, steps: nat -> Option<Action>, w: nat, n: nat, m: nat)
    returns (i: nat)
    requires Schedule(states, steps) && n <= m && w < |states(n).workers|
    ensures n <= i <= m && w < |states(i).workers| && states(i).workers[w].batch == states(n).workers[w].batch
    ensures i < m ==> Moved(states(i), steps(i), w)
    ensures i == m ==> states(m).workers[w].pc == states(n).workers[w].pc
    decreases m - n
  {
    i := n;
    if n < m && !Moved(states(n), steps(n), w) {
      ScheduleInv(states, steps, n);
      assert Next(states(n), steps(n), states(n + 1));
      if steps(n).Some? {
        OthersDoNotMove(states(n), steps(n).value, w);
      }
      i := MovedBetween(states, steps, w, n + 1, m);
    }
  }

  lemma OthersDoNotTake(s: State, x: Action, b: nat)
    requires Enabled(s, x) && Enabled(s, Receive(b)) && x != Receive(b)
    ensures Enabled(Apply(s, x), Receive(b))
  {
  }

  /** A result that cannot be taken any more has been taken in between. */
  lemma {:induction false} TakenBetween(states: nat -> State, steps: nat -> Option<Action>, b: nat, n: nat, m: nat)
    returns (i: nat)
    requires Schedule(states, steps) && n <= m && Enabled(states(n), Receive(b))
    ensures n <= i <= m
    ensures i < m ==> steps(i) == Some(Receive(b))
    ensures i == m ==> Enabled(states(m), Receive(b))
    decreases m - n
  {
    i := n;
    if n < m && steps(n) != Some(Receive(b)) {
      assert Next(states(n), steps(n), states(n + 1));
      if steps(n).Some? {
        OthersDoNotTake(states(n), steps(n).value, b);
      }
      i := TakenBetween(states, steps, b, n + 1, m);
    }
  }

  lemma CollectorAttends(states: nat -> State, steps: nat -> Option<Action>, b: nat, n: nat) returns (m: nat)
    requires Schedule(states, steps) && FairToCollector(states, steps, b) && Enabled(states(n), Receive(b))
    ensures m >= n && Attends(states, steps, b, m)
  {
    m :| m >= n && (!Enabled(states(m), Receive(b)) || steps(m) == Some(Receive(b)));
    var i := TakenBetween(states, steps, b, n, m);
    if i < m {
      m := i;
    }
    assert CallStep(states(m), Receive(b), b);
  }

  lemma WorkerAttends(states: nat -> State, steps: nat -> Option<Action>, b: nat, w: nat, n: nat) returns (m: nat)
    requires Schedule(states, steps) && FairToWorker(states, steps, w)
    requires w < |states(n).workers| && states(n).workers[w].batch == b && !states(n).workers[w].pc.Exited?
    ensures m >= n && Attends(states, steps, b, m)
  {
    m :| m >= n && (!CanMove(states(m), w) || Moved(states(m), steps(m), w));
    var i := MovedBetween(states, steps, w, n, m);
    if i == m && !Moved(states(m), steps(m), w) {
      ScheduleReachable(states, steps, m);
      GoroutineMoves(states(m), w);
      assert CanMove(states(m), w);
    }
    m := i;
    assert Moved(states(m), steps(m), w) && CallStep(states(m), steps(m).value, b);
  }

  /** Weak fairness to each goroutine and collector is fairness to each call. */
  lemma WeaklyFairIsFair(states: nat -> State, steps: nat -> Option<Action>, b: nat)
    requires Schedule(states, steps) && WeaklyFair(states, steps)
    ensures FairTo(states, steps, b)
  {
    forall n | Open(states(n), b)
      ensures exists m :: m >= n && Attends(states, steps, b, m)
    {
      if states(n).batches[b].channel != [] {
        assert FairToCollector(states, steps, b);
        var m := CollectorAttends(states, steps, b, n);
      } else {
        ScheduleInv(states, steps, n);
        var w := SomeoneWorks(states(n), b);
        assert FairToWorker(states, steps, w);
        var m := WorkerAttends(states, steps, b, w, n);
      }
    }
  }

  /** Every call returns under every weakly fair schedule. */
  lemma FairSchedulesReturn(states: nat -> State, steps: nat -> Option<Action>, b: nat, n: nat)
    requires Schedule(states, steps) && WeaklyFair(states, steps) && b < |states(n).batches|
    ensures exists m :: m >= n && b < |states(m).batches| && states(m).batches[b].result.Some?
  {
    WeaklyFairIsFair(states, steps, b);
    FairCallReturns(states, steps, b, n);
  }
}
