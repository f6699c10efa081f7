/** One MakeDeposits call among others: its goroutines stand together in the list of workers, so the part of the deposit
    log that is due to the call can be compared with the accounts it was given. */
module DepositCalls {
  import opened Wrappers
  import opened Keys
  import opened DepositProtocol
  import opened DepositTheorems

  /** How many goroutines the calls before b started. */
  function Offset(batches: seq<Batch>, b: nat): nat
    requires b <= |batches|
  {
    if b == 0 then 0 else Offset(batches, b - 1) + |batches[b - 1].accounts|
  }

  lemma {:induction false} OffsetKept(o: seq<Batch>, n: seq<Batch>, b: nat)
    requires b <= |o| <= |n| && forall c :: 0 <= c < |o| ==> n[c].accounts == o[c].accounts
    ensures Offset(n, b) == Offset(o, b)
  {
    if b > 0 {
      OffsetKept(o, n, b - 1);
    }
  }

  /** Goroutine i of call b works for account i of the call. */
  predicate HasWorker(s: State, b: nat, i: nat)
    requires b < |s.batches| && i < |s.batches[b].accounts|
  {
    var w := Offset(s.batches, b) + i;
    w < |s.workers| && s.workers[w].batch == b && s.workers[w].account == s.batches[b].accounts[i]
  }

  predicate InItsCall(s: State, w: nat)
    requires w < |s.workers|
  {
    var b := s.workers[w].batch;
    b < |s.batches| && Offset(s.batches, b) <= w < Offset(s.batches, b) + |s.batches[b].accounts|
  }

  ghost predicate Placed(s: State) {
    && Offset(s.batches, |s.batches|) == |s.workers|
    && (forall b, i {:trigger HasWorker(s, b, i)} :: 0 <= b < |s.batches| && 0 <= i < |s.batches[b].accounts| ==> HasWorker(s, b, i))
    && (forall w {:trigger InItsCall(s, w)} :: 0 <= w < |s.workers| ==> InItsCall(s, w))
  }

  // ---------- every step keeps the goroutines in their places ----------

  /** What no step changes. */
  ghost predicate Kept(s: State, s': State) {
    && |s.workers| <= |s'.workers| && |s.batches| <= |s'.batches|
    && (forall w :: 0 <= w < |s.workers| ==>
          s'.workers[w].batch == s.workers[w].batch && s'.workers[w].account == s.workers[w].account)
    && (forall b :: 0 <= b < |s.batches| ==> s'.batches[b].accounts == s.batches[b].accounts)
  }

  lemma StepKeeps(s: State, x: Action)
    requires Enabled(s, x)
    ensures Kept(s, Apply(s, x))
    ensures !x.Start? ==> |Apply(s, x).workers| == |s.workers| && |Apply(s, x).batches| == |s.batches|
  {
  }

  lemma OldWorkersPlaced(s: State, s': State)
    requires Placed(s) && Kept(s, s')
    ensures Offset(s'.batches, |s.batches|) == |s.workers|
    ensures forall b, i :: 0 <= b < |s.batches| && 0 <= i < |s.batches[b].accounts| ==> HasWorker(s', b, i)
    ensures forall w :: 0 <= w < |s.workers| ==> InItsCall(s', w)
  {
    OffsetKept(s.batches, s'.batches, |s.batches|);
    forall b, i | 0 <= b < |s.batches| && 0 <= i < |s.batches[b].accounts|
      ensures HasWorker(s', b, i)
    {
      assert HasWorker(s, b, i);
      OffsetKept(s.batches, s'.batches, b);
    }
    forall w | 0 <= w < |s.workers|
      ensures InItsCall(s', w)
    {
      assert InItsCall(s, w);
      OffsetKept(s.batches, s'.batches, s.workers[w].batch);
    }
  }

  lemma StartPlaces(s: State, accounts: seq<Account>)
    requires Placed(s) && Enabled(s, Start(accounts))
    ensures Placed(Apply(s, Start(accounts)))
  {
    var s' := Apply(s, Start(accounts));
    var b := |s.batches|;
    StepKeeps(s, Start(accounts));
    OldWorkersPlaced(s, s');
    assert s'.batches[b].accounts == accounts && |s'.workers| == |s.workers| + |accounts|;
    forall i | 0 <= i < |accounts|
      ensures HasWorker(s', b, i) && InItsCall(s', |s.workers| + i)
    {
      assert s'.workers[|s.workers| + i] == Worker(b, accounts[i], NeedNonce, Unsent);
    }
    forall w | |s.workers| <= w < |s'.workers|
      ensures InItsCall(s', w)
    {
      assert w == |s.workers| + (w - |s.workers|);
    }
  }

  lemma StepPlaces(s: State, x: Action)
    requires Placed(s) && Enabled(s, x)
    ensures Placed(Apply(s, x))
  {
    if x.Start? {
      StartPlaces(s, x.accounts);
    } else {
      StepKeeps(s, x);
      OldWorkersPlaced(s, Apply(s, x));
    }
  }

  lemma {:induction false} RunPlaces(s: State, run: seq<Action>)
    requires Placed(s) && ValidRun(s, run)
    ensures Placed(After(s, run))
    decreases |run|
  {
    if run != [] {
      StepPlaces(s, run[0]);
      RunPlaces(Apply(s, run[0]), run[1..]);
    }
  }

  lemma ReachablePlaced(s: State)
    requires Reachable(s)
    ensures Placed(s)
  {
    var run :| ValidRun(INITIAL, run) && After(INITIAL, run) == s;
    RunPlaces(INITIAL, run);
  }

  // ---------- what a call added to the log ----------

  /** The log entries of the goroutines of call b, in order. */
  function CallLog(log: seq<nat>, workers: seq<Worker>, b: nat): seq<nat> {
    if log == [] then []
    else
      var w := log[|log| - 1];
      CallLog(log[..|log| - 1], workers, b) + if w < |workers| && workers[w].batch == b then [w] else []
  }

  lemma {:induction false} CallLogExact(log: seq<nat>, workers: seq<Worker>, b: nat)
    requires forall i, j :: 0 <= i < j < |log| ==> log[i] != log[j]
    ensures var calls := CallLog(log, workers, b);
            && (forall w :: w in calls <==> w in log && w < |workers| && workers[w].batch == b)
            && (forall i, j :: 0 <= i < j < |calls| ==> calls[i] != calls[j])
  {
    if log != [] {
      var init := log[..|log| - 1];
      CallLogExact(init, workers, b);
      assert log == init + [log[|log| - 1]];
      assert log[|log| - 1] !in init;
      var calls := CallLog(init, workers, b);
      assert forall i :: 0 <= i < |calls| ==> calls[i] in calls;
    }
  }

  predicate Within(indices: seq<nat>, offset: nat, n: nat) {
    forall i :: 0 <= i < |indices| ==> offset <= indices[i] < offset + n
  }

  function Shift(indices: seq<nat>, offset: nat, n: nat): seq<nat>
    requires Within(indices, offset, n)
  {
    seq(|indices|, i requires 0 <= i < |indices| => indices[i] - offset)
  }

  lemma ShiftEnumerates(indices: seq<nat>, offset: nat, n: nat)
    requires Within(indices, offset, n)
    requires forall w :: offset <= w < offset + n ==> w in indices
    requires forall i, j :: 0 <= i < j < |indices| ==> indices[i] != indices[j]
    ensures Enumerates(Shift(indices, offset, n), n)
  {
    var shifted := Shift(indices, offset, n);
    forall i | 0 <= i < n
      ensures i in shifted
    {
      assert offset + i in indices;
      var j :| 0 <= j < |indices| && indices[j] == offset + i;
      assert shifted[j] == i;
    }
  }

  /** The accounts that call b added to the log. */
  function LoggedBy(s: State, b: nat): seq<Account>
    requires Within(CallLog(s.log, s.workers, b), 0, |s.workers|)
  {
    Select(WorkerAccounts(s.workers), CallLog(s.log, s.workers, b))
  }

  /** The places of a call belong to it. */
  lemma WorkerOfCall(s: State, b: nat, w: nat)
    requires Placed(s) && b < |s.batches|
    requires Offset(s.batches, b) <= w < Offset(s.batches, b) + |s.batches[b].accounts|
    ensures w < |s.workers| && s.workers[w].batch == b
    ensures s.workers[w].account == s.batches[b].accounts[w - Offset(s.batches, b)]
  {
    assert HasWorker(s, b, w - Offset(s.batches, b));
  }

  lemma InCallLog(s: State, b: nat, w: nat)
    requires LogInv(s) && w in s.log && w < |s.workers| && s.workers[w].batch == b
    ensures w in CallLog(s.log, s.workers, b)
  {
    CallLogExact(s.log, s.workers, b);
  }

  lemma NilIsLogged(s: State, b: nat, w: nat)
    requires Reachable(s) && b < |s.batches| && s.batches[b].result == Some(true)
    requires w < |s.workers| && s.workers[w].batch == b
    ensures LogInv(s) && w in s.log
  {
    ReachableInv(s);
    ResultExact(s, b);
  }

  /** Every goroutine of a call that returned nil is among those it logged. */
  lemma CallLogCovers(s: State, b: nat, w: nat)
    requires Reachable(s) && Placed(s) && b < |s.batches| && s.batches[b].result == Some(true)
    requires Offset(s.batches, b) <= w < Offset(s.batches, b) + |s.batches[b].accounts|
    ensures w in CallLog(s.log, s.workers, b)
  {
    WorkerOfCall(s, b, w);
    NilIsLogged(s, b, w);
    InCallLog(s, b, w);
  }

  lemma CallLogWithin(s: State, b: nat)
    requires Inv(s) && Placed(s) && b < |s.batches|
    ensures Within(CallLog(s.log, s.workers, b), Offset(s.batches, b), |s.batches[b].accounts|)
    ensures Within(CallLog(s.log, s.workers, b), 0, |s.workers|)
    ensures forall i, j :: 0 <= i < j < |CallLog(s.log, s.workers, b)| ==>
              CallLog(s.log, s.workers, b)[i] != CallLog(s.log, s.workers, b)[j]
  {
    var calls := CallLog(s.log, s.workers, b);
    CallLogExact(s.log, s.workers, b);
    forall i | 0 <= i < |calls|
      ensures Offset(s.batches, b) <= calls[i] < Offset(s.batches, b) + |s.batches[b].accounts| && calls[i] < |s.workers|
    {
      assert calls[i] in calls;
      assert InItsCall(s, calls[i]);
    }
  }

  /** The goroutines of a call that returned nil are exactly those it logged. */
  lemma CallLogEnumerates(s: State, b: nat)
    requires Reachable(s) && b < |s.batches| && s.batches[b].result == Some(true)
    ensures var n := |s.batches[b].accounts|;
            && Placed(s) && Within(CallLog(s.log, s.workers, b), Offset(s.batches, b), n)
            && Within(CallLog(s.log, s.workers, b), 0, |s.workers|)
            && Enumerates(Shift(CallLog(s.log, s.workers, b), Offset(s.batches, b), n), n)
  {
    var calls, offset, n := CallLog(s.log, s.workers, b), Offset(s.batches, b), |s.batches[b].accounts|;
    ReachableInv(s);
    ReachablePlaced(s);
    CallLogWithin(s, b);
    forall w | offset <= w < offset + n
      ensures w in calls
    {
      CallLogCovers(s, b, w);
    }
    ShiftEnumerates(calls, offset, n);
  }

  lemma SelectShifted(all: seq<Account>, part: seq<Account>, calls: seq<nat>, offset: nat)
    requires Within(calls, offset, |part|) && offset + |part| <= |all| && part == all[offset..offset + |part|]
    ensures Within(calls, 0, |all|) && Select(all, calls) == Select(part, Shift(calls, offset, |part|))
  {
    forall i | 0 <= i < |calls|
      ensures all[calls[i]] == part[calls[i] - offset]
    {
    }
  }

  lemma CallEnds(s: State, b: nat)
    requires Placed(s) && b < |s.batches|
    ensures Offset(s.batches, b) + |s.batches[b].accounts| <= |s.workers|
  {
    OffsetBound(s, b + 1);
  }

  lemma SliceIs(workers: seq<Worker>, part: seq<Account>, offset: nat)
    requires offset + |part| <= |workers|
    requires forall w :: offset <= w < offset + |part| ==> workers[w].account == part[w - offset]
    ensures part == WorkerAccounts(workers)[offset..offset + |part|]
  {
  }

  lemma AccountsAt(s: State, b: nat)
    requires Placed(s) && b < |s.batches|
    ensures Offset(s.batches, b) + |s.batches[b].accounts| <= |s.workers|
    ensures forall w :: Offset(s.batches, b) <= w < Offset(s.batches, b) + |s.batches[b].accounts| ==>
              s.workers[w].account == s.batches[b].accounts[w - Offset(s.batches, b)]
  {
    CallEnds(s, b);
    forall w | Offset(s.batches, b) <= w < Offset(s.batches, b) + |s.batches[b].accounts|
      ensures s.workers[w].account == s.batches[b].accounts[w - Offset(s.batches, b)]
    {
      WorkerOfCall(s, b, w);
    }
  }

  /** The accounts of a call are those of its goroutines. */
  lemma CallIsSlice(s: State, b: nat, offset: nat, part: seq<Account>)
    requires Placed(s) && b < |s.batches| && offset == Offset(s.batches, b) && part == s.batches[b].accounts
    ensures offset + |part| <= |s.workers| && part == WorkerAccounts(s.workers)[offset..offset + |part|]
  {
    AccountsAt(s, b);
    SliceIs(s.workers, part, offset);
  }

  lemma OffsetBound(s: State, b: nat)
    requires Placed(s) && b <= |s.batches|
    ensures Offset(s.batches, b) <= |s.workers|
  {
    OffsetGrows(s.batches, b, |s.batches|);
  }

  lemma {:induction false} OffsetGrows(batches: seq<Batch>, b: nat, c: nat)
    requires b <= c <= |batches|
    ensures Offset(batches, b) <= Offset(batches, c)
    decreases c
  {
    if b < c {
      OffsetGrows(batches, b, c - 1);
    }
  }

  /** A call that returned nil has added to the log exactly the accounts it was given, whatever other calls did. */
  lemma CallAddsItsAccounts(s: State, b: nat)
    requires Reachable(s) && b < |s.batches| && s.batches[b].result == Some(true)
    ensures Within(CallLog(s.log, s.workers, b), 0, |s.workers|)
    ensures multiset(LoggedBy(s, b)) == multiset(s.batches[b].accounts)
  {
    var calls, accounts := CallLog(s.log, s.workers, b), s.batches[b].accounts;
    CallLogEnumerates(s, b);
    SelectPermutes(accounts, Shift(calls, Offset(s.batches, b), |accounts|));
    CallIsSlice(s, b, Offset(s.batches, b), accounts);
    SelectShifted(WorkerAccounts(s.workers), accounts, calls, Offset(s.batches, b));
  }

  /** The contract logged a deposit for this account. */
  predicate IsLogged(s: State, account: Account) {
    exists w :: w in s.log && w < |s.workers| && s.workers[w].account == account
  }

  predicate AreLogged(s: State, accounts: seq<Account>) {
    forall i :: 0 <= i < |accounts| ==> IsLogged(s, accounts[i])
  }

  lemma NilLogsAll(s: State, b: nat)
    requires Reachable(s) && b < |s.batches| && s.batches[b].result == Some(true)
    ensures AreLogged(s, s.batches[b].accounts)
  {
    forall i | 0 <= i < |s.batches[b].accounts|
      ensures IsLogged(s, s.batches[b].accounts[i])
    {
      var w := AccountIsLogged(s, b, i);
    }
  }

  lemma AccountIsLogged(s: State, b: nat, i: nat) returns (w: nat)
    requires Reachable(s) && b < |s.batches| && s.batches[b].result == Some(true) && i < |s.batches[b].accounts|
    ensures w in s.log && w < |s.workers| && s.workers[w].account == s.batches[b].accounts[i]
  {
    ReachablePlaced(s);
    ResultExact(s, b);
    w := Offset(s.batches, b) + i;
    assert HasWorker(s, b, i);
  }
}
