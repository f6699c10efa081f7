/** What every interleaving of the deposit protocol guarantees. */
module DepositTheorems {
  import opened GoIntegers
  import opened Wrappers
  import opened Keys
  import opened DepositProtocol

  // ---------- counting ----------

  function One(w: Worker, b: nat, kind: Kind): nat {
    if Is(w, b, kind) then 1 else 0
  }

  lemma {:induction false} CountUpdate(workers: seq<Worker>, i: nat, w: Worker, b: nat, kind: Kind)
    requires i < |workers|
    ensures Count(workers[i := w], b, kind) == Count(workers, b, kind) - One(workers[i], b, kind) + One(w, b, kind)
  {
    var last := |workers| - 1;
    if i == last {
      assert workers[i := w][..last] == workers[..last];
    } else {
      CountUpdate(workers[..last], i, w, b, kind);
      assert workers[i := w][..last] == workers[..last][i := w];
    }
  }

  lemma {:induction false} CountAppend(a: seq<Worker>, c: seq<Worker>, b: nat, kind: Kind)
    ensures Count(a + c, b, kind) == Count(a, b, kind) + Count(c, b, kind)
  {
    if c == [] {
      assert a + c == a;
    } else {
      CountAppend(a, c[..|c| - 1], b, kind);
      assert (a + c)[..|a + c| - 1] == a + c[..|c| - 1];
    }
  }

  /** A count over workers that all satisfy it, or none of which does. */
  lemma {:induction false} CountUniform(workers: seq<Worker>, b: nat, kind: Kind, all: bool)
    requires forall i :: 0 <= i < |workers| ==> (Is(workers[i], b, kind) <==> all)
    ensures Count(workers, b, kind) == if all then |workers| else 0
  {
    if workers != [] {
      CountUniform(workers[..|workers| - 1], b, kind, all);
    }
  }

  /** A stronger kind is counted less often, and equally often only if it covers every worker of the weaker one. */
  lemma {:induction false} CountGap(workers: seq<Worker>, b: nat, strong: Kind, weak: Kind)
    requires weak.Member? || strong.Succeeded? || strong == weak
    ensures Count(workers, b, strong) <= Count(workers, b, weak)
    ensures Count(workers, b, strong) == Count(workers, b, weak) <==>
            forall i :: 0 <= i < |workers| && Is(workers[i], b, weak) ==> Is(workers[i], b, strong)
  {
    if workers != [] {
      var init := workers[..|workers| - 1];
      CountGap(init, b, strong, weak);
      assert workers == init + [workers[|workers| - 1]];
    }
  }

  lemma {:induction false} CountTrueBound(results: seq<bool>)
    ensures CountTrue(results) <= |results|
    ensures CountTrue(results) == |results| <==> AllTrue(results)
  {
    if results != [] {
      CountTrueBound(results[..|results| - 1]);
    }
  }

  // ---------- the channel invariant is kept ----------

  predicate TouchesChannel(x: Action) {
    x.Start? || x.Push? || x.Receive?
  }

  function WorkerOf(x: Action): nat {
    match x
    case TakeNonce(Depositor(w)) => w
    case NotSent(Depositor(w)) => w
    case Sent(Depositor(w), _) => w
    case Poll(Depositor(w)) => w
    case Receipt(Depositor(w)) => w
    case ReceiptFails(Depositor(w)) => w
    case DepositNotSent(w) => w
    case DepositSent(w, _) => w
    case DepositReceipt(w, _) => w
    case DepositWaitFails(w) => w
    case Push(w) => w
    case ExecuteDeposit(w, _) => w
    case _ => 0
  }

  /** A change of a worker that no count sees. */
  predicate Neutral(o: Worker, n: Worker) {
    && o.batch == n.batch && o.account == n.account
    && (o.pc == n.pc || (!o.pc.Exited? && !n.pc.Exited?))
  }

  lemma QuietStepShape(s: State, x: Action)
    requires DeployInv(s) && Enabled(s, x) && !TouchesChannel(x)
    ensures var s' := Apply(s, x);
            && s'.batches == s.batches
            && (s'.workers == s.workers
                || (WorkerOf(x) < |s.workers| && |s'.workers| == |s.workers|
                    && s'.workers == s.workers[WorkerOf(x) := s'.workers[WorkerOf(x)]]
                    && Neutral(s.workers[WorkerOf(x)], s'.workers[WorkerOf(x)])))
  {
  }

  lemma QuietUpdate(batch: Batch, workers: seq<Worker>, w: nat, new_: Worker, b: nat)
    requires w < |workers| && Neutral(workers[w], new_) && BatchInv(batch, workers, b)
    ensures BatchInv(batch, workers[w := new_], b)
  {
    CountUpdate(workers, w, new_, b, Member);
    CountUpdate(workers, w, new_, b, Reported);
    CountUpdate(workers, w, new_, b, Succeeded);
  }

  /** A step that starts and reports nothing leaves every count as it was. */
  lemma QuietStepKeepsChannel(s: State, x: Action)
    requires DeployInv(s) && ChannelInv(s) && Enabled(s, x) && !TouchesChannel(x)
    ensures ChannelInv(Apply(s, x))
  {
    var s' := Apply(s, x);
    QuietStepShape(s, x);
    QuietWorkers(s, s'.workers, WorkerOf(x));
    assert s'.batches == s.batches;
  }

  lemma QuietWorkers(s: State, workers: seq<Worker>, w: nat)
    requires ChannelInv(s)
    requires workers == s.workers || (w < |s.workers| && |workers| == |s.workers|
                                      && workers == s.workers[w := workers[w]] && Neutral(s.workers[w], workers[w]))
    ensures ChannelInv(s.(workers := workers))
  {
    assert WorkerAccounts(workers) == WorkerAccounts(s.workers);
    forall b | 0 <= b < |s.batches|
      ensures BatchInv(s.batches[b], workers, b)
    {
      assert BatchInv(s.batches[b], s.workers, b);
      if workers != s.workers {
        QuietUpdate(s.batches[b], s.workers, w, workers[w], b);
      }
    }
  }

  lemma PushBatch(o: Batch, workers: seq<Worker>, w: nat, new_: Worker, b: nat)
    requires w < |workers| && workers[w].pc.Reporting? && workers[w].batch == b && BatchInv(o, workers, b)
    requires new_ == workers[w].(pc := Exited(workers[w].pc.ok))
    ensures BatchInv(o.(channel := o.channel + [workers[w].pc.ok]), workers[w := new_], b)
  {
    CountUpdate(workers, w, new_, b, Member);
    CountUpdate(workers, w, new_, b, Reported);
    CountUpdate(workers, w, new_, b, Succeeded);
    var results := o.received + o.channel;
    var longer := results + [workers[w].pc.ok];
    assert o.received + (o.channel + [workers[w].pc.ok]) == longer;
    assert longer[..|longer| - 1] == results;
  }

  lemma PushElsewhere(o: Batch, workers: seq<Worker>, w: nat, new_: Worker, b: nat)
    requires w < |workers| && workers[w].batch == new_.batch != b && BatchInv(o, workers, b)
    ensures BatchInv(o, workers[w := new_], b)
  {
    CountUpdate(workers, w, new_, b, Member);
    CountUpdate(workers, w, new_, b, Reported);
    CountUpdate(workers, w, new_, b, Succeeded);
  }

  lemma PushKeepsChannel(s: State, w: nat)
    requires ChannelInv(s) && Enabled(s, Push(w))
    ensures ChannelInv(Apply(s, Push(w)))
  {
    var s' := Apply(s, Push(w));
    var new_ := s'.workers[w];
    assert WorkerAccounts(s'.workers) == WorkerAccounts(s.workers);
    AccountsUpdate(s.batches, s.workers[w].batch, s'.batches[s.workers[w].batch]);
    forall b | 0 <= b < |s'.batches|
      ensures BatchInv(s'.batches[b], s'.workers, b)
    {
      assert BatchInv(s.batches[b], s.workers, b);
      if b == s.workers[w].batch {
        PushBatch(s.batches[b], s.workers, w, new_, b);
      } else {
        PushElsewhere(s.batches[b], s.workers, w, new_, b);
      }
    }
  }

  lemma ReceiveKeepsChannel(s: State, b: nat)
    requires ChannelInv(s) && Enabled(s, Receive(b))
    ensures ChannelInv(Apply(s, Receive(b)))
  {
    var s' := Apply(s, Receive(b));
    AccountsUpdate(s.batches, b, s'.batches[b]);
    forall c | 0 <= c < |s'.batches|
      ensures BatchInv(s'.batches[c], s'.workers, c)
    {
      assert BatchInv(s.batches[c], s.workers, c);
      if c == b {
        var o, n := s.batches[b], s'.batches[b];
        assert n.received + n.channel == o.received + o.channel;
        CountGap(s.workers, b, Reported, Member);
      }
    }
  }

  lemma StartKeepsChannel(s: State, accounts: seq<Account>)
    requires ChannelInv(s) && Enabled(s, Start(accounts))
    ensures ChannelInv(Apply(s, Start(accounts)))
  {
    var s' := Apply(s, Start(accounts));
    var spawned := Spawn(|s.batches|, accounts);
    assert WorkerAccounts(s'.workers) == WorkerAccounts(s.workers) + accounts;
    assert s'.batches[..|s'.batches| - 1] == s.batches;
    forall b | 0 <= b < |s'.batches|
      ensures BatchInv(s'.batches[b], s'.workers, b)
    {
      var fresh_ := b == |s.batches|;
      CountAppend(s.workers, spawned, b, Member);
      CountAppend(s.workers, spawned, b, Reported);
      CountAppend(s.workers, spawned, b, Succeeded);
      CountUniform(spawned, b, Member, fresh_);
      CountUniform(spawned, b, Reported, false);
      CountUniform(spawned, b, Succeeded, false);
      if fresh_ {
        CountUniform(s.workers, b, Member, false);
        CountUniform(s.workers, b, Reported, false);
        CountUniform(s.workers, b, Succeeded, false);
      } else {
        assert BatchInv(s.batches[b], s.workers, b);
      }
    }
  }

  lemma {:induction false} AccountsUpdate(batches: seq<Batch>, b: nat, new_: Batch)
    requires b < |batches| && new_.accounts == batches[b].accounts
    ensures AllAccounts(batches[b := new_]) == AllAccounts(batches)
  {
    var last := |batches| - 1;
    if b == last {
      assert batches[b := new_][..last] == batches[..last];
    } else {
      AccountsUpdate(batches[..last], b, new_);
      assert batches[b := new_][..last] == batches[..last][b := new_];
    }
  }

  // ---------- runs ----------

  lemma StepKeepsChannel(s: State, x: Action)
    requires DeployInv(s) && ChannelInv(s) && Enabled(s, x)
    ensures ChannelInv(Apply(s, x))
  {
    match x
    case Start(accounts) => StartKeepsChannel(s, accounts);
    case Push(w) => PushKeepsChannel(s, w);
    case Receive(b) => ReceiveKeepsChannel(s, b);
    case _ => QuietStepKeepsChannel(s, x);
  }

  lemma StepKeepsInv(s: State, x: Action)
    requires Inv(s) && Enabled(s, x)
    ensures Inv(Apply(s, x))
  {
    StepKeepsNonces(s, x);
    StepKeepsOwners(s, x);
    StepKeepsDeployment(s, x);
    StepKeepsChain(s, x);
    StepKeepsDeposits(s, x);
    StepKeepsChannel(s, x);
  }

  lemma {:induction false} RunKeepsInv(s: State, run: seq<Action>)
    requires Inv(s) && ValidRun(s, run)
    ensures Inv(After(s, run))
    decreases |run|
  {
    if run != [] {
      StepKeepsInv(s, run[0]);
      RunKeepsInv(Apply(s, run[0]), run[1..]);
    }
  }

  lemma InitialInv()
    ensures Inv(INITIAL)
  {
  }

  lemma ReachableInv(s: State)
    requires Reachable(s)
    ensures Inv(s)
  {
    var run :| ValidRun(INITIAL, run) && After(INITIAL, run) == s;
    InitialInv();
    RunKeepsInv(INITIAL, run);
  }

  // ---------- nonces ----------

  /** The t-th nonce taken is t, wrapped to 64 bits, in every interleaving; so nonces repeat only past 2^64 of them. */
  lemma NoncesInOrder(s: State)
    requires Reachable(s)
    ensures forall t :: 0 <= t < |s.txns| ==> s.txns[t].nonce == t % TWO_64
    ensures (forall t, u :: 0 <= t < u < |s.txns| ==> s.txns[t].nonce != s.txns[u].nonce) <==> |s.txns| <= TWO_64
  {
    ReachableInv(s);
    if |s.txns| > TWO_64 {
      assert s.txns[0].nonce == s.txns[TWO_64].nonce;
    }
  }

  /** The contract deployment, and nothing else, holds nonce 0, and no goroutine starts before it has executed. */
  lemma DeploymentHoldsZero(s: State)
    requires Reachable(s) && |s.txns| <= TWO_64
    ensures forall t :: 0 <= t < |s.txns| ==> (s.txns[t].nonce == 0 <==> s.txns[t].owner.Deployer?)
    ensures s.workers != [] ==> s.txns != [] && s.txns[0].fate.Executed?
  {
    ReachableInv(s);
  }

  predicate NoneLost(s: State, t: nat)
    requires t < |s.txns|
  {
    forall u :: 0 <= u <= t ==> !s.txns[u].fate.Lost?
  }

  lemma {:induction false} LostStays(s: State, run: seq<Action>, t: nat)
    requires Inv(s) && ValidRun(s, run) && t < |s.txns| && s.txns[t].fate.Lost?
    ensures t < |After(s, run).txns| && After(s, run).txns[t].fate.Lost?
    decreases |run|
  {
    if run != [] {
      StepKeepsInv(s, run[0]);
      LostStaysOne(s, run[0], t);
      LostStays(Apply(s, run[0]), run[1..], t);
    }
  }

  lemma LostStaysOne(s: State, x: Action, t: nat)
    requires OwnerInv(s) && Enabled(s, x) && t < |s.txns| && s.txns[t].fate.Lost?
    ensures t < |Apply(s, x).txns| && Apply(s, x).txns[t].fate.Lost?
  {
    if x.NotSent? || x.Sent? {
      assert OwnsItsTxn(s, x.a);
    }
  }

  /** The step that brings the next transaction of the chain forward. */
  lemma NextAdvance(s: State, t: nat) returns (x: Action)
    requires Inv(s) && s.chainNonce <= t < |s.txns| <= TWO_64 && NoneLost(s, t)
    ensures Enabled(s, x) && |Apply(s, x).txns| == |s.txns| && NoneLost(Apply(s, x), t)
    ensures x.Execute? || (x.Sent? && x.reported)
    ensures if s.txns[s.chainNonce].fate.Held?
            then Apply(s, x).chainNonce == s.chainNonce && !Apply(s, x).txns[s.chainNonce].fate.Held?
            else Apply(s, x).chainNonce == s.chainNonce + 1
  {
    var c := s.chainNonce;
    if s.txns[c].fate.Held? {
      x := Sent(s.txns[c].owner, true);
      assert Apply(s, x).txns == s.txns[c := s.txns[c].(fate := Pooled)];
    } else {
      x := Execute(c);
      assert Apply(s, x).txns == s.txns[c := s.txns[c].(fate := Executed)];
    }
  }

  /** While no lower nonce is lost, the holders can send and the chain can execute up to t. */
  lemma {:induction false} CanExecute(s: State, t: nat) returns (run: seq<Action>)
    requires Inv(s) && t < |s.txns| <= TWO_64 && NoneLost(s, t)
    ensures ValidRun(s, run) && |After(s, run).txns| == |s.txns| && After(s, run).txns[t].fate.Executed?
    decreases t + 1 - s.chainNonce, if s.chainNonce < |s.txns| && s.txns[s.chainNonce].fate.Held? then 1 else 0
  {
    if s.chainNonce > t {
      return [];
    }
    var x := NextAdvance(s, t);
    StepKeepsInv(s, x);
    var rest := CanExecute(Apply(s, x), t);
    run := [x] + rest;
    assert run[1..] == rest;
  }

  /** Transaction t has executed in s', which s can lead to, and nonces have not wrapped around. */
  ghost predicate ExecutedLater(s: State, s': State, t: nat) {
    Leads(s, s') && t < |s'.txns| <= TWO_64 && s'.txns[t].fate.Executed?
  }

  /** The transactions that can ever execute are exactly those below the least lost nonce. */
  lemma ExecutableExactly(s: State, t: nat)
    requires Reachable(s) && t < |s.txns| <= TWO_64
    ensures (exists s' :: ExecutedLater(s, s', t)) <==> NoneLost(s, t)
  {
    ReachableInv(s);
    if NoneLost(s, t) {
      var run := CanExecute(s, t);
      assert ExecutedLater(s, After(s, run), t);
    } else {
      forall s' | ExecutedLater(s, s', t)
        ensures false
      {
        LostForGood(s, s', t);
      }
    }
  }

  lemma LostForGood(s: State, s': State, t: nat)
    requires Inv(s) && t < |s.txns| && !NoneLost(s, t)
    ensures !ExecutedLater(s, s', t)
  {
    if ExecutedLater(s, s', t) {
      var run :| ValidRun(s, run) && After(s, run) == s';
      var u :| 0 <= u <= t && s.txns[u].fate.Lost?;
      LostStays(s, run, u);
      RunKeepsInv(s, run);
    }
  }

  /** Once nothing is being sent and nothing in the pool is next, what has executed is exactly that. */
  lemma ExecutedExactly(s: State, t: nat)
    requires Reachable(s) && t < |s.txns| <= TWO_64
    requires forall u :: 0 <= u < |s.txns| ==> !s.txns[u].fate.Held?
    requires forall u :: 0 <= u < |s.txns| && s.txns[u].fate.Pooled? ==> s.txns[u].nonce != s.chainNonce
    ensures s.txns[t].fate.Executed? <==> NoneLost(s, t)
  {
    ReachableInv(s);
    if s.chainNonce <= t {
      assert s.txns[s.chainNonce].fate.Lost?;
    }
  }

  // ---------- the error channel ----------

  /** No goroutine ever blocks on errCh, even when its collector has long returned. */
  lemma PushNeverBlocks(s: State, w: nat)
    requires Reachable(s) && w < |s.workers| && s.workers[w].pc.Reporting?
    ensures Enabled(s, Push(w))
  {
    ReachableInv(s);
    var b := s.workers[w].batch;
    assert BatchInv(s.batches[b], s.workers, b);
    CountGap(s.workers, b, Reported, Member);
    assert Is(s.workers[w], b, Member) && !Is(s.workers[w], b, Reported);
  }

  /** A call returns nil exactly when all its deposits succeeded, and then each of them is logged. */
  lemma ResultExact(s: State, b: nat)
    requires Reachable(s) && b < |s.batches| && s.batches[b].result.Some?
    ensures s.batches[b].result.value <==>
            forall w :: 0 <= w < |s.workers| && s.workers[w].batch == b ==> s.workers[w].pc == Exited(true)
    ensures s.batches[b].result.value ==>
            forall w :: 0 <= w < |s.workers| && s.workers[w].batch == b ==> w in s.log
  {
    ReachableInv(s);
    var batch := s.batches[b];
    assert BatchInv(batch, s.workers, b);
    var results := batch.received + batch.channel;
    CountGap(s.workers, b, Reported, Member);
    CountGap(s.workers, b, Succeeded, Reported);
    CountGap(s.workers, b, Succeeded, Member);
    CountTrueBound(results);
    if batch.result.value {
      assert results == batch.received;
      assert forall w :: 0 <= w < |s.workers| && s.workers[w].batch == b ==> Is(s.workers[w], b, Member);
    } else {
      assert !results[|batch.received| - 1];
      var w :| 0 <= w < |s.workers| && Is(s.workers[w], b, Reported) && !Is(s.workers[w], b, Succeeded);
    }
  }

  /** A call that returned an error has a goroutine that failed. */
  lemma ErrorHasFailure(s: State, b: nat) returns (w: nat)
    requires Reachable(s) && b < |s.batches| && s.batches[b].result == Some(false)
    ensures w < |s.workers| && s.workers[w].batch == b && s.workers[w].pc == Exited(false)
  {
    ReachableInv(s);
    var batch := s.batches[b];
    assert BatchInv(batch, s.workers, b);
    var results := batch.received + batch.channel;
    CountGap(s.workers, b, Succeeded, Reported);
    CountTrueBound(results);
    assert !results[|batch.received| - 1];
    w :| 0 <= w < |s.workers| && Is(s.workers[w], b, Reported) && !Is(s.workers[w], b, Succeeded);
  }

  // ---------- no deadlock ----------

  function Rank(w: Worker): nat {
    match w.pc
    case NeedNonce => POLLS + 8
    case Sending(_) => POLLS + 7
    case Awaiting(_, polls) => polls + 6
    case Depositing => 5
    case AwaitingDeposit => if w.deposit.Pending? then 4 else 3
    case Reporting(_) => 1
    case Exited(_) => 0
  }

  function Work(workers: seq<Worker>, b: nat): nat {
    if workers == [] then 0
    else
      var w := workers[|workers| - 1];
      Work(workers[..|workers| - 1], b) + if w.batch == b then Rank(w) else 0
  }

  lemma {:induction false} WorkUpdate(workers: seq<Worker>, i: nat, w: Worker, b: nat)
    requires i < |workers| && workers[i].batch == w.batch == b
    ensures Work(workers[i := w], b) == Work(workers, b) - Rank(workers[i]) + Rank(w)
  {
    var last := |workers| - 1;
    if i == last {
      assert workers[i := w][..last] == workers[..last];
    } else {
      WorkUpdate(workers[..last], i, w, b);
      assert workers[i := w][..last] == workers[..last][i := w];
    }
  }

  /** The next step of a goroutine when every request it makes is served; a receipt may stay unfound. */
  function NextStep(w: nat, worker: Worker): Action
    requires !worker.pc.Exited?
  {
    match worker.pc
    case NeedNonce => TakeNonce(Depositor(w))
    case Sending(_) => Sent(Depositor(w), true)
    case Awaiting(_, _) => Poll(Depositor(w))
    case Depositing => DepositSent(w, true)
    case AwaitingDeposit => if worker.deposit.Pending? then ExecuteDeposit(w, true) else DepositReceipt(w, true)
    case Reporting(_) => Push(w)
  }

  lemma NextStepAdvances(s: State, w: nat)
    requires Inv(s) && w < |s.workers| && !s.workers[w].pc.Exited?
    requires s.workers[w].pc.Reporting? ==> Enabled(s, Push(w))
    ensures var x := NextStep(w, s.workers[w]);
            && Enabled(s, x)
            && |Apply(s, x).workers| == |s.workers|
            && Apply(s, x).workers == s.workers[w := Apply(s, x).workers[w]]
            && Apply(s, x).workers[w].batch == s.workers[w].batch
            && Rank(Apply(s, x).workers[w]) < Rank(s.workers[w])
            && |Apply(s, x).batches| == |s.batches|
            && forall b :: 0 <= b < |s.batches| ==>
                 && Apply(s, x).batches[b].received == s.batches[b].received
                 && Apply(s, x).batches[b].accounts == s.batches[b].accounts
  {
    assert OwnsItsTxn(s, Depositor(w));
    assert DepositMatchesPc(s.workers[w]);
  }

  /** A call that has not returned has a goroutine that still works, or a result to take. */
  lemma SomeoneWorks(s: State, b: nat) returns (w: nat)
    requires Inv(s) && b < |s.batches| && s.batches[b].result.None? && s.batches[b].channel == []
    ensures w < |s.workers| && s.workers[w].batch == b && !s.workers[w].pc.Exited?
    ensures s.workers[w].pc.Reporting? ==> Enabled(s, Push(w))
  {
    assert BatchInv(s.batches[b], s.workers, b);
    CountGap(s.workers, b, Reported, Member);
    w :| 0 <= w < |s.workers| && Is(s.workers[w], b, Member) && !Is(s.workers[w], b, Reported);
  }

  /** From every reachable state every open call can still return, by steps in which no request is refused. */
  lemma {:induction false} CanReturn(s: State, b: nat) returns (run: seq<Action>)
    requires Inv(s) && b < |s.batches|
    ensures ValidRun(s, run) && b < |After(s, run).batches| && After(s, run).batches[b].result.Some?
    decreases Work(s.workers, b) + |s.batches[b].accounts| - |s.batches[b].received|
  {
    if s.batches[b].result.Some? {
      return [];
    }
    assert BatchInv(s.batches[b], s.workers, b);
    var x := Receive(b);
    if s.batches[b].channel == [] {
      var w := SomeoneWorks(s, b);
      x := NextStep(w, s.workers[w]);
      NextStepAdvances(s, w);
      WorkUpdate(s.workers, w, Apply(s, x).workers[w], b);
    }
    StepKeepsInv(s, x);
    var s' := Apply(s, x);
    assert BatchInv(s'.batches[b], s'.workers, b);
    var rest := CanReturn(s', b);
    run := [x] + rest;
    assert run[1..] == rest;
  }

  lemma NeverDeadlocks(s: State, b: nat)
    requires Reachable(s) && b < |s.batches|
    ensures exists s' :: Leads(s, s') && b < |s'.batches| && s'.batches[b].result.Some?
  {
    ReachableInv(s);
    var run := CanReturn(s, b);
    assert Leads(s, After(s, run));
  }

  predicate StepOf(x: Action, w: nat) {
    !TouchesNoWorker(x) && WorkerOf(x) == w
  }

  predicate TouchesNoWorker(x: Action) {
    match x
    case TakeNonce(a) => a.Deployer?
    case NotSent(a) => a.Deployer?
    case Sent(a, _) => a.Deployer?
    case Poll(a) => a.Deployer?
    case Receipt(a) => a.Deployer?
    case ReceiptFails(a) => a.Deployer?
    case Start(_) => true
    case Receive(_) => true
    case Execute(_) => true
    case ExecuteDeposit(_, _) => true
    case _ => false
  }

  function StepsOf(run: seq<Action>, w: nat): nat {
    if run == [] then 0 else (if StepOf(run[0], w) then 1 else 0) + StepsOf(run[1..], w)
  }

  lemma RankFalls(s: State, x: Action, w: nat)
    requires Inv(s) && Enabled(s, x) && w < |s.workers|
    ensures w < |Apply(s, x).workers|
    ensures Rank(Apply(s, x).workers[w]) + (if StepOf(x, w) then 1 else 0) <= Rank(s.workers[w])
  {
    assert DepositMatchesPc(s.workers[w]);
    assert OwnsItsTxn(s, Depositor(w));
  }

  /** Whatever the others do, a goroutine is finished after at most POLLS + 8 steps of its own. */
  lemma {:induction false} StepsBounded(s: State, run: seq<Action>, w: nat)
    requires Inv(s) && ValidRun(s, run) && w < |s.workers|
    ensures w < |After(s, run).workers|
    ensures StepsOf(run, w) + Rank(After(s, run).workers[w]) <= Rank(s.workers[w])
    decreases |run|
  {
    if run != [] {
      StepKeepsInv(s, run[0]);
      RankFalls(s, run[0], w);
      StepsBounded(Apply(s, run[0]), run[1..], w);
    }
  }

  // ---------- the deposit log ----------

  /** The accounts in the order in which the contract logged them. */
  function LogAccounts(s: State): seq<Account>
    requires forall i :: 0 <= i < |s.log| ==> s.log[i] < |s.workers|
  {
    Select(WorkerAccounts(s.workers), s.log)
  }

  function Select(accounts: seq<Account>, indices: seq<nat>): seq<Account>
    requires forall i :: 0 <= i < |indices| ==> indices[i] < |accounts|
  {
    seq(|indices|, i requires 0 <= i < |indices| => accounts[indices[i]])
  }

  /** The indices are 0..n-1 in some order. */
  predicate Enumerates(indices: seq<nat>, n: nat) {
    && (forall i :: 0 <= i < |indices| ==> indices[i] < n)
    && (forall i :: 0 <= i < n ==> i in indices)
    && (forall i, j :: 0 <= i < j < |indices| ==> indices[i] != indices[j])
  }

  lemma WithoutLargest(indices: seq<nat>, n: nat, k: nat)
    requires Enumerates(indices, n + 1) && k < |indices| && indices[k] == n
    ensures Enumerates(indices[..k] + indices[k + 1..], n)
  {
    var rest := indices[..k] + indices[k + 1..];
    forall i | 0 <= i < n
      ensures i in rest
    {
      assert i in indices;
      var j :| 0 <= j < |indices| && indices[j] == i;
      assert rest[if j < k then j else j - 1] == i;
    }
    forall j | 0 <= j < |rest|
      ensures rest[j] < n
    {
      assert rest[j] == indices[if j < k then j else j + 1];
    }
  }

  lemma SelectSplit(accounts: seq<Account>, indices: seq<nat>, k: nat, rest: seq<nat>)
    requires k < |indices| && indices[k] == |accounts| - 1 && rest == indices[..k] + indices[k + 1..]
    requires forall i :: 0 <= i < |indices| ==> indices[i] < |accounts|
    requires forall i :: 0 <= i < |rest| ==> rest[i] < |accounts| - 1
    ensures multiset(Select(accounts, indices))
            == multiset(Select(accounts[..|accounts| - 1], rest)) + multiset{accounts[|accounts| - 1]}
  {
    var picked := Select(accounts, indices);
    assert picked == picked[..k] + [picked[k]] + picked[k + 1..];
    assert Select(accounts[..|accounts| - 1], rest) == picked[..k] + picked[k + 1..];
  }

  /** Selecting every index exactly once permutes the accounts. */
  lemma {:induction false} SelectPermutes(accounts: seq<Account>, indices: seq<nat>)
    requires Enumerates(indices, |accounts|)
    ensures multiset(Select(accounts, indices)) == multiset(accounts)
  {
    if indices == [] {
      assert |accounts| > 0 ==> 0 in indices;
      assert accounts == [];
    } else {
      assert indices[0] < |accounts|;
      var last := |accounts| - 1;
      assert last in indices;
      var k :| 0 <= k < |indices| && indices[k] == last;
      var rest := indices[..k] + indices[k + 1..];
      WithoutLargest(indices, last, k);
      SelectPermutes(accounts[..last], rest);
      SelectSplit(accounts, indices, k, rest);
      assert accounts == accounts[..last] + [accounts[last]];
    }
  }

  /** When every call so far returned nil, the log is a permutation of all the accounts they were given. */
  lemma RoundsAddUp(s: State)
    requires Reachable(s)
    requires forall b :: 0 <= b < |s.batches| ==> s.batches[b].result == Some(true)
    ensures forall i :: 0 <= i < |s.log| ==> s.log[i] < |s.workers|
    ensures multiset(LogAccounts(s)) == multiset(AllAccounts(s.batches))
    ensures |s.log| == |AllAccounts(s.batches)|
  {
    ReachableInv(s);
    assert forall i :: 0 <= i < |s.log| ==> s.log[i] in s.log;
    forall w | 0 <= w < |s.workers|
      ensures w in s.log
    {
      ResultExact(s, s.workers[w].batch);
    }
    SelectPermutes(WorkerAccounts(s.workers), s.log);
    assert |multiset(LogAccounts(s))| == |s.log|;
    assert |multiset(AllAccounts(s.batches))| == |AllAccounts(s.batches)|;
  }
}
