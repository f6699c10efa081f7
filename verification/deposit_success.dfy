/** When MakeDeposits succeeds: a call in which nothing has gone wrong can return nil, and a call returns nil exactly when
    each of its goroutines got its funding receipt and the parsed receipt of a logged deposit. */
module DepositSuccess {
  import opened GoIntegers
  import opened Wrappers
  import opened Keys
  import opened DepositProtocol
  import opened DepositTheorems
  import opened DepositLiveness
  import DepositCalls

  // ---------- what goroutines got along a run ----------

  /** The run holds the funding receipt of goroutine w. */
  predicate Funded(run: seq<Action>, w: nat) {
    Receipt(Depositor(w)) in run
  }

  /** The run holds a parsed deposit receipt of goroutine w, taken while its deposit was logged. */
  predicate Confirmed(s: State, run: seq<Action>, w: nat)
    requires ValidRun(s, run)
    decreases |run|
  {
    run != []
    && (Confirms(s, run[0], w) || Confirmed(Apply(s, run[0]), run[1..], w))
  }

  predicate Confirms(s: State, x: Action, w: nat) {
    x == DepositReceipt(w, true) && w < |s.workers| && s.workers[w].deposit.Logged?
  }

  predicate HasSucceeded(pc: Pc) {
    pc == Reporting(true) || pc == Exited(true)
  }

  /** How far a goroutine is, given what it got. */
  predicate Matches(s: State, w: nat, funded: bool, confirmed: bool) {
    if w >= |s.workers| then !funded && !confirmed
    else
      match s.workers[w].pc
      case NeedNonce => !funded && !confirmed
      case Sending(_) => !funded && !confirmed
      case Awaiting(_, _) => !funded && !confirmed
      case Depositing => funded && !confirmed
      case AwaitingDeposit => funded && !confirmed
      case Reporting(ok) => ok == confirmed && (confirmed ==> funded)
      case Exited(ok) => ok == confirmed && (confirmed ==> funded)
  }

  lemma OwnStepMatches(s: State, x: Action, w: nat, funded: bool, confirmed: bool)
    requires Inv(s) && Enabled(s, x) && Matches(s, w, funded, confirmed) && w < |s.workers| && StepOf(x, w)
    ensures Matches(Apply(s, x), w, funded || x == Receipt(Depositor(w)), confirmed || Confirms(s, x, w))
  {
  }

  lemma OtherStepMatches(s: State, x: Action, w: nat, funded: bool, confirmed: bool)
    requires Inv(s) && Enabled(s, x) && Matches(s, w, funded, confirmed) && w < |s.workers| && !StepOf(x, w)
    ensures Matches(Apply(s, x), w, funded, confirmed)
    ensures x != Receipt(Depositor(w)) && !Confirms(s, x, w)
  {
    var s' := Apply(s, x);
    assert s'.workers[w].pc == s.workers[w].pc;
  }

  lemma StepMatches(s: State, x: Action, w: nat, funded: bool, confirmed: bool)
    requires Inv(s) && Enabled(s, x) && Matches(s, w, funded, confirmed)
    ensures Matches(Apply(s, x), w, funded || x == Receipt(Depositor(w)), confirmed || Confirms(s, x, w))
  {
    if w < |s.workers| {
      if StepOf(x, w) {
        OwnStepMatches(s, x, w, funded, confirmed);
      } else {
        OtherStepMatches(s, x, w, funded, confirmed);
      }
    }
  }

  lemma {:induction false} RunMatches(s: State, run: seq<Action>, w: nat, funded: bool, confirmed: bool)
    requires Inv(s) && ValidRun(s, run) && Matches(s, w, funded, confirmed)
    ensures Matches(After(s, run), w, funded || Funded(run, w), confirmed || Confirmed(s, run, w))
    decreases |run|
  {
    if run != [] {
      StepMatches(s, run[0], w, funded, confirmed);
      StepKeepsInv(s, run[0]);
      RunMatches(Apply(s, run[0]), run[1..], w, funded || run[0] == Receipt(Depositor(w)), confirmed || Confirms(s, run[0], w));
      assert Funded(run, w) <==> run[0] == Receipt(Depositor(w)) || Funded(run[1..], w);
    }
  }

  /** Along every run from the start a goroutine has succeeded exactly when the run holds its funding receipt and a parsed
      receipt of its logged deposit. */
  lemma SucceededExactly(run: seq<Action>, w: nat)
    requires ValidRun(INITIAL, run) && w < |After(INITIAL, run).workers|
    ensures HasSucceeded(After(INITIAL, run).workers[w].pc) <==> Funded(run, w) && Confirmed(INITIAL, run, w)
  {
    InitialInv();
    RunMatches(INITIAL, run, w, false, false);
  }

  ghost predicate Served(run: seq<Action>, w: nat)
    requires ValidRun(INITIAL, run)
  {
    Funded(run, w) && Confirmed(INITIAL, run, w)
  }

  /** A call that has returned has returned nil exactly when this holds for each of its goroutines. */
  lemma NilExactly(run: seq<Action>, b: nat)
    requires ValidRun(INITIAL, run) && b < |After(INITIAL, run).batches| && After(INITIAL, run).batches[b].result.Some?
    ensures var s := After(INITIAL, run);
            s.batches[b].result == Some(true) <==>
            forall w :: 0 <= w < |s.workers| && s.workers[w].batch == b ==> Served(run, w)
  {
    var s := After(INITIAL, run);
    assert Leads(INITIAL, s);
    ResultExact(s, b);
    forall w | 0 <= w < |s.workers|
      ensures HasSucceeded(s.workers[w].pc) <==> Served(run, w)
    {
      SucceededExactly(run, w);
    }
    if s.batches[b].result == Some(false) {
      var w := ErrorHasFailure(s, b);
    }
  }

  // ---------- a call in which nothing has gone wrong ----------

  predicate Well(w: Worker) {
    w.pc != Reporting(false) && w.pc != Exited(false) && !w.deposit.Reverted?
  }

  /** How many goroutines of the call still need a nonce. */
  function Needing(workers: seq<Worker>, b: nat): nat {
    if workers == [] then 0
    else
      var w := workers[|workers| - 1];
      Needing(workers[..|workers| - 1], b) + if w.batch == b && w.pc.NeedNonce? then 1 else 0
  }

  ghost predicate AllWell(s: State, b: nat) {
    forall w :: 0 <= w < |s.workers| && s.workers[w].batch == b ==> Well(s.workers[w])
  }

  ghost predicate NothingLost(s: State) {
    forall t :: 0 <= t < |s.txns| ==> !s.txns[t].fate.Lost?
  }

  /** No goroutine of the call has failed or had its deposit reverted, no nonce is lost, and there are nonces enough. */
  ghost predicate Promising(s: State, b: nat) {
    b < |s.batches| && AllWell(s, b) && NothingLost(s) && |s.txns| + Needing(s.workers, b) <= TWO_64
  }

  lemma {:induction false} NeedingReplaced(workers: seq<Worker>, i: nat, w: Worker, b: nat)
    requires i < |workers| && workers[i].batch == w.batch
    ensures Needing(workers[i := w], b) == Needing(workers, b)
            + (if w.batch == b && w.pc.NeedNonce? then 1 else 0)
            - (if w.batch == b && workers[i].pc.NeedNonce? then 1 else 0)
  {
    var last := |workers| - 1;
    if i == last {
      assert workers[i := w][..last] == workers[..last];
    } else {
      NeedingReplaced(workers[..last], i, w, b);
      assert workers[i := w][..last] == workers[..last][i := w];
    }
  }

  /** The steps in which nothing goes wrong. */
  predicate Gentle(s: State, x: Action, b: nat) {
    match x
    case TakeNonce(Depositor(w)) => w < |s.workers| && s.workers[w].batch == b
    case Sent(_, reported) => reported
    case Receipt(_) => true
    case DepositSent(_, reported) => reported
    case ExecuteDeposit(_, succeeds) => succeeds
    case DepositReceipt(w, parsed) => parsed && w < |s.workers| && s.workers[w].deposit.Logged?
    case Push(_) => true
    case Receive(_) => true
    case Execute(_) => true
    case _ => false
  }

  lemma GentleStaysWell(s: State, x: Action, b: nat)
    requires Inv(s) && Enabled(s, x) && Gentle(s, x, b) && AllWell(s, b)
    ensures AllWell(Apply(s, x), b)
  {
  }

  lemma GentleLosesNothing(s: State, x: Action, b: nat)
    requires Enabled(s, x) && Gentle(s, x, b) && NothingLost(s)
    ensures NothingLost(Apply(s, x))
  {
  }

  lemma GentleNeeds(s: State, x: Action, b: nat)
    requires Inv(s) && Enabled(s, x) && Gentle(s, x, b)
    ensures |Apply(s, x).txns| + Needing(Apply(s, x).workers, b) <= |s.txns| + Needing(s.workers, b)
  {
    var s', w := Apply(s, x), WorkerOf(x);
    if !x.Receive? {
      WorkerStepShape(s, x);
      if s'.workers != s.workers {
        NeedingReplaced(s.workers, w, s'.workers[w], b);
        NoNewNeed(s, x, w);
      }
    }
  }

  lemma NoNewNeed(s: State, x: Action, w: nat)
    requires Inv(s) && Enabled(s, x) && !x.Start? && w < |s.workers|
    ensures w < |Apply(s, x).workers| && (Apply(s, x).workers[w].pc.NeedNonce? ==> s.workers[w].pc.NeedNonce?)
  {
  }

  lemma GentleStaysPromising(s: State, x: Action, b: nat)
    requires Inv(s) && Enabled(s, x) && Gentle(s, x, b) && Promising(s, b)
    ensures Promising(Apply(s, x), b)
  {
    PotentialFalls(s, x, b);
    GentleStaysWell(s, x, b);
    GentleLosesNothing(s, x, b);
    GentleNeeds(s, x, b);
  }

  /** A promising call has not returned an error. */
  lemma PromisingResult(s: State, b: nat)
    requires Inv(s) && Promising(s, b)
    ensures s.batches[b].result != Some(false)
  {
    var batch := s.batches[b];
    assert BatchInv(batch, s.workers, b);
    CountGap(s.workers, b, Succeeded, Reported);
    CountTrueBound(batch.received + batch.channel);
    var results := batch.received + batch.channel;
    assert AllTrue(results);
    assert forall i :: 0 <= i < |batch.received| ==> batch.received[i] == results[i];
  }

  /** The next step of a goroutine for which everything goes well. */
  lemma GoodMove(s: State, b: nat, w: nat) returns (x: Action)
    requires Inv(s) && Promising(s, b) && w < |s.workers| && s.workers[w].batch == b && !s.workers[w].pc.Exited?
    requires s.workers[w].pc.Reporting? ==> Enabled(s, Push(w))
    ensures Enabled(s, x) && Gentle(s, x, b)
    ensures CallStep(s, x, b) || Nearer(s, x)
  {
    assert OwnsItsTxn(s, Depositor(w));
    assert DepositMatchesPc(s.workers[w]);
    var pc := s.workers[w].pc;
    if pc.Awaiting? {
      if s.txns[pc.txn].fate.Executed? {
        x := Receipt(Depositor(w));
        assert MovesWorker(s, x, w);
      } else {
        x := NextAdvance(s, pc.txn);
      }
    } else {
      x := NextStep(w, s.workers[w]);
      assert MovesWorker(s, x, w);
    }
  }

  /** The chain gets nearer to executing everything. */
  predicate Nearer(s: State, x: Action)
    requires Enabled(s, x)
  {
    && s.chainNonce < |s.txns| == |Apply(s, x).txns|
    && if s.txns[s.chainNonce].fate.Held?
       then Apply(s, x).chainNonce == s.chainNonce && !Apply(s, x).txns[s.chainNonce].fate.Held?
       else Apply(s, x).chainNonce == s.chainNonce + 1
  }

  /** A result in the channel of a promising call is a success, so taking it is no loss. */
  lemma GoodStep(s: State, b: nat) returns (x: Action)
    requires Inv(s) && Promising(s, b) && Open(s, b)
    ensures Enabled(s, x) && Gentle(s, x, b)
    ensures CallStep(s, x, b) || Nearer(s, x)
  {
    if s.batches[b].channel == [] {
      var w := SomeoneWorks(s, b);
      x := GoodMove(s, b, w);
    } else {
      x := Receive(b);
    }
  }

  lemma AccountsKept(s: State, x: Action, b: nat)
    requires Enabled(s, x) && b < |s.batches|
    ensures b < |Apply(s, x).batches| && Apply(s, x).batches[b].accounts == s.batches[b].accounts
  {
    DepositCalls.StepKeeps(s, x);
  }

  /** A promising call can return nil. */
  lemma {:induction false} Succeed(s: State, b: nat) returns (run: seq<Action>)
    requires Inv(s) && Promising(s, b)
    ensures ValidRun(s, run) && b < |After(s, run).batches| && After(s, run).batches[b].result == Some(true)
    ensures After(s, run).batches[b].accounts == s.batches[b].accounts
    decreases Potential(s, b), |s.txns| - s.chainNonce,
              if s.chainNonce < |s.txns| && s.txns[s.chainNonce].fate.Held? then 1 else 0
  {
    PromisingResult(s, b);
    if !Open(s, b) {
      return [];
    }
    var x := GoodStep(s, b);
    var s' := Apply(s, x);
    StepKeepsInv(s, x);
    GentleStaysPromising(s, x, b);
    PotentialFalls(s, x, b);
    PotentialIsNat(s', b);
    AccountsKept(s, x, b);
    var rest := Succeed(s', b);
    run := [x] + rest;
    RunOne(s, x, rest);
  }

  lemma RunOne(s: State, x: Action, rest: seq<Action>)
    requires Enabled(s, x) && ValidRun(Apply(s, x), rest)
    ensures ValidRun(s, [x] + rest) && After(s, [x] + rest) == After(Apply(s, x), rest)
  {
    assert ([x] + rest)[1..] == rest;
  }

  lemma FirstOf(s: State, run: seq<Action>)
    requires ValidRun(s, run) && run != []
    ensures Enabled(s, run[0]) && ValidRun(Apply(s, run[0]), run[1..])
    ensures After(s, run) == After(Apply(s, run[0]), run[1..])
  {
  }

  lemma FirstRest(a: seq<Action>, b: seq<Action>)
    requires a != []
    ensures a + b == [a[0]] + (a[1..] + b)
  {
  }

  lemma {:induction false} RunsJoin(s: State, a: seq<Action>, b: seq<Action>, end: State)
    requires ValidRun(s, a) && After(s, a) == end && ValidRun(end, b)
    ensures ValidRun(s, a + b) && After(s, a + b) == After(end, b)
    decreases |a|
  {
    if a == [] {
      assert [] + b == b;
    } else {
      FirstOf(s, a);
      RunsJoin(Apply(s, a[0]), a[1..], b, end);
      RunOne(s, a[0], a[1..] + b);
      FirstRest(a, b);
    }
  }

  lemma ReachesFurther(s: State, run: seq<Action>)
    requires Reachable(s) && ValidRun(s, run)
    ensures Reachable(After(s, run))
  {
    var before :| ValidRun(INITIAL, before) && After(INITIAL, before) == s;
    RunsJoin(INITIAL, before, run, s);
  }

  /** The call with these accounts has returned nil, and the deposits of all of them are logged. */
  ghost predicate EndsWell(s: State, b: nat, accounts: seq<Account>) {
    && b < |s.batches| && s.batches[b].accounts == accounts && s.batches[b].result == Some(true)
    && DepositCalls.AreLogged(s, accounts)
  }

  /** A call whose goroutines have neither failed nor had a deposit reverted, with no nonce lost and nonces enough, can
      return nil, and then the deposits of all its accounts are logged. */
  lemma CanSucceed(s: State, b: nat)
    requires Reachable(s) && Promising(s, b)
    ensures exists s' :: Leads(s, s') && EndsWell(s', b, s.batches[b].accounts)
  {
    ReachableInv(s);
    var run := Succeed(s, b);
    var s' := After(s, run);
    ReachesFurther(s, run);
    DepositCalls.NilLogsAll(s', b);
    assert Leads(s, s') && EndsWell(s', b, s.batches[b].accounts);
  }

  // ---------- the first call ----------

  lemma DeployRun()
    ensures var run := [TakeNonce(Deployer), Sent(Deployer, true), Execute(0), Receipt(Deployer)];
            ValidRun(INITIAL, run) && After(INITIAL, run) == State(0, [Txn(0, Deployer, Executed)], 1, Exited(true), [], [], [])
  {
    var a := Apply(INITIAL, TakeNonce(Deployer));
    assert a == State(0, [Txn(0, Deployer, Held)], 0, Sending(0), [], [], []);
    var b := Apply(a, Sent(Deployer, true));
    assert b == State(0, [Txn(0, Deployer, Pooled)], 0, Awaiting(0, POLLS), [], [], []);
    var c := Apply(b, Execute(0));
    assert c == State(0, [Txn(0, Deployer, Executed)], 1, Awaiting(0, POLLS), [], [], []);
    var last := [Receipt(Deployer)];
    assert last[1..] == [] && ValidRun(c, last) && After(c, last) == Apply(c, Receipt(Deployer));
    var third := [Execute(0)] + last;
    assert third[1..] == last && ValidRun(b, third);
    var second := [Sent(Deployer, true)] + third;
    assert second[1..] == third && ValidRun(a, second);
    var run := [TakeNonce(Deployer)] + second;
    assert run[1..] == second && run == [TakeNonce(Deployer), Sent(Deployer, true), Execute(0), Receipt(Deployer)];
  }

  lemma {:induction false} NewNeeds(b: nat, accounts: seq<Account>)
    ensures Needing(Spawn(b, accounts), b) == |accounts|
  {
    if accounts != [] {
      NewNeeds(b, accounts[..|accounts| - 1]);
      assert Spawn(b, accounts)[..|accounts| - 1] == Spawn(b, accounts[..|accounts| - 1]);
    }
  }

  /** So a first call for any accounts, fewer than there are nonces, can return nil with all of them logged. */
  lemma FirstCallCanSucceed(accounts: seq<Account>)
    requires |accounts| < TWO_64
    ensures exists s :: Reachable(s) && EndsWell(s, 0, accounts)
  {
    var s := FirstStarted(accounts);
    CanSucceed(s, 0);
    var s' :| Leads(s, s') && EndsWell(s', 0, accounts);
    var further :| ValidRun(s, further) && After(s, further) == s';
    ReachesFurther(s, further);
  }

  lemma FirstStarted(accounts: seq<Account>) returns (s: State)
    requires |accounts| < TWO_64
    ensures Reachable(s) && Promising(s, 0) && s.batches[0].accounts == accounts
  {
    DeployRun();
    var run := [TakeNonce(Deployer), Sent(Deployer, true), Execute(0), Receipt(Deployer)];
    var deployed := After(INITIAL, run);
    assert Leads(INITIAL, deployed);
    s := Apply(deployed, Start(accounts));
    RunOne(deployed, Start(accounts), []);
    ReachesFurther(deployed, [Start(accounts)] + []);
    NewNeeds(0, accounts);
    assert s.workers == Spawn(0, accounts);
  }
}
