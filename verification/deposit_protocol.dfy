/** The deposit protocol: goroutines that send funding transactions with a shared atomic nonce and report on a buffered
    error channel, any number of overlapping MakeDeposits calls, and a chain that executes the transactions of the
    funding key in nonce order (Yellow Paper, section 6). One Action is one atomic step of one participant, so a run is
    an arbitrary interleaving. */
module DepositProtocol {
  import opened GoIntegers
  import opened Wrappers
  import opened Keys

  /** waitForReceipt asks at most this often. */
  const POLLS: nat := 122

  /** Who runs sendTransaction: the contract deployment at start-up, or a MakeDeposit goroutine. */
  datatype Actor = Deployer | Depositor(index: nat)

  datatype Pc =
    | NeedNonce
    | Sending(txn: nat)              // nonce taken; about to sign, encode and send
    | Awaiting(txn: nat, polls: nat) // waitForReceipt with this many questions left
    | Depositing                     // funded; about to build and send the deposit transaction
    | AwaitingDeposit
    | Reporting(ok: bool)            // about to send on errCh
    | Exited(ok: bool)

  /** A funding-key transaction that was lost never reached the node. */
  datatype Fate = Held | Lost | Pooled | Executed

  datatype Txn = Txn(nonce: nat, owner: Actor, fate: Fate)

  datatype DepositFate = Unsent | Pending | Reverted | Logged

  datatype Worker = Worker(batch: nat, account: Account, pc: Pc, deposit: DepositFate)

  /** One MakeDeposits call; received are the results its collector has taken from the channel. */
  datatype Batch = Batch(accounts: seq<Account>, channel: seq<bool>, received: seq<bool>, result: Option<bool>)

  /** txns are in the order in which nonces were taken; log lists the depositors whose deposit event was emitted. */
  datatype State = State(
    counter: int, txns: seq<Txn>, chainNonce: nat, deployer: Pc,
    workers: seq<Worker>, batches: seq<Batch>, log: seq<nat>)

  const INITIAL: State := State(-1, [], 0, NeedNonce, [], [], [])

  datatype Action =
    | Start(accounts: seq<Account>)
    | TakeNonce(a: Actor)
    | NotSent(a: Actor)
    | Sent(a: Actor, reported: bool)
    | Poll(a: Actor)
    | Receipt(a: Actor)
    | ReceiptFails(a: Actor)
    | DepositNotSent(w: nat)
    | DepositSent(w: nat, reported: bool)
    | DepositReceipt(w: nat, parsed: bool)
    | DepositWaitFails(w: nat)
    | Push(w: nat)
    | Receive(b: nat)
    | Execute(t: nat)
    | ExecuteDeposit(w: nat, succeeds: bool)

  // ---------- steps ----------

  predicate IsActor(s: State, a: Actor) {
    a.Depositor? ==> a.index < |s.workers|
  }

  function PcOf(s: State, a: Actor): Pc
    requires IsActor(s, a)
  {
    if a.Deployer? then s.deployer else s.workers[a.index].pc
  }

  function WithPc(s: State, a: Actor, pc: Pc): State
    requires IsActor(s, a)
  {
    if a.Deployer? then s.(deployer := pc) else s.(workers := s.workers[a.index := s.workers[a.index].(pc := pc)])
  }

  /** The next counter value and the nonce read from it. */
  function NextCounter(counter: int): int {
    WrapInt64(counter + 1)
  }

  function NonceOf(counter: int): nat {
    ToUint64(counter)
  }

  /** After sendTransaction returns an error. */
  function Failed(a: Actor): Pc {
    if a.Deployer? then Exited(false) else Reporting(false)
  }

  /** After sendTransaction returns a receipt. */
  function Confirmed(a: Actor): Pc {
    if a.Deployer? then Exited(true) else Depositing
  }

  function WithFate(s: State, t: nat, fate: Fate): State
    requires t < |s.txns|
  {
    s.(txns := s.txns[t := s.txns[t].(fate := fate)])
  }

  function WithDeposit(s: State, w: nat, pc: Pc, deposit: DepositFate): State
    requires w < |s.workers|
  {
    s.(workers := s.workers[w := s.workers[w].(pc := pc, deposit := deposit)])
  }

  predicate Enabled(s: State, x: Action) {
    match x
    case Start(_) => s.deployer == Exited(true)
    case TakeNonce(a) => IsActor(s, a) && PcOf(s, a).NeedNonce?
    case NotSent(a) => IsActor(s, a) && PcOf(s, a).Sending? && PcOf(s, a).txn < |s.txns|
    case Sent(a, _) => IsActor(s, a) && PcOf(s, a).Sending? && PcOf(s, a).txn < |s.txns|
    case Poll(a) => IsActor(s, a) && PcOf(s, a).Awaiting? && PcOf(s, a).polls > 0
    case Receipt(a) => IsActor(s, a) && PcOf(s, a).Awaiting? && PcOf(s, a).txn < |s.txns|
                       && s.txns[PcOf(s, a).txn].fate.Executed?
    case ReceiptFails(a) => IsActor(s, a) && PcOf(s, a).Awaiting?
    case DepositNotSent(w) => w < |s.workers| && s.workers[w].pc.Depositing?
    case DepositSent(w, _) => w < |s.workers| && s.workers[w].pc.Depositing?
    case DepositReceipt(w, _) => w < |s.workers| && s.workers[w].pc.AwaitingDeposit?
                                 && (s.workers[w].deposit.Logged? || s.workers[w].deposit.Reverted?)
    case DepositWaitFails(w) => w < |s.workers| && s.workers[w].pc.AwaitingDeposit?
    case Push(w) => w < |s.workers| && s.workers[w].pc.Reporting? && s.workers[w].batch < |s.batches|
                    && |s.batches[s.workers[w].batch].channel| < |s.batches[s.workers[w].batch].accounts|
    case Receive(b) => b < |s.batches| && s.batches[b].result.None? && s.batches[b].channel != []
    case Execute(t) => t < |s.txns| && s.txns[t].fate.Pooled? && s.txns[t].nonce == s.chainNonce
    case ExecuteDeposit(w, _) => w < |s.workers| && s.workers[w].deposit.Pending?
  }

  /** One worker a goroutine, all about to fund their account. */
  function Spawn(b: nat, accounts: seq<Account>): seq<Worker> {
    seq(|accounts|, i requires 0 <= i < |accounts| => Worker(b, accounts[i], NeedNonce, Unsent))
  }

  function Collect(b: Batch): Batch
    requires b.channel != []
  {
    var r := b.channel[0];
    var received := b.received + [r];
    b.(channel := b.channel[1..], received := received,
       result := if !r then Some(false) else if |received| == |b.accounts| then Some(true) else None)
  }

  function Apply(s: State, x: Action): State
    requires Enabled(s, x)
  {
    match x
    case Start(accounts) =>
      s.(workers := s.workers + Spawn(|s.batches|, accounts),
         batches := s.batches + [Batch(accounts, [], [], if accounts == [] then Some(true) else None)])
    case TakeNonce(a) =>
      var counter := NextCounter(s.counter);
      WithPc(s, a, Sending(|s.txns|)).(counter := counter, txns := s.txns + [Txn(NonceOf(counter), a, Held)])
    case NotSent(a) => WithPc(WithFate(s, PcOf(s, a).txn, Lost), a, Failed(a))
    case Sent(a, reported) =>
      var t := PcOf(s, a).txn;
      WithPc(WithFate(s, t, Pooled), a, if reported then Awaiting(t, POLLS) else Failed(a))
    case Poll(a) =>
      var pc := PcOf(s, a);
      WithPc(s, a, if pc.polls > 1 then pc.(polls := pc.polls - 1) else Failed(a))
    case Receipt(a) => WithPc(s, a, Confirmed(a))
    case ReceiptFails(a) => WithPc(s, a, Failed(a))
    case DepositNotSent(w) => WithDeposit(s, w, Reporting(false), Unsent)
    case DepositSent(w, reported) => WithDeposit(s, w, if reported then AwaitingDeposit else Reporting(false), Pending)
    case DepositReceipt(w, parsed) =>
      WithDeposit(s, w, Reporting(s.workers[w].deposit.Logged? && parsed), s.workers[w].deposit)
    case DepositWaitFails(w) => WithDeposit(s, w, Reporting(false), s.workers[w].deposit)
    case Push(w) =>
      var b := s.workers[w].batch;
      var ok := s.workers[w].pc.ok;
      WithDeposit(s, w, Exited(ok), s.workers[w].deposit)
      .(batches := s.batches[b := s.batches[b].(channel := s.batches[b].channel + [ok])])
    case Receive(b) => s.(batches := s.batches[b := Collect(s.batches[b])])
    case Execute(t) => WithFate(s, t, Executed).(chainNonce := s.chainNonce + 1)
    case ExecuteDeposit(w, succeeds) =>
      WithDeposit(s, w, s.workers[w].pc, if succeeds then Logged else Reverted)
      .(log := if succeeds then s.log + [w] else s.log)
  }

  predicate ValidRun(s: State, run: seq<Action>)
    decreases |run|
  {
    run == [] || (Enabled(s, run[0]) && ValidRun(Apply(s, run[0]), run[1..]))
  }

  function After(s: State, run: seq<Action>): State
    requires ValidRun(s, run)
    decreases |run|
  {
    if run == [] then s else After(Apply(s, run[0]), run[1..])
  }

  /** Some interleaving leads from the one state to the other. */
  ghost predicate Leads(s: State, s': State) {
    exists run :: ValidRun(s, run) && After(s, run) == s'
  }

  ghost predicate Reachable(s: State) {
    Leads(INITIAL, s)
  }

  // ---------- the invariant ----------

  ghost predicate NonceInv(s: State) {
    && s.counter == WrapInt64(|s.txns| - 1)
    && forall t :: 0 <= t < |s.txns| ==> s.txns[t].nonce == ToUint64(t)
  }

  /** Transactions and the actors that own them. */
  ghost predicate OwnerInv(s: State) {
    && (forall t :: 0 <= t < |s.txns| ==> IsActor(s, s.txns[t].owner) && !PcOf(s, s.txns[t].owner).NeedNonce?)
    && (forall t, u :: 0 <= t < u < |s.txns| ==> s.txns[t].owner != s.txns[u].owner)
    && (forall t :: 0 <= t < |s.txns| && s.txns[t].fate.Held? ==> PcOf(s, s.txns[t].owner) == Sending(t))
    && (forall a :: IsActor(s, a) ==> OwnsItsTxn(s, a))
  }

  ghost predicate OwnsItsTxn(s: State, a: Actor)
    requires IsActor(s, a)
  {
    match PcOf(s, a)
    case Sending(t) => t < |s.txns| && s.txns[t].owner == a && s.txns[t].fate.Held?
    case Awaiting(t, polls) => t < |s.txns| && s.txns[t].owner == a && polls > 0
                               && (s.txns[t].fate.Pooled? || s.txns[t].fate.Executed?)
    case _ => true
  }

  /** The contract is deployed, by the first transaction, before any depositor exists. */
  ghost predicate DeployInv(s: State) {
    && (s.deployer.NeedNonce? ==> s.txns == [])
    && (!s.deployer.NeedNonce? ==> |s.txns| > 0 && s.txns[0].owner.Deployer?)
    && (s.deployer == Exited(true) ==> s.txns[0].fate.Executed?)
    && (s.workers != [] ==> s.deployer == Exited(true))
    && !s.deployer.Depositing? && !s.deployer.AwaitingDeposit? && !s.deployer.Reporting?
  }

  ghost predicate ChainInv(s: State) {
    |s.txns| <= TWO_64 ==>
      && s.chainNonce <= |s.txns|
      && forall t :: 0 <= t < |s.txns| ==> (s.txns[t].fate.Executed? <==> t < s.chainNonce)
  }

  ghost predicate DepositInv(s: State) {
    (forall w :: 0 <= w < |s.workers| ==> DepositMatchesPc(s.workers[w])) && LogInv(s)
  }

  ghost predicate LogInv(s: State) {
    && (forall w :: w in s.log <==> 0 <= w < |s.workers| && s.workers[w].deposit.Logged?)
    && (forall i, j :: 0 <= i < j < |s.log| ==> s.log[i] != s.log[j])
  }

  predicate DepositMatchesPc(w: Worker) {
    match w.pc
    case AwaitingDeposit => !w.deposit.Unsent?
    case Reporting(ok) => ok ==> w.deposit.Logged?
    case Exited(ok) => ok ==> w.deposit.Logged?
    case _ => w.deposit.Unsent?
  }

  datatype Kind = Member | Reported | Succeeded

  predicate Is(w: Worker, b: nat, kind: Kind) {
    && w.batch == b
    && (!kind.Member? ==> w.pc.Exited?)
    && (kind.Succeeded? ==> w.pc.Exited? && w.pc.ok)
  }

  function Count(workers: seq<Worker>, b: nat, kind: Kind): nat {
    if workers == [] then 0
    else Count(workers[..|workers| - 1], b, kind) + if Is(workers[|workers| - 1], b, kind) then 1 else 0
  }

  function CountTrue(results: seq<bool>): nat {
    if results == [] then 0 else CountTrue(results[..|results| - 1]) + if results[|results| - 1] then 1 else 0
  }

  predicate AllTrue(results: seq<bool>) {
    forall i :: 0 <= i < |results| ==> results[i]
  }

  ghost predicate BatchInv(b: Batch, workers: seq<Worker>, index: nat) {
    && Count(workers, index, Member) == |b.accounts|
    && Count(workers, index, Reported) == |b.received| + |b.channel|
    && Count(workers, index, Succeeded) == CountTrue(b.received + b.channel)
    && match b.result
       case None => AllTrue(b.received) && |b.received| < |b.accounts|
       case Some(true) => AllTrue(b.received) && |b.received| == |b.accounts|
       case Some(false) => b.received != [] && !b.received[|b.received| - 1]
  }

  ghost predicate ChannelInv(s: State) {
    && (forall b :: 0 <= b < |s.batches| ==> BatchInv(s.batches[b], s.workers, b))
    && (forall w :: 0 <= w < |s.workers| ==> s.workers[w].batch < |s.batches|)
    && WorkerAccounts(s.workers) == AllAccounts(s.batches)
  }

  function WorkerAccounts(workers: seq<Worker>): seq<Account> {
    seq(|workers|, i requires 0 <= i < |workers| => workers[i].account)
  }

  function AllAccounts(batches: seq<Batch>): seq<Account> {
    if batches == [] then [] else AllAccounts(batches[..|batches| - 1]) + batches[|batches| - 1].accounts
  }

  ghost predicate Inv(s: State) {
    NonceInv(s) && OwnerInv(s) && DeployInv(s) && ChainInv(s) && DepositInv(s) && ChannelInv(s)
  }

  // ---------- every step keeps it ----------

  lemma StepKeepsNonces(s: State, x: Action)
    requires NonceInv(s) && Enabled(s, x)
    ensures NonceInv(Apply(s, x))
  {
    WrapSuccessor(|s.txns| - 1);
    WrapSuccessor(|s.txns|);
  }

  predicate TouchesTxns(x: Action) {
    x.TakeNonce? || x.NotSent? || x.Sent? || x.Execute?
  }

  lemma TakeNonceKeepsOwners(s: State, a: Actor)
    requires OwnerInv(s) && Enabled(s, TakeNonce(a))
    ensures OwnerInv(Apply(s, TakeNonce(a)))
  {
    var s' := Apply(s, TakeNonce(a));
    forall o | IsActor(s', o)
      ensures OwnsItsTxn(s', o)
    {
      assert OwnsItsTxn(s, o);
    }
  }

  /** The holder of a transaction lets go of it. */
  lemma HolderMoves(s: State, a: Actor, t: nat, fate: Fate, pc: Pc)
    requires OwnerInv(s) && IsActor(s, a) && PcOf(s, a) == Sending(t) && t < |s.txns|
    requires !fate.Held? && !pc.NeedNonce? && !pc.Sending? && (pc.Awaiting? ==> fate.Pooled? && pc == Awaiting(t, POLLS))
    ensures OwnerInv(WithPc(WithFate(s, t, fate), a, pc))
  {
    var s' := WithPc(WithFate(s, t, fate), a, pc);
    assert OwnsItsTxn(s, a);
    forall o | IsActor(s', o)
      ensures OwnsItsTxn(s', o)
    {
      assert OwnsItsTxn(s, o);
    }
  }

  lemma SendKeepsOwners(s: State, x: Action)
    requires OwnerInv(s) && Enabled(s, x) && (x.NotSent? || x.Sent?)
    ensures OwnerInv(Apply(s, x))
  {
    var t := PcOf(s, x.a).txn;
    if x.NotSent? {
      HolderMoves(s, x.a, t, Lost, Failed(x.a));
    } else {
      HolderMoves(s, x.a, t, Pooled, if x.reported then Awaiting(t, POLLS) else Failed(x.a));
    }
  }

  lemma ExecuteKeepsOwners(s: State, t: nat)
    requires OwnerInv(s) && Enabled(s, Execute(t))
    ensures OwnerInv(Apply(s, Execute(t)))
  {
    var s' := Apply(s, Execute(t));
    forall o | IsActor(s', o)
      ensures OwnsItsTxn(s', o)
    {
      assert OwnsItsTxn(s, o);
    }
  }

  /** A step that leaves the transactions alone and takes its actor, if any, out of waiting or one poll further. */
  lemma PcChangeKeepsOwners(s: State, s': State)
    requires OwnerInv(s) && s'.txns == s.txns && |s'.workers| >= |s.workers|
    requires forall a :: IsActor(s, a) ==> PcMoved(PcOf(s, a), PcOf(s', a))
    requires forall a :: IsActor(s', a) && !IsActor(s, a) ==> PcOf(s', a).NeedNonce?
    ensures OwnerInv(s')
  {
    forall a | IsActor(s', a)
      ensures OwnsItsTxn(s', a)
    {
      if IsActor(s, a) {
        assert OwnsItsTxn(s, a);
      }
    }
  }

  predicate PcMoved(o: Pc, n: Pc) {
    || n == o
    || (!o.NeedNonce? && !o.Sending? && !n.NeedNonce? && !n.Sending?
        && (n.Awaiting? ==> o.Awaiting? && n.txn == o.txn && n.polls > 0))
  }

  lemma OtherStepKeepsOwners(s: State, x: Action)
    requires OwnerInv(s) && Enabled(s, x) && !TouchesTxns(x)
    ensures OwnerInv(Apply(s, x))
  {
    PcChangeKeepsOwners(s, Apply(s, x));
  }

  lemma StepKeepsOwners(s: State, x: Action)
    requires OwnerInv(s) && Enabled(s, x)
    ensures OwnerInv(Apply(s, x))
  {
    match x
    case TakeNonce(a) => TakeNonceKeepsOwners(s, a);
    case NotSent(_) => SendKeepsOwners(s, x);
    case Sent(_, _) => SendKeepsOwners(s, x);
    case Execute(t) => ExecuteKeepsOwners(s, t);
    case _ => OtherStepKeepsOwners(s, x);
  }

  lemma StepKeepsDeployment(s: State, x: Action)
    requires OwnerInv(s) && DeployInv(s) && Enabled(s, x)
    ensures DeployInv(Apply(s, x))
  {
    assert OwnsItsTxn(s, Deployer);
  }

  lemma StepKeepsChain(s: State, x: Action)
    requires NonceInv(s) && OwnerInv(s) && ChainInv(s) && Enabled(s, x)
    ensures ChainInv(Apply(s, x))
  {
    if x.NotSent? || x.Sent? {
      assert OwnsItsTxn(s, x.a);
    }
  }

  lemma StepKeepsLog(s: State, x: Action)
    requires DepositInv(s) && Enabled(s, x)
    ensures LogInv(Apply(s, x))
  {
    if x.ExecuteDeposit? {
      assert x.w !in s.log;
    } else {
      assert Apply(s, x).log == s.log;
    }
  }

  lemma StepKeepsDeposits(s: State, x: Action)
    requires DepositInv(s) && Enabled(s, x)
    ensures DepositInv(Apply(s, x))
  {
    StepKeepsLog(s, x);
  }
}
