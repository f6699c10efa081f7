/** The control plane and the deposit protocol together: the keys that registered validators run are funded. A request
    that reports its deposits as made has had nil from a MakeDeposits call; which of the many interleavings led there,
    and what else the handler was doing, is left open. */
module Funding {
  import opened Wrappers
  import opened Keys
  import opened Components
  import opened ControlPlane
  import opened ControlPlaneProofs
  import opened ControlPlaneRuns
  import opened ControlPlaneTheorems
  import DepositProtocol
  import DepositCalls

  predicate Returned(d: DepositProtocol.State, b: nat, accounts: seq<Account>) {
    b < |d.batches| && d.batches[b].accounts == accounts && d.batches[b].result == Some(true)
  }

  /** The requests that make deposits, if they get that far. */
  predicate Deposits(e: Event) {
    e.Create? || (e.req.role.ValidatorRole? && e.req.role.numValidators != 0)
  }

  /** What the outcome "deposits made" of a request rests on. */
  ghost predicate Backed(d: DepositProtocol.State, e: Event) {
    Deposits(e) && e.env.depositsOk ==> exists b: nat :: Returned(d, b, e.env.accounts)
  }

  /** A call that returned nil has left a logged deposit for each of its accounts. */
  lemma ReturnedFunds(d: DepositProtocol.State, b: nat, accounts: seq<Account>)
    requires DepositProtocol.Reachable(d) && Returned(d, b, accounts)
    ensures DepositCalls.AreLogged(d, accounts)
  {
    DepositCalls.NilLogsAll(d, b);
  }

  // ---------- tranches ----------

  /** A request adds at most tranches with its own accounts, and only after their deposits. */
  lemma NewTrancheIsDeposited(s: State, cfg: Config, e: Event, k: nat)
    requires Inv(s, cfg) && Possible(s, e) && k in Step(s, cfg, e).tranches && k !in s.tranches
    ensures Deposits(e) && e.env.depositsOk && Step(s, cfg, e).tranches[k].accounts == e.env.accounts
  {
    match e
    case Create(_, env) =>
    case Deploy(req, env) => NodeDeployAtomic(s, cfg, req, env);
  }

  ghost predicate FundedFrom(s: State, first: nat, d: DepositProtocol.State) {
    forall k :: k in s.tranches && k >= first ==> DepositCalls.AreLogged(d, s.tranches[k].accounts)
  }

  lemma StepKeepsFunded(s: State, cfg: Config, e: Event, first: nat, d: DepositProtocol.State)
    requires Inv(s, cfg) && Possible(s, e) && FundedFrom(s, first, d)
    requires DepositProtocol.Reachable(d) && Backed(d, e)
    ensures FundedFrom(Step(s, cfg, e), first, d)
  {
    var s' := Step(s, cfg, e);
    StepExtends(s, cfg, e);
    forall k | k in s'.tranches && k >= first
      ensures DepositCalls.AreLogged(d, s'.tranches[k].accounts)
    {
      if k !in s.tranches {
        NewTrancheIsDeposited(s, cfg, e, k);
        var b: nat :| Returned(d, b, e.env.accounts);
        ReturnedFunds(d, b, e.env.accounts);
      }
    }
  }

  lemma StartFunded(cfg: Config, env: StartEnv, states: seq<State>, run: seq<Event>, d: DepositProtocol.State)
    requires Trace(cfg, env, states, run)
    ensures FundedFrom(states[0], |env.accounts|, d)
  {
    TraceStart(cfg, env, states, run);
  }

  lemma NextFunded(cfg: Config, env: StartEnv, states: seq<State>, run: seq<Event>, d: DepositProtocol.State, i: nat)
    requires Trace(cfg, env, states, run) && i < |run| && FundedFrom(states[i], |env.accounts|, d)
    requires DepositProtocol.Reachable(d) && Backed(d, run[i])
    ensures FundedFrom(states[i + 1], |env.accounts|, d)
  {
    TraceInv(cfg, env, states, run, i);
    TraceStep(cfg, env, states, run, i);
    StepKeepsFunded(states[i], cfg, run[i], |env.accounts|, d);
  }

  lemma {:induction false} TraceKeepsFunded(cfg: Config, env: StartEnv, states: seq<State>, run: seq<Event>,
                                            d: DepositProtocol.State, i: nat)
    requires Trace(cfg, env, states, run) && i <= |run|
    requires DepositProtocol.Reachable(d) && forall j :: 0 <= j < |run| ==> Backed(d, run[j])
    ensures FundedFrom(states[i], |env.accounts|, d)
  {
    if i == 0 {
      StartFunded(cfg, env, states, run, d);
    } else {
      TraceKeepsFunded(cfg, env, states, run, d, i - 1);
      NextFunded(cfg, env, states, run, d, i - 1);
    }
  }

  /** Every key a registered validator runs belongs to a genesis account or has its deposit in the contract's log. */
  lemma RunningKeysAreFunded(cfg: Config, env: StartEnv, states: seq<State>, run: seq<Event>, d: DepositProtocol.State,
                             i: nat, key: BlsKey)
    requires Trace(cfg, env, states, run)
    requires DepositProtocol.Reachable(d) && forall j :: 0 <= j < |run| ==> Backed(d, run[j])
    requires var nodes := states[|run|].nodes;
             && i < |nodes| && HasType(nodes[i], VALIDATOR)
             && key in LoadedKeys(ClientOf(nodes[i]), nodes[i].spec)
    ensures (exists t :: 0 <= t < |env.accounts| && key in BlsKeys(env.accounts[t]))
            || exists account: Account :: account.bls == key && DepositCalls.IsLogged(d, account)
  {
    var s := states[|run|];
    TraceStart(cfg, env, states, run);
    TraceInv(cfg, env, states, run, |run|);
    TraceKeepsFunded(cfg, env, states, run, d, |run|);
    var k := TrancheOf(s, cfg, i);
    var accounts := s.tranches[k].accounts;
    if k < |env.accounts| {
      assert k in states[0].tranches && accounts == env.accounts[k];
    } else {
      var j :| 0 <= j < |accounts| && accounts[j].bls == key;
      assert DepositCalls.IsLogged(d, accounts[j]);
    }
  }
}
