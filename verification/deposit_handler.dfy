/** The sequential pieces that the goroutines of the deposit protocol run: taking a nonce, sending a funding-key
    transaction, and polling for its receipt. */
module DepositHandler {
  import opened GoIntegers
  import opened Wrappers
  import DepositProtocol

  const DEFAULT_GAS_PRICE: nat := 1879048192
  const DEFAULT_GAS_LIMIT: nat := 5242880
  const NOT_FOUND: string := "not found"

  /** One answer to GetTransactionReceipt. */
  datatype Answer<R> = Answer(receipt: Option<R>, error: Option<string>)

  /** An answer that ends the polling: an error other than "not found", or a receipt. */
  predicate Decides<R>(a: Answer<R>) {
    (a.error.Some? && a.error.value != NOT_FOUND) || a.receipt.Some?
  }

  function Decision<R>(a: Answer<R>): Result<R>
    requires Decides(a)
  {
    if a.error.Some? && a.error.value != NOT_FOUND then Err(a.error.value) else Ok(a.receipt.value)
  }

  /** The first deciding answer among those from position i on, if there is one before n. */
  ghost predicate FirstDecides<R>(answers: nat -> Answer<R>, n: nat) {
    Decides(answers(n)) && forall i :: 0 <= i < n ==> !Decides(answers(i))
  }

  class Transaction {
    var gasPrice: nat
    var gas: nat
    var nonce: nat

    constructor (gasPrice: nat, gas: nat, nonce: nat)
      ensures this.gasPrice == gasPrice && this.gas == gas && this.nonce == nonce
    {
      this.gasPrice, this.gas, this.nonce := gasPrice, gas, nonce;
    }
  }

  /** What happens to one call of sendTransaction outside the program. */
  datatype Env<!R> = Env(signs: bool, encodes: bool, sends: bool, answers: nat -> Answer<R>)

  /** What polling yields: the first deciding answer if it is among the first 122, and a timeout otherwise. */
  ghost predicate Polled<R>(answers: nat -> Answer<R>, r: Result<R>) {
    || (exists n :: 0 <= n < DepositProtocol.POLLS && FirstDecides(answers, n) && r == Decision(answers(n)))
    || ((forall n :: 0 <= n < DepositProtocol.POLLS ==> !Decides(answers(n))) && r == Err("timeout"))
  }

  /** Asks for the receipt until an answer decides, 122 times at most, sleeping a second between questions. */
  method WaitForReceipt<R>(answers: nat -> Answer<R>) returns (r: Result<R>, polls: nat, sleeps: nat)
    ensures Polled(answers, r)
    ensures 1 <= polls <= DepositProtocol.POLLS && sleeps == polls - 1
    ensures forall n: nat :: FirstDecides(answers, n) ==> polls == if n < DepositProtocol.POLLS then n + 1 else DepositProtocol.POLLS
    ensures !Decides(answers(polls - 1)) ==> polls == DepositProtocol.POLLS
  {
    var count := 0;
    polls, sleeps := 0, 0;
    while true
      invariant count == polls == sleeps <= 121
      invariant forall i :: 0 <= i < polls ==> !Decides(answers(i))
      decreases 121 - count
    {
      var a := answers(polls);
      polls := polls + 1;
      if a.error.Some? && a.error.value != NOT_FOUND {
        assert FirstDecides(answers, polls - 1);
        return Err(a.error.value), polls, sleeps;
      }
      if a.receipt.Some? {
        assert FirstDecides(answers, polls - 1);
        return Ok(a.receipt.value), polls, sleeps;
      }
      if count > 120 {
        break;
      }
      sleeps := sleeps + 1;
      count := count + 1;
    }
    return Err("timeout"), polls, sleeps;
  }

  /** What sendTransaction yields: the first step that fails, or what polling yields. */
  ghost predicate SendResult<R>(env: Env<R>, r: Result<R>) {
    if !env.signs then r == Err("sign")
    else if !env.encodes then r == Err("encode")
    else if !env.sends then r == Err("send")
    else Polled(env.answers, r)
  }

  class Handler {
    var nonce: int

    constructor ()
      ensures nonce == DepositProtocol.INITIAL.counter
    {
      nonce := -1;
    }

    /** atomic.AddInt64(&nonce, 1): the same counter step as in the protocol. */
    method GetNextNonce() returns (n: nat)
      modifies this
      ensures nonce == DepositProtocol.NextCounter(old(nonce))
      ensures n == DepositProtocol.NonceOf(nonce)
    {
      nonce := WrapInt64(nonce + 1);
      n := ToUint64(nonce);
    }

    /** Fills in the missing fields and sends. A nonce is taken exactly when the transaction has none yet, also when
        signing, encoding or sending then fails. */
    method SendTransaction<R>(txn: Transaction, env: Env<R>) returns (r: Result<R>)
      modifies this, txn
      ensures txn.gasPrice == if old(txn.gasPrice) == 0 then 0x7000_0000 else old(txn.gasPrice)
      ensures txn.gas == if old(txn.gas) == 0 then 0x50_0000 else old(txn.gas)
      ensures nonce == if old(txn.nonce) == 0 then DepositProtocol.NextCounter(old(nonce)) else old(nonce)
      ensures txn.nonce == if old(txn.nonce) == 0 then DepositProtocol.NonceOf(nonce) else old(txn.nonce)
      ensures SendResult(env, r)
    {
      if txn.gasPrice == 0 {
        txn.gasPrice := DEFAULT_GAS_PRICE;
      }
      if txn.gas == 0 {
        txn.gas := DEFAULT_GAS_LIMIT;
      }
      if txn.nonce == 0 {
        txn.nonce := GetNextNonce();
      }
      if !env.signs {
        return Err("sign");
      }
      if !env.encodes {
        return Err("encode");
      }
      if !env.sends {
        return Err("send");
      }
      var polls, sleeps;
      r, polls, sleeps := WaitForReceipt(env.answers);
    }

    /** The first transaction of a handler, the contract deployment, takes nonce 0. */
    method DeployDeposit<R>(env: Env<R>) returns (r: Result<R>)
      requires nonce == DepositProtocol.INITIAL.counter
      modifies this
      ensures DepositProtocol.NonceOf(nonce) == 0
      ensures SendResult(env, r)
    {
      var txn := new Transaction(0, 0, 0);
      r := SendTransaction(txn, env);
    }
  }
}
