/** Validator accounts. Key generation, signing and key encryption are outside the model; a key is its public part
    together with the outcome of marshalling its private part. */
module Keys {
  import opened GoIntegers
  import opened Wrappers

  type Bytes = seq<byte>

  /** prv is what Prv.Marshal() yields, None when it fails. */
  datatype BlsKey = BlsKey(pub: Bytes, prv: Option<Bytes>)

  /** ecdsa is the address of the account that sends the deposit transaction. */
  datatype Account = Account(bls: BlsKey, ecdsa: Bytes)

  function PubKeys(accounts: seq<Account>): (pubs: set<Bytes>)
    ensures forall p :: p in pubs <==> exists i :: 0 <= i < |accounts| && accounts[i].bls.pub == p
  {
    set i | 0 <= i < |accounts| :: accounts[i].bls.pub
  }

  function BlsKeys(accounts: seq<Account>): set<BlsKey> {
    set i | 0 <= i < |accounts| :: accounts[i].bls
  }

  predicate Distinct(accounts: seq<Account>) {
    forall i, j :: 0 <= i < j < |accounts| ==> accounts[i].bls.pub != accounts[j].bls.pub
  }

  predicate AllMarshal(accounts: seq<Account>) {
    forall i :: 0 <= i < |accounts| ==> accounts[i].bls.prv.Some?
  }
}
