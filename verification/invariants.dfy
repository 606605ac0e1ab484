/** Every committed invocation keeps the ledger invariant, so every state reachable from a
    freshly deployed contract satisfies it. */
module Invariants {

  import opened Int128
  import opened Storage
  import opened LedgerState
  import opened Token

  /** Initialization fills the settings of an empty ledger, whose supply (0) is the empty sum. */
  lemma InitializePreservesValid(l: Ledger, admin: Address, name: Text, symbol: Text, decimals: U32)
    requires Valid(l)
    ensures Valid(Commit(l, Initialize(l, admin, name, symbol, decimals)))
  {
  }

  /** Minting raises one record and the supply by the same amount. */
  lemma {:induction false} MintPreservesValid(l: Ledger, auth: set<Address>, to: Address, amount: I128)
    requires Valid(l)
    ensures Valid(Commit(l, Mint(l, auth, to, amount)))
  {
    var o := Mint(l, auth, to, amount);
    if o.Ok? {
      var newBalance := BalanceOf(l, to) + amount;
      assert o.next.balances == l.balances[to := newBalance];
      SumUpdate(l.balances, to, newBalance);
    }
  }

  /** Burning lowers one record (pruning it at 0) and the supply by the same amount. */
  lemma {:induction false} BurnPreservesValid(l: Ledger, auth: set<Address>, from: Address, amount: I128)
    requires Valid(l)
    ensures Valid(Commit(l, Burn(l, auth, from, amount)))
  {
    var o := Burn(l, auth, from, amount);
    if o.Ok? {
      var newBalance := BalanceOf(l, from) - amount;
      assert o.next.balances == Write(l.balances, from, newBalance);
      SumWrite(l.balances, from, newBalance);
    }
  }

  /** The sum is unchanged when one record loses what another gains. */
  lemma {:induction false} MoveKeepsSum(m: map<Address, I128>, from: Address, to: Address, newFrom: I128, newTo: I128)
    requires from != to
    requires newFrom as int + newTo == (if from in m then m[from] as int else 0) + (if to in m then m[to] as int else 0)
    ensures Sum(Write(m, from, newFrom)[to := newTo]) == Sum(m)
  {
    SumWrite(m, from, newFrom);
    SumUpdate(Write(m, from, newFrom), to, newTo);
  }

  /** A transfer moves units between two records: the supply and the sum of balances stay put. */
  lemma {:induction false} TransferPreservesValid(l: Ledger, auth: set<Address>, from: Address, to: Address, amount: I128)
    requires Valid(l)
    ensures Valid(Commit(l, Transfer(l, auth, from, to, amount)))
    ensures Transfer(l, auth, from, to, amount).Ok? ==>
      Sum(Transfer(l, auth, from, to, amount).next.balances) == Sum(l.balances)
  {
    var o := Transfer(l, auth, from, to, amount);
    if o.Ok? {
      var newFrom := BalanceOf(l, from) - amount;
      var newTo := BalanceOf(l, to) + amount;
      assert o.next.balances == Write(l.balances, from, newFrom)[to := newTo];
      MoveKeepsSum(l.balances, from, to, newFrom, newTo);
    }
  }

  /** Approving only replaces one allowance record, pruned at 0. */
  lemma ApprovePreservesValid(l: Ledger, auth: set<Address>, from: Address, spender: Address, amount: I128)
    requires Valid(l)
    ensures Valid(Commit(l, Approve(l, auth, from, spender, amount)))
  {
  }

  /** A delegated transfer moves units like a transfer and lowers a positive allowance. */
  lemma {:induction false} TransferFromPreservesValid(l: Ledger, auth: set<Address>, spender: Address, from: Address, to: Address, amount: I128)
    requires Valid(l)
    ensures Valid(Commit(l, TransferFrom(l, auth, spender, from, to, amount)))
    ensures TransferFrom(l, auth, spender, from, to, amount).Ok? ==>
      Sum(TransferFrom(l, auth, spender, from, to, amount).next.balances) == Sum(l.balances)
  {
    var o := TransferFrom(l, auth, spender, from, to, amount);
    if o.Ok? {
      var newFrom := BalanceOf(l, from) - amount;
      var newTo := BalanceOf(l, to) + amount;
      assert o.next.balances == Write(l.balances, from, newFrom)[to := newTo];
      MoveKeepsSum(l.balances, from, to, newFrom, newTo);
    }
  }

  /** One invocation of a public mutating operation, with its arguments. */
  datatype Call =
    | InitializeCall(admin: Address, name: Text, symbol: Text, decimals: U32)
    | MintCall(to: Address, amount: I128)
    | BurnCall(from: Address, amount: I128)
    | TransferCall(from: Address, to: Address, amount: I128)
    | ApproveCall(from: Address, spender: Address, amount: I128)
    | TransferFromCall(spender: Address, from: Address, to: Address, amount: I128)

  /** An invocation: the call and the addresses that authorised it. */
  datatype Invocation = Invocation(auth: set<Address>, call: Call)

  /** Dispatch of one invocation to its operation. */
  function Apply(l: Ledger, inv: Invocation): Outcome
  {
    match inv.call
    case InitializeCall(admin, name, symbol, decimals) => Initialize(l, admin, name, symbol, decimals)
    case MintCall(to, amount) => Mint(l, inv.auth, to, amount)
    case BurnCall(from, amount) => Burn(l, inv.auth, from, amount)
    case TransferCall(from, to, amount) => Transfer(l, inv.auth, from, to, amount)
    case ApproveCall(from, spender, amount) => Approve(l, inv.auth, from, spender, amount)
    case TransferFromCall(spender, from, to, amount) => TransferFrom(l, inv.auth, spender, from, to, amount)
  }

  /** The host running invocations one after another, committing or rolling back each. */
  function Run(l: Ledger, invs: seq<Invocation>): Ledger
    decreases |invs|
  {
    if invs == [] then l else Run(Commit(l, Apply(l, invs[0])), invs[1..])
  }

  /** Every single invocation keeps the invariant. */
  lemma {:induction false} ApplyPreservesValid(l: Ledger, inv: Invocation)
    requires Valid(l)
    ensures Valid(Commit(l, Apply(l, inv)))
  {
    match inv.call
    case InitializeCall(admin, name, symbol, decimals) =>
      InitializePreservesValid(l, admin, name, symbol, decimals);
    case MintCall(to, amount) => MintPreservesValid(l, inv.auth, to, amount);
    case BurnCall(from, amount) => BurnPreservesValid(l, inv.auth, from, amount);
    case TransferCall(from, to, amount) => TransferPreservesValid(l, inv.auth, from, to, amount);
    case ApproveCall(from, spender, amount) => ApprovePreservesValid(l, inv.auth, from, spender, amount);
    case TransferFromCall(spender, from, to, amount) =>
      TransferFromPreservesValid(l, inv.auth, spender, from, to, amount);
  }

  /** Any run of invocations from a valid ledger ends in a valid ledger. */
  lemma {:induction false} RunPreservesValid(l: Ledger, invs: seq<Invocation>)
    requires Valid(l)
    ensures Valid(Run(l, invs))
    decreases |invs|
  {
    if invs != [] {
      ApplyPreservesValid(l, invs[0]);
      RunPreservesValid(Commit(l, Apply(l, invs[0])), invs[1..]);
    }
  }

  /** Every state reachable from a freshly deployed contract is valid: its supply equals the sum
      of its balances and it stores no zero or negative record. */
  lemma {:induction false} ReachableValid(invs: seq<Invocation>)
    ensures Valid(Run(Empty, invs))
  {
    EmptyValid();
    RunPreservesValid(Empty, invs);
  }
}
