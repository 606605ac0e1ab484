/** Properties relating several invocations, and the consequences of the ledger invariant for
    the contract's overflow checks. */
module Properties {

  import opened Wrappers
  import opened Int128
  import opened Errors
  import opened Storage
  import opened LedgerState
  import opened Token

  /** Before `initialize`, every other mutating operation fails with `NotInitialized`, ahead of
      any authorisation or amount check. */
  lemma UninitializedRejectsAll(l: Ledger, auth: set<Address>, a: Address, b: Address, c: Address, amount: I128)
    requires !l.initialized
    ensures Mint(l, auth, a, amount) == Err(NotInitialized)
    ensures Burn(l, auth, a, amount) == Err(NotInitialized)
    ensures Transfer(l, auth, a, b, amount) == Err(NotInitialized)
    ensures Approve(l, auth, a, b, amount) == Err(NotInitialized)
    ensures TransferFrom(l, auth, a, b, c, amount) == Err(NotInitialized)
  {
  }

  /** While the supply equals the sum of the balances, the supply's checked subtraction in
      `burn` cannot fail: the burnt amount is at most one balance, hence at most the supply. */
  lemma {:induction false} BurnNeverOverflows(l: Ledger, auth: set<Address>, from: Address, amount: I128)
    requires Valid(l)
    ensures Burn(l, auth, from, amount) != Err(OverflowError)
  {
    BalanceBelowSupply(l, from);
  }

  /** In a valid ledger `mint` overflows exactly when the new supply would leave the `i128`
      range: the recipient's balance, being part of the supply, cannot overflow first. */
  lemma {:induction false} MintOverflowIffSupplyOverflows(l: Ledger, auth: set<Address>, to: Address, amount: I128)
    requires Valid(l)
    ensures Mint(l, auth, to, amount) == Err(OverflowError) <==>
      && l.initialized && l.admin.value in auth && amount > 0
      && TotalSupplyOf(l) + amount > MaxI128
  {
    BalanceBelowSupply(l, to);
  }

  /** In a valid ledger the receiving side of `transfer` cannot overflow: both balances together
      are part of the supply. */
  lemma {:induction false} TransferNeverOverflows(l: Ledger, auth: set<Address>, from: Address, to: Address, amount: I128)
    requires Valid(l)
    ensures Transfer(l, auth, from, to, amount) != Err(OverflowError)
  {
    if from != to {
      TwoBalancesBelowSupply(l, from, to);
    }
  }

  /** Likewise for the receiving side of `transfer_from`. */
  lemma {:induction false} TransferFromNeverOverflows(l: Ledger, auth: set<Address>, spender: Address, from: Address, to: Address, amount: I128)
    requires Valid(l)
    ensures TransferFrom(l, auth, spender, from, to, amount) != Err(OverflowError)
  {
    if from != to {
      TwoBalancesBelowSupply(l, from, to);
    }
  }

  /** Burning what was just minted to the same account restores the exact prior state, records
      included: a record the mint created is pruned again by the burn. */
  lemma {:induction false} MintThenBurnRestores(l: Ledger, mintAuth: set<Address>, burnAuth: set<Address>, to: Address, amount: I128)
    requires Valid(l)
    requires Mint(l, mintAuth, to, amount).Ok?
    requires to in burnAuth
    ensures Burn(Mint(l, mintAuth, to, amount).next, burnAuth, to, amount).Ok?
    ensures Burn(Mint(l, mintAuth, to, amount).next, burnAuth, to, amount).next == l
  {
    var l1 := Mint(l, mintAuth, to, amount).next;
    var o := Burn(l1, burnAuth, to, amount);
    assert o.Ok?;
    assert o.next.balances == l.balances;
  }

  /** `approve` replaces rather than adds: of two approvals of the same pair, only the second
      one's amount remains, and the state is what the second alone would give. */
  lemma ApproveOverwrites(l: Ledger, auth: set<Address>, from: Address, spender: Address, first: I128, second: I128)
    requires Approve(l, auth, from, spender, first).Ok?
    requires second >= 0
    ensures Approve(Approve(l, auth, from, spender, first).next, auth, from, spender, second).Ok?
    ensures Approve(Approve(l, auth, from, spender, first).next, auth, from, spender, second).next
         == Approve(l, auth, from, spender, second).next
  {
    var l1 := Approve(l, auth, from, spender, first).next;
    assert Approve(l1, auth, from, spender, second).next.allowances
        == Approve(l, auth, from, spender, second).next.allowances;
  }

  /** Revoking twice is the same as revoking once. */
  lemma ApproveZeroIdempotent(l: Ledger, auth: set<Address>, from: Address, spender: Address)
    requires Approve(l, auth, from, spender, 0).Ok?
    ensures Commit(Approve(l, auth, from, spender, 0).next, Approve(Approve(l, auth, from, spender, 0).next, auth, from, spender, 0))
         == Approve(l, auth, from, spender, 0).next
    ensures (from, spender) !in Approve(l, auth, from, spender, 0).next.allowances
  {
    ApproveOverwrites(l, auth, from, spender, 0, 0);
  }

  /** Approving one direction of a pair of accounts leaves the other direction alone. */
  lemma ApproveIsDirectional(l: Ledger, auth: set<Address>, a: Address, b: Address, amount: I128)
    requires a != b
    ensures Approve(l, auth, a, b, amount).Ok? ==>
      AllowanceOf(Approve(l, auth, a, b, amount).next, b, a) == AllowanceOf(l, b, a)
  {
  }
}
