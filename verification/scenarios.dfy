/** Concrete runs of the contract: usage scenarios of the token, stated for any distinct
    addresses. */
module Scenarios {

  import opened Int128
  import opened Errors
  import opened Storage
  import opened LedgerState
  import opened Token

  /** The bytes of "Token". */
  const ExampleName: Text := [84, 111, 107, 101, 110]
  /** The bytes of "TKN". */
  const ExampleSymbol: Text := [84, 75, 78]

  /** A fresh contract after `initialize(admin, "Token", "TKN", 7)`. */
  function Deployed(admin: Address): Ledger {
    Commit(Empty, Initialize(Empty, admin, ExampleName, ExampleSymbol, 7))
  }

  /** `Deployed(admin)` after the administrator minted 1000 units to `alice`. */
  function Funded(admin: Address, alice: Address): Ledger {
    Commit(Deployed(admin), Mint(Deployed(admin), {admin}, alice, 1000))
  }

  /** The first `initialize` succeeds and a second one is refused. */
  lemma InitializeOnlyOnce(admin: Address, other: Address)
    ensures Initialize(Empty, admin, ExampleName, ExampleSymbol, 7).Ok?
    ensures NameOf(Deployed(admin)) == ExampleName && DecimalsOf(Deployed(admin)) == 7
    ensures Initialize(Deployed(admin), other, ExampleName, ExampleSymbol, 7) == Err(AlreadyInitialized)
  {
  }

  /** Minting 1000 sets the balance and the supply to 1000; minting a negative amount is refused
      and a mint authorised by anyone but the administrator is aborted. */
  lemma MintScenario(admin: Address, alice: Address)
    requires admin != alice
    ensures Mint(Deployed(admin), {admin}, alice, 1000).Ok?
    ensures BalanceOf(Funded(admin, alice), alice) == 1000
    ensures TotalSupplyOf(Funded(admin, alice)) == 1000
    ensures Mint(Funded(admin, alice), {admin}, alice, -5) == Err(InvalidAmount)
    ensures Mint(Funded(admin, alice), {alice}, alice, 5) == AuthAbort
  {
  }

  /** A self-transfer and an overdraft are both refused. */
  lemma TransferScenario(admin: Address, alice: Address, bob: Address)
    requires admin != alice && alice != bob
    ensures Transfer(Funded(admin, alice), {alice}, alice, alice, 10) == Err(InvalidRecipient)
    ensures Transfer(Funded(admin, alice), {alice}, alice, bob, 2000) == Err(InsufficientBalance)
  {
  }

  /** Spending a whole allowance prunes its record, after which any further spending is refused. */
  lemma AllowanceScenario(admin: Address, alice: Address, bob: Address, carol: Address)
    requires admin != alice && alice != bob && alice != carol && bob != carol
    ensures Approve(Funded(admin, alice), {alice}, alice, bob, 500).Ok?
    ensures
      var approved := Approve(Funded(admin, alice), {alice}, alice, bob, 500).next;
      var spent := TransferFrom(approved, {bob}, bob, alice, carol, 500);
      && spent.Ok?
      && AllowanceOf(spent.next, alice, bob) == 0
      && (alice, bob) !in spent.next.allowances
      && BalanceOf(spent.next, carol) == 500
      && TransferFrom(spent.next, {bob}, bob, alice, carol, 1) == Err(InsufficientAllowance)
  {
  }

  /** Minting the largest `i128` and then one more unit overflows and leaves the state as it was. */
  lemma OverflowScenario(admin: Address, alice: Address)
    ensures Mint(Deployed(admin), {admin}, alice, MaxI128).Ok?
    ensures
      var full := Mint(Deployed(admin), {admin}, alice, MaxI128).next;
      && Mint(full, {admin}, alice, 1) == Err(OverflowError)
      && Commit(full, Mint(full, {admin}, alice, 1)) == full
  {
  }
}
