/** The contract's public operations as transitions of the ledger state.

    Every operation is one all-or-nothing host invocation. It checks its guards in a fixed
    order and either commits a new state together with the event it publishes, returns one
    `TokenError`, or is aborted by the host because a `require_auth` failed. The set of
    addresses that authorised the invocation is a parameter: `require_auth(p)` passes exactly
    when `p` is in it. A failed invocation is rolled back by the host (`Commit`), so writes the
    operation made before failing (the balance `mint` and `burn` write before their supply
    check) are never observed.
 */
module Token {

  import opened Wrappers
  import opened Int128
  import opened Errors
  import opened Storage
  import opened LedgerState

  /** The payload of the event a successful operation publishes; the numbers are post-state. */
  datatype Event =
    | InitEvent(admin: Address, metadata: TokenMetadata)
    | MintEvent(to: Address, amount: I128, newBalance: I128, newSupply: I128)
    | BurnEvent(from: Address, amount: I128, newBalance: I128, newSupply: I128)
    | TransferEvent(from: Address, to: Address, amount: I128, newFromBalance: I128, newToBalance: I128)
    | ApproveEvent(from: Address, spender: Address, oldAllowance: I128, newAllowance: I128)
    | TransferFromEvent(spender: Address, from: Address, to: Address, amount: I128,
                        newFromBalance: I128, newToBalance: I128, newAllowance: I128)

  /** How an invocation ends: committed with its event, a declared error, or a host abort. */
  datatype Outcome =
    | Ok(next: Ledger, event: Event)
    | Err(error: TokenError)
    | AuthAbort

  /** The host's commit-or-rollback of one invocation: only a success replaces the state. */
  function Commit(prior: Ledger, o: Outcome): (r: Ledger)
    ensures !o.Ok? ==> r == prior
  {
    if o.Ok? then o.next else prior
  }

  /** The settings, i.e. everything but the balances, allowances and supply, are equal. */
  predicate SameSettings(a: Ledger, b: Ledger) {
    && a.initialized == b.initialized
    && a.admin == b.admin
    && a.name == b.name
    && a.symbol == b.symbol
    && a.decimals == b.decimals
  }

  /** `initialize`: one-time setup of the administrator and metadata; anyone may call it. */
  function Initialize(l: Ledger, admin: Address, name: Text, symbol: Text, decimals: U32): (o: Outcome)
    ensures l.initialized ==> o == Err(AlreadyInitialized)
    ensures !l.initialized && decimals > MaxDecimals ==> o == Err(InvalidDecimals)
    ensures
      && !l.initialized && decimals <= MaxDecimals
      && !(1 <= |name| <= MaxNameLength && 1 <= |symbol| <= MaxSymbolLength)
      ==> o == Err(InvalidMetadata)
    ensures o.Ok? <==>
      && !l.initialized
      && decimals <= MaxDecimals
      && 1 <= |name| <= MaxNameLength
      && 1 <= |symbol| <= MaxSymbolLength
    ensures o.Err? ==> o.error in {AlreadyInitialized, InvalidDecimals, InvalidMetadata}
    ensures o.Ok? ==>
      && o.next.initialized
      && AdminOf(o.next) == Some(admin)
      && NameOf(o.next) == name
      && SymbolOf(o.next) == symbol
      && DecimalsOf(o.next) == decimals
      && o.next.totalSupply == Some(0)
      && o.next.balances == l.balances
      && o.next.allowances == l.allowances
    ensures o.Ok? ==>
      o.event == InitEvent(admin, TokenMetadata(NameOf(o.next), SymbolOf(o.next), DecimalsOf(o.next)))
  {
    if l.initialized then Err(AlreadyInitialized)
    else if decimals > MaxDecimals then Err(InvalidDecimals)
    else if |name| == 0 || |name| > MaxNameLength then Err(InvalidMetadata)
    else if |symbol| == 0 || |symbol| > MaxSymbolLength then Err(InvalidMetadata)
    else
      var next := l.(
        admin := Some(admin),
        name := Some(name),
        symbol := Some(symbol),
        decimals := Some(decimals),
        totalSupply := Some(0),
        initialized := true);
      Ok(next, InitEvent(admin, TokenMetadata(name, symbol, decimals)))
  }

  /** `mint`: the administrator creates `amount` new units on `to`'s balance. */
  function Mint(l: Ledger, auth: set<Address>, to: Address, amount: I128): (o: Outcome)
    ensures !l.initialized ==> o == Err(NotInitialized)
    ensures o == AuthAbort <==> l.initialized && l.admin.Some? && l.admin.value !in auth
    ensures o.Ok? <==>
      && l.initialized && l.admin.Some? && l.admin.value in auth
      && amount > 0
      && InI128(BalanceOf(l, to) + amount)
      && InI128(TotalSupplyOf(l) + amount)
    ensures o == Err(InvalidAmount) <==>
      l.initialized && l.admin.Some? && l.admin.value in auth && amount <= 0
    ensures o == Err(OverflowError) <==>
      && l.initialized && l.admin.Some? && l.admin.value in auth && amount > 0
      && !(InI128(BalanceOf(l, to) + amount) && InI128(TotalSupplyOf(l) + amount))
    ensures o.Err? ==> o.error in {NotInitialized, InvalidAmount, OverflowError}
    ensures o.Ok? ==>
      && BalanceOf(o.next, to) == BalanceOf(l, to) + amount
      && TotalSupplyOf(o.next) == TotalSupplyOf(l) + amount
      && (forall a :: a != to ==> BalanceOf(o.next, a) == BalanceOf(l, a))
      && o.next.allowances == l.allowances
      && SameSettings(o.next, l)
    ensures o.Ok? ==>
      o.event == MintEvent(to, amount, BalanceOf(o.next, to), TotalSupplyOf(o.next))
  {
    if !l.initialized then Err(NotInitialized)
    else if l.admin.None? then Err(NotInitialized)
    else if l.admin.value !in auth then AuthAbort
    else if amount <= 0 then Err(InvalidAmount)
    else
      match CheckedAdd(BalanceOf(l, to), amount)
      case None => Err(OverflowError)
      case Some(newBalance) =>
        // the balance is written before the supply is checked; a failure below is rolled back
        var written := l.(balances := l.balances[to := newBalance]);
        match CheckedAdd(TotalSupplyOf(written), amount)
        case None => Err(OverflowError)
        case Some(newSupply) =>
          Ok(written.(totalSupply := Some(newSupply)), MintEvent(to, amount, newBalance, newSupply))
  }

  /** `burn`: `from` destroys `amount` of its own units. */
  function Burn(l: Ledger, auth: set<Address>, from: Address, amount: I128): (o: Outcome)
    ensures !l.initialized ==> o == Err(NotInitialized)
    ensures o == AuthAbort <==> l.initialized && from !in auth
    ensures o == Err(InvalidAmount) <==> l.initialized && from in auth && amount <= 0
    ensures o == Err(InsufficientBalance) <==>
      l.initialized && from in auth && amount > 0 && BalanceOf(l, from) < amount
    ensures o.Ok? <==>
      && l.initialized && from in auth
      && 0 < amount <= BalanceOf(l, from)
      && InI128(TotalSupplyOf(l) - amount)
    ensures o == Err(OverflowError) <==>
      && l.initialized && from in auth
      && 0 < amount <= BalanceOf(l, from)
      && !InI128(TotalSupplyOf(l) - amount)
    ensures o.Err? ==> o.error in {NotInitialized, InvalidAmount, InsufficientBalance, OverflowError}
    ensures o.Ok? ==>
      && BalanceOf(o.next, from) == BalanceOf(l, from) - amount
      && (from in o.next.balances <==> BalanceOf(l, from) != amount)
      && TotalSupplyOf(o.next) == TotalSupplyOf(l) - amount
      && (forall a :: a != from ==> BalanceOf(o.next, a) == BalanceOf(l, a))
      && o.next.allowances == l.allowances
      && SameSettings(o.next, l)
    ensures o.Ok? ==>
      o.event == BurnEvent(from, amount, BalanceOf(o.next, from), TotalSupplyOf(o.next))
  {
    if !l.initialized then Err(NotInitialized)
    else if from !in auth then AuthAbort
    else if amount <= 0 then Err(InvalidAmount)
    else
      var balance := BalanceOf(l, from);
      if balance < amount then Err(InsufficientBalance)
      else
        var newBalance := balance - amount;
        // the balance is written (or pruned) before the supply is checked
        var written := l.(balances := Write(l.balances, from, newBalance));
        match CheckedSub(TotalSupplyOf(written), amount)
        case None => Err(OverflowError)
        case Some(newSupply) =>
          Ok(written.(totalSupply := Some(newSupply)), BurnEvent(from, amount, newBalance, newSupply))
  }

  /** `transfer`: `from` moves `amount` of its units to another account `to`. */
  function Transfer(l: Ledger, auth: set<Address>, from: Address, to: Address, amount: I128): (o: Outcome)
    ensures !l.initialized ==> o == Err(NotInitialized)
    ensures o == AuthAbort <==> l.initialized && from !in auth
    ensures o == Err(InvalidAmount) <==> l.initialized && from in auth && amount <= 0
    ensures o == Err(InvalidRecipient) <==> l.initialized && from in auth && amount > 0 && from == to
    ensures o == Err(InsufficientBalance) <==>
      l.initialized && from in auth && amount > 0 && from != to && BalanceOf(l, from) < amount
    ensures o == Err(OverflowError) <==>
      && l.initialized && from in auth && from != to
      && 0 < amount <= BalanceOf(l, from)
      && !InI128(BalanceOf(l, to) + amount)
    ensures o.Ok? <==>
      && l.initialized && from in auth
      && from != to
      && 0 < amount <= BalanceOf(l, from)
      && InI128(BalanceOf(l, to) + amount)
    ensures o.Ok? ==>
      && BalanceOf(o.next, from) == BalanceOf(l, from) - amount
      && (from in o.next.balances <==> BalanceOf(l, from) != amount)
      && BalanceOf(o.next, to) == BalanceOf(l, to) + amount
      && (forall a :: a != from && a != to ==> BalanceOf(o.next, a) == BalanceOf(l, a))
      && o.next.totalSupply == l.totalSupply
      && o.next.allowances == l.allowances
      && SameSettings(o.next, l)
    ensures o.Ok? ==>
      o.event == TransferEvent(from, to, amount, BalanceOf(o.next, from), BalanceOf(o.next, to))
  {
    if !l.initialized then Err(NotInitialized)
    else if from !in auth then AuthAbort
    else if amount <= 0 then Err(InvalidAmount)
    else if from == to then Err(InvalidRecipient)
    else
      var fromBalance := BalanceOf(l, from);
      if fromBalance < amount then Err(InsufficientBalance)
      else
        var newFromBalance := fromBalance - amount;
        match CheckedAdd(BalanceOf(l, to), amount)
        case None => Err(OverflowError)
        case Some(newToBalance) =>
          var balances := Write(l.balances, from, newFromBalance)[to := newToBalance];
          Ok(l.(balances := balances), TransferEvent(from, to, amount, newFromBalance, newToBalance))
  }

  /** `approve`: `from` sets what `spender` may move out of its balance; 0 revokes. */
  function Approve(l: Ledger, auth: set<Address>, from: Address, spender: Address, amount: I128): (o: Outcome)
    ensures !l.initialized ==> o == Err(NotInitialized)
    ensures o == AuthAbort <==> l.initialized && from !in auth
    ensures o.Ok? <==> l.initialized && from in auth && amount >= 0
    ensures o == Err(InvalidAmount) <==> l.initialized && from in auth && amount < 0
    ensures o.Err? ==> o.error in {NotInitialized, InvalidAmount}
    ensures o.Ok? ==>
      && AllowanceOf(o.next, from, spender) == amount
      && ((from, spender) in o.next.allowances <==> amount != 0)
      && (forall p, q :: (p, q) != (from, spender) ==> AllowanceOf(o.next, p, q) == AllowanceOf(l, p, q))
      && o.next.balances == l.balances
      && o.next.totalSupply == l.totalSupply
      && SameSettings(o.next, l)
    ensures o.Ok? ==> o.event == ApproveEvent(from, spender, AllowanceOf(l, from, spender), amount)
  {
    if !l.initialized then Err(NotInitialized)
    else if from !in auth then AuthAbort
    else if amount < 0 then Err(InvalidAmount)
    else
      var oldAllowance := AllowanceOf(l, from, spender);
      var allowances := Write(l.allowances, (from, spender), amount);
      Ok(l.(allowances := allowances), ApproveEvent(from, spender, oldAllowance, amount))
  }

  /** `transfer_from`: `spender` moves `amount` from `from` to `to`, spending its allowance. */
  function TransferFrom(l: Ledger, auth: set<Address>, spender: Address, from: Address, to: Address, amount: I128): (o: Outcome)
    ensures !l.initialized ==> o == Err(NotInitialized)
    ensures o == AuthAbort <==> l.initialized && spender !in auth
    ensures o == Err(InvalidAmount) <==> l.initialized && spender in auth && amount <= 0
    ensures o == Err(InvalidRecipient) <==> l.initialized && spender in auth && amount > 0 && from == to
    ensures o == Err(InsufficientAllowance) <==>
      && l.initialized && spender in auth && amount > 0 && from != to
      && AllowanceOf(l, from, spender) < amount
    ensures o == Err(InsufficientBalance) <==>
      && l.initialized && spender in auth && amount > 0 && from != to
      && AllowanceOf(l, from, spender) >= amount
      && BalanceOf(l, from) < amount
    ensures o == Err(OverflowError) <==>
      && l.initialized && spender in auth && from != to
      && 0 < amount <= AllowanceOf(l, from, spender)
      && amount <= BalanceOf(l, from)
      && !InI128(BalanceOf(l, to) + amount)
    ensures o.Err? ==> o.error in {NotInitialized, InvalidAmount, InvalidRecipient, InsufficientAllowance,
                                   InsufficientBalance, OverflowError}
    ensures o.Ok? <==>
      && l.initialized && spender in auth
      && from != to
      && 0 < amount <= AllowanceOf(l, from, spender)
      && amount <= BalanceOf(l, from)
      && InI128(BalanceOf(l, to) + amount)
    ensures o.Ok? ==>
      && BalanceOf(o.next, from) == BalanceOf(l, from) - amount
      && BalanceOf(o.next, to) == BalanceOf(l, to) + amount
      && (forall a :: a != from && a != to ==> BalanceOf(o.next, a) == BalanceOf(l, a))
      && AllowanceOf(o.next, from, spender) == AllowanceOf(l, from, spender) - amount
      && ((from, spender) in o.next.allowances <==> AllowanceOf(l, from, spender) != amount)
      && (forall p, q :: (p, q) != (from, spender) ==> AllowanceOf(o.next, p, q) == AllowanceOf(l, p, q))
      && o.next.totalSupply == l.totalSupply
      && SameSettings(o.next, l)
    ensures o.Ok? ==>
      o.event == TransferFromEvent(spender, from, to, amount, BalanceOf(o.next, from),
                                   BalanceOf(o.next, to), AllowanceOf(o.next, from, spender))
  {
    if !l.initialized then Err(NotInitialized)
    else if spender !in auth then AuthAbort
    else if amount <= 0 then Err(InvalidAmount)
    else if from == to then Err(InvalidRecipient)
    else
      var allowed := AllowanceOf(l, from, spender);
      if allowed < amount then Err(InsufficientAllowance)
      else
        var fromBalance := BalanceOf(l, from);
        if fromBalance < amount then Err(InsufficientBalance)
        else
          var newFromBalance := fromBalance - amount;
          match CheckedAdd(BalanceOf(l, to), amount)
          case None => Err(OverflowError)
          case Some(newToBalance) =>
            var newAllowance := allowed - amount;
            var balances := Write(l.balances, from, newFromBalance)[to := newToBalance];
            var allowances := Write(l.allowances, (from, spender), newAllowance);
            Ok(l.(balances := balances, allowances := allowances),
               TransferFromEvent(spender, from, to, amount, newFromBalance, newToBalance, newAllowance))
  }
}
