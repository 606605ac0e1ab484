# Fungible-token ledger contract, modelled in Dafny

This project models the bookkeeping core of a Soroban fungible-token contract (`TokenBDB`):
one-time initialization of the administrator and metadata (name, symbol, decimals), minting by
the administrator, burning, transfers, allowances and delegated transfers, the read-only
getters, the storage key space with its instance/persistent tiers, and the numbered error
taxonomy.

The ledger state is an immutable record (`LedgerState.Ledger`) that mirrors the contract's
storage key by key: each instance-tier key (`Admin`, `TokenName`, `TokenSymbol`, `Decimals`,
`TotalSupply`) is an optional field, the `Initialized` key is a flag, and the persistent
`Balance(account)` and `Allowance(owner, spender)` records are Dafny maps, so an absent record
stays distinct from a record holding 0 and zero-pruning is visible. `StoreView` relates this
record to the literal key-value store (`Encode`/`Decode`, inverse to each other).

Every public mutating operation is a pure function returning `Ok(next, event)`,
`Err(TokenError)` or `AuthAbort`. The addresses that authorised the invocation are a parameter
(`auth`); `require_auth(p)` passes exactly when `p` is in it. `Commit` is the host's rollback:
a failed invocation leaves the prior state, which matters because `mint` and `burn` write the
balance before their supply check. Amounts are `i128` and decimals `u32`, both as subset types
of `int`; `checked_add`/`checked_sub` return `None` outside the `i128` range.

The central invariant `LedgerState.Valid` says: stored balances and allowances are strictly
positive, the supply counter equals the sum of the stored balances, and an uninitialized
ledger stores nothing. Every operation preserves it (`Invariants`), so every state reachable
from a fresh deployment satisfies it (`Invariants.ReachableValid`). From it follow that `burn`
and both transfers can never reach their overflow error, and that `mint` overflows exactly
when the supply would.

Modules: `Wrappers` (Option), `Int128`, `Errors`, `Storage`, `LedgerState`, `Token`
(operations), `Invariants`, `Properties`, `StoreView`, `Scenarios`.

Points where the model follows the code literally:
- `admin()` aborts the host when no administrator is stored; it reads the `Admin` key without
  consulting `Initialized`. The model returns `None` in that case.
- `mint` checks for overflow twice, on the recipient's new balance and then on the new supply;
  both checks are modelled. Only the decreasing side of a transfer is pruned at 0; the credited
  balance is written with a plain `set`.
- `initialize` takes no authorisation; `approve` accepts `from == spender`.

## Model

| member | source | states |
|---|---|---|
| Int128.CheckedAdd | contracts/hello-world/src/lib.rs:185-186 | `checked_add` succeeds exactly when the sum is within the `i128` range, and its result minus the addend is the original operand |
| Int128.CheckedSub | contracts/hello-world/src/lib.rs:259-260 | `checked_sub` succeeds exactly when the difference is within the `i128` range, and its result plus the subtrahend is the original operand |
| Int128.CheckedAddSubRoundTrip | contracts/hello-world/src/lib.rs:203-204 | the supply subtraction of `burn` undoes the supply addition of `mint` without overflowing |
| Int128.CheckedNonNegative | contracts/hello-world/src/lib.rs:176-186 | with a non-negative amount an addition can only overflow upwards, and subtracting at most the operand never overflows |
| Errors.Code | contracts/hello-world/src/errors.rs:14-46 | every error has a code between 1 and 9, never the reserved 0 |
| Errors.FromCode | contracts/hello-world/src/errors.rs:14-46 | exactly the codes 1..9 name an error, and the named error carries that code |
| Errors.CodeIsDeclarationPosition | contracts/hello-world/src/errors.rs:11-46 | each error's code is its 1-based position in declaration order |
| Errors.PositionCode | contracts/hello-world/src/errors.rs:14-46 | the variant declared at position i has code i+1 |
| Errors.CodeInjective | contracts/hello-world/src/errors.rs:6 | no two errors share a code |
| Errors.CodeRoundTrip | contracts/hello-world/src/errors.rs:7 | decoding an error's code gives the error back; code 0 decodes to no error |
| Errors.DerivedOrderMatchesCodes | contracts/hello-world/src/errors.rs:9-46 | the derived ordering (declaration order) holds between two errors exactly when their codes are in ascending order |
| Storage.TierOf | contracts/hello-world/src/storage.rs:6-41 | balance and allowance keys are persistent, the six singleton keys are instance storage |
| Storage.BalanceKeyInjective | contracts/hello-world/src/storage.rs:13 | two accounts share a balance key only if they are the same account |
| Storage.AllowanceKeyOrdered | contracts/hello-world/src/storage.rs:17 | the allowance keys of (a, b) and (b, a) differ when a and b differ |
| LedgerState.NameOf | contracts/hello-world/src/lib.rs:502-511 | `name` is empty before initialization |
| LedgerState.SymbolOf | contracts/hello-world/src/lib.rs:513-521 | `symbol` is empty before initialization |
| LedgerState.DecimalsOf | contracts/hello-world/src/lib.rs:523-531 | `decimals` is 0 before initialization |
| LedgerState.TotalSupplyOf | contracts/hello-world/src/lib.rs:533-537 | `total_supply` is 0 while no supply counter is stored |
| LedgerState.AdminOf | contracts/hello-world/src/lib.rs:539-543 | in a valid ledger `admin` finds a stored administrator exactly when the contract is initialized |
| LedgerState.Write | contracts/hello-world/src/lib.rs:240-253 | writing 0 removes the record, writing anything else stores it, and no other record changes |
| LedgerState.SumWrite | contracts/hello-world/src/lib.rs:238-253 | a pruned or stored write shifts the sum of balances by the change in that one record |
| LedgerState.BalanceReadSemantics | contracts/hello-world/src/lib.rs:275-279 | `balance` of an account without a record is 0; in a valid ledger it is 0 exactly when there is no record, and never negative |
| LedgerState.AllowanceReadSemantics | contracts/hello-world/src/lib.rs:400-404 | `allowance` of a pair without a record is 0; in a valid ledger it is 0 exactly when there is no record, and never negative |
| LedgerState.BalanceBelowSupply | contracts/hello-world/src/lib.rs:233-260 | in a valid ledger every balance lies between 0 and the total supply |
| LedgerState.TwoBalancesBelowSupply | contracts/hello-world/src/lib.rs:305-314 | in a valid ledger two distinct balances together are at most the total supply |
| LedgerState.SupplyIsSumOfBalances | contracts/hello-world/src/lib.rs:533-537 | in a valid ledger `total_supply` equals the sum of the stored balances and is never negative |
| LedgerState.EmptyValid | contracts/hello-world/src/lib.rs:119-121 | a fresh deployment, with nothing stored, satisfies the ledger invariant |
| Token.Commit | contracts/hello-world/src/lib.rs:189-204 | a failed or aborted invocation leaves the prior state, discarding writes made before the failure |
| Token.Initialize | contracts/hello-world/src/lib.rs:111-161 | refuses a second call with `AlreadyInitialized`, then decimals above 18 with `InvalidDecimals`, then a name outside 1..100 or symbol outside 1..32 bytes with `InvalidMetadata`; on success the getters return the given admin, name, symbol and decimals, supply is 0, and the `init` event carries the stored metadata |
| Token.Mint | contracts/hello-world/src/lib.rs:163-217 | `NotInitialized` first, then an abort unless the stored admin authorised, then `InvalidAmount` for amount <= 0, then `OverflowError` exactly when the new balance or the new supply leaves the `i128` range; succeeds exactly when balance and supply both stay in range, raising that balance and the supply by the amount and no other balance; the event reports the new balance and supply |
| Token.Burn | contracts/hello-world/src/lib.rs:219-273 | `NotInitialized`, then an abort unless `from` authorised, `InvalidAmount`, `InsufficientBalance` when the balance is below the amount, `OverflowError` exactly when the supply minus the amount leaves the `i128` range; on success lowers the balance and the supply by the amount, removes the record when it reaches 0, and touches nothing else |
| Token.Transfer | contracts/hello-world/src/lib.rs:281-349 | errors in the order `NotInitialized`, abort, `InvalidAmount`, `InvalidRecipient`, `InsufficientBalance`, `OverflowError` exactly when funds suffice and the receiver's new balance leaves the `i128` range; on success `from` loses and `to` gains the amount, `from` is pruned at 0, supply, allowances and all other balances are unchanged |
| Token.Approve | contracts/hello-world/src/lib.rs:351-398 | `NotInitialized`, then an abort unless `from` authorised, then `InvalidAmount` exactly for a negative amount; on success the allowance becomes exactly the amount (replacing the old one), the record exists exactly when the amount is non-zero, every other pair, every balance and the supply are unchanged, and the event reports old and new allowance |
| Token.TransferFrom | contracts/hello-world/src/lib.rs:406-499 | errors in the order `NotInitialized`, abort unless the spender authorised, `InvalidAmount`, `InvalidRecipient`, `InsufficientAllowance`, `InsufficientBalance`, and `OverflowError` exactly when allowance and funds suffice but the receiver's new balance leaves the `i128` range; on success moves the amount from `from` to `to`, lowers that one allowance by the amount (pruned at 0), and leaves supply and everything else unchanged |
| Invariants.InitializePreservesValid | contracts/hello-world/src/lib.rs:139-145 | initialization keeps the ledger invariant |
| Invariants.MintPreservesValid | contracts/hello-world/src/lib.rs:183-208 | a committed `mint` keeps supply equal to the sum of balances and every record positive |
| Invariants.BurnPreservesValid | contracts/hello-world/src/lib.rs:233-264 | a committed `burn` keeps supply equal to the sum of balances and every record positive |
| Invariants.MoveKeepsSum | contracts/hello-world/src/lib.rs:311-340 | moving an amount between two distinct balance records (pruning the debited one) leaves the sum unchanged |
| Invariants.TransferPreservesValid | contracts/hello-world/src/lib.rs:305-340 | a committed `transfer` conserves the sum of balances and keeps the invariant |
| Invariants.ApprovePreservesValid | contracts/hello-world/src/lib.rs:366-389 | a committed `approve` keeps every stored allowance positive and the invariant intact |
| Invariants.TransferFromPreservesValid | contracts/hello-world/src/lib.rs:432-490 | a committed `transfer_from` conserves the sum of balances and keeps the invariant |
| Invariants.ApplyPreservesValid | contracts/hello-world/src/lib.rs:110-499 | every invocation of any mutating operation keeps the invariant |
| Invariants.RunPreservesValid | contracts/hello-world/src/lib.rs:110-499 | any sequence of invocations, each committed or rolled back, keeps the invariant |
| Invariants.ReachableValid | contracts/hello-world/src/lib.rs:110-499 | every state reachable from a fresh deployment has supply equal to the sum of balances and only positive records |
| Properties.UninitializedRejectsAll | contracts/hello-world/src/lib.rs:163-167 | before initialization `mint`, `burn`, `transfer`, `approve` and `transfer_from` all fail with `NotInitialized`, whatever the authorisation or amount |
| Properties.BurnNeverOverflows | contracts/hello-world/src/lib.rs:256-260 | while supply equals the sum of balances, `burn` never returns `OverflowError` |
| Properties.MintOverflowIffSupplyOverflows | contracts/hello-world/src/lib.rs:183-204 | in a valid ledger `mint` overflows exactly when the supply plus the amount exceeds the `i128` maximum |
| Properties.TransferNeverOverflows | contracts/hello-world/src/lib.rs:310-314 | in a valid ledger `transfer` never returns `OverflowError` |
| Properties.TransferFromNeverOverflows | contracts/hello-world/src/lib.rs:443-447 | in a valid ledger `transfer_from` never returns `OverflowError` |
| Properties.MintThenBurnRestores | contracts/hello-world/src/lib.rs:184-264 | burning what was just minted to the same account succeeds and restores the exact prior state, records included |
| Properties.ApproveOverwrites | contracts/hello-world/src/lib.rs:373-389 | a second approval of the same pair gives the state the second alone would give |
| Properties.ApproveZeroIdempotent | contracts/hello-world/src/lib.rs:374-378 | revoking twice equals revoking once, and leaves no record |
| Properties.ApproveIsDirectional | contracts/hello-world/src/lib.rs:380-383 | approving (a, b) leaves the allowance of (b, a) unchanged |
| StoreView.Lookup | contracts/hello-world/src/storage.rs:10-42 | every key present in the store holds a value of the shape the contract writes under it |
| StoreView.Encode | contracts/hello-world/src/storage.rs:10-42 | the store of a ledger state answers every `get` as the state does, and holds only well-shaped entries |
| StoreView.DecodeEncode | contracts/hello-world/src/storage.rs:10-42 | reading a ledger state back out of its store gives the same state |
| StoreView.EncodeDecode | contracts/hello-world/src/storage.rs:10-42 | a store of well-shaped entries is the store of the state read out of it |
| StoreView.BalanceWriteIsolated | contracts/hello-world/src/storage.rs:13 | writing one account's balance changes no other key |
| StoreView.AllowanceWriteIsolated | contracts/hello-world/src/storage.rs:17 | writing one allowance changes no other key, including the reversed pair |
| StoreView.TiersIndependent | contracts/hello-world/src/storage.rs:6-41 | persistent-tier writes leave instance keys unchanged and vice versa |
| StoreView.Footprints | contracts/hello-world/src/lib.rs:139-490 | each successful operation changes only its own keys: `initialize` no persistent key, `mint`/`burn` one balance and the supply, `transfer` two balances, `approve` one allowance, `transfer_from` two balances and one allowance |
| StoreView.InitEventMatchesStore | contracts/hello-world/src/lib.rs:139-158 | the metadata in the `init` event is what the store holds under `TokenName`, `TokenSymbol` and `Decimals`, and `Initialized` is set |
| Scenarios.InitializeOnlyOnce | contracts/hello-world/src/lib.rs:118-145 | `initialize(admin, "Token", "TKN", 7)` succeeds on a fresh contract and a second call fails with `AlreadyInitialized` |
| Scenarios.MintScenario | contracts/hello-world/src/lib.rs:163-217 | minting 1000 sets balance and supply to 1000; minting -5 fails with `InvalidAmount`; a mint not authorised by the admin aborts |
| Scenarios.TransferScenario | contracts/hello-world/src/lib.rs:296-308 | a self-transfer fails with `InvalidRecipient` and an overdraft with `InsufficientBalance` |
| Scenarios.AllowanceScenario | contracts/hello-world/src/lib.rs:431-490 | spending a whole allowance prunes it, and a further spend fails with `InsufficientAllowance` |
| Scenarios.OverflowScenario | contracts/hello-world/src/lib.rs:183-204 | minting the `i128` maximum and then one more unit fails with `OverflowError` and leaves the state unchanged |

## Left out

- Time-to-live extension (`extend_ttl` on instance and persistent keys, windows 100 000 / 200 000): it affects retention cost, not any value a read returns.
- The cost difference between instance and persistent storage: only the tier of each key (`Storage.TierOf`) is kept.
- The internals of `require_auth`: it is the `auth` parameter, and a failure is the `AuthAbort` outcome with no state change.
- Event publication and the `symbol_short!` topic encoding: each success returns its event payload as data; the topic strings are not modelled.
- The internals of Soroban `String` and `Address`: an address is an opaque type with equality, a string is its byte sequence, whose length is what `len()` returns.
- The host panic of `admin()` when no administrator is stored: `LedgerState.AdminOf` returns `None` instead.
- The `#[contract]`, `#[contractimpl]`, `#[contracttype]` and `#[contracterror]` macros and their serialisation.
- Concurrency: the host serialises invocations, which `Invariants.Run` models as a sequence.
