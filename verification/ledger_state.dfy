/** The token's ledger state, its read operations, and the invariant every committed
    state keeps.

    The record mirrors the contract's storage one key at a time: each instance-tier key is an
    optional field (absent until `initialize` writes it), the `Initialized` key is a flag
    (the contract only ever asks whether it is present), and the two persistent-tier key
    families are maps, so that an absent record and a record holding 0 stay distinct.
 */
module LedgerState {

  import opened Wrappers
  import opened Int128
  import opened Storage

  /** Upper bound on `decimals` (`MAX_DECIMALS`). */
  const MaxDecimals: nat := 18
  /** Upper bound on the byte length of the name (`MAX_NAME_LENGTH`). */
  const MaxNameLength: nat := 100
  /** Upper bound on the byte length of the symbol (`MAX_SYMBOL_LENGTH`). */
  const MaxSymbolLength: nat := 32

  datatype Ledger = Ledger(
    initialized: bool,
    admin: Option<Address>,
    name: Option<Text>,
    symbol: Option<Text>,
    decimals: Option<U32>,
    totalSupply: Option<I128>,
    balances: map<Address, I128>,
    allowances: map<(Address, Address), I128>)

  /** A freshly deployed contract: nothing stored under any key. */
  const Empty: Ledger := Ledger(false, None, None, None, None, None, map[], map[])

  /** `balance`: the stored balance, 0 when the account has no record. */
  function BalanceOf(l: Ledger, account: Address): (r: I128)
  {
    if account in l.balances then l.balances[account] else 0
  }

  /** `allowance`: what `spender` may still move out of `owner`'s balance, 0 without a record. */
  function AllowanceOf(l: Ledger, owner: Address, spender: Address): (r: I128)
  {
    if (owner, spender) in l.allowances then l.allowances[(owner, spender)] else 0
  }

  /** `total_supply`: the stored counter, 0 before `initialize` writes it. */
  function TotalSupplyOf(l: Ledger): (r: I128)
    ensures l.totalSupply.None? ==> r == 0
  {
    l.totalSupply.GetOr(0)
  }

  /** `name`: the empty string until the contract is initialized. */
  function NameOf(l: Ledger): (r: Text)
    ensures !l.initialized ==> r == []
  {
    if !l.initialized then [] else l.name.GetOr([])
  }

  /** `symbol`: the empty string until the contract is initialized. */
  function SymbolOf(l: Ledger): (r: Text)
    ensures !l.initialized ==> r == []
  {
    if !l.initialized then [] else l.symbol.GetOr([])
  }

  /** `decimals`: 0 until the contract is initialized. */
  function DecimalsOf(l: Ledger): (r: U32)
    ensures !l.initialized ==> r == 0
  {
    if !l.initialized then 0 else l.decimals.GetOr(0)
  }

  /** `admin`: the stored administrator. The contract aborts the host when there is none;
      here that case is the `None` answer. */
  function AdminOf(l: Ledger): (r: Option<Address>)
    ensures Valid(l) ==> (r.Some? <==> l.initialized)
  {
    l.admin
  }

  /** A write to a persistent record with the contract's pruning policy: writing 0 removes the
      record instead of storing it. */
  function Write<K(!new)>(m: map<K, I128>, k: K, v: I128): (r: map<K, I128>)
    ensures k in r <==> v != 0
    ensures k in r ==> r[k] == v
    ensures forall j :: j != k ==> (j in r <==> j in m)
    ensures forall j :: j != k && j in r ==> r[j] == m[j]
  {
    if v == 0 then m - {k} else m[k := v]
  }

  /** The sum of all stored balances. */
  ghost function Sum(m: map<Address, int>): int
    decreases |m|
  {
    if m == map[] then 0
    else
      var k :| k in m;
      m[k] + Sum(m - {k})
  }

  /** Any record can be split off the sum, not only the one the definition picks. */
  lemma {:induction false} SumRemove(m: map<Address, int>, k: Address)
    requires k in m
    ensures Sum(m) == m[k] + Sum(m - {k})
    decreases |m|
  {
    var j :| j in m && Sum(m) == m[j] + Sum(m - {j});
    if j != k {
      assert m - {j} - {k} == m - {k} - {j};
      SumRemove(m - {j}, k);
      SumRemove(m - {k}, j);
    }
  }

  /** Overwriting (or creating) one record shifts the sum by the change in that record. */
  lemma {:induction false} SumUpdate(m: map<Address, int>, k: Address, v: int)
    ensures Sum(m[k := v]) == Sum(m) - (if k in m then m[k] else 0) + v
  {
    SumRemove(m[k := v], k);
    assert m[k := v] - {k} == m - {k};
    if k in m {
      SumRemove(m, k);
    } else {
      assert m - {k} == m;
    }
  }

  /** Removing a record lowers the sum by the removed value (by nothing if it was absent). */
  lemma {:induction false} SumDelete(m: map<Address, int>, k: Address)
    ensures Sum(m - {k}) == Sum(m) - (if k in m then m[k] else 0)
  {
    if k in m {
      SumRemove(m, k);
    } else {
      assert m - {k} == m;
    }
  }

  /** With only non-negative records, the sum is non-negative. */
  lemma {:induction false} SumNonNegative(m: map<Address, int>)
    requires forall a :: a in m ==> m[a] >= 0
    ensures Sum(m) >= 0
    decreases |m|
  {
    if m != map[] {
      var k :| k in m;
      SumRemove(m, k);
      SumNonNegative(m - {k});
    }
  }

  /** With only non-negative records, no single record exceeds the sum. */
  lemma {:induction false} RecordBelowSum(m: map<Address, int>, a: Address)
    requires forall x :: x in m ==> m[x] >= 0
    ensures 0 <= (if a in m then m[a] else 0) <= Sum(m)
  {
    SumDelete(m, a);
    SumNonNegative(m - {a});
  }

  /** With only non-negative records, any two distinct records together are at most the sum. */
  lemma {:induction false} TwoRecordsBelowSum(m: map<Address, int>, a: Address, b: Address)
    requires forall x :: x in m ==> m[x] >= 0
    requires a != b
    ensures (if a in m then m[a] else 0) + (if b in m then m[b] else 0) <= Sum(m)
  {
    SumDelete(m, a);
    SumDelete(m - {a}, b);
    SumNonNegative(m - {a} - {b});
  }

  /** A pruning write shifts the sum by the change in that record, whether it stores or removes. */
  lemma {:induction false} SumWrite(m: map<Address, I128>, k: Address, v: I128)
    ensures Sum(Write(m, k, v)) == Sum(m) - (if k in m then m[k] else 0) + v
  {
    if v == 0 {
      SumDelete(m, k);
    } else {
      SumUpdate(m, k, v);
    }
  }

  /** What `initialize` leaves in the instance tier: every setting present and within the
      limits `initialize` enforces. */
  ghost predicate Configured(l: Ledger) {
    && l.admin.Some?
    && l.name.Some? && 1 <= |l.name.value| <= MaxNameLength
    && l.symbol.Some? && 1 <= |l.symbol.value| <= MaxSymbolLength
    && l.decimals.Some? && l.decimals.value <= MaxDecimals
    && l.totalSupply.Some?
  }

  /** The invariant of every committed state:
      - stored balances and allowances are strictly positive (zero records are pruned);
      - the supply counter equals the sum of the stored balances;
      - an initialized ledger holds all its settings; an uninitialized one holds nothing. */
  ghost predicate Valid(l: Ledger) {
    && (forall a :: a in l.balances ==> l.balances[a] > 0)
    && (forall p :: p in l.allowances ==> l.allowances[p] > 0)
    && TotalSupplyOf(l) == Sum(l.balances)
    && (l.initialized ==> Configured(l))
    && (!l.initialized ==> l == Empty)
  }

  /** A balance read of an account without a record gives 0; in a valid ledger a read gives 0
      exactly when there is no record, and is never negative. */
  lemma BalanceReadSemantics(l: Ledger, a: Address)
    ensures a !in l.balances ==> BalanceOf(l, a) == 0
    ensures Valid(l) ==> (BalanceOf(l, a) == 0 <==> a !in l.balances) && BalanceOf(l, a) >= 0
  {
  }

  /** The same for allowance reads. */
  lemma AllowanceReadSemantics(l: Ledger, owner: Address, spender: Address)
    ensures (owner, spender) !in l.allowances ==> AllowanceOf(l, owner, spender) == 0
    ensures Valid(l) ==>
      (AllowanceOf(l, owner, spender) == 0 <==> (owner, spender) !in l.allowances)
      && AllowanceOf(l, owner, spender) >= 0
  {
  }

  /** In a valid ledger no balance exceeds the total supply. */
  lemma {:induction false} BalanceBelowSupply(l: Ledger, a: Address)
    requires Valid(l)
    ensures 0 <= BalanceOf(l, a) <= TotalSupplyOf(l)
  {
    RecordBelowSum(l.balances, a);
  }

  /** In a valid ledger two distinct accounts together hold at most the total supply. */
  lemma {:induction false} TwoBalancesBelowSupply(l: Ledger, a: Address, b: Address)
    requires Valid(l)
    requires a != b
    ensures BalanceOf(l, a) + BalanceOf(l, b) <= TotalSupplyOf(l)
  {
    TwoRecordsBelowSum(l.balances, a, b);
  }

  /** In a valid ledger `total_supply` is the sum of the stored balances, hence never negative. */
  lemma {:induction false} SupplyIsSumOfBalances(l: Ledger)
    requires Valid(l)
    ensures TotalSupplyOf(l) == Sum(l.balances)
    ensures TotalSupplyOf(l) >= 0
  {
    SumNonNegative(l.balances);
  }

  /** The empty ledger is valid. */
  lemma EmptyValid()
    ensures Valid(Empty)
  {
  }
}
