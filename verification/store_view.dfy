/** The ledger record seen as the contract's key-value storage: which `DataKey` holds which
    value, and which keys each operation writes.

    `Lookup` is the storage read `get(key)`; `Encode` is the whole store a ledger state
    corresponds to and `Decode` reads a ledger state back out of a store. The two are inverse
    to each other, so properties proved of the record carry over to the store key by key.
 */
module StoreView {

  import opened Wrappers
  import opened Int128
  import opened Storage
  import opened LedgerState
  import opened Token

  /** `get(key)` against the store a ledger state corresponds to. */
  function Lookup(l: Ledger, k: DataKey): (r: Option<Value>)
    ensures r.Some? ==> Holds(k, r.value)
  {
    match k
    case Balance(a) => if a in l.balances then Some(IntVal(l.balances[a])) else None
    case Allowance(o, s) => if (o, s) in l.allowances then Some(IntVal(l.allowances[(o, s)])) else None
    case TotalSupply => if l.totalSupply.Some? then Some(IntVal(l.totalSupply.value)) else None
    case Admin => if l.admin.Some? then Some(AddrVal(l.admin.value)) else None
    case TokenName => if l.name.Some? then Some(TextVal(l.name.value)) else None
    case TokenSymbol => if l.symbol.Some? then Some(TextVal(l.symbol.value)) else None
    case Decimals => if l.decimals.Some? then Some(U32Val(l.decimals.value)) else None
    case Initialized => if l.initialized then Some(BoolVal(true)) else None
  }

  /** The shape of value the contract stores under each key. */
  predicate Holds(k: DataKey, v: Value) {
    match k
    case Balance(_) => v.IntVal?
    case Allowance(_, _) => v.IntVal?
    case TotalSupply => v.IntVal?
    case Admin => v.AddrVal?
    case TokenName => v.TextVal?
    case TokenSymbol => v.TextVal?
    case Decimals => v.U32Val?
    case Initialized => v == BoolVal(true)
  }

  /** A store whose every entry has the shape the contract writes under its key. */
  predicate WellFormed(m: map<DataKey, Value>) {
    forall k :: k in m ==> Holds(k, m[k])
  }

  /** The balance keys present in the store of a ledger state. */
  function BalanceKeys(l: Ledger): (ks: set<DataKey>)
    ensures forall k :: k in ks <==> k.Balance? && k.account in l.balances
  {
    set a | a in l.balances :: Balance(a)
  }

  /** The allowance keys present in the store of a ledger state. */
  function AllowanceKeys(l: Ledger): (ks: set<DataKey>)
    ensures forall k :: k in ks <==> k.Allowance? && (k.owner, k.spender) in l.allowances
  {
    assert forall k: DataKey :: k.Allowance? ==> k == Allowance((k.owner, k.spender).0, (k.owner, k.spender).1);
    set p | p in l.allowances :: Allowance(p.0, p.1)
  }

  /** The instance-tier keys present in the store of a ledger state. */
  function SingletonKeys(l: Ledger): (ks: set<DataKey>)
    ensures forall k :: k in ks <==> TierOf(k) == Instance && Lookup(l, k).Some?
  {
    (if l.totalSupply.Some? then {TotalSupply} else {})
    + (if l.admin.Some? then {Admin} else {})
    + (if l.name.Some? then {TokenName} else {})
    + (if l.symbol.Some? then {TokenSymbol} else {})
    + (if l.decimals.Some? then {Decimals} else {})
    + (if l.initialized then {Initialized} else {})
  }

  /** The keys present in the store of a ledger state. */
  function Keys(l: Ledger): (ks: set<DataKey>)
    ensures forall k :: k in ks <==> Lookup(l, k).Some?
  {
    BalanceKeys(l) + AllowanceKeys(l) + SingletonKeys(l)
  }

  /** The whole store a ledger state corresponds to. */
  function Encode(l: Ledger): (m: map<DataKey, Value>)
    ensures WellFormed(m)
    ensures forall k :: Lookup(l, k) == (if k in m then Some(m[k]) else None)
  {
    map k | k in Keys(l) :: Lookup(l, k).value
  }

  /** The accounts the store holds a balance record for. */
  function BalanceHolders(m: map<DataKey, Value>): (s: set<Address>)
    ensures forall a :: a in s <==> Balance(a) in m && m[Balance(a)].IntVal?
  {
    assert forall a :: Balance(a) in m ==> Balance(a).account == a;
    set k | k in m && k.Balance? && m[k].IntVal? :: k.account
  }

  /** The (owner, spender) pairs the store holds an allowance record for. */
  function AllowancePairs(m: map<DataKey, Value>): (s: set<(Address, Address)>)
    ensures forall p :: p in s <==> Allowance(p.0, p.1) in m && m[Allowance(p.0, p.1)].IntVal?
  {
    assert forall p: (Address, Address) :: Allowance(p.0, p.1) in m ==>
      (Allowance(p.0, p.1).owner, Allowance(p.0, p.1).spender) == p;
    set k | k in m && k.Allowance? && m[k].IntVal? :: (k.owner, k.spender)
  }

  /** The ledger state a store holds, ignoring entries of the wrong shape. */
  function Decode(m: map<DataKey, Value>): Ledger {
    Ledger(
      initialized := Initialized in m,
      admin := if Admin in m && m[Admin].AddrVal? then Some(m[Admin].addr) else None,
      name := if TokenName in m && m[TokenName].TextVal? then Some(m[TokenName].text) else None,
      symbol := if TokenSymbol in m && m[TokenSymbol].TextVal? then Some(m[TokenSymbol].text) else None,
      decimals := if Decimals in m && m[Decimals].U32Val? then Some(m[Decimals].n) else None,
      totalSupply := if TotalSupply in m && m[TotalSupply].IntVal? then Some(m[TotalSupply].i) else None,
      balances := map a | a in BalanceHolders(m) :: m[Balance(a)].i,
      allowances := map p | p in AllowancePairs(m) :: m[Allowance(p.0, p.1)].i)
  }

  /** The balance records survive a trip through the store. */
  lemma DecodeEncodeBalances(l: Ledger)
    ensures Decode(Encode(l)).balances == l.balances
  {
    var m := Encode(l);
    var d := Decode(m);
    forall a ensures (a in d.balances <==> a in l.balances) && (a in l.balances ==> d.balances[a] == l.balances[a]) {
      assert Lookup(l, Balance(a)) == (if Balance(a) in m then Some(m[Balance(a)]) else None);
    }
  }

  /** The allowance records survive a trip through the store. */
  lemma DecodeEncodeAllowances(l: Ledger)
    ensures Decode(Encode(l)).allowances == l.allowances
  {
    var m := Encode(l);
    var d := Decode(m);
    forall p: (Address, Address) ensures (p in d.allowances <==> p in l.allowances)
                                       && (p in l.allowances ==> d.allowances[p] == l.allowances[p]) {
      var k := Allowance(p.0, p.1);
      assert Lookup(l, k) == (if k in m then Some(m[k]) else None);
    }
  }

  /** Reading a ledger state back out of its store gives the same state. */
  lemma {:induction false} DecodeEncode(l: Ledger)
    ensures Decode(Encode(l)) == l
  {
    var m := Encode(l);
    DecodeEncodeBalances(l);
    DecodeEncodeAllowances(l);
    assert Lookup(l, TotalSupply) == (if TotalSupply in m then Some(m[TotalSupply]) else None);
    assert Lookup(l, Admin) == (if Admin in m then Some(m[Admin]) else None);
    assert Lookup(l, TokenName) == (if TokenName in m then Some(m[TokenName]) else None);
    assert Lookup(l, TokenSymbol) == (if TokenSymbol in m then Some(m[TokenSymbol]) else None);
    assert Lookup(l, Decimals) == (if Decimals in m then Some(m[Decimals]) else None);
    assert Lookup(l, Initialized) == (if Initialized in m then Some(m[Initialized]) else None);
  }

  /** Reading any key of the state decoded from a well-formed store gives the stored entry. */
  lemma LookupDecode(m: map<DataKey, Value>, k: DataKey)
    requires WellFormed(m)
    ensures Lookup(Decode(m), k) == (if k in m then Some(m[k]) else None)
  {
    if k in m {
      assert Holds(k, m[k]);
    }
  }

  /** A store holding only entries of the contract's shapes is the store of the state read out
      of it. */
  lemma {:induction false} EncodeDecode(m: map<DataKey, Value>)
    requires WellFormed(m)
    ensures Encode(Decode(m)) == m
  {
    var e := Encode(Decode(m));
    forall k ensures (k in e <==> k in m) && (k in m ==> e[k] == m[k]) {
      LookupDecode(m, k);
    }
  }

  /** Writing one account's balance record changes no other key. */
  lemma BalanceWriteIsolated(l: Ledger, a: Address, v: I128)
    ensures forall k :: k != Balance(a) ==>
      Lookup(l.(balances := Write(l.balances, a, v)), k) == Lookup(l, k)
  {
  }

  /** Writing one allowance record changes no other key, in particular not the allowance of the
      reversed pair. */
  lemma AllowanceWriteIsolated(l: Ledger, owner: Address, spender: Address, v: I128)
    ensures forall k :: k != Allowance(owner, spender) ==>
      Lookup(l.(allowances := Write(l.allowances, (owner, spender), v)), k) == Lookup(l, k)
  {
  }

  /** Writes to the persistent tier leave every instance-tier key alone, and the other way round. */
  lemma TiersIndependent(l: Ledger, l': Ledger)
    ensures l'.balances == l.balances && l'.allowances == l.allowances ==>
      forall k :: TierOf(k) == Persistent ==> Lookup(l', k) == Lookup(l, k)
    ensures SameSettings(l', l) && l'.totalSupply == l.totalSupply ==>
      forall k :: TierOf(k) == Instance ==> Lookup(l', k) == Lookup(l, k)
  {
  }

  /** The keys each successful operation writes: `initialize` only instance keys, `mint` and
      `burn` one balance and the supply, `transfer` two balances, `approve` one allowance, and
      `transfer_from` two balances and one allowance. */
  lemma Footprints(l: Ledger, auth: set<Address>, admin: Address, name: Text, symbol: Text, decimals: U32,
                   spender: Address, from: Address, to: Address, amount: I128)
    ensures Initialize(l, admin, name, symbol, decimals).Ok? ==>
      forall k :: TierOf(k) == Persistent ==>
        Lookup(Initialize(l, admin, name, symbol, decimals).next, k) == Lookup(l, k)
    ensures Mint(l, auth, to, amount).Ok? ==>
      forall k :: k != Balance(to) && k != TotalSupply ==>
        Lookup(Mint(l, auth, to, amount).next, k) == Lookup(l, k)
    ensures Burn(l, auth, from, amount).Ok? ==>
      forall k :: k != Balance(from) && k != TotalSupply ==>
        Lookup(Burn(l, auth, from, amount).next, k) == Lookup(l, k)
    ensures Transfer(l, auth, from, to, amount).Ok? ==>
      forall k :: k != Balance(from) && k != Balance(to) ==>
        Lookup(Transfer(l, auth, from, to, amount).next, k) == Lookup(l, k)
    ensures Approve(l, auth, from, spender, amount).Ok? ==>
      forall k :: k != Allowance(from, spender) ==>
        Lookup(Approve(l, auth, from, spender, amount).next, k) == Lookup(l, k)
    ensures TransferFrom(l, auth, spender, from, to, amount).Ok? ==>
      forall k :: k != Balance(from) && k != Balance(to) && k != Allowance(from, spender) ==>
        Lookup(TransferFrom(l, auth, spender, from, to, amount).next, k) == Lookup(l, k)
  {
  }

  /** The `init` event's metadata is what the store holds under the three metadata keys. */
  lemma InitEventMatchesStore(l: Ledger, admin: Address, name: Text, symbol: Text, decimals: U32)
    requires Initialize(l, admin, name, symbol, decimals).Ok?
    ensures Lookup(Initialize(l, admin, name, symbol, decimals).next, TokenName)
         == Some(TextVal(Initialize(l, admin, name, symbol, decimals).event.metadata.name))
    ensures Lookup(Initialize(l, admin, name, symbol, decimals).next, TokenSymbol)
         == Some(TextVal(Initialize(l, admin, name, symbol, decimals).event.metadata.symbol))
    ensures Lookup(Initialize(l, admin, name, symbol, decimals).next, Decimals)
         == Some(U32Val(Initialize(l, admin, name, symbol, decimals).event.metadata.decimals))
    ensures Lookup(Initialize(l, admin, name, symbol, decimals).next, Initialized) == Some(BoolVal(true))
  {
  }
}
