/** The contract's storage key space (`DataKey`), its split into the two storage tiers, the
    metadata record, and the values the keys hold. */
module Storage {

  import opened Int128

  /** A Soroban `Address`: opaque, only compared for equality. */
  type Address(==, !new)

  newtype byte = x: int | 0 <= x < 256

  /** A Soroban `String`, seen as the bytes whose count `len()` returns. */
  type Text = seq<byte>

  /** One constructor per key shape the contract reads or writes. */
  datatype DataKey =
    | Balance(account: Address)
    | Allowance(owner: Address, spender: Address)
    | TotalSupply
    | Admin
    | TokenName
    | TokenSymbol
    | Decimals
    | Initialized

  /** The two storage tiers: cheap instance storage for the contract's global settings, and
      persistent storage, with its own retention, for per-account data. */
  datatype Tier = Instance | Persistent

  /** The tier every key lives in. */
  function TierOf(k: DataKey): (t: Tier)
    ensures t == Persistent <==> k.Balance? || k.Allowance?
  {
    match k
    case Balance(_) => Persistent
    case Allowance(_, _) => Persistent
    case TotalSupply => Instance
    case Admin => Instance
    case TokenName => Instance
    case TokenSymbol => Instance
    case Decimals => Instance
    case Initialized => Instance
  }

  /** The metadata record the `init` event carries. */
  datatype TokenMetadata = TokenMetadata(name: Text, symbol: Text, decimals: U32)

  /** A value as stored under a key: an `i128`, an `Address`, a `String`, a `u32` or a `bool`. */
  datatype Value =
    | IntVal(i: I128)
    | AddrVal(addr: Address)
    | TextVal(text: Text)
    | U32Val(n: U32)
    | BoolVal(b: bool)

  /** Balance keys are per account: two accounts never share a key. */
  lemma BalanceKeyInjective(a: Address, b: Address)
    ensures Balance(a) == Balance(b) <==> a == b
  {
  }

  /** Allowance keys are ordered pairs: swapping owner and spender gives another key. */
  lemma AllowanceKeyOrdered(a: Address, b: Address)
    ensures a != b ==> Allowance(a, b) != Allowance(b, a)
  {
  }
}
