/** The contract's error taxonomy (`TokenError`, a `#[repr(u32)]` enum) and its numeric codes. */
module Errors {

  import opened Wrappers
  import opened Int128

  /** The nine caller-visible errors, in declaration order. */
  datatype TokenError =
    | AlreadyInitialized
    | InvalidAmount
    | InsufficientBalance
    | InsufficientAllowance
    | NotInitialized
    | InvalidDecimals
    | OverflowError
    | InvalidRecipient
    | InvalidMetadata

  /** Code 0 is reserved for "no error". */
  const NoErrorCode: nat := 0

  /** The variants exactly as the enum declares them, top to bottom. */
  const Declared: seq<TokenError> := [
    AlreadyInitialized, InvalidAmount, InsufficientBalance, InsufficientAllowance,
    NotInitialized, InvalidDecimals, OverflowError, InvalidRecipient, InvalidMetadata
  ]

  /** The explicit discriminant the enum assigns to each error. */
  function Code(e: TokenError): (c: U32)
    ensures 1 <= c <= |Declared|
    ensures c != NoErrorCode
  {
    match e
    case AlreadyInitialized => 1
    case InvalidAmount => 2
    case InsufficientBalance => 3
    case InsufficientAllowance => 4
    case NotInitialized => 5
    case InvalidDecimals => 6
    case OverflowError => 7
    case InvalidRecipient => 8
    case InvalidMetadata => 9
  }

  /** The error a code stands for, if any: the inverse of `Code`. */
  function FromCode(c: U32): (r: Option<TokenError>)
    ensures r.Some? <==> 1 <= c <= |Declared|
    ensures r.Some? ==> Code(r.value) == c
  {
    if 1 <= c <= |Declared| then Some(Declared[c - 1]) else None
  }

  /** Every error sits in the declaration list at the position its code names. */
  lemma CodeIsDeclarationPosition(e: TokenError)
    ensures Declared[Code(e) - 1] == e
  {
  }

  /** No two errors share a code. */
  lemma CodeInjective(a: TokenError, b: TokenError)
    ensures Code(a) == Code(b) ==> a == b
  {
  }

  /** Decoding the code of an error gives that error back; the reserved code decodes to nothing. */
  lemma CodeRoundTrip(e: TokenError)
    ensures FromCode(Code(e)) == Some(e)
    ensures FromCode(NoErrorCode).None?
  {
  }

  /** The ordering `#[derive(PartialOrd, Ord)]` gives a field-less enum: `a < b` when `a` is
      declared before `b`. */
  ghost predicate DerivedLess(a: TokenError, b: TokenError) {
    exists i, j :: 0 <= i < j < |Declared| && Declared[i] == a && Declared[j] == b
  }

  /** The code of the variant at each declaration position. */
  lemma PositionCode(i: int)
    requires 0 <= i < |Declared|
    ensures Code(Declared[i]) == i + 1
  {
  }

  /** Declaration order and ascending code order coincide, so the derived ordering on errors
      agrees with the ordering of their numeric codes. */
  lemma {:induction false} DerivedOrderMatchesCodes(a: TokenError, b: TokenError)
    ensures DerivedLess(a, b) <==> Code(a) < Code(b)
  {
    if DerivedLess(a, b) {
      var i, j :| 0 <= i < j < |Declared| && Declared[i] == a && Declared[j] == b;
      PositionCode(i);
      PositionCode(j);
    }
    if Code(a) < Code(b) {
      CodeIsDeclarationPosition(a);
      CodeIsDeclarationPosition(b);
      assert 0 <= Code(a) - 1 < Code(b) - 1 < |Declared|;
    }
  }
}
