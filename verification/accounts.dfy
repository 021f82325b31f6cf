/**
 * Account addressing and the account constraints the runtime checks before
 * a handler body runs: the record must exist at the address, the address
 * must be the one derived from the stored authority and bump, and for the
 * gated handlers the signer must be the stored authority.
 */
module Accounts {
  import opened Numeric
  import opened Results
  import opened Legacy

  /** The namespace seed "legacy". */
  const LEGACY_SEED: Bytes := [108, 101, 103, 97, 99, 121]

  /**
   * An account address: either one derived from seeds and a bump, or an
   * ordinary key. The derivation hash is abstracted into the constructor, so
   * two derivations agree exactly when their seeds and bumps do.
   */
  datatype Address =
    | ProgramAddress(seeds: seq<Bytes>, bump: u8)
    | Wallet(key: Pubkey)

  /** Program accounts holding a legacy record, by address. */
  type Store = map<Address, LegacyState>

  /** Why an instruction was rejected. */
  datatype Failure =
    | Program(code: LegacyError)
    /** No legacy record exists at the address passed in. */
    | AccountNotInitialized
    /** The address is not the one derived from the seeds and bump. */
    | ConstraintSeeds
    /** Creation found the derived address already holding a record. */
    | AccountAlreadyInUse

  /** The record address for an authority: seeds "legacy" and the key. */
  function Derive(authority: Pubkey, bump: u8): Address {
    ProgramAddress([LEGACY_SEED, authority], bump)
  }

  /**
   * The runtime's bump search (`find_program_address`): the canonical bump
   * for the seeds of an authority. The search hashes the seeds, so the
   * model takes it as a parameter rather than computing it.
   */
  type BumpSearch = Pubkey -> u8

  /** The one address at which `initialize_legacy` creates a signer's record. */
  function CanonicalAddress(findBump: BumpSearch, authority: Pubkey): Address {
    Derive(authority, findBump(authority))
  }

  /** Derivation never maps two authorities, or two bumps, to one address. */
  lemma DeriveIsInjective(a1: Pubkey, b1: u8, a2: Pubkey, b2: u8)
    ensures Derive(a1, b1) == Derive(a2, b2) <==> a1 == a2 && b1 == b2
  {
  }

  /** The seeds constraint: `addr` is derived from the record's own fields. */
  predicate SeedsMatch(addr: Address, r: LegacyState) {
    addr == Derive(r.authority, r.bump)
  }

  /** The account passes deserialization and the seeds constraint. */
  predicate Admitted(s: Store, addr: Address) {
    addr in s && SeedsMatch(addr, s[addr])
  }

  /** The record at `addr`, as the accounts of a non-creating handler load it. */
  function LoadSeeded(s: Store, addr: Address): (r: Result<LegacyState, Failure>)
    ensures addr !in s ==> r == Err(AccountNotInitialized)
    ensures addr in s && !SeedsMatch(addr, s[addr]) ==> r == Err(ConstraintSeeds)
    ensures r.Ok? <==> Admitted(s, addr)
    ensures r.Ok? ==> r.value == s[addr]
  {
    if addr !in s then Err(AccountNotInitialized)
    else if !SeedsMatch(addr, s[addr]) then Err(ConstraintSeeds)
    else Ok(s[addr])
  }

  /** The record at `addr`, loaded as above and then checked against `signer`. */
  function LoadAuthorized(s: Store, addr: Address, signer: Pubkey): (r: Result<LegacyState, Failure>)
    ensures addr !in s ==> r == Err(AccountNotInitialized)
    ensures addr in s && !SeedsMatch(addr, s[addr]) ==> r == Err(ConstraintSeeds)
    ensures Admitted(s, addr) && signer != s[addr].authority ==> r == Err(Program(Unauthorized))
    ensures r.Ok? <==> Admitted(s, addr) && signer == s[addr].authority
    ensures r.Ok? ==> r.value == s[addr]
  {
    var rec :- LoadSeeded(s, addr);
    if signer != rec.authority then Err(Program(Unauthorized)) else Ok(rec)
  }

  /** `after` has the same accounts as `before` and differs at most at `addr`. */
  predicate OnlyAt(before: Store, after: Store, addr: Address) {
    && after.Keys == before.Keys
    && forall a :: a in before && a != addr ==> after[a] == before[a]
  }
}
