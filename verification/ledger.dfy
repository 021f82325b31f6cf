/**
 * Sequences of instructions against the store. Each instruction either
 * applies in full or, when its handler fails, leaves the store as it was.
 * The lemmas here are the program's long-run guarantees: which fields never
 * change, which bounds always hold, and what a transfer of authority does to
 * later calls.
 */
module Ledger {
  import opened Numeric
  import opened Results
  import opened Aura
  import opened Legacy
  import opened Accounts
  import opened Portal

  /** One call of one of the six handlers, with its accounts and arguments. */
  datatype Instruction =
    | Initialize(addr: Address, signer: Pubkey, args: InitArgs, now: i64)
    | RefreshAura(addr: Address, now: i64)
    | Narrate(addr: Address)
    | SetFamilyHome(addr: Address, signer: Pubkey, newHome: Bytes)
    | SetStoryHash(addr: Address, signer: Pubkey, newHash: Bytes)
    | Transfer(addr: Address, signer: Pubkey, newAuthority: Pubkey)

  /**
   * The handler an instruction calls, and its outcome. `findBump` is the
   * runtime's canonical bump search, the same for every instruction.
   */
  function Step(findBump: BumpSearch, s: Store, ix: Instruction): Result<Store, Failure> {
    match ix
    case Initialize(addr, signer, args, now) => InitializeLegacy(s, addr, signer, findBump, args, now)
    case RefreshAura(addr, now) => UpdateVisualAura(s, addr, now)
    case Narrate(addr) =>
      var _ :- GetJourneyNarrative(s, addr);
      Ok(s)
    case SetFamilyHome(addr, signer, newHome) => UpdateFamilyHome(s, addr, signer, newHome)
    case SetStoryHash(addr, signer, newHash) => UpdateStoryHash(s, addr, signer, newHash)
    case Transfer(addr, signer, newAuthority) => TransferAuthority(s, addr, signer, newAuthority)
  }

  /** The store after one instruction; a failed one is rolled back. */
  function Execute(findBump: BumpSearch, s: Store, ix: Instruction): Store {
    match Step(findBump, s, ix)
    case Ok(s') => s'
    case Err(_) => s
  }

  /** The store after a sequence of instructions, in order. */
  function Run(findBump: BumpSearch, s: Store, ixs: seq<Instruction>): Store
    decreases |ixs|
  {
    if |ixs| == 0 then s else Run(findBump, Execute(findBump, s, ixs[0]), ixs[1..])
  }

  /** Running two sequences one after the other is running their concatenation. */
  lemma {:induction false} RunConcat(findBump: BumpSearch, s: Store, first: seq<Instruction>, second: seq<Instruction>)
    ensures Run(findBump, s, first + second) == Run(findBump, Run(findBump, s, first), second)
    decreases |first|
  {
    if |first| > 0 {
      assert (first + second)[0] == first[0];
      assert (first + second)[1..] == first[1..] + second;
      RunConcat(findBump, Execute(findBump, s, first[0]), first[1..], second);
    } else {
      assert first + second == second;
    }
  }

  // ---------------------------------------------------------------------------
  // Write-once fields
  // ---------------------------------------------------------------------------

  /** Every record of `before` is still in `after` with its write-once fields. */
  predicate FrozenIn(before: Store, after: Store) {
    forall a :: a in before ==> a in after && Frozen(before[a], after[a])
  }

  /** No instruction removes a record or touches a write-once field. */
  lemma ExecuteFreezes(findBump: BumpSearch, s: Store, ix: Instruction)
    ensures FrozenIn(s, Execute(findBump, s, ix))
  {
  }

  /**
   * Across any sequence of instructions, every existing record keeps its
   * title, artist, age, origin, sanctuary, creation time, dedication, status,
   * enshrinement flag and bump.
   */
  lemma {:induction false} RunFreezes(findBump: BumpSearch, s: Store, ixs: seq<Instruction>)
    ensures FrozenIn(s, Run(findBump, s, ixs))
    decreases |ixs|
  {
    if |ixs| > 0 {
      var s1 := Execute(findBump, s, ixs[0]);
      ExecuteFreezes(findBump, s, ixs[0]);
      RunFreezes(findBump, s1, ixs[1..]);
    }
  }

  /**
   * A record created by `initialize_legacy` keeps its creation values,
   * including the sanctuary and `is_enshrined == true`, through every later
   * sequence of instructions.
   */
  lemma CreationValuesPersist(findBump: BumpSearch, s: Store, addr: Address, signer: Pubkey, args: InitArgs,
                              now: i64, later: seq<Instruction>)
    requires InitializeLegacy(s, addr, signer, findBump, args, now).Ok?
    ensures var final := Run(findBump, Execute(findBump, s, Initialize(addr, signer, args, now)), later);
      && addr in final
      && final[addr].title == args.title
      && final[addr].artist == args.artist
      && final[addr].artistAgeAtCreation == args.artistAgeAtCreation
      && final[addr].originCity == args.originCity
      && final[addr].sanctuaryLocation == args.sanctuaryLocation
      && final[addr].dedication == args.dedication
      && final[addr].physicalStatus == args.physicalStatus
      && final[addr].creationTimestamp == now
      && final[addr].isEnshrined
  {
    var s1 := Execute(findBump, s, Initialize(addr, signer, args, now));
    RunFreezes(findBump, s1, later);
  }

  // ---------------------------------------------------------------------------
  // Bounds
  // ---------------------------------------------------------------------------

  /** Every stored record has the shape creation gives it. */
  predicate StoreValid(s: Store) {
    forall a :: a in s ==> Valid(s[a])
  }

  lemma ExecutePreservesValid(findBump: BumpSearch, s: Store, ix: Instruction)
    requires StoreValid(s)
    ensures StoreValid(Execute(findBump, s, ix))
  {
  }

  /**
   * From a store of well-formed records, every sequence of instructions keeps
   * every record enshrined, its age in range and every string within bound,
   * so its encoding fits in the `SPACE` reserved for it.
   */
  lemma {:induction false} RunPreservesValid(findBump: BumpSearch, s: Store, ixs: seq<Instruction>)
    requires StoreValid(s)
    ensures StoreValid(Run(findBump, s, ixs))
    ensures forall a :: a in Run(findBump, s, ixs) ==> EncodedSize(Run(findBump, s, ixs)[a]) <= SPACE
    decreases |ixs|
  {
    if |ixs| > 0 {
      ExecutePreservesValid(findBump, s, ixs[0]);
      RunPreservesValid(findBump, Execute(findBump, s, ixs[0]), ixs[1..]);
    }
  }

  /** Starting from no accounts, every record ever stored is well formed. */
  lemma FromEmptyStore(findBump: BumpSearch, ixs: seq<Instruction>)
    ensures StoreValid(Run(findBump, map[], ixs))
    ensures forall a :: a in Run(findBump, map[], ixs) ==> Run(findBump, map[], ixs)[a].isEnshrined
    ensures forall a :: a in Run(findBump, map[], ixs) ==> EncodedSize(Run(findBump, map[], ixs)[a]) <= SPACE
  {
    RunPreservesValid(findBump, map[], ixs);
  }

  // ---------------------------------------------------------------------------
  // Authorities
  // ---------------------------------------------------------------------------

  /** No record has the zero key as its authority. */
  predicate NoZeroAuthority(s: Store) {
    forall a :: a in s ==> s[a].authority != ZERO_KEY
  }

  /** Every creation in the sequence is signed by a non-zero key. */
  predicate SignersNonZero(ixs: seq<Instruction>) {
    forall i :: 0 <= i < |ixs| && ixs[i].Initialize? ==> ixs[i].signer != ZERO_KEY
  }

  /**
   * Creation does not check the signer, but a transfer refuses the zero key:
   * so if every creating signer is non-zero, no record ever has the zero key
   * as authority.
   */
  lemma {:induction false} RunKeepsAuthorityNonZero(findBump: BumpSearch, s: Store, ixs: seq<Instruction>)
    requires NoZeroAuthority(s)
    requires SignersNonZero(ixs)
    ensures NoZeroAuthority(Run(findBump, s, ixs))
    decreases |ixs|
  {
    if |ixs| > 0 {
      var s1 := Execute(findBump, s, ixs[0]);
      assert NoZeroAuthority(s1);
      assert SignersNonZero(ixs[1..]) by {
        forall i | 0 <= i < |ixs[1..]| && ixs[1..][i].Initialize?
          ensures ixs[1..][i].signer != ZERO_KEY
        {
          assert ixs[1..][i] == ixs[i + 1];
        }
      }
      RunKeepsAuthorityNonZero(findBump, s1, ixs[1..]);
    }
  }

  /** A zero-key signer can create a record whose authority is the zero key. */
  lemma ZeroSignerIsAccepted(findBump: BumpSearch, s: Store, args: InitArgs, now: i64)
    requires CanonicalAddress(findBump, ZERO_KEY) !in s
    requires ArgsAccepted(args)
    ensures var addr := CanonicalAddress(findBump, ZERO_KEY);
      var r := InitializeLegacy(s, addr, ZERO_KEY, findBump, args, now);
      r.Ok? && r.value[addr].authority == ZERO_KEY
  {
  }

  // ---------------------------------------------------------------------------
  // Seeds after a transfer
  // ---------------------------------------------------------------------------

  /**
   * A record whose address is no longer derived from its stored authority
   * rejects every instruction addressed to it: the non-creating handlers
   * fail their seeds constraint, and creation finds the address in use.
   */
  lemma MismatchedRecordRejectsAll(findBump: BumpSearch, s: Store, ix: Instruction)
    requires ix.addr in s && !SeedsMatch(ix.addr, s[ix.addr])
    ensures ix.Initialize? ==> Step(findBump, s, ix) == Err(ConstraintSeeds) || Step(findBump, s, ix) == Err(AccountAlreadyInUse)
    ensures !ix.Initialize? ==> Step(findBump, s, ix) == Err(ConstraintSeeds)
  {
  }

  /**
   * Such a record never changes again, whatever sequence of instructions
   * follows, and stays out of step with its address.
   */
  lemma {:induction false} MismatchedRecordIsStuck(findBump: BumpSearch, s: Store, addr: Address, ixs: seq<Instruction>)
    requires addr in s && !SeedsMatch(addr, s[addr])
    ensures addr in Run(findBump, s, ixs) && Run(findBump, s, ixs)[addr] == s[addr]
    decreases |ixs|
  {
    if |ixs| > 0 {
      var s1 := Execute(findBump, s, ixs[0]);
      assert addr in s1 && s1[addr] == s[addr];
      MismatchedRecordIsStuck(findBump, s1, addr, ixs[1..]);
    }
  }

  /**
   * The seeds of every non-creating handler are built from the stored
   * authority, so once a record at its derived address is handed to a
   * different key, its address no longer matches its seeds, and the record
   * is frozen for good: every later call to any handler on it fails,
   * including the new authority's and the old one's.
   */
  lemma TransferStrandsRecord(findBump: BumpSearch, s: Store, addr: Address, signer: Pubkey, newAuthority: Pubkey,
                              later: seq<Instruction>)
    requires TransferAuthority(s, addr, signer, newAuthority).Ok?
    requires newAuthority != signer
    ensures var s1 := Execute(findBump, s, Transfer(addr, signer, newAuthority));
      && !SeedsMatch(addr, s1[addr])
      && addr in Run(findBump, s1, later) && Run(findBump, s1, later)[addr] == s1[addr]
      && Run(findBump, s1, later)[addr].authority == newAuthority
    ensures var s1 := Execute(findBump, s, Transfer(addr, signer, newAuthority));
      && TransferAuthority(s1, addr, newAuthority, signer) == Err(ConstraintSeeds)
      && UpdateFamilyHome(s1, addr, newAuthority, s[addr].currentFamilyHome) == Err(ConstraintSeeds)
      && UpdateVisualAura(s1, addr, s[addr].lastAuraUpdate) == Err(ConstraintSeeds)
    ensures var s1 := Execute(findBump, s, Transfer(addr, signer, newAuthority));
      && TransferAuthority(s1, addr, signer, signer) == Err(ConstraintSeeds)
      && UpdateFamilyHome(s1, addr, signer, s[addr].currentFamilyHome) == Err(ConstraintSeeds)
      && UpdateStoryHash(s1, addr, signer, s[addr].storyHash) == Err(ConstraintSeeds)
  {
    var s1 := Execute(findBump, s, Transfer(addr, signer, newAuthority));
    DeriveIsInjective(signer, s[addr].bump, newAuthority, s[addr].bump);
    assert !SeedsMatch(addr, s1[addr]);
    MismatchedRecordIsStuck(findBump, s1, addr, later);
  }

  // ---------------------------------------------------------------------------
  // Timestamps
  // ---------------------------------------------------------------------------

  /**
   * Each record was created no later than its last aura evaluation, and
   * that evaluation happened no later than `clock`.
   */
  predicate TimesOrdered(s: Store, clock: int) {
    forall a :: a in s ==> s[a].creationTimestamp <= s[a].lastAuraUpdate <= clock
  }

  /** Whether the instruction reads the clock. */
  predicate ReadsClock(ix: Instruction) {
    ix.Initialize? || ix.RefreshAura?
  }

  /** The latest clock value seen after the instruction. */
  function ClockAfter(clock: int, ix: Instruction): int {
    if ReadsClock(ix) then ix.now else clock
  }

  /** The clock values the instructions read never go backwards from `clock`. */
  predicate ClockMonotone(ixs: seq<Instruction>, clock: int)
    decreases |ixs|
  {
    |ixs| == 0 || ((ReadsClock(ixs[0]) ==> ixs[0].now >= clock) && ClockMonotone(ixs[1..], ClockAfter(clock, ixs[0])))
  }

  /**
   * With a clock that never goes backwards, `last_aura_update` never
   * decreases and never falls below `creation_timestamp`.
   */
  lemma {:induction false} RunKeepsTimesOrdered(findBump: BumpSearch, s: Store, clock: int, ixs: seq<Instruction>)
    requires TimesOrdered(s, clock)
    requires ClockMonotone(ixs, clock)
    ensures forall a :: a in Run(findBump, s, ixs) ==> Run(findBump, s, ixs)[a].creationTimestamp <= Run(findBump, s, ixs)[a].lastAuraUpdate
    ensures forall a :: a in s ==> a in Run(findBump, s, ixs) && s[a].lastAuraUpdate <= Run(findBump, s, ixs)[a].lastAuraUpdate
    decreases |ixs|
  {
    RunFreezes(findBump, s, ixs);
    if |ixs| > 0 {
      var s1 := Execute(findBump, s, ixs[0]);
      var c1 := ClockAfter(clock, ixs[0]);
      assert TimesOrdered(s1, c1);
      RunKeepsTimesOrdered(findBump, s1, c1, ixs[1..]);
    }
  }

  // ---------------------------------------------------------------------------
  // Creation
  // ---------------------------------------------------------------------------

  /**
   * Creation happens once per signer: after a signer's `initialize_legacy`
   * succeeds, a second one by the same signer fails at every address, at
   * the canonical one because it is in use, and the store stays as it was.
   */
  lemma InitializeOnce(findBump: BumpSearch, s: Store, addr: Address, signer: Pubkey, args: InitArgs,
                       now: i64, addr2: Address, args2: InitArgs, now2: i64)
    requires InitializeLegacy(s, addr, signer, findBump, args, now).Ok?
    ensures var s1 := Execute(findBump, s, Initialize(addr, signer, args, now));
      var r := InitializeLegacy(s1, addr2, signer, findBump, args2, now2);
      && (addr2 == addr ==> r == Err(AccountAlreadyInUse))
      && (addr2 != addr ==> r == Err(ConstraintSeeds))
      && Execute(findBump, s1, Initialize(addr2, signer, args2, now2)) == s1
  {
  }

  /** The store before instruction `j` is the one after instruction `i` followed by those in between. */
  lemma RunSplitAt(findBump: BumpSearch, s: Store, ixs: seq<Instruction>, i: nat, j: nat)
    requires i < j <= |ixs|
    ensures Run(findBump, s, ixs[..j])
         == Run(findBump, Execute(findBump, Run(findBump, s, ixs[..i]), ixs[i]), ixs[i + 1..j])
  {
    assert ixs[..j] == ixs[..i] + ixs[i..j];
    RunConcat(findBump, s, ixs[..i], ixs[i..j]);
    assert ixs[i..j][0] == ixs[i];
    assert ixs[i..j][1..] == ixs[i + 1..j];
  }

  /**
   * In any sequence of instructions, once a signer's creation succeeds,
   * every later creation by the same signer fails, whatever its address and
   * arguments, and leaves the store unchanged.
   */
  lemma SignerCreatesOnce(findBump: BumpSearch, s: Store, ixs: seq<Instruction>, i: nat, j: nat)
    requires i < j < |ixs|
    requires ixs[i].Initialize? && ixs[j].Initialize? && ixs[i].signer == ixs[j].signer
    requires Step(findBump, Run(findBump, s, ixs[..i]), ixs[i]).Ok?
    ensures Step(findBump, Run(findBump, s, ixs[..j]), ixs[j]) == Err(ConstraintSeeds)
         || Step(findBump, Run(findBump, s, ixs[..j]), ixs[j]) == Err(AccountAlreadyInUse)
    ensures Execute(findBump, Run(findBump, s, ixs[..j]), ixs[j]) == Run(findBump, s, ixs[..j])
  {
    var canonical := CanonicalAddress(findBump, ixs[i].signer);
    var created := Execute(findBump, Run(findBump, s, ixs[..i]), ixs[i]);
    assert canonical in created;
    RunSplitAt(findBump, s, ixs, i, j);
    RunFreezes(findBump, created, ixs[i + 1..j]);
    assert canonical in Run(findBump, s, ixs[..j]);
  }

  /** A 100-byte title is refused with `TitleTooLong`, and nothing is stored. */
  lemma LongTitleRejected(findBump: BumpSearch, s: Store, signer: Pubkey, args: InitArgs, now: i64)
    requires CanonicalAddress(findBump, signer) !in s
    requires |args.title| == 100
    ensures var addr := CanonicalAddress(findBump, signer);
      && InitializeLegacy(s, addr, signer, findBump, args, now) == Err(Program(TitleTooLong))
      && Execute(findBump, s, Initialize(addr, signer, args, now)) == s
  {
  }

  /** Age 0 with every string in bounds is refused with `InvalidAge`. */
  lemma AgeZeroRejected(findBump: BumpSearch, s: Store, signer: Pubkey, args: InitArgs, now: i64)
    requires CanonicalAddress(findBump, signer) !in s
    requires args.artistAgeAtCreation == 0
    requires ArgsAccepted(args.(artistAgeAtCreation := 10))
    ensures InitializeLegacy(s, CanonicalAddress(findBump, signer), signer, findBump, args, now)
         == Err(Program(InvalidAge))
  {
  }

  // ---------------------------------------------------------------------------
  // The aura
  // ---------------------------------------------------------------------------

  /** Refreshing the aura twice at the same time is the same as once. */
  lemma AuraRefreshIdempotent(findBump: BumpSearch, s: Store, addr: Address, now: i64)
    ensures var ix := RefreshAura(addr, now);
      Execute(findBump, Execute(findBump, s, ix), ix) == Execute(findBump, s, ix)
  {
  }

  /**
   * The aura refresh and the family-home update touch different fields, so
   * their order does not matter.
   */
  lemma AuraCommutesWithFamilyHome(findBump: BumpSearch, s: Store, addr1: Address, now: i64, addr2: Address, signer: Pubkey,
                                   newHome: Bytes)
    ensures var aura := RefreshAura(addr1, now);
      var home := SetFamilyHome(addr2, signer, newHome);
      Execute(findBump, Execute(findBump, s, aura), home) == Execute(findBump, Execute(findBump, s, home), aura)
  {
  }
}
