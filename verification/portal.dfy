/**
 * The six instruction handlers of the program. Each takes the store of
 * program accounts, the account address the caller passed, the signing key
 * where the handler has one, and the clock value `now` where it reads the
 * clock, and returns the new store or the failure that aborts the
 * instruction. A failed instruction has no effect.
 */
module Portal {
  import opened Numeric
  import opened Results
  import opened Aura
  import opened Legacy
  import opened Accounts

  /** The caller-supplied fields of a new record. */
  datatype InitArgs = InitArgs(
    title: Bytes,
    artist: Bytes,
    artistAgeAtCreation: u8,
    originCity: Bytes,
    sanctuaryLocation: Bytes,
    currentFamilyHome: Bytes,
    storyHash: Bytes,
    dedication: Bytes,
    physicalStatus: Bytes
  )

  /** Creation arguments that pass every check of `initialize_legacy`. */
  predicate ArgsAccepted(args: InitArgs) {
    && |args.title| <= MAX_TITLE_LEN
    && |args.artist| <= MAX_NAME_LEN
    && |args.originCity| <= MAX_CITY_LEN
    && |args.sanctuaryLocation| <= MAX_CITY_LEN
    && |args.currentFamilyHome| <= MAX_CITY_LEN
    && |args.storyHash| <= MAX_HASH_LEN
    && |args.dedication| <= MAX_DEDICATION_LEN
    && |args.physicalStatus| <= MAX_STATUS_LEN
    && MIN_ARTIST_AGE <= args.artistAgeAtCreation <= MAX_ARTIST_AGE
  }

  /** One `require!`: a condition and the error reported when it is false. */
  datatype Check = Check(holds: bool, error: LegacyError)

  /** The error of the first check that fails, or `None` when all hold. */
  function FirstFailure(checks: seq<Check>): (r: Option<LegacyError>)
    ensures r.None? <==> forall i :: 0 <= i < |checks| ==> checks[i].holds
    ensures r.Some? ==>
      exists i :: 0 <= i < |checks| && !checks[i].holds && checks[i].error == r.value
        && forall j :: 0 <= j < i ==> checks[j].holds
    decreases |checks|
  {
    if |checks| == 0 then None
    else if !checks[0].holds then Some(checks[0].error)
    else FirstFailure(checks[1..])
  }

  /** The checks of `initialize_legacy`, in the order it makes them. */
  function InitChecks(args: InitArgs): seq<Check> {
    [ Check(|args.title| <= MAX_TITLE_LEN, TitleTooLong),
      Check(|args.artist| <= MAX_NAME_LEN, ArtistNameTooLong),
      Check(|args.originCity| <= MAX_CITY_LEN, CityNameTooLong),
      Check(|args.sanctuaryLocation| <= MAX_CITY_LEN, CityNameTooLong),
      Check(|args.currentFamilyHome| <= MAX_CITY_LEN, CityNameTooLong),
      Check(|args.storyHash| <= MAX_HASH_LEN, HashTooLong),
      Check(|args.dedication| <= MAX_DEDICATION_LEN, DedicationTooLong),
      Check(|args.physicalStatus| <= MAX_STATUS_LEN, StatusTooLong),
      Check(MIN_ARTIST_AGE <= args.artistAgeAtCreation <= MAX_ARTIST_AGE, InvalidAge) ]
  }

  /** What each of the nine checks of `initialize_legacy` tests. */
  lemma InitChecksMeaning(args: InitArgs)
    ensures |InitChecks(args)| == 9
    ensures InitChecks(args)[0].holds == (|args.title| <= MAX_TITLE_LEN)
    ensures InitChecks(args)[1].holds == (|args.artist| <= MAX_NAME_LEN)
    ensures InitChecks(args)[2].holds == (|args.originCity| <= MAX_CITY_LEN)
    ensures InitChecks(args)[3].holds == (|args.sanctuaryLocation| <= MAX_CITY_LEN)
    ensures InitChecks(args)[4].holds == (|args.currentFamilyHome| <= MAX_CITY_LEN)
    ensures InitChecks(args)[5].holds == (|args.storyHash| <= MAX_HASH_LEN)
    ensures InitChecks(args)[6].holds == (|args.dedication| <= MAX_DEDICATION_LEN)
    ensures InitChecks(args)[7].holds == (|args.physicalStatus| <= MAX_STATUS_LEN)
    ensures InitChecks(args)[8].holds == (MIN_ARTIST_AGE <= args.artistAgeAtCreation <= MAX_ARTIST_AGE)
  {
  }

  /**
   * Input validation of `initialize_legacy`: `None` exactly when the
   * arguments are acceptable; which error it reports otherwise is stated
   * by `InitErrorOrder`.
   */
  function ValidateInit(args: InitArgs): (r: Option<LegacyError>)
    ensures r.None? <==> ArgsAccepted(args)
  {
    InitChecksMeaning(args);
    FirstFailure(InitChecks(args))
  }

  /**
   * The error `initialize_legacy` reports is that of the first oversized
   * string in field order (title, artist, origin, sanctuary, family home,
   * story hash, dedication, status), and only when all strings fit is the
   * age range checked.
   */
  lemma InitErrorOrder(args: InitArgs)
    ensures |args.title| > MAX_TITLE_LEN ==> ValidateInit(args) == Some(TitleTooLong)
    ensures |args.title| <= MAX_TITLE_LEN && |args.artist| > MAX_NAME_LEN
      ==> ValidateInit(args) == Some(ArtistNameTooLong)
    ensures |args.title| <= MAX_TITLE_LEN && |args.artist| <= MAX_NAME_LEN
      && (|args.originCity| > MAX_CITY_LEN
          || |args.sanctuaryLocation| > MAX_CITY_LEN
          || |args.currentFamilyHome| > MAX_CITY_LEN)
      ==> ValidateInit(args) == Some(CityNameTooLong)
    ensures |args.title| <= MAX_TITLE_LEN && |args.artist| <= MAX_NAME_LEN
      && |args.originCity| <= MAX_CITY_LEN && |args.sanctuaryLocation| <= MAX_CITY_LEN
      && |args.currentFamilyHome| <= MAX_CITY_LEN && |args.storyHash| > MAX_HASH_LEN
      ==> ValidateInit(args) == Some(HashTooLong)
    ensures |args.title| <= MAX_TITLE_LEN && |args.artist| <= MAX_NAME_LEN
      && |args.originCity| <= MAX_CITY_LEN && |args.sanctuaryLocation| <= MAX_CITY_LEN
      && |args.currentFamilyHome| <= MAX_CITY_LEN && |args.storyHash| <= MAX_HASH_LEN
      && |args.dedication| > MAX_DEDICATION_LEN
      ==> ValidateInit(args) == Some(DedicationTooLong)
    ensures |args.title| <= MAX_TITLE_LEN && |args.artist| <= MAX_NAME_LEN
      && |args.originCity| <= MAX_CITY_LEN && |args.sanctuaryLocation| <= MAX_CITY_LEN
      && |args.currentFamilyHome| <= MAX_CITY_LEN && |args.storyHash| <= MAX_HASH_LEN
      && |args.dedication| <= MAX_DEDICATION_LEN && |args.physicalStatus| > MAX_STATUS_LEN
      ==> ValidateInit(args) == Some(StatusTooLong)
    ensures ValidateInit(args) == Some(InvalidAge) <==>
      && |args.title| <= MAX_TITLE_LEN && |args.artist| <= MAX_NAME_LEN
      && |args.originCity| <= MAX_CITY_LEN && |args.sanctuaryLocation| <= MAX_CITY_LEN
      && |args.currentFamilyHome| <= MAX_CITY_LEN && |args.storyHash| <= MAX_HASH_LEN
      && |args.dedication| <= MAX_DEDICATION_LEN && |args.physicalStatus| <= MAX_STATUS_LEN
      && !(MIN_ARTIST_AGE <= args.artistAgeAtCreation <= MAX_ARTIST_AGE)
  {
    InitChecksMeaning(args);
  }

  /**
   * The record `initialize_legacy` writes: the arguments verbatim, the signer
   * as authority, the clock as both timestamps, the aura of that moment.
   */
  predicate CreatedFrom(r: LegacyState, signer: Pubkey, bump: u8, args: InitArgs, now: i64) {
    && r.authority == signer
    && r.title == args.title
    && r.artist == args.artist
    && r.artistAgeAtCreation == args.artistAgeAtCreation
    && r.originCity == args.originCity
    && r.sanctuaryLocation == args.sanctuaryLocation
    && r.currentFamilyHome == args.currentFamilyHome
    && r.storyHash == args.storyHash
    && r.dedication == args.dedication
    && r.physicalStatus == args.physicalStatus
    && r.isEnshrined
    && r.creationTimestamp == now
    && r.lastAuraUpdate == now
    && r.currentAura == AuraAt(now)
    && r.bump == bump
  }

  /**
   * `initialize_legacy`. The `init` constraint runs first: the address
   * passed must be the one derived from the signer and the canonical bump
   * `findBump` yields for it, and it must not hold a record yet. Then the
   * arguments are validated, and the new record, with that bump, is stored
   * at that address.
   */
  function InitializeLegacy(s: Store, addr: Address, signer: Pubkey, findBump: BumpSearch,
                            args: InitArgs, now: i64)
    : (r: Result<Store, Failure>)
    ensures addr != CanonicalAddress(findBump, signer) ==> r == Err(ConstraintSeeds)
    ensures addr == CanonicalAddress(findBump, signer) && addr in s ==> r == Err(AccountAlreadyInUse)
    ensures addr == CanonicalAddress(findBump, signer) && addr !in s && ValidateInit(args).Some?
      ==> r == Err(Program(ValidateInit(args).value))
    ensures r.Ok? <==> addr == CanonicalAddress(findBump, signer) && addr !in s && ArgsAccepted(args)
    ensures r.Ok? ==>
      && r.value.Keys == s.Keys + {addr}
      && (forall a :: a in s ==> r.value[a] == s[a])
      && CreatedFrom(r.value[addr], signer, findBump(signer), args, now)
      && Valid(r.value[addr])
      && SeedsMatch(addr, r.value[addr])
  {
    var bump := findBump(signer);
    if addr != Derive(signer, bump) then Err(ConstraintSeeds)
    else if addr in s then Err(AccountAlreadyInUse)
    else match ValidateInit(args)
      case Some(e) => Err(Program(e))
      case None =>
        var rec := LegacyState(
          signer, args.title, args.artist, args.artistAgeAtCreation,
          args.originCity, args.sanctuaryLocation, args.currentFamilyHome,
          now, args.storyHash, args.dedication, true, args.physicalStatus,
          DetermineAura(CairoHour(now)), now, bump);
        Ok(s[addr := rec])
  }

  /**
   * `update_visual_aura`: permissionless, so no signer. Any record that
   * passes the seeds constraint gets the aura of `now` and `now` as its
   * last evaluation time, whether or not the aura changed.
   */
  function UpdateVisualAura(s: Store, addr: Address, now: i64): (r: Result<Store, Failure>)
    ensures addr !in s ==> r == Err(AccountNotInitialized)
    ensures addr in s && !SeedsMatch(addr, s[addr]) ==> r == Err(ConstraintSeeds)
    ensures r.Ok? <==> Admitted(s, addr)
    ensures r.Ok? ==>
      && OnlyAt(s, r.value, addr)
      && r.value[addr] == s[addr].(currentAura := AuraAt(now), lastAuraUpdate := now)
    ensures r.Ok? && now >= s[addr].lastAuraUpdate ==>
      r.value[addr].lastAuraUpdate >= s[addr].lastAuraUpdate
  {
    var rec :- LoadSeeded(s, addr);
    var cairoHour := CairoHour(now);
    var newAura := DetermineAura(cairoHour);
    Ok(s[addr := rec.(currentAura := newAura, lastAuraUpdate := now)])
  }

  /**
   * `get_journey_narrative`: read-only. It succeeds on any record that
   * passes the seeds constraint, yielding the record it narrates; the store
   * is left as it was.
   */
  function GetJourneyNarrative(s: Store, addr: Address): (r: Result<LegacyState, Failure>)
    ensures addr !in s ==> r == Err(AccountNotInitialized)
    ensures addr in s && !SeedsMatch(addr, s[addr]) ==> r == Err(ConstraintSeeds)
    ensures r.Ok? <==> Admitted(s, addr)
    ensures r.Ok? ==> r.value == s[addr]
  {
    LoadSeeded(s, addr)
  }

  /**
   * `update_family_home`: the accounts must pass the seeds and authority
   * constraints before the length check runs; only the family home changes.
   */
  function UpdateFamilyHome(s: Store, addr: Address, signer: Pubkey, newHome: Bytes)
    : (r: Result<Store, Failure>)
    ensures addr !in s ==> r == Err(AccountNotInitialized)
    ensures addr in s && !SeedsMatch(addr, s[addr]) ==> r == Err(ConstraintSeeds)
    ensures Admitted(s, addr) && signer != s[addr].authority ==> r == Err(Program(Unauthorized))
    ensures Admitted(s, addr) && signer == s[addr].authority && |newHome| > MAX_CITY_LEN
      ==> r == Err(Program(CityNameTooLong))
    ensures r.Ok? <==> Admitted(s, addr) && signer == s[addr].authority && |newHome| <= MAX_CITY_LEN
    ensures r.Ok? ==>
      && OnlyAt(s, r.value, addr)
      && r.value[addr] == s[addr].(currentFamilyHome := newHome)
  {
    var rec :- LoadAuthorized(s, addr, signer);
    if |newHome| > MAX_CITY_LEN then Err(Program(CityNameTooLong))
    else Ok(s[addr := rec.(currentFamilyHome := newHome)])
  }

  /**
   * `update_story_hash`: gated like `update_family_home`; only the story
   * hash changes.
   */
  function UpdateStoryHash(s: Store, addr: Address, signer: Pubkey, newHash: Bytes)
    : (r: Result<Store, Failure>)
    ensures addr !in s ==> r == Err(AccountNotInitialized)
    ensures addr in s && !SeedsMatch(addr, s[addr]) ==> r == Err(ConstraintSeeds)
    ensures Admitted(s, addr) && signer != s[addr].authority ==> r == Err(Program(Unauthorized))
    ensures Admitted(s, addr) && signer == s[addr].authority && |newHash| > MAX_HASH_LEN
      ==> r == Err(Program(HashTooLong))
    ensures r.Ok? <==> Admitted(s, addr) && signer == s[addr].authority && |newHash| <= MAX_HASH_LEN
    ensures r.Ok? ==>
      && OnlyAt(s, r.value, addr)
      && r.value[addr] == s[addr].(storyHash := newHash)
  {
    var rec :- LoadAuthorized(s, addr, signer);
    if |newHash| > MAX_HASH_LEN then Err(Program(HashTooLong))
    else Ok(s[addr := rec.(storyHash := newHash)])
  }

  /**
   * `transfer_authority`: gated like the field updates, then the zero key is
   * refused; only the authority changes, and handing it to oneself changes
   * nothing.
   */
  function TransferAuthority(s: Store, addr: Address, signer: Pubkey, newAuthority: Pubkey)
    : (r: Result<Store, Failure>)
    ensures addr !in s ==> r == Err(AccountNotInitialized)
    ensures addr in s && !SeedsMatch(addr, s[addr]) ==> r == Err(ConstraintSeeds)
    ensures Admitted(s, addr) && signer != s[addr].authority ==> r == Err(Program(Unauthorized))
    ensures Admitted(s, addr) && signer == s[addr].authority && newAuthority == ZERO_KEY
      ==> r == Err(Program(InvalidAuthority))
    ensures r.Ok? <==> Admitted(s, addr) && signer == s[addr].authority && newAuthority != ZERO_KEY
    ensures r.Ok? ==>
      && OnlyAt(s, r.value, addr)
      && r.value[addr] == s[addr].(authority := newAuthority)
    ensures r.Ok? && newAuthority == signer ==> r.value == s
  {
    var rec :- LoadAuthorized(s, addr, signer);
    if newAuthority == ZERO_KEY then Err(Program(InvalidAuthority))
    else Ok(s[addr := rec.(authority := newAuthority)])
  }
}
