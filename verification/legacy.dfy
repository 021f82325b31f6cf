/**
 * The on-chain `LegacyState` record, its field bounds, its error codes and
 * the size of its serialized form.
 */
module Legacy {
  import opened Numeric
  import opened Aura

  const MAX_TITLE_LEN: nat := 64
  const MAX_NAME_LEN: nat := 64
  const MAX_CITY_LEN: nat := 128
  const MAX_HASH_LEN: nat := 128
  const MAX_DEDICATION_LEN: nat := 256
  const MAX_STATUS_LEN: nat := 128

  const MIN_ARTIST_AGE: nat := 1
  const MAX_ARTIST_AGE: nat := 120

  const PUBKEY_LEN: nat := 32

  /** A 32-byte account key. */
  type Pubkey = k: Bytes | |k| == PUBKEY_LEN witness ZERO_BYTES

  /** `Pubkey::default()`, the all-zero key. */
  const ZERO_KEY: Pubkey := ZERO_BYTES

  const ZERO_BYTES: Bytes :=
    [0, 0, 0, 0, 0, 0, 0, 0, 0, 0, 0, 0, 0, 0, 0, 0,
     0, 0, 0, 0, 0, 0, 0, 0, 0, 0, 0, 0, 0, 0, 0, 0]

  /** The program's own error codes, in declaration order. */
  datatype LegacyError =
    | Unauthorized
    | TitleTooLong
    | ArtistNameTooLong
    | CityNameTooLong
    | HashTooLong
    | DedicationTooLong
    | StatusTooLong
    | InvalidAge
    | InvalidAuthority

  datatype LegacyState = LegacyState(
    authority: Pubkey,
    title: Bytes,
    artist: Bytes,
    artistAgeAtCreation: u8,
    originCity: Bytes,
    sanctuaryLocation: Bytes,
    currentFamilyHome: Bytes,
    creationTimestamp: i64,
    storyHash: Bytes,
    dedication: Bytes,
    isEnshrined: bool,
    physicalStatus: Bytes,
    currentAura: VisualAura,
    lastAuraUpdate: i64,
    bump: u8
  )

  /** Borsh sizes of the scalar parts of the account. */
  const DISCRIMINATOR_LEN: nat := 8
  const STRING_PREFIX_LEN: nat := 4
  const U8_LEN: nat := 1
  const I64_LEN: nat := 8
  const BOOL_LEN: nat := 1
  const ENUM_TAG_LEN: nat := 1

  /** The account size reserved at creation, from the maximum field lengths. */
  const SPACE: nat :=
    DISCRIMINATOR_LEN
    + PUBKEY_LEN
    + STRING_PREFIX_LEN + MAX_TITLE_LEN
    + STRING_PREFIX_LEN + MAX_NAME_LEN
    + U8_LEN
    + STRING_PREFIX_LEN + MAX_CITY_LEN
    + STRING_PREFIX_LEN + MAX_CITY_LEN
    + STRING_PREFIX_LEN + MAX_CITY_LEN
    + I64_LEN
    + STRING_PREFIX_LEN + MAX_HASH_LEN
    + STRING_PREFIX_LEN + MAX_DEDICATION_LEN
    + BOOL_LEN
    + STRING_PREFIX_LEN + MAX_STATUS_LEN
    + ENUM_TAG_LEN
    + I64_LEN
    + U8_LEN

  /** Every string field is within its bound. */
  predicate WithinBounds(r: LegacyState) {
    && |r.title| <= MAX_TITLE_LEN
    && |r.artist| <= MAX_NAME_LEN
    && |r.originCity| <= MAX_CITY_LEN
    && |r.sanctuaryLocation| <= MAX_CITY_LEN
    && |r.currentFamilyHome| <= MAX_CITY_LEN
    && |r.storyHash| <= MAX_HASH_LEN
    && |r.dedication| <= MAX_DEDICATION_LEN
    && |r.physicalStatus| <= MAX_STATUS_LEN
  }

  /** Every string field is exactly at its bound. */
  predicate AtBounds(r: LegacyState) {
    && |r.title| == MAX_TITLE_LEN
    && |r.artist| == MAX_NAME_LEN
    && |r.originCity| == MAX_CITY_LEN
    && |r.sanctuaryLocation| == MAX_CITY_LEN
    && |r.currentFamilyHome| == MAX_CITY_LEN
    && |r.storyHash| == MAX_HASH_LEN
    && |r.dedication| == MAX_DEDICATION_LEN
    && |r.physicalStatus| == MAX_STATUS_LEN
  }

  /** What every stored record satisfies: the shape creation gives it. */
  predicate Valid(r: LegacyState) {
    && WithinBounds(r)
    && r.isEnshrined
    && MIN_ARTIST_AGE <= r.artistAgeAtCreation <= MAX_ARTIST_AGE
  }

  /**
   * Bytes the Borsh encoding of the record occupies, discriminator included.
   * A record within its bounds fits in the reserved `SPACE`, and fills it
   * exactly when every string is at its bound.
   */
  function EncodedSize(r: LegacyState): (n: nat)
    ensures WithinBounds(r) ==> n <= SPACE
    ensures WithinBounds(r) ==> (n == SPACE <==> AtBounds(r))
  {
    DISCRIMINATOR_LEN
    + PUBKEY_LEN
    + STRING_PREFIX_LEN + |r.title|
    + STRING_PREFIX_LEN + |r.artist|
    + U8_LEN
    + STRING_PREFIX_LEN + |r.originCity|
    + STRING_PREFIX_LEN + |r.sanctuaryLocation|
    + STRING_PREFIX_LEN + |r.currentFamilyHome|
    + I64_LEN
    + STRING_PREFIX_LEN + |r.storyHash|
    + STRING_PREFIX_LEN + |r.dedication|
    + BOOL_LEN
    + STRING_PREFIX_LEN + |r.physicalStatus|
    + ENUM_TAG_LEN
    + I64_LEN
    + U8_LEN
  }

  /** The reserved account size is 1116 bytes. */
  lemma SpaceIs1116()
    ensures SPACE == 1116
  {
  }

  /**
   * The write-once fields agree: no handler has a setter for any of them,
   * so they keep the values `initialize_legacy` gave them.
   */
  predicate Frozen(before: LegacyState, after: LegacyState) {
    && after.title == before.title
    && after.artist == before.artist
    && after.artistAgeAtCreation == before.artistAgeAtCreation
    && after.originCity == before.originCity
    && after.sanctuaryLocation == before.sanctuaryLocation
    && after.creationTimestamp == before.creationTimestamp
    && after.dedication == before.dedication
    && after.isEnshrined == before.isEnshrined
    && after.physicalStatus == before.physicalStatus
    && after.bump == before.bump
  }
}
