# Mansour's Portal: the legacy-record state machine

This project models the on-chain program `mansour_portal`
(`programs/mansour-portal/src/lib.rs`). The program keeps one `LegacyState`
account per authority. The account sits at a program-derived address built
from the seed `"legacy"` and the authority's key. Six instruction handlers act
on it:

- `initialize_legacy` validates its nine arguments and creates the record.
- `update_visual_aura` is permissionless. It stores the aura for the current
  Cairo hour.
- `get_journey_narrative` only reads.
- `update_family_home` and `update_story_hash` are field writes gated on the
  stored authority.
- `transfer_authority` is gated the same way and refuses the zero key.

The model is functional. A `Store` is a `map<Address, LegacyState>`. Each
handler is a pure function returning `Result<Store, Failure>`. A `Failure`
is either one of the program's `LegacyError` codes or one of the account
constraint failures the runtime reports before a handler body runs:

- `AccountNotInitialized`: no record exists at the address.
- `ConstraintSeeds`: the address is not the one derived from the stored
  authority and bump.
- `AccountAlreadyInUse`: creation found a record already there.

The checks run in the same order as in the program:

1. the record exists;
2. the seeds constraint holds;
3. `has_one = authority`, failing with `Unauthorized`;
4. the handler's own `require!`s.

A failed instruction leaves the store unchanged. Instruction sequences
(`Ledger.Run`) carry the long-run guarantees:

- the write-once fields keep their creation values;
- `is_enshrined` stays true;
- every string stays within its bound, so the Borsh encoding fits in
  `SPACE` = 1116 bytes;
- with a clock that never runs backwards, `last_aura_update` never decreases.

Modelling choices:

- Strings are byte sequences (`seq<u8>`), since `String::len()` counts UTF-8
  bytes.
- The clock is a parameter `now`.
- `get_cairo_hour` uses Rust's truncating `%` and `/` and the `as u8` cast,
  all written out explicitly. For timestamps from 1969-12-31T22:00Z on, the
  hour is `((now + 7200) % 86400) / 3600`, in `[0, 24)`. Before that, the
  negative remainder wraps to 0 or to 233..255, and every such hour reads as
  `SilentGuardian`.
- The address derivation hash is abstracted into a constructor
  `ProgramAddress(seeds, bump)`, so `Derive` is injective by construction.
- The runtime's canonical bump search is a parameter `findBump` of type
  `BumpSearch`, shared by every instruction of a run. Creation succeeds only
  at `Derive(signer, findBump(signer))` and stores that bump
  (lib.rs:197, 357-358). So each signer has at most one record
  (`Ledger.SignerCreatesOnce`).

One consequence of the seeds constraint is proved in
`Ledger.TransferStrandsRecord`. Every non-creating handler re-derives the
address from the stored authority (lib.rs:372, 382, 392). So after
`transfer_authority` to a different key, the record no longer matches its
own address. From then on every handler call on it fails with
`ConstraintSeeds`, whoever signs, and the record never changes again. In
particular, the test suite's "transfer back" step (tests/mansour-portal.ts:340-347)
is rejected in this model.

Some details of the program that the model follows exactly:

- The story hash bound is 128 bytes and the dedication bound is 256 bytes
  (lib.rs:20-21).
- The age must be in 1..=120 (lib.rs:162).
- The origin, sanctuary and family-home fields all fail with
  `CityNameTooLong`, both at creation and in `update_family_home`
  (lib.rs:154-156, 293). The story hash fails with `HashTooLong`
  (lib.rs:157, 309).
- The `init` constraint runs before the handler body, so creation rejects an
  occupied address before any argument is validated (lib.rs:353-358).
- Creation stores the signer as authority without checking it (lib.rs:168).
  So `authority != zero` is proved only when every creating signer is
  non-zero.
- `creation_timestamp` is whatever the clock says; nothing checks its sign
  (lib.rs:181).

The web front end's `getCairoTime` (frontend/app/page.tsx:49-68) uses
half-open hour ranges. `Aura.AuraFollowsSchedule` shows that they agree with
`determine_aura` on every valid hour.

## Model

| member | source | states |
|---|---|---|
| `Numeric.TruncRem` | programs/mansour-portal/src/lib.rs:409 | Rust's `%`: the remainder is smaller in magnitude than the divisor and has the sign of the dividend |
| `Numeric.TruncDiv` | programs/mansour-portal/src/lib.rs:410 | Rust's `/`: quotient times divisor plus the truncating remainder gives back the dividend |
| `Numeric.AsU8` | programs/mansour-portal/src/lib.rs:411 | `as u8` yields the byte congruent to the value modulo 256, and is the identity on 0..255 |
| `Aura.CairoHour` | programs/mansour-portal/src/lib.rs:406-412 | for `now + 7200 >= 0` the hour is in [0, 24) and equals `((now + 7200) % 86400) / 3600`; for earlier times it is 0 or at least 233 |
| `Aura.DetermineAura` | programs/mansour-portal/src/lib.rs:416-423 | total; each aura is chosen exactly on its inclusive range: 5..=11 SereneDawn, 12..=16 GoldenRadiance, 17..=20 MysticalShadows, every other hour SilentGuardian |
| `Aura.AuraFollowsSchedule` | programs/mansour-portal/src/lib.rs:31-34 | the stored aura is the one whose half-open interval of the Cairo day (05:00-12:00, 12:00-17:00, 17:00-21:00, 21:00-05:00) contains the timestamp, and no other aura's interval does |
| `Aura.AuraIsDaily` | programs/mansour-portal/src/lib.rs:406-412 | from 1969-12-31T22:00Z on, the Cairo hour and the aura repeat every 86400 seconds |
| `Aura.EarlyTimestampsAreSilentGuardian` | programs/mansour-portal/src/lib.rs:406-423 | timestamps whose shifted value is negative always read as SilentGuardian |
| `Aura.AuraExamples` | programs/mansour-portal/src/lib.rs:416-423 | hour 8 gives SereneDawn, 14 GoldenRadiance, 19 MysticalShadows, 23 and 4 SilentGuardian |
| `Legacy.EncodedSize` | programs/mansour-portal/src/lib.rs:109-124 | a record whose strings are within bounds encodes in at most `SPACE` bytes, and exactly `SPACE` when every string is at its bound |
| `Legacy.SpaceIs1116` | programs/mansour-portal/src/lib.rs:109-124 | the reserved account size is 1116 bytes |
| `Accounts.DeriveIsInjective` | programs/mansour-portal/src/lib.rs:357 | two derived addresses are equal exactly when their authorities and bumps are |
| `Accounts.LoadSeeded` | programs/mansour-portal/src/lib.rs:368-386 | loading fails with `AccountNotInitialized` for a missing record and `ConstraintSeeds` for an address not derived from the stored authority and bump; otherwise it yields the stored record |
| `Accounts.LoadAuthorized` | programs/mansour-portal/src/lib.rs:388-399 | the same checks in the same order, then `Unauthorized` unless the signer is the stored authority |
| `Portal.FirstFailure` | programs/mansour-portal/src/lib.rs:152-162 | no error exactly when every check holds; otherwise the error of a failing check that only passing checks precede |
| `Portal.ValidateInit` | programs/mansour-portal/src/lib.rs:152-162 | validation passes exactly when all eight strings are within their bounds and the age is in 1..=120 |
| `Portal.InitErrorOrder` | programs/mansour-portal/src/lib.rs:152-162 | the reported error is that of the first oversized string in the order title, artist, origin, sanctuary, family home, story hash, dedication, status; `InvalidAge` is reported exactly when all strings fit and the age is outside 1..=120 |
| `Portal.InitializeLegacy` | programs/mansour-portal/src/lib.rs:139-204 | fails with `ConstraintSeeds` for any address but the one derived from the signer and the bump the runtime's search finds for it, `AccountAlreadyInUse` for an occupied one, then the validation error; succeeds exactly when none applies, and then adds only the new record, holding every argument verbatim, the signer as authority, the found bump, `is_enshrined`, both timestamps equal to `now` and the aura of `now` |
| `Portal.UpdateVisualAura` | programs/mansour-portal/src/lib.rs:221-240 | needs no signer; succeeds exactly on a record passing the seeds constraint, and then changes only that record's aura, set from `now`, and `last_aura_update`, set to `now` even when the aura is unchanged; the timestamp does not decrease when `now` is not earlier |
| `Portal.GetJourneyNarrative` | programs/mansour-portal/src/lib.rs:248-281 | succeeds exactly on a record passing the seeds constraint and yields that record unchanged |
| `Portal.UpdateFamilyHome` | programs/mansour-portal/src/lib.rs:289-301 | seeds error, then `Unauthorized` for a signer other than the authority, then `CityNameTooLong` over 128 bytes; on success only the family home of that record changes |
| `Portal.UpdateStoryHash` | programs/mansour-portal/src/lib.rs:305-317 | seeds error, then `Unauthorized`, then `HashTooLong` over 128 bytes; on success only the story hash of that record changes |
| `Portal.TransferAuthority` | programs/mansour-portal/src/lib.rs:325-344 | seeds error, then `Unauthorized`, then `InvalidAuthority` for the zero key; on success only the authority changes, and a transfer to oneself leaves the store as it was |
| `Ledger.ExecuteFreezes` | programs/mansour-portal/src/lib.rs:283-344 | no instruction removes a record or changes a write-once field |
| `Ledger.RunFreezes` | programs/mansour-portal/src/lib.rs:74-91 | after any instruction sequence every record is still present with its title, artist, age, origin, sanctuary, creation time, dedication, status, enshrinement flag and bump |
| `Ledger.CreationValuesPersist` | programs/mansour-portal/src/lib.rs:168-197 | a record created by `initialize_legacy` keeps its creation values, including the sanctuary and `is_enshrined == true`, through every later sequence |
| `Ledger.ExecutePreservesValid` | programs/mansour-portal/src/lib.rs:283-317 | each instruction keeps every record enshrined, its age in range and its strings within bounds |
| `Ledger.RunPreservesValid` | programs/mansour-portal/src/lib.rs:15-22 | the same across any instruction sequence, so every record's encoding stays within `SPACE` |
| `Ledger.FromEmptyStore` | programs/mansour-portal/src/lib.rs:106-125 | starting from no accounts, every stored record is well formed, enshrined and fits in `SPACE` |
| `Ledger.RunKeepsAuthorityNonZero` | programs/mansour-portal/src/lib.rs:325-332 | if every creating signer is non-zero, no record ever has the zero key as authority |
| `Ledger.ZeroSignerIsAccepted` | programs/mansour-portal/src/lib.rs:168 | creation does not refuse a zero-key signer: the record gets the zero key as authority |
| `Ledger.MismatchedRecordRejectsAll` | programs/mansour-portal/src/lib.rs:368-399 | a record whose address no longer matches its seeds rejects every instruction addressed to it |
| `Ledger.MismatchedRecordIsStuck` | programs/mansour-portal/src/lib.rs:388-395 | such a record never changes again under any instruction sequence |
| `Ledger.TransferStrandsRecord` | programs/mansour-portal/src/lib.rs:388-395 | after a transfer to a different key the seeds check fails for that address; the new key's transfer back, family-home update and the aura refresh fail with `ConstraintSeeds`, as do the old key's transfer, family-home and story-hash updates; the record is frozen with the new authority under every later sequence |
| `Ledger.RunKeepsTimesOrdered` | programs/mansour-portal/src/lib.rs:221-240 | with a clock that never runs backwards, `last_aura_update` never decreases and never falls below `creation_timestamp` |
| `Ledger.InitializeOnce` | programs/mansour-portal/src/lib.rs:353-358 | after a signer's creation succeeds, the same signer's second creation fails with `AccountAlreadyInUse` at the same address and `ConstraintSeeds` at any other, and leaves the store as it was |
| `Ledger.RunSplitAt` | programs/mansour-portal/src/lib.rs:139-344 | the store before instruction `j` of a run is the store after instruction `i` followed by the instructions in between |
| `Ledger.SignerCreatesOnce` | programs/mansour-portal/src/lib.rs:353-358 | in any run, once a signer's creation succeeds, every later creation by that signer fails with `ConstraintSeeds` or `AccountAlreadyInUse` and changes nothing |
| `Ledger.LongTitleRejected` | programs/mansour-portal/src/lib.rs:152 | a 100-byte title at the signer's free canonical address fails with `TitleTooLong` and stores nothing |
| `Ledger.AgeZeroRejected` | programs/mansour-portal/src/lib.rs:162 | age 0 with every string in bounds fails with `InvalidAge` |
| `Ledger.AuraRefreshIdempotent` | programs/mansour-portal/src/lib.rs:221-240 | two aura refreshes at the same time leave the same store as one |
| `Ledger.AuraCommutesWithFamilyHome` | programs/mansour-portal/src/lib.rs:221-301 | an aura refresh and a family-home update give the same store in either order |

## Left out

- Log output: the `msg!` text of every handler, including the narrative composed by `get_journey_narrative`, is output only; the narrative call is modelled as a successful read that changes nothing.
- Anchor machinery: the `#[program]`, `#[account]` and `declare_id!` macros, Borsh serialization itself (only its size is modelled), the account discriminator check, lamport payment, rent and the system program.
- The address derivation hash and the canonical bump search: derivation is an injective constructor, and the search is an arbitrary function `BumpSearch` from key to bump; that the search returns the highest bump giving an off-curve address is not modelled.
- UTF-8 validity of strings: strings are arbitrary byte sequences.
- Signature verification: a `signer` argument is a key that has signed.
- `Clock::get()`: replaced by the `now` argument; `Ledger.RunKeepsTimesOrdered` assumes a clock that never runs backwards.
- `Aura.CairoHour`: the i64 overflow of `now + 7200`, which is only possible within two hours of `i64::MAX`, is not modelled; the addition is exact, because the build profile's overflow setting is not part of this model.
- Daylight saving in Cairo: the program uses a fixed UTC+2 offset, and so does the model.
- `VisualAura::as_str` and `Default for VisualAura`: display strings and an unused default.
- frontend/app/page.tsx and frontend/app/layout.tsx: presentation code.
- scripts/test-devnet.ts, scripts/update-story-hash.ts and scripts/mint-nft.ts: RPC and wallet I/O, and minting through a library that is not part of this model.
- tests/mansour-portal.ts: an RPC integration test suite, used only as evidence for the lemmas above.
