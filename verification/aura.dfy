/**
 * The time-derived visual aura: the Cairo hour of a Unix timestamp and the
 * four-bucket map from that hour to an aura.
 */
module Aura {
  import opened Numeric

  /** Cairo is taken as UTC+2, with no daylight-saving adjustment. */
  const CAIRO_UTC_OFFSET_SECONDS: int := 2 * 60 * 60
  const SECONDS_PER_DAY: int := 86400
  const SECONDS_PER_HOUR: int := 3600

  datatype VisualAura = SereneDawn | GoldenRadiance | MysticalShadows | SilentGuardian

  /**
   * The hour of day in Cairo, computed as the program does: add the offset,
   * take Rust's truncating remainder by a day, divide by an hour, cast to u8.
   * The Euclidean reading holds for every timestamp at or after
   * 1969-12-31T22:00Z; before that the truncating remainder is negative and
   * the cast wraps it to 0 or to 233..255.
   */
  function CairoHour(unixTimestamp: int): (hour: u8)
    ensures unixTimestamp + CAIRO_UTC_OFFSET_SECONDS >= 0 ==>
      && hour < 24
      && hour == ((unixTimestamp + CAIRO_UTC_OFFSET_SECONDS) % SECONDS_PER_DAY) / SECONDS_PER_HOUR
    ensures unixTimestamp + CAIRO_UTC_OFFSET_SECONDS < 0 ==> hour == 0 || 233 <= hour
  {
    var cairoTimestamp := unixTimestamp + CAIRO_UTC_OFFSET_SECONDS;
    var secondsInDay := TruncRem(cairoTimestamp, SECONDS_PER_DAY);
    AsU8(TruncDiv(secondsInDay, SECONDS_PER_HOUR))
  }

  /**
   * The bucket an hour falls in; the ranges are inclusive and every hour
   * outside the three daytime ranges, 21..255 and 0..4, is the night watch.
   */
  function DetermineAura(cairoHour: u8): (aura: VisualAura)
    ensures aura == SereneDawn <==> 5 <= cairoHour <= 11
    ensures aura == GoldenRadiance <==> 12 <= cairoHour <= 16
    ensures aura == MysticalShadows <==> 17 <= cairoHour <= 20
    ensures aura == SilentGuardian <==> cairoHour < 5 || 20 < cairoHour
  {
    if 5 <= cairoHour <= 11 then SereneDawn
    else if 12 <= cairoHour <= 16 then GoldenRadiance
    else if 17 <= cairoHour <= 20 then MysticalShadows
    else SilentGuardian
  }

  /** The aura the program stores for clock value `now`. */
  function AuraAt(now: int): VisualAura {
    DetermineAura(CairoHour(now))
  }

  /** Seconds since Cairo midnight, for timestamps where that is well defined. */
  function SecondsIntoCairoDay(now: int): (secs: int)
    requires now + CAIRO_UTC_OFFSET_SECONDS >= 0
    ensures 0 <= secs < SECONDS_PER_DAY
  {
    (now + CAIRO_UTC_OFFSET_SECONDS) % SECONDS_PER_DAY
  }

  /**
   * The daily schedule as half-open intervals of wall-clock time in Cairo,
   * the way the web front end writes it, with the night watch wrapping
   * around midnight.
   */
  ghost predicate InSchedule(secs: int, aura: VisualAura) {
    match aura
    case SereneDawn => 5 * SECONDS_PER_HOUR <= secs < 12 * SECONDS_PER_HOUR
    case GoldenRadiance => 12 * SECONDS_PER_HOUR <= secs < 17 * SECONDS_PER_HOUR
    case MysticalShadows => 17 * SECONDS_PER_HOUR <= secs < 21 * SECONDS_PER_HOUR
    case SilentGuardian =>
      (21 * SECONDS_PER_HOUR <= secs < SECONDS_PER_DAY) || (0 <= secs < 5 * SECONDS_PER_HOUR)
  }

  /**
   * For every timestamp from 1969-12-31T22:00Z on, the stored aura is the one
   * whose half-open interval of the Cairo day contains the timestamp, and no
   * other aura's interval does.
   */
  lemma AuraFollowsSchedule(now: int, aura: VisualAura)
    requires now + CAIRO_UTC_OFFSET_SECONDS >= 0
    ensures AuraAt(now) == aura <==> InSchedule(SecondsIntoCairoDay(now), aura)
  {
  }

  /** The aura depends only on the time of day: it repeats every 24 hours. */
  lemma AuraIsDaily(now: int)
    requires now + CAIRO_UTC_OFFSET_SECONDS >= 0
    ensures AuraAt(now + SECONDS_PER_DAY) == AuraAt(now)
    ensures CairoHour(now + SECONDS_PER_DAY) == CairoHour(now)
  {
  }

  /**
   * Timestamps before 1969-12-31T22:00Z, where the truncating remainder goes
   * negative, all read as the night watch.
   */
  lemma EarlyTimestampsAreSilentGuardian(now: int)
    requires now + CAIRO_UTC_OFFSET_SECONDS < 0
    ensures AuraAt(now) == SilentGuardian
  {
  }

  /** The bucket examples the program's comments give (lib.rs:31-34, 211-214). */
  lemma AuraExamples()
    ensures DetermineAura(8) == SereneDawn
    ensures DetermineAura(14) == GoldenRadiance
    ensures DetermineAura(19) == MysticalShadows
    ensures DetermineAura(23) == SilentGuardian
    ensures DetermineAura(4) == SilentGuardian
    ensures AuraAt(6 * SECONDS_PER_HOUR) == SereneDawn
    ensures AuraAt(21 * SECONDS_PER_HOUR + SECONDS_PER_DAY) == SilentGuardian
  {
  }
}
