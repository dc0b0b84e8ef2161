/** Credential snapshots: the freshness order and the local validity check of the
    three credential formats. */
module Formats {

  /** Nanoseconds since the Unix epoch. */
  type Time = int

  /** Go's zero `time.Time`: midnight, 1 January of year 1, UTC. A snapshot without a
      recorded expiry carries it. */
  const ZERO_TIME: Time := -62_135_596_800 * 1_000_000_000

  /** Five minutes: the refresh window of Codex and of google-auth-library. */
  const REFRESH_WINDOW: Time := 300 * 1_000_000_000

  newtype Byte = x: int | 0 <= x < 256
  type Bytes = seq<Byte>

  datatype Option<+T> = None | Some(value: T)

  datatype Format = Claude | Codex | Gemini

  /** `Unset` is the empty status string of a candidate that was never validated. */
  datatype Status = Unset | OK | Expired | Revoked | Unreachable | ParseError | ScopeWarn

  /** The fields that decoding extracts from a file. */
  datatype Times = Times(exp: Time, lastRefresh: Time)

  datatype Snapshot = Snapshot(times: Times, raw: Bytes)

  function CompareTimes(a: Time, b: Time): int {
    if a > b then 1 else if a < b then -1 else 0
  }

  /** -1 when `a` is older than `b`, 0 when equally fresh, 1 when newer. */
  function Compare(f: Format, a: Snapshot, b: Snapshot): int {
    match f
    case Claude => CompareTimes(a.times.exp, b.times.exp)
    case Gemini => CompareTimes(a.times.exp, b.times.exp)
    case Codex =>
      if a.times.exp > b.times.exp then 1
      else if a.times.exp < b.times.exp then -1
      else CompareTimes(a.times.lastRefresh, b.times.lastRefresh)
  }

  /** The local check (no live check) at clock reading `now`. */
  function Validate(f: Format, s: Snapshot, now: Time): Status {
    match f
    case Claude =>
      if s.times.exp == ZERO_TIME || !(now < s.times.exp) then Expired else OK
    case Codex =>
      if s.times.exp == ZERO_TIME then ScopeWarn
      else if !(now + REFRESH_WINDOW < s.times.exp) then Expired else OK
    case Gemini =>
      if s.times.exp == ZERO_TIME then Expired
      else if !(now + REFRESH_WINDOW < s.times.exp) then Expired else OK
  }

  /** How long before its expiry a format treats a snapshot as expired. */
  function Skew(f: Format): Time {
    if f == Claude then 0 else REFRESH_WINDOW
  }

  /** The statuses that let a candidate compete for truth. */
  predicate ViableStatus(s: Status) {
    s == OK || s == ScopeWarn || s == Unreachable
  }

  // ---------------------------------------------------------------- the order

  /** Expiry first; for Codex the last refresh second. */
  predicate Later(f: Format, a: Times, b: Times) {
    a.exp > b.exp || (f == Codex && a.exp == b.exp && a.lastRefresh > b.lastRefresh)
  }

  /** What a fold that keeps the greater of two snapshots needs in order to end with a
      maximum: a total preorder whose sign flips when the arguments are swapped. */
  ghost predicate TotalPreorder(f: Format) {
    && (forall a: Snapshot, b: Snapshot :: Compare(f, a, b) == -Compare(f, b, a))
    && (forall a: Snapshot, b: Snapshot, c: Snapshot ::
          Compare(f, a, b) >= 0 && Compare(f, b, c) >= 0 ==> Compare(f, a, c) >= 0)
    && (forall a: Snapshot, b: Snapshot, c: Snapshot ::
          Compare(f, a, b) > 0 && Compare(f, b, c) >= 0 ==> Compare(f, a, c) > 0)
  }

  /** The later expiry wins; between equal ones Codex alone looks further, at the last refresh. */
  lemma CompareIsTotalPreorder(f: Format)
    ensures TotalPreorder(f)
    ensures forall a: Snapshot, b: Snapshot :: -1 <= Compare(f, a, b) <= 1
    ensures forall a: Snapshot, b: Snapshot :: Compare(f, a, b) <= 0 <==> !Later(f, a.times, b.times)
  {
  }

  /** At one clock reading, everything at least as fresh as a valid snapshot is valid. */
  ghost predicate UpwardClosed(f: Format, now: Time) {
    forall a: Snapshot, b: Snapshot ::
      Validate(f, a, now) == OK && Compare(f, b, a) >= 0 ==> Validate(f, b, now) == OK
  }

  /** Validity is upward closed exactly when no instant lies strictly between the clock
      (plus the format's skew) and the zero time, which stands for "no expiry". Any clock
      that reads year 1 or later meets this. */
  lemma ValidityUpwardClosed(f: Format, now: Time)
    ensures UpwardClosed(f, now) <==> ZERO_TIME <= now + Skew(f) + 1
  {
    if now + Skew(f) + 1 < ZERO_TIME {
      var a := Snapshot(Times(now + Skew(f) + 1, 0), []);
      var b := Snapshot(Times(ZERO_TIME, 0), []);
      assert Validate(f, a, now) == OK && Compare(f, b, a) >= 0 && Validate(f, b, now) != OK;
    }
  }

  /** When some snapshot is valid, the freshest of the viable ones is valid itself (for
      Codex: never one with an unreadable expiry) and is the freshest of all of them. */
  lemma FreshestViableIsFreshest(f: Format, now: Time, all: set<Snapshot>, best: Snapshot, good: Snapshot)
    requires ZERO_TIME <= now + Skew(f) + 1
    requires best in all && ViableStatus(Validate(f, best, now))
    requires forall s <- all | ViableStatus(Validate(f, s, now)) :: Compare(f, s, best) <= 0
    requires good in all && Validate(f, good, now) == OK
    ensures Validate(f, best, now) == OK
    ensures forall s <- all :: Compare(f, s, best) <= 0
  {
    ValidityUpwardClosed(f, now);
    assert Compare(f, best, good) == -Compare(f, good, best);
    forall s <- all
      ensures Compare(f, s, best) <= 0
    {
      assert Compare(f, s, best) >= 0 ==> Validate(f, s, now) == OK;
    }
  }
}
