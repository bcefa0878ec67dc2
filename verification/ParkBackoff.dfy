/** How long a parked agent waits before its turn is tried again. */
module ParkBackoff {
  import opened Text

  const MAX_PARK_HINT_MS := 3600000.0
  const DEFAULT_INITIAL_MS := 5000.0
  const DEFAULT_MAX_MS := 300000.0

  /** A per-agent override; a field that is not a finite number is none. */
  datatype Override = Override(initialMs: Option<real>, maxMs: Option<real>)

  /** `clampParkHintMs` of a finite hint: positive and at most one hour, or ignored. */
  function ClampHint(hint: Option<real>): (r: Option<real>)
    ensures r.Some? <==> hint.Some? && 0.0 < hint.value <= MAX_PARK_HINT_MS
    ensures r.Some? ==> r == hint
  {
    if hint.None? || hint.value <= 0.0 || hint.value > MAX_PARK_HINT_MS then None else hint
  }

  function Usable(field: Option<real>, fallback: real): (r: real)
    requires fallback > 0.0
    ensures r > 0.0
  {
    if field.Some? && field.value > 0.0 then field.value else fallback
  }

  function InitialMs(override: Option<Override>): (r: real)
    ensures r > 0.0
  {
    Usable(if override.Some? then override.value.initialMs else None, DEFAULT_INITIAL_MS)
  }

  function MaxMs(override: Option<Override>): (r: real)
    ensures r > 0.0
  {
    Usable(if override.Some? then override.value.maxMs else None, DEFAULT_MAX_MS)
  }

  /** The longest a backoff can be. */
  function CapMs(override: Option<Override>): (r: real)
    ensures r >= InitialMs(override)
  {
    if MaxMs(override) > InitialMs(override) then MaxMs(override) else InitialMs(override)
  }

  function Pow2(n: nat): (r: real)
    ensures r >= 1.0
  {
    if n == 0 then 1.0 else 2.0 * Pow2(n - 1)
  }

  /** The doubled wait before the cap. */
  function Raw(attempt: int, override: Option<Override>): real {
    InitialMs(override) * Pow2(if attempt > 1 then attempt - 1 else 0)
  }

  /** `nextParkBackoffMs`. */
  function NextBackoff(attempt: int, override: Option<Override>): real {
    if Raw(attempt, override) < CapMs(override) then Raw(attempt, override) else CapMs(override)
  }

  lemma {:induction false} Pow2Grows(m: nat, n: nat)
    requires m <= n
    ensures Pow2(m) <= Pow2(n)
  {
    if m < n {
      Pow2Grows(m, n - 1);
    }
  }

  lemma ScaleGrows(a: real, x: real, y: real)
    requires a > 0.0 && x <= y
    ensures a * x <= a * y
  {
  }

  lemma RawGrows(attempt: int, later: int, override: Option<Override>)
    requires attempt <= later
    ensures InitialMs(override) <= Raw(attempt, override) <= Raw(later, override)
  {
    var m, n := if attempt > 1 then attempt - 1 else 0, if later > 1 then later - 1 else 0;
    Pow2Grows(m, n);
    ScaleGrows(InitialMs(override), 1.0, Pow2(m));
    ScaleGrows(InitialMs(override), Pow2(m), Pow2(n));
  }

  /**
   Every backoff is at least the initial wait and at most the cap, whatever the
   override holds, and a later attempt never waits less.
   */
  lemma {:induction false} BackoffBounds(attempt: int, later: int, override: Option<Override>)
    requires attempt <= later
    ensures 0.0 < InitialMs(override) <= NextBackoff(attempt, override) <= CapMs(override)
    ensures NextBackoff(attempt, override) <= NextBackoff(later, override)
  {
    RawGrows(attempt, later, override);
  }

  /** The first park waits the initial time, and each later one twice the one before, up to the cap. */
  lemma {:induction false} DoublesToCap(attempt: int, override: Option<Override>)
    ensures attempt <= 1 ==> NextBackoff(attempt, override) == InitialMs(override)
    ensures attempt >= 1 ==>
      var doubled := 2.0 * NextBackoff(attempt, override);
      NextBackoff(attempt + 1, override) == if doubled < CapMs(override) then doubled else CapMs(override)
  {
    if attempt >= 1 {
      assert Pow2(attempt) == 2.0 * Pow2(attempt - 1);
      assert Raw(attempt + 1, override) == 2.0 * Raw(attempt, override);
    }
  }

  /**
   The documented cap, `maxMs`, holds exactly when the initial wait does not
   already pass it, whichever attempt it is.
   */
  lemma {:induction false} CappedAtMaxMs(attempt: int, override: Option<Override>)
    ensures NextBackoff(attempt, override) <= MaxMs(override) <==> InitialMs(override) <= MaxMs(override)
  {
    BackoffBounds(attempt, attempt, override);
  }

  /** An override whose bounds are the wrong way round parks ten times longer than its `maxMs`. */
  lemma PassesMaxMs()
    ensures var override := Some(Override(Some(10000.0), Some(1000.0)));
      NextBackoff(1, override) == 10000.0 && MaxMs(override) == 1000.0
  {
    BackoffBounds(1, 1, Some(Override(Some(10000.0), Some(1000.0))));
  }
}
