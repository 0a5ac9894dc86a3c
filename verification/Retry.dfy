/** Retrying and polling with exponential backoff (internal/retry/retry.go). Durations are
    64-bit signed nanoseconds. */
module Retry {
  import opened Wrappers

  const LIMIT := 0x8000_0000_0000_0000

  const MILLISECOND := 1_000_000

  /** int64 arithmetic. */
  function Wrap(x: int): int {
    (x + LIMIT) % (2 * LIMIT) - LIMIT
  }

  datatype Config = Config(maxAttempts: int, interval: int, maxInterval: int)

  /* ---- The backoff interval ---- */

  /** At most n doublings, stopping at the ceiling. */
  function Doubled(interval: int, ceiling: int, n: nat): int
    decreases n
  {
    if n == 0 then interval
    else
      var d := Wrap(interval * 2);
      if d >= ceiling then d else Doubled(d, ceiling, n - 1)
  }

  /** The wait after an attempt, before jitter, for a ceiling above the interval. */
  function Base(interval: int, ceiling: int, attempt: int): int {
    var d := Doubled(interval, ceiling, if attempt > 1 then attempt - 1 else 0);
    if d > ceiling then ceiling else d
  }

  function Min(a: int, b: int): int {
    if a < b then a else b
  }

  /** The closed form: interval * 2^n, up to the ceiling. */
  function Pow2(n: nat): int {
    if n == 0 then 1 else 2 * Pow2(n - 1)
  }

  function Closed(interval: int, ceiling: int, attempt: nat): int
    requires attempt >= 1
  {
    Min(interval * Pow2(attempt - 1), ceiling)
  }

  /** Go's division truncates toward zero. */
  function Quotient(a: int, b: int): int
    requires b > 0
  {
    if a >= 0 then a / b else -((-a) / b)
  }

  function Backs(cfg: Config): bool {
    0 < cfg.interval < cfg.maxInterval
  }

  /** The largest random draw for an attempt; none is drawn when it is not positive. */
  function Spread(cfg: Config, attempt: int): int {
    Quotient(Base(cfg.interval, cfg.maxInterval, attempt), 5)
  }

  function Backoff(cfg: Config, attempt: int, draw: int): int {
    if cfg.interval <= 0 then MILLISECOND
    else if !Backs(cfg) then cfg.interval
    else
      var base := Base(cfg.interval, cfg.maxInterval, attempt);
      var spread := Spread(cfg, attempt);
      var d := if spread > 0 then Wrap(base + Wrap(draw - spread / 2)) else base;
      if d <= 0 then MILLISECOND else d
  }

  method BackoffInterval(cfg: Config, attempt: int, draw: int) returns (d: int)
    ensures d == Backoff(cfg, attempt, draw)
  {
    var interval := cfg.interval;
    if interval <= 0 {
      return MILLISECOND;
    }
    if cfg.maxInterval > interval {
      var i := 1;
      ghost var n := if attempt > 1 then attempt - 1 else 0;
      while i < attempt
        invariant 1 <= i && (i <= attempt || i == 1)
        invariant Doubled(cfg.interval, cfg.maxInterval, n)
               == Doubled(interval, cfg.maxInterval, if attempt > i then attempt - i else 0)
      {
        interval := Wrap(interval * 2);
        if interval >= cfg.maxInterval {
          break;
        }
        i := i + 1;
      }
      assert interval == Doubled(cfg.interval, cfg.maxInterval, n);
      if interval > cfg.maxInterval {
        interval := cfg.maxInterval;
      }
      var jitter := Quotient(interval, 5);
      if jitter > 0 {
        interval := Wrap(interval + Wrap(draw - jitter / 2));
      }
    }
    if interval <= 0 {
      return MILLISECOND;
    }
    d := interval;
  }

  lemma PowPositive(n: nat)
    ensures Pow2(n) >= 1
  {
  }

  lemma WrapFits(x: int)
    ensures Wrap(x) == x <==> -LIMIT <= x < LIMIT
    ensures LIMIT <= x < 2 * LIMIT ==> Wrap(x) < 0
  {
    if LIMIT <= x < 2 * LIMIT {
      assert (x + LIMIT) % (2 * LIMIT) == x - LIMIT by { assert x + LIMIT == 2 * LIMIT + (x - LIMIT); }
    }
  }

  /** The first interval * 2^k that reaches the ceiling. */
  function Reach(interval: int, ceiling: int): (r: int)
    requires 0 < interval
    ensures ceiling <= r && (interval < ceiling ==> r < 2 * ceiling)
    decreases ceiling - interval
  {
    if interval >= ceiling then interval else Reach(2 * interval, ceiling)
  }

  lemma DoubleFirst(x: int, p: int)
    ensures x * (2 * p) == (2 * x) * p
  {
  }

  lemma AtLeastOnce(x: int, p: int)
    requires x > 0 && p >= 1
    ensures x * p >= x
  {
  }

  lemma {:induction false} DoubledIsPower(interval: int, ceiling: int, n: nat)
    requires 0 < interval < ceiling && Reach(interval, ceiling) < LIMIT
    ensures Min(Doubled(interval, ceiling, n), ceiling) == Min(interval * Pow2(n), ceiling)
    decreases n
  {
    if n > 0 {
      var d := 2 * interval;
      ReachGrows(d, ceiling);
      WrapFits(d);
      PowPositive(n - 1);
      DoubleFirst(interval, Pow2(n - 1));
      if d < ceiling {
        DoubledIsPower(d, ceiling, n - 1);
      } else {
        AtLeastOnce(d, Pow2(n - 1));
      }
    }
  }

  lemma {:induction false} ReachGrows(interval: int, ceiling: int)
    requires 0 < interval
    ensures interval <= Reach(interval, ceiling)
    decreases ceiling - interval
  {
    if interval < ceiling {
      ReachGrows(2 * interval, ceiling);
    }
  }

  lemma {:induction false} OverflowAt(interval: int, ceiling: int) returns (n: nat)
    requires 0 < interval < ceiling < LIMIT <= Reach(interval, ceiling)
    ensures Doubled(interval, ceiling, n) < 0
    decreases ceiling - interval
  {
    WrapFits(2 * interval);
    if 2 * interval >= LIMIT {
      n := 1;
      assert Doubled(interval, ceiling, 1) == Wrap(2 * interval);
    } else {
      var m := OverflowAt(2 * interval, ceiling);
      n := m + 1;
    }
  }

  /** The loop equals its closed form for every attempt exactly when the first doubling
      that reaches the ceiling fits 64 bits; otherwise a step overflows and the wait of some
      attempt is wrong. */
  lemma BackoffIsClosed(interval: int, ceiling: int)
    requires 0 < interval < ceiling < LIMIT
    ensures (forall attempt: nat | attempt >= 1 :: Base(interval, ceiling, attempt) == Closed(interval, ceiling, attempt))
            <==> Reach(interval, ceiling) < LIMIT
  {
    if Reach(interval, ceiling) < LIMIT {
      forall attempt: nat | attempt >= 1 ensures Base(interval, ceiling, attempt) == Closed(interval, ceiling, attempt) {
        DoubledIsPower(interval, ceiling, attempt - 1);
      }
    } else {
      var n := OverflowAt(interval, ceiling);
      ClosedAbove(interval, ceiling, n + 1);
      assert Base(interval, ceiling, n + 1) < 0 < Closed(interval, ceiling, n + 1);
    }
  }

  /** Ceilings up to 2^62 nanoseconds (146 years) never overflow. */
  lemma NoOverflowBelow(interval: int, ceiling: int, attempt: nat)
    requires 0 < interval < ceiling <= LIMIT / 2 && attempt >= 1
    ensures Base(interval, ceiling, attempt) == Closed(interval, ceiling, attempt)
  {
    BackoffIsClosed(interval, ceiling);
  }

  lemma ClosedAbove(interval: int, ceiling: int, attempt: nat)
    requires 0 < interval < ceiling && attempt >= 1
    ensures interval <= Closed(interval, ceiling, attempt) <= ceiling
  {
    PowPositive(attempt - 1);
    AtLeastOnce(interval, Pow2(attempt - 1));
  }

  /** Each draw is one that the random source can make. */
  ghost predicate Draws(cfg: Config, draw: nat -> nat) {
    forall a: nat | a >= 1 && Backs(cfg) && Spread(cfg, a) > 0 :: draw(a) <= Spread(cfg, a)
  }

  /** The wait is the closed form, moved by the draw: every value from a tenth below it
      to a tenth above it comes from some draw, and no other value does. */
  lemma JitterIsTheDraw(cfg: Config, attempt: nat, draw: nat)
    requires Backs(cfg) && cfg.maxInterval <= LIMIT / 2 && attempt >= 1 && draw <= Spread(cfg, attempt)
    ensures var base := Closed(cfg.interval, cfg.maxInterval, attempt);
            && Spread(cfg, attempt) == base / 5
            && Backoff(cfg, attempt, draw) == base - base / 5 / 2 + draw
  {
    var base := Closed(cfg.interval, cfg.maxInterval, attempt);
    NoOverflowBelow(cfg.interval, cfg.maxInterval, attempt);
    ClosedAbove(cfg.interval, cfg.maxInterval, attempt);
    var spread := base / 5;
    WrapFits(draw - spread / 2);
    WrapFits(base + (draw - spread / 2));
  }

  /** Every wait is positive and within a tenth (and a nanosecond) of the closed form. */
  lemma JitterIsSmall(cfg: Config, attempt: nat, draw: nat)
    requires Backs(cfg) && cfg.maxInterval <= LIMIT / 2 && attempt >= 1 && draw <= Spread(cfg, attempt)
    ensures var base := Closed(cfg.interval, cfg.maxInterval, attempt);
            && cfg.interval <= base <= cfg.maxInterval
            && 0 < Backoff(cfg, attempt, draw)
            && base - (base / 10 + 1) <= Backoff(cfg, attempt, draw) <= base + (base / 10 + 1)
  {
    var base := Closed(cfg.interval, cfg.maxInterval, attempt);
    NoOverflowBelow(cfg.interval, cfg.maxInterval, attempt);
    ClosedAbove(cfg.interval, cfg.maxInterval, attempt);
    var spread := base / 5;
    assert spread / 2 <= base / 10;
    WrapFits(draw - spread / 2);
    WrapFits(base + (draw - spread / 2));
  }

  /* ---- Retrying ---- */

  /** What one run meets: the outcome of each attempt, and whether the context is found
      cancelled before an attempt or while waiting after one. */
  datatype World<!T> = World(result: nat -> T, before: nat -> bool, waiting: nat -> bool)

  function Tries(cfg: Config): (n: nat)
    ensures n >= 1
  {
    if cfg.maxAttempts <= 0 then 1 else cfg.maxAttempts
  }

  function WaitSum(cfg: Config, draw: nat -> nat, n: nat): int {
    if n == 0 then 0 else WaitSum(cfg, draw, n - 1) + Backoff(cfg, n, draw(n))
  }

  /** No attempt started after a cancellation was seen. */
  ghost predicate NoCallAfterCancel<T>(w: World<T>, calls: nat) {
    && (forall a: nat | 1 <= a <= calls :: !w.before(a))
    && (forall a: nat | 1 <= a < calls :: !w.waiting(a))
  }

  /** The run may end cancelled only when a cancellation was seen after these calls. */
  ghost predicate SeesCancel<T>(cfg: Config, w: World<T>, calls: nat) {
    calls < Tries(cfg) && (w.before(calls + 1) || (calls >= 1 && w.waiting(calls)))
  }

  /** DoContext: an attempt fails with an error or succeeds with None. */
  datatype Outcome<+E> = Done | Cancelled | GaveUp(attempts: int, last: E)

  ghost predicate DoResult<E>(cfg: Config, w: World<Option<E>>, r: Outcome<E>, calls: nat) {
    && calls <= Tries(cfg) && NoCallAfterCancel(w, calls)
    && (forall a: nat | 1 <= a < calls :: w.result(a).Some?)
    && match r
       case Done => calls >= 1 && w.result(calls).None?
       case Cancelled => SeesCancel(cfg, w, calls) && (calls >= 1 ==> w.result(calls).Some?)
       case GaveUp(n, last) => n == calls == Tries(cfg) && w.result(calls) == Some(last)
  }

  /** One wait between two calls; a run that is cancelled has also begun the wait after its
      last call. */
  function DoWaits<E>(r: Outcome<E>, calls: nat): nat {
    if r.Cancelled? || calls == 0 then calls else calls - 1
  }

  /** What a run meets determines how it ends, and with that its calls and waits. */
  lemma DoIsDetermined<E>(cfg: Config, w: World<Option<E>>, r: Outcome<E>, m: nat, s: Outcome<E>, n: nat)
    requires DoResult(cfg, w, r, m) && DoResult(cfg, w, s, n)
    ensures r == s && m == n
  {
  }

  method DoContext<E>(cfg: Config, w: World<Option<E>>, draw: nat -> nat)
    returns (r: Outcome<E>, calls: nat, waits: nat, waited: int)
    ensures DoResult(cfg, w, r, calls)
    ensures waits == DoWaits(r, calls) && waited == WaitSum(cfg, draw, waits)
  {
    var attempts := if cfg.maxAttempts <= 0 then 1 else cfg.maxAttempts;
    calls, waits, waited := 0, 0, 0;
    while true
      invariant attempts == Tries(cfg) && calls < attempts && waits == calls
      invariant forall a: nat | 1 <= a <= calls :: w.result(a).Some? && !w.before(a) && !w.waiting(a)
      invariant waited == WaitSum(cfg, draw, waits)
      decreases attempts - calls
    {
      if w.before(calls + 1) {
        return Cancelled, calls, waits, waited;
      }
      calls := calls + 1;
      var error := w.result(calls);
      if error.None? {
        return Done, calls, waits, waited;
      }
      if calls == attempts {
        return GaveUp(attempts, error.value), calls, waits, waited;
      }
      var d := BackoffInterval(cfg, calls, draw(calls));
      waits, waited := waits + 1, waited + d;
      if w.waiting(calls) {
        return Cancelled, calls, waits, waited;
      }
    }
  }

  /** The first attempt from `from` to n that stops. */
  function FirstStop(stops: nat -> bool, from: nat, n: nat): (r: Option<nat>)
    requires 1 <= from <= n + 1
    ensures r.Some? ==> from <= r.value <= n && stops(r.value)
    ensures forall a: nat :: from <= a <= n && (r.Some? ==> a < r.value) ==> !stops(a)
    decreases n + 1 - from
  {
    if from == n + 1 then None else if stops(from) then Some(from) else FirstStop(stops, from + 1, n)
  }

  ghost predicate NeverCancelled<T>(w: World<T>) {
    (forall a :: !w.before(a)) && (forall a :: !w.waiting(a))
  }

  function Succeeds<E>(w: World<Option<E>>): nat -> bool {
    (a: nat) => w.result(a).None?
  }

  /** Without a cancellation, DoContext ends as the first success among the first
      max(1, MaxAttempts) outcomes, with exactly that many calls, and otherwise with the
      last error. */
  lemma DoIsFirstSuccess<E>(cfg: Config, w: World<Option<E>>, r: Outcome<E>, calls: nat)
    requires NeverCancelled(w)
    ensures var first := FirstStop(Succeeds(w), 1, Tries(cfg));
            DoResult(cfg, w, r, calls) <==>
            if first.Some? then r == Done && calls == first.value
            else r.GaveUp? && r.attempts == calls == Tries(cfg) && w.result(calls) == Some(r.last)
  {
    var stops := Succeeds(w);
    var first := FirstStop(stops, 1, Tries(cfg));
    assert forall a: nat :: stops(a) <==> w.result(a).None?;
    if DoResult(cfg, w, r, calls) && first.Some? {
      assert stops(first.value);
    }
  }

  /** When every attempt fails there are exactly MaxAttempts of them, or one if that is not
      positive, and the error is that of the last. */
  lemma AllFail<E>(cfg: Config, w: World<Option<E>>, r: Outcome<E>, calls: nat)
    requires NeverCancelled(w) && (forall a: nat :: w.result(a).Some?) && DoResult(cfg, w, r, calls)
    ensures calls == (if cfg.maxAttempts >= 1 then cfg.maxAttempts else 1)
    ensures r == GaveUp(calls, w.result(calls).value)
  {
    DoIsFirstSuccess(cfg, w, r, calls);
  }

  /* ---- Polling ---- */

  /** One check of a polled condition. */
  datatype Check<+E> = Ready | NotYet | Failed(error: E)

  datatype PollOutcome<+E> = Met | PollCancelled | PollFailed(attempt: nat, cause: E) | NeverMet(attempts: int)

  ghost predicate PollResult<E>(cfg: Config, w: World<Check<E>>, r: PollOutcome<E>, calls: nat) {
    && calls <= Tries(cfg) && NoCallAfterCancel(w, calls)
    && (forall a: nat | 1 <= a < calls :: w.result(a).NotYet?)
    && match r
       case Met => calls >= 1 && w.result(calls).Ready?
       case PollCancelled => SeesCancel(cfg, w, calls) && (calls >= 1 ==> w.result(calls).NotYet?)
       case PollFailed(n, cause) => n == calls && calls >= 1 && w.result(calls) == Failed(cause)
       case NeverMet(n) => n == calls == Tries(cfg) && w.result(calls).NotYet?
  }

  function PollWaits<E>(r: PollOutcome<E>, calls: nat): nat {
    if r.PollCancelled? || calls == 0 then calls else calls - 1
  }

  lemma PollIsDetermined<E>(cfg: Config, w: World<Check<E>>, r: PollOutcome<E>, m: nat, s: PollOutcome<E>, n: nat)
    requires PollResult(cfg, w, r, m) && PollResult(cfg, w, s, n)
    ensures r == s && m == n
  {
  }

  method PollContext<E>(cfg: Config, w: World<Check<E>>, draw: nat -> nat)
    returns (r: PollOutcome<E>, calls: nat, waits: nat, waited: int)
    ensures PollResult(cfg, w, r, calls)
    ensures waits == PollWaits(r, calls) && waited == WaitSum(cfg, draw, waits)
  {
    var attempts := if cfg.maxAttempts <= 0 then 1 else cfg.maxAttempts;
    calls, waits, waited := 0, 0, 0;
    while true
      invariant attempts == Tries(cfg) && calls < attempts && waits == calls
      invariant forall a: nat | 1 <= a <= calls :: w.result(a).NotYet? && !w.before(a) && !w.waiting(a)
      invariant waited == WaitSum(cfg, draw, waits)
      decreases attempts - calls
    {
      if w.before(calls + 1) {
        return PollCancelled, calls, waits, waited;
      }
      calls := calls + 1;
      var check := w.result(calls);
      if check.Failed? {
        return PollFailed(calls, check.error), calls, waits, waited;
      }
      if check.Ready? {
        return Met, calls, waits, waited;
      }
      if calls == attempts {
        return NeverMet(attempts), calls, waits, waited;
      }
      var d := BackoffInterval(cfg, calls, draw(calls));
      waits, waited := waits + 1, waited + d;
      if w.waiting(calls) {
        return PollCancelled, calls, waits, waited;
      }
    }
  }

  function Stops<E>(w: World<Check<E>>): nat -> bool {
    (a: nat) => !w.result(a).NotYet?
  }

  /** Polling is the same, except that an error stops it at once. */
  lemma PollIsFirstStop<E>(cfg: Config, w: World<Check<E>>, r: PollOutcome<E>, calls: nat)
    requires NeverCancelled(w)
    ensures var first := FirstStop(Stops(w), 1, Tries(cfg));
            PollResult(cfg, w, r, calls) <==>
            if first.None? then r == NeverMet(Tries(cfg)) && calls == Tries(cfg)
            else calls == first.value
                 && r == if w.result(calls).Failed? then PollFailed(calls, w.result(calls).error) else Met
  {
    var stops := Stops(w);
    var first := FirstStop(stops, 1, Tries(cfg));
    assert forall a: nat :: stops(a) <==> !w.result(a).NotYet?;
    if PollResult(cfg, w, r, calls) && first.Some? {
      assert stops(first.value);
    }
  }

  /* ---- The total wait ---- */

  /** The sum of the backoff bounds of the first n attempts. */
  function BoundSum(cfg: Config, n: nat): int
    requires Backs(cfg)
  {
    if n == 0 then 0
    else
      var base := Closed(cfg.interval, cfg.maxInterval, n);
      BoundSum(cfg, n - 1) + base + base / 10 + 1
  }

  /** With backoff the total wait is at most the sum of the bounds; */
  lemma {:induction false} WaitIsBounded(cfg: Config, draw: nat -> nat, n: nat)
    requires Draws(cfg, draw) && Backs(cfg) && cfg.maxInterval <= LIMIT / 2
    ensures 0 <= WaitSum(cfg, draw, n) <= BoundSum(cfg, n) <= n * (cfg.maxInterval + cfg.maxInterval / 10 + 1)
  {
    if n > 0 {
      WaitIsBounded(cfg, draw, n - 1);
      WaitStep(cfg, n, draw(n));
      var most := cfg.maxInterval + cfg.maxInterval / 10 + 1;
      assert n * most == (n - 1) * most + most;
    }
  }

  /** and without it, exactly one interval for each wait. */
  lemma {:induction false} WaitIsConstant(cfg: Config, draw: nat -> nat, n: nat)
    requires !Backs(cfg)
    ensures WaitSum(cfg, draw, n) == n * (if cfg.interval <= 0 then MILLISECOND else cfg.interval)
  {
    if n > 0 {
      WaitIsConstant(cfg, draw, n - 1);
      var each := if cfg.interval <= 0 then MILLISECOND else cfg.interval;
      assert n * each == (n - 1) * each + each;
    }
  }

  /** The sum of the closed forms of the first n attempts. */
  function ClosedSum(cfg: Config, n: nat): int
    requires Backs(cfg)
  {
    if n == 0 then 0 else ClosedSum(cfg, n - 1) + Closed(cfg.interval, cfg.maxInterval, n)
  }

  /** With backoff the total wait is within a tenth, and a nanosecond for each wait, of
      the sum of the closed forms. */
  lemma {:induction false} WaitIsNear(cfg: Config, draw: nat -> nat, n: nat)
    requires Draws(cfg, draw) && Backs(cfg) && cfg.maxInterval <= LIMIT / 2
    ensures 9 * ClosedSum(cfg, n) - 10 * n <= 10 * WaitSum(cfg, draw, n) <= 11 * ClosedSum(cfg, n) + 10 * n
  {
    if n > 0 {
      WaitIsNear(cfg, draw, n - 1);
      WaitStep(cfg, n, draw(n));
    }
  }

  /** An uncancelled run waits once between any two of its calls. Without backoff that is
      one interval each; */
  lemma DoTotalWait<E>(cfg: Config, w: World<Option<E>>, draw: nat -> nat, r: Outcome<E>, calls: nat, waits: nat, waited: int)
    requires NeverCancelled(w) && DoResult(cfg, w, r, calls)
    requires waits == DoWaits(r, calls) && waited == WaitSum(cfg, draw, waits)
    ensures var first := FirstStop(Succeeds(w), 1, Tries(cfg));
            var n := (if first.Some? then first.value else Tries(cfg)) - 1;
            && waits == n
            && (!Backs(cfg) ==> waited == n * (if cfg.interval <= 0 then MILLISECOND else cfg.interval))
            && (Draws(cfg, draw) && Backs(cfg) && cfg.maxInterval <= LIMIT / 2 ==>
                  9 * ClosedSum(cfg, n) - 10 * n <= 10 * waited <= 11 * ClosedSum(cfg, n) + 10 * n)
  {
    DoIsFirstSuccess(cfg, w, r, calls);
    TotalWait(cfg, draw, waits);
  }

  lemma TotalWait(cfg: Config, draw: nat -> nat, n: nat)
    ensures !Backs(cfg) ==> WaitSum(cfg, draw, n) == n * (if cfg.interval <= 0 then MILLISECOND else cfg.interval)
    ensures Draws(cfg, draw) && Backs(cfg) && cfg.maxInterval <= LIMIT / 2 ==>
              9 * ClosedSum(cfg, n) - 10 * n <= 10 * WaitSum(cfg, draw, n) <= 11 * ClosedSum(cfg, n) + 10 * n
  {
    if !Backs(cfg) {
      WaitIsConstant(cfg, draw, n);
    } else if Draws(cfg, draw) && cfg.maxInterval <= LIMIT / 2 {
      WaitIsNear(cfg, draw, n);
    }
  }

  /** and so does an uncancelled poll. */
  lemma PollTotalWait<E>(cfg: Config, w: World<Check<E>>, draw: nat -> nat, r: PollOutcome<E>, calls: nat, waits: nat, waited: int)
    requires NeverCancelled(w) && PollResult(cfg, w, r, calls)
    requires waits == PollWaits(r, calls) && waited == WaitSum(cfg, draw, waits)
    ensures var first := FirstStop(Stops(w), 1, Tries(cfg));
            var n := (if first.Some? then first.value else Tries(cfg)) - 1;
            && waits == n
            && (!Backs(cfg) ==> waited == n * (if cfg.interval <= 0 then MILLISECOND else cfg.interval))
            && (Draws(cfg, draw) && Backs(cfg) && cfg.maxInterval <= LIMIT / 2 ==>
                  9 * ClosedSum(cfg, n) - 10 * n <= 10 * waited <= 11 * ClosedSum(cfg, n) + 10 * n)
  {
    PollIsFirstStop(cfg, w, r, calls);
    TotalWait(cfg, draw, waits);
  }

  lemma WaitStep(cfg: Config, n: nat, draw: nat)
    requires Backs(cfg) && cfg.maxInterval <= LIMIT / 2 && n >= 1 && (Spread(cfg, n) > 0 ==> draw <= Spread(cfg, n))
    ensures var base := Closed(cfg.interval, cfg.maxInterval, n);
            && 0 < Backoff(cfg, n, draw)
            && base - (base / 10 + 1) <= Backoff(cfg, n, draw) <= base + base / 10 + 1
  {
    if Spread(cfg, n) > 0 {
      JitterIsSmall(cfg, n, draw);
    } else {
      NoOverflowBelow(cfg.interval, cfg.maxInterval, n);
      ClosedAbove(cfg.interval, cfg.maxInterval, n);
    }
  }
}
