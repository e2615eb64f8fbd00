/**
 The certificate-event timeline (internal/api/cert_events_handler.go): two duration
 parameters, clamped, and a window whose end is aligned to the interval.  Durations
 are nanoseconds in 64-bit integers that wrap.
 */
module CertWindow {
  import opened Options
  import opened Strings

  const TWO_64: int := 0x1_0000_0000_0000_0000
  const MAX_INT64: int := 0x7FFF_FFFF_FFFF_FFFF
  const SECOND: int := 1_000_000_000
  const HOUR: int := 3_600_000_000_000
  const DAY: int := 86_400_000_000_000

  const DEFAULT_WINDOW := 30 * DAY
  const MIN_WINDOW := HOUR
  const MAX_WINDOW := 90 * DAY
  const DEFAULT_INTERVAL := DAY
  const MIN_INTERVAL := HOUR
  const MAX_INTERVAL := 7 * DAY

  /** 64-bit two's complement. */
  function Wrap(n: int): (r: int)
    ensures -MAX_INT64 - 1 <= r <= MAX_INT64 && (r - n) % TWO_64 == 0
    ensures -MAX_INT64 - 1 <= n <= MAX_INT64 ==> r == n
  {
    var m := n % TWO_64;
    if m > MAX_INT64 then m - TWO_64 else m
  }

  /** Go's product: times 24, then times an hour, each wrapping. */
  function DaysToDuration(n: int): int {
    Wrap(Wrap(n * 24) * HOUR)
  }

  function Clamp(d: int, lo: int, hi: int): int {
    if d < lo then lo else if d > hi then hi else d
  }

  /** `atoi` is `strconv.Atoi`, `duration` is `time.ParseDuration`. */
  function ParseDurationParam(raw: Text, default: int, lo: int, hi: int,
                              atoi: Text -> Option<int>, duration: Text -> Option<int>): (r: Option<int>)
    requires lo <= default <= hi
    ensures r.Some? ==> lo <= r.value <= hi
    ensures r.None? <==>
              && raw != ""
              && var n := if raw[|raw| - 1] == 'd' then atoi(raw[..|raw| - 1]) else duration(raw);
                 n.None? || n.value <= 0
  {
    if raw == "" then Some(default)
    else if raw[|raw| - 1] == 'd' then
      var n := atoi(raw[..|raw| - 1]);
      if n.None? || n.value <= 0 then None else Some(Clamp(DaysToDuration(n.value), lo, hi))
    else
      var d := duration(raw);
      if d.None? || d.value <= 0 then None else Some(Clamp(d.value, lo, hi))
  }

  /** A parameter in Go's own notation: its duration, moved to the nearer bound when it is outside. */
  lemma PlainParam(raw: Text, d: int, default: int, lo: int, hi: int,
                   atoi: Text -> Option<int>, duration: Text -> Option<int>)
    requires lo <= default <= hi && raw != "" && raw[|raw| - 1] != 'd' && duration(raw) == Some(d) && d > 0
    ensures var r := ParseDurationParam(raw, default, lo, hi, atoi, duration);
            && r.Some? && (lo <= d <= hi ==> r.value == d) && (d < lo ==> r.value == lo) && (d > hi ==> r.value == hi)
    ensures ParseDurationParam("", default, lo, hi, atoi, duration) == Some(default)
  {
  }

  /** Two values that differ by a multiple of 2^64 wrap to the same. */
  lemma WrapCongruent(a: int, b: int, k: int)
    requires a == b + k * TWO_64
    ensures Wrap(a) == Wrap(b)
  {
    assert a % TWO_64 == b % TWO_64 by {
      ModShift(b, k, TWO_64);
    }
  }

  lemma ModShift(b: int, k: int, m: int)
    requires m > 0
    ensures (b + k * m) % m == b % m
  {
    var q := b / m;
    assert b + k * m == (q + k) * m + b % m;
    DivModUnique(b + k * m, m, q + k, b % m);
  }

  lemma DivModUnique(n: int, m: int, q: int, r: int)
    requires m > 0 && 0 <= r < m && n == q * m + r
    ensures n / m == q && n % m == r
  {
    var q', r' := n / m, n % m;
    assert n == q' * m + r';
    assert (q' - q) * m == q' * m - q * m;
    SmallMultiple(q' - q, m, r - r');
  }

  lemma Monotone(a: int, b: int, m: int)
    requires a <= b && m > 0
    ensures a * m <= b * m
  {
    assert (b - a) * m >= 0;
    assert (b - a) * m == b * m - a * m;
  }

  /** The only multiple of `m` closer to 0 than `m` is 0. */
  lemma SmallMultiple(k: int, m: int, d: int)
    requires m > 0 && k * m == d && -m < d < m
    ensures k == 0
  {
    if k >= 1 {
      Monotone(1, k, m);
    } else if k <= -1 {
      Monotone(k, -1, m);
    }
  }

  /** The two wrapping products are one wrapping product. */
  lemma DaysOnce(n: int)
    ensures DaysToDuration(n) == Wrap(n * DAY)
  {
    var w := Wrap(n * 24);
    var k := (w - n * 24) / TWO_64;
    assert w == n * 24 + k * TWO_64;
    assert w * HOUR == n * DAY + (k * HOUR) * TWO_64;
    WrapCongruent(w * HOUR, n * DAY, k * HOUR);
  }

  /** The largest number of days whose duration is representable. */
  const MAX_DAYS := 106_751

  /** A day count gives its clamped duration exactly when the product fits, or wraps to something at or above the cap. */
  lemma DaysClampedExactlyWhen(n: int, lo: int, hi: int)
    requires n > 0 && 0 < lo <= hi <= MAX_WINDOW
    ensures Clamp(DaysToDuration(n), lo, hi) == Clamp(n * DAY, lo, hi)
            <==> n <= MAX_DAYS || lo == hi || Wrap(n * DAY) >= hi
  {
    DaysOnce(n);
    if n <= MAX_DAYS {
      assert 0 < n * DAY <= MAX_INT64;
    } else {
      assert n * DAY > MAX_INT64;
    }
  }

  /** The same, as the parameter "<n>d" is parsed. */
  lemma DayParamExactlyWhen(text: Text, n: int, default: int, lo: int, hi: int,
                            atoi: Text -> Option<int>, duration: Text -> Option<int>)
    requires 0 < lo <= default <= hi <= MAX_WINDOW && n > 0 && atoi(text) == Some(n)
    ensures ParseDurationParam(text + "d", default, lo, hi, atoi, duration) == Some(Clamp(n * DAY, lo, hi))
            <==> n <= MAX_DAYS || lo == hi || Wrap(n * DAY) >= hi
  {
    var raw := text + "d";
    assert raw[..|raw| - 1] == text && raw[|raw| - 1] == 'd';
    DaysClampedExactlyWhen(n, lo, hi);
  }

  /** One day more than fits becomes the shortest window instead of the longest. */
  lemma LongestDayCountWraps()
    ensures Clamp(DaysToDuration(MAX_DAYS + 1), MIN_WINDOW, MAX_WINDOW) == MIN_WINDOW
    ensures Clamp((MAX_DAYS + 1) * DAY, MIN_WINDOW, MAX_WINDOW) == MAX_WINDOW
  {
    DaysOnce(MAX_DAYS + 1);
  }

  // ---------------------------------------------------------------------
  // The window
  // ---------------------------------------------------------------------

  /** Go's division truncates toward zero. */
  function Quotient(a: int, b: int): int
    requires b > 0
  {
    if a >= 0 then a / b else -((-a) / b)
  }

  function IntervalSeconds(interval: int): int {
    Quotient(interval, SECOND)
  }

  /** The end of the window, in seconds. */
  function WindowEnd(now: int, secs: int): int
    requires secs > 0
  {
    (Quotient(now, secs) + 1) * secs
  }

  predicate Aligned(t: int, secs: int)
    requires secs > 0
  {
    t % secs == 0
  }

  ghost predicate LeastAlignedAfter(t: int, now: int, secs: int)
    requires secs > 0
  {
    t > now && Aligned(t, secs) && forall x :: x > now && Aligned(x, secs) ==> t <= x
  }

  /** Whatever is accepted, the divisor is at least an hour. */
  lemma IntervalAtLeastAnHour(interval: int)
    requires MIN_INTERVAL <= interval <= MAX_INTERVAL
    ensures 3600 <= IntervalSeconds(interval) <= 604_800
  {
  }

  lemma MultipleAligned(k: int, secs: int)
    requires secs > 0
    ensures Aligned(k * secs, secs)
  {
    DivModUnique(k * secs, secs, k, 0);
  }

  /** The least aligned instant after `now` is one past the floor. */
  lemma FloorPlusOne(now: int, secs: int)
    requires secs > 0
    ensures LeastAlignedAfter((now / secs + 1) * secs, now, secs)
  {
    var q := now / secs;
    var end := (q + 1) * secs;
    MultipleAligned(q + 1, secs);
    assert now == q * secs + now % secs;
    assert end == q * secs + secs;
    forall x | x > now && Aligned(x, secs) ensures end <= x {
      AlignedAbove(q, x, now, secs);
    }
  }

  lemma AlignedAbove(q: int, x: int, now: int, secs: int)
    requires secs > 0 && q == now / secs && x > now && Aligned(x, secs)
    ensures (q + 1) * secs <= x
  {
    var k := x / secs;
    assert x == k * secs;
    assert q * secs <= now && q <= k;
    assert q != k;
    Monotone(q + 1, k, secs);
  }

  lemma LeastIsUnique(t: int, t': int, now: int, secs: int)
    requires secs > 0 && LeastAlignedAfter(t, now, secs) && LeastAlignedAfter(t', now, secs)
    ensures t == t'
  {
  }

  /** Truncation is the floor exactly for non-negative values and multiples. */
  lemma TruncationIsFloorExactlyWhen(a: int, b: int)
    requires b > 0
    ensures Quotient(a, b) == a / b <==> a >= 0 || a % b == 0
  {
    if a < 0 {
      var q, r := a / b, a % b;
      assert a == q * b + r;
      if r == 0 {
        DivModUnique(-a, b, -q, 0);
      } else {
        assert -a == (-q - 1) * b + (b - r);
        DivModUnique(-a, b, -q - 1, b - r);
      }
    }
  }

  /** The window ends at the least aligned instant after now, exactly from the epoch on or at an aligned instant before it. */
  lemma WindowEndExactlyWhen(now: int, secs: int)
    requires secs > 0
    ensures LeastAlignedAfter(WindowEnd(now, secs), now, secs) <==> now >= 0 || Aligned(now, secs)
  {
    FloorPlusOne(now, secs);
    TruncationIsFloorExactlyWhen(now, secs);
    var q, f := Quotient(now, secs), now / secs;
    if LeastAlignedAfter(WindowEnd(now, secs), now, secs) {
      LeastIsUnique(WindowEnd(now, secs), (f + 1) * secs, now, secs);
      SameProduct(q + 1, f + 1, secs);
    }
  }

  lemma SameProduct(a: int, b: int, m: int)
    requires m > 0 && a * m == b * m
    ensures a == b
  {
    assert (a - b) * m == 0;
  }

  /** Two requests get the same window exactly when they fall in the same interval. */
  lemma SameWindowExactlyWhen(now: nat, later: nat, secs: int)
    requires secs > 0
    ensures WindowEnd(now, secs) == WindowEnd(later, secs) <==> now / secs == later / secs
  {
    if WindowEnd(now, secs) == WindowEnd(later, secs) {
      SameProduct(now / secs + 1, later / secs + 1, secs);
    }
  }

  /** The window's end falls on the grid of the interval itself, not just of its whole seconds. */
  predicate OnGrid(now: nat, interval: int)
    requires MIN_INTERVAL <= interval
  {
    WindowEnd(now, IntervalSeconds(interval)) * SECOND % interval == 0
  }

  lemma WholeSecondsOnGrid(now: nat, interval: int)
    requires MIN_INTERVAL <= interval && interval % SECOND == 0
    ensures OnGrid(now, interval)
  {
    var secs := IntervalSeconds(interval);
    var k := Quotient(now, secs) + 1;
    assert interval == secs * SECOND;
    assert (k * secs) * SECOND == k * interval;
    DivModUnique(k * interval, interval, k, 0);
  }

  /** It does at every instant exactly when the interval has no fraction of a second. */
  lemma GridExactlyWhen(interval: int)
    requires MIN_INTERVAL <= interval
    ensures (forall now: nat :: OnGrid(now, interval)) <==> interval % SECOND == 0
  {
    if interval % SECOND == 0 {
      forall now: nat ensures OnGrid(now, interval) {
        WholeSecondsOnGrid(now, interval);
      }
    } else {
      FractionOffGrid(interval);
    }
  }

  lemma FractionOffGrid(interval: int)
    requires MIN_INTERVAL <= interval && interval % SECOND != 0
    ensures !OnGrid(0, interval)
  {
    var secs := IntervalSeconds(interval);
    FirstEnd(secs);
    DivModUnique(secs * SECOND, interval, 0, secs * SECOND);
  }

  lemma FirstEnd(secs: int)
    requires secs > 0
    ensures WindowEnd(0, secs) == secs
  {
  }

  /** The window never spans more than 2160 intervals, nor ends more than an interval ahead. */
  lemma WindowBounded(now: nat, window: int, interval: int)
    requires MIN_WINDOW <= window <= MAX_WINDOW && MIN_INTERVAL <= interval <= MAX_INTERVAL
    ensures window <= 2160 * interval
    ensures IntervalSeconds(interval) > 0 && WindowEnd(now, IntervalSeconds(interval)) <= now + 604_800
  {
    IntervalAtLeastAnHour(interval);
    var secs := IntervalSeconds(interval);
    assert (now / secs) * secs <= now;
  }

  /** What the handler computes from its two parameters and the clock, or None for a bad request. */
  method Window(rawWindow: Text, rawInterval: Text, now: nat,
                atoi: Text -> Option<int>, duration: Text -> Option<int>)
    returns (r: Option<(int, int, int)>)
    ensures r.None? <==>
              || ParseDurationParam(rawWindow, DEFAULT_WINDOW, MIN_WINDOW, MAX_WINDOW, atoi, duration).None?
              || ParseDurationParam(rawInterval, DEFAULT_INTERVAL, MIN_INTERVAL, MAX_INTERVAL, atoi, duration).None?
    ensures r.Some? ==>
              var (from, to, interval) := r.value;
              && ParseDurationParam(rawWindow, DEFAULT_WINDOW, MIN_WINDOW, MAX_WINDOW, atoi, duration) == Some(to - from)
              && ParseDurationParam(rawInterval, DEFAULT_INTERVAL, MIN_INTERVAL, MAX_INTERVAL, atoi, duration) == Some(interval)
              && MIN_INTERVAL <= interval <= MAX_INTERVAL
              && MIN_WINDOW <= to - from <= MAX_WINDOW && to - from <= 2160 * interval
              && to % SECOND == 0
              && IntervalSeconds(interval) > 0 && LeastAlignedAfter(to / SECOND, now, IntervalSeconds(interval))
  {
    var window := ParseDurationParam(rawWindow, DEFAULT_WINDOW, MIN_WINDOW, MAX_WINDOW, atoi, duration);
    if window.None? {
      return None;
    }
    var interval := ParseDurationParam(rawInterval, DEFAULT_INTERVAL, MIN_INTERVAL, MAX_INTERVAL, atoi, duration);
    if interval.None? {
      return None;
    }
    var secs := IntervalSeconds(interval.value);
    IntervalAtLeastAnHour(interval.value);
    var end := WindowEnd(now, secs);
    var to := end * SECOND;
    var from := to - window.value;
    WindowEndExactlyWhen(now, secs);
    WindowBounded(now, window.value, interval.value);
    DivModUnique(to, SECOND, end, 0);
    return Some((from, to, interval.value));
  }
}
