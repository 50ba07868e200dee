/**
  Failure counting and reconnect backoff of `src/device.rs`.
 */
module Retry {
  import opened Bytes

  /** What the counters react to: a connection failure, or a message received. */
  datatype Occurrence = Failed | Received

  datatype Counters = Counters(failures: u32, successes: u32)

  /** One update; both counters are 32-bit and wrap. */
  function Count(c: Counters, o: Occurrence): Counters {
    match o
    case Failed => Counters((c.failures + 1) % WORD, 0)
    case Received =>
      var successes := (c.successes + 1) % WORD;
      if c.failures > 0 && successes >= 3 then Counters(0, 0) else Counters(c.failures, successes)
  }

  function CountAll(history: seq<Occurrence>): Counters {
    if history == [] then Counters(0, 0)
    else Count(CountAll(history[..|history| - 1]), history[|history| - 1])
  }

  // ---------------------------------------------------------------- the history behind the count

  function FailuresIn(history: seq<Occurrence>): nat {
    if history == [] then 0
    else FailuresIn(history[..|history| - 1]) + (if history[|history| - 1] == Failed then 1 else 0)
  }

  /** Three messages in a row end at `i`. */
  predicate CalmEndsAt(history: seq<Occurrence>, i: nat) {
    3 <= i <= |history| && history[i - 3] == Received && history[i - 2] == Received && history[i - 1] == Received
  }

  /** The end of the last run of three messages, or the beginning of time. */
  function LastCalm(history: seq<Occurrence>, limit: nat): (i: nat)
    requires limit <= |history|
    ensures i <= limit && (i == 0 || CalmEndsAt(history, i))
    ensures forall j: nat | i < j <= limit :: !CalmEndsAt(history, j)
  {
    if limit == 0 || CalmEndsAt(history, limit) then limit else LastCalm(history, limit - 1)
  }

  function FailuresSinceCalm(history: seq<Occurrence>): nat {
    FailuresIn(history[LastCalm(history, |history|)..])
  }

  /** How many messages the history ends with. */
  function Trailing(history: seq<Occurrence>): (n: nat)
    ensures n <= |history|
  {
    if history == [] || history[|history| - 1] == Failed then 0 else 1 + Trailing(history[..|history| - 1])
  }

  lemma CalmIsTrailing(history: seq<Occurrence>)
    ensures Trailing(history) >= 3 <==> CalmEndsAt(history, |history|)
  {
    if |history| >= 3 {
      var h1 := history[..|history| - 1];
      var h2 := h1[..|h1| - 1];
      var h3 := h2[..|h2| - 1];
      assert h1[|h1| - 1] == history[|history| - 2] && h2[|h2| - 1] == history[|history| - 3];
    }
  }

  lemma LastCalmStep(history: seq<Occurrence>, o: Occurrence)
    ensures var longer := history + [o];
            LastCalm(longer, |longer|) == if CalmEndsAt(longer, |longer|) then |longer|
                else LastCalm(history, |history|)
  {
    var longer := history + [o];
    forall j: nat | j <= |history| ensures CalmEndsAt(longer, j) == CalmEndsAt(history, j) {
    }
    var now, before := LastCalm(longer, |longer|), LastCalm(history, |history|);
    if !CalmEndsAt(longer, |longer|) {
      assert now <= |history|;
      assert now == 0 || CalmEndsAt(history, now);
      assert before == 0 || CalmEndsAt(longer, before);
      assert !(now < before) && !(before < now);
    }
  }

  lemma FailuresSinceCalmStep(history: seq<Occurrence>, o: Occurrence)
    ensures var longer := history + [o];
            FailuresSinceCalm(longer) == if CalmEndsAt(longer, |longer|) then 0
                                         else FailuresSinceCalm(history) + if o == Failed then 1 else 0
  {
    var longer := history + [o];
    LastCalmStep(history, o);
    if !CalmEndsAt(longer, |longer|) {
      var from := LastCalm(history, |history|);
      assert longer[from..] == history[from..] + [o];
      assert (history[from..] + [o])[..|history| - from] == history[from..];
    }
  }

  /**
    The counters fit a history with these failures since it was calm and in all, these messages at its end, and calm or
    not.
   */
  predicate Fits(c: Counters, since: nat, total: nat, trailing: nat, calm: bool) {
    && c.failures == since <= total
    && (c.failures > 0 ==> c.successes == trailing < 3)
    && (calm ==> c.failures == 0)
  }

  lemma FitsAfter(c: Counters, since: nat, total: nat, trailing: nat, calm: bool, o: Occurrence)
    requires Fits(c, since, total, trailing, calm) && total + (if o == Failed then 1 else 0) < WORD
    ensures o == Failed ==> Fits(Count(c, o), since + 1, total + 1, 0, false)
    ensures o == Received ==> Fits(Count(c, o), if trailing >= 2 then 0 else since, total, trailing + 1, trailing >= 2)
  {
    if o == Failed {
      assert (c.failures + 1) % WORD == c.failures + 1;
    }
  }

  lemma Unfold(history: seq<Occurrence>, o: Occurrence)
    ensures var longer := history + [o];
            && CountAll(longer) == Count(CountAll(history), o)
            && FailuresIn(longer) == FailuresIn(history) + (if o == Failed then 1 else 0)
            && Trailing(longer) == if o == Failed then 0 else Trailing(history) + 1
  {
    assert (history + [o])[..|history|] == history;
  }

  lemma {:induction false} CountsMatchHistory(history: seq<Occurrence>)
    requires FailuresIn(history) < WORD
    ensures Fits(CountAll(history), FailuresSinceCalm(history), FailuresIn(history), Trailing(history),
                 CalmEndsAt(history, |history|))
  {
    if history != [] {
      var before, o := history[..|history| - 1], history[|history| - 1];
      assert history == before + [o];
      CountsMatchHistory(before);
      Unfold(before, o);
      FailuresSinceCalmStep(before, o);
      CalmIsTrailing(history);
      FitsAfter(CountAll(before), FailuresSinceCalm(before), FailuresIn(before), Trailing(before),
                CalmEndsAt(before, |before|), o);
    }
  }

  /**
    Over every history with fewer than 2^32 failures, `failure_count` is the number of failures since the last three
    messages that came without a failure between them.
   */
  lemma FailureCountIsFailuresSinceCalm(history: seq<Occurrence>)
    requires FailuresIn(history) < WORD
    ensures CountAll(history).failures == FailuresSinceCalm(history)
  {
    CountsMatchHistory(history);
  }

  // ---------------------------------------------------------------- backoff

  function Pow2(n: nat): nat {
    if n == 0 then 1 else 2 * Pow2(n - 1)
  }

  function Min(a: nat, b: nat): nat {
    if a < b then a else b
  }

  /** Seconds of backoff before jitter. */
  function BackoffBase(n: nat): nat {
    Min(Pow2(Min(n, 10)) * 16, 4096)
  }

  /** `get_backoff_duration` in milliseconds; `random` is the 64-bit draw. */
  function BackoffMillis(n: nat, random: nat): nat {
    var baseMs := BackoffBase(n) * 1000;
    var fixedMs := baseMs * 70 / 100;
    var range := baseMs - fixedMs;
    fixedMs + random % (if range > 1 then range else 1)
  }

  lemma {:induction false} Pow2Monotone(m: nat, n: nat)
    requires m <= n
    ensures 1 <= Pow2(m) <= Pow2(n)
    decreases n
  {
    if n > 0 {
      Pow2Monotone(if m == n then m - 1 else m, n - 1);
    }
  }

  lemma Pow2Values()
    ensures Pow2(7) == 128 && Pow2(8) == 256 && Pow2(10) == 1024
  {
    assert Pow2(4) == 16;
    assert Pow2(8) == 256;
  }

  /** The capped exponential: 16 s doubling to 4096 s at the ninth failure, and no 64-bit overflow on the way. */
  lemma BackoffBaseShape(n: nat)
    ensures 16 <= BackoffBase(n) <= 4096
    ensures n < 8 ==> BackoffBase(n + 1) == 2 * BackoffBase(n) && BackoffBase(n) == 16 * Pow2(n)
    ensures n >= 8 ==> BackoffBase(n) == 4096
    ensures Pow2(Min(n, 10)) * 16 < 0x1_0000_0000_0000_0000 && BackoffBase(n) * 1000 * 70 < 0x1_0000_0000_0000_0000
  {
    Pow2Values();
    Pow2Monotone(0, Min(n, 10));
    Pow2Monotone(Min(n, 10), 10);
    if n < 8 {
      Pow2Monotone(n, 7);
    } else {
      Pow2Monotone(8, Min(n, 10));
    }
  }

  lemma BackoffRange(base: nat, random: nat)
    requires base >= 16
    ensures base * 1000 * 70 / 100 == 700 * base
    ensures var range := base * 1000 - base * 1000 * 70 / 100;
            range == 300 * base && 0 <= random % (if range > 1 then range else 1) < 300 * base
  {
  }

  /**
    Every wait lies between 70 % and 100 % of the base, and up to the cap any wait is shorter than any wait after one
    more failure.
   */
  lemma BackoffBounds(n: nat, random: nat, later: nat)
    ensures 700 * BackoffBase(n) <= BackoffMillis(n, random) < 1000 * BackoffBase(n)
    ensures n < 8 ==> BackoffMillis(n, random) < BackoffMillis(n + 1, later)
  {
    BackoffBaseShape(n);
    BackoffBaseShape(n + 1);
    BackoffRange(BackoffBase(n), random);
    BackoffRange(BackoffBase(n + 1), later);
  }

  lemma SmallDraw(extra: nat, range: nat)
    requires extra < range
    ensures extra % range == extra
  {
  }

  /** Every wait from 70 % of the base up to the base is drawn by some draw, the very one in excess of the 70 %. */
  lemma EveryWaitCanBeDrawn(n: nat, extra: nat)
    requires extra < 300 * BackoffBase(n)
    ensures BackoffMillis(n, extra) == 700 * BackoffBase(n) + extra
  {
    BackoffBaseShape(n);
    BackoffRange(BackoffBase(n), extra);
    var range := BackoffBase(n) * 1000 - BackoffBase(n) * 1000 * 70 / 100;
    SmallDraw(extra, range);
  }
}
