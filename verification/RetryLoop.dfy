/** The retry loop: exponential backoff with jitter until cancellation. */
module RetryLoop {
  import opened Descriptors

  /** Durations are in nanoseconds. */
  const MILLISECOND := 1_000_000
  const INITIAL_BACKOFF: nat := 100 * MILLISECOND
  const MAX_BACKOFF: nat := 30_000 * MILLISECOND

  /** What one turn of the loop meets: the cancelled flag before and after the run of fn and
      during the sleep, whether fn called reset, and the random number drawn. */
  datatype Round = Round(
    cancelledBefore: bool, resets: bool, cancelledAfter: bool, seed: nat, cancelledInSleep: bool)

  /** A sleep: the backoff it was derived from, the bound of its jitter, and its length. */
  datatype Sleep = Sleep(backoff: nat, jitterBound: nat, length: nat)

  /** One run of fn, and the sleep after it, if there was one. */
  datatype Attempt = Attempt(reset: bool, sleep: Option<Sleep>)

  function Pow2(n: nat): (r: nat)
    ensures r > 0
  {
    if n == 0 then 1 else 2 * Pow2(n - 1)
  }

  function Min(a: nat, b: nat): nat { if a < b then a else b }

  /** Counting the returns of fn from the last run that called reset, which is number 0; without
      one, from the first run. */
  function SinceReset(rounds: seq<Round>, i: nat): nat
    requires i < |rounds|
  {
    if rounds[i].resets || i == 0 then 0 else SinceReset(rounds, i - 1) + 1
  }

  /** That is: `n` runs before it is the last one that called reset, or the first of all. */
  lemma {:induction false} SinceResetExactly(rounds: seq<Round>, i: nat, n: nat)
    requires i < |rounds|
    ensures SinceReset(rounds, i) == n <==>
      && n <= i && (n == i || rounds[i - n].resets)
      && forall k :: i - n < k <= i ==> !rounds[k].resets
    decreases i
  {
    if i > 0 && !rounds[i].resets && n > 0 { SinceResetExactly(rounds, i - 1, n - 1); }
  }

  /** The promised backoff. */
  function Backoff(n: nat): nat { Min(INITIAL_BACKOFF * Pow2(n), MAX_BACKOFF) }

  /** One doubling, capped. */
  function Doubled(backoff: nat): nat {
    if backoff < MAX_BACKOFF then Min(backoff * 2, MAX_BACKOFF) else backoff
  }

  /** The backoff doubles per return and stays between its bounds; tenths of it are exact. */
  lemma BackoffDoubles(n: nat)
    ensures Doubled(Backoff(n)) == Backoff(n + 1)
    ensures INITIAL_BACKOFF <= Backoff(n) <= MAX_BACKOFF && Backoff(n) % 10 == 0
  {
    assert INITIAL_BACKOFF * Pow2(n + 1) == 2 * (INITIAL_BACKOFF * Pow2(n));
    assert INITIAL_BACKOFF * Pow2(n) == 10 * (10 * MILLISECOND * Pow2(n));
  }

  /** Return number nine without a reset, and no earlier one, is capped. */
  lemma {:induction false} CappedFromNine(n: nat)
    ensures Backoff(n) == MAX_BACKOFF <==> n >= 9
  {
    if n > 9 {
      CappedFromNine(n - 1);
      BackoffDoubles(n - 1);
    } else {
      assert Pow2(2) == 4 && Pow2(4) == 16 && Pow2(6) == 64 && Pow2(8) == 256;
    }
  }

  /** In nanoseconds: 100, 200, 400 and 800 ms, 1.6, 3.2, 6.4, 12.8 and 25.6 s, and 30 s from then on. */
  lemma Backoffs(n: nat)
    ensures Backoff(n) ==
      if n == 0 then 100_000_000
      else if n == 1 then 200_000_000
      else if n == 2 then 400_000_000
      else if n == 3 then 800_000_000
      else if n == 4 then 1_600_000_000
      else if n == 5 then 3_200_000_000
      else if n == 6 then 6_400_000_000
      else if n == 7 then 12_800_000_000
      else if n == 8 then 25_600_000_000
      else 30_000_000_000
  {
    CappedFromNine(n);
    assert Pow2(2) == 4 && Pow2(4) == 16 && Pow2(6) == 64 && Pow2(8) == 256;
  }

  /** Uniform below n; the source's panics unless n is positive. */
  function Int64N(n: nat, seed: nat): (r: nat)
    requires n > 0
    ensures r < n
  {
    seed % n
  }

  /** The length of the sleep that a random number gives. */
  function SleepLength(backoff: nat, seed: nat): nat
    requires backoff >= 10
  {
    backoff - backoff / 10 + Int64N(backoff / 5, seed)
  }

  lemma InTenths(n: nat) returns (tenth: nat)
    ensures tenth > 0 && Backoff(n) == 10 * tenth
    ensures Backoff(n) / 10 == tenth && Backoff(n) / 5 == 2 * tenth
  {
    BackoffDoubles(n);
    tenth := Backoff(n) / 10;
    hide Backoff;
  }

  lemma LengthInTenths(tenth: nat, seed: nat)
    requires tenth > 0
    ensures 9 * tenth <= SleepLength(10 * tenth, seed) < 11 * tenth
    ensures seed < 2 * tenth ==> SleepLength(10 * tenth, seed) == 9 * tenth + seed
  {
    assert 10 * tenth / 10 == tenth && 10 * tenth / 5 == 2 * tenth;
    SmallRemainder(seed, 2 * tenth);
    hide Int64N;
  }

  lemma SmallRemainder(seed: nat, n: nat)
    requires n > 0
    ensures seed < n ==> Int64N(n, seed) == seed
  {
  }

  /** Every length from 0.9 up to, but not including, 1.1 of the backoff comes up for exactly one of
      the numbers below the jitter bound, and no other length does: the sleep is as evenly spread as
      the random numbers are. */
  lemma JitterIsSpread(n: nat, length: nat)
    ensures Backoff(n) >= 10
    ensures 9 * Backoff(n) <= 10 * length < 11 * Backoff(n) <==>
      exists seed: nat :: 5 * seed < Backoff(n) && SleepLength(Backoff(n), seed) == length
    ensures forall a: nat, b: nat ::
      5 * a < Backoff(n) && 5 * b < Backoff(n) && SleepLength(Backoff(n), a) == SleepLength(Backoff(n), b) ==> a == b
  {
    var tenth := InTenths(n);
    hide Backoff, SleepLength;
    forall seed: nat | seed < 2 * tenth ensures SleepLength(10 * tenth, seed) == 9 * tenth + seed {
      LengthInTenths(tenth, seed);
    }
    if 9 * tenth <= length < 11 * tenth {
      var seed: nat := length - 9 * tenth;
      assert SleepLength(10 * tenth, seed) == length;
    }
  }

  /** The sleep is what the attempt's place since the last reset and the number drawn call for. */
  ghost predicate Apt(s: Sleep, n: nat, seed: nat) {
    && s.backoff == Backoff(n) && s.backoff >= 10
    && 5 * s.jitterBound == s.backoff
    && s.length == SleepLength(s.backoff, seed)
    && 9 * s.backoff <= 10 * s.length < 11 * s.backoff
  }

  lemma CountOnce(rounds: seq<Round>, i: nat)
    requires i < |rounds|
    ensures SinceReset(rounds, i) == if rounds[i].resets || i == 0 then 0 else SinceReset(rounds, i - 1) + 1
  {
  }

  /** Nothing observed by turn `i` had cancelled the loop. */
  ghost predicate GoesPast(r: Round) { !r.cancelledBefore && !r.cancelledAfter && !r.cancelledInSleep }

  /** Draw the jitter and take the sleep's length. */
  method Draw(backoff: nat, seed: nat, ghost n: nat) returns (s: Sleep)
    requires backoff == Backoff(n)
    ensures Apt(s, n, seed)
  {
    ghost var tenth := InTenths(n);
    LengthInTenths(tenth, seed);
    hide Backoff;
    var jitter := Int64N(backoff / 5, seed);
    s := Sleep(backoff, backoff / 5, backoff - backoff / 10 + jitter);
  }

  /** Turn `i` was gone through to its end. */
  ghost predicate Complete(rounds: seq<Round>, i: nat, a: Attempt)
    requires i < |rounds|
  {
    && !rounds[i].cancelledBefore && !rounds[i].cancelledAfter && a.reset == rounds[i].resets
    && a.sleep.Some? && Apt(a.sleep.value, SinceReset(rounds, i), rounds[i].seed)
  }

  /** The loop over any script of turns. fn runs once per turn up to the first cancellation
      observed, and for as long as there is none. */
  method Run(rounds: seq<Round>) returns (attempts: seq<Attempt>)
    ensures |attempts| <= |rounds|
    ensures forall i :: 0 <= i < |attempts| - 1 ==> Complete(rounds, i, attempts[i]) && !rounds[i].cancelledInSleep
    ensures attempts != [] ==>
      var last := |attempts| - 1;
      && !rounds[last].cancelledBefore
      && if rounds[last].cancelledAfter then attempts[last] == Attempt(rounds[last].resets, None)
         else Complete(rounds, last, attempts[last])
    ensures |attempts| < |rounds| ==>
      rounds[|attempts|].cancelledBefore || (attempts != [] && !GoesPast(rounds[|attempts| - 1]))
  {
    assert INITIAL_BACKOFF == Backoff(0);
    hide Backoff, Apt, SinceReset;
    attempts := [];
    var backoff := INITIAL_BACKOFF;
    for i := 0 to |rounds|
      invariant |attempts| == i
      invariant forall k :: 0 <= k < i ==> Complete(rounds, k, attempts[k]) && !rounds[k].cancelledInSleep
      invariant backoff == if i == 0 then Backoff(0) else Backoff(SinceReset(rounds, i - 1) + 1)
    {
      var round := rounds[i];
      if round.cancelledBefore {
        return;
      }
      if round.resets {
        backoff := INITIAL_BACKOFF;
      }
      CountOnce(rounds, i);
      ghost var n := SinceReset(rounds, i);
      if round.cancelledAfter {
        attempts := attempts + [Attempt(round.resets, None)];
        return;
      }
      var sleep := Draw(backoff, round.seed, n);
      attempts := attempts + [Attempt(round.resets, Some(sleep))];
      if round.cancelledInSleep {
        return;
      }
      BackoffDoubles(n);
      if backoff < MAX_BACKOFF {
        backoff := backoff * 2;
        if backoff > MAX_BACKOFF {
          backoff := MAX_BACKOFF;
        }
      }
    }
  }
}
