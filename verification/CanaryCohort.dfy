/** The cohort arithmetic: which 64-bit words fall under the assignment threshold. */
module CanaryCohort {
  const WORDS := 0x1_0000_0000_0000_0000

  function Bucket(word: nat): nat {
    word % 10_000
  }

  predicate Assigned(word: nat, percent: nat) {
    Bucket(word) < percent * 100
  }

  /** How many of the first `n` words are assigned at `percent`. */
  function AssignedBelow(n: nat, percent: nat): nat {
    if n == 0 then 0 else AssignedBelow(n - 1, percent) + (if Assigned(n - 1, percent) then 1 else 0)
  }

  function Min(a: nat, b: nat): nat {
    if a <= b then a else b
  }

  lemma BucketOf(rounds: nat, rest: nat)
    requires rest < 10_000
    ensures Bucket(10_000 * rounds + rest) == rest
  {
  }

  lemma OneMoreRound(rounds: nat, size: nat)
    requires rounds > 0
    ensures rounds * size == (rounds - 1) * size + size
  {
  }

  /** Counting by whole rounds of buckets and a remainder. */
  lemma {:induction false} AssignedByRounds(rounds: nat, rest: nat, percent: nat)
    requires rest < 10_000 && percent <= 100
    ensures AssignedBelow(10_000 * rounds + rest, percent)
            == rounds * (percent * 100) + Min(rest, percent * 100)
    decreases rounds, rest
  {
    if rest > 0 {
      AssignedByRounds(rounds, rest - 1, percent);
      BucketOf(rounds, rest - 1);
    } else if rounds > 0 {
      AssignedByRounds(rounds - 1, 9_999, percent);
      BucketOf(rounds - 1, 9_999);
      OneMoreRound(rounds, percent * 100);
    }
  }

  /** A hundred times the count, over the percentage of the words: what the remainder adds. */
  lemma ExcessIsFromRemainder(rounds: nat, rest: nat, percent: nat)
    requires rest < 10_000 && percent <= 100
    ensures 100 * AssignedBelow(10_000 * rounds + rest, percent) - percent * (10_000 * rounds + rest)
            == 100 * Min(rest, percent * 100) - percent * rest
  {
    AssignedByRounds(rounds, rest, percent);
    assert percent * (10_000 * rounds + rest) == 10_000 * (percent * rounds) + percent * rest;
    assert rounds * (percent * 100) == 100 * (percent * rounds);
  }

  lemma RemainderBounds(rest: nat, percent: nat)
    requires rest < 10_000 && 0 < percent <= 100
    ensures 0 <= 100 * Min(rest, percent * 100) - percent * rest < 10_000 * percent
  {
    if rest <= percent * 100 {
      assert percent * rest <= 100 * rest;
      assert 0 <= percent * rest;
      if percent == 100 { assert percent * rest == 100 * rest; }
    } else {
      assert percent * rest <= percent * 9_999;
      assert 0 < percent * rest;
    }
    if rest > 0 { assert percent * rest >= rest; }
  }

  /** The assigned words are never fewer than the exact share and exceed it by less
      than `100 * percent` words, whatever the number of words. */
  lemma CohortShare(n: nat, percent: nat)
    requires 0 < percent <= 100
    ensures 0 <= 100 * AssignedBelow(n, percent) - percent * n < 100 * (100 * percent)
  {
    ExcessIsFromRemainder(n / 10_000, n % 10_000, percent);
    RemainderBounds(n % 10_000, percent);
    assert n == 10_000 * (n / 10_000) + n % 10_000;
  }

  /** Over all 64-bit words, at a percentage under the ceiling, the excess is exactly
      83.84 words per percent. */
  lemma CohortExcess(percent: nat)
    requires percent <= 10
    ensures 100 * AssignedBelow(WORDS, percent) - percent * WORDS == percent * 8_384
  {
    ExcessIsFromRemainder(WORDS / 10_000, 1_616, percent);
  }
}
