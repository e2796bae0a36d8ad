/**
 * The 1-based track pointer `musicIndex` of js/script.js and the ways it
 * moves: next and previous with wrap-around, and the random draw
 * `Math.floor(Math.random() * N) + 1` used at start-up and by shuffle.
 */
module TrackIndex {

  /** nextMusic: the following track, wrapping from the last to the first. */
  function NextIndex(i: int, n: int): (r: int)
    requires 1 <= i <= n
    ensures 1 <= r <= n
    ensures r == i % n + 1
  {
    if i < n then i + 1 else 1
  }

  /** prevMusic: the preceding track, wrapping from the first to the last. */
  function PrevIndex(i: int, n: int): (r: int)
    requires 1 <= i <= n
    ensures 1 <= r <= n
    ensures r == (i - 2) % n + 1
  {
    if i > 1 then i - 1 else n
  }

  lemma NextPrevInverse(i: int, n: int)
    requires 1 <= i <= n
    ensures PrevIndex(NextIndex(i, n), n) == i
    ensures NextIndex(PrevIndex(i, n), n) == i
  {
  }

  /** The index after k presses of the next button. */
  function Advance(i: int, n: int, k: nat): (r: int)
    requires 1 <= i <= n
    ensures 1 <= r <= n
  {
    if k == 0 then i else NextIndex(Advance(i, n, k - 1), n)
  }

  lemma {:induction false} AdvanceCompose(i: int, n: int, a: nat, b: nat)
    requires 1 <= i <= n
    ensures Advance(i, n, a + b) == Advance(Advance(i, n, a), n, b)
  {
    if b > 0 {
      AdvanceCompose(i, n, a, b - 1);
    }
  }

  lemma {:induction false} AdvanceNoWrap(i: int, n: int, k: nat)
    requires 1 <= i && i + k <= n
    ensures Advance(i, n, k) == i + k
  {
    if k > 0 {
      AdvanceNoWrap(i, n, k - 1);
    }
  }

  /** Pressing next n times in a playlist of n tracks comes back to the start. */
  lemma AdvanceFullCycle(i: int, n: int)
    requires 1 <= i <= n
    ensures Advance(i, n, n) == i
  {
    AdvanceNoWrap(i, n, n - i);
    AdvanceCompose(i, n, n - i, i);
    assert Advance(n, n, 1) == 1;
    AdvanceCompose(n, n, 1, i - 1);
    AdvanceNoWrap(1, n, i - 1);
  }

  /** `Math.floor(random * n) + 1` for a value `random` of Math.random. */
  function DrawIndex(random: real, n: int): (k: int)
    requires 0.0 <= random < 1.0 && n >= 1
    ensures 1 <= k <= n
  {
    ScaledBelow(random, n);
    (random * n as real).Floor + 1
  }

  lemma ScaledBelow(random: real, n: int)
    requires 0.0 <= random < 1.0 && n >= 1
    ensures 0.0 <= random * n as real < n as real
  {
  }

  /** Every track can be drawn: the draw (k - 1) / n lands on track k. */
  lemma DrawReachesEvery(n: int, k: int)
    requires 1 <= k <= n
    ensures 0.0 <= (k - 1) as real / n as real < 1.0
    ensures DrawIndex((k - 1) as real / n as real, n) == k
  {
  }

  /** A stream of Math.random results, each in [0, 1). */
  predicate ValidDraws(draws: seq<real>)
  {
    forall j :: 0 <= j < |draws| ==> 0.0 <= draws[j] < 1.0
  }

  /** Some draw of the stream lands on a track other than `current`, so the
      shuffle retry loop stops on it. */
  predicate LandsElsewhere(draws: seq<real>, n: int, current: int)
    requires ValidDraws(draws) && n >= 1
  {
    exists j :: 0 <= j < |draws| && DrawIndex(draws[j], n) != current
  }

  lemma LandsElsewhereTail(draws: seq<real>, n: int, current: int)
    requires ValidDraws(draws) && n >= 1 && LandsElsewhere(draws, n, current)
    requires DrawIndex(draws[0], n) == current
    ensures |draws| > 1 && ValidDraws(draws[1..]) && LandsElsewhere(draws[1..], n, current)
  {
  }

  /** The track the shuffle retry loop settles on: the first draw of the
      stream that differs from the current track. */
  function ShufflePick(draws: seq<real>, n: int, current: int): (k: int)
    requires ValidDraws(draws) && n >= 1 && LandsElsewhere(draws, n, current)
    ensures 1 <= k <= n && k != current
    decreases |draws|
  {
    var first := DrawIndex(draws[0], n);
    if first != current then first
    else
      LandsElsewhereTail(draws, n, current);
      ShufflePick(draws[1..], n, current)
  }

  /** With a single track every draw lands on it: no stream of random
      values ever stops the shuffle retry loop. */
  lemma SingleTrackShuffleNeverStops(draws: seq<real>)
    requires ValidDraws(draws)
    ensures !LandsElsewhere(draws, 1, 1)
  {
  }

  /** Shuffle can move to any track other than the current one. */
  lemma ShuffleReachesEveryOther(n: int, current: int, k: int)
    requires 1 <= current <= n && 1 <= k <= n && k != current
    ensures ValidDraws([(k - 1) as real / n as real])
    ensures LandsElsewhere([(k - 1) as real / n as real], n, current)
    ensures ShufflePick([(k - 1) as real / n as real], n, current) == k
  {
    DrawReachesEvery(n, k);
    var draws := [(k - 1) as real / n as real];
    assert DrawIndex(draws[0], n) == k;
  }

  /** The do-while retry loop of handleSongEnded in shuffle mode: draw
      until the track differs from `current`. */
  method DrawOther(draws: seq<real>, n: int, current: int) returns (randIndex: int)
    requires ValidDraws(draws) && n >= 1 && LandsElsewhere(draws, n, current)
    ensures randIndex == ShufflePick(draws, n, current)
  {
    var j := 0;
    randIndex := DrawIndex(draws[j], n);
    while current == randIndex
      invariant 0 <= j < |draws|
      invariant ValidDraws(draws[j..]) && LandsElsewhere(draws[j..], n, current)
      invariant randIndex == DrawIndex(draws[j], n)
      invariant ShufflePick(draws[j..], n, current) == ShufflePick(draws, n, current)
      decreases |draws| - j
    {
      LandsElsewhereTail(draws[j..], n, current);
      assert draws[j..][1..] == draws[j + 1..];
      j := j + 1;
      randIndex := DrawIndex(draws[j], n);
    }
  }
}
