/** The boat race: holding the button for `hold` milliseconds of a race that
    lasts `time` milliseconds travels (time - hold) * hold millimetres. */
module BoatRace {

  datatype Race = Race(time: int, distance: int)

  /** Holding for `hold` beats the record `distance`. */
  predicate Wins(time: int, distance: int, hold: int) {
    (time - hold) * hold > distance
  }

  /** `i0` is the first winning hold time at or after `from` and before `time`. */
  predicate IsFirstWin(time: int, distance: int, from: int, i0: int) {
    from <= i0 < time && Wins(time, distance, i0) &&
    forall h :: from <= h < i0 ==> !Wins(time, distance, h)
  }

  /** The search of GetPossibilities, resumed at hold time `i`. */
  function SearchFrom(distance: int, time: int, i: int): (r: int)
    decreases time - i
    ensures (forall h :: i <= h < time ==> !Wins(time, distance, h)) ==> r == 0
    ensures forall i0 :: IsFirstWin(time, distance, i, i0) ==> r == time - 2 * i0 + 1
  {
    if i >= time then 0
    else if (time - i) * i > distance then assert Wins(time, distance, i); time - i - i + 1
    else
      assert forall i0 :: IsFirstWin(time, distance, i, i0) ==> IsFirstWin(time, distance, i + 1, i0);
      SearchFrom(distance, time, i + 1)
  }

  /** The value GetPossibilities returns: 0 when no hold time in [0, time)
      wins, and otherwise time - 2 * i0 + 1 for the first winning i0. */
  function Possibilities(distance: int, time: int): (r: int)
    ensures (forall h :: 0 <= h < time ==> !Wins(time, distance, h)) ==> r == 0
    ensures forall i0 :: IsFirstWin(time, distance, 0, i0) ==> r == time - 2 * i0 + 1
  {
    SearchFrom(distance, time, 0)
  }

  /** The loop with an early return, as written. */
  method GetPossibilities(distance: int, time: int) returns (r: int)
    ensures r == Possibilities(distance, time)
  {
    var i := 0;
    while i < time
      invariant 0 <= i
      invariant SearchFrom(distance, time, i) == Possibilities(distance, time)
      decreases time - i
    {
      var timeRemaining := time - i;
      if timeRemaining * i > distance {
        return timeRemaining - i + 1;
      }
      i := i + 1;
    }
    return 0;
  }

  /** The distance travelled is symmetric about time / 2. */
  lemma WinsSymmetric(time: int, distance: int, h: int)
    ensures Wins(time, distance, h) <==> Wins(time, distance, time - h)
  {
    assert (time - (time - h)) * (time - h) == (time - h) * h;
  }

  /** Between i0 and time - i0 the distance is at least that of i0. */
  lemma DistanceGrowsInward(time: int, i0: int, h: int)
    requires i0 <= h <= time - i0
    ensures (time - h) * h >= (time - i0) * i0
  {
    assert (time - h) * h - (time - i0) * i0 == (h - i0) * (time - h - i0);
    assert (h - i0) * (time - h - i0) >= 0;
  }

  /** With a non-negative record, the winning hold times are exactly those in
      [i0, time - i0], where i0 is the first one; that interval is non-empty
      and does not contain 0. */
  lemma WinningInterval(time: int, distance: int, i0: int)
    requires distance >= 0 && IsFirstWin(time, distance, 0, i0)
    ensures 1 <= i0 <= time - i0
    ensures forall h :: Wins(time, distance, h) <==> i0 <= h <= time - i0
  {
    assert !Wins(time, distance, 0);
    WinsSymmetric(time, distance, i0);
    forall h
      ensures Wins(time, distance, h) <==> i0 <= h <= time - i0
    {
      if i0 <= h <= time - i0 {
        DistanceGrowsInward(time, i0, h);
      } else if 0 <= h < i0 {
        assert !Wins(time, distance, h);
      } else if time - i0 < h <= time {
        WinsSymmetric(time, distance, h);
        assert !Wins(time, distance, time - h);
      } else if h < 0 {
        assert time - h > 0;
        assert (time - h) * h < 0;
      } else {
        assert time - h < 0 && h > 0;
        assert (time - h) * h < 0;
      }
    }
  }

  /** The integers in [lo, hi]. */
  function Interval(lo: int, hi: int): (s: set<int>)
    decreases hi - lo
  {
    if lo > hi then {} else Interval(lo, hi - 1) + {hi}
  }

  lemma {:induction false} IntervalContents(lo: int, hi: int)
    ensures forall x :: x in Interval(lo, hi) <==> lo <= x <= hi
    ensures lo <= hi + 1 ==> |Interval(lo, hi)| == hi - lo + 1
    decreases hi - lo
  {
    if lo <= hi {
      IntervalContents(lo, hi - 1);
    }
  }

  /** For a non-negative record, the value returned is the number of winning
      hold times. */
  lemma PossibilitiesCountsWins(distance: int, time: int)
    requires distance >= 0
    ensures Possibilities(distance, time) == |set h | 0 <= h < time && Wins(time, distance, h)|
  {
    var wins := set h | 0 <= h < time && Wins(time, distance, h);
    if forall h :: 0 <= h < time ==> !Wins(time, distance, h) {
      assert wins == {};
    } else {
      var i0 := FirstWin(time, distance, 0);
      WinningInterval(time, distance, i0);
      IntervalContents(i0, time - i0);
      assert wins == Interval(i0, time - i0);
    }
  }

  /** The first winning hold time at or after `from`, when one exists. */
  lemma FirstWin(time: int, distance: int, from: int) returns (i0: int)
    requires exists h :: from <= h < time && Wins(time, distance, h)
    ensures IsFirstWin(time, distance, from, i0)
    decreases time - from
  {
    if Wins(time, distance, from) {
      i0 := from;
    } else {
      i0 := FirstWin(time, distance, from + 1);
    }
  }

  /** The product fold from `acc`: `acc` times the possibilities of every race. */
  function Aggregate(acc: int, races: seq<Race>): int
    decreases |races|
  {
    if races == [] then acc
    else Aggregate(acc * Possibilities(races[0].distance, races[0].time), races[1..])
  }

  /** The answer: the product of the possibilities of all races. */
  function Product(races: seq<Race>): int {
    Aggregate(1, races)
  }

  /** A fold that starts from a non-zero value reaches zero exactly when some
      race has no winning hold time. */
  lemma {:induction false} AggregateIsZero(acc: int, races: seq<Race>)
    ensures Aggregate(acc, races) == 0 <==>
      acc == 0 || exists k :: 0 <= k < |races| && Possibilities(races[k].distance, races[k].time) == 0
    decreases |races|
  {
    if races != [] {
      var p := Possibilities(races[0].distance, races[0].time);
      AggregateIsZero(acc * p, races[1..]);
      assert acc * p == 0 <==> acc == 0 || p == 0;
      forall k | 0 <= k < |races[1..]|
        ensures races[1..][k] == races[k + 1]
      {
      }
    }
  }

  lemma ProductIsZero(races: seq<Race>)
    ensures Product(races) == 0 <==>
      exists k :: 0 <= k < |races| && Possibilities(races[k].distance, races[k].time) == 0
  {
    AggregateIsZero(1, races);
  }

  /** On the rising half of the curve, the first winning hold time is the one
      where the distance first exceeds the record. */
  lemma FirstWinAtCrossing(time: int, distance: int, i0: int)
    requires 1 <= i0 < time && 2 * i0 <= time + 1
    requires Wins(time, distance, i0) && !Wins(time, distance, i0 - 1)
    ensures IsFirstWin(time, distance, 0, i0)
    ensures Possibilities(distance, time) == time - 2 * i0 + 1
  {
    forall h | 0 <= h < i0
      ensures !Wins(time, distance, h)
    {
      DistanceGrowsInward(time, h, i0 - 1);
      assert (time - h) * h <= (time - (i0 - 1)) * (i0 - 1);
    }
    assert IsFirstWin(time, distance, 0, i0);
  }

  /** The possibilities of the four races of the original test. */
  lemma PuzzlePossibilities()
    ensures Possibilities(411, 63) == 48
    ensures Possibilities(1274, 78) == 31
    ensures Possibilities(2047, 94) == 25
    ensures Possibilities(1035, 68) == 21
  {
    assert (63 - 8) * 8 == 440 && (63 - 7) * 7 == 392;
    FirstWinAtCrossing(63, 411, 8);
    assert (78 - 24) * 24 == 1296 && (78 - 23) * 23 == 1265;
    FirstWinAtCrossing(78, 1274, 24);
    assert (94 - 35) * 35 == 2065 && (94 - 34) * 34 == 2040;
    FirstWinAtCrossing(94, 2047, 35);
    assert (68 - 24) * 24 == 1056 && (68 - 23) * 23 == 1035;
    FirstWinAtCrossing(68, 1035, 24);
  }

  /** The answer the original test expects for its four races. */
  lemma PuzzleAnswer()
    ensures Product([Race(63, 411), Race(78, 1274), Race(94, 2047), Race(68, 1035)]) == 781200
  {
    PuzzlePossibilities();
    var races := [Race(63, 411), Race(78, 1274), Race(94, 2047), Race(68, 1035)];
    assert races[1..] == [Race(78, 1274), Race(94, 2047), Race(68, 1035)];
    assert races[1..][1..] == [Race(94, 2047), Race(68, 1035)];
    assert races[1..][1..][1..] == [Race(68, 1035)];
    assert Aggregate(1, races) == Aggregate(48, races[1..]);
    assert Aggregate(48, races[1..]) == Aggregate(1488, races[1..][1..]);
    assert Aggregate(1488, races[1..][1..]) == Aggregate(37200, races[1..][1..][1..]);
    assert Aggregate(37200, races[1..][1..][1..]) == 781200;
  }
}
