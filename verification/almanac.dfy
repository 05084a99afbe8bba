/** The seed almanac: a chain of interval-remapping stages.
    Each stage holds its rules in insertion order and an optional next stage;
    a value is translated by the first rule of a stage that covers it (or passes
    through unchanged) and then handed to the next stage. */
module Almanac {
  import opened Outcomes

  /** The exceptions the stage code can raise. */
  datatype Error =
    | ArgumentOutOfRange   // a rule asked to translate a value it does not cover,
                           // or a degree of parallelism of 0 (no seed ranges)
    | InvalidOperation     // the minimum of an empty collection

  /** `long.MaxValue`, the starting point of the running minimum. */
  const LongMaxValue: int := 0x7FFF_FFFF_FFFF_FFFF

  /** One rule: the half-open source interval [inputStart, inputStart + span)
      moved so that it starts at outputStart. */
  datatype Range = Range(outputStart: int, inputStart: int, span: int)
  {
    predicate HasInput(input: int) {
      input >= inputStart && input < inputStart + span
    }

    /** Translates a covered value; an uncovered one is an error. */
    function GetOutput(input: int): (r: Result<int, Error>)
      ensures r.Success? <==> HasInput(input)
      ensures r.Failure? ==> r.error == ArgumentOutOfRange
      ensures r.Success? ==> outputStart <= r.value < outputStart + span
      ensures r.Success? ==> r.value - outputStart == input - inputStart
    {
      if !HasInput(input) then Failure(ArgumentOutOfRange)
      else Success(outputStart + (input - inputStart))
    }
  }

  /** The lower bound of a rule is covered, the upper bound is not, and the
      lower bound is translated to the start of the output interval. */
  lemma RangeBoundaries(range: Range)
    requires range.span > 0
    ensures range.HasInput(range.inputStart)
    ensures !range.HasInput(range.inputStart + range.span)
    ensures !range.HasInput(range.inputStart - 1)
    ensures range.GetOutput(range.inputStart) == Success(range.outputStart)
    ensures range.GetOutput(range.inputStart + range.span).Failure?
  {
  }

  /** The two cases of the original unit test for GetOutput. */
  lemma GetOutputIsCorrectFirst()
    ensures Range(0, 0, 1).GetOutput(0) == Success(0)
  {
  }

  lemma GetOutputIsCorrectSecond()
    ensures Range(0, 0, 2).GetOutput(1) == Success(1)
  {
  }

  /** The first rule, in insertion order, that covers `input`; None stands
      for the null that FirstOrDefault returns. */
  function FirstOrDefault(ranges: seq<Range>, input: int): (r: Option<Range>)
    ensures r.Some? ==> r.value in ranges && r.value.HasInput(input)
  {
    if ranges == [] then None
    else if ranges[0].HasInput(input) then Some(ranges[0])
    else FirstOrDefault(ranges[1..], input)
  }

  /** FirstOrDefault finds the first covering rule, and nothing when no rule
      covers the input. */
  lemma {:induction false} FirstOrDefaultIsFirstMatch(ranges: seq<Range>, input: int)
    ensures (forall j :: 0 <= j < |ranges| ==> !ranges[j].HasInput(input)) ==> FirstOrDefault(ranges, input) == None
    ensures forall i :: 0 <= i < |ranges| && ranges[i].HasInput(input) &&
                        (forall j :: 0 <= j < i ==> !ranges[j].HasInput(input)) ==>
                          FirstOrDefault(ranges, input) == Some(ranges[i])
  {
    if ranges != [] {
      FirstOrDefaultIsFirstMatch(ranges[1..], input);
      forall i | 0 <= i < |ranges| && ranges[i].HasInput(input) && (forall j :: 0 <= j < i ==> !ranges[j].HasInput(input))
        ensures FirstOrDefault(ranges, input) == Some(ranges[i])
      {
        if i > 0 {
          assert !ranges[0].HasInput(input);
          assert ranges[1..][i - 1] == ranges[i];
          forall j | 0 <= j < i - 1 ensures !ranges[1..][j].HasInput(input) {
            assert ranges[1..][j] == ranges[j + 1];
          }
        }
      }
      if forall j :: 0 <= j < |ranges| ==> !ranges[j].HasInput(input) {
        assert !ranges[0].HasInput(input);
        forall j | 0 <= j < |ranges| - 1 ensures !ranges[1..][j].HasInput(input) {
          assert ranges[1..][j] == ranges[j + 1];
        }
      }
    }
  }

  /** What one stage makes of `input`, before handing it to the next stage: the
      first covering rule translates it, and with no such rule it passes
      through unchanged. */
  function StageOutput(ranges: seq<Range>, input: int): int {
    match FirstOrDefault(ranges, input)
    case None => input
    case Some(range) => range.GetOutput(input).value
  }

  /** One stage is the identity where no rule covers the input, and otherwise
      the translation by the first covering rule, even when later rules
      overlap it. */
  lemma StageOutputIsFirstMatch(ranges: seq<Range>, input: int)
    ensures (forall j :: 0 <= j < |ranges| ==> !ranges[j].HasInput(input)) ==> StageOutput(ranges, input) == input
    ensures forall i :: 0 <= i < |ranges| && ranges[i].HasInput(input) &&
                        (forall j :: 0 <= j < i ==> !ranges[j].HasInput(input)) ==>
                          StageOutput(ranges, input) == ranges[i].outputStart + (input - ranges[i].inputStart)
  {
    FirstOrDefaultIsFirstMatch(ranges, input);
  }

  /** A chain of stages, first stage first, applied one after the other. */
  function Chain(stages: seq<seq<Range>>, input: int): int
  {
    if stages == [] then input else Chain(stages[1..], StageOutput(stages[0], input))
  }

  /** Running a chain split in two is running the first part, then the second. */
  lemma {:induction false} ChainAppend(front: seq<seq<Range>>, back: seq<seq<Range>>, input: int)
    ensures Chain(front + back, input) == Chain(back, Chain(front, input))
  {
    if front == [] {
      assert front + back == back;
    } else {
      assert (front + back)[1..] == front[1..] + back;
      ChainAppend(front[1..], back, StageOutput(front[0], input));
    }
  }

  /** One stage of the almanac. Stages are built last-first: each new stage is
      given the stage that follows it, and its rules are appended afterwards. */
  class Map {
    var ranges: seq<Range>
    var next: Map?
    ghost var Repr: set<object>

    ghost predicate Valid()
      reads this, Repr
      decreases Repr
    {
      this in Repr &&
      (next != null ==>
        next in Repr && next.Repr <= Repr && this !in next.Repr && next.Valid())
    }

    /** The rule lists of this stage and all stages after it, in chain order. */
    ghost function Stages(): (s: seq<seq<Range>>)
      reads this, Repr
      requires Valid()
      decreases Repr
      ensures |s| >= 1 && s[0] == ranges
    {
      [ranges] + if next == null then [] else next.Stages()
    }

    constructor (next: Map?)
      requires next != null ==> next.Valid()
      ensures Valid() && fresh(this)
      ensures this.next == next && ranges == []
      ensures Repr == {this} + if next == null then {} else next.Repr
      ensures Stages() == [[]] + if next == null then [] else next.Stages()
    {
      this.ranges := [];
      this.next := next;
      this.Repr := {this} + if next == null then {} else next.Repr;
    }

    /** Appends a rule after the existing ones; the rest of the chain is untouched. */
    method AddRange(range: Range)
      requires Valid()
      modifies this`ranges
      ensures Valid()
      ensures ranges == old(ranges) + [range]
      ensures next == old(next) && Repr == old(Repr)
      ensures Stages() == [old(ranges) + [range]] + old(Stages())[1..]
    {
      ranges := ranges + [range];
    }

    /** Resolves `input` through this stage and every stage after it. */
    function GetResult(input: int): (r: int)
      reads this, Repr
      requires Valid()
      decreases Repr
      ensures r == Chain(Stages(), input)
    {
      var output := StageOutput(ranges, input);
      if next == null then output else next.GetResult(output)
    }
  }

  /** The location of every seed, along the chain of stages `stages`. */
  function Locations(stages: seq<seq<Range>>): int -> int {
    v => Chain(stages, v)
  }

  /** No seed in [start, start + span) has a location below `x`. */
  predicate Below(location: int -> int, x: int, start: int, span: int) {
    forall v :: start <= v < start + span ==> x <= location(v)
  }

  /** Some seed in [start, start + span) has location `x`. */
  predicate Attained(location: int -> int, x: int, start: int, span: int) {
    exists v :: start <= v < start + span && x == location(v)
  }

  /** One more step of the scan keeps Below and Attained. */
  lemma ExtendScan(location: int -> int, lowest: int, result: int, start: int, i: int)
    requires 0 <= i && result == location(start + i)
    requires Below(location, lowest, start, i)
    ensures result < lowest ==> Below(location, result, start, i + 1) && Attained(location, result, start, i + 1)
    ensures lowest <= result ==> Below(location, lowest, start, i + 1)
    ensures Attained(location, lowest, start, i) ==> Attained(location, lowest, start, i + 1)
  {
    assert start <= start + i < start + (i + 1);
  }

  /** A two-stage chain built the way the almanac is built: the last stage first,
      then the stage in front of it, each filled with AddRange. */
  method BuildExampleChain() returns (head: Map)
    ensures head.Valid()
    ensures head.Stages() == [[Range(100, 0, 10)], [Range(1000, 100, 5)]]
    ensures head.GetResult(3) == 1003 && head.GetResult(7) == 107 && head.GetResult(10) == 10
  {
    var last := new Map(null);
    last.AddRange(Range(1000, 100, 5));
    assert [] + [Range(1000, 100, 5)] == [Range(1000, 100, 5)];
    assert last.Stages() == [[Range(1000, 100, 5)]];
    head := new Map(last);
    head.AddRange(Range(100, 0, 10));
    assert [] + [Range(100, 0, 10)] == [Range(100, 0, 10)];
    assert Chain(head.Stages(), 3) == Chain([[Range(1000, 100, 5)]], 103);
    assert Chain(head.Stages(), 7) == Chain([[Range(1000, 100, 5)]], 107);
  }

  /** The per-seed-range scan: the lowest location over [start, start + span),
      starting from long.MaxValue. */
  method LowestInSeedRange(almanac: Map, start: int, span: int) returns (lowest: int)
    requires almanac.Valid()
    ensures lowest <= LongMaxValue
    ensures Below(Locations(almanac.Stages()), lowest, start, span)
    ensures lowest == LongMaxValue || Attained(Locations(almanac.Stages()), lowest, start, span)
    ensures span <= 0 ==> lowest == LongMaxValue
  {
    lowest := LongMaxValue;
    ghost var seed := start;
    var i := 0;
    while i < span
      invariant 0 <= i <= if span < 0 then 0 else span
      invariant lowest <= LongMaxValue
      invariant Below(Locations(almanac.Stages()), lowest, start, i)
      invariant lowest == LongMaxValue || (start <= seed < start + i && lowest == Locations(almanac.Stages())(seed))
      decreases span - i
    {
      var value := start + i;
      var result := almanac.GetResult(value);
      ExtendScan(Locations(almanac.Stages()), lowest, result, start, i);
      if result < lowest {
        lowest := result;
        seed := value;
      }
      i := i + 1;
    }
  }

  /** The smallest element; an empty collection has none. */
  function MinOf(xs: seq<int>): (r: Result<int, Error>)
    ensures r.Failure? <==> xs == []
    ensures r.Failure? ==> r.error == InvalidOperation
    ensures r.Success? ==> r.value in xs && forall k :: 0 <= k < |xs| ==> r.value <= xs[k]
  {
    if xs == [] then Failure(InvalidOperation)
    else match MinOf(xs[1..])
      case Failure(_) => Success(xs[0])
      case Success(m) => Success(if xs[0] < m then xs[0] else m)
  }

  /** All seed ranges scanned one after the other, each with its own running
      minimum, and the minimum of those taken at the end. The degree of
      parallelism is the number of seed ranges, and 0 is refused before any
      range is scanned. */
  method LowestOverSeedRanges(almanac: Map, seedRanges: seq<(int, int)>) returns (r: Result<int, Error>)
    requires almanac.Valid()
    ensures r.Failure? <==> seedRanges == []
    ensures r.Failure? ==> r.error == ArgumentOutOfRange
    ensures r.Success? ==> r.value <= LongMaxValue
    ensures r.Success? ==>
      forall k :: 0 <= k < |seedRanges| ==> Below(Locations(almanac.Stages()), r.value, seedRanges[k].0, seedRanges[k].1)
    ensures r.Success? ==>
      r.value == LongMaxValue ||
      exists k :: 0 <= k < |seedRanges| && Attained(Locations(almanac.Stages()), r.value, seedRanges[k].0, seedRanges[k].1)
  {
    if |seedRanges| == 0 {
      return Failure(ArgumentOutOfRange);
    }
    var lowestPerStack: seq<int> := [];
    for k := 0 to |seedRanges|
      invariant |lowestPerStack| == k
      invariant forall m :: 0 <= m < k ==> LowestOf(Locations(almanac.Stages()), seedRanges[m], lowestPerStack[m])
    {
      var lowest := LowestInSeedRange(almanac, seedRanges[k].0, seedRanges[k].1);
      assert LowestOf(Locations(almanac.Stages()), seedRanges[k], lowest);
      lowestPerStack := lowestPerStack + [lowest];
    }
    r := MinOf(lowestPerStack);
    if r.Success? {
      MinKeepsBounds(Locations(almanac.Stages()), seedRanges, lowestPerStack, r.value);
    }
  }

  /** What the scan of one seed range promises about its result `low`. */
  predicate LowestOf(location: int -> int, seedRange: (int, int), low: int) {
    low <= LongMaxValue &&
    Below(location, low, seedRange.0, seedRange.1) &&
    (low == LongMaxValue || Attained(location, low, seedRange.0, seedRange.1))
  }

  /** The minimum of the per-range minima bounds every range and is attained
      by one of them, unless it is the starting value. */
  lemma MinKeepsBounds(location: int -> int, seedRanges: seq<(int, int)>, lows: seq<int>, x: int)
    requires |lows| == |seedRanges|
    requires x in lows && forall k :: 0 <= k < |lows| ==> x <= lows[k]
    requires forall m :: 0 <= m < |lows| ==> LowestOf(location, seedRanges[m], lows[m])
    ensures x <= LongMaxValue
    ensures forall k :: 0 <= k < |seedRanges| ==> Below(location, x, seedRanges[k].0, seedRanges[k].1)
    ensures x == LongMaxValue || exists k :: 0 <= k < |seedRanges| && Attained(location, x, seedRanges[k].0, seedRanges[k].1)
  {
    forall k | 0 <= k < |seedRanges|
      ensures Below(location, x, seedRanges[k].0, seedRanges[k].1)
    {
      assert LowestOf(location, seedRanges[k], lows[k]);
      forall v | seedRanges[k].0 <= v < seedRanges[k].0 + seedRanges[k].1
        ensures x <= location(v)
      {
        assert lows[k] <= location(v);
      }
    }
    var m :| 0 <= m < |lows| && lows[m] == x;
    assert LowestOf(location, seedRanges[m], lows[m]);
  }
}
