/**
 * The two number sources the engine draws from (PredictiveGeneration.java and
 * RandomGeneration.java). The dungeon itself consumes the stream of values a
 * source returns; these classes say what streams each source can return.
 */
module NumberSources {
  import opened Outcomes
  import opened Points

  /**
   * A scripted source. Built from varargs it replays the values in order and
   * fails past the end. Built from a list (`isRestart`), it replays all but the
   * last value and from then on returns a random 0 or 1 without advancing.
   * Values are returned as given, whatever range the caller asks for.
   */
  class PredictiveGeneration {
    const predictiveValues: seq<int>
    const isRestart: bool
    var index: int

    /** PredictiveGeneration(Integer...): replay only. */
    constructor FromValues(values: seq<int>)
      ensures predictiveValues == values && !isRestart && index == 0
    {
      predictiveValues := values;
      isRestart := false;
      index := 0;
    }

    /** PredictiveGeneration(List): replay, then coin flips from the last position on. */
    constructor FromList(values: seq<int>)
      ensures predictiveValues == values && isRestart && index == 0
    {
      predictiveValues := values;
      isRestart := true;
      index := 0;
    }

    method GetIntInRange(minimumBound: int, maximumBound: int) returns (r: Result<int>)
      modifies this`index
      ensures isRestart && old(index) == |predictiveValues| - 1 ==>
        r.Ok? && 0 <= r.value <= 1 && index == old(index)
      ensures !(isRestart && old(index) == |predictiveValues| - 1) && 0 <= old(index) < |predictiveValues| ==>
        r == Ok(predictiveValues[old(index)]) && index == old(index) + 1
      ensures !(isRestart && old(index) == |predictiveValues| - 1) && !(0 <= old(index) < |predictiveValues|) ==>
        r == Err(IndexOutOfBounds) && index == old(index)
    {
      if index == |predictiveValues| - 1 && isRestart {
        var coin :| 0 <= coin <= 1;
        return Ok(coin);
      }
      if !(0 <= index < |predictiveValues|) {
        return Err(IndexOutOfBounds);
      }
      r := Ok(predictiveValues[index]);
      index := index + 1;
    }
  }

  /** In list mode the last value is never returned: the index never passes it. */
  method ListModeNeverReachesLast(values: seq<int>, calls: nat) returns (got: seq<int>)
    requires |values| >= 1
    ensures |got| == calls
    ensures forall k :: 0 <= k < calls && k < |values| - 1 ==> got[k] == values[k]
    ensures forall k :: |values| - 1 <= k < calls ==> got[k] == 0 || got[k] == 1
  {
    var source := new PredictiveGeneration.FromList(values);
    got := [];
    while |got| < calls
      invariant |got| <= calls
      invariant source.index == if |got| < |values| - 1 then |got| else |values| - 1
      invariant source.predictiveValues == values && source.isRestart
      invariant forall k :: 0 <= k < |got| && k < |values| - 1 ==> got[k] == values[k]
      invariant forall k :: |values| - 1 <= k < |got| ==> got[k] == 0 || got[k] == 1
    {
      var r := source.GetIntInRange(0, 1);
      got := got + [r.value];
    }
  }

  /**
   * The random source: `min + nextInt(max - min + 1)` in Java `int` arithmetic,
   * each result appended to a log. java.util.Random itself is not modelled: the
   * value is any one in range.
   */
  class RandomGeneration {
    var randomValues: seq<int>

    constructor ()
      ensures randomValues == []
    {
      randomValues := [];
    }

    method GetIntInRange(minimumBound: int, maximumBound: int) returns (r: Result<int>)
      requires IsInt32(minimumBound) && IsInt32(maximumBound)
      modifies this`randomValues
      ensures 0 < maximumBound - minimumBound + 1 < 0x8000_0000 ==>
        r.Ok? && minimumBound <= r.value <= maximumBound
      ensures Wrap32(maximumBound - minimumBound + 1) <= 0 <==> r == Err(IllegalArgument(NonPositiveBound))
      ensures r.Ok? ==> randomValues == old(randomValues) + [r.value]
      ensures r.Err? ==> randomValues == old(randomValues)
    {
      var bound := Wrap32(maximumBound - minimumBound + 1);
      if bound <= 0 {
        return Err(IllegalArgument(NonPositiveBound));
      }
      var k :| 0 <= k < bound;
      var res := Wrap32(minimumBound + k);
      randomValues := randomValues + [res];
      r := Ok(res);
    }

    /** getRandomValuesList: the values returned so far, in call order, as a copy. */
    function RandomValuesList(): seq<int>
      reads this
    {
      randomValues
    }
  }

  /** The log holds one entry per successful draw, in order. */
  method LogRecordsEveryDraw(ranges: seq<(int, int)>) returns (got: seq<int>, log: seq<int>)
    requires forall k :: 0 <= k < |ranges| ==>
      IsInt32(ranges[k].0) && IsInt32(ranges[k].1) && 0 < ranges[k].1 - ranges[k].0 + 1 < 0x8000_0000
    ensures log == got && |got| == |ranges|
    ensures forall k :: 0 <= k < |ranges| ==> ranges[k].0 <= got[k] <= ranges[k].1
  {
    var source := new RandomGeneration();
    got := [];
    while |got| < |ranges|
      invariant |got| <= |ranges|
      invariant source.randomValues == got
      invariant forall k :: 0 <= k < |got| ==> ranges[k].0 <= got[k] <= ranges[k].1
    {
      var lo, hi := ranges[|got|].0, ranges[|got|].1;
      var r := source.GetIntInRange(lo, hi);
      got := got + [r.value];
    }
    log := source.RandomValuesList();
  }
}
