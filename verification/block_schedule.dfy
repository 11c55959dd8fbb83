/** The block heights a historical query samples, and the day offset
    attached to each sample. */
module BlockSchedule {

  /** Blocks the chain produces per day; one sample is taken per day. */
  const BlocksPerDay: int := 7200

  /** Python's `range(start, stop, -step)` for a positive `step`: the heights
      start, start - step, start - 2*step, ... as long as they stay above `stop`. */
  function RangeDown(start: int, stop: int, step: int): (r: seq<int>)
    requires step > 0
    ensures forall i :: 0 <= i < |r| ==> r[i] == start - i * step && r[i] > stop
    ensures start - |r| * step <= stop
    decreases if start > stop then start - stop else 0
  {
    if start <= stop then []
    else
      var rest := RangeDown(start - step, stop, step);
      assert start - (|rest| + 1) * step == (start - step) - |rest| * step;
      assert forall i :: 1 <= i < |rest| + 1 ==> (start - step) - (i - 1) * step == start - i * step;
      [start] + rest
  }

  /** `range(current_block, current_block - days * BLOCKS_PER_DAY, -BLOCKS_PER_DAY)`:
      one height per day, newest first. `days` is not validated, so a
      non-positive count gives no heights, and nothing clamps heights at zero. */
  function Schedule(current: int, days: int): (heights: seq<int>)
    ensures |heights| == if days > 0 then days else 0
    ensures forall i :: 0 <= i < |heights| ==> heights[i] == current - i * BlocksPerDay
    ensures forall i :: 0 <= i < |heights| ==>
              current - days * BlocksPerDay < heights[i] <= current
  {
    var r := RangeDown(current, current - days * BlocksPerDay, BlocksPerDay);
    assert |r| > 0 ==> r[|r| - 1] > current - days * BlocksPerDay;
    r
  }

  /** The heights are strictly descending and one day apart, starting at the
      current block. */
  lemma ScheduleShape(current: int, days: int)
    ensures days >= 1 ==> Schedule(current, days)[0] == current
    ensures forall i, j :: 0 <= i < j < |Schedule(current, days)| ==>
              Schedule(current, days)[i] > Schedule(current, days)[j]
    ensures forall i :: 0 <= i < |Schedule(current, days)| - 1 ==>
              Schedule(current, days)[i] - Schedule(current, days)[i + 1] == BlocksPerDay
  {
  }

  /** Python's `a // d` for a positive divisor: the floor of a / d, also for
      negative `a`. */
  function FloorDiv(a: int, d: int): (q: int)
    requires d > 0
    ensures q * d <= a < q * d + d
  {
    a / d
  }

  /** With the day length as divisor, the floor is the only quotient with
      that bracket. */
  lemma FloorDivUnique(a: int, q: int)
    requires q * BlocksPerDay <= a < q * BlocksPerDay + BlocksPerDay
    ensures FloorDiv(a, BlocksPerDay) == q
  {
  }

  /** `(current_block - block) // BLOCKS_PER_DAY`: how many whole days before
      the re-fetched current block a sample lies. */
  function DayOffset(observedCurrent: int, block: int): (days: int)
    ensures days * BlocksPerDay <= observedCurrent - block < days * BlocksPerDay + BlocksPerDay
  {
    FloorDiv(observedCurrent - block, BlocksPerDay)
  }

  /** If the chain advanced by `advance` blocks between the schedule being
      computed and a sample re-reading the current block, the i-th sample's
      offset is i plus the whole days of that advance; with less than a day of
      advance it is exactly i. */
  lemma SampleOffset(current: int, days: int, i: int, advance: int)
    requires 0 <= i < |Schedule(current, days)|
    ensures DayOffset(current + advance, Schedule(current, days)[i]) == i + FloorDiv(advance, BlocksPerDay)
    ensures 0 <= advance < BlocksPerDay ==> DayOffset(current + advance, Schedule(current, days)[i]) == i
  {
  }
}
