/** The two history endpoints: sample one block per day, query each sample
    concurrently, and turn the answers into records, all inside one scope of
    the request's connection manager. */
module Routers {
  import opened Outcomes
  import opened BlockSchedule
  import opened Stake
  import SubtensorManager

  /** One sample: the block it was taken at, how many days before the chain
      head it lies (the source subtracts this many days from the wall clock),
      and the measured amount in the chain's smallest unit. */
  datatype HistoricalData = HistoricalData(blockNumber: int, dayOffset: int, value: int)

  /** What one per-block task reads from the chain: the queried amount (or
      stake entries) at that block, and the current block height re-read
      afterwards. */
  datatype Reply<T> = Reply(value: T, current: int)

  /** The wall clock at request time, reduced to what the day arithmetic can
      observe: how many calendar days separate today from the first day
      `datetime` can represent (1 January of year 1) and from the last
      (31 December 9999). */
  datatype Clock = Clock(daysSinceMin: nat, daysUntilMax: nat)

  /** The largest day count a `timedelta` accepts. */
  const MaxTimedeltaDays: int := 999999999

  /** `datetime.now() - timedelta(days=offset)` is computed without
      `OverflowError`. */
  predicate Representable(clock: Clock, offset: int) {
    && -MaxTimedeltaDays <= offset <= MaxTimedeltaDays
    && 0 - clock.daysUntilMax as int <= offset <= clock.daysSinceMin
  }

  /** The task for `block` returns: its query succeeded and the resulting
      timestamp can be represented. */
  predicate SampleSucceeds<T>(chain: int -> Result<Reply<T>>, clock: Clock, block: int) {
    chain(block).Ok? && Representable(clock, DayOffset(chain(block).value.current, block))
  }

  /** `asyncio.gather(*tasks)` without `return_exceptions`: every result, in
      task order, or an error as soon as any task raised. Which failing
      task's error surfaces depends on timing; the model takes the first in
      task order. */
  function Gather<T>(tasks: seq<Result<T>>): (r: Result<seq<T>>)
    ensures r.Ok? <==> forall i :: 0 <= i < |tasks| ==> tasks[i].Ok?
    ensures r.Ok? ==> |r.value| == |tasks| && forall i :: 0 <= i < |tasks| ==> r.value[i] == tasks[i].value
    ensures r.Err? ==> exists i :: 0 <= i < |tasks| && tasks[i] == Err(r.error)
  {
    if |tasks| == 0 then Ok([])
    else
      match tasks[0]
      case Err(e) => Err(e)
      case Ok(v) =>
        match Gather(tasks[1..])
        case Err(e) => Err(e)
        case Ok(vs) => Ok([v] + vs)
  }

  /** `_get_balance_at_block` / `_get_stake_at_block`: the chain's answer at
      `block`, reduced to one amount by `measure`, with the day offset taken
      against the re-read current block. A query error propagates; an offset
      that puts the timestamp outside `datetime`'s range raises
      `OverflowError`. */
  function AtBlock<T>(chain: int -> Result<Reply<T>>, clock: Clock, measure: T -> int, block: int)
    : (r: Result<(int, int, int)>)
    ensures r.Ok? <==> SampleSucceeds(chain, clock, block)
    ensures r.Err? ==> r.error == if chain(block).Err? then chain(block).error else OverflowError
    ensures r.Ok? ==> r.value == (block, DayOffset(chain(block).value.current, block), measure(chain(block).value.value))
  {
    match chain(block)
    case Err(e) => Err(e)
    case Ok(reply) =>
      var offset := DayOffset(reply.current, block);
      if Representable(clock, offset) then Ok((block, offset, measure(reply.value)))
      else Err(OverflowError)
  }

  /** The record built from one task result. */
  function ToRecord(sample: (int, int, int)): HistoricalData {
    HistoricalData(sample.0, sample.1, sample.2)
  }

  /** A failed task for `block` raises this error. */
  ghost predicate FailsWith<T>(chain: int -> Result<Reply<T>>, clock: Clock, block: int, e: ErrorKind) {
    !SampleSucceeds(chain, clock, block) && e == if chain(block).Err? then chain(block).error else OverflowError
  }

  /** One task per height, gathered, then one record per task result:
      `[HistoricalData(...) for block, timestamp, value in results]`. */
  function SampleBlocks<T>(blocks: seq<int>, chain: int -> Result<Reply<T>>, clock: Clock, measure: T -> int)
    : (r: Result<seq<HistoricalData>>)
    ensures r.Ok? <==> forall i :: 0 <= i < |blocks| ==> SampleSucceeds(chain, clock, blocks[i])
    ensures r.Ok? ==> |r.value| == |blocks|
    ensures r.Ok? ==> forall i :: 0 <= i < |blocks| ==>
              r.value[i] == HistoricalData(blocks[i], DayOffset(chain(blocks[i]).value.current, blocks[i]),
                                           measure(chain(blocks[i]).value.value))
    ensures r.Err? ==> exists i :: 0 <= i < |blocks| && FailsWith(chain, clock, blocks[i], r.error)
  {
    var tasks := seq(|blocks|, i requires 0 <= i < |blocks| => AtBlock(chain, clock, measure, blocks[i]));
    assert forall i :: 0 <= i < |blocks| ==> tasks[i] == AtBlock(chain, clock, measure, blocks[i]);
    var gathered := Gather(tasks);
    if gathered.Err? then Err(gathered.error)
    else
      var samples := gathered.value;
      assert forall i :: 0 <= i < |blocks| ==> tasks[i].Ok?;
      Ok(seq(|samples|, i requires 0 <= i < |samples| => ToRecord(samples[i])))
  }

  /** The body both handlers share once they hold a connection: read the
      current block, sample the schedule, gather, and build the records. */
  function History<T>(current: Result<int>, days: int, chain: int -> Result<Reply<T>>, clock: Clock,
                      measure: T -> int)
    : (r: Result<seq<HistoricalData>>)
    ensures current.Err? ==> r == Err(current.error)
    ensures r.Ok? ==> current.Ok?
    ensures current.Ok? ==>
              (r.Ok? <==> forall b :: b in Schedule(current.value, days) ==> SampleSucceeds(chain, clock, b))
    ensures r.Ok? ==> |r.value| == |Schedule(current.value, days)|
    ensures r.Ok? ==> forall i :: 0 <= i < |r.value| ==>
              var b := Schedule(current.value, days)[i];
              && chain(b).Ok?
              && r.value[i] == HistoricalData(b, DayOffset(chain(b).value.current, b), measure(chain(b).value.value))
    ensures r.Err? && current.Ok? ==>
              exists b :: b in Schedule(current.value, days) && FailsWith(chain, clock, b, r.error)
  {
    match current
    case Err(e) => Err(e)
    case Ok(c) => SampleBlocks(Schedule(c, days), chain, clock, measure)
  }

  /** `get_historical_balance`, given a connection: the free balance at each
      sampled block. */
  function HistoricalBalance(current: Result<int>, days: int, chain: int -> Result<Reply<int>>, clock: Clock)
    : (r: Result<seq<HistoricalData>>)
    ensures current.Ok? ==>
              (r.Ok? <==> forall b :: b in Schedule(current.value, days) ==> SampleSucceeds(chain, clock, b))
    ensures r.Ok? ==> current.Ok? && |r.value| == |Schedule(current.value, days)|
    ensures r.Ok? ==> forall i :: 0 <= i < |r.value| ==>
              var b := Schedule(current.value, days)[i];
              chain(b).Ok? && r.value[i].blockNumber == b && r.value[i].value == chain(b).value.value
  {
    History(current, days, chain, clock, balance => balance)
  }

  /** `get_historical_stake`, given a connection: the root-subnet stake at each
      sampled block. */
  function HistoricalStake(current: Result<int>, days: int, chain: int -> Result<Reply<seq<StakeInfo>>>,
                           clock: Clock)
    : (r: Result<seq<HistoricalData>>)
    ensures current.Ok? ==>
              (r.Ok? <==> forall b :: b in Schedule(current.value, days) ==> SampleSucceeds(chain, clock, b))
    ensures r.Ok? ==> current.Ok? && |r.value| == |Schedule(current.value, days)|
    ensures r.Ok? ==> forall i :: 0 <= i < |r.value| ==>
              var b := Schedule(current.value, days)[i];
              chain(b).Ok? && r.value[i].blockNumber == b && r.value[i].value == RootStake(chain(b).value.value)
  {
    History(current, days, chain, clock, RootStake)
  }

  /** The body's result as the scope sees it: returned normally or raised. */
  function AsCompletion<T>(r: Result<T>): (c: Completion)
    ensures c.Normal? <==> r.Ok?
  {
    match r
    case Ok(_) => Normal
    case Err(e) => Raised(e)
  }

  /** A whole request to one of the history endpoints: a fresh manager, the
      handler body inside one scope of it, and `close()` at the end. The
      records reach the caller only when the connection was acquired and every
      task succeeded; the manager always ends empty. */
  function Serve<T>(networkVariable: Option<string>, env: SubtensorManager.Env, current: Result<int>, days: int,
                    chain: int -> Result<Reply<T>>, clock: Clock, measure: T -> int)
    : (r: (SubtensorManager.Manager, Result<seq<HistoricalData>>))
    ensures r.0.stored.None?
    ensures r.1.Ok? <==> SubtensorManager.FreshAcquireSucceeds(env) && History(current, days, chain, clock, measure).Ok?
    ensures r.1.Ok? ==> r.1 == History(current, days, chain, clock, measure)
  {
    var body := History(current, days, chain, clock, measure);
    var request := SubtensorManager.Request(networkVariable, env, AsCompletion(body));
    (request.0, if request.1.Normal? then body else Err(request.1.kind))
  }

  /** The records follow the schedule: the first is at the current block, the
      block numbers strictly descend one day apart, and every one lies in the
      look-back window. */
  lemma RecordsFollowSchedule<T>(current: Result<int>, days: int, chain: int -> Result<Reply<T>>, clock: Clock,
                                  measure: T -> int)
    requires History(current, days, chain, clock, measure).Ok?
    ensures var records := History(current, days, chain, clock, measure).value;
            && |records| == (if days > 0 then days else 0)
            && (days > 0 ==> records[0].blockNumber == current.value)
            && (forall i, j :: 0 <= i < j < |records| ==> records[i].blockNumber > records[j].blockNumber)
            && (forall i :: 0 <= i < |records| - 1 ==>
                  records[i].blockNumber - records[i + 1].blockNumber == BlocksPerDay)
            && (forall i :: 0 <= i < |records| ==>
                  current.value - days * BlocksPerDay < records[i].blockNumber <= current.value)
  {
  }

  /** If every task re-reads a current block `advance` blocks past the one the
      schedule was built from, the i-th record lies `i + advance // 7200` days
      back, that is exactly i days when the chain moved less than a day. */
  lemma RecordOffsets<T>(current: Result<int>, days: int, chain: int -> Result<Reply<T>>, clock: Clock,
                         measure: T -> int, advance: int)
    requires History(current, days, chain, clock, measure).Ok?
    requires forall b :: b in Schedule(current.value, days) ==> chain(b).value.current == current.value + advance
    ensures var records := History(current, days, chain, clock, measure).value;
            forall i :: 0 <= i < |records| ==> records[i].dayOffset == i + FloorDiv(advance, BlocksPerDay)
    ensures 0 <= advance < BlocksPerDay ==>
              var records := History(current, days, chain, clock, measure).value;
              forall i :: 0 <= i < |records| ==> records[i].dayOffset == i
  {
  }

  /** One failing per-block query fails the whole history. */
  lemma OneFailureFailsAll<T>(current: int, days: int, chain: int -> Result<Reply<T>>, clock: Clock,
                              measure: T -> int, i: int)
    requires 0 <= i < days && chain(current - i * BlocksPerDay).Err?
    ensures History(Ok(current), days, chain, clock, measure).Err?
  {
    assert Schedule(current, days)[i] == current - i * BlocksPerDay;
  }

  /** A one-day request at block 1,000,000 samples exactly that block. */
  lemma OneDayAtMillion(chain: int -> Result<Reply<int>>, clock: Clock)
    requires chain(1000000).Ok? && chain(1000000).value.current == 1000000
    ensures var r := HistoricalBalance(Ok(1000000), 1, chain, clock);
            && r.Ok? && |r.value| == 1
            && r.value[0].blockNumber == 1000000
            && r.value[0].value == chain(1000000).value.value
  {
  }

  /** Looking back no further than the calendar allows, with every query
      succeeding and each task re-reading a current block somewhere between
      the one the schedule was built from and `advance` blocks past it, the
      history succeeds: the look-back plus the whole days the chain advanced
      must fit the calendar. */
  lemma RecentHistorySucceeds<T>(current: int, days: int, chain: int -> Result<Reply<T>>, clock: Clock,
                                 measure: T -> int, advance: int)
    requires 0 <= advance
    requires days - 1 + FloorDiv(advance, BlocksPerDay) <= clock.daysSinceMin
    requires days - 1 + FloorDiv(advance, BlocksPerDay) <= MaxTimedeltaDays
    requires forall b :: b in Schedule(current, days) ==>
               chain(b).Ok? && current <= chain(b).value.current <= current + advance
    ensures History(Ok(current), days, chain, clock, measure).Ok?
  {
  }

  /** A look-back longer than the days since 1 January of year 1 makes a task
      raise `OverflowError`, and with it the whole history, even when every
      query succeeds and whatever the chain advanced before each task
      re-read its head. */
  lemma FarHistoryOverflows<T>(current: int, days: int, chain: int -> Result<Reply<T>>, clock: Clock,
                               measure: T -> int)
    requires clock.daysSinceMin + 1 < days
    requires forall b :: b in Schedule(current, days) ==> chain(b).Ok? && chain(b).value.current >= current
    ensures History(Ok(current), days, chain, clock, measure) == Err(OverflowError)
  {
    var i := clock.daysSinceMin + 1;
    var b := Schedule(current, days)[i];
    assert b in Schedule(current, days);
    var o := DayOffset(chain(b).value.current, b);
    assert o * BlocksPerDay > (i - 1) * BlocksPerDay;
    assert !SampleSucceeds(chain, clock, b);
  }
}
