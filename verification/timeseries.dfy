/**
 * The histogram's zero-filled time series (`ts.ZeroFilled`): a sparse map from bucket
 * time to value with a write counter per raw time, and the conversion of the map into
 * flot's `[time, value]` pairs under one of four fill styles.
 */
module TimeSeries {
  import opened Intervals
  import opened Seqs
  import opened TimeParse

  /** A value handed to addValue: undefined, null or a number. */
  datatype Value = Undefined | Null | Number(x: real)

  /** What the series stores and plots at one time: a number, or null (None). */
  type Stored = Option<real>

  type Pair = (int, Stored)

  /** A stored value as JavaScript arithmetic reads it: null is 0. */
  function AsNumber(v: Stored): real {
    if v.Some? then v.value else 0.0
  }

  /**
   * A time handed to addValue: a number, a string, or a Date given by its instant and
   * by the text its toString produces (which depends on the local time zone).
   */
  datatype TimeArg = NumberTime(n: int) | TextTime(s: string) | DateTime(ms: int, text: string)

  datatype FillStyle = Minimal | All | NullFill | NoFill

  /** The strategy getFlotPairs picks for the `fill_style` option; any other string is minimal. */
  function FillStyleOf(name: string): (f: FillStyle)
    ensures f == All <==> name == "all"
    ensures f == NullFill <==> name == "null"
    ensures f == NoFill <==> name == "no"
    ensures f == Minimal <==> name != "all" && name != "null" && name != "no"
  {
    if name == "all" then All else if name == "null" then NullFill else if name == "no" then NoFill else Minimal
  }

  /** The property name the write counter uses: String(time). */
  function CounterKey(time: TimeArg): string {
    match time
    case NumberTime(n) => DecimalString(n)
    case TextTime(s) => s
    case DateTime(_, text) => text
  }

  /** getDatesTime: the instant with its milliseconds cut off. */
  function DatesTime(ms: int): (t: int)
    ensures t <= ms < t + 1000 && t % 1000 == 0
  {
    (ms / 1000) * 1000
  }

  /**
   * The bucket addValue stores under: getDatesTime for a Date, else
   * parseInt(String(time), 10). The depth only delegates; it keeps the verifier from
   * expanding the parser wherever a write is mentioned.
   */
  function ParsedTimeAt(time: TimeArg, depth: nat): Option<int>
    decreases time, depth
  {
    if depth > 0 then ParsedTimeAt(time, depth - 1)
    else if time.DateTime? then Some(DatesTime(time.ms)) else ParseInt(CounterKey(time))
  }

  function ParsedTime(time: TimeArg): Option<int> {
    ParsedTimeAt(time, 2)
  }

  lemma ParsedTimeDef(time: TimeArg)
    ensures ParsedTime(time) == if time.DateTime? then Some(DatesTime(time.ms)) else ParseInt(CounterKey(time))
  {
    assert ParsedTimeAt(time, 2) == ParsedTimeAt(time, 0);
  }

  /** A number time is stored under itself. */
  lemma NumberTimeParsed(n: int)
    ensures ParsedTime(NumberTime(n)) == Some(n)
  {
    ParsedTimeDef(NumberTime(n));
    ParseDecimalString(n, "");
    assert DecimalString(n) + "" == DecimalString(n);
  }

  /** `_.isUndefined(value) ? 0 : value` */
  function StoredValue(value: Value): Stored {
    match value
    case Undefined => Some(0.0)
    case Null => None
    case Number(x) => Some(x)
  }

  /** The data map after addValue(time, value): unchanged when the time is NaN. */
  function Store(data: map<int, Stored>, time: TimeArg, value: Value): map<int, Stored> {
    match ParsedTime(time)
    case None => data
    case Some(t) => data[t := StoredValue(value)]
  }

  function CountOf(counters: map<string, nat>, key: string): nat {
    if key in counters then counters[key] else 0
  }

  /** `counters[key] = (counters[key] || 0) + 1` */
  function Counted(counters: map<string, nat>, key: string): map<string, nat> {
    counters[key := CountOf(counters, key) + 1]
  }

  /** The last of two writes to the same time wins. */
  lemma LastWriteWins(data: map<int, Stored>, time: TimeArg, v1: Value, v2: Value)
    ensures Store(Store(data, time, v1), time, v2) == Store(data, time, v2)
  {
  }

  /** A write changes at most its own bucket; a write of a NaN time changes nothing. */
  lemma StoreFrame(data: map<int, Stored>, time: TimeArg, value: Value, t: int)
    requires ParsedTime(time) != Some(t)
    ensures t in Store(data, time, value) <==> t in data
    ensures t in data ==> Store(data, time, value)[t] == data[t]
  {
  }

  /** JavaScript truthiness of a stored value: null and 0 are falsy. */
  predicate Truthy(v: Stored) {
    v.Some? && v.value != 0.0
  }

  /** `this._data[time] || 0` */
  function OrZero(data: map<int, Stored>, t: int): Stored {
    if t in data && Truthy(data[t]) then data[t] else Some(0.0)
  }

  /** `this._data[time] || null` */
  function OrNull(data: map<int, Stored>, t: int): Stored {
    if t in data && Truthy(data[t]) then data[t] else None
  }

  /** The pairs _getMinFlotPairs pushes for the i-th time. */
  function MinStep(iv: Interval, data: map<int, Stored>, times: seq<int>, i: nat): seq<Pair>
    requires i < |times|
  {
    var t := times[i];
    (if i > 0 && times[i - 1] < Before(iv, t) then [(Before(iv, t), Some(0.0))] else [])
    + [(t, OrZero(data, t))]
    + (if i + 1 < |times| && times[i + 1] > After(iv, t) then [(After(iv, t), Some(0.0))] else [])
  }

  /** The pairs _getNullFlotPairs pushes for the i-th time. */
  function NullStep(iv: Interval, data: map<int, Stored>, times: seq<int>, i: nat): seq<Pair>
    requires i < |times|
  {
    var t := times[i];
    (if i > 0 && times[i - 1] < Before(iv, t) then [(Before(iv, t), None)] else [])
    + [(t, OrNull(data, t))]
    + (if i + 1 < |times| && times[i + 1] > After(iv, t) then [(After(iv, t), None)] else [])
  }

  /** Zeros at `e`, after(e), after(after(e)), ... while they stay below `next`. */
  function AllGap(iv: Interval, e: int, next: int): seq<Pair>
    requires Intervals.Valid(iv)
    decreases next - e
  {
    if next > e then
      AfterGrows(iv, e);
      [(e, Some(0.0))] + AllGap(iv, After(iv, e), next)
    else []
  }

  /** The pairs _getAllFlotPairs pushes for the i-th time. */
  function AllStep(iv: Interval, data: map<int, Stored>, times: seq<int>, i: nat): seq<Pair>
    requires Intervals.Valid(iv) && i < |times|
  {
    [(times[i], OrZero(data, times[i]))]
    + (if i + 1 < |times| then AllGap(iv, After(iv, times[i]), times[i + 1]) else [])
  }

  /** The pairs _getNoZeroFlotPairs pushes for the i-th time. */
  function NoStep(data: map<int, Stored>, times: seq<int>, i: nat): seq<Pair>
    requires i < |times|
  {
    if times[i] in data && Truthy(data[times[i]]) then [(times[i], data[times[i]])] else []
  }

  function Step(style: FillStyle, iv: Interval, data: map<int, Stored>, times: seq<int>, i: nat): seq<Pair>
    requires Intervals.Valid(iv) && i < |times|
  {
    StepAt(style, iv, data, times, i, 2)
  }

  /**
   * The strategy's pairs, reached through `depth` levels of delegation, so that the
   * verifier does not open all four strategies wherever a step appears; proofs ask
   * for the strategy's own pairs through StepDef.
   */
  function StepAt(style: FillStyle, iv: Interval, data: map<int, Stored>, times: seq<int>, i: nat, depth: nat): seq<Pair>
    requires Intervals.Valid(iv) && i < |times|
    decreases i, depth
  {
    if depth > 0 then StepAt(style, iv, data, times, i, depth - 1)
    else match style
      case Minimal => MinStep(iv, data, times, i)
      case All => AllStep(iv, data, times, i)
      case NullFill => NullStep(iv, data, times, i)
      case NoFill => NoStep(data, times, i)
  }

  lemma StepDef(style: FillStyle, iv: Interval, data: map<int, Stored>, times: seq<int>, i: nat)
    requires Intervals.Valid(iv) && i < |times|
    ensures Step(style, iv, data, times, i) == match style
      case Minimal => MinStep(iv, data, times, i)
      case All => AllStep(iv, data, times, i)
      case NullFill => NullStep(iv, data, times, i)
      case NoFill => NoStep(data, times, i)
  {
    assert StepAt(style, iv, data, times, i, 2) == StepAt(style, iv, data, times, i, 0);
  }

  /** The reduce over the first n times. */
  function PairsUpTo(style: FillStyle, iv: Interval, data: map<int, Stored>, times: seq<int>, n: nat): seq<Pair>
    requires Intervals.Valid(iv) && n <= |times|
    decreases n, 3
  {
    PairsAt(style, iv, data, times, n, 2)
  }

  /**
   * The reduce, reached through `depth` levels of delegation. The delegation keeps the
   * verifier from unrolling the reduce wherever a prefix of it is mentioned; proofs ask
   * for one step of it through PairsDef.
   */
  function PairsAt(style: FillStyle, iv: Interval, data: map<int, Stored>, times: seq<int>, n: nat, depth: nat): seq<Pair>
    requires Intervals.Valid(iv) && n <= |times|
    decreases n, depth
  {
    if depth > 0 then PairsAt(style, iv, data, times, n, depth - 1)
    else if n == 0 then [] else PairsUpTo(style, iv, data, times, n - 1) + Step(style, iv, data, times, n - 1)
  }

  lemma PairsDef(style: FillStyle, iv: Interval, data: map<int, Stored>, times: seq<int>, n: nat)
    requires Intervals.Valid(iv) && n <= |times|
    ensures PairsUpTo(style, iv, data, times, n)
      == if n == 0 then [] else PairsUpTo(style, iv, data, times, n - 1) + Step(style, iv, data, times, n - 1)
  {
    assert PairsAt(style, iv, data, times, n, 2) == PairsAt(style, iv, data, times, n, 0);
  }

  function FlotPairs(style: FillStyle, iv: Interval, data: map<int, Stored>, times: seq<int>): seq<Pair>
    requires Intervals.Valid(iv)
  {
    PairsUpTo(style, iv, data, times, |times|)
  }

  /** The x coordinates of a list of pairs. */
  function Xs(ps: seq<Pair>): (xs: seq<int>)
    ensures |xs| == |ps| && forall i :: 0 <= i < |ps| ==> xs[i] == ps[i].0
  {
    seq(|ps|, i requires 0 <= i < |ps| => ps[i].0)
  }

  /**
   * `keys` lists every key of `data` once. The depth only delegates; it keeps the
   * verifier from expanding the listing wherever the series' invariant is mentioned.
   */
  ghost predicate ListsKeysAt(keys: seq<int>, data: map<int, Stored>, depth: nat)
    decreases keys, depth
  {
    if depth > 0 then ListsKeysAt(keys, data, depth - 1)
    else Elems(keys) == data.Keys && forall i, j :: 0 <= i < j < |keys| ==> keys[i] != keys[j]
  }

  ghost predicate ListsKeys(keys: seq<int>, data: map<int, Stored>) {
    ListsKeysAt(keys, data, 2)
  }

  lemma ListsKeysDef(keys: seq<int>, data: map<int, Stored>)
    ensures ListsKeys(keys, data)
      <==> Elems(keys) == data.Keys && forall i, j :: 0 <= i < j < |keys| ==> keys[i] != keys[j]
  {
    assert ListsKeysAt(keys, data, 2) == ListsKeysAt(keys, data, 0);
  }

  /** A new key goes to the end of the listing; an overwritten one keeps its place. */
  lemma ListsKeysStore(keys: seq<int>, data: map<int, Stored>, t: int, v: Stored)
    requires ListsKeys(keys, data)
    ensures ListsKeys(if t in data then keys else keys + [t], data[t := v])
  {
    ListsKeysDef(keys, data);
    ListsKeysDef(if t in data then keys else keys + [t], data[t := v]);
    if t !in data {
      assert Elems(keys + [t]) == Elems(keys) + {t};
      assert t !in keys;
    }
  }

  class ZeroFilled {
    var interval: Interval
    /** `_data`: the stored value of every bucket time. */
    var data: map<int, Stored>
    /** The order in which `_.keys(this._data)` lists the bucket times: here, the order of first insertion. */
    var keyOrder: seq<int>
    /** `_counters`: how often each raw time was written. */
    var counters: map<string, nat>
    var startTime: Option<int>
    var endTime: Option<int>
    var fillStyle: string
    /** `_cached_times`, which addValue resets and nothing else reads. */
    var cachedTimes: Option<seq<int>>

    ghost predicate Valid()
      reads this
    {
      Intervals.Valid(interval) && ListsKeys(keyOrder, data)
    }

    /**
     * `new ZeroFilled(opts)`, with the interval already parsed, the start and end dates
     * given by their instants and `fill_style` defaulting to "minimal".
     */
    constructor (interval: Interval, startDate: Option<int>, endDate: Option<int>, fillStyle: Option<string>)
      requires Intervals.Valid(interval)
      ensures Valid()
      ensures this.interval == interval && data == map[] && counters == map[]
      ensures startTime == (if startDate.Some? then Some(DatesTime(startDate.value)) else None)
      ensures endTime == (if endDate.Some? then Some(DatesTime(endDate.value)) else None)
      ensures this.fillStyle == (if fillStyle.Some? then fillStyle.value else "minimal")
    {
      this.interval := interval;
      data := map[];
      keyOrder := [];
      counters := map[];
      startTime := if startDate.Some? then Some(DatesTime(startDate.value)) else None;
      endTime := if endDate.Some? then Some(DatesTime(endDate.value)) else None;
      this.fillStyle := if fillStyle.Some? then fillStyle.value else "minimal";
      cachedTimes := None;
    }

    /**
     * addValue(time, value): counts the write under the raw time, and stores the value
     * (0 for undefined) under the parsed time unless that is NaN.
     */
    method AddValue(time: TimeArg, value: Value)
      requires Valid()
      modifies this`data, this`keyOrder, this`counters, this`cachedTimes
      ensures Valid()
      ensures counters == Counted(old(counters), CounterKey(time))
      ensures data == Store(old(data), time, value)
      ensures cachedTimes == None
    {
      var key := CounterKey(time);
      counters := Counted(counters, key);
      var t := ParsedTime(time);
      if t.Some? {
        ListsKeysStore(keyOrder, data, t.value, StoredValue(value));
        if t.value !in data {
          keyOrder := keyOrder + [t.value];
        }
        data := data[t.value := StoredValue(value)];
      }
      cachedTimes := None;
    }

    /**
     * getOrderedTimes(include): the stored times, with the included times appended when it is an
     * array, sorted numerically and without duplicates.
     */
    function OrderedTimes(included: Option<seq<int>>): (times: seq<int>)
      reads this
      requires Valid()
      ensures StrictlyAscending(times)
      ensures Elems(times) == data.Keys + (if included.Some? then Elems(included.value) else {})
    {
      var extra := if included.Some? then included.value else [];
      ListsKeysDef(keyOrder, data);
      assert Elems(keyOrder + extra) == Elems(keyOrder) + Elems(extra);
      SortUniq(keyOrder + extra)
    }

    method MinFlotPairs(result: seq<Pair>, i: nat, times: seq<int>) returns (r: seq<Pair>)
      requires i < |times|
      ensures r == result + MinStep(interval, data, times, i)
    {
      r := result;
      var time := times[i];
      if i > 0 {
        var prev := times[i - 1];
        var expectedPrev := Before(interval, time);
        if prev < expectedPrev {
          r := r + [(expectedPrev, Some(0.0))];
        }
      }
      r := r + [(time, OrZero(data, time))];
      if i + 1 < |times| {
        var next := times[i + 1];
        var expectedNext := After(interval, time);
        if next > expectedNext {
          r := r + [(expectedNext, Some(0.0))];
        }
      }
    }

    method NullFlotPairs(result: seq<Pair>, i: nat, times: seq<int>) returns (r: seq<Pair>)
      requires i < |times|
      ensures r == result + NullStep(interval, data, times, i)
    {
      r := result;
      var time := times[i];
      if i > 0 {
        var prev := times[i - 1];
        var expectedPrev := Before(interval, time);
        if prev < expectedPrev {
          r := r + [(expectedPrev, None)];
        }
      }
      r := r + [(time, OrNull(data, time))];
      if i + 1 < |times| {
        var next := times[i + 1];
        var expectedNext := After(interval, time);
        if next > expectedNext {
          r := r + [(expectedNext, None)];
        }
      }
    }

    method AllFlotPairs(result: seq<Pair>, i: nat, times: seq<int>) returns (r: seq<Pair>)
      requires Valid() && i < |times|
      ensures r == result + AllStep(interval, data, times, i)
    {
      r := result + [(times[i], OrZero(data, times[i]))];
      var next: Option<int> := if i + 1 < |times| then Some(times[i + 1]) else None;
      var expectedNext := After(interval, times[i]);
      while next.Some? && next.value > expectedNext
        invariant r + (if next.Some? then AllGap(interval, expectedNext, next.value) else [])
          == result + AllStep(interval, data, times, i)
        decreases if next.Some? then next.value - expectedNext else 0
      {
        r := r + [(expectedNext, Some(0.0))];
        AfterGrows(interval, expectedNext);
        expectedNext := After(interval, expectedNext);
      }
    }

    method NoZeroFlotPairs(result: seq<Pair>, i: nat, times: seq<int>) returns (r: seq<Pair>)
      requires i < |times|
      ensures r == result + NoStep(data, times, i)
    {
      r := result;
      var time := times[i];
      if time in data && Truthy(data[time]) {
        r := r + [(time, data[time])];
      }
    }

    /** getFlotPairs(required_times): the reduce of the ordered times with the configured strategy. */
    method GetFlotPairs(required: Option<seq<int>>) returns (pairs: seq<Pair>)
      requires Valid()
      ensures pairs == FlotPairs(FillStyleOf(fillStyle), interval, data, OrderedTimes(required))
    {
      var times := OrderedTimes(required);
      var style := FillStyleOf(fillStyle);
      pairs := [];
      PairsDef(style, interval, data, times, 0);
      var i := 0;
      while i < |times|
        invariant 0 <= i <= |times|
        invariant pairs == PairsUpTo(style, interval, data, times, i)
      {
        assert PairsUpTo(style, interval, data, times, i + 1) == pairs + Step(style, interval, data, times, i) by {
          PairsDef(style, interval, data, times, i + 1);
        }
        pairs := StrategyPairs(style, pairs, i, times);
        i := i + 1;
      }
    }

    /** One call of the configured strategy on the time at `i`. */
    method StrategyPairs(style: FillStyle, result: seq<Pair>, i: nat, times: seq<int>) returns (r: seq<Pair>)
      requires Valid() && i < |times|
      ensures r == result + Step(style, interval, data, times, i)
    {
      StepDef(style, interval, data, times, i);
      match style {
        case All => r := AllFlotPairs(result, i, times);
        case NullFill => r := NullFlotPairs(result, i, times);
        case NoFill => r := NoZeroFlotPairs(result, i, times);
        case Minimal => r := MinFlotPairs(result, i, times);
      }
    }
  }
}
