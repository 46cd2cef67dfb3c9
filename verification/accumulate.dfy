/**
 * The histogram controller's fold over the entries of one query's date-histogram facet:
 * every entry adds its count to the series' hit counter and to a counter per time, and
 * writes into the query's time series the value the panel mode asks for, computed from
 * what the series already holds at that time.
 */
module Accumulate {
  import opened TimeParse
  import opened TimeSeries

  /** `panel.mode`. `Other` is any mode the fold does not handle; the mean mode is not part of this model. */
  datatype Mode = Count | Min | Max | Total | Other

  /** One facet entry: a bucket time, its hit count and the statistics of the field. */
  datatype Entry = Entry(time: int, count: nat, min: real, max: real, total: real)

  /**
   * The fill style a new series of the panel gets: null for the derivative view, else
   * minimal when zero filling is on and no fill otherwise.
   */
  function SeriesFillStyle(derivative: bool, zerofill: bool): (name: string)
    ensures FillStyleOf(name) == if derivative then NullFill else if zerofill then Minimal else NoFill
  {
    if derivative then "null" else if zerofill then "minimal" else "no"
  }

  /** `time_series._data[t] || 0`, as a number. */
  function NumberOrZero(data: map<int, Stored>, t: int): real {
    if t in data && Truthy(data[t]) then data[t].value else 0.0
  }

  /** A stored value as a relational comparison reads it: null is 0. */
  function Compared(v: Stored): real {
    if v.Some? then v.value else 0.0
  }

  function AsValue(v: Stored): Value {
    if v.Some? then Number(v.value) else Null
  }

  /**
   * The value the fold hands to addValue for entry `e`, given the series' data so far.
   * The depth only delegates; it keeps the verifier from splitting on the mode wherever
   * a write is mentioned.
   */
  function ModeValueAt(mode: Mode, data: map<int, Stored>, e: Entry, depth: nat): Value
    decreases e, depth
  {
    if depth > 0 then ModeValueAt(mode, data, e, depth - 1)
    else
      var t := e.time;
      match mode
      case Count => Number(NumberOrZero(data, t) + e.count as real)
      case Min =>
        if t !in data then Number(e.min)
        else if Compared(data[t]) < e.min then AsValue(data[t])
        else Number(e.min)
      case Max =>
        if t !in data then Number(e.max)
        else if Compared(data[t]) > e.max then AsValue(data[t])
        else Number(e.max)
      case Total => Number(NumberOrZero(data, t) + e.total)
      case Other => Undefined
  }

  function ModeValue(mode: Mode, data: map<int, Stored>, e: Entry): Value {
    ModeValueAt(mode, data, e, 2)
  }

  lemma ModeValueDef(mode: Mode, data: map<int, Stored>, e: Entry)
    ensures ModeValue(mode, data, e) == ModeValueAt(mode, data, e, 0)
  {
    assert ModeValueAt(mode, data, e, 2) == ModeValueAt(mode, data, e, 0);
  }

  /** The series' data after the write for entry `e`. */
  function Put(mode: Mode, data: map<int, Stored>, e: Entry): map<int, Stored> {
    data[e.time := StoredValue(ModeValue(mode, data, e))]
  }

  /**
   * The series' data after the first `n` entries have been written, first to last. As
   * with the other folds below, the depth only delegates: the verifier sees one step of
   * the fold where a proof asks for it through the Def lemma, and nowhere else.
   */
  function Fold(mode: Mode, data: map<int, Stored>, es: seq<Entry>, n: nat): map<int, Stored>
    requires n <= |es|
    decreases n, 3
  {
    FoldAt(mode, data, es, n, 2)
  }

  function FoldAt(mode: Mode, data: map<int, Stored>, es: seq<Entry>, n: nat, depth: nat): map<int, Stored>
    requires n <= |es|
    decreases n, depth
  {
    if depth > 0 then FoldAt(mode, data, es, n, depth - 1)
    else if n == 0 then data else Put(mode, Fold(mode, data, es, n - 1), es[n - 1])
  }

  lemma FoldDef(mode: Mode, data: map<int, Stored>, es: seq<Entry>, n: nat)
    requires n <= |es|
    ensures Fold(mode, data, es, n) == if n == 0 then data else Put(mode, Fold(mode, data, es, n - 1), es[n - 1])
  {
    assert FoldAt(mode, data, es, n, 2) == FoldAt(mode, data, es, n, 0);
  }

  /** The sum of the counts of the first `n` entries. */
  function Hits(es: seq<Entry>, n: nat): nat
    requires n <= |es|
  {
    if n == 0 then 0 else Hits(es, n - 1) + es[n - 1].count
  }

  /** The sum of the counts of those of the first `n` entries that are at time `t`. */
  function HitsAt(es: seq<Entry>, n: nat, t: int): nat
    requires n <= |es|
  {
    if n == 0 then 0
    else HitsAt(es, n - 1, t) + (if es[n - 1].time == t then es[n - 1].count else 0)
  }

  /** The sum of the totals of those of the first `n` entries that are at time `t`. */
  function TotalAt(es: seq<Entry>, n: nat, t: int): real
    requires n <= |es|
  {
    if n == 0 then 0.0
    else TotalAt(es, n - 1, t) + (if es[n - 1].time == t then es[n - 1].total else 0.0)
  }

  function CountOr0(counters: map<int, nat>, t: int): nat {
    if t in counters then counters[t] else 0
  }

  /** `counters[t] = (counters[t] || 0) + k` */
  function Added(counters: map<int, nat>, t: int, k: nat): map<int, nat> {
    counters[t := CountOr0(counters, t) + k]
  }

  /** What the controller keeps beside a query's series: its `hits` and its `counters` by time. */
  datatype Tallies = Tallies(hits: nat, counters: map<int, nat>)

  /** One entry's count added to the hits and to the counter of its time. */
  function Tallied(acc: Tallies, e: Entry): Tallies {
    Tallies(acc.hits + e.count, Added(acc.counters, e.time, e.count))
  }

  /** The tallies after the first `n` entries. */
  function Tally(acc: Tallies, es: seq<Entry>, n: nat): Tallies
    requires n <= |es|
    decreases n, 3
  {
    TallyAt(acc, es, n, 2)
  }

  function TallyAt(acc: Tallies, es: seq<Entry>, n: nat, depth: nat): Tallies
    requires n <= |es|
    decreases n, depth
  {
    if depth > 0 then TallyAt(acc, es, n, depth - 1)
    else if n == 0 then acc else Tallied(Tally(acc, es, n - 1), es[n - 1])
  }

  lemma TallyDef(acc: Tallies, es: seq<Entry>, n: nat)
    requires n <= |es|
    ensures Tally(acc, es, n) == if n == 0 then acc else Tallied(Tally(acc, es, n - 1), es[n - 1])
  {
    assert TallyAt(acc, es, n, 2) == TallyAt(acc, es, n, 0);
  }

  /** The series' own write counters after the first `n` entries: one write each under String(time). */
  function Writes(counters: map<string, nat>, es: seq<Entry>, n: nat): map<string, nat>
    requires n <= |es|
    decreases n, 3
  {
    WritesAt(counters, es, n, 2)
  }

  function WritesAt(counters: map<string, nat>, es: seq<Entry>, n: nat, depth: nat): map<string, nat>
    requires n <= |es|
    decreases n, depth
  {
    if depth > 0 then WritesAt(counters, es, n, depth - 1)
    else if n == 0 then counters else Counted(Writes(counters, es, n - 1), DecimalString(es[n - 1].time))
  }

  lemma WritesDef(counters: map<string, nat>, es: seq<Entry>, n: nat)
    requires n <= |es|
    ensures Writes(counters, es, n)
      == if n == 0 then counters else Counted(Writes(counters, es, n - 1), DecimalString(es[n - 1].time))
  {
    assert WritesAt(counters, es, n, 2) == WritesAt(counters, es, n, 0);
  }

  /** One of the first `n` entries is at time `t`. */
  predicate Occurs(es: seq<Entry>, n: nat, t: int)
    requires n <= |es|
  {
    exists k :: 0 <= k < n && es[k].time == t
  }

  predicate NoNulls(data: map<int, Stored>) {
    forall t :: t in data ==> data[t].Some?
  }

  lemma OccursLast(es: seq<Entry>, n: nat, t: int)
    requires 0 < n <= |es|
    ensures Occurs(es, n, t) <==> Occurs(es, n - 1, t) || es[n - 1].time == t
  {
    if Occurs(es, n, t) && es[n - 1].time != t {
      var k :| 0 <= k < n && es[k].time == t;
      assert k < n - 1;
    }
  }

  /**
   * The fold writes exactly the entries' times: every other time keeps its value, and a
   * time is stored afterwards exactly when it was stored before or an entry has it.
   */
  lemma {:induction false} FoldFrame(mode: Mode, data: map<int, Stored>, es: seq<Entry>, n: nat, t: int)
    requires n <= |es|
    ensures t in Fold(mode, data, es, n) <==> t in data || Occurs(es, n, t)
    ensures !Occurs(es, n, t) && t in data ==> Fold(mode, data, es, n)[t] == data[t]
  {
    if n > 0 {
      FoldDef(mode, data, es, n);
      FoldFrame(mode, data, es, n - 1, t);
      OccursLast(es, n, t);
    }
  }

  /** Count, min, max and total write numbers only, so they never store null. */
  lemma {:induction false} FoldNoNulls(mode: Mode, data: map<int, Stored>, es: seq<Entry>, n: nat)
    requires mode != Other && NoNulls(data) && n <= |es|
    ensures NoNulls(Fold(mode, data, es, n))
  {
    if n > 0 {
      FoldDef(mode, data, es, n);
      ModeValueDef(mode, Fold(mode, data, es, n - 1), es[n - 1]);
      FoldNoNulls(mode, data, es, n - 1);
    }
  }

  lemma {:induction false} HitsAtAbsent(es: seq<Entry>, n: nat, t: int)
    requires n <= |es| && !Occurs(es, n, t)
    ensures HitsAt(es, n, t) == 0 && TotalAt(es, n, t) == 0.0
  {
    if n > 0 {
      OccursLast(es, n, t);
      HitsAtAbsent(es, n - 1, t);
    }
  }

  /**
   * In count mode the series holds, at every entry time, what it held there (0 when that
   * was falsy) plus the counts of all entries at that time.
   */
  lemma {:induction false} CountModeSums(data: map<int, Stored>, es: seq<Entry>, n: nat, t: int)
    requires n <= |es| && Occurs(es, n, t)
    ensures t in Fold(Count, data, es, n)
    ensures Fold(Count, data, es, n)[t] == Some(NumberOrZero(data, t) + HitsAt(es, n, t) as real)
  {
    FoldDef(Count, data, es, n);
    ModeValueDef(Count, Fold(Count, data, es, n - 1), es[n - 1]);
    OccursLast(es, n, t);
    FoldFrame(Count, data, es, n, t);
    if Occurs(es, n - 1, t) {
      CountModeSums(data, es, n - 1, t);
    } else {
      FoldFrame(Count, data, es, n - 1, t);
      HitsAtAbsent(es, n - 1, t);
    }
  }

  /** In total mode the series sums the entries' totals in the same way. */
  lemma {:induction false} TotalModeSums(data: map<int, Stored>, es: seq<Entry>, n: nat, t: int)
    requires n <= |es| && Occurs(es, n, t)
    ensures t in Fold(Total, data, es, n)
    ensures Fold(Total, data, es, n)[t] == Some(NumberOrZero(data, t) + TotalAt(es, n, t))
  {
    FoldDef(Total, data, es, n);
    ModeValueDef(Total, Fold(Total, data, es, n - 1), es[n - 1]);
    OccursLast(es, n, t);
    FoldFrame(Total, data, es, n, t);
    if Occurs(es, n - 1, t) {
      TotalModeSums(data, es, n - 1, t);
    } else {
      FoldFrame(Total, data, es, n - 1, t);
      HitsAtAbsent(es, n - 1, t);
    }
  }

  /**
   * In min mode, over data without nulls, the series holds at every entry time the least
   * of the earlier value there and the minimums of the entries at that time.
   */
  lemma {:induction false} MinModeIsLeast(data: map<int, Stored>, es: seq<Entry>, n: nat, t: int)
    requires n <= |es| && NoNulls(data) && Occurs(es, n, t)
    ensures t in Fold(Min, data, es, n)
    ensures var v := Fold(Min, data, es, n)[t];
      v.Some?
      && (forall k :: 0 <= k < n && es[k].time == t ==> v.value <= es[k].min)
      && (t in data ==> v.value <= data[t].value)
      && ((t in data && v == data[t]) || exists k :: 0 <= k < n && es[k].time == t && v.value == es[k].min)
  {
    FoldDef(Min, data, es, n);
    ModeValueDef(Min, Fold(Min, data, es, n - 1), es[n - 1]);
    OccursLast(es, n, t);
    FoldFrame(Min, data, es, n, t);
    FoldFrame(Min, data, es, n - 1, t);
    FoldNoNulls(Min, data, es, n - 1);
    if Occurs(es, n - 1, t) {
      MinModeIsLeast(data, es, n - 1, t);
    }
  }

  /** In max mode the series holds the greatest of them. */
  lemma {:induction false} MaxModeIsGreatest(data: map<int, Stored>, es: seq<Entry>, n: nat, t: int)
    requires n <= |es| && NoNulls(data) && Occurs(es, n, t)
    ensures t in Fold(Max, data, es, n)
    ensures var v := Fold(Max, data, es, n)[t];
      v.Some?
      && (forall k :: 0 <= k < n && es[k].time == t ==> v.value >= es[k].max)
      && (t in data ==> v.value >= data[t].value)
      && ((t in data && v == data[t]) || exists k :: 0 <= k < n && es[k].time == t && v.value == es[k].max)
  {
    FoldDef(Max, data, es, n);
    ModeValueDef(Max, Fold(Max, data, es, n - 1), es[n - 1]);
    OccursLast(es, n, t);
    FoldFrame(Max, data, es, n, t);
    FoldFrame(Max, data, es, n - 1, t);
    FoldNoNulls(Max, data, es, n - 1);
    if Occurs(es, n - 1, t) {
      MaxModeIsGreatest(data, es, n - 1, t);
    }
  }

  /** An unhandled mode writes undefined, which the series stores as 0. */
  lemma {:induction false} OtherModeZeros(data: map<int, Stored>, es: seq<Entry>, n: nat, t: int)
    requires n <= |es| && Occurs(es, n, t)
    ensures t in Fold(Other, data, es, n) && Fold(Other, data, es, n)[t] == Some(0.0)
  {
    FoldDef(Other, data, es, n);
    ModeValueDef(Other, Fold(Other, data, es, n - 1), es[n - 1]);
    OccursLast(es, n, t);
    FoldFrame(Other, data, es, n, t);
    if Occurs(es, n - 1, t) {
      OtherModeZeros(data, es, n - 1, t);
    }
  }

  /** The hits grow by the sum of all the entries' counts. */
  lemma {:induction false} TallyHits(acc: Tallies, es: seq<Entry>, n: nat)
    requires n <= |es|
    ensures Tally(acc, es, n).hits == acc.hits + Hits(es, n)
  {
    if n > 0 {
      TallyDef(acc, es, n);
      TallyHits(acc, es, n - 1);
    }
  }

  /** The counter of a time grows by the counts of the entries at that time. */
  lemma {:induction false} TallyCounts(acc: Tallies, es: seq<Entry>, n: nat, t: int)
    requires n <= |es|
    ensures t in Tally(acc, es, n).counters <==> t in acc.counters || Occurs(es, n, t)
    ensures CountOr0(Tally(acc, es, n).counters, t) == CountOr0(acc.counters, t) + HitsAt(es, n, t)
  {
    if n > 0 {
      TallyDef(acc, es, n);
      OccursLast(es, n, t);
      TallyCounts(acc, es, n - 1, t);
    }
  }

  /**
   * The per-entry callback: the entry's count goes to the series' hits and to the
   * counter of its time, and the mode's value for it is written into the series.
   */
  method AddEntry(ts: ZeroFilled, mode: Mode, e: Entry, acc: Tallies) returns (next: Tallies)
    requires ts.Valid()
    modifies ts`data, ts`keyOrder, ts`counters, ts`cachedTimes
    ensures ts.Valid()
    ensures ts.data == Put(mode, old(ts.data), e)
    ensures ts.counters == Counted(old(ts.counters), DecimalString(e.time))
    ensures next == Tallied(acc, e)
  {
    next := Tallies(acc.hits + e.count, Added(acc.counters, e.time, e.count));
    var value := ModeValue(mode, ts.data, e);
    NumberTimeParsed(e.time);
    ts.AddValue(NumberTime(e.time), value);
  }

  /**
   * One query's entries pushed into its series, as the controller does it: the hit
   * counter, the per-time counters and the series' data all advance entry by entry.
   */
  method AddEntries(ts: ZeroFilled, mode: Mode, entries: seq<Entry>, acc: Tallies) returns (result: Tallies)
    requires ts.Valid()
    modifies ts`data, ts`keyOrder, ts`counters, ts`cachedTimes
    ensures ts.Valid()
    ensures ts.data == Fold(mode, old(ts.data), entries, |entries|)
    ensures ts.counters == Writes(old(ts.counters), entries, |entries|)
    ensures result == Tally(acc, entries, |entries|)
  {
    result := acc;
    FoldDef(mode, ts.data, entries, 0);
    WritesDef(ts.counters, entries, 0);
    TallyDef(acc, entries, 0);
    var i := 0;
    while i < |entries|
      invariant 0 <= i <= |entries|
      invariant ts.Valid()
      invariant ts.data == Fold(mode, old(ts.data), entries, i)
      invariant ts.counters == Writes(old(ts.counters), entries, i)
      invariant result == Tally(acc, entries, i)
    {
      result := AddEntry(ts, mode, entries[i], result);
      FoldDef(mode, old(ts.data), entries, i + 1);
      WritesDef(old(ts.counters), entries, i + 1);
      TallyDef(acc, entries, i + 1);
      i := i + 1;
    }
  }
}
