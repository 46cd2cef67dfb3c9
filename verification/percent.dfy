/**
 * Flot's stackpercent plugin as the histogram bundles it. Every series whose
 * `stackpercent` option is set is stacked on the series before it, point by point
 * at the same key (the x value, or the y value of horizontal bars), and every
 * stacked value is turned into a percentage of the sum of all such series at that
 * key. The plugin keeps three pieces of state across the series of one plot: the
 * stack bases per key, whether the sums were computed, and the sums.
 */
module StackPercent {
  import opened TimeParse
  import opened TimeSeries

  /**
   * A key as the plugin uses it: a property name `key + ""`. Distinct numbers and
   * null give distinct names, so the key is the value itself.
   */
  type Key = Stored

  /** One coordinate of the flat datapoints buffer, three coordinates per point. */
  type Point = Stored

  /** A row of a series' raw data: `[x, y]`. */
  datatype Row = Row(x: Stored, y: Stored)

  /** The parts of a series the plugin reads: its option, whether its bars are horizontal, and its raw data. */
  datatype PercentSeries = PercentSeries(stackpercent: bool, horizontal: bool, data: seq<Row>)

  /** `data[j][key_idx]`: y for horizontal bars, x otherwise. */
  function KeyOf(horizontal: bool, row: Row): Key {
    if horizontal then row.y else row.x
  }

  /** `data[j][value_idx]`: x for horizontal bars, y otherwise. */
  function ValueOf(horizontal: bool, row: Row): Stored {
    if horizontal then row.x else row.y
  }

  /** The value getStackSums adds for a row: 0 when y is null, else the value coordinate (null counting as 0). */
  function SumValue(horizontal: bool, row: Row): real {
    if row.y.Some? then AsNumber(ValueOf(horizontal, row)) else 0.0
  }

  /** `m[k]` where a missing entry counts as 0. */
  function Get0(m: map<Key, real>, k: Key): real {
    if k in m then m[k] else 0.0
  }

  /**
   * `if (sums[k]) sums[k] += v; else sums[k] = v;` A falsy entry (missing or 0) is
   * overwritten rather than added to, which comes to the same: the entry grows by `v`.
   */
  function Accum(sums: map<Key, real>, k: Key, v: real): (r: map<Key, real>)
    ensures r == sums[k := Get0(sums, k) + v]
  {
    if k in sums && sums[k] != 0.0 then sums[k := sums[k] + v] else sums[k := v]
  }

  /** The sums after the rows of one series were added to `sums`, first row first. */
  function RowsInto(sums: map<Key, real>, horizontal: bool, rows: seq<Row>): map<Key, real>
    decreases |rows|
  {
    if rows == [] then sums
    else
      var last := rows[|rows| - 1];
      Accum(RowsInto(sums, horizontal, rows[..|rows| - 1]), KeyOf(horizontal, last), SumValue(horizontal, last))
  }

  /** getStackSums(data): the sums over the series whose option is set, first series first. */
  function SumsOf(all: seq<PercentSeries>): map<Key, real>
    decreases |all|
  {
    if all == [] then map[]
    else
      var s := all[|all| - 1];
      var before := SumsOf(all[..|all| - 1]);
      if s.stackpercent then RowsInto(before, s.horizontal, s.data) else before
  }

  /** The total of the values of the rows at key `k`. */
  function RowsTotal(horizontal: bool, rows: seq<Row>, k: Key): real
    decreases |rows|
  {
    if rows == [] then 0.0
    else
      var last := rows[|rows| - 1];
      RowsTotal(horizontal, rows[..|rows| - 1], k) + (if KeyOf(horizontal, last) == k then SumValue(horizontal, last) else 0.0)
  }

  /** The total at key `k` over the series whose option is set. */
  function Total(all: seq<PercentSeries>, k: Key): real
    decreases |all|
  {
    if all == [] then 0.0
    else
      var s := all[|all| - 1];
      Total(all[..|all| - 1], k) + (if s.stackpercent then RowsTotal(s.horizontal, s.data, k) else 0.0)
  }

  /** Adding rows makes each key's sum grow by the total of its rows, and gives an entry to exactly the keys of the rows. */
  lemma {:induction false} RowsIntoTotal(sums: map<Key, real>, horizontal: bool, rows: seq<Row>, k: Key)
    ensures Get0(RowsInto(sums, horizontal, rows), k) == Get0(sums, k) + RowsTotal(horizontal, rows, k)
    ensures k in RowsInto(sums, horizontal, rows) <==> k in sums || exists j :: 0 <= j < |rows| && KeyOf(horizontal, rows[j]) == k
    decreases |rows|
  {
    if rows != [] {
      var front := rows[..|rows| - 1];
      RowsIntoTotal(sums, horizontal, front, k);
      if k in sums || exists j :: 0 <= j < |front| && KeyOf(horizontal, front[j]) == k {
        if !(k in sums) {
          var j :| 0 <= j < |front| && KeyOf(horizontal, front[j]) == k;
          assert rows[j] == front[j];
        }
      }
      if exists j :: 0 <= j < |rows| && KeyOf(horizontal, rows[j]) == k {
        var j :| 0 <= j < |rows| && KeyOf(horizontal, rows[j]) == k;
        if j < |front| {
          assert front[j] == rows[j];
        }
      }
    }
  }

  /**
   * The sums getStackSums computes: each key's entry is the total of its rows over the
   * series whose option is set, and exactly the keys of those rows have an entry.
   */
  lemma {:induction false} SumsTotal(all: seq<PercentSeries>, k: Key)
    ensures Get0(SumsOf(all), k) == Total(all, k)
    ensures k in SumsOf(all) <==> exists i, j :: (0 <= i < |all| && all[i].stackpercent
      && 0 <= j < |all[i].data| && KeyOf(all[i].horizontal, all[i].data[j]) == k)
    decreases |all|
  {
    if all != [] {
      var front, s := all[..|all| - 1], all[|all| - 1];
      SumsTotal(front, k);
      if s.stackpercent {
        RowsIntoTotal(SumsOf(front), s.horizontal, s.data, k);
      }
      if k in SumsOf(front) {
        var i, j :| 0 <= i < |front| && front[i].stackpercent
          && 0 <= j < |front[i].data| && KeyOf(front[i].horizontal, front[i].data[j]) == k;
        assert all[i] == front[i];
      }
      if exists i, j :: (0 <= i < |all| && all[i].stackpercent
        && 0 <= j < |all[i].data| && KeyOf(all[i].horizontal, all[i].data[j]) == k)
      {
        var i, j :| 0 <= i < |all| && all[i].stackpercent
          && 0 <= j < |all[i].data| && KeyOf(all[i].horizontal, all[i].data[j]) == k;
        if i < |front| {
          assert front[i] == all[i];
        }
      }
    }
  }

  /** getStackSums(_data): add up, per key, the values of every series whose option is set. */
  method GetStackSums(all: seq<PercentSeries>) returns (sums: map<Key, real>)
    ensures sums == SumsOf(all)
  {
    sums := map[];
    var i := 0;
    while i < |all|
      invariant i <= |all|
      invariant sums == SumsOf(all[..i])
    {
      assert all[..i + 1][..i] == all[..i];
      if all[i].stackpercent {
        var horizontal, rows := all[i].horizontal, all[i].data;
        var j := 0;
        while j < |rows|
          invariant j <= |rows|
          invariant sums == RowsInto(SumsOf(all[..i]), horizontal, rows[..j])
        {
          assert rows[..j + 1][..j] == rows[..j];
          var value := 0.0;
          if rows[j].y.Some? {
            value := AsNumber(ValueOf(horizontal, rows[j]));
          }
          var key := KeyOf(horizontal, rows[j]);
          if key in sums && sums[key] != 0.0 {
            sums := sums[key := sums[key] + value];
          } else {
            sums := sums[key := value];
          }
          j := j + 1;
        }
        assert rows[..|rows|] == rows;
      }
      i := i + 1;
    }
    assert all[..|all|] == all;
  }

  /** `a * 100 / sum`. */
  function Ratio(a: real, sum: real): real
    requires sum > 0.0
  {
    RatioAt(a, sum, 2)
  }

  /** The depth only delegates; it keeps the verifier from expanding the division. */
  function RatioAt(a: real, sum: real, depth: nat): real
    requires sum > 0.0
    decreases a, depth
  {
    if depth > 0 then RatioAt(a, sum, depth - 1) else a * 100.0 / sum
  }

  lemma RatioDef(a: real, sum: real)
    requires sum > 0.0
    ensures Ratio(a, sum) == a * 100.0 / sum
  {
    assert RatioAt(a, sum, 2) == RatioAt(a, sum, 0);
  }

  lemma RatioAdd(a: real, b: real, sum: real)
    requires sum > 0.0
    ensures Ratio(a, sum) + Ratio(b, sum) == Ratio(a + b, sum)
  {
    RatioDef(a, sum);
    RatioDef(b, sum);
    RatioDef(a + b, sum);
  }

  lemma RatioBounds(a: real, b: real, sum: real)
    requires sum > 0.0 && 0.0 <= a <= b <= sum
    ensures 0.0 <= Ratio(a, sum) <= Ratio(b, sum) <= 100.0
    ensures b == sum ==> Ratio(b, sum) == 100.0
  {
    RatioDef(a, sum);
    RatioDef(b, sum);
    assert a * 100.0 <= b * 100.0 <= sum * 100.0;
  }

  /** `stackSums[key + ""] > 0 ? a * 100 / stackSums[key + ""] : 0`: a missing key or a sum that is not positive gives 0. */
  function Share(a: real, sums: map<Key, real>, key: Key): real {
    if key in sums && sums[key] > 0.0 then Ratio(a, sums[key]) else 0.0
  }

  /** processRawData's percentages for the rows of one series, first row first. */
  function Percents(horizontal: bool, rows: seq<Row>, sums: map<Key, real>): (r: seq<real>)
    ensures |r| == |rows|
    decreases |rows|
  {
    if rows == [] then []
    else
      var last := rows[|rows| - 1];
      Percents(horizontal, rows[..|rows| - 1], sums) + [Share(AsNumber(ValueOf(horizontal, last)), sums, KeyOf(horizontal, last))]
  }

  /** The percentages at key `k` of the rows of one series, added up. */
  function KeyShare(horizontal: bool, rows: seq<Row>, sums: map<Key, real>, k: Key): real
    decreases |rows|
  {
    if rows == [] then 0.0
    else
      var last := rows[|rows| - 1];
      KeyShare(horizontal, rows[..|rows| - 1], sums, k)
        + (if KeyOf(horizontal, last) == k then Share(AsNumber(ValueOf(horizontal, last)), sums, k) else 0.0)
  }

  /** The percentages at key `k` over the series whose option is set, added up. */
  function AllShares(all: seq<PercentSeries>, sums: map<Key, real>, k: Key): real
    decreases |all|
  {
    if all == [] then 0.0
    else
      var s := all[|all| - 1];
      AllShares(all[..|all| - 1], sums, k) + (if s.stackpercent then KeyShare(s.horizontal, s.data, sums, k) else 0.0)
  }

  /** No row of a series whose option is set has a null y. */
  predicate NoNullY(all: seq<PercentSeries>) {
    forall i, j :: 0 <= i < |all| && all[i].stackpercent && 0 <= j < |all[i].data| ==> all[i].data[j].y.Some?
  }

  lemma {:induction false} KeyShareRatio(horizontal: bool, rows: seq<Row>, sums: map<Key, real>, k: Key)
    requires k in sums && sums[k] > 0.0
    requires forall j :: 0 <= j < |rows| ==> rows[j].y.Some?
    ensures KeyShare(horizontal, rows, sums, k) == Ratio(RowsTotal(horizontal, rows, k), sums[k])
    decreases |rows|
  {
    if rows == [] {
      RatioDef(0.0, sums[k]);
    } else {
      var front, last := rows[..|rows| - 1], rows[|rows| - 1];
      KeyShareRatio(horizontal, front, sums, k);
      var own := if KeyOf(horizontal, last) == k then SumValue(horizontal, last) else 0.0;
      RatioAdd(RowsTotal(horizontal, front, k), own, sums[k]);
      RatioDef(0.0, sums[k]);
    }
  }

  lemma {:induction false} AllSharesRatio(all: seq<PercentSeries>, sums: map<Key, real>, k: Key)
    requires k in sums && sums[k] > 0.0 && NoNullY(all)
    ensures AllShares(all, sums, k) == Ratio(Total(all, k), sums[k])
    decreases |all|
  {
    if all == [] {
      RatioDef(0.0, sums[k]);
    } else {
      var front, s := all[..|all| - 1], all[|all| - 1];
      assert NoNullY(front) by {
        forall i, j | 0 <= i < |front| && front[i].stackpercent && 0 <= j < |front[i].data|
          ensures front[i].data[j].y.Some?
        {
          assert front[i] == all[i];
        }
      }
      AllSharesRatio(front, sums, k);
      var own := if s.stackpercent then RowsTotal(s.horizontal, s.data, k) else 0.0;
      if s.stackpercent {
        assert forall j :: 0 <= j < |s.data| ==> s.data[j].y.Some? by {
          assert s == all[|all| - 1];
        }
        KeyShareRatio(s.horizontal, s.data, sums, k);
      }
      RatioAdd(Total(front, k), own, sums[k]);
      RatioDef(0.0, sums[k]);
    }
  }

  /**
   * The percentages processRawData gives the rows at one key add up to 100 over all the
   * series whose option is set, when that key's sum is positive and no y is null.
   */
  lemma SharesMakeWhole(all: seq<PercentSeries>, k: Key)
    requires k in SumsOf(all) && SumsOf(all)[k] > 0.0 && NoNullY(all)
    ensures AllShares(all, SumsOf(all), k) == 100.0
  {
    SumsTotal(all, k);
    AllSharesRatio(all, SumsOf(all), k);
    RatioBounds(0.0, SumsOf(all)[k], SumsOf(all)[k]);
  }

  /** The result of stackData's loop from a point on: the new points and the stack bases it leaves. */
  datatype Chunked = Chunked(points: seq<Point>, bases: map<Key, real>)

  function KeyOffset(horizontal: bool): nat {
    if horizontal then 1 else 0
  }

  function ValueOffset(horizontal: bool): nat {
    if horizontal then 0 else 1
  }

  /** The key of the point at `i` of the buffer. */
  function KeyAt(horizontal: bool, points: seq<Point>, i: nat): Key
    requires i + 3 <= |points|
  {
    points[i + KeyOffset(horizontal)]
  }

  /** The value of the point at `i` of the buffer. */
  function ValueAt(horizontal: bool, points: seq<Point>, i: nat): Point
    requires i + 3 <= |points|
  {
    points[i + ValueOffset(horizontal)]
  }

  /**
   * The three entries stackData writes for a point with key `key`, value `v` and stack
   * base `base`: the key, the value over the base and the base itself, the last two as
   * percentages of the key's sum (both 0 when that sum is missing or not positive).
   */
  function ChunkOf(horizontal: bool, key: Key, v: Point, base: real, sums: map<Key, real>): (r: seq<Point>)
    ensures |r| == 3 && r[KeyOffset(horizontal)] == key
    ensures key in sums && sums[key] > 0.0 ==>
      r[ValueOffset(horizontal)] == Some(Ratio(AsNumber(v) + base, sums[key])) && r[2] == Some(Ratio(base, sums[key]))
    ensures !(key in sums && sums[key] > 0.0) ==> r[ValueOffset(horizontal)] == Some(0.0) && r[2] == Some(0.0)
  {
    ChunkAt(horizontal, key, v, base, sums, 2)
  }

  /** The depth only delegates; it keeps the verifier from expanding a written point wherever one appears. */
  function ChunkAt(horizontal: bool, key: Key, v: Point, base: real, sums: map<Key, real>, depth: nat): (r: seq<Point>)
    ensures |r| == 3 && r[KeyOffset(horizontal)] == key
    ensures key in sums && sums[key] > 0.0 ==>
      r[ValueOffset(horizontal)] == Some(Ratio(AsNumber(v) + base, sums[key])) && r[2] == Some(Ratio(base, sums[key]))
    ensures !(key in sums && sums[key] > 0.0) ==> r[ValueOffset(horizontal)] == Some(0.0) && r[2] == Some(0.0)
    decreases key, depth
  {
    if depth > 0 then ChunkAt(horizontal, key, v, base, sums, depth - 1)
    else
      var value := Share(AsNumber(v) + base, sums, key);
      var bottom := Share(base, sums, key);
      if horizontal then [Some(value), key, Some(bottom)] else [key, Some(value), Some(bottom)]
  }

  lemma ChunkDef(horizontal: bool, key: Key, v: Point, base: real, sums: map<Key, real>)
    ensures var value, bottom := Share(AsNumber(v) + base, sums, key), Share(base, sums, key);
      ChunkOf(horizontal, key, v, base, sums)
        == if horizontal then [Some(value), key, Some(bottom)] else [key, Some(value), Some(bottom)]
  {
    assert ChunkAt(horizontal, key, v, base, sums, 2) == ChunkAt(horizontal, key, v, base, sums, 0);
  }

  /** stackData's loop from the point at `i`, with stack bases `bases`. */
  function Percented(horizontal: bool, sums: map<Key, real>, points: seq<Point>, i: nat, bases: map<Key, real>): (r: Chunked)
    requires i <= |points| && (|points| - i) % 3 == 0
    ensures |r.points| == |points| - i
    decreases |points| - i, 3
  {
    PercentedFrom(horizontal, sums, points, i, bases, 2)
  }

  /** The depth only delegates; it keeps the verifier from unrolling the loop on its own. */
  function PercentedFrom(horizontal: bool, sums: map<Key, real>, points: seq<Point>, i: nat, bases: map<Key, real>, depth: nat): (r: Chunked)
    requires i <= |points| && (|points| - i) % 3 == 0
    ensures |r.points| == |points| - i
    decreases |points| - i, depth
  {
    if depth > 0 then PercentedFrom(horizontal, sums, points, i, bases, depth - 1)
    else if i == |points| then Chunked([], bases)
    else
      var key, v := KeyAt(horizontal, points, i), ValueAt(horizontal, points, i);
      var base := Get0(bases, key);
      var rest := Percented(horizontal, sums, points, i + 3, bases[key := base + AsNumber(v)]);
      Chunked(ChunkOf(horizontal, key, v, base, sums) + rest.points, rest.bases)
  }

  /** One iteration: the point at `i` is written with the base of its key, which then grows by its value. */
  lemma PercentedStep(horizontal: bool, sums: map<Key, real>, points: seq<Point>, i: nat, bases: map<Key, real>)
    requires i < |points| && (|points| - i) % 3 == 0
    ensures i + 3 <= |points|
    ensures var key, v := KeyAt(horizontal, points, i), ValueAt(horizontal, points, i);
      var rest := Percented(horizontal, sums, points, i + 3, bases[key := Get0(bases, key) + AsNumber(v)]);
      Percented(horizontal, sums, points, i, bases) == Chunked(ChunkOf(horizontal, key, v, Get0(bases, key), sums) + rest.points, rest.bases)
  {
    assert PercentedFrom(horizontal, sums, points, i, bases, 2) == PercentedFrom(horizontal, sums, points, i, bases, 0);
  }

  lemma PercentedEnd(horizontal: bool, sums: map<Key, real>, points: seq<Point>, bases: map<Key, real>)
    ensures Percented(horizontal, sums, points, |points|, bases) == Chunked([], bases)
  {
    assert PercentedFrom(horizontal, sums, points, |points|, bases, 2) == PercentedFrom(horizontal, sums, points, |points|, bases, 0);
  }

  /** The values of the points from `i` up to `p` whose key is `k`, added up. */
  function KeyTotal(horizontal: bool, points: seq<Point>, i: nat, p: nat, k: Key): real
    requires i <= p <= |points| && (p - i) % 3 == 0
    decreases p - i
  {
    if i == p then 0.0
    else
      (if KeyAt(horizontal, points, i) == k then AsNumber(ValueAt(horizontal, points, i)) else 0.0)
        + KeyTotal(horizontal, points, i + 3, p, k)
  }

  /** The stack base of every key grows by the values of the points with that key. */
  lemma {:induction false} BasesGrow(horizontal: bool, sums: map<Key, real>, points: seq<Point>, i: nat, bases: map<Key, real>, k: Key)
    requires i <= |points| && (|points| - i) % 3 == 0
    ensures Get0(Percented(horizontal, sums, points, i, bases).bases, k) == Get0(bases, k) + KeyTotal(horizontal, points, i, |points|, k)
    decreases |points| - i
  {
    if i == |points| {
      PercentedEnd(horizontal, sums, points, bases);
    } else {
      PercentedStep(horizontal, sums, points, i, bases);
      var key, v := KeyAt(horizontal, points, i), ValueAt(horizontal, points, i);
      BasesGrow(horizontal, sums, points, i + 3, bases[key := Get0(bases, key) + AsNumber(v)], k);
    }
  }

  lemma Regroup(done: seq<Point>, chunk: seq<Point>, rest: seq<Point>)
    ensures done + (chunk + rest) == (done + chunk) + rest
  {
  }

  /** A slice of a buffer made of a chunk and the rest. */
  lemma SliceAfter(chunk: seq<Point>, rest: seq<Point>, d: nat)
    requires |chunk| == 3 && (d == 0 || 3 <= d) && d + 3 <= |chunk| + |rest|
    ensures d == 0 ==> (chunk + rest)[d..d + 3] == chunk
    ensures d > 0 ==> (chunk + rest)[d..d + 3] == rest[d - 3..d]
  {
  }

  lemma KeyTotalStep(horizontal: bool, points: seq<Point>, i: nat, p: nat, k: Key)
    requires i < p <= |points| && (p - i) % 3 == 0
    ensures KeyTotal(horizontal, points, i, p, k)
      == (if KeyAt(horizontal, points, i) == k then AsNumber(ValueAt(horizontal, points, i)) else 0.0)
        + KeyTotal(horizontal, points, i + 3, p, k)
  {
  }

  /** The first point of the buffer from `i` is written with the base its key has at `i`. */
  lemma PercentedHead(horizontal: bool, sums: map<Key, real>, points: seq<Point>, i: nat, bases: map<Key, real>)
    requires i < |points| && (|points| - i) % 3 == 0
    ensures i + 3 <= |points|
    ensures var key := KeyAt(horizontal, points, i);
      Percented(horizontal, sums, points, i, bases).points[0..3]
        == ChunkOf(horizontal, key, ValueAt(horizontal, points, i), Get0(bases, key), sums)
  {
    var key, v := KeyAt(horizontal, points, i), ValueAt(horizontal, points, i);
    var next := bases[key := Get0(bases, key) + AsNumber(v)];
    PercentedStep(horizontal, sums, points, i, bases);
    SliceAfter(ChunkOf(horizontal, key, v, Get0(bases, key), sums), Percented(horizontal, sums, points, i + 3, next).points, 0);
  }

  /** A later point of the buffer from `i` is the point the loop from `i + 3` writes. */
  lemma PercentedLater(horizontal: bool, sums: map<Key, real>, points: seq<Point>, i: nat, bases: map<Key, real>, d: nat)
    requires i < |points| && (|points| - i) % 3 == 0 && 3 <= d && i + d + 3 <= |points|
    ensures i + 3 <= |points|
    ensures var key := KeyAt(horizontal, points, i);
      var next := bases[key := Get0(bases, key) + AsNumber(ValueAt(horizontal, points, i))];
      Percented(horizontal, sums, points, i, bases).points[d..d + 3]
        == Percented(horizontal, sums, points, i + 3, next).points[d - 3..d - 3 + 3]
  {
    var key, v := KeyAt(horizontal, points, i), ValueAt(horizontal, points, i);
    var next := bases[key := Get0(bases, key) + AsNumber(v)];
    PercentedStep(horizontal, sums, points, i, bases);
    SliceAfter(ChunkOf(horizontal, key, v, Get0(bases, key), sums), Percented(horizontal, sums, points, i + 3, next).points, d);
    assert d - 3 + 3 == d;
  }

  /**
   * The point at `p` is written with the base its key has reached by then: the base it had
   * at `i` plus the values of the points between `i` and `p` with the same key.
   */
  lemma {:induction false} PercentedAt(horizontal: bool, sums: map<Key, real>, points: seq<Point>, i: nat, bases: map<Key, real>, p: nat, base: real)
    requires i <= p && p + 3 <= |points| && (|points| - i) % 3 == 0 && (p - i) % 3 == 0
    requires var key := KeyAt(horizontal, points, p);
      base == Get0(bases, key) + KeyTotal(horizontal, points, i, p, key)
    ensures Percented(horizontal, sums, points, i, bases).points[p - i..p - i + 3]
      == ChunkOf(horizontal, KeyAt(horizontal, points, p), ValueAt(horizontal, points, p), base, sums)
    decreases p - i
  {
    if p == i {
      PercentedHead(horizontal, sums, points, i, bases);
    } else {
      var key, v := KeyAt(horizontal, points, i), ValueAt(horizontal, points, i);
      var next := bases[key := Get0(bases, key) + AsNumber(v)];
      PercentedLater(horizontal, sums, points, i, bases, p - i);
      var kp := KeyAt(horizontal, points, p);
      assert base == Get0(next, kp) + KeyTotal(horizontal, points, i + 3, p, kp) by {
        assert Get0(next, kp) == Get0(bases, kp) + (if key == kp then AsNumber(v) else 0.0);
        KeyTotalStep(horizontal, points, i, p, kp);
      }
      PercentedAt(horizontal, sums, points, i + 3, next, p, base);
    }
  }

  lemma {:induction false} KeyTotalSplit(horizontal: bool, points: seq<Point>, i: nat, p: nat, k: Key)
    requires i <= p && p + 3 <= |points| && (|points| - i) % 3 == 0 && (p - i) % 3 == 0
    ensures KeyTotal(horizontal, points, i, |points|, k)
      == KeyTotal(horizontal, points, i, p, k)
        + (if KeyAt(horizontal, points, p) == k then AsNumber(ValueAt(horizontal, points, p)) else 0.0)
        + KeyTotal(horizontal, points, p + 3, |points|, k)
    decreases p - i
  {
    if i < p {
      KeyTotalSplit(horizontal, points, i + 3, p, k);
    }
  }

  lemma ModStep(i: int)
    ensures (i + 3) % 3 == i % 3
  {
  }

  lemma {:induction false} KeyTotalNone(horizontal: bool, points: seq<Point>, i: nat, k: Key)
    requires i <= |points| && (|points| - i) % 3 == 0
    requires forall q: nat :: i <= q && q + 3 <= |points| && q % 3 == i % 3 ==> KeyAt(horizontal, points, q) != k
    ensures KeyTotal(horizontal, points, i, |points|, k) == 0.0
    decreases |points| - i
  {
    if i < |points| {
      assert KeyAt(horizontal, points, i) != k;
      ModStep(i);
      KeyTotalNone(horizontal, points, i + 3, k);
    }
  }

  /**
   * For one key whose values are not negative: when the stack base of the key plus the
   * values of this buffer make up the key's whole sum, the last point of the buffer with
   * that key is drawn at 100 percent, and every point with that key lies between its
   * bottom and 100.
   */
  lemma TopReaches100(horizontal: bool, sums: map<Key, real>, points: seq<Point>, bases: map<Key, real>, p: nat)
    requires |points| % 3 == 0 && p + 3 <= |points| && p % 3 == 0
    requires var k := KeyAt(horizontal, points, p);
      k in sums && 0.0 <= Get0(bases, k) && Get0(bases, k) + KeyTotal(horizontal, points, 0, |points|, k) == sums[k]
    requires forall q: nat :: q + 3 <= |points| && q % 3 == 0 ==> 0.0 <= AsNumber(ValueAt(horizontal, points, q))
    requires forall q: nat :: p < q && q + 3 <= |points| && q % 3 == 0 ==> KeyAt(horizontal, points, q) != KeyAt(horizontal, points, p)
    requires sums[KeyAt(horizontal, points, p)] > 0.0
    ensures Percented(horizontal, sums, points, 0, bases).points[p + ValueOffset(horizontal)] == Some(100.0)
  {
    var k := KeyAt(horizontal, points, p);
    var base := Get0(bases, k) + KeyTotal(horizontal, points, 0, p, k);
    PercentedAt(horizontal, sums, points, 0, bases, p, base);
    KeyTotalSplit(horizontal, points, 0, p, k);
    ModStep(p);
    KeyTotalNone(horizontal, points, p + 3, k);
    var out := Percented(horizontal, sums, points, 0, bases).points;
    assert out[p + ValueOffset(horizontal)] == out[p..p + 3][ValueOffset(horizontal)];
    assert base + AsNumber(ValueAt(horizontal, points, p)) == sums[k];
    RatioBounds(0.0, sums[k], sums[k]);
  }

  /**
   * A datapoints buffer as flot builds it from a series' raw rows before the processDatapoints
   * hooks run: per row its x, its y and a third coordinate.
   */
  ghost predicate Carries(rows: seq<Row>, buf: seq<Point>) {
    |buf| == 3 * |rows| && forall j :: 0 <= j < |rows| ==> buf[3 * j] == rows[j].x && buf[3 * j + 1] == rows[j].y
  }

  /** The point at `q` of a buffer built from rows reads its key and value from row q / 3. */
  lemma CarriesAt(horizontal: bool, rows: seq<Row>, buf: seq<Point>, q: nat)
    requires Carries(rows, buf) && q % 3 == 0 && q + 3 <= |buf|
    ensures q / 3 < |rows|
    ensures KeyAt(horizontal, buf, q) == KeyOf(horizontal, rows[q / 3])
    ensures ValueAt(horizontal, buf, q) == ValueOf(horizontal, rows[q / 3])
  {
    var j := q / 3;
    assert 3 * j == q;
    assert buf[3 * j] == rows[j].x && buf[3 * j + 1] == rows[j].y;
  }

  lemma {:induction false} KeyTotalEnd(horizontal: bool, points: seq<Point>, i: nat, p: nat, k: Key)
    requires i <= p && p + 3 <= |points| && (p - i) % 3 == 0
    ensures KeyTotal(horizontal, points, i, p + 3, k)
      == KeyTotal(horizontal, points, i, p, k) + (if KeyAt(horizontal, points, p) == k then AsNumber(ValueAt(horizontal, points, p)) else 0.0)
    decreases p - i
  {
    if i < p {
      KeyTotalEnd(horizontal, points, i + 3, p, k);
    }
  }

  /** Over a buffer built from rows without a null y, the points' values at a key add up to the rows' total there. */
  lemma {:induction false} KeyTotalRows(horizontal: bool, rows: seq<Row>, buf: seq<Point>, n: nat, k: Key)
    requires Carries(rows, buf) && n <= |rows|
    requires forall j :: 0 <= j < |rows| ==> rows[j].y.Some?
    ensures KeyTotal(horizontal, buf, 0, 3 * n, k) == RowsTotal(horizontal, rows[..n], k)
    decreases n
  {
    if n > 0 {
      var q := 3 * (n - 1);
      KeyTotalRows(horizontal, rows, buf, n - 1, k);
      KeyTotalEnd(horizontal, buf, 0, q, k);
      CarriesAt(horizontal, rows, buf, q);
      assert q / 3 == n - 1;
      assert rows[..n][..n - 1] == rows[..n - 1];
    }
  }

  /** Every buffer of the plot is built from its series' rows. */
  ghost predicate PlotCarries(all: seq<PercentSeries>, bufs: seq<seq<Point>>) {
    |all| == |bufs| && forall i :: 0 <= i < |all| ==> Carries(all[i].data, bufs[i])
  }

  lemma PlotBuffers(all: seq<PercentSeries>, bufs: seq<seq<Point>>)
    requires PlotCarries(all, bufs)
    ensures forall i :: 0 <= i < |bufs| ==> |bufs[i]| % 3 == 0
  {
    forall i | 0 <= i < |bufs|
      ensures |bufs[i]| % 3 == 0
    {
      assert Carries(all[i].data, bufs[i]);
    }
  }

  /**
   * The stack bases once stackData has run for the first `n` series of the plot, one call
   * per series in plot order, starting from the empty bases of a new plugin: a series
   * whose option is set leaves the bases its loop computes, any other leaves them alone.
   */
  function BasesAfter(all: seq<PercentSeries>, bufs: seq<seq<Point>>, sums: map<Key, real>, n: nat): map<Key, real>
    requires n <= |all| == |bufs| && forall i :: 0 <= i < |bufs| ==> |bufs[i]| % 3 == 0
    decreases n
  {
    if n == 0 then map[]
    else
      var before, s := BasesAfter(all, bufs, sums, n - 1), all[n - 1];
      if s.stackpercent then Percented(s.horizontal, sums, bufs[n - 1], 0, before).bases else before
  }

  /** The buffer the `n`-th series of the plot is drawn from after its stackData call. */
  function Drawn(all: seq<PercentSeries>, bufs: seq<seq<Point>>, sums: map<Key, real>, n: nat): seq<Point>
    requires n < |all| == |bufs| && forall i :: 0 <= i < |bufs| ==> |bufs[i]| % 3 == 0
  {
    if all[n].stackpercent then Percented(all[n].horizontal, sums, bufs[n], 0, BasesAfter(all, bufs, sums, n)).points
    else bufs[n]
  }

  /** Before the `n`-th call, each key's base is the total of the earlier percent-stacked series at that key. */
  lemma {:induction false} BasesTotal(all: seq<PercentSeries>, bufs: seq<seq<Point>>, sums: map<Key, real>, n: nat, k: Key)
    requires PlotCarries(all, bufs) && NoNullY(all) && n <= |all|
    requires forall i :: 0 <= i < |bufs| ==> |bufs[i]| % 3 == 0
    ensures Get0(BasesAfter(all, bufs, sums, n), k) == Total(all[..n], k)
    decreases n
  {
    if n > 0 {
      var s, buf := all[n - 1], bufs[n - 1];
      var before := BasesAfter(all, bufs, sums, n - 1);
      BasesTotal(all, bufs, sums, n - 1, k);
      assert all[..n][..n - 1] == all[..n - 1];
      assert all[..n][n - 1] == s;
      if s.stackpercent {
        assert Carries(s.data, buf);
        BasesGrow(s.horizontal, sums, buf, 0, before, k);
        KeyTotalRows(s.horizontal, s.data, buf, |s.data|, k);
        assert s.data[..|s.data|] == s.data;
      }
    }
  }

  /** No row of a percent-stacked series has a negative value. */
  ghost predicate NonNegative(all: seq<PercentSeries>) {
    forall i, j :: 0 <= i < |all| && all[i].stackpercent && 0 <= j < |all[i].data| ==> 0.0 <= AsNumber(ValueOf(all[i].horizontal, all[i].data[j]))
  }

  lemma {:induction false} RowsTotalNonNegative(horizontal: bool, rows: seq<Row>, k: Key)
    requires forall j :: 0 <= j < |rows| ==> 0.0 <= AsNumber(ValueOf(horizontal, rows[j]))
    ensures 0.0 <= RowsTotal(horizontal, rows, k)
    decreases |rows|
  {
    if rows != [] {
      var front := rows[..|rows| - 1];
      assert forall j :: 0 <= j < |front| ==> front[j] == rows[j];
      RowsTotalNonNegative(horizontal, front, k);
    }
  }

  lemma {:induction false} RowsTotalNone(horizontal: bool, rows: seq<Row>, k: Key)
    requires forall j :: 0 <= j < |rows| ==> KeyOf(horizontal, rows[j]) != k
    ensures RowsTotal(horizontal, rows, k) == 0.0
    decreases |rows|
  {
    if rows != [] {
      var front := rows[..|rows| - 1];
      assert forall j :: 0 <= j < |front| ==> front[j] == rows[j];
      RowsTotalNone(horizontal, front, k);
    }
  }

  lemma {:induction false} PrefixNonNegative(all: seq<PercentSeries>, m: nat, k: Key)
    requires NonNegative(all) && m <= |all|
    ensures 0.0 <= Total(all[..m], k)
    decreases m
  {
    if m > 0 {
      var s := all[m - 1];
      PrefixNonNegative(all, m - 1, k);
      assert all[..m][..m - 1] == all[..m - 1];
      assert all[..m][m - 1] == s;
      if s.stackpercent {
        RowsTotalNonNegative(s.horizontal, s.data, k);
      }
    }
  }

  /** Series after the m-th that have no row at `k` add nothing to the total there. */
  lemma {:induction false} TotalLaterNone(all: seq<PercentSeries>, m: nat, k: Key)
    requires m <= |all|
    requires forall i, j :: m <= i < |all| && all[i].stackpercent && 0 <= j < |all[i].data| ==> KeyOf(all[i].horizontal, all[i].data[j]) != k
    ensures Total(all, k) == Total(all[..m], k)
    decreases |all|
  {
    if |all| == m {
      assert all[..m] == all;
    } else {
      var front, s := all[..|all| - 1], all[|all| - 1];
      assert front[..m] == all[..m];
      assert forall i :: m <= i < |front| ==> front[i] == all[i];
      TotalLaterNone(front, m, k);
      if s.stackpercent {
        RowsTotalNone(s.horizontal, s.data, k);
      }
    }
  }

  /**
   * Before the `n`-th series is stacked, its key's base plus its own values at that key
   * make up the whole sum there, when no later series has a row at the key.
   */
  lemma BaseMeetsSum(all: seq<PercentSeries>, bufs: seq<seq<Point>>, n: nat, k: Key)
    requires PlotCarries(all, bufs) && NoNullY(all) && n < |all| && all[n].stackpercent
    requires forall i :: 0 <= i < |bufs| ==> |bufs[i]| % 3 == 0
    requires forall i, j :: n < i < |all| && all[i].stackpercent && 0 <= j < |all[i].data| ==> KeyOf(all[i].horizontal, all[i].data[j]) != k
    ensures Get0(BasesAfter(all, bufs, SumsOf(all), n), k) + KeyTotal(all[n].horizontal, bufs[n], 0, |bufs[n]|, k) == Get0(SumsOf(all), k)
  {
    var s, buf := all[n], bufs[n];
    assert Carries(s.data, buf);
    BasesTotal(all, bufs, SumsOf(all), n, k);
    SumsTotal(all, k);
    TotalLaterNone(all, n + 1, k);
    assert all[..n + 1][..n] == all[..n];
    assert all[..n + 1][n] == s;
    KeyTotalRows(s.horizontal, s.data, buf, |s.data|, k);
    assert s.data[..|s.data|] == s.data;
  }

  /**
   * Over a whole plot whose percent-stacked series carry their rows, with no null y and no
   * negative value: the last point at key `k` of the last series with a row at `k` is drawn
   * at 100 percent, when the sum at `k` is positive.
   */
  lemma PlotTopReaches100(all: seq<PercentSeries>, bufs: seq<seq<Point>>, n: nat, p: nat)
    requires PlotCarries(all, bufs) && NoNullY(all) && NonNegative(all)
    requires n < |all| && all[n].stackpercent && p % 3 == 0 && p + 3 <= |bufs[n]|
    requires forall i :: 0 <= i < |bufs| ==> |bufs[i]| % 3 == 0
    requires var h, k := all[n].horizontal, KeyAt(all[n].horizontal, bufs[n], p);
      (forall q: nat :: p < q && q + 3 <= |bufs[n]| && q % 3 == 0 ==> KeyAt(h, bufs[n], q) != k)
      && (forall i, j :: n < i < |all| && all[i].stackpercent && 0 <= j < |all[i].data| ==> KeyOf(all[i].horizontal, all[i].data[j]) != k)
      && Get0(SumsOf(all), k) > 0.0
    ensures Drawn(all, bufs, SumsOf(all), n)[p + ValueOffset(all[n].horizontal)] == Some(100.0)
  {
    var s, buf, sums := all[n], bufs[n], SumsOf(all);
    var h, k := s.horizontal, KeyAt(s.horizontal, bufs[n], p);
    var before := BasesAfter(all, bufs, sums, n);
    BaseMeetsSum(all, bufs, n, k);
    assert 0.0 <= Get0(before, k) by {
      BasesTotal(all, bufs, sums, n, k);
      PrefixNonNegative(all, n, k);
    }
    assert Carries(s.data, buf);
    forall q: nat | q + 3 <= |buf| && q % 3 == 0
      ensures 0.0 <= AsNumber(ValueAt(h, buf, q))
    {
      CarriesAt(h, s.data, buf, q);
    }
    TopReaches100(h, sums, buf, before, p);
  }

  /**
   * Two percent-stacked series with one point each at x = 0, of values 10 and 30: the
   * first is drawn from 0 up to 25 percent, the second from 25 up to 100.
   */
  lemma PercentStackExample()
    ensures var all := [PercentSeries(true, false, [Row(Some(0.0), Some(10.0))]), PercentSeries(true, false, [Row(Some(0.0), Some(30.0))])];
      var bufs := [[Some(0.0), Some(10.0), Some(0.0)], [Some(0.0), Some(30.0), Some(0.0)]];
      var sums := SumsOf(all);
      sums == map[Some(0.0) := 40.0]
      && Drawn(all, bufs, sums, 0) == [Some(0.0), Some(25.0), Some(0.0)]
      && Drawn(all, bufs, sums, 1) == [Some(0.0), Some(100.0), Some(25.0)]
  {
    var a, b := PercentSeries(true, false, [Row(Some(0.0), Some(10.0))]), PercentSeries(true, false, [Row(Some(0.0), Some(30.0))]);
    var all := [a, b];
    var bufA, bufB := [Some(0.0), Some(10.0), Some(0.0)], [Some(0.0), Some(30.0), Some(0.0)];
    var bufs := [bufA, bufB];
    var k := Some(0.0);
    assert all[..1] == [a] && [a][..0] == [];
    assert SumsOf([a]) == map[k := 10.0];
    var sums := SumsOf(all);
    assert sums == map[k := 40.0];
    assert BasesAfter(all, bufs, sums, 0) == map[];
    PercentedStep(false, sums, bufA, 0, map[]);
    PercentedEnd(false, sums, bufA, map[k := 10.0]);
    ChunkDef(false, k, Some(10.0), 0.0, sums);
    RatioDef(10.0, 40.0);
    RatioDef(0.0, 40.0);
    assert Drawn(all, bufs, sums, 0) == [k, Some(25.0), Some(0.0)];
    assert BasesAfter(all, bufs, sums, 1) == map[k := 10.0];
    PercentedStep(false, sums, bufB, 0, map[k := 10.0]);
    PercentedEnd(false, sums, bufB, map[k := 40.0]);
    ChunkDef(false, k, Some(30.0), 10.0, sums);
    RatioDef(40.0, 40.0);
    RatioDef(10.0, 40.0);
    assert Drawn(all, bufs, sums, 1) == [k, Some(100.0), Some(25.0)];
  }

  /** The plugin's state, shared by all series of one plot. */
  class PercentPlugin {
    /** Per key, the values stacked so far. */
    var stackBases: map<Key, real>
    var processed: bool
    /** Per key, the sum over all series whose option is set. */
    var stackSums: map<Key, real>

    constructor ()
      ensures stackBases == map[] && !processed && stackSums == map[]
    {
      stackBases := map[];
      processed := false;
      stackSums := map[];
    }

    /**
     * processRawData(plot, series, data, datapoints): compute the sums once per plot, then,
     * for a series whose option is set, the percentage of every row's value in its key's sum.
     * The percentages, which the source stores as `series.percents`, are the result.
     */
    method ProcessRawData(series: PercentSeries, all: seq<PercentSeries>) returns (percents: Option<seq<real>>)
      modifies this`processed, this`stackSums
      ensures processed
      ensures stackSums == if old(processed) then old(stackSums) else SumsOf(all)
      ensures percents == if series.stackpercent then Some(Percents(series.horizontal, series.data, stackSums)) else None
    {
      if !processed {
        processed := true;
        stackSums := GetStackSums(all);
      }
      if !series.stackpercent {
        return None;
      }
      var horizontal, rows := series.horizontal, series.data;
      var ps: seq<real> := [];
      var j := 0;
      while j < |rows|
        invariant j <= |rows|
        invariant ps == Percents(horizontal, rows[..j], stackSums)
      {
        assert rows[..j + 1][..j] == rows[..j];
        var key := KeyOf(horizontal, rows[j]);
        if key in stackSums && stackSums[key] > 0.0 {
          ps := ps + [Ratio(AsNumber(ValueOf(horizontal, rows[j])), stackSums[key])];
        } else {
          ps := ps + [0.0];
        }
        j := j + 1;
      }
      assert rows[..|rows|] == rows;
      return Some(ps);
    }

    /**
     * stackData(plot, s, datapoints): for a series whose option is set, recompute the sums
     * if processRawData has not run, then write every point as its key, its value over the
     * key's stack base and that base, both in percent of the key's sum, growing the base by
     * the value. The new buffer is the result; other series keep theirs.
     */
    method StackData(s: PercentSeries, all: seq<PercentSeries>, points: seq<Point>) returns (newPoints: seq<Point>)
      requires |points| % 3 == 0
      modifies this`stackBases, this`stackSums
      ensures !s.stackpercent ==> newPoints == points && stackBases == old(stackBases) && stackSums == old(stackSums)
      ensures s.stackpercent ==> stackSums == if old(processed) then old(stackSums) else SumsOf(all)
      ensures s.stackpercent ==> Percented(s.horizontal, stackSums, points, 0, old(stackBases)) == Chunked(newPoints, stackBases)
    {
      if !s.stackpercent {
        return points;
      }
      if !processed {
        stackSums := GetStackSums(all);
      }
      newPoints := WritePercents(s.horizontal, points);
    }

    /**
     * The loop of stackData: every point becomes its key, its value plus the key's base and
     * the base, both turned into percent of the key's sum; the base then grows by the value.
     */
    method WritePercents(horizontal: bool, points: seq<Point>) returns (newPoints: seq<Point>)
      requires |points| % 3 == 0
      modifies this`stackBases
      ensures Percented(horizontal, stackSums, points, 0, old(stackBases)) == Chunked(newPoints, stackBases)
    {
      ghost var whole := Percented(horizontal, stackSums, points, 0, stackBases);
      newPoints := [];
      var i := 0;
      while i < |points|
        invariant i <= |points| && (|points| - i) % 3 == 0
        invariant whole.points == newPoints + Percented(horizontal, stackSums, points, i, stackBases).points
        invariant whole.bases == Percented(horizontal, stackSums, points, i, stackBases).bases
        decreases |points| - i
      {
        ghost var before := stackBases;
        var key := points[i + KeyOffset(horizontal)];
        var base := Get0(stackBases, key);
        var value, bottom := AsNumber(points[i + ValueOffset(horizontal)]) + base, base;
        stackBases := stackBases[key := base + AsNumber(points[i + ValueOffset(horizontal)])];
        if key in stackSums && stackSums[key] > 0.0 {
          value, bottom := Ratio(value, stackSums[key]), Ratio(bottom, stackSums[key]);
        } else {
          value, bottom := 0.0, 0.0;
        }
        var chunk := if horizontal then [Some(value), key, Some(bottom)] else [key, Some(value), Some(bottom)];
        ghost var rest := Percented(horizontal, stackSums, points, i + 3, stackBases);
        assert chunk == ChunkOf(horizontal, key, points[i + ValueOffset(horizontal)], base, stackSums) by {
          ChunkDef(horizontal, key, points[i + ValueOffset(horizontal)], base, stackSums);
        }
        assert Percented(horizontal, stackSums, points, i, before) == Chunked(chunk + rest.points, rest.bases) by {
          PercentedStep(horizontal, stackSums, points, i, before);
        }
        Regroup(newPoints, chunk, rest.points);
        newPoints := newPoints + chunk;
        i := i + 3;
      }
      PercentedEnd(horizontal, stackSums, points, stackBases);
      assert newPoints + [] == newPoints;
    }
  }
}
