/**
 * The histogram's render path: the list of times every series must plot when there is
 * more than one (`required_times`), the per-series pairs built over it, and the two
 * `_.map` transforms applied to them, `derivative` and `scale`.
 */
module Render {
  import opened Seqs
  import opened TimeParse
  import opened TimeSeries
  import Fill

  /**
   * derivative(series) at index `i`: null for the first point, for a null point and for a
   * point after a null one, the difference from the previous value otherwise.
   */
  function Slope(s: seq<Pair>, i: nat): Stored
    requires i < |s|
  {
    if i == 0 || s[i].1.None? then None
    else if s[i - 1].1.None? then None
    else Some(s[i].1.value - s[i - 1].1.value)
  }

  /** derivative(series), point by point. */
  function Derivative(s: seq<Pair>): (r: seq<Pair>)
    ensures Xs(r) == Xs(s)
  {
    seq(|s|, i requires 0 <= i < |s| => (s[i].0, Slope(s, i)))
  }

  /**
   * The product of two numbers. The depth only delegates: it keeps the product out of
   * sight of the solver, which does not substitute equal terms inside a product, so that
   * the algebra of scaling is done once in TimesAssoc and TimesOne.
   */
  function Times(x: real, y: real): real {
    TimesAt(x, y, 2)
  }

  function TimesAt(x: real, y: real, depth: nat): real
    decreases x, depth
  {
    if depth > 0 then TimesAt(x, y, depth - 1) else x * y
  }

  lemma TimesDef(x: real, y: real)
    ensures Times(x, y) == x * y
  {
    assert TimesAt(x, y, 2) == TimesAt(x, y, 0);
  }

  lemma TimesAssoc(x: real, a: real, b: real)
    ensures Times(Times(x, a), b) == Times(x, a * b)
  {
    TimesDef(x, a);
    TimesDef(Times(x, a), b);
    TimesDef(x, a * b);
  }

  lemma TimesInverse(x: real, f: real)
    requires f != 0.0
    ensures Times(Times(x, f), 1.0 / f) == x
  {
    TimesDef(x, f);
    TimesDef(Times(x, f), 1.0 / f);
    assert f * (1.0 / f) == 1.0;
    assert (x * f) * (1.0 / f) == x * (f * (1.0 / f));
  }

  lemma TimesOne(x: real)
    ensures Times(x, 1.0) == x
  {
    TimesDef(x, 1.0);
  }

  /** `p[1] * factor`, where a null counts as 0. */
  function Scaled(v: Stored, factor: real): Stored {
    Some(Times(AsNumber(v), factor))
  }

  /** scale(series, factor): each value times the factor. */
  function Scale(s: seq<Pair>, factor: real): (r: seq<Pair>)
    ensures Xs(r) == Xs(s)
  {
    seq(|s|, i requires 0 <= i < |s| => (s[i].0, Scaled(s[i].1, factor)))
  }

  /** The sum of the (non-null) values at indices a .. b-1. */
  function ValueSum(r: seq<Pair>, a: nat, b: nat): real
    requires a <= b <= |r| && forall k :: a <= k < b ==> r[k].1.Some?
    decreases b - a
  {
    if a == b then 0.0 else ValueSum(r, a, b - 1) + r[b - 1].1.value
  }

  /** A derivative point is null exactly at the start and next to a null. */
  lemma DerivativeNulls(s: seq<Pair>, i: nat)
    requires i < |s|
    ensures Derivative(s)[i].1.None? <==> i == 0 || s[i].1.None? || s[i - 1].1.None?
  {
  }

  /**
   * The derivative telescopes: over a run of non-null points, its values after the first
   * point add up to the change in value across the run.
   */
  lemma {:induction false} DerivativeTelescopes(s: seq<Pair>, j: nat, m: nat)
    requires j <= m < |s| && forall k :: j <= k <= m ==> s[k].1.Some?
    ensures forall k :: j < k <= m ==> Derivative(s)[k].1.Some?
    ensures ValueSum(Derivative(s), j + 1, m + 1) == s[m].1.value - s[j].1.value
    decreases m - j
  {
    var r := Derivative(s);
    if m > j {
      DerivativeTelescopes(s, j, m - 1);
      assert r[m].1 == Some(s[m].1.value - s[m - 1].1.value);
    }
  }

  /** Scaling never leaves a null: the nulls of the derivative become 0. */
  lemma ScaleNoNulls(s: seq<Pair>, factor: real)
    ensures forall k :: 0 <= k < |s| ==> Scale(s, factor)[k].1.Some?
  {
  }

  lemma ScaleAt(s: seq<Pair>, factor: real, k: nat)
    requires k < |s|
    ensures Scale(s, factor)[k] == (s[k].0, Scaled(s[k].1, factor))
  {
  }

  /** Scaling twice is scaling by the product of the factors. */
  lemma ScaleCompose(s: seq<Pair>, a: real, b: real)
    ensures Scale(Scale(s, a), b) == Scale(s, a * b)
  {
    var once := Scale(s, a);
    forall k | 0 <= k < |s|
      ensures Scale(once, b)[k] == Scale(s, a * b)[k]
    {
      ScaleAt(s, a, k);
      ScaleAt(once, b, k);
      ScaleAt(s, a * b, k);
      TimesAssoc(AsNumber(s[k].1), a, b);
    }
  }

  lemma {:induction false} ZeroedAt(ps: seq<Pair>, k: nat)
    requires k < |ps|
    ensures Fill.Zeroed(ps)[k] == (ps[k].0, if ps[k].1.None? then Some(0.0) else ps[k].1)
    decreases k
  {
    if k > 0 {
      ZeroedAt(ps[1..], k - 1);
    }
  }

  /** Scaling by 1 only reads null as 0, and scaling by f and then 1/f undoes the first. */
  lemma ScaleByOne(s: seq<Pair>, f: real)
    requires f != 0.0
    ensures Scale(s, 1.0) == Fill.Zeroed(s)
    ensures Scale(Scale(s, f), 1.0 / f) == Fill.Zeroed(s)
  {
    forall k | 0 <= k < |s|
      ensures Scale(s, 1.0)[k] == Fill.Zeroed(s)[k]
    {
      ZeroedAt(s, k);
      TimesOne(AsNumber(s[k].1));
    }
    forall k | 0 <= k < |s|
      ensures Scale(Scale(s, f), 1.0 / f)[k] == Fill.Zeroed(s)[k]
    {
      ZeroedAt(s, k);
      ScaleAt(s, f, k);
      ScaleAt(Scale(s, f), 1.0 / f, k);
      TimesInverse(AsNumber(s[k].1), f);
    }
  }

  /** The transforms the panel applies to a series' pairs: derivative if enabled, then scale unless it is 1. */
  function Transform(d: seq<Pair>, derivative: bool, scale: real): seq<Pair> {
    TransformAt(d, derivative, scale, 2)
  }

  /** The depth only delegates; it keeps the verifier from expanding the transforms where they are only carried along. */
  function TransformAt(d: seq<Pair>, derivative: bool, scale: real, depth: nat): seq<Pair>
    decreases d, depth
  {
    if depth > 0 then TransformAt(d, derivative, scale, depth - 1)
    else
      var a := if derivative then Derivative(d) else d;
      if scale != 1.0 then Scale(a, scale) else a
  }

  lemma TransformDef(d: seq<Pair>, derivative: bool, scale: real)
    ensures Transform(d, derivative, scale)
      == var a := if derivative then Derivative(d) else d; if scale != 1.0 then Scale(a, scale) else a
  {
    assert TransformAt(d, derivative, scale, 2) == TransformAt(d, derivative, scale, 0);
  }

  /** The transforms keep every x; a scale other than 1 leaves no null. */
  lemma TransformShape(d: seq<Pair>, derivative: bool, scale: real)
    ensures Xs(Transform(d, derivative, scale)) == Xs(d)
    ensures scale != 1.0 ==> forall k :: 0 <= k < |d| ==> Transform(d, derivative, scale)[k].1.Some?
  {
    TransformDef(d, derivative, scale);
  }

  ghost predicate AllValid(series: seq<ZeroFilled>)
    reads series
  {
    forall k :: 0 <= k < |series| ==> series[k].Valid()
  }

  /** Every time some series has a value at. */
  ghost function KeysOf(series: seq<ZeroFilled>): set<int>
    reads series
  {
    if series == [] then {} else KeysOf(series[..|series| - 1]) + series[|series| - 1].data.Keys
  }

  lemma {:induction false} KeysOfMember(series: seq<ZeroFilled>, k: nat, t: int)
    requires k < |series| && t in series[k].data
    ensures t in KeysOf(series)
    decreases |series|
  {
    if k < |series| - 1 {
      KeysOfMember(series[..|series| - 1], k, t);
    }
  }

  /** The concatenation of every series' ordered times, first series first. */
  function AllTimes(series: seq<ZeroFilled>): (ts: seq<int>)
    reads series
    requires AllValid(series)
    ensures Elems(ts) == KeysOf(series)
  {
    if series == [] then []
    else
      var rest := AllTimes(series[..|series| - 1]);
      var own := series[|series| - 1].OrderedTimes(None);
      assert Elems(rest + own) == Elems(rest) + Elems(own);
      rest + own
  }

  /**
   * `required_times`: with more than one series, the union of all their times, sorted
   * and without duplicates; otherwise empty.
   */
  function RequiredTimes(series: seq<ZeroFilled>): (r: seq<int>)
    reads series
    requires AllValid(series)
    ensures StrictlyAscending(r)
    ensures |series| > 1 ==> Elems(r) == KeysOf(series)
    ensures |series| <= 1 ==> r == []
  {
    if |series| > 1 then SortUniq(AllTimes(series)) else []
  }

  /** The pairs a series hands to the plot for the given required times, before the transforms. */
  function SeriesPairs(ts: ZeroFilled, required: seq<int>): seq<Pair>
    reads ts
    requires ts.Valid()
  {
    SeriesPairsAt(ts, required, 2)
  }

  /** The depth only delegates; it keeps the verifier from expanding the fill where a series' pairs are mentioned. */
  function SeriesPairsAt(ts: ZeroFilled, required: seq<int>, depth: nat): seq<Pair>
    reads ts
    requires ts.Valid()
    decreases required, depth
  {
    if depth > 0 then SeriesPairsAt(ts, required, depth - 1)
    else FlotPairs(FillStyleOf(ts.fillStyle), ts.interval, ts.data, ts.OrderedTimes(Some(required)))
  }

  lemma SeriesPairsDef(ts: ZeroFilled, required: seq<int>)
    requires ts.Valid()
    ensures SeriesPairs(ts, required)
      == FlotPairs(FillStyleOf(ts.fillStyle), ts.interval, ts.data, ts.OrderedTimes(Some(required)))
  {
    assert SeriesPairsAt(ts, required, 2) == SeriesPairsAt(ts, required, 0);
  }

  /**
   * With more than one series, every series is laid out over exactly the same list of
   * times, the required times, so that stacked bars line up.
   */
  lemma SharedTimes(series: seq<ZeroFilled>, k: nat)
    requires AllValid(series) && |series| > 1 && k < |series|
    ensures series[k].OrderedTimes(Some(RequiredTimes(series))) == RequiredTimes(series)
  {
    var req := RequiredTimes(series);
    var own := series[k].OrderedTimes(Some(req));
    assert Elems(own) == Elems(req) by {
      forall t | t in series[k].data
        ensures t in KeysOf(series)
      {
        KeysOfMember(series, k, t);
      }
    }
    AscendingUnique(own, req);
  }

  /** A single series is laid out over its own times only. */
  lemma SingleSeriesOwnTimes(series: seq<ZeroFilled>)
    requires AllValid(series) && |series| == 1
    ensures series[0].OrderedTimes(Some(RequiredTimes(series))) == series[0].OrderedTimes(None)
  {
    AscendingUnique(series[0].OrderedTimes(Some([])), series[0].OrderedTimes(None));
  }

  /**
   * Any series that zero- or null-fills has exactly one point at every required time: the
   * bars of the stack all have their point at every time some series has.
   */
  lemma AlignedForStacking(series: seq<ZeroFilled>, k: nat, i: nat)
    requires AllValid(series) && |series| > 1 && k < |series|
    requires FillStyleOf(series[k].fillStyle) != NoFill
    requires i < |RequiredTimes(series)|
    ensures Fill.CountAt(SeriesPairs(series[k], RequiredTimes(series)), RequiredTimes(series)[i]) == 1
  {
    var req := RequiredTimes(series);
    SharedTimes(series, k);
    SeriesPairsDef(series[k], req);
    Fill.EachTimeOnce(FillStyleOf(series[k].fillStyle), series[k].interval, series[k].data, req, i);
  }

  /** One series' data for the plot: its pairs over the required times, then the enabled transforms. */
  method RenderSeries(ts: ZeroFilled, required: seq<int>, derivative: bool, scale: real) returns (d: seq<Pair>)
    requires ts.Valid()
    ensures d == Transform(SeriesPairs(ts, required), derivative, scale)
  {
    d := ts.GetFlotPairs(Some(required));
    SeriesPairsDef(ts, required);
    TransformDef(d, derivative, scale);
    if derivative {
      d := Derivative(d);
    }
    if scale != 1.0 {
      d := Scale(d, scale);
    }
  }

  /**
   * The loop of render_panel over the series: each gets its pairs over the given
   * required times, then the derivative and the scale when the panel asks for them.
   */
  method PlotData(series: seq<ZeroFilled>, required: seq<int>, derivative: bool, scale: real) returns (out: seq<seq<Pair>>)
    requires AllValid(series)
    ensures |out| == |series|
    ensures forall k :: 0 <= k < |series| ==> out[k] == Transform(SeriesPairs(series[k], required), derivative, scale)
  {
    out := [];
    for i := 0 to |series|
      invariant |out| == i
      invariant forall k :: 0 <= k < i ==> out[k] == Transform(SeriesPairs(series[k], required), derivative, scale)
    {
      var d := RenderSeries(series[i], required, derivative, scale);
      out := out + [d];
    }
  }

  /** render_panel's data: the required times of all the series, then every series plotted over them. */
  method RenderData(series: seq<ZeroFilled>, derivative: bool, scale: real) returns (out: seq<seq<Pair>>)
    requires AllValid(series)
    ensures |out| == |series|
    ensures forall k :: 0 <= k < |series| ==>
      out[k] == Transform(SeriesPairs(series[k], RequiredTimes(series)), derivative, scale)
  {
    var required := RequiredTimes(series);
    out := PlotData(series, required, derivative, scale);
  }
}
