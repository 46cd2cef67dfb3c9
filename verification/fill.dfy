/**
 * What the four fill strategies of `ts.ZeroFilled.getFlotPairs` produce, stated against
 * the strictly ascending list of times that getOrderedTimes hands them.
 */
module Fill {
  import opened Intervals
  import opened Seqs
  import opened TimeParse
  import opened TimeSeries

  /** How many pairs of `ps` sit at `x`. */
  function CountAt(ps: seq<Pair>, x: int): nat
    decreases |ps|, 3
  {
    CountFrom(ps, x, 2)
  }

  /**
   * The count, reached through `depth` levels of delegation. The delegation keeps the
   * verifier from unrolling the count over a long concatenation wherever one is
   * mentioned; proofs ask for one step of it through CountAtDef.
   */
  function CountFrom(ps: seq<Pair>, x: int, depth: nat): nat
    decreases |ps|, depth
  {
    if depth > 0 then CountFrom(ps, x, depth - 1)
    else if ps == [] then 0 else (if ps[0].0 == x then 1 else 0) + CountAt(ps[1..], x)
  }

  lemma CountAtDef(ps: seq<Pair>, x: int)
    ensures CountAt(ps, x) == if ps == [] then 0 else (if ps[0].0 == x then 1 else 0) + CountAt(ps[1..], x)
  {
    assert CountFrom(ps, x, 2) == CountFrom(ps, x, 0);
  }

  /** The count in an empty and in a one-pair sequence. */
  lemma CountAtSmall(p: Pair, x: int)
    ensures CountAt([], x) == 0
    ensures CountAt([p], x) == if p.0 == x then 1 else 0
  {
    CountAtDef([], x);
    CountAtDef([p], x);
    CountAtDef([p][1..], x);
  }

  lemma {:induction false} CountAtAppend(a: seq<Pair>, b: seq<Pair>, x: int)
    ensures CountAt(a + b, x) == CountAt(a, x) + CountAt(b, x)
    decreases |a|
  {
    CountAtDef(a, x);
    CountAtDef(a + b, x);
    if a == [] {
      assert a + b == b;
    } else {
      assert (a + b)[1..] == a[1..] + b;
      CountAtAppend(a[1..], b, x);
    }
  }

  lemma {:induction false} CountAtAbsent(ps: seq<Pair>, x: int)
    requires forall p :: p in ps ==> p.0 != x
    ensures CountAt(ps, x) == 0
    decreases |ps|
  {
    CountAtDef(ps, x);
    if ps != [] {
      assert ps[0] in ps;
      assert ps == [ps[0]] + ps[1..];
      CountAtAbsent(ps[1..], x);
    }
  }

  /** `x` lies strictly between two neighbouring times. */
  ghost predicate Between(times: seq<int>, x: int) {
    exists k :: 0 <= k < |times| - 1 && times[k] < x < times[k + 1]
  }

  lemma BetweenNotTime(times: seq<int>, k: nat, x: int)
    requires StrictlyAscending(times) && k < |times| - 1 && times[k] < x < times[k + 1]
    ensures x !in times && Between(times, x)
  {
    forall j | 0 <= j < |times|
      ensures times[j] != x
    {
      if j < k {
        assert times[j] < times[k];
      } else if j > k + 1 {
        assert times[k + 1] < times[j];
      }
    }
  }

  lemma TimesDiffer(times: seq<int>, i: nat, k: nat)
    requires StrictlyAscending(times) && i < |times| && k < |times| && i != k
    ensures times[i] != times[k]
  {
    if k < i {
      assert times[k] < times[i];
    } else {
      assert times[i] < times[k];
    }
  }

  /**
   * A point of minimal or all fill: a time carrying its stored value (or 0), or a
   * synthetic zero strictly between two neighbouring times.
   */
  ghost predicate ZeroFilledPoint(data: map<int, Stored>, times: seq<int>, p: Pair) {
    if p.0 in times then p.1 == OrZero(data, p.0) else p.1 == Some(0.0) && Between(times, p.0)
  }

  /** The point minimal and null fill put one step before the i-th time, if any. */
  function BeforeSide(iv: Interval, times: seq<int>, i: nat, gap: Stored): seq<Pair>
    requires i < |times|
  {
    if i > 0 && times[i - 1] < Before(iv, times[i]) then [(Before(iv, times[i]), gap)] else []
  }

  /** The point minimal and null fill put one step after the i-th time, if any. */
  function AfterSide(iv: Interval, times: seq<int>, i: nat, gap: Stored): seq<Pair>
    requires i < |times|
  {
    if i + 1 < |times| && times[i + 1] > After(iv, times[i]) then [(After(iv, times[i]), gap)] else []
  }

  /** The shape shared by the minimal and null steps. */
  function Sided(iv: Interval, times: seq<int>, i: nat, gap: Stored, v: Stored): seq<Pair>
    requires i < |times|
  {
    BeforeSide(iv, times, i, gap) + [(times[i], v)] + AfterSide(iv, times, i, gap)
  }

  lemma MinStepSided(iv: Interval, data: map<int, Stored>, times: seq<int>, i: nat)
    requires i < |times|
    ensures MinStep(iv, data, times, i) == Sided(iv, times, i, Some(0.0), OrZero(data, times[i]))
    ensures NullStep(iv, data, times, i) == Sided(iv, times, i, None, OrNull(data, times[i]))
  {
  }

  lemma BeforeSideBetween(iv: Interval, times: seq<int>, i: nat, gap: Stored)
    requires Intervals.Valid(iv) && StrictlyAscending(times) && i < |times|
    ensures forall p :: p in BeforeSide(iv, times, i, gap) ==> p.1 == gap && p.0 !in times && Between(times, p.0)
  {
    var t := times[i];
    var b := Before(iv, t);
    if i > 0 && times[i - 1] < b {
      var k := i - 1;
      assert times[k] < b < times[k + 1] by {
        BeforeShrinks(iv, t);
      }
      BetweenNotTime(times, k, b);
      assert BeforeSide(iv, times, i, gap) == [(b, gap)];
    } else {
      assert BeforeSide(iv, times, i, gap) == [];
    }
  }

  lemma AfterSideBetween(iv: Interval, times: seq<int>, i: nat, gap: Stored)
    requires Intervals.Valid(iv) && StrictlyAscending(times) && i < |times|
    ensures forall p :: p in AfterSide(iv, times, i, gap) ==> p.1 == gap && p.0 !in times && Between(times, p.0)
  {
    var t := times[i];
    if i + 1 < |times| && times[i + 1] > After(iv, t) {
      var a := After(iv, t);
      assert a !in times && Between(times, a) by {
        AfterGrows(iv, t);
        BetweenNotTime(times, i, a);
      }
      assert AfterSide(iv, times, i, gap) == [(a, gap)];
    } else {
      assert AfterSide(iv, times, i, gap) == [];
    }
  }

  /** The points minimal and null fill add around a time fall strictly between its neighbours. */
  lemma SidesBetween(iv: Interval, times: seq<int>, i: nat, gap: Stored)
    requires Intervals.Valid(iv) && StrictlyAscending(times) && i < |times|
    ensures forall p :: p in BeforeSide(iv, times, i, gap) + AfterSide(iv, times, i, gap) ==>
      p.1 == gap && p.0 !in times && Between(times, p.0)
  {
    BeforeSideBetween(iv, times, i, gap);
    AfterSideBetween(iv, times, i, gap);
  }

  lemma SidedCount(iv: Interval, times: seq<int>, i: nat, gap: Stored, v: Stored, k: nat)
    requires Intervals.Valid(iv) && StrictlyAscending(times) && i < |times| && k < |times|
    ensures CountAt(Sided(iv, times, i, gap, v), times[k]) == if k == i then 1 else 0
  {
    var x := times[k];
    var b := BeforeSide(iv, times, i, gap);
    var a := AfterSide(iv, times, i, gap);
    assert x in times;
    SidesBetween(iv, times, i, gap);
    CountAtAbsent(b, x);
    CountAtAbsent(a, x);
    CountAtAppend(b + [(times[i], v)], a, x);
    CountAtAppend(b, [(times[i], v)], x);
    CountAtSmall((times[i], v), x);
    if k != i {
      TimesDiffer(times, i, k);
    }
  }

  /** The zeros all fill emits in a gap stay in [e, next). */
  lemma {:induction false} AllGapRange(iv: Interval, e: int, next: int)
    requires Intervals.Valid(iv)
    ensures forall p :: p in AllGap(iv, e, next) ==> e <= p.0 < next && p.1 == Some(0.0)
    decreases next - e
  {
    if next > e {
      AfterGrows(iv, e);
      AllGapRange(iv, After(iv, e), next);
    }
  }

  /** The all-fill zeros after the i-th time fall strictly between it and the next time. */
  lemma AllGapBetween(iv: Interval, times: seq<int>, i: nat)
    requires Intervals.Valid(iv) && StrictlyAscending(times) && i + 1 < |times|
    ensures forall p :: p in AllGap(iv, After(iv, times[i]), times[i + 1]) ==>
      p.1 == Some(0.0) && p.0 !in times && Between(times, p.0)
  {
    var g := AllGap(iv, After(iv, times[i]), times[i + 1]);
    AfterGrows(iv, times[i]);
    AllGapRange(iv, After(iv, times[i]), times[i + 1]);
    forall p | p in g
      ensures p.0 !in times && Between(times, p.0)
    {
      BetweenNotTime(times, i, p.0);
    }
  }

  /** The zeros all fill puts after the i-th time. */
  function AllGapAfter(iv: Interval, times: seq<int>, i: nat): seq<Pair>
    requires Intervals.Valid(iv) && i < |times|
  {
    if i + 1 < |times| then AllGap(iv, After(iv, times[i]), times[i + 1]) else []
  }

  lemma AllStepSplit(iv: Interval, data: map<int, Stored>, times: seq<int>, i: nat)
    requires Intervals.Valid(iv) && i < |times|
    ensures AllStep(iv, data, times, i) == [(times[i], OrZero(data, times[i]))] + AllGapAfter(iv, times, i)
  {
  }

  lemma AllGapAfterBetween(iv: Interval, times: seq<int>, i: nat)
    requires Intervals.Valid(iv) && StrictlyAscending(times) && i < |times|
    ensures forall p :: p in AllGapAfter(iv, times, i) ==> p.1 == Some(0.0) && p.0 !in times && Between(times, p.0)
  {
    if i + 1 < |times| {
      AllGapBetween(iv, times, i);
    }
  }

  /** How often a time appears in the output: once, except that no fill drops falsy values. */
  function Expected(style: FillStyle, data: map<int, Stored>, t: int): nat {
    if style == NoFill && !(t in data && Truthy(data[t])) then 0 else 1
  }

  lemma StepCount(style: FillStyle, iv: Interval, data: map<int, Stored>, times: seq<int>, i: nat, k: nat)
    requires Intervals.Valid(iv) && StrictlyAscending(times) && i < |times| && k < |times|
    ensures CountAt(Step(style, iv, data, times, i), times[k]) == if k == i then Expected(style, data, times[k]) else 0
  {
    StepDef(style, iv, data, times, i);
    var t := times[i];
    var x := times[k];
    if k != i {
      TimesDiffer(times, i, k);
    }
    match style
    case Minimal =>
      MinStepSided(iv, data, times, i);
      SidedCount(iv, times, i, Some(0.0), OrZero(data, t), k);
    case NullFill =>
      MinStepSided(iv, data, times, i);
      SidedCount(iv, times, i, None, OrNull(data, t), k);
    case All =>
      var g := AllGapAfter(iv, times, i);
      AllStepSplit(iv, data, times, i);
      AllGapAfterBetween(iv, times, i);
      assert x in times;
      CountAtAbsent(g, x);
      CountAtAppend([(t, OrZero(data, t))], g, x);
      CountAtSmall((t, OrZero(data, t)), x);
    case NoFill =>
      CountAtSmall((t, if t in data then data[t] else None), x);
  }

  /** Counting in a sequence that splits into a prefix and a step whose count is known. */
  lemma CountJoin(whole: seq<Pair>, prefix: seq<Pair>, step: seq<Pair>, x: int, e: nat)
    requires whole == prefix + step && CountAt(step, x) == e
    ensures CountAt(whole, x) == CountAt(prefix, x) + e
  {
    CountAtAppend(prefix, step, x);
  }

  /** One more step of the reduce adds that step's occurrences of the k-th time. */
  lemma CountPairsStep(style: FillStyle, iv: Interval, data: map<int, Stored>, times: seq<int>, m: nat, k: nat)
    requires Intervals.Valid(iv) && StrictlyAscending(times) && m < |times| && k < |times|
    ensures CountAt(PairsUpTo(style, iv, data, times, m + 1), times[k])
      == CountAt(PairsUpTo(style, iv, data, times, m), times[k]) + if k == m then Expected(style, data, times[k]) else 0
  {
    PairsDef(style, iv, data, times, m + 1);
    StepCount(style, iv, data, times, m, k);
    CountJoin(PairsUpTo(style, iv, data, times, m + 1), PairsUpTo(style, iv, data, times, m),
      Step(style, iv, data, times, m), times[k], if k == m then Expected(style, data, times[k]) else 0);
  }

  lemma {:induction false} CountUpTo(style: FillStyle, iv: Interval, data: map<int, Stored>, times: seq<int>, n: nat, k: nat)
    requires Intervals.Valid(iv) && StrictlyAscending(times) && n <= |times| && k < |times|
    ensures CountAt(PairsUpTo(style, iv, data, times, n), times[k]) == if k < n then Expected(style, data, times[k]) else 0
  {
    PairsDef(style, iv, data, times, 0);
    CountAtSmall((times[k], None), times[k]);
    var m := 0;
    while m < n
      invariant m <= n
      invariant CountAt(PairsUpTo(style, iv, data, times, m), times[k]) == if k < m then Expected(style, data, times[k]) else 0
    {
      CountPairsStep(style, iv, data, times, m, k);
      m := m + 1;
    }
  }

  /**
   * Minimal, all and null fill emit every ordered time exactly once; no fill emits a
   * time once when its stored value is truthy and not at all otherwise.
   */
  lemma EachTimeOnce(style: FillStyle, iv: Interval, data: map<int, Stored>, times: seq<int>, k: nat)
    requires Intervals.Valid(iv) && StrictlyAscending(times) && k < |times|
    ensures CountAt(FlotPairs(style, iv, data, times), times[k])
      == if style == NoFill && !(times[k] in data && Truthy(data[times[k]])) then 0 else 1
  {
    CountUpTo(style, iv, data, times, |times|, k);
  }

  lemma StepPoints(style: FillStyle, iv: Interval, data: map<int, Stored>, times: seq<int>, i: nat)
    requires style == Minimal || style == All
    requires Intervals.Valid(iv) && StrictlyAscending(times) && i < |times|
    ensures forall p :: p in Step(style, iv, data, times, i) ==> ZeroFilledPoint(data, times, p)
  {
    StepDef(style, iv, data, times, i);
    var t := times[i];
    assert t in times;
    if style == Minimal {
      MinStepSided(iv, data, times, i);
      SidesBetween(iv, times, i, Some(0.0));
    } else {
      AllStepSplit(iv, data, times, i);
      AllGapAfterBetween(iv, times, i);
    }
  }

  /** Every point of `ps` is a ZeroFilledPoint, stated one point at a time. */
  ghost predicate PointsOk(data: map<int, Stored>, times: seq<int>, ps: seq<Pair>)
    decreases |ps|
  {
    ps == [] || (ZeroFilledPoint(data, times, ps[0]) && PointsOk(data, times, ps[1..]))
  }

  lemma {:induction false} PointsOkIff(data: map<int, Stored>, times: seq<int>, ps: seq<Pair>)
    ensures PointsOk(data, times, ps) <==> forall p :: p in ps ==> ZeroFilledPoint(data, times, p)
    decreases |ps|
  {
    if ps != [] {
      assert ps == [ps[0]] + ps[1..];
      PointsOkIff(data, times, ps[1..]);
    }
  }

  lemma {:induction false} PointsOkAppend(data: map<int, Stored>, times: seq<int>, a: seq<Pair>, b: seq<Pair>)
    requires PointsOk(data, times, a) && PointsOk(data, times, b)
    ensures PointsOk(data, times, a + b)
    decreases |a|
  {
    if a == [] {
      assert a + b == b;
    } else {
      assert (a + b)[1..] == a[1..] + b;
      PointsOkAppend(data, times, a[1..], b);
    }
  }

  /** One more step of minimal or all fill keeps every point well formed. */
  lemma PointsPairsStep(style: FillStyle, iv: Interval, data: map<int, Stored>, times: seq<int>, m: nat)
    requires style == Minimal || style == All
    requires Intervals.Valid(iv) && StrictlyAscending(times) && m < |times|
    requires PointsOk(data, times, PairsUpTo(style, iv, data, times, m))
    ensures PointsOk(data, times, PairsUpTo(style, iv, data, times, m + 1))
  {
    var prefix, step := PairsUpTo(style, iv, data, times, m), Step(style, iv, data, times, m);
    assert PairsUpTo(style, iv, data, times, m + 1) == prefix + step by {
      PairsDef(style, iv, data, times, m + 1);
    }
    assert PointsOk(data, times, step) by {
      StepPoints(style, iv, data, times, m);
      PointsOkIff(data, times, step);
    }
    PointsOkAppend(data, times, prefix, step);
  }

  lemma PointsUpTo(style: FillStyle, iv: Interval, data: map<int, Stored>, times: seq<int>, n: nat)
    requires style == Minimal || style == All
    requires Intervals.Valid(iv) && StrictlyAscending(times) && n <= |times|
    ensures PointsOk(data, times, PairsUpTo(style, iv, data, times, n))
  {
    PairsDef(style, iv, data, times, 0);
    var m := 0;
    while m < n
      invariant m <= n
      invariant PointsOk(data, times, PairsUpTo(style, iv, data, times, m))
    {
      PointsPairsStep(style, iv, data, times, m);
      m := m + 1;
    }
  }

  /**
   * Every point of minimal and all fill that is not an ordered time is a zero strictly
   * between two neighbouring times; every ordered time carries `data[t] || 0`.
   */
  lemma ZeroFilledPoints(style: FillStyle, iv: Interval, data: map<int, Stored>, times: seq<int>)
    requires style == Minimal || style == All
    requires Intervals.Valid(iv) && StrictlyAscending(times)
    ensures forall p :: p in FlotPairs(style, iv, data, times) ==> ZeroFilledPoint(data, times, p)
  {
    PointsUpTo(style, iv, data, times, |times|);
    PointsOkIff(data, times, FlotPairs(style, iv, data, times));
  }

  lemma {:induction false} NoFillUpTo(iv: Interval, data: map<int, Stored>, times: seq<int>, n: nat)
    requires Intervals.Valid(iv) && n <= |times|
    ensures forall p :: p in PairsUpTo(NoFill, iv, data, times, n) ==>
      p.0 in times && p.0 in data && Truthy(p.1) && p.1 == data[p.0]
  {
    PairsDef(NoFill, iv, data, times, n);
    if n > 0 {
      NoFillUpTo(iv, data, times, n - 1);
      StepDef(NoFill, iv, data, times, n - 1);
      assert times[n - 1] in times;
    }
  }

  /** No fill emits only ordered times whose stored value is truthy, each with that value. */
  lemma NoFillPoints(iv: Interval, data: map<int, Stored>, times: seq<int>)
    requires Intervals.Valid(iv)
    ensures forall p :: p in FlotPairs(NoFill, iv, data, times) ==>
      p.0 in times && p.0 in data && Truthy(p.1) && p.1 == data[p.0]
  {
    NoFillUpTo(iv, data, times, |times|);
  }

  /** Null fill's view of a minimal-fill value: falsy values and synthetic zeros become null. */
  function Nulled(ps: seq<Pair>): (r: seq<Pair>)
    ensures |r| == |ps|
  {
    if ps == [] then [] else [(ps[0].0, if Truthy(ps[0].1) then ps[0].1 else None)] + Nulled(ps[1..])
  }

  /** Minimal fill's view of a null-fill value: null becomes 0. */
  function Zeroed(ps: seq<Pair>): (r: seq<Pair>)
    ensures |r| == |ps|
  {
    if ps == [] then [] else [(ps[0].0, if ps[0].1.None? then Some(0.0) else ps[0].1)] + Zeroed(ps[1..])
  }

  lemma {:induction false} NulledAppend(a: seq<Pair>, b: seq<Pair>)
    ensures Nulled(a + b) == Nulled(a) + Nulled(b)
    decreases |a|
  {
    if a == [] {
      assert a + b == b;
    } else {
      assert (a + b)[1..] == a[1..] + b;
      NulledAppend(a[1..], b);
    }
  }

  /** Reading null as 0 undoes Nulled on values that are truthy or 0. */
  lemma {:induction false} ZeroedNulled(ps: seq<Pair>)
    requires forall p :: p in ps ==> p.1 == Some(0.0) || Truthy(p.1)
    ensures Zeroed(Nulled(ps)) == ps
    decreases |ps|
  {
    if ps != [] {
      assert ps[0] in ps;
      assert ps == [ps[0]] + ps[1..];
      ZeroedNulled(ps[1..]);
    }
  }

  lemma NullStepIsNulled(iv: Interval, data: map<int, Stored>, times: seq<int>, i: nat)
    requires i < |times|
    ensures NullStep(iv, data, times, i) == Nulled(MinStep(iv, data, times, i))
  {
    var t := times[i];
    MinStepSided(iv, data, times, i);
    var b := BeforeSide(iv, times, i, Some(0.0));
    var a := AfterSide(iv, times, i, Some(0.0));
    NulledAppend(b + [(t, OrZero(data, t))], a);
    NulledAppend(b, [(t, OrZero(data, t))]);
    assert Nulled(b) == BeforeSide(iv, times, i, None);
    assert Nulled(a) == AfterSide(iv, times, i, None);
    assert Nulled([(t, OrZero(data, t))]) == [(t, OrNull(data, t))];
  }

  /** One more step of the reduce keeps null fill equal to nulled minimal fill. */
  lemma NullPairsStep(iv: Interval, data: map<int, Stored>, times: seq<int>, m: nat)
    requires Intervals.Valid(iv) && m < |times|
    requires PairsUpTo(NullFill, iv, data, times, m) == Nulled(PairsUpTo(Minimal, iv, data, times, m))
    ensures PairsUpTo(NullFill, iv, data, times, m + 1) == Nulled(PairsUpTo(Minimal, iv, data, times, m + 1))
  {
    var prefix, step := PairsUpTo(Minimal, iv, data, times, m), MinStep(iv, data, times, m);
    assert PairsUpTo(Minimal, iv, data, times, m + 1) == prefix + step by {
      PairsDef(Minimal, iv, data, times, m + 1);
      StepDef(Minimal, iv, data, times, m);
    }
    assert PairsUpTo(NullFill, iv, data, times, m + 1) == Nulled(prefix) + Nulled(step) by {
      PairsDef(NullFill, iv, data, times, m + 1);
      StepDef(NullFill, iv, data, times, m);
      NullStepIsNulled(iv, data, times, m);
    }
    NulledJoin(PairsUpTo(NullFill, iv, data, times, m + 1), PairsUpTo(Minimal, iv, data, times, m + 1), prefix, step);
  }

  lemma NullUpTo(iv: Interval, data: map<int, Stored>, times: seq<int>, n: nat)
    requires Intervals.Valid(iv) && n <= |times|
    ensures PairsUpTo(NullFill, iv, data, times, n) == Nulled(PairsUpTo(Minimal, iv, data, times, n))
  {
    PairsDef(NullFill, iv, data, times, 0);
    PairsDef(Minimal, iv, data, times, 0);
    var m := 0;
    while m < n
      invariant m <= n
      invariant PairsUpTo(NullFill, iv, data, times, m) == Nulled(PairsUpTo(Minimal, iv, data, times, m))
    {
      NullPairsStep(iv, data, times, m);
      m := m + 1;
    }
  }

  /** Nulling a sequence that splits into a prefix and a step nulls each part. */
  lemma NulledJoin(nulled: seq<Pair>, whole: seq<Pair>, prefix: seq<Pair>, step: seq<Pair>)
    requires whole == prefix + step && nulled == Nulled(prefix) + Nulled(step)
    ensures nulled == Nulled(whole)
  {
    NulledAppend(prefix, step);
  }

  /**
   * Null fill puts its points at exactly the x positions of minimal fill, turning
   * falsy values and synthetic zeros into null, and minimal fill is null fill with
   * null read as 0.
   */
  lemma NullMatchesMinimal(iv: Interval, data: map<int, Stored>, times: seq<int>)
    requires Intervals.Valid(iv) && StrictlyAscending(times)
    ensures FlotPairs(NullFill, iv, data, times) == Nulled(FlotPairs(Minimal, iv, data, times))
    ensures FlotPairs(Minimal, iv, data, times) == Zeroed(FlotPairs(NullFill, iv, data, times))
  {
    var m := FlotPairs(Minimal, iv, data, times);
    NullUpTo(iv, data, times, |times|);
    ZeroFilledPoints(Minimal, iv, data, times);
    forall p | p in m
      ensures p.1 == Some(0.0) || Truthy(p.1)
    {
      assert ZeroFilledPoint(data, times, p);
    }
    ZeroedNulled(m);
  }

  /** Consecutive points ascend and are at most one interval step apart. */
  predicate Chained(iv: Interval, ps: seq<Pair>)
    decreases |ps|
  {
    |ps| <= 1 || (ps[0].0 < ps[1].0 <= After(iv, ps[0].0) && Chained(iv, ps[1..]))
  }

  lemma {:induction false} ChainedAt(iv: Interval, ps: seq<Pair>, j: nat)
    requires Chained(iv, ps) && j + 1 < |ps|
    ensures ps[j].0 < ps[j + 1].0 <= After(iv, ps[j].0)
    decreases j
  {
    if j > 0 {
      ChainedAt(iv, ps[1..], j - 1);
    }
  }

  lemma {:induction false} ChainedAppend(iv: Interval, a: seq<Pair>, b: seq<Pair>)
    requires Chained(iv, a) && Chained(iv, b) && a != [] && b != []
    requires a[|a| - 1].0 < b[0].0 <= After(iv, a[|a| - 1].0)
    ensures Chained(iv, a + b) && (a + b)[0] == a[0] && (a + b)[|a + b| - 1] == b[|b| - 1]
    decreases |a|
  {
    if |a| == 1 {
      assert (a + b)[1..] == b;
    } else {
      assert (a + b)[1..] == a[1..] + b;
      ChainedAppend(iv, a[1..], b);
    }
  }

  /** From a time up to the next: the zeros of all fill keep the points one step apart. */
  lemma {:induction false} AllGapChain(iv: Interval, prev: int, v: Stored, next: int)
    requires Intervals.Valid(iv) && prev < next
    ensures var s := [(prev, v)] + AllGap(iv, After(iv, prev), next);
      Chained(iv, s) && s[|s| - 1].0 < next <= After(iv, s[|s| - 1].0)
    decreases next - prev
  {
    var e := After(iv, prev);
    AfterGrows(iv, prev);
    if e < next {
      var rest := [(e, Some(0.0))] + AllGap(iv, After(iv, e), next);
      assert AllGap(iv, e, next) == rest;
      AllGapChain(iv, e, Some(0.0), next);
      var s := [(prev, v)] + rest;
      assert s[1..] == rest;
    }
  }

  /**
   * Where a run of all-fill points ends relative to the n-th time: one step short of
   * it when there is one, at the last time otherwise.
   */
  predicate EndsBefore(iv: Interval, times: seq<int>, n: nat, ps: seq<Pair>) {
    ps != [] && 0 < n <= |times|
    && var last := ps[|ps| - 1].0;
    (n < |times| ==> last < times[n] <= After(iv, last))
    && (n == |times| ==> last == times[n - 1])
  }

  /**
   * The all-fill step of the i-th time is chained and ends one step short of the j-th
   * (next) time, if there is one.
   */
  lemma AllStepChain(iv: Interval, data: map<int, Stored>, times: seq<int>, i: nat, j: nat)
    requires Intervals.Valid(iv) && StrictlyAscending(times) && i < |times| && j == i + 1
    ensures var s := AllStep(iv, data, times, i);
      Chained(iv, s) && EndsBefore(iv, times, j, s) && s[0].0 == times[i]
  {
    var t := times[i];
    AllStepSplit(iv, data, times, i);
    if j < |times| {
      assert t < times[j];
      AllGapChain(iv, t, OrZero(data, t), times[j]);
    } else {
      assert AllStep(iv, data, times, i) == [(t, OrZero(data, t))];
    }
  }

  lemma AllPairsStep(iv: Interval, data: map<int, Stored>, times: seq<int>, n: nat)
    requires Intervals.Valid(iv) && 0 < n <= |times|
    ensures PairsUpTo(All, iv, data, times, n) == PairsUpTo(All, iv, data, times, n - 1) + AllStep(iv, data, times, n - 1)
  {
    PairsDef(All, iv, data, times, n);
    StepDef(All, iv, data, times, n - 1);
  }

  /** Joining the all-fill prefix up to the (m-1)-th time with the step of the m-th. */
  lemma AllJoin(iv: Interval, times: seq<int>, m: nat, a: seq<Pair>, b: seq<Pair>)
    requires 0 < m < |times|
    requires Chained(iv, a) && EndsBefore(iv, times, m, a)
    requires Chained(iv, b) && EndsBefore(iv, times, m + 1, b) && b[0].0 == times[m]
    ensures Chained(iv, a + b) && EndsBefore(iv, times, m + 1, a + b) && (a + b)[0] == a[0]
  {
    ChainedAppend(iv, a, b);
  }

  lemma {:induction false} AllUpTo(iv: Interval, data: map<int, Stored>, times: seq<int>, n: nat)
    requires Intervals.Valid(iv) && StrictlyAscending(times) && 0 < n <= |times|
    ensures var ps := PairsUpTo(All, iv, data, times, n);
      Chained(iv, ps) && EndsBefore(iv, times, n, ps) && ps[0].0 == times[0]
  {
    var m := n - 1;
    var b := AllStep(iv, data, times, m);
    AllStepChain(iv, data, times, m, n);
    AllPairsStep(iv, data, times, n);
    if m > 0 {
      var a := PairsUpTo(All, iv, data, times, m);
      AllUpTo(iv, data, times, m);
      AllJoin(iv, times, m, a, b);
    } else {
      PairsDef(All, iv, data, times, 0);
      assert PairsUpTo(All, iv, data, times, 0) + b == b;
    }
  }

  /**
   * All fill starts at the first time, ends at the last and never leaves more than one
   * interval step between consecutive points: after each time the zeros run at
   * after(t), after(after(t)), ... for as long as they stay below the next time.
   */
  lemma AllFillChained(iv: Interval, data: map<int, Stored>, times: seq<int>)
    requires Intervals.Valid(iv) && StrictlyAscending(times) && times != []
    ensures var ps := FlotPairs(All, iv, data, times);
      ps != [] && Chained(iv, ps) && ps[0].0 == times[0] && ps[|ps| - 1].0 == times[|times| - 1]
  {
    AllUpTo(iv, data, times, |times|);
  }

  /** With a one-minute interval, times 0 and 300000 fill to six points. */
  lemma AllFillExample(data: map<int, Stored>)
    ensures var iv := Interval("1m", Fixed, 60000);
      FlotPairs(All, iv, data, [0, 300000])
      == [(0, OrZero(data, 0)), (60000, Some(0.0)), (120000, Some(0.0)), (180000, Some(0.0)),
          (240000, Some(0.0)), (300000, OrZero(data, 300000))]
  {
    var iv := Interval("1m", Fixed, 60000);
    var z := Some(0.0);
    var times := [0, 300000];
    var gap := [(60000, z), (120000, z), (180000, z), (240000, z)];
    assert AllGap(iv, 60000, 300000) == gap by {
      FixedSteps(iv, 60000);
      FixedSteps(iv, 120000);
      FixedSteps(iv, 180000);
      FixedSteps(iv, 240000);
      assert AllGap(iv, 300000, 300000) == [];
      assert AllGap(iv, 240000, 300000) == [(240000, z)];
      assert AllGap(iv, 180000, 300000) == [(180000, z), (240000, z)];
      assert AllGap(iv, 120000, 300000) == [(120000, z), (180000, z), (240000, z)];
    }
    var s0, s1 := [(0, OrZero(data, 0))] + gap, [(300000, OrZero(data, 300000))];
    assert Step(All, iv, data, times, 0) == s0 by {
      StepDef(All, iv, data, times, 0);
      AllStepSplit(iv, data, times, 0);
      FixedSteps(iv, 0);
    }
    assert Step(All, iv, data, times, 1) == s1 by {
      StepDef(All, iv, data, times, 1);
      AllStepSplit(iv, data, times, 1);
    }
    assert PairsUpTo(All, iv, data, times, 1) == s0 by {
      PairsDef(All, iv, data, times, 0);
      PairsDef(All, iv, data, times, 1);
    }
    PairsDef(All, iv, data, times, 2);
  }

  /**
   * Minimal fill over a gap of exactly two buckets emits the point between them twice:
   * once as after(t) of the earlier time and once as before(t) of the later one.
   */
  lemma MinimalTwoBucketGap(iv: Interval, data: map<int, Stored>, t: int)
    requires iv.kind == Fixed && iv.ms > 0
    ensures var ms := iv.ms;
      FlotPairs(Minimal, iv, data, [t, t + 2 * ms])
      == [(t, OrZero(data, t)), (t + ms, Some(0.0)), (t + ms, Some(0.0)), (t + 2 * ms, OrZero(data, t + 2 * ms))]
  {
    var ms := iv.ms;
    var u := t + 2 * ms;
    var times := [t, u];
    var s0 := [(t, OrZero(data, t)), (t + ms, Some(0.0))];
    var s1 := [(t + ms, Some(0.0)), (u, OrZero(data, u))];
    assert Step(Minimal, iv, data, times, 0) == s0 by {
      StepDef(Minimal, iv, data, times, 0);
      FixedSteps(iv, t);
    }
    assert Step(Minimal, iv, data, times, 1) == s1 by {
      StepDef(Minimal, iv, data, times, 1);
      FixedSteps(iv, u);
    }
    assert PairsUpTo(Minimal, iv, data, times, 1) == s0 by {
      PairsDef(Minimal, iv, data, times, 0);
      PairsDef(Minimal, iv, data, times, 1);
    }
    PairsDef(Minimal, iv, data, times, 2);
  }
}
