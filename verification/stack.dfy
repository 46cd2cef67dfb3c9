/**
 * Flot's stack plugin (version 1.2) as the histogram bundles it. A series whose `stack`
 * option is set is drawn on top of the last earlier series with the same option: its
 * processDatapoints hook merges its flat point buffer with that series' buffer and adds
 * the lower values to its own.
 */
module Stack {
  import opened TimeParse
  import opened TimeSeries

  /**
   * One coordinate of flot's flat point buffer, where every point takes `pointsize`
   * consecutive entries: a number, or null for a gap.
   */
  type Point = Stored

  /** A series' `stack` option: null or undefined, a boolean, or a name. */
  datatype StackKey = Unset | Flag(on: bool) | Label(name: string)

  /** `a == b` on two stack options (loose equality; keys of different kinds never match here). */
  predicate SameKey(a: StackKey, b: StackKey) {
    match (a, b)
    case (Unset, Unset) => true
    case (Flag(x), Flag(y)) => x == y
    case (Label(x), Label(y)) => x == y
    case _ => false
  }

  /** stackData only stacks a series whose option is neither null nor `false`. */
  predicate Stacks(key: StackKey) {
    !key.Unset? && key != Flag(false)
  }

  /** The parts of a flot series the stack plugin reads, and its datapoints buffer, which it replaces. */
  class Series {
    var stack: StackKey
    var points: seq<Point>
    var pointsize: nat
    var linesShow: bool
    var linesSteps: bool
    var horizontal: bool
    /** `datapoints.format[2].x` and `.y`: whether the third coordinate is a bottom for that axis. */
    var bottomX: bool
    var bottomY: bool

    constructor (stack: StackKey, points: seq<Point>, pointsize: nat)
      ensures this.stack == stack && this.points == points && this.pointsize == pointsize
      ensures !linesShow && !linesSteps && !horizontal && !bottomX && !bottomY
    {
      this.stack := stack;
      this.points := points;
      this.pointsize := pointsize;
      linesShow := false;
      linesSteps := false;
      horizontal := false;
      bottomX := false;
      bottomY := false;
    }
  }

  /** The index of `s` in `all`, or `|all|` when it is not there. */
  function Position(all: seq<Series>, s: Series): (r: nat)
    ensures r <= |all|
    ensures forall k :: 0 <= k < r ==> all[k] != s
    ensures r < |all| ==> all[r] == s
  {
    if all == [] || all[0] == s then 0 else 1 + Position(all[1..], s)
  }

  /** The last series of `prefix` whose option equals `key`, or null. */
  function LastMatch(prefix: seq<Series>, key: StackKey): (r: Series?)
    reads prefix
    ensures r == null <==> forall k :: 0 <= k < |prefix| ==> !SameKey(prefix[k].stack, key)
    ensures r != null ==> r in prefix
  {
    if prefix == [] then null
    else if SameKey(prefix[|prefix| - 1].stack, key) then prefix[|prefix| - 1]
    else
      var init := prefix[..|prefix| - 1];
      assert forall k :: 0 <= k < |init| ==> init[k] == prefix[k];
      LastMatch(init, key)
  }

  /** The series found is one of `prefix` with the option, and no later one has it. */
  lemma {:induction false} LastMatchIsLast(prefix: seq<Series>, key: StackKey)
    ensures var r := LastMatch(prefix, key);
      r != null ==> exists k :: 0 <= k < |prefix| && prefix[k] == r && SameKey(r.stack, key)
                                && (forall m :: k < m < |prefix| ==> !SameKey(prefix[m].stack, key))
  {
    var r := LastMatch(prefix, key);
    if prefix != [] && r != null {
      var n := |prefix| - 1;
      if SameKey(prefix[n].stack, key) {
        assert prefix[n] == r;
      } else {
        var init := prefix[..n];
        LastMatchIsLast(init, key);
        var k :| 0 <= k < |init| && init[k] == r && SameKey(r.stack, key)
                 && (forall m :: k < m < |init| ==> !SameKey(init[m].stack, key));
        assert prefix[k] == r;
        assert forall m :: k < m < |prefix| ==> !SameKey(prefix[m].stack, key) by {
          forall m | k < m < |prefix|
            ensures !SameKey(prefix[m].stack, key)
          {
            if m < n {
              assert init[m] == prefix[m];
            }
          }
        }
      }
    }
  }

  /** The series `s` is stacked on: the last one before it in the plot's data with the same option. */
  function MatchBefore(all: seq<Series>, s: Series): (r: Series?)
    reads all, s
    ensures r != s && (r != null ==> r in all)
  {
    LastMatch(all[..Position(all, s)], s.stack)
  }

  /**
   * findMatchingSeries(s, allseries): scan the series up to `s` itself, remembering the
   * last one whose option equals that of `s`.
   */
  method FindMatchingSeries(s: Series, all: seq<Series>) returns (res: Series?)
    ensures res == MatchBefore(all, s)
  {
    res := null;
    var i := 0;
    while i < |all|
      invariant i <= Position(all, s)
      invariant res == LastMatch(all[..i], s.stack)
    {
      if s == all[i] {
        break;
      }
      if SameKey(all[i].stack, s.stack) {
        res := all[i];
      }
      assert all[..i + 1][..i] == all[..i];
      i := i + 1;
    }
    assert all[..Position(all, s)] == all[..i];
  }

  /** The options of stackData that stay fixed while it merges two buffers. */
  datatype Layout = Layout(ps: nat, otherps: nat, withlines: bool, horizontal: bool, withbottom: bool, withsteps: bool)
  {
    /** Point sizes hold at least x and y, and a bottom is a third coordinate. */
    predicate Valid() {
      ps >= 2 && otherps >= 2 && (withbottom ==> ps > 2)
    }

    function KeyOffset(): nat {
      if horizontal then 1 else 0
    }

    function AccumulateOffset(): nat {
      if horizontal then 0 else 1
    }
  }

  /** The layout stackData derives from the series and the one below it. */
  function LayoutOf(s: Series, other: Series): (lay: Layout)
    reads s, other
    ensures s.pointsize >= 2 && other.pointsize >= 2 ==> lay.Valid()
  {
    Layout(s.pointsize, other.pointsize, s.linesShow, s.horizontal,
      s.pointsize > 2 && (if s.horizontal then s.bottomX else s.bottomY),
      s.linesShow && s.linesSteps)
  }

  /** From `i`, steps of `ps` land exactly on `n`: `i` is a point boundary of a buffer of length `n`. */
  predicate StrideTo(n: nat, ps: nat, i: nat)
    decreases n - i
  {
    ps > 0 && i <= n && (i < n ==> i + ps <= n && StrideTo(n, ps, i + ps))
  }

  /** A buffer flot built for a point size: whole points only. */
  predicate Buffered(s: Series)
    reads s
  {
    s.pointsize >= 2 && StrideTo(|s.points|, s.pointsize, 0)
  }

  /** The loop variables of stackData: the two read positions, `fromgap` and `newpoints`. */
  datatype Cursor = Cursor(i: nat, j: nat, fromgap: bool, out: seq<Point>)

  /** What holds at the head of every iteration: both positions are point boundaries, and so is the end of the output. */
  predicate Inv(lay: Layout, points: seq<Point>, other: seq<Point>, c: Cursor) {
    lay.Valid() && StrideTo(|points|, lay.ps, c.i) && StrideTo(|other|, lay.otherps, c.j)
    && (c.i == 0 || lay.ps <= c.i) && (c.j == 0 || lay.otherps <= c.j)
    && (|c.out| == 0 || lay.ps <= |c.out|)
  }

  function Nulls(n: nat): (r: seq<Point>)
    ensures |r| == n && forall k :: 0 <= k < n ==> r[k] == None
  {
    seq(n, _ => None)
  }

  /** `v + x` in JavaScript, where a null `v` counts as 0. */
  function Plus(v: Point, x: real): Point {
    Some(AsNumber(v) + x)
  }

  /**
   * `y + (yPrev - y) * (at - x) / (xPrev - x)`: the value at `at` on the line through
   * (x, y) and (xPrev, yPrev); 0 when the two x values are equal.
   */
  function Between(y: real, x: real, yPrev: real, xPrev: real, at: real): real {
    BetweenAt(y, x, yPrev, xPrev, at, 2)
  }

  /** The depth only delegates; it keeps the verifier from expanding the interpolation. */
  function BetweenAt(y: real, x: real, yPrev: real, xPrev: real, at: real, depth: nat): real
    decreases y, depth
  {
    if depth > 0 then BetweenAt(y, x, yPrev, xPrev, at, depth - 1)
    else if xPrev == x then 0.0
    else y + (yPrev - y) * (at - x) / (xPrev - x)
  }

  /** `if (l != newpoints.length && withbottom) newpoints[l + 2] += bottom` */
  function WithBottom(lay: Layout, l: nat, out: seq<Point>, bottom: real): (r: seq<Point>)
    requires lay.Valid() && (|out| == l || |out| == l + lay.ps)
    ensures |r| == |out|
  {
    if |out| != l && lay.withbottom then out[l + 2 := Plus(out[l + 2], bottom)] else out
  }

  /** The branches of one iteration of stackData's loop, before the line-steps fix-up. */
  function Branch(lay: Layout, points: seq<Point>, other: seq<Point>, c: Cursor): (r: Cursor)
    requires Inv(lay, points, other, c) && c.i < |points|
    ensures |r.out| == |c.out| || |r.out| == |c.out| + lay.ps
    ensures r.i == c.i || r.i == c.i + lay.ps
    ensures r.j == c.j || (c.j < |other| && r.j == c.j + lay.otherps)
    ensures r.i != c.i || r.j != c.j
  {
    var i, j, ps, ops := c.i, c.j, lay.ps, lay.otherps;
    var ko, ao := lay.KeyOffset(), lay.AccumulateOffset();
    var l := |c.out|;
    if points[i].None? then
      // copy gaps
      Cursor(i + ps, j, c.fromgap, c.out + points[i..i + ps])
    else if j >= |other| then
      // for lines, the rest of the points cannot be used
      Cursor(i + ps, j, c.fromgap, if lay.withlines then c.out else c.out + points[i..i + ps])
    else if other[j].None? then
      // a gap below
      Cursor(i, j + ops, true, c.out + Nulls(ps))
    else
      BothPoints(lay, points, other, c)
  }

  /** Where the comparison of the two points leaves the loop: positions, output, bottom, and whether it `continue`s. */
  datatype Moved = Moved(i: nat, j: nat, out: seq<Point>, bottom: real, skip: bool)

  /** The comparison of the x values of the two current points, in the iteration where both buffers are at a point. */
  function Compare(lay: Layout, points: seq<Point>, other: seq<Point>, c: Cursor): (r: Moved)
    requires Inv(lay, points, other, c) && c.i < |points| && c.j < |other|
    ensures |r.out| == |c.out| || |r.out| == |c.out| + lay.ps
    ensures r.i == c.i || r.i == c.i + lay.ps
    ensures r.j == c.j || r.j == c.j + lay.otherps
    ensures r.i != c.i || r.j != c.j
    ensures r.skip ==> r.out == c.out
  {
    var i, j, ps, ops := c.i, c.j, lay.ps, lay.otherps;
    var ko, ao := lay.KeyOffset(), lay.AccumulateOffset();
    var l := |c.out|;
    var px, py := AsNumber(points[i + ko]), AsNumber(points[i + ao]);
    var qx, qy := AsNumber(other[j + ko]), AsNumber(other[j + ao]);
    if px == qx then
      var pushed := c.out + points[i..i + ps];
      Moved(i + ps, j + ops, pushed[l + ao := Plus(pushed[l + ao], qy)], qy, false)
    else if px > qx then
      // past the point below: with lines, interpolate an extra point
      if lay.withlines && i > 0 && points[i - ps].Some? then
        var intery := Between(py, px, AsNumber(points[i - ps + ao]), AsNumber(points[i - ps + ko]), qx);
        Moved(i, j + ops, c.out + [Some(qx), Some(intery + qy)] + points[i + 2..i + ps], qy, false)
      else
        Moved(i, j + ops, c.out, 0.0, false)
    else if c.fromgap && lay.withlines then
      // coming from a gap: skip this point (`continue`)
      Moved(i + ps, j, c.out, 0.0, true)
    else
      var bottom := if lay.withlines && j > 0 && other[j - ops].Some? then
        Between(qy, qx, AsNumber(other[j - ops + ao]), AsNumber(other[j - ops + ko]), px)
      else 0.0;
      var pushed := c.out + points[i..i + ps];
      Moved(i + ps, j, pushed[l + ao := Plus(pushed[l + ao], bottom)], bottom, false)
  }

  /** The iteration of stackData's loop where both buffers are at a point: compare, then add the bottom. */
  function BothPoints(lay: Layout, points: seq<Point>, other: seq<Point>, c: Cursor): (r: Cursor)
    requires Inv(lay, points, other, c) && c.i < |points| && c.j < |other|
    ensures |r.out| == |c.out| || |r.out| == |c.out| + lay.ps
    ensures r.i == c.i || r.i == c.i + lay.ps
    ensures r.j == c.j || r.j == c.j + lay.otherps
    ensures r.i != c.i || r.j != c.j
  {
    var m := Compare(lay, points, other, c);
    if m.skip then Cursor(m.i, m.j, c.fromgap, m.out)
    else Cursor(m.i, m.j, false, WithBottom(lay, |c.out|, m.out, m.bottom))
  }

  /**
   * The line-steps fix-up: when the point just pushed starts a new step, it is
   * duplicated and the first copy takes the previous point's y.
   */
  function StepsFixed(lay: Layout, l: nat, c: Cursor): (r: Cursor)
    requires lay.Valid() && (l == 0 || lay.ps <= l) && (|c.out| == l || |c.out| == l + lay.ps)
    ensures r.i == c.i && r.j == c.j && r.fromgap == c.fromgap
    ensures |r.out| == |c.out| || |r.out| == |c.out| + lay.ps
  {
    var o := c.out;
    var ps := lay.ps;
    if lay.withsteps && l != |o| && l > 0 && o[l].Some? && o[l] != o[l - ps] && o[l + 1] != o[l - ps + 1] then
      c.(out := (o + o[l..l + ps])[l + 1 := o[l - ps + 1]])
    else c
  }

  /** One iteration of stackData's loop; every iteration advances `i` or `j`. */
  function Step(lay: Layout, points: seq<Point>, other: seq<Point>, c: Cursor): (r: Cursor)
    requires Inv(lay, points, other, c) && c.i < |points|
    ensures Inv(lay, points, other, r)
    ensures c.i <= r.i && c.j <= r.j && c.i + c.j < r.i + r.j
  {
    StepAt(lay, points, other, c, 2)
  }

  /** The depth only delegates; it keeps the verifier from expanding an iteration wherever the loop is unrolled. */
  function StepAt(lay: Layout, points: seq<Point>, other: seq<Point>, c: Cursor, depth: nat): (r: Cursor)
    requires Inv(lay, points, other, c) && c.i < |points|
    ensures Inv(lay, points, other, r)
    ensures c.i <= r.i && c.j <= r.j && c.i + c.j < r.i + r.j
    decreases c, depth
  {
    if depth > 0 then StepAt(lay, points, other, c, depth - 1)
    else StepsFixed(lay, |c.out|, Branch(lay, points, other, c))
  }

  lemma StepDef(lay: Layout, points: seq<Point>, other: seq<Point>, c: Cursor)
    requires Inv(lay, points, other, c) && c.i < |points|
    ensures Step(lay, points, other, c) == StepsFixed(lay, |c.out|, Branch(lay, points, other, c))
  {
    assert StepAt(lay, points, other, c, 2) == StepAt(lay, points, other, c, 0);
  }

  /** The loop of stackData from a given state: its final `newpoints`. */
  function Run(lay: Layout, points: seq<Point>, other: seq<Point>, c: Cursor): seq<Point>
    requires Inv(lay, points, other, c)
    decreases |points| - c.i + |other| - c.j, 3
  {
    RunAt(lay, points, other, c, 2)
  }

  /** The depth only delegates; it keeps the verifier from unrolling the loop on its own. */
  function RunAt(lay: Layout, points: seq<Point>, other: seq<Point>, c: Cursor, depth: nat): seq<Point>
    requires Inv(lay, points, other, c)
    decreases |points| - c.i + |other| - c.j, depth
  {
    if depth > 0 then RunAt(lay, points, other, c, depth - 1)
    else if c.i >= |points| then c.out
    else Run(lay, points, other, Step(lay, points, other, c))
  }

  lemma RunDef(lay: Layout, points: seq<Point>, other: seq<Point>, c: Cursor)
    requires Inv(lay, points, other, c)
    ensures c.i >= |points| ==> Run(lay, points, other, c) == c.out
    ensures c.i < |points| ==> Run(lay, points, other, c) == Run(lay, points, other, Step(lay, points, other, c))
  {
    assert RunAt(lay, points, other, c, 2) == RunAt(lay, points, other, c, 0);
  }

  /** The buffer stackData builds for `points` stacked on `other`. */
  function Stacked(lay: Layout, points: seq<Point>, other: seq<Point>): seq<Point>
    requires lay.Valid() && StrideTo(|points|, lay.ps, 0) && StrideTo(|other|, lay.otherps, 0)
  {
    Run(lay, points, other, Cursor(0, 0, true, []))
  }

  /** `run == (out + added) + rest` and `summed == added + rest` give `run == out + summed`. */
  lemma Chain(run: seq<Point>, runNext: seq<Point>, out: seq<Point>, added: seq<Point>, rest: seq<Point>, summed: seq<Point>)
    requires run == runNext && runNext == (out + added) + rest && summed == added + rest
    ensures run == out + summed
  {
  }

  lemma AppendUpdate(a: seq<Point>, b: seq<Point>, k: nat, v: Point)
    requires k < |b|
    ensures (a + b)[|a| + k := v] == a + b[k := v]
  {
  }

  /** A null in the lower series puts a gap of `ps` nulls into the output and moves on below. */
  lemma GapBelow(lay: Layout, points: seq<Point>, other: seq<Point>, c: Cursor)
    requires Inv(lay, points, other, c) && c.i < |points| && c.j < |other|
    requires points[c.i].Some? && other[c.j].None?
    ensures Step(lay, points, other, c) == Cursor(c.i, c.j + lay.otherps, true, c.out + Nulls(lay.ps))
  {
    StepDef(lay, points, other, c);
    assert Branch(lay, points, other, c) == Cursor(c.i, c.j + lay.otherps, true, c.out + Nulls(lay.ps));
    assert (c.out + Nulls(lay.ps))[|c.out|] == None;
  }

  /** The point at `i` with the y of the point below at `j` added to its y, and to its bottom when it has one. */
  function AddedBelow(lay: Layout, points: seq<Point>, other: seq<Point>, i: nat, j: nat): (r: seq<Point>)
    requires lay.Valid() && i + lay.ps <= |points| && j + lay.otherps <= |other|
    ensures |r| == lay.ps
  {
    AddedBelowAt(lay, points, other, i, j, 2)
  }

  /** The depth only delegates; it keeps the verifier from expanding the updated point inside sums of points. */
  function AddedBelowAt(lay: Layout, points: seq<Point>, other: seq<Point>, i: nat, j: nat, depth: nat): (r: seq<Point>)
    requires lay.Valid() && i + lay.ps <= |points| && j + lay.otherps <= |other|
    ensures |r| == lay.ps
    decreases points, depth
  {
    if depth > 0 then AddedBelowAt(lay, points, other, i, j, depth - 1) else
    var ao := lay.AccumulateOffset();
    var qy := AsNumber(other[j + ao]);
    var ch := points[i..i + lay.ps];
    var ch := ch[ao := Plus(ch[ao], qy)];
    if lay.withbottom then ch[2 := Plus(ch[2], qy)] else ch
  }

  /**
   * At equal x, the y of the output point is its own y plus the lower y, its bottom (when it
   * has one) gains the same amount, and every other coordinate is copied.
   */
  lemma AddedBelowValues(lay: Layout, points: seq<Point>, other: seq<Point>, i: nat, j: nat)
    requires lay.Valid() && i + lay.ps <= |points| && j + lay.otherps <= |other|
    ensures var r := AddedBelow(lay, points, other, i, j);
      var ao := lay.AccumulateOffset();
      var qy := AsNumber(other[j + ao]);
      && r[ao] == Some(AsNumber(points[i + ao]) + qy)
      && (lay.withbottom ==> r[2] == Some(AsNumber(points[i + 2]) + qy))
      && (forall k :: 0 <= k < lay.ps && k != ao && !(lay.withbottom && k == 2) ==> r[k] == points[i + k])
  {
    assert AddedBelowAt(lay, points, other, i, j, 2) == AddedBelowAt(lay, points, other, i, j, 0);
  }

  /**
   * Two points at the same x: the output takes the upper point with the lower y added to
   * its y and to its bottom, and both buffers move on (without line steps, which may
   * duplicate the point).
   */
  lemma CompareSameX(lay: Layout, points: seq<Point>, other: seq<Point>, c: Cursor)
    requires Inv(lay, points, other, c) && c.i < |points| && c.j < |other|
    requires AsNumber(points[c.i + lay.KeyOffset()]) == AsNumber(other[c.j + lay.KeyOffset()])
    ensures var ch := points[c.i..c.i + lay.ps];
      var ao := lay.AccumulateOffset();
      var qy := AsNumber(other[c.j + ao]);
      Compare(lay, points, other, c) == Moved(c.i + lay.ps, c.j + lay.otherps, c.out + ch[ao := Plus(ch[ao], qy)], qy, false)
  {
    var ch := points[c.i..c.i + lay.ps];
    var ao := lay.AccumulateOffset();
    var qy := AsNumber(other[c.j + ao]);
    var pushed := c.out + ch;
    AppendUpdate(c.out, ch, ao, Plus(ch[ao], qy));
    assert pushed[|c.out| + ao := Plus(pushed[|c.out| + ao], qy)] == c.out + ch[ao := Plus(ch[ao], qy)];
  }

  lemma BottomSameX(lay: Layout, points: seq<Point>, other: seq<Point>, c: Cursor)
    requires Inv(lay, points, other, c) && c.i < |points| && c.j < |other|
    ensures var ch := points[c.i..c.i + lay.ps];
      var ao := lay.AccumulateOffset();
      var qy := AsNumber(other[c.j + ao]);
      WithBottom(lay, |c.out|, c.out + ch[ao := Plus(ch[ao], qy)], qy) == c.out + AddedBelow(lay, points, other, c.i, c.j)
  {
    var ch := points[c.i..c.i + lay.ps];
    var ao := lay.AccumulateOffset();
    var qy := AsNumber(other[c.j + ao]);
    var out := c.out + ch[ao := Plus(ch[ao], qy)];
    assert AddedBelowAt(lay, points, other, c.i, c.j, 2) == AddedBelowAt(lay, points, other, c.i, c.j, 0);
    if lay.withbottom {
      AppendUpdate(c.out, ch[ao := Plus(ch[ao], qy)], 2, Plus(out[|c.out| + 2], qy));
    }
  }

  /**
   * Two points at the same x: the output takes the upper point with the lower y added to
   * its y and to its bottom, and both buffers move on (without line steps, which may
   * duplicate the point).
   */
  lemma SameX(lay: Layout, points: seq<Point>, other: seq<Point>, c: Cursor)
    requires Inv(lay, points, other, c) && c.i < |points| && c.j < |other| && !lay.withsteps
    requires points[c.i].Some? && other[c.j].Some?
    requires AsNumber(points[c.i + lay.KeyOffset()]) == AsNumber(other[c.j + lay.KeyOffset()])
    ensures Step(lay, points, other, c)
      == Cursor(c.i + lay.ps, c.j + lay.otherps, false, c.out + AddedBelow(lay, points, other, c.i, c.j))
  {
    CompareSameX(lay, points, other, c);
    BottomSameX(lay, points, other, c);
    assert Branch(lay, points, other, c) == BothPoints(lay, points, other, c);
    StepDef(lay, points, other, c);
  }

  /**
   * The two buffers are aligned from `i` and `j`: at every point of the upper one the
   * lower one has a point, not a gap, at the same x. Zero-filled series laid out over the
   * same required times are aligned.
   */
  predicate Aligned(lay: Layout, points: seq<Point>, other: seq<Point>, i: nat, j: nat)
    requires lay.Valid() && StrideTo(|points|, lay.ps, i) && StrideTo(|other|, lay.otherps, j)
    decreases |points| - i, 3
  {
    AlignedAt(lay, points, other, i, j, 2)
  }

  /** The depth only delegates; it keeps the verifier from expanding the alignment point by point. */
  predicate AlignedAt(lay: Layout, points: seq<Point>, other: seq<Point>, i: nat, j: nat, depth: nat)
    requires lay.Valid() && StrideTo(|points|, lay.ps, i) && StrideTo(|other|, lay.otherps, j)
    decreases |points| - i, depth
  {
    if depth > 0 then AlignedAt(lay, points, other, i, j, depth - 1) else
    i == |points|
    || (j < |other| && points[i].Some? && other[j].Some?
        && AsNumber(points[i + lay.KeyOffset()]) == AsNumber(other[j + lay.KeyOffset()])
        && Aligned(lay, points, other, i + lay.ps, j + lay.otherps))
  }

  /** Stacking two aligned buffers, point by point: every point gets the y of the one below added. */
  function Summed(lay: Layout, points: seq<Point>, other: seq<Point>, i: nat, j: nat): (r: seq<Point>)
    requires lay.Valid() && StrideTo(|points|, lay.ps, i) && StrideTo(|other|, lay.otherps, j)
    requires Aligned(lay, points, other, i, j)
    ensures |r| == |points| - i
    decreases |points| - i, 3
  {
    SummedAt(lay, points, other, i, j, 2)
  }

  /** The depth only delegates; it keeps the verifier from expanding the sum point by point. */
  function SummedAt(lay: Layout, points: seq<Point>, other: seq<Point>, i: nat, j: nat, depth: nat): (r: seq<Point>)
    requires lay.Valid() && StrideTo(|points|, lay.ps, i) && StrideTo(|other|, lay.otherps, j)
    requires Aligned(lay, points, other, i, j)
    ensures |r| == |points| - i
    decreases |points| - i, depth
  {
    if depth > 0 then SummedAt(lay, points, other, i, j, depth - 1)
    else if i == |points| then []
    else
      assert AlignedAt(lay, points, other, i, j, 2) == AlignedAt(lay, points, other, i, j, 0);
      AddedBelow(lay, points, other, i, j) + Summed(lay, points, other, i + lay.ps, j + lay.otherps)
  }

  /**
   * At an aligned position both buffers hold a point at the same x, they stay aligned one
   * point on, and the sum starts with the upper point with the lower y added.
   */
  lemma AlignedHead(lay: Layout, points: seq<Point>, other: seq<Point>, i: nat, j: nat)
    requires lay.Valid() && StrideTo(|points|, lay.ps, i) && StrideTo(|other|, lay.otherps, j) && i < |points|
    requires Aligned(lay, points, other, i, j)
    ensures j < |other| && StrideTo(|points|, lay.ps, i + lay.ps) && StrideTo(|other|, lay.otherps, j + lay.otherps)
    ensures points[i].Some? && other[j].Some?
    ensures AsNumber(points[i + lay.KeyOffset()]) == AsNumber(other[j + lay.KeyOffset()])
    ensures Aligned(lay, points, other, i + lay.ps, j + lay.otherps)
    ensures Summed(lay, points, other, i, j)
      == AddedBelow(lay, points, other, i, j) + Summed(lay, points, other, i + lay.ps, j + lay.otherps)
  {
    assert AlignedAt(lay, points, other, i, j, 2) == AlignedAt(lay, points, other, i, j, 0);
    assert SummedAt(lay, points, other, i, j, 2) == SummedAt(lay, points, other, i, j, 0);
  }

  /** Two points at the same x: the loop goes on from the state `SameX` describes. */
  lemma RunSameX(lay: Layout, points: seq<Point>, other: seq<Point>, c: Cursor)
    requires Inv(lay, points, other, c) && c.i < |points| && c.j < |other| && !lay.withsteps
    requires points[c.i].Some? && other[c.j].Some?
    requires AsNumber(points[c.i + lay.KeyOffset()]) == AsNumber(other[c.j + lay.KeyOffset()])
    ensures Run(lay, points, other, c)
      == Run(lay, points, other, Cursor(c.i + lay.ps, c.j + lay.otherps, false, c.out + AddedBelow(lay, points, other, c.i, c.j)))
  {
    RunDef(lay, points, other, c);
    SameX(lay, points, other, c);
  }

  lemma NextInv(lay: Layout, points: seq<Point>, other: seq<Point>, c: Cursor)
    requires Inv(lay, points, other, c) && c.i < |points| && c.j < |other|
    ensures Inv(lay, points, other, Cursor(c.i + lay.ps, c.j + lay.otherps, false, c.out + AddedBelow(lay, points, other, c.i, c.j)))
  {
  }

  lemma {:induction false} RunAligned(lay: Layout, points: seq<Point>, other: seq<Point>, i: nat, j: nat, fromgap: bool, out: seq<Point>)
    requires Inv(lay, points, other, Cursor(i, j, fromgap, out)) && !lay.withsteps
    requires Aligned(lay, points, other, i, j)
    ensures Run(lay, points, other, Cursor(i, j, fromgap, out)) == out + Summed(lay, points, other, i, j)
    decreases |points| - i
  {
    var c := Cursor(i, j, fromgap, out);
    if i < |points| {
      AlignedHead(lay, points, other, i, j);
      RunSameX(lay, points, other, c);
      var added := AddedBelow(lay, points, other, i, j);
      var rest := Summed(lay, points, other, i + lay.ps, j + lay.otherps);
      var next := Cursor(i + lay.ps, j + lay.otherps, false, out + added);
      NextInv(lay, points, other, c);
      RunAligned(lay, points, other, i + lay.ps, j + lay.otherps, false, out + added);
      Chain(Run(lay, points, other, c), Run(lay, points, other, next), out, added, rest, Summed(lay, points, other, i, j));
    } else {
      assert Run(lay, points, other, c) == out by {
        RunDef(lay, points, other, c);
      }
      assert Summed(lay, points, other, i, j) == [] by {
        assert SummedAt(lay, points, other, i, j, 2) == SummedAt(lay, points, other, i, j, 0);
      }
      assert out + [] == out;
    }
  }

  /**
   * Without line steps, stacking aligned buffers is adding the lower y to every point:
   * the merge neither drops, nor inserts, nor interpolates a point.
   */
  lemma StackedAligned(lay: Layout, points: seq<Point>, other: seq<Point>)
    requires lay.Valid() && StrideTo(|points|, lay.ps, 0) && StrideTo(|other|, lay.otherps, 0)
    requires Aligned(lay, points, other, 0, 0) && !lay.withsteps
    ensures Stacked(lay, points, other) == Summed(lay, points, other, 0, 0)
  {
    RunAligned(lay, points, other, 0, 0, true, []);
  }

  /** The points of `s` after stackData: stacked on the matching series, or unchanged. */
  function Restacked(s: Series, all: seq<Series>): seq<Point>
    reads all, s
    requires Buffered(s) && forall t :: t in all ==> Buffered(t)
  {
    if !Stacks(s.stack) then s.points
    else
      var other := MatchBefore(all, s);
      if other == null then s.points
      else
        assert other in all && Buffered(other);
        Stacked(LayoutOf(s, other), s.points, other.points)
  }

  /**
   * The merge loop of stackData: walk both buffers point by point, copying gaps, adding
   * the lower y at equal x, interpolating when lines are drawn.
   */
  method Merge(lay: Layout, points: seq<Point>, otherpoints: seq<Point>) returns (newpoints: seq<Point>)
    requires lay.Valid() && StrideTo(|points|, lay.ps, 0) && StrideTo(|otherpoints|, lay.otherps, 0)
    ensures newpoints == Stacked(lay, points, otherpoints)
  {
    var i: nat, j: nat, fromgap := 0, 0, true;
    newpoints := [];
    while i < |points|
      invariant Inv(lay, points, otherpoints, Cursor(i, j, fromgap, newpoints))
      invariant Run(lay, points, otherpoints, Cursor(i, j, fromgap, newpoints)) == Stacked(lay, points, otherpoints)
      decreases |points| - i + |otherpoints| - j
    {
      RunDef(lay, points, otherpoints, Cursor(i, j, fromgap, newpoints));
      var next := Step(lay, points, otherpoints, Cursor(i, j, fromgap, newpoints));
      i, j, fromgap, newpoints := next.i, next.j, next.fromgap, next.out;
    }
    RunDef(lay, points, otherpoints, Cursor(i, j, fromgap, newpoints));
  }

  /**
   * stackData(plot, s, datapoints): a series that does not stack, or that has no
   * earlier series with the same option, keeps its points; otherwise its points become
   * its buffer merged with the one below.
   */
  method StackData(s: Series, all: seq<Series>)
    requires Buffered(s) && forall t :: t in all ==> Buffered(t)
    modifies s`points
    ensures s.points == old(Restacked(s, all))
  {
    if !Stacks(s.stack) {
      return;
    }
    var other := FindMatchingSeries(s, all);
    if other == null {
      return;
    }
    var newpoints := Merge(LayoutOf(s, other), s.points, other.points);
    s.points := newpoints;
  }
}
