/**
 The slider: values are brought onto the grid min, min + step, min + 2 step, ..., and the two handles
 of a range never pass each other. Over exact reals: the rounding to five digits is left out.
 */
module Slider {

  /** `options.min`, `options.max` and `options.step`. */
  datatype Scale = Scale(min: real, max: real, step: real) {

    predicate Valid() {
      min <= max && 0.0 < step
    }

    /** How many whole steps fit. */
    function Steps(): (n: nat)
      requires Valid()
      ensures n == ((max - min) / step).Floor
    {
      FloorOfQuotient(max - min, step);
      ((max - min) / step).Floor
    }

    /** `_calculateNewMax`: the largest grid point up to max, which `_valueMax` returns. */
    function NewMax(): real
      requires Valid()
    {
      ((max - min) / step).Floor as real * step + min
    }

    /** `x % step` for positive x. */
    function ModStep(x: real): real
      requires Valid()
    {
      x - (x / step).Floor as real * step
    }

    /** `_trimAlignValue`. */
    function TrimAlign(val: real): real
      requires Valid()
    {
      if val <= min then min
      else if val >= NewMax() then NewMax()
      else
        var valModStep := ModStep(val - min);
        var alignValue := val - valModStep;
        if valModStep * 2.0 >= step then alignValue + (if valModStep > 0.0 then step else -step) else alignValue
    }

    /** The grid. */
    function Point(k: int): real {
      min + k as real * step
    }

    /** The position of a value in steps from min. */
    function Position(val: real): real
      requires Valid()
    {
      (val - min) / step
    }

    /** The grid point a value goes to. */
    function Nearest(val: real): (k: nat)
      requires Valid()
      ensures k <= Steps()
    {
      var y := Position(val);
      if y <= 0.0 then 0 else if y >= Steps() as real then Steps() else NearestBounds(y, Steps()); (y + 0.5).Floor
    }
  }

  lemma FloorOfQuotient(a: real, b: real)
    requires 0.0 <= a && 0.0 < b
    ensures 0 <= (a / b).Floor
  {
  }

  lemma NearestBounds(y: real, n: nat)
    requires 0.0 < y < n as real
    ensures 0 <= (y + 0.5).Floor <= n
  {
  }

  /** A value is its position times the step. */
  lemma InSteps(s: Scale, val: real) returns (y: real)
    requires s.Valid()
    ensures y == s.Position(val) && val == s.min + y * s.step
  {
    y := s.Position(val);
    assert y * s.step == val - s.min;
  }

  /** Positions order values. */
  lemma PositionOrders(s: Scale, a: real, b: real)
    requires s.Valid()
    ensures a <= b <==> s.Position(a) <= s.Position(b)
  {
  }

  lemma PointPosition(s: Scale, k: int)
    requires s.Valid()
    ensures s.Position(s.Point(k)) == k as real
  {
  }

  lemma AlignInside(s: Scale, val: real, y: real)
    requires s.Valid() && s.min < val < s.NewMax() && y == s.Position(val) && val == s.min + y * s.step
    ensures s.TrimAlign(val) == s.Point((y + 0.5).Floor)
  {
    hide s.NewMax;
    RoundByRemainder(s.step, val - s.min, y);
  }

  /** The code's rounding, by remainder, takes a value to its nearest grid point. */
  lemma TrimAlignIs(s: Scale, val: real)
    requires s.Valid()
    ensures s.TrimAlign(val) == s.Point(s.Nearest(val))
  {
    hide s.Position;
    PointPosition(s, 0);
    PointPosition(s, s.Steps());
    PositionOrders(s, val, s.Point(0));
    PositionOrders(s, s.Point(s.Steps()), val);
    assert s.Point(0) == s.min && s.Point(s.Steps()) == s.NewMax();
    if s.min < val < s.NewMax() {
      var y := InSteps(s, val);
      AlignInside(s, val, y);
    }
  }

  lemma RoundByRemainder(step: real, x: real, y: real)
    requires 0.0 < step && y == x / step && x == y * step && 0.0 < y
    ensures (var r := x - (x / step).Floor as real * step;
             0.0 <= r && x - r + (if r * 2.0 >= step then step else 0.0) == (y + 0.5).Floor as real * step)
  {
    var q := y.Floor;
    var part := y - q as real;
    var r := x - q as real * step;
    assert r == part * step;
    RemainderPart(part, step, r);
    if part < 0.5 {
      assert (y + 0.5).Floor == q;
    } else {
      assert (y + 0.5).Floor == q + 1;
      assert (q + 1) as real * step == q as real * step + step;
    }
  }

  lemma SignOfProduct(a: real, b: real)
    requires 0.0 < b
    ensures 0.0 < a * b <==> 0.0 < a
    ensures 0.0 <= a * b <==> 0.0 <= a
  {
  }

  lemma RemainderPart(part: real, step: real, r: real)
    requires 0.0 <= part < 1.0 && 0.0 < step && r == part * step
    ensures 0.0 <= r < step && (r * 2.0 >= step <==> part >= 0.5)
  {
    SignOfProduct(1.0 - part, step);
    SignOfProduct(part - 0.5, step);
    assert (1.0 - part) * step == step - r;
    assert (part - 0.5) * step == r - 0.5 * step;
  }

  /** The recomputed maximum is the last point of the grid that the maximum allows. */
  lemma NewMaxIsLast(s: Scale)
    requires s.Valid()
    ensures s.NewMax() == s.Point(s.Steps()) && s.min <= s.NewMax() <= s.max < s.NewMax() + s.step
  {
    hide s.NewMax, s.Point, s.Position, s.Steps;
    var y := InSteps(s, s.max);
    var m := s.Steps() as real;
    StepsFit(s, y);
    LastFits(s.max, s.NewMax(), s.min, y, m, s.step);
  }

  lemma LastFits(max: real, newMax: real, min: real, y: real, m: real, step: real)
    requires 0.0 < step && 0.0 <= m <= y < m + 1.0 && max == min + y * step && newMax == min + m * step
    ensures min <= newMax <= max < newMax + step
  {
    SignOfProduct(m, step);
    Stretched(m, y, step, newMax - min, max - min);
  }

  lemma StepsFit(s: Scale, y: real)
    requires s.Valid() && y == s.Position(s.max)
    ensures (var m := s.Steps() as real;
             0.0 <= m <= y < m + 1.0 && s.NewMax() == s.min + m * s.step && s.NewMax() == s.Point(s.Steps()))
  {
  }

  lemma Stretched(m: real, y: real, step: real, a: real, b: real)
    requires 0.0 < step && m <= y < m + 1.0 && a == m * step && b == y * step
    ensures a <= b < a + step
  {
    RemainderPart(y - m, step, b - a);
  }

  // ---------- what alignment promises ----------

  /** The nearest of the points 0..n to a position, halves going up. */
  lemma NearestInSteps(y: real, n: nat, j: nat)
    requires j <= n
    ensures (var k := if y <= 0.0 then 0 else if y >= n as real then n else (y + 0.5).Floor;
             && Distance(k as real, y) <= Distance(j as real, y)
             && (Distance(k as real, y) == Distance(j as real, y) ==> j <= k))
  {
    if 0.0 < y < n as real {
      RoundedIsNearest(y, (y + 0.5).Floor, j);
    }
  }

  lemma RoundedIsNearest(y: real, k: int, j: int)
    requires k as real - 0.5 <= y < k as real + 0.5
    ensures Distance(k as real, y) <= Distance(j as real, y)
    ensures Distance(k as real, y) == Distance(j as real, y) ==> j <= k
  {
    if j < k {
      assert j as real <= k as real - 1.0;
    } else if k < j {
      assert k as real + 1.0 <= j as real;
    }
  }

  function Distance(a: real, b: real): real {
    if a <= b then b - a else a - b
  }

  lemma DistanceScales(s: Scale, k: int, val: real, y: real)
    requires s.Valid() && val == s.min + y * s.step
    ensures Distance(s.Point(k), val) == Distance(k as real, y) * s.step
  {
  }

  lemma ScaledOrder(a: real, b: real, step: real)
    requires 0.0 < step
    ensures a <= b <==> a * step <= b * step
  {
  }

  lemma PointsOrdered(s: Scale, j: int, k: int)
    requires s.Valid()
    ensures j <= k <==> s.Point(j) <= s.Point(k)
  {
  }

  lemma PointRange(s: Scale, k: nat)
    requires s.Valid() && k <= s.Steps()
    ensures s.min <= s.Point(k) <= s.NewMax()
  {
  }

  /**
   `_trimAlignValue` gives the nearest of the grid points between min and the recomputed maximum: none
   is nearer, and none as near is larger.
   */
  lemma AlignsToNearest(s: Scale, val: real, j: nat)
    requires s.Valid() && j <= s.Steps()
    ensures s.TrimAlign(val) == s.Point(s.Nearest(val)) && s.min <= s.TrimAlign(val) <= s.NewMax()
    ensures Distance(s.TrimAlign(val), val) <= Distance(s.Point(j), val)
    ensures Distance(s.TrimAlign(val), val) == Distance(s.Point(j), val) ==> s.Point(j) <= s.TrimAlign(val)
  {
    hide s.TrimAlign, s.Point, s.NewMax, Distance;
    var k := s.Nearest(val);
    var y := InSteps(s, val);
    TrimAlignIs(s, val);
    PointRange(s, k);
    NearestInSteps(y, s.Steps(), j);
    DistanceScales(s, k, val, y);
    DistanceScales(s, j, val, y);
    ScaledOrder(Distance(k as real, y), Distance(j as real, y), s.step);
    ScaledOrder(Distance(j as real, y), Distance(k as real, y), s.step);
    PointsOrdered(s, j, k);
  }

  /** Larger values never align to smaller points. */
  lemma AlignMonotone(s: Scale, a: real, b: real)
    requires s.Valid() && a <= b
    ensures s.TrimAlign(a) <= s.TrimAlign(b)
  {
    hide s.TrimAlign, s.Point;
    TrimAlignIs(s, a);
    TrimAlignIs(s, b);
    PositionOrders(s, a, b);
    PointsOrdered(s, s.Nearest(a), s.Nearest(b));
  }

  /** Grid points stay where they are, so aligning twice is aligning once. */
  lemma AlignIdempotent(s: Scale, val: real)
    requires s.Valid()
    ensures s.TrimAlign(s.TrimAlign(val)) == s.TrimAlign(val)
  {
    hide s.TrimAlign, s.Point, s.Nearest;
    TrimAlignIs(s, val);
    NearestOfPoint(s, s.Nearest(val));
    TrimAlignIs(s, s.Point(s.Nearest(val)));
  }

  lemma NearestOfPoint(s: Scale, k: nat)
    requires s.Valid() && k <= s.Steps()
    ensures s.Nearest(s.Point(k)) == k
  {
    hide s.Position, s.Point;
    PointPosition(s, k);
  }

  lemma NearestStored(s: Scale, val: real)
    requires s.Valid()
    ensures s.TrimAlign(val) == s.Point(s.Nearest(val)) && s.TrimAlign(s.TrimAlign(val)) == s.TrimAlign(val)
    ensures s.min <= s.TrimAlign(val) <= s.NewMax()
    ensures forall j: nat :: j <= s.Steps() ==> Distance(s.TrimAlign(val), val) <= Distance(s.Point(j), val)
  {
    hide s.TrimAlign, s.Point, s.Nearest, s.Steps, s.NewMax, Distance;
    AlignIdempotent(s, val);
    AlignsToNearest(s, val, 0);
    forall j: nat | j <= s.Steps() ensures Distance(s.TrimAlign(val), val) <= Distance(s.Point(j), val) {
      AlignsToNearest(s, val, j);
    }
  }

  // ---------- sliding ----------

  /** `_slide` limits a handle of a range by the other one; n handles, and whether they form a range. */
  function Limited(n: nat, range: bool, index: nat, newVal: real, otherVal: real): real {
    if n == 2 && range && ((index == 0 && newVal > otherVal) || (index == 1 && newVal < otherVal)) then otherVal
    else newVal
  }

  /** `options.values` after a slide that the callback allows or cancels. */
  function Slid(s: Scale, range: bool, values: seq<real>, index: nat, newVal: real, allowed: bool): (r: seq<real>)
    requires s.Valid() && index < |values|
    ensures |r| == |values|
  {
    var other := if index == 0 then 1 else 0;
    var v := if other < |values| then Limited(|values|, range, index, newVal, s.TrimAlign(values[other])) else newVal;
    if v != s.TrimAlign(values[index]) && allowed then values[index := s.TrimAlign(v)] else values
  }

  /** The state that `_slide` and the getters and setters of `values` work on. */
  class Handles {
    const scale: Scale
    const range: bool
    var values: seq<real>

    constructor (scale: Scale, range: bool, values: seq<real>)
      ensures this.scale == scale && this.range == range && this.values == values
    {
      this.scale, this.range, this.values := scale, range, values;
    }

    /** `values( index )`. */
    method Value(index: nat) returns (v: real)
      requires scale.Valid() && index < |values|
      ensures v == scale.TrimAlign(values[index])
    {
      v := scale.TrimAlign(values[index]);
    }

    /**
     `values( index, newValue )`: the grid point nearest to the new value is stored, which from then on is
     also what the getter gives; no other handle changes.
     */
    method SetValue(index: nat, newVal: real)
      requires scale.Valid() && index < |values|
      modifies this`values
      ensures values == old(values)[index := scale.Point(scale.Nearest(newVal))]
      ensures scale.min <= values[index] <= scale.NewMax() && scale.TrimAlign(values[index]) == values[index]
      ensures forall j: nat :: j <= scale.Steps() ==>
                Distance(values[index], newVal) <= Distance(scale.Point(j), newVal)
    {
      values := values[index := scale.TrimAlign(newVal)];
      NearestStored(scale, newVal);
    }

    /** `_slide`, with the answer of the slide callback. */
    method Slide(index: nat, newVal: real, allowed: bool)
      requires scale.Valid() && index < |values|
      modifies this`values
      ensures values == Slid(scale, range, old(values), index, newVal, allowed)
    {
      var v := newVal;
      var other := if index == 0 then 1 else 0;
      if other < |values| {
        var otherVal := Value(other);
        if |values| == 2 && range && ((index == 0 && v > otherVal) || (index == 1 && v < otherVal)) {
          v := otherVal;
        }
      }
      var current := Value(index);
      if v != current {
        if allowed {
          TrimAlignIs(scale, v);
          SetValue(index, v);
        }
      }
    }
  }

  /** The handles shown are in order. */
  predicate InOrder(s: Scale, values: seq<real>)
    requires s.Valid() && |values| == 2
  {
    s.TrimAlign(values[0]) <= s.TrimAlign(values[1])
  }

  /**
   What a handle of a range shows after an allowed slide: the aligned new value, or the other handle's
   value if that comes first. The other handle stays.
   */
  lemma SlideShows(s: Scale, values: seq<real>, index: nat, newVal: real)
    requires s.Valid() && |values| == 2 && index < 2
    ensures (var r := Slid(s, true, values, index, newVal, true);
             var other := s.TrimAlign(values[1 - index]);
             && r[1 - index] == values[1 - index]
             && s.TrimAlign(r[index])
                == if (if index == 0 then s.TrimAlign(newVal) <= other else other <= s.TrimAlign(newVal))
                   then s.TrimAlign(newVal) else other)
  {
    hide s.TrimAlign;
    var other := s.TrimAlign(values[1 - index]);
    AlignIdempotent(s, values[index]);
    AlignIdempotent(s, values[1 - index]);
    AlignIdempotent(s, newVal);
    if newVal <= other {
      AlignMonotone(s, newVal, other);
    } else {
      AlignMonotone(s, other, newVal);
    }
  }

  /** A slide that the callback cancels changes nothing. */
  lemma CancelledSlide(s: Scale, range: bool, values: seq<real>, index: nat, newVal: real)
    requires s.Valid() && index < |values|
    ensures Slid(s, range, values, index, newVal, false) == values
  {
  }

  /** Handles that form no range are not limited by each other: the new value, aligned, is shown. */
  lemma UnlimitedSlide(s: Scale, range: bool, values: seq<real>, index: nat, newVal: real)
    requires s.Valid() && index < |values| && (|values| != 2 || !range)
    ensures (var r := Slid(s, range, values, index, newVal, true);
             && s.TrimAlign(r[index]) == s.TrimAlign(newVal)
             && forall j :: 0 <= j < |values| && j != index ==> r[j] == values[j])
  {
    hide s.TrimAlign;
    AlignIdempotent(s, newVal);
    AlignIdempotent(s, values[index]);
  }

  /** An allowed slide puts the handles in order, a cancelled one leaves them as they are. */
  lemma SlideKeepsOrder(s: Scale, values: seq<real>, index: nat, newVal: real, allowed: bool)
    requires s.Valid() && |values| == 2 && index < 2
    ensures allowed || InOrder(s, values) ==> InOrder(s, Slid(s, true, values, index, newVal, allowed))
  {
    hide s.TrimAlign;
    SlideShows(s, values, index, newVal);
  }

  datatype Move = Move(index: nat, newVal: real, allowed: bool)

  predicate OnHandles(moves: seq<Move>) {
    forall i :: 0 <= i < |moves| ==> moves[i].index < 2
  }

  function Slides(s: Scale, values: seq<real>, moves: seq<Move>): (r: seq<real>)
    requires s.Valid() && |values| == 2 && OnHandles(moves)
    ensures |r| == 2
    decreases |moves|
  {
    if moves == [] then values
    else Slides(s, Slid(s, true, values, moves[0].index, moves[0].newVal, moves[0].allowed), moves[1..])
  }

  /** However often the handles of a range are moved, the values that the getter shows never cross. */
  lemma {:induction false} HandlesNeverCross(s: Scale, values: seq<real>, moves: seq<Move>)
    requires s.Valid() && |values| == 2 && OnHandles(moves) && s.TrimAlign(values[0]) <= s.TrimAlign(values[1])
    ensures (var r := Slides(s, values, moves); s.TrimAlign(r[0]) <= s.TrimAlign(r[1]))
    decreases |moves|
  {
    hide Slid, s.TrimAlign;
    if moves != [] {
      var m := moves[0];
      SlideKeepsOrder(s, values, m.index, m.newVal, m.allowed);
      HandlesNeverCross(s, Slid(s, true, values, m.index, m.newVal, m.allowed), moves[1..]);
    }
  }

  // ---------- the values stored ----------

  /** In order as stored, and neither value lies beyond its own aligned one on the other handle's side. */
  predicate StoredInOrder(s: Scale, values: seq<real>)
    requires s.Valid() && |values| == 2
  {
    values[0] <= values[1] && s.TrimAlign(values[1]) <= values[1] && values[0] <= s.TrimAlign(values[0])
  }

  lemma SlideKeepsStored(s: Scale, values: seq<real>, index: nat, newVal: real, allowed: bool)
    requires s.Valid() && |values| == 2 && index < 2 && StoredInOrder(s, values)
    ensures StoredInOrder(s, Slid(s, true, values, index, newVal, allowed))
  {
    hide s.TrimAlign;
    SlideShows(s, values, index, newVal);
    AlignIdempotent(s, newVal);
    AlignIdempotent(s, values[1 - index]);
  }

  lemma {:induction false} StoredOrderKept(s: Scale, values: seq<real>, moves: seq<Move>)
    requires s.Valid() && |values| == 2 && OnHandles(moves) && StoredInOrder(s, values)
    ensures StoredInOrder(s, Slides(s, values, moves))
    decreases |moves|
  {
    hide StoredInOrder, Slid;
    if moves != [] {
      var m := moves[0];
      SlideKeepsStored(s, values, m.index, m.newVal, m.allowed);
      StoredOrderKept(s, Slid(s, true, values, m.index, m.newVal, m.allowed), moves[1..]);
    }
  }

  lemma Cancel(a: real, b: real, step: real)
    requires 0.0 < step && a * step == b * step
    ensures a == b
  {
    ScaledOrder(a, b, step);
    ScaledOrder(b, a, step);
  }

  /** A quarter of a step off a grid point lies no grid point, and what lies there aligns to it. */
  lemma QuarterAligns(s: Scale, k: nat, part: real)
    requires s.Valid() && k <= s.Steps() && (part == 0.25 || part == -0.25)
    ensures s.TrimAlign(s.Point(k) + part * s.step) == s.Point(k)
    ensures forall m: int :: s.Point(m) != s.Point(k) + part * s.step
  {
    hide s.TrimAlign, s.Position;
    var val := s.Point(k) + part * s.step;
    var y := InSteps(s, val);
    assert (k as real + part) * s.step == k as real * s.step + part * s.step;
    Cancel(y, k as real + part, s.step);
    TrimAlignIs(s, val);
    forall m: int ensures s.Point(m) != val {
      PointPosition(s, m);
    }
  }

  /** A slide that makes the stored values cross, where one can. */
  lemma StoredOrderLost(s: Scale, values: seq<real>) returns (m: Move)
    requires s.Valid() && |values| == 2 && !StoredInOrder(s, values) && values[0] <= values[1]
    ensures m.index < 2 && (var r := Slid(s, true, values, m.index, m.newVal, m.allowed); r[1] < r[0])
  {
    hide s.TrimAlign, s.Point, s.Nearest;
    var index := if s.TrimAlign(values[1]) > values[1] then 0 else 1;
    var k := s.Nearest(values[1 - index]);
    TrimAlignIs(s, values[index]);
    TrimAlignIs(s, values[1 - index]);
    var part := if index == 0 then -0.25 else 0.25;
    QuarterAligns(s, k, part);
    m := Move(index, s.Point(k) + part * s.step, true);
    assert s.Point(s.Nearest(values[index])) != m.newVal;
  }

  /** The stored values stay in order through every sequence of slides iff they begin like this. */
  lemma StoredNeverCross(s: Scale, values: seq<real>)
    requires s.Valid() && |values| == 2
    ensures (forall moves :: OnHandles(moves) ==> var r := Slides(s, values, moves); r[0] <= r[1])
       <==> StoredInOrder(s, values)
  {
    hide s.TrimAlign, Slid;
    if StoredInOrder(s, values) {
      forall moves | OnHandles(moves) ensures (var r := Slides(s, values, moves); r[0] <= r[1]) {
        StoredOrderKept(s, values, moves);
      }
    } else {
      var moves := [];
      if values[0] <= values[1] {
        var m := StoredOrderLost(s, values);
        OneSlide(s, values, m);
        moves := [m];
      }
      assert OnHandles(moves) && Slides(s, values, moves)[1] < Slides(s, values, moves)[0];
    }
  }

  lemma OneSlide(s: Scale, values: seq<real>, m: Move)
    requires s.Valid() && |values| == 2 && m.index < 2
    ensures Slides(s, values, [m]) == Slid(s, true, values, m.index, m.newVal, m.allowed)
  {
    hide Slid;
    assert [m][1..] == [];
  }

  /** Values that are aligned and in order are safe. */
  lemma AlignedIsSafe(s: Scale, values: seq<real>)
    requires s.Valid() && |values| == 2 && values[0] <= values[1]
    requires s.TrimAlign(values[0]) == values[0] && s.TrimAlign(values[1]) == values[1]
    ensures StoredInOrder(s, values)
  {
  }

  lemma UnitSteps(val: real)
    requires 0.0 < val < 10.0
    ensures Scale(0.0, 10.0, 1.0).TrimAlign(val) == (val + 0.5).Floor as real
  {
    var s := Scale(0.0, 10.0, 1.0);
    hide s.TrimAlign;
    TrimAlignIs(s, val);
    assert s.Position(val) == val;
    assert s.Steps() == 10;
  }

  /** The values 4.6 and 4.7 on the grid 0, 1, ..., 10 are not: two slides of the first handle make them cross. */
  lemma StoredValuesCross()
    ensures (var s := Scale(0.0, 10.0, 1.0);
             s.Valid() && Slides(s, [4.6, 4.7], [Move(0, 4.0, true), Move(0, 5.0, true)]) == [5.0, 4.7])
  {
    var s := Scale(0.0, 10.0, 1.0);
    hide s.TrimAlign;
    UnitSteps(4.6);
    UnitSteps(4.7);
    UnitSteps(4.0);
    UnitSteps(5.0);
    var m, n := Move(0, 4.0, true), Move(0, 5.0, true);
    assert [m, n][1..] == [n];
    assert Slid(s, true, [4.6, 4.7], 0, 4.0, true) == [4.0, 4.7];
    OneSlide(s, [4.0, 4.7], n);
  }
}
