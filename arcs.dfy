/**
 * The arc path synthesiser, the path-building part of `arc`
 * (simple_inkscape_scripting.py:431-471). Angles are exact reals, pi is any
 * positive real, and the point on the ellipse at an angle (`rx*cos(a) + cx`,
 * `ry*sin(a) + cy` in the source) is a function `at` supplied by the caller,
 * so the shape of the path is stated without trigonometry.
 */
module Arcs {

  datatype Point = Point(x: real, y: real)

  /** The `inkex.paths` commands the synthesiser emits. */
  datatype Segment =
    | Move(to: Point)
    | Arc(rx: real, ry: real, rotation: real, largeArc: bool, sweep: bool, to: Point)
    | Line(to: Point)
    | ZoneClose

  // Facts about real multiplication and division the solver does not find unaided.

  lemma DivMul(a: real, m: real)
    requires m != 0.0
    ensures (a / m) * m == a && m * (a / m) == a
  {
  }

  lemma DivLt(a: real, b: real, m: real)
    requires m > 0.0 && a < b
    ensures a / m < b / m
  {
  }

  lemma FloorBounds(x: real)
    ensures x.Floor as real <= x < x.Floor as real + 1.0
  {
  }

  lemma DivUnique(z: real, y: real, m: real)
    requires m != 0.0 && y * m == z
    ensures z / m == y
  {
  }

  lemma MulLe(a: real, b: real, m: real)
    requires m > 0.0 && a <= b
    ensures m * a <= m * b
  {
  }

  lemma MulLt(a: real, b: real, m: real)
    requires m > 0.0 && a < b
    ensures m * a < m * b
  {
  }

  lemma RemainderBounds(x: real, m: real)
    requires m > 0.0
    ensures var k := (x / m).Floor as real;
      && 0.0 <= x - m * k < m
      && (m * k) / m == k
  {
    var q := x / m;
    var k := q.Floor as real;
    FloorBounds(q);
    assert k <= q < k + 1.0;
    DivMul(x, m);
    assert m * q == x;
    MulLe(k, q, m);
    MulLt(q, k + 1.0, m);
    assert m * q < m * (k + 1.0);
    assert m * (k + 1.0) == m * k + m;
    assert x < m * k + m;
    DivUnique(m * k, k, m);
  }

  /** Python's `x % m` for `m > 0`: the remainder of floored division. */
  function FloorMod(x: real, m: real): (r: real)
    requires m > 0.0
    ensures 0.0 <= r < m
    ensures ((x - r) / m).Floor as real == (x - r) / m
  {
    RemainderBounds(x, m);
    x - m * (x / m).Floor as real
  }

  /** Lines 445-446: an angle brought into `[0, 2*pi)`. */
  function Normalise(ang: real, pi: real): (a: real)
    requires pi > 0.0
    ensures 0.0 <= a < 2.0 * pi
  {
    FloorMod(ang, 2.0 * pi)
  }

  /**
   * Lines 450-452: the counter-clockwise sweep from the first angle to the
   * second; a zero sweep stands for the full ellipse.
   */
  function Sweep(ang1: real, ang2: real, pi: real): (delta: real)
    requires pi > 0.0
    ensures 0.0 < delta <= 2.0 * pi
    ensures delta == 2.0 * pi <==> Normalise(ang1, pi) == Normalise(ang2, pi)
    ensures Normalise(ang1, pi) + delta == Normalise(ang2, pi)
         || Normalise(ang1, pi) + delta == Normalise(ang2, pi) + 2.0 * pi
  {
    var a1 := Normalise(ang1, pi);
    var a2 := Normalise(ang2, pi);
    var d := FloorMod(a2 - a1, 2.0 * pi);
    ZeroRemainder(a2 - a1, 2.0 * pi);
    if d == 0.0 then 2.0 * pi else d
  }

  /** Within one period, only zero leaves no remainder, and the remainder is `x` or `x + m`. */
  lemma ZeroRemainder(x: real, m: real)
    requires m > 0.0 && -m < x < m
    ensures FloorMod(x, m) == 0.0 <==> x == 0.0
    ensures FloorMod(x, m) == x || FloorMod(x, m) == x + m
  {
    var q := x / m;
    DivMul(x, m);
    DivLt(x, m, m);
    DivUnique(m, 1.0, m);
    DivLt(-m, x, m);
    DivUnique(-m, -1.0, m);
    assert -1.0 < q < 1.0;
    FloorBounds(q);
    if q >= 0.0 {
      assert q.Floor == 0;
    } else {
      assert q.Floor == -1;
    }
  }

  /** Python's `int(x)`: truncation toward zero. */
  function Trunc(x: real): (n: int)
    ensures x >= 0.0 ==> 0 <= n && n as real <= x < n as real + 1.0
    ensures x < 0.0 ==> n <= 0 && n as real - 1.0 < x <= n as real
  {
    if x >= 0.0 then x.Floor else -((-x).Floor)
  }

  /** Line 453: `int((delta_ang + pi/2) / (pi/2))`. */
  function SegmentCount(delta: real, pi: real): (n: int)
    requires pi > 0.0
    ensures delta > 0.0 ==> n >= 1
  {
    assert delta > 0.0 ==> (delta + pi / 2.0) / (pi / 2.0) > 1.0 by {
      DivUnique(pi / 2.0, 1.0, pi / 2.0);
      if delta > 0.0 {
        DivLt(pi / 2.0, delta + pi / 2.0, pi / 2.0);
      }
    }
    Trunc((delta + pi / 2.0) / (pi / 2.0))
  }

  /**
   * For a positive sweep the count is `floor(delta / (pi/2)) + 1`: at least
   * one, and just enough quarter turns to exceed the sweep, so every
   * segment spans strictly less than a quarter turn.
   */
  lemma SegmentCountBounds(delta: real, pi: real)
    requires pi > 0.0 && delta > 0.0
    ensures var n := SegmentCount(delta, pi);
      && n == (delta / (pi / 2.0)).Floor + 1
      && n >= 1
      && (pi / 2.0) * (n - 1) as real <= delta < (pi / 2.0) * n as real
      && delta / n as real < pi / 2.0
  {
    var q := pi / 2.0;
    var x := delta / q;
    TruncShift(delta, q);
    QuotientBounds(delta, q);
  }

  /** Adding one quarter turn before dividing adds one to the quotient's floor. */
  lemma TruncShift(delta: real, q: real)
    requires q > 0.0 && delta > 0.0
    ensures Trunc((delta + q) / q) == (delta / q).Floor + 1
  {
    var x := delta / q;
    DivMul(delta, q);
    assert x * q == delta;
    assert (x + 1.0) * q == delta + q;
    DivUnique(delta + q, x + 1.0, q);
    assert (delta + q) / q == x + 1.0;
    FloorBounds(x);
    FloorBounds(x + 1.0);
    assert x > 0.0 by {
      if x <= 0.0 {
        MulLe(x, 0.0, q);
      }
    }
  }

  lemma QuotientBounds(delta: real, q: real)
    requires q > 0.0 && delta > 0.0
    ensures var n := (delta / q).Floor + 1;
      && n >= 1
      && q * (n - 1) as real <= delta < q * n as real
      && delta / n as real < q
  {
    var x := delta / q;
    DivMul(delta, q);
    assert q * x == delta;
    FloorBounds(x);
    var n := x.Floor + 1;
    assert x > 0.0 by {
      if x <= 0.0 {
        MulLe(x, 0.0, q);
      }
    }
    assert (n - 1) as real <= x < n as real;
    MulLe((n - 1) as real, x, q);
    MulLt(x, n as real, q);
    LeTrans(q * (n - 1) as real, q * x, delta);
    LtTrans(delta, q * x, q * n as real);
    DivUnique(q * n as real, q, n as real);
    DivLt(delta, q * n as real, n as real);
    LtTrans(delta / n as real, (q * n as real) / n as real, q);
  }

  lemma LeTrans(a: real, b: real, c: real)
    requires a <= b && b == c
    ensures a <= c
  {
  }

  lemma LtTrans(a: real, b: real, c: real)
    requires (a == b && b < c) || (a < b && b == c)
    ensures a < c
  {
  }

  /**
   * Not a ceiling: a sweep of exactly k quarter turns gets k + 1 segments,
   * so a full ellipse gets five.
   */
  lemma QuarterTurnMultiple(k: nat, pi: real)
    requires pi > 0.0 && k >= 1
    ensures SegmentCount(k as real * (pi / 2.0), pi) == k + 1
  {
    var q := pi / 2.0;
    var delta := k as real * q;
    MulLt(0.0, k as real, q);
    TruncShift(delta, q);
    assert SegmentCount(delta, pi) == (delta / q).Floor + 1;
    DivUnique(delta, k as real, q);
    assert delta / q == k as real;
    assert (delta / q).Floor == k;
    assert SegmentCount(delta, pi) == k + 1;
    assert k as real * (pi / 2.0) == delta;
  }

  /** Line 455: the angle segment `s` (counting from 0) ends at. */
  function SegmentAngle(a1: real, delta: real, n: int, s: int): (a: real)
    requires n >= 1
    ensures s == -1 ==> a == a1
    ensures s == n - 1 ==> a == a1 + delta
  {
    assert s == n - 1 ==> delta * (s + 1) as real / n as real == delta by {
      if s == n - 1 {
        DivUnique(delta * n as real, delta, n as real);
      }
    }
    a1 + delta * (s + 1) as real / n as real
  }

  /**
   * The segment end angles step evenly by `delta / n` from the start angle,
   * and the last one is the end of the sweep.
   */
  lemma SegmentAngles(a1: real, delta: real, n: int, s: int)
    requires n >= 1 && 0 <= s < n
    ensures SegmentAngle(a1, delta, n, s) == a1 + (s + 1) as real * (delta / n as real)
    ensures s + 1 < n ==> SegmentAngle(a1, delta, n, s + 1) - SegmentAngle(a1, delta, n, s) == delta / n as real
    ensures s == n - 1 ==> SegmentAngle(a1, delta, n, s) == a1 + delta
  {
    var d := delta / n as real;
    DivMul(delta, n as real);
    DivUnique(delta * (s + 1) as real, (s + 1) as real * d, n as real);
    DivUnique(delta * (s + 1 + 1) as real, (s + 1 + 1) as real * d, n as real);
    assert (s + 1 + 1) as real * d - (s + 1) as real * d == d;
  }

  /** Line 436: the arc types the source accepts. */
  predicate ValidArcType(arcType: string)
  {
    arcType == "arc" || arcType == "slice" || arcType == "chord"
  }

  /** Lines 459-467: what closes the path for each arc type. */
  function Closing(arcType: string, center: Point): (tail: seq<Segment>)
    ensures arcType == "arc" ==> tail == []
    ensures arcType == "slice" ==> tail == [Line(center), ZoneClose]
    ensures arcType == "chord" ==> tail == [ZoneClose]
    ensures !ValidArcType(arcType) ==> tail == []
  {
    match arcType
    case "slice" => [Line(center), ZoneClose]
    case "chord" => [ZoneClose]
    case _ => []
  }

  /**
   * Lines 454-458: `n` elliptical-arc segments of radii `rx`, `ry`, landing
   * on evenly spaced angles from `a1`, the last at `a1 + delta`.
   */
  method ArcSegments(rx: real, ry: real, a1: real, delta: real, n: int, at: real -> Point)
    returns (arcs: seq<Segment>)
    requires n >= 1
    ensures |arcs| == n
    ensures forall s :: 0 <= s < n ==>
              arcs[s] == Arc(rx, ry, 0.0, false, true, at(SegmentAngle(a1, delta, n, s)))
    ensures arcs[n - 1] == Arc(rx, ry, 0.0, false, true, at(a1 + delta))
  {
    arcs := [];
    var s := 0;
    while s < n
      invariant 0 <= s <= n
      invariant |arcs| == s
      invariant forall j :: 0 <= j < s ==>
                  arcs[j] == Arc(rx, ry, 0.0, false, true, at(SegmentAngle(a1, delta, n, j)))
    {
      var a := a1 + delta * (s + 1) as real / n as real;
      assert a == SegmentAngle(a1, delta, n, s);
      arcs := arcs + [Arc(rx, ry, 0.0, false, true, at(a))];
      s := s + 1;
    }
    SegmentAngles(a1, delta, n, n - 1);
  }

  /**
   * Lines 444-466: one move to the start point, the arc segments of the
   * normalised sweep, each landing on its evenly spaced angle and the last
   * on the end of the sweep, then the closing segments for the arc type.
   */
  ghost predicate IsArcPath(path: seq<Segment>, center: Point, rx: real, ry: real,
                            ang1: real, ang2: real, arcType: string, pi: real, at: real -> Point)
    requires pi > 0.0
  {
    var a1 := Normalise(ang1, pi);
    var delta := Sweep(ang1, ang2, pi);
    var n := SegmentCount(delta, pi);
    && n >= 1
    && |path| == 1 + n + |Closing(arcType, center)|
    && path[0] == Move(at(a1))
    && (forall s :: 0 <= s < n ==>
          path[1 + s] == Arc(rx, ry, 0.0, false, true, at(SegmentAngle(a1, delta, n, s))))
    && path[n] == Arc(rx, ry, 0.0, false, true, at(a1 + delta))
    && path[1 + n..] == Closing(arcType, center)
  }

  /**
   * Lines 444-467 as the code that builds the path. `open` is whether
   * `sodipodi:open` is set, `reported` whether line 467 reports an invalid
   * arc type.
   */
  method ArcPath(center: Point, rx: real, ry: real, ang1: real, ang2: real, arcType: string,
                 pi: real, at: real -> Point)
    returns (path: seq<Segment>, open: bool, reported: bool)
    requires pi > 0.0
    ensures IsArcPath(path, center, rx, ry, ang1, ang2, arcType, pi, at)
    ensures open <==> arcType == "arc"
    ensures reported <==> !ValidArcType(arcType)
  {
    var a1 := Normalise(ang1, pi);
    var a2 := Normalise(ang2, pi);
    var delta := FloorMod(a2 - a1, 2.0 * pi);
    if delta == 0.0 {
      delta := 2.0 * pi;
    }
    assert delta == Sweep(ang1, ang2, pi);
    var n := Trunc((delta + pi / 2.0) / (pi / 2.0));
    assert n == SegmentCount(delta, pi);
    SegmentCountBounds(delta, pi);
    var arcs := ArcSegments(rx, ry, a1, delta, n, at);
    path := [Move(at(a1))] + arcs;
    open, reported := false, false;
    if arcType == "arc" {
      open := true;
    } else if arcType == "slice" {
      path := path + [Line(center), ZoneClose];
    } else if arcType == "chord" {
      path := path + [ZoneClose];
    } else {
      reported := true;
    }
    assert path == [Move(at(a1))] + arcs + Closing(arcType, center);
    AssembledArcPath(arcs, center, rx, ry, ang1, ang2, arcType, pi, at);
  }

  /** The start move, the segments of the sweep and the closing segments make up the arc's path. */
  lemma AssembledArcPath(arcs: seq<Segment>, center: Point, rx: real, ry: real,
                         ang1: real, ang2: real, arcType: string, pi: real, at: real -> Point)
    requires pi > 0.0
    requires var a1 := Normalise(ang1, pi);
      var delta := Sweep(ang1, ang2, pi);
      var n := SegmentCount(delta, pi);
      && n >= 1
      && |arcs| == n
      && (forall s :: 0 <= s < n ==>
            arcs[s] == Arc(rx, ry, 0.0, false, true, at(SegmentAngle(a1, delta, n, s))))
      && arcs[n - 1] == Arc(rx, ry, 0.0, false, true, at(a1 + delta))
    ensures IsArcPath([Move(at(Normalise(ang1, pi)))] + arcs + Closing(arcType, center),
                      center, rx, ry, ang1, ang2, arcType, pi, at)
  {
    var path := [Move(at(Normalise(ang1, pi)))] + arcs + Closing(arcType, center);
    var n := |arcs|;
    assert forall s :: 0 <= s < n ==> path[1 + s] == arcs[s];
    assert path[1 + n..] == Closing(arcType, center);
  }

  /**
   * A full ellipse: equal angles sweep a whole turn in five segments; a half
   * turn from 0 to pi sweeps pi in three.
   */
  lemma SweepExamples(a: real, pi: real)
    requires pi > 0.0
    ensures Sweep(a, a, pi) == 2.0 * pi && SegmentCount(Sweep(a, a, pi), pi) == 5
    ensures Sweep(0.0, pi, pi) == pi && SegmentCount(pi, pi) == 3
  {
    QuarterTurnMultiple(4, pi);
    QuarterTurnMultiple(2, pi);
    assert Normalise(0.0, pi) == 0.0 by {
      assert (0.0 / (2.0 * pi)).Floor == 0;
    }
    assert Normalise(pi, pi) == pi by {
      DivUnique(pi, 0.5, 2.0 * pi);
      assert 0.0 <= pi / (2.0 * pi) < 1.0;
      assert (pi / (2.0 * pi)).Floor == 0;
    }
    assert FloorMod(pi - 0.0, 2.0 * pi) == pi by {
      assert (pi / (2.0 * pi)).Floor == 0;
    }
  }
}
