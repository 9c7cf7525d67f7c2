/**
  Plane geometry of the arena: points, axis-aligned rectangles, the world
  (size and obstacle field), and the ray/segment intersection of the
  `Line` helper in player.cpp.  Floating-point values are modelled as reals;
  the numeric library routines the engine calls are supplied by the caller
  as a `Math` record, so nothing here depends on their numeric behaviour.
*/
module Geometry {
  import opened Wrappers

  datatype Vec2 = Vec2(x: real, y: real)

  /** rect2d: the top-left and the bottom-right corner. */
  datatype Rect = Rect(tl: Vec2, br: Vec2) {
    /** rect2d::contains, closed on all four sides. */
    predicate Contains(p: Vec2) {
      tl.x <= p.x <= br.x && tl.y <= p.y <= br.y
    }
  }

  /** rect2d::fromPosSize */
  function FromPosSize(pos: Vec2, size: Vec2): (r: Rect)
    ensures r.tl == pos
    ensures r.br.x - r.tl.x == size.x && r.br.y - r.tl.y == size.y
  {
    Rect(pos, Vec2(pos.x + size.x, pos.y + size.y))
  }

  /** rect2d(p, q).normalized(): the rectangle spanned by two opposite corners. */
  function Normalized(p: Vec2, q: Vec2): (r: Rect)
    ensures r.tl.x <= r.br.x && r.tl.y <= r.br.y
    ensures r.Contains(p) && r.Contains(q)
  {
    Rect(Vec2(Min(p.x, q.x), Min(p.y, q.y)), Vec2(Max(p.x, q.x), Max(p.y, q.y)))
  }

  /** std::min: returns the first argument unless the second is smaller. */
  function Min(a: real, b: real): real { if b < a then b else a }

  /** std::max: returns the first argument unless it is smaller than the second. */
  function Max(a: real, b: real): real { if a < b then b else a }

  /**
    The clamp applied to a requested coordinate: `max(min(v, hi), 0)`.
    With a non-negative upper bound the result is in [0, hi], and a
    coordinate already in range is left alone.
  */
  function Clamp(v: real, hi: real): (r: real)
    ensures hi >= 0.0 ==> 0.0 <= r <= hi
    ensures 0.0 <= v <= hi ==> r == v
    ensures v > hi >= 0.0 ==> r == hi
    ensures v < 0.0 ==> r == 0.0
  {
    Max(Min(v, hi), 0.0)
  }

  /** vec4 colour: red, green, blue and alpha. */
  datatype Color = Color(r: real, g: real, b: real, a: real)

  const Transparent := Color(0.0, 0.0, 0.0, 0.0)

  /**
    The C library routines the engine calls: atan2, cos, sin, hypot and
    std::stof (None when stof throws, because the text does not start with
    a number or the number is out of range).
  */
  datatype Math = Math(
    atan2: (real, real) -> real,
    cos: real -> real,
    sin: real -> real,
    hypot: (real, real) -> real,
    stof: string -> Option<real>)

  /** mat4::rotate2D(angle) applied to v; the rotation matrix is built from cos and sin. */
  function Rotate(m: Math, angle: real, v: Vec2): Vec2 {
    Vec2(v.x * m.cos(angle) - v.y * m.sin(angle), v.x * m.sin(angle) + v.y * m.cos(angle))
  }

  /** The bearing from `from` to `to`: atan2(dy, dx). */
  function Bearing(m: Math, from: Vec2, to: Vec2): real {
    m.atan2(to.y - from.y, to.x - from.x)
  }

  /** The world: its size in whole pixels and the obstacle rectangles. */
  datatype Arena = Arena(width: nat, height: nat, rectangles: seq<Rect>) {
    /** The border of the map, rect2d(0, 0, width, height). */
    function Border(): Rect {
      Rect(Vec2(0.0, 0.0), Vec2(width as real, height as real))
    }

    predicate InBounds(p: Vec2) {
      0.0 <= p.x <= width as real && 0.0 <= p.y <= height as real
    }

    /** True iff some obstacle contains p (GameWindow::isInside). */
    predicate Covers(p: Vec2) {
      exists i :: 0 <= i < |rectangles| && rectangles[i].Contains(p)
    }
  }

  /** A line through a and b with its direction (dx, dy) and length. */
  datatype Line = Line(a: Vec2, b: Vec2, dx: real, dy: real, magnitude: real)

  /** The Line(p1, p2) constructor. */
  function MakeLine(m: Math, p1: Vec2, p2: Vec2): (l: Line)
    ensures l.a == p1 && l.b == p2
    ensures l.a.x + l.dx == l.b.x && l.a.y + l.dy == l.b.y
  {
    Line(p1, p2, p2.x - p1.x, p2.y - p1.y, m.hypot(p2.x - p1.x, p2.y - p1.y))
  }

  /**
    Line::Intersection: a point, its distance along the ray (in units of
    the ray's direction vector) and a validity flag; a default-constructed
    one is all zeros and invalid.
  */
  datatype Intersection = Intersection(x: real, y: real, distance: real, valid: bool) {
    /** operator<: compares distances only. */
    predicate Less(other: Intersection) {
      distance < other.distance
    }

    function Point(): Vec2 {
      Vec2(x, y)
    }
  }

  const NoIntersection := Intersection(0.0, 0.0, 0.0, false)

  /**
    The parallel test: both normalised direction components are exactly
    equal.  A zero length makes the ratios NaN in the source, which
    compares unequal, so such a line is never parallel.
  */
  predicate Parallel(l: Line, o: Line) {
    l.magnitude != 0.0 && o.magnitude != 0.0 &&
    l.dx / l.magnitude == o.dx / o.magnitude &&
    l.dy / l.magnitude == o.dy / o.magnitude
  }

  /** The divisor of the segment parameter. */
  function Crossing(l: Line, o: Line): real {
    o.dx * l.dy - o.dy * l.dx
  }

  /** Both divisions of the intersection formula are by non-zero numbers. */
  predicate Solvable(l: Line, o: Line) {
    Crossing(l, o) != 0.0 && l.dx != 0.0
  }

  /** `otherLength`: where the crossing point lies on o, 0 at o.a and 1 at o.b. */
  function SegmentParameter(l: Line, o: Line): real
    requires Crossing(l, o) != 0.0
  {
    (l.dx * (o.a.y - l.a.y) + l.dy * (l.a.x - o.a.x)) / Crossing(l, o)
  }

  /** `distance`: where the crossing point lies on l, in units of (dx, dy). */
  function RayDistance(l: Line, o: Line): real
    requires Solvable(l, o)
  {
    (o.a.x + o.dx * SegmentParameter(l, o) - l.a.x) / l.dx
  }

  /**
    Line::intersection(other) for the ray l and the segment o.  It is
    invalid exactly when the lines are parallel, the crossing lies behind
    the ray's origin, or it lies outside the segment; otherwise the point
    lies on the ray at the reported distance and on the segment.
  */
  function Intersect(l: Line, o: Line): (r: Intersection)
    ensures !r.valid <==>
      (Parallel(l, o) || !Solvable(l, o) || RayDistance(l, o) < 0.0 ||
       SegmentParameter(l, o) < 0.0 || SegmentParameter(l, o) > 1.0)
    ensures !r.valid ==> r == NoIntersection
    ensures r.valid ==> r.distance >= 0.0
    ensures r.valid ==> r.x == l.a.x + l.dx * r.distance && r.y == l.a.y + l.dy * r.distance
    ensures r.valid ==>
      var t := SegmentParameter(l, o);
      0.0 <= t <= 1.0 && r.x == o.a.x + o.dx * t && r.y == o.a.y + o.dy * t
  {
    if Parallel(l, o) then NoIntersection
    else if !Solvable(l, o) then NoIntersection
    else
      var otherLength := SegmentParameter(l, o);
      var distance := RayDistance(l, o);
      if distance < 0.0 then NoIntersection
      else if otherLength < 0.0 || otherLength > 1.0 then NoIntersection
      else
        OnBothLines(l, o);
        Intersection(l.a.x + l.dx * distance, l.a.y + l.dy * distance, distance, true)
  }

  /** The crossing point computed along l agrees with the one along o. */
  lemma OnBothLines(l: Line, o: Line)
    requires Solvable(l, o)
    ensures var t, d := SegmentParameter(l, o), RayDistance(l, o);
      l.a.x + l.dx * d == o.a.x + o.dx * t &&
      l.a.y + l.dy * d == o.a.y + o.dy * t
  {
    var t, d := SegmentParameter(l, o), RayDistance(l, o);
    var gx, gy := o.a.x - l.a.x, o.a.y - l.a.y;
    var c := Crossing(l, o);
    assert t * c == l.dx * gy - l.dy * gx;
    assert d * l.dx == gx + o.dx * t;
    calc {
      l.dx * (l.dy * d);
      l.dy * (gx + o.dx * t);
      l.dy * gx + t * (o.dx * l.dy);
      l.dy * gx + t * (c + o.dy * l.dx);
      l.dy * gx + t * c + t * o.dy * l.dx;
      l.dx * gy + t * o.dy * l.dx;
      l.dx * (gy + o.dy * t);
    }
  }
}
