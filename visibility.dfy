/**
  The radial sweep of Player::updateVisibility, as functions: the candidate
  angles and the wall segments every rectangle contributes, the closest
  valid hit along one ray, the sorted sweep and the closed triangle fan.
  The method in the Players module that fills the vectors step by step is
  proved to compute exactly these.
*/
module Visibility {
  import opened Wrappers
  import opened Geometry

  /** The offset either side of a corner's bearing. */
  const Epsilon: real := 0.0001

  /** The four corners in the order the sweep takes them: tl, br, bl, tr. */
  function Corners(block: Rect): (r: seq<Vec2>)
    ensures |r| == 4 && r[0] == block.tl && r[1] == block.br
    ensures r[2] == Vec2(block.tl.x, block.br.y) && r[3] == Vec2(block.br.x, block.tl.y)
  {
    [block.tl, block.br, Vec2(block.tl.x, block.br.y), Vec2(block.br.x, block.tl.y)]
  }

  /** The bearing of a corner, just before it, and just after it. */
  function Spread(angle: real): seq<real> {
    [angle - Epsilon, angle, angle + Epsilon]
  }

  /** The twelve candidate angles one rectangle contributes. */
  function CornerAngles(m: Math, centre: Vec2, block: Rect): (r: seq<real>)
    ensures |r| == 12
  {
    var c := Corners(block);
    Spread(Bearing(m, centre, c[0])) + Spread(Bearing(m, centre, c[1])) +
    Spread(Bearing(m, centre, c[2])) + Spread(Bearing(m, centre, c[3]))
  }

  /** Corner j contributes the three angles from index 3 j: just before its bearing, the bearing, just after. */
  lemma CornerAnglesSpread(m: Math, centre: Vec2, block: Rect, j: nat)
    requires j < 4
    ensures var a := Bearing(m, centre, Corners(block)[j]);
      CornerAngles(m, centre, block)[3 * j..3 * j + 3] == [a - Epsilon, a, a + Epsilon]
  {
    var c := Corners(block);
    var s := [Spread(Bearing(m, centre, c[0])), Spread(Bearing(m, centre, c[1])),
              Spread(Bearing(m, centre, c[2])), Spread(Bearing(m, centre, c[3]))];
    assert CornerAngles(m, centre, block) == s[0] + s[1] + s[2] + s[3];
    assert CornerAngles(m, centre, block)[3 * j..3 * j + 3] == s[j];
  }

  /** The four wall segments of one rectangle: top, bottom, left, right. */
  function Edges(m: Math, block: Rect): (r: seq<Line>)
    ensures |r| == 4
  {
    var c := Corners(block);
    [MakeLine(m, c[0], c[3]), MakeLine(m, c[2], c[1]), MakeLine(m, c[0], c[2]), MakeLine(m, c[3], c[1])]
  }

  /** The candidate angles of all rectangles, rectangle by rectangle. */
  function CandidateAngles(m: Math, centre: Vec2, blocks: seq<Rect>): (r: seq<real>)
    ensures |r| == 12 * |blocks|
  {
    if blocks == [] then []
    else CandidateAngles(m, centre, blocks[..|blocks| - 1]) + CornerAngles(m, centre, blocks[|blocks| - 1])
  }

  /** The wall segments of all rectangles, rectangle by rectangle. */
  function Segments(m: Math, blocks: seq<Rect>): (r: seq<Line>)
    ensures |r| == 4 * |blocks|
  {
    if blocks == [] then []
    else Segments(m, blocks[..|blocks| - 1]) + Edges(m, blocks[|blocks| - 1])
  }

  /** Rectangle k owns the twelve angles starting at index 12 k. */
  lemma {:induction false} AnglesOfBlock(m: Math, centre: Vec2, blocks: seq<Rect>, k: nat)
    requires k < |blocks|
    ensures CandidateAngles(m, centre, blocks)[12 * k..12 * k + 12] == CornerAngles(m, centre, blocks[k])
  {
    var n := |blocks| - 1;
    var front := blocks[..n];
    var head := CandidateAngles(m, centre, front);
    var all := CandidateAngles(m, centre, blocks);
    assert all == head + CornerAngles(m, centre, blocks[n]);
    if k < n {
      AnglesOfBlock(m, centre, front, k);
      assert front[k] == blocks[k];
      assert 12 * k + 12 <= |head| == 12 * n;
      assert all[12 * k..12 * k + 12] == head[12 * k..12 * k + 12];
    } else {
      assert |head| == 12 * k;
      assert all[12 * k..12 * k + 12] == all[|head|..];
    }
  }

  /** Rectangle k owns the four segments starting at index 4 k. */
  lemma {:induction false} EdgesOfBlock(m: Math, blocks: seq<Rect>, k: nat)
    requires k < |blocks|
    ensures Segments(m, blocks)[4 * k..4 * k + 4] == Edges(m, blocks[k])
  {
    var n := |blocks| - 1;
    var front := blocks[..n];
    var head := Segments(m, front);
    var all := Segments(m, blocks);
    assert all == head + Edges(m, blocks[n]);
    if k < n {
      EdgesOfBlock(m, front, k);
      assert front[k] == blocks[k];
      assert 4 * k + 4 <= |head| == 4 * n;
      assert all[4 * k..4 * k + 4] == head[4 * k..4 * k + 4];
    } else {
      assert |head| == 4 * k;
      assert all[4 * k..4 * k + 4] == all[|head|..];
    }
  }

  /** The unit ray from the centre at the given angle. */
  function Ray(m: Math, centre: Vec2, angle: real): Line {
    MakeLine(m, centre, Vec2(centre.x + m.cos(angle), centre.y + m.sin(angle)))
  }

  /** The ray from the centre towards a point. */
  function RayTowards(m: Math, centre: Vec2, p: Vec2): Line {
    Ray(m, centre, Bearing(m, centre, p))
  }

  /**
    The running `closestIntersection` after the given segments were
    scanned: a hit replaces it when it is nearer, or when none was kept yet.
    It is valid exactly when some segment is hit; it is then one of the
    hits and no hit is nearer; a tie keeps the earlier segment.
  */
  function Closest(ray: Line, segments: seq<Line>): Intersection {
    if segments == [] then NoIntersection
    else
      var n := |segments| - 1;
      var kept := Closest(ray, segments[..n]);
      var hit := Intersect(ray, segments[n]);
      if !hit.valid then kept
      else if hit.Less(kept) || !kept.valid then hit
      else kept
  }

  /**
    The kept intersection is valid exactly when some segment is hit; it is
    then one of the hits and no hit is nearer, and otherwise it is the
    default, invalid intersection.
  */
  lemma {:induction false} ClosestIsNearest(ray: Line, segments: seq<Line>)
    ensures var r := Closest(ray, segments);
      (r.valid <==> exists k :: 0 <= k < |segments| && Intersect(ray, segments[k]).valid) &&
      (r.valid ==> exists k :: 0 <= k < |segments| && r == Intersect(ray, segments[k])) &&
      (r.valid ==> forall k :: 0 <= k < |segments| && Intersect(ray, segments[k]).valid ==>
         r.distance <= Intersect(ray, segments[k]).distance) &&
      (!r.valid ==> r == NoIntersection)
  {
    if segments != [] {
      var n := |segments| - 1;
      var front := segments[..n];
      ClosestIsNearest(ray, front);
      assert forall k :: 0 <= k < n ==> front[k] == segments[k];
    }
  }

  /** Some segment stops the ray (the visible-player test). */
  predicate Blocked(ray: Line, segments: seq<Line>) {
    exists k :: 0 <= k < |segments| && Intersect(ray, segments[k]).valid
  }

  /** The other players' positions no wall segment stops the ray towards, in order. */
  function VisibleAmong(m: Math, centre: Vec2, others: seq<Vec2>, segments: seq<Line>): (r: seq<Vec2>)
    ensures |r| <= |others|
  {
    if others == [] then []
    else
      var n := |others| - 1;
      var front := VisibleAmong(m, centre, others[..n], segments);
      if Blocked(RayTowards(m, centre, others[n]), segments) then front else front + [others[n]]
  }

  /** Every listed position is one of the others, and no segment blocks the ray to it. */
  lemma {:induction false} VisibleAreUnblocked(m: Math, centre: Vec2, others: seq<Vec2>, segments: seq<Line>)
    ensures forall q :: 0 <= q < |VisibleAmong(m, centre, others, segments)| ==>
      VisibleAmong(m, centre, others, segments)[q] in others &&
      !Blocked(RayTowards(m, centre, VisibleAmong(m, centre, others, segments)[q]), segments)
  {
    if others != [] {
      var n := |others| - 1;
      var front := VisibleAmong(m, centre, others[..n], segments);
      VisibleAreUnblocked(m, centre, others[..n], segments);
      var r := VisibleAmong(m, centre, others, segments);
      forall q | 0 <= q < |r|
        ensures r[q] in others && !Blocked(RayTowards(m, centre, r[q]), segments)
      {
        if q < |front| {
          assert r[q] == front[q];
          assert front[q] in others[..n];
        } else {
          assert r[q] == others[n];
        }
      }
    }
  }

  /** A position is listed as visible exactly when no segment blocks the ray to it. */
  lemma {:induction false} VisibleIff(m: Math, centre: Vec2, others: seq<Vec2>, segments: seq<Line>, p: Vec2)
    requires p in others
    ensures p in VisibleAmong(m, centre, others, segments) <==> !Blocked(RayTowards(m, centre, p), segments)
  {
    var n := |others| - 1;
    var front := VisibleAmong(m, centre, others[..n], segments);
    var r := VisibleAmong(m, centre, others, segments);
    var blocked := Blocked(RayTowards(m, centre, others[n]), segments);
    assert r == if blocked then front else front + [others[n]];
    if others[n] != p {
      assert p in others[..n] by {
        var q :| 0 <= q < |others| && others[q] == p;
        assert others[..n][q] == p;
      }
      VisibleIff(m, centre, others[..n], segments, p);
      assert p in r <==> p in front;
    } else if blocked {
      VisibleAreUnblocked(m, centre, others[..n], segments);
      assert p !in front;
    } else {
      assert r[|front|] == p;
    }
  }

  /** The sweep angles whose ray hits some segment, in sweep order. */
  function HitAngles(m: Math, centre: Vec2, angles: seq<real>, segments: seq<Line>): (r: seq<real>)
    ensures |r| <= |angles|
  {
    if angles == [] then []
    else
      var n := |angles| - 1;
      var front := HitAngles(m, centre, angles[..n], segments);
      if Closest(Ray(m, centre, angles[n]), segments).valid then front + [angles[n]] else front
  }

  /** The points the sweep adds after the centre: the closest hit of every ray that hits. */
  function FanHits(m: Math, centre: Vec2, angles: seq<real>, segments: seq<Line>): (r: seq<Vec2>)
    ensures |r| == |HitAngles(m, centre, angles, segments)|
  {
    if angles == [] then []
    else
      var n := |angles| - 1;
      var front := FanHits(m, centre, angles[..n], segments);
      var closest := Closest(Ray(m, centre, angles[n]), segments);
      if closest.valid then front + [closest.Point()] else front
  }

  /** Every kept angle's ray hits some segment. */
  lemma {:induction false} HitAnglesHit(m: Math, centre: Vec2, angles: seq<real>, segments: seq<Line>)
    ensures forall q :: 0 <= q < |HitAngles(m, centre, angles, segments)| ==>
      Closest(Ray(m, centre, HitAngles(m, centre, angles, segments)[q]), segments).valid
  {
    if angles != [] {
      var n := |angles| - 1;
      HitAnglesHit(m, centre, angles[..n], segments);
      var front := HitAngles(m, centre, angles[..n], segments);
      var r := HitAngles(m, centre, angles, segments);
      if Closest(Ray(m, centre, angles[n]), segments).valid {
        assert r == front + [angles[n]];
        forall q | 0 <= q < |r| ensures Closest(Ray(m, centre, r[q]), segments).valid {
          if q < |front| {
            assert r[q] == front[q];
          } else {
            assert r[q] == angles[n];
          }
        }
      } else {
        assert r == front;
      }
    }
  }

  /** The q-th added point is the closest hit along the q-th kept angle. */
  lemma {:induction false} FanHitsAreClosest(m: Math, centre: Vec2, angles: seq<real>, segments: seq<Line>)
    ensures forall q :: 0 <= q < |FanHits(m, centre, angles, segments)| ==>
      FanHits(m, centre, angles, segments)[q] ==
      Closest(Ray(m, centre, HitAngles(m, centre, angles, segments)[q]), segments).Point()
  {
    if angles != [] {
      var n := |angles| - 1;
      FanHitsAreClosest(m, centre, angles[..n], segments);
      var front, frontAngles := FanHits(m, centre, angles[..n], segments), HitAngles(m, centre, angles[..n], segments);
      var r, a := FanHits(m, centre, angles, segments), HitAngles(m, centre, angles, segments);
      var closest := Closest(Ray(m, centre, angles[n]), segments);
      if closest.valid {
        assert r == front + [closest.Point()] && a == frontAngles + [angles[n]];
        forall q | 0 <= q < |r| ensures r[q] == Closest(Ray(m, centre, a[q]), segments).Point() {
          if q < |front| {
            assert r[q] == front[q] && a[q] == frontAngles[q];
          } else {
            assert r[q] == closest.Point() && a[q] == angles[n];
          }
        }
      } else {
        assert r == front && a == frontAngles;
      }
    }
  }

  predicate Ascending(s: seq<real>) {
    forall i, j :: 0 <= i < j < |s| ==> s[i] <= s[j]
  }

  /** An upper bound on all sweep angles bounds the angles that hit. */
  lemma {:induction false} HitAnglesBounded(m: Math, centre: Vec2, angles: seq<real>, segments: seq<Line>, bound: real)
    requires forall i :: 0 <= i < |angles| ==> angles[i] <= bound
    ensures forall q :: 0 <= q < |HitAngles(m, centre, angles, segments)| ==> HitAngles(m, centre, angles, segments)[q] <= bound
  {
    if angles != [] {
      var n := |angles| - 1;
      var head := angles[..n];
      assert forall i :: 0 <= i < |head| ==> head[i] == angles[i];
      HitAnglesBounded(m, centre, head, segments, bound);
      var front := HitAngles(m, centre, head, segments);
      if Closest(Ray(m, centre, angles[n]), segments).valid {
        var r := front + [angles[n]];
        assert HitAngles(m, centre, angles, segments) == r;
        assert forall q :: 0 <= q < |front| ==> r[q] == front[q];
      } else {
        assert HitAngles(m, centre, angles, segments) == front;
      }
    }
  }

  /** Keeping only the angles that hit preserves the ascending sweep order. */
  lemma {:induction false} HitAnglesAscending(m: Math, centre: Vec2, angles: seq<real>, segments: seq<Line>)
    requires Ascending(angles)
    ensures Ascending(HitAngles(m, centre, angles, segments))
  {
    if angles != [] {
      var n := |angles| - 1;
      var head := angles[..n];
      assert forall i :: 0 <= i < |head| ==> head[i] == angles[i];
      HitAnglesAscending(m, centre, head, segments);
      HitAnglesBounded(m, centre, head, segments, angles[n]);
      var front := HitAngles(m, centre, head, segments);
      if Closest(Ray(m, centre, angles[n]), segments).valid {
        var r := front + [angles[n]];
        assert HitAngles(m, centre, angles, segments) == r;
        forall i, j | 0 <= i < j < |r| ensures r[i] <= r[j] {
          if j < |front| {
            assert r[i] == front[i] && r[j] == front[j];
          } else {
            assert r[i] == front[i] && r[j] == angles[n];
          }
        }
      }
    }
  }

  /** Insertion before the first element not smaller than x. */
  function Insert(x: real, s: seq<real>): (r: seq<real>)
    ensures multiset(r) == multiset(s) + multiset{x} && |r| == |s| + 1
  {
    if s == [] then [x]
    else if x <= s[0] then [x] + s
    else
      assert s == [s[0]] + s[1..];
      [s[0]] + Insert(x, s[1..])
  }

  /** Inserting into an ascending sequence keeps it ascending. */
  lemma {:induction false} InsertAscending(x: real, s: seq<real>)
    requires Ascending(s)
    ensures Ascending(Insert(x, s))
  {
    var r := Insert(x, s);
    if s == [] {
    } else if x <= s[0] {
      assert r == [x] + s;
      forall i, j | 0 <= i < j < |r| ensures r[i] <= r[j] {
        if i > 0 {
          assert r[i] == s[i - 1] && r[j] == s[j - 1];
        } else {
          assert r[j] == s[j - 1] && s[0] <= s[j - 1];
        }
      }
    } else {
      var rest := s[1..];
      var tail := Insert(x, rest);
      assert forall i :: 0 <= i < |rest| ==> rest[i] == s[i + 1];
      InsertAscending(x, rest);
      InsertBounded(x, rest, s[0]);
      assert r == [s[0]] + tail;
      forall i, j | 0 <= i < j < |r| ensures r[i] <= r[j] {
        if i == 0 {
          assert r[j] == tail[j - 1];
        } else {
          assert r[i] == tail[i - 1] && r[j] == tail[j - 1];
        }
      }
    }
  }

  /** A lower bound of x and of every element of s bounds the result of inserting x into s. */
  lemma InsertBounded(x: real, s: seq<real>, low: real)
    requires low <= x && forall i :: 0 <= i < |s| ==> low <= s[i]
    ensures forall q :: 0 <= q < |Insert(x, s)| ==> low <= Insert(x, s)[q]
  {
    var r := Insert(x, s);
    forall q | 0 <= q < |r|
      ensures low <= r[q]
    {
      assert r[q] in multiset(r);
      if r[q] != x {
        assert r[q] in multiset(s);
        assert r[q] in s;
      }
    }
  }

  /** std::sort on the angles. */
  function SortAscending(s: seq<real>): (r: seq<real>)
    ensures |r| == |s|
  {
    if s == [] then []
    else
      assert s == [s[0]] + s[1..];
      Insert(s[0], SortAscending(s[1..]))
  }

  /** The sorted angles are a permutation of the angles. */
  lemma {:induction false} SortPermutes(s: seq<real>)
    ensures multiset(SortAscending(s)) == multiset(s)
  {
    if s != [] {
      SortPermutes(s[1..]);
      assert s == [s[0]] + s[1..];
    }
  }

  /** The sorted angles ascend. */
  lemma {:induction false} SortAscends(s: seq<real>)
    ensures Ascending(SortAscending(s))
  {
    if s != [] {
      SortAscends(s[1..]);
      InsertAscending(s[0], SortAscending(s[1..]));
    }
  }

  /** The rectangles the sweep runs over: the obstacles and then the border of the map. */
  function Blocks(world: Arena): (r: seq<Rect>)
    ensures |r| == |world.rectangles| + 1 && r[|r| - 1] == world.Border()
  {
    world.rectangles + [world.Border()]
  }

  /** The centre followed by the closest hit of every sorted candidate ray that hits. */
  function SweepPoints(m: Math, centre: Vec2, world: Arena): seq<Vec2> {
    var blocks := Blocks(world);
    [centre] + FanHits(m, centre, SortAscending(CandidateAngles(m, centre, blocks)), Segments(m, blocks))
  }

  /**
    The polygon updateVisibility installs: the sweep points closed by
    repeating the first hit, or nothing when fewer than three points
    resulted.  A fan starts at the centre, ends with its second point, and
    in between lists the closest hits of the candidate rays that hit, in
    ascending angle order.
  */
  function Fan(m: Math, centre: Vec2, world: Arena): (r: Option<seq<Vec2>>)
    ensures r.None? <==> |SweepPoints(m, centre, world)| < 3
    ensures r.Some? ==>
      var f := r.value;
      |f| >= 4 && f[0] == centre && f[|f| - 1] == f[1]
  {
    var points := SweepPoints(m, centre, world);
    if |points| < 3 then None else Some(points + [points[1]])
  }

  /** Every point of a fan between the centre and the closing point is the nearest hit of its ray. */
  lemma FanPointsAreNearestHits(m: Math, centre: Vec2, world: Arena, q: nat)
    requires Fan(m, centre, world).Some?
    requires 1 <= q < |Fan(m, centre, world).value| - 1
    ensures var blocks := Blocks(world);
      var sorted := SortAscending(CandidateAngles(m, centre, blocks));
      var rays := HitAngles(m, centre, sorted, Segments(m, blocks));
      Ascending(rays) && q - 1 < |rays| &&
      Fan(m, centre, world).value[q] == Closest(Ray(m, centre, rays[q - 1]), Segments(m, blocks)).Point()
  {
    var blocks := Blocks(world);
    var sorted := SortAscending(CandidateAngles(m, centre, blocks));
    SortAscends(CandidateAngles(m, centre, blocks));
    HitAnglesAscending(m, centre, sorted, Segments(m, blocks));
    FanHitsAreClosest(m, centre, sorted, Segments(m, blocks));
    var f := Fan(m, centre, world).value;
    assert f[q] == SweepPoints(m, centre, world)[q];
  }

  // The loops of Player::updateVisibility, each proved to compute its function above.

  /** The body of the first loop for one rectangle: its candidate angles and its edges. */
  method BlockRays(m: Math, centre: Vec2, block: Rect) returns (angles: seq<real>, segments: seq<Line>)
    ensures angles == CornerAngles(m, centre, block)
    ensures segments == Edges(m, block)
  {
    var topLeft := block.tl;
    var angle := Bearing(m, centre, topLeft);
    angles := [angle - Epsilon, angle, angle + Epsilon];
    var bottomRight := block.br;
    angle := Bearing(m, centre, bottomRight);
    angles := angles + [angle - Epsilon, angle, angle + Epsilon];
    var bottomLeft := Vec2(topLeft.x, bottomRight.y);
    angle := Bearing(m, centre, bottomLeft);
    angles := angles + [angle - Epsilon, angle, angle + Epsilon];
    var topRight := Vec2(bottomRight.x, topLeft.y);
    angle := Bearing(m, centre, topRight);
    angles := angles + [angle - Epsilon, angle, angle + Epsilon];
    segments := [MakeLine(m, topLeft, topRight), MakeLine(m, bottomLeft, bottomRight)];
    segments := segments + [MakeLine(m, topLeft, bottomLeft), MakeLine(m, topRight, bottomRight)];
  }

  /** The first loop: twelve angles and four segments per rectangle, in rectangle order. */
  method CollectBlocks(m: Math, centre: Vec2, blocks: seq<Rect>) returns (angles: seq<real>, segments: seq<Line>)
    ensures angles == CandidateAngles(m, centre, blocks)
    ensures segments == Segments(m, blocks)
  {
    angles, segments := [], [];
    var i := 0;
    while i < |blocks|
      invariant 0 <= i <= |blocks|
      invariant angles == CandidateAngles(m, centre, blocks[..i])
      invariant segments == Segments(m, blocks[..i])
    {
      var blockAngles, blockSegments := BlockRays(m, centre, blocks[i]);
      angles := angles + blockAngles;
      segments := segments + blockSegments;
      assert blocks[..i + 1][..i] == blocks[..i];
      i := i + 1;
    }
    assert blocks[..i] == blocks;
  }

  /** The blocked test for one player: stops at the first segment the ray hits. */
  method IsBlocked(ray: Line, segments: seq<Line>) returns (blocked: bool)
    ensures blocked == Blocked(ray, segments)
  {
    blocked := false;
    var i := 0;
    while i < |segments|
      invariant 0 <= i <= |segments|
      invariant forall k :: 0 <= k < i ==> !Intersect(ray, segments[k]).valid
    {
      var intersection := Intersect(ray, segments[i]);
      if intersection.valid {
        blocked := true;
        break;
      }
      i := i + 1;
    }
  }

  /** The visible-player loop: keeps, in order, each position no segment blocks. */
  method FindVisible(m: Math, centre: Vec2, others: seq<Vec2>, segments: seq<Line>) returns (visible: seq<Vec2>)
    ensures visible == VisibleAmong(m, centre, others, segments)
  {
    visible := [];
    var i := 0;
    while i < |others|
      invariant 0 <= i <= |others|
      invariant visible == VisibleAmong(m, centre, others[..i], segments)
    {
      var other := others[i];
      var angle := Bearing(m, centre, other);
      var ray := Ray(m, centre, angle);
      var isBlocked := IsBlocked(ray, segments);
      if !isBlocked {
        visible := visible + [other];
      }
      assert others[..i + 1][..i] == others[..i];
      i := i + 1;
    }
    assert others[..i] == others;
  }

  /** The inner sweep loop: the running closest intersection over all segments. */
  method NearestHit(ray: Line, segments: seq<Line>) returns (closest: Intersection)
    ensures closest == Closest(ray, segments)
  {
    closest := NoIntersection;
    var i := 0;
    while i < |segments|
      invariant 0 <= i <= |segments|
      invariant closest == Closest(ray, segments[..i])
    {
      var intersection := Intersect(ray, segments[i]);
      assert segments[..i + 1][..i] == segments[..i];
      if intersection.valid && (intersection.Less(closest) || !closest.valid) {
        closest := intersection;
      }
      i := i + 1;
    }
    assert segments[..i] == segments;
  }

  /** The outer sweep loop: the centre, then the closest hit of every ray that hits. */
  method Sweep(m: Math, centre: Vec2, angles: seq<real>, segments: seq<Line>) returns (points: seq<Vec2>)
    ensures points == [centre] + FanHits(m, centre, angles, segments)
  {
    points := [centre];
    var i := 0;
    while i < |angles|
      invariant 0 <= i <= |angles|
      invariant points == [centre] + FanHits(m, centre, angles[..i], segments)
    {
      var ray := Ray(m, centre, angles[i]);
      var closest := NearestHit(ray, segments);
      assert angles[..i + 1][..i] == angles[..i];
      if closest.valid {
        points := points + [closest.Point()];
      }
      i := i + 1;
    }
    assert angles[..i] == angles;
  }

  /**
    The whole of updateVisibility on values: the visible players among the
    given positions and the fan to install, if any.
  */
  method ComputeVisibility(m: Math, centre: Vec2, world: Arena, others: seq<Vec2>)
    returns (visible: seq<Vec2>, fan: Option<seq<Vec2>>)
    ensures visible == VisibleAmong(m, centre, others, Segments(m, Blocks(world)))
    ensures fan == Fan(m, centre, world)
  {
    var rectangles := world.rectangles + [world.Border()];
    var angles, segments := CollectBlocks(m, centre, rectangles);
    visible := FindVisible(m, centre, others, segments);
    var sorted := SortAscending(angles);
    var points := Sweep(m, centre, sorted, segments);
    if |points| < 3 {
      fan := None;
    } else {
      fan := Some(points + [points[1]]);
    }
  }
}
