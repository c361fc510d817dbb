/** The index and angle bookkeeping of the two debug-draw callbacks that
    outline the physics engine's shapes. Each routine is modelled by the
    sequence of line segments it issues, one per call to the renderer's
    line primitive: for polygons a segment names the indices of the two
    vertices it joins, for circles the angles (in whole degrees) of the two
    rim points it joins. Transforming the points, the trigonometry and the
    drawing itself are not modelled. */
module Outline {

  /** A segment between polygon vertices from and to. */
  datatype Edge = Edge(from: int, to: int)

  /** The outline of a polygon with n vertices: for each vertex i in order,
      the segment from i to the next vertex, the last one wrapping to 0. */
  ghost predicate IsPolygonOutline(edges: seq<Edge>, n: int)
  {
    |edges| == (if n > 0 then n else 0) &&
    forall i :: 0 <= i < |edges| ==> edges[i] == Edge(i, (i + 1) % n)
  }

  /** The segments a polygon outline draws for vertexCount vertices. The
      outline is closed: each segment starts where the previous one ends,
      and the last one ends where the first starts. Every index used is a
      valid vertex index. */
  method PolygonOutline(vertexCount: int) returns (edges: seq<Edge>)
    ensures IsPolygonOutline(edges, vertexCount)
    ensures forall i :: 0 <= i < |edges| ==>
              0 <= edges[i].from < vertexCount && 0 <= edges[i].to < vertexCount
    ensures forall i :: 0 < i < |edges| ==> edges[i - 1].to == edges[i].from
    ensures vertexCount > 0 ==> edges[vertexCount - 1].to == edges[0].from
  {
    edges := [];
    var i := 0;
    while i < vertexCount
      invariant 0 <= i && (vertexCount > 0 ==> i <= vertexCount) && (vertexCount <= 0 ==> i == 0)
      invariant |edges| == i
      invariant forall k :: 0 <= k < i ==>
                  edges[k].from == k && edges[k].to == (if k + 1 == vertexCount then 0 else k + 1)
    {
      var nextIndex := if i + 1 == vertexCount then 0 else i + 1;
      edges := edges + [Edge(i, nextIndex)];
      i := i + 1;
    }
    forall k | 0 <= k < |edges| ensures edges[k] == Edge(k, (k + 1) % vertexCount) {
      NextIndexWraps(k, vertexCount);
    }
  }

  /** The next index, as the loop computes it, is the successor modulo n. */
  lemma NextIndexWraps(i: int, n: int)
    requires 0 <= i < n
    ensures (if i + 1 == n then 0 else i + 1) == (i + 1) % n
  {
    if i + 1 < n {
      assert (i + 1) % n == i + 1;
    } else {
      assert (i + 1) % n == 0;
    }
  }

  /** Every vertex of a polygon is the start of exactly the segment with its
      own index and the end of exactly the segment before it (cyclically). */
  lemma PolygonVertexDegree(edges: seq<Edge>, n: int, v: int)
    requires IsPolygonOutline(edges, n)
    requires 0 <= v < n
    ensures edges[v].from == v
    ensures edges[if v == 0 then n - 1 else v - 1].to == v
    ensures forall i :: 0 <= i < |edges| && edges[i].from == v ==> i == v
    ensures forall i :: 0 <= i < |edges| && edges[i].to == v ==> i == (if v == 0 then n - 1 else v - 1)
  {
    forall i | 0 <= i < |edges| && edges[i].to == v
      ensures i == (if v == 0 then n - 1 else v - 1)
    {
      NextIndexWraps(i, n);
    }
    NextIndexWraps(if v == 0 then n - 1 else v - 1, n);
  }

  /** Number of segments a circle outline is made of. */
  const NumberOfSegments: nat := 20
  /** Angle between successive rim points, in degrees. */
  const AngleStep: int := 360 / NumberOfSegments

  /** A segment between the rim points at two angles, in degrees. */
  datatype Arc = Arc(fromAngle: int, toAngle: int)

  /** An angle the circle outline can use: a whole number of steps in [0, 360). */
  predicate IsStepAngle(a: int)
  {
    0 <= a < 360 && a % AngleStep == 0
  }

  /** The segment a circle outline draws k-th: from the rim point k steps
      round to the one a step further, the last one ending back at angle 0. */
  function CircleArc(k: int): Arc
  {
    Arc(AngleStep * k, if k + 1 == NumberOfSegments then 0 else AngleStep * (k + 1))
  }

  /** The outline of a circle: NumberOfSegments segments, the k-th being
      CircleArc(k). */
  ghost predicate IsCircleOutline(segments: seq<Arc>)
  {
    |segments| == NumberOfSegments &&
    forall k :: 0 <= k < |segments| ==> segments[k] == CircleArc(k)
  }

  /** The segments a circle outline draws: starting at angle 0, each segment
      goes one step further round, and the angle resets to 0 once it reaches
      360. The segments form a chain that returns to its starting point. */
  method CircleOutline() returns (segments: seq<Arc>)
    ensures IsCircleOutline(segments)
    ensures forall k :: 0 < k < |segments| ==> segments[k - 1].toAngle == segments[k].fromAngle
    ensures segments[0].fromAngle == 0 && segments[|segments| - 1].toAngle == 0
  {
    var angle := 0;
    var angle0 := angle;
    angle := angle + AngleStep;

    segments := [];
    var i := 0;
    while i < NumberOfSegments
      invariant 0 <= i <= NumberOfSegments
      invariant |segments| == i
      invariant angle0 == if i == NumberOfSegments then 0 else AngleStep * i
      invariant angle == if i + 1 == NumberOfSegments then 0
                         else if i == NumberOfSegments then AngleStep
                         else AngleStep * (i + 1)
      invariant forall k :: 0 <= k < i ==> segments[k] == CircleArc(k)
    {
      var angle1 := angle;
      segments := segments + [Arc(angle0, angle1)];
      angle0 := angle1;
      angle := angle + AngleStep;
      if angle >= 360 {
        angle := 0;
      }
      i := i + 1;
    }
  }

  /** Every angle a circle outline uses is a multiple of the step in
      [0, 360), and every such multiple is where exactly one of its segments
      starts: the outline goes round the circle once. */
  lemma CircleOutlineAngles(segments: seq<Arc>)
    requires IsCircleOutline(segments)
    ensures forall k :: 0 <= k < |segments| ==>
              IsStepAngle(segments[k].fromAngle) && IsStepAngle(segments[k].toAngle)
    ensures forall a :: IsStepAngle(a) ==>
              0 <= a / AngleStep < |segments| && segments[a / AngleStep].fromAngle == a
    ensures forall a, k :: IsStepAngle(a) && 0 <= k < |segments| && segments[k].fromAngle == a ==>
              k == a / AngleStep
  {
    forall k | 0 <= k < |segments|
      ensures IsStepAngle(segments[k].fromAngle) && IsStepAngle(segments[k].toAngle)
    {
      CircleArcAngles(k);
    }
    forall a | IsStepAngle(a)
      ensures 0 <= a / AngleStep < |segments| && segments[a / AngleStep].fromAngle == a
    {
      StepAngleStartsArc(a);
    }
    forall a, k | IsStepAngle(a) && 0 <= k < |segments| && segments[k].fromAngle == a
      ensures k == a / AngleStep
    {
      StepAngleStartsArc(a);
    }
  }

  /** Both ends of every circle segment are step angles. */
  lemma CircleArcAngles(k: int)
    requires 0 <= k < NumberOfSegments
    ensures IsStepAngle(CircleArc(k).fromAngle) && IsStepAngle(CircleArc(k).toAngle)
  {
    assert (AngleStep * k) % AngleStep == 0;
    assert (AngleStep * (k + 1)) % AngleStep == 0;
  }

  /** Every step angle is where exactly one circle segment starts. */
  lemma StepAngleStartsArc(a: int)
    requires IsStepAngle(a)
    ensures 0 <= a / AngleStep < NumberOfSegments && CircleArc(a / AngleStep).fromAngle == a
    ensures forall k :: 0 <= k < NumberOfSegments && CircleArc(k).fromAngle == a ==> k == a / AngleStep
  {
    assert a == AngleStep * (a / AngleStep) + a % AngleStep;
  }
}
