/** The annotation shape of the labelling tool: a kind tag, a list of rings (vertex edits
    touch only the first ring), per-vertex labels aligned with the first ring, a closed flag
    and a one-level raw/refined snapshot. */
module Shapes {
  import opened Wrappers
  import opened Lists
  import opened Geometry

  /** The closed set of shape kinds; `KindName` gives the tag each one is stored under. */
  datatype ShapeKind =
    | PolygonKind | RectangleKind | PointKind | LineKind
    | CircleKind | LinestripKind | PointsKind | MaskKind

  function KindName(k: ShapeKind): string {
    match k
    case PolygonKind => "polygon"
    case RectangleKind => "rectangle"
    case PointKind => "point"
    case LineKind => "line"
    case CircleKind => "circle"
    case LinestripKind => "linestrip"
    case PointsKind => "points"
    case MaskKind => "mask"
  }

  /** The eight tags the kind setter accepts. */
  const KindNames: seq<string> :=
    ["polygon", "rectangle", "point", "line", "circle", "linestrip", "points", "mask"]

  /** The validation of the kind setter: no value means "polygon", one of the eight tags is
      that kind, anything else is rejected. */
  function ParseKind(value: Option<string>): (r: Option<ShapeKind>)
    ensures value.None? ==> r == Some(PolygonKind)
    ensures value.Some? ==> (r.Some? <==> value.value in KindNames)
    ensures value.Some? && r.Some? ==> KindName(r.value) == value.value
  {
    match value
    case None => Some(PolygonKind)
    case Some(t) =>
      if t == "polygon" then Some(PolygonKind)
      else if t == "rectangle" then Some(RectangleKind)
      else if t == "point" then Some(PointKind)
      else if t == "line" then Some(LineKind)
      else if t == "circle" then Some(CircleKind)
      else if t == "linestrip" then Some(LinestripKind)
      else if t == "points" then Some(PointsKind)
      else if t == "mask" then Some(MaskKind)
      else None
  }

  /** Every kind's tag is accepted by the setter and gives that kind back. */
  lemma KindNameRoundTrip(k: ShapeKind)
    ensures ParseKind(Some(KindName(k))) == Some(k)
  {
  }

  /** What a refinement saves and a restore brings back. */
  datatype Snapshot = Snapshot(shapeType: ShapeKind, points: seq<seq<Point>>, pointLabels: seq<int>)

  /** `r` is the first index whose distance is within `epsilon` and is the least of all
      distances, or None when no distance is within `epsilon`. */
  ghost predicate IsNearestWithin(ds: seq<real>, epsilon: real, r: Option<nat>) {
    match r
    case None => forall j :: 0 <= j < |ds| ==> ds[j] > epsilon
    case Some(i) =>
      && i < |ds|
      && ds[i] <= epsilon
      && (forall j :: 0 <= j < |ds| ==> ds[i] <= ds[j])
      && (forall j :: 0 <= j < i ==> ds[j] > ds[i])
  }

  /** At most one answer meets `IsNearestWithin`, so the two scans below are determined by
      their distances. */
  lemma NearestIsUnique(ds: seq<real>, epsilon: real, r1: Option<nat>, r2: Option<nat>)
    requires IsNearestWithin(ds, epsilon, r1) && IsNearestWithin(ds, epsilon, r2)
    ensures r1 == r2
  {
  }

  /** Distance from `point` to each vertex of `ring`, both scaled by `scale`, measured by
      the Euclidean norm `norm` of their difference. */
  function VertexDistances(ring: seq<Point>, point: Point, scale: real, norm: Point -> real): (ds: seq<real>)
    ensures |ds| == |ring|
  {
    seq(|ring|, k requires 0 <= k < |ring| => norm(Sub(Scaled(ring[k], scale), Scaled(point, scale))))
  }

  /** Index of the vertex before `i` in a ring of `n` vertices: Python's `ring[i - 1]`, which
      for `i == 0` is the last vertex. */
  function Prev(i: nat, n: nat): nat
    requires i < n
  {
    if i == 0 then n - 1 else i - 1
  }

  /** Distance from `point` to each edge of `ring`, all scaled by `scale`; edge `k` runs from
      vertex `k - 1` to vertex `k`, so edge 0 closes the ring. */
  function EdgeDistances(ring: seq<Point>, point: Point, scale: real,
                         segDist: (Point, Point, Point) -> real): (ds: seq<real>)
    ensures |ds| == |ring|
  {
    seq(|ring|, k requires 0 <= k < |ring| =>
      segDist(Scaled(point, scale), Scaled(ring[Prev(k, |ring|)], scale), Scaled(ring[k], scale)))
  }

  /** Whether some non-empty ring, closed back to its first vertex, contains `p`. */
  function AnyRingContains(rings: seq<seq<Point>>, p: Point, fill: (Path, Point) -> bool): (r: bool)
    ensures r <==> exists i :: 0 <= i < |rings| && rings[i] != [] && PathContains(ClosedRing(rings[i]), p, fill)
  {
    if rings == [] then false
    else if rings[0] != [] && PathContains(ClosedRing(rings[0]), p, fill) then true
    else
      var rest := AnyRingContains(rings[1..], p, fill);
      assert forall i :: 1 <= i < |rings| ==> rings[1..][i - 1] == rings[i];
      rest
  }

  class Shape {
    var shapeLabel: Option<string>  // Python's `label` attribute
    var groupId: Option<int>
    var shapeType: ShapeKind
    /** The rings; vertex-level edits and queries use only `points[0]`. */
    var points: seq<seq<Point>>
    /** One label per vertex of the first ring (1 positive, 0 negative for the `points` kind). */
    var pointLabels: seq<int>
    var closed: bool
    /** The state saved by the last refinement, if it has not been restored. */
    var shapeRaw: Option<Snapshot>
    var mask: Option<seq<seq<bool>>>

    /** A shape with no rings, no labels, open, and no pending snapshot. */
    constructor (shapeLabel: Option<string>, shapeType: ShapeKind, groupId: Option<int>,
                 mask: Option<seq<seq<bool>>>)
      ensures this.shapeLabel == shapeLabel && this.groupId == groupId && this.mask == mask
      ensures this.shapeType == shapeType && points == [] && pointLabels == []
      ensures !closed && shapeRaw.None?
    {
      this.shapeLabel := shapeLabel;
      this.groupId := groupId;
      this.shapeType := shapeType;
      points := [];
      pointLabels := [];
      closed := false;
      shapeRaw := None;
      this.mask := mask;
    }

    /** Construction with a kind tag: an unknown tag raises `ValueError` and no shape exists. */
    static method Create(shapeLabel: Option<string>, shapeType: Option<string>, groupId: Option<int>,
                         mask: Option<seq<seq<bool>>>) returns (r: Result<Shape>)
      ensures ParseKind(shapeType).None? <==> r == Err(ValueError)
      ensures r.Ok? ==> fresh(r.value) && r.value.shapeType == ParseKind(shapeType).value
      ensures r.Ok? ==> r.value.points == [] && r.value.pointLabels == [] && !r.value.closed
      ensures r.Ok? ==> r.value.shapeRaw.None? && r.value.shapeLabel == shapeLabel
      ensures r.Ok? ==> r.value.groupId == groupId && r.value.mask == mask
    {
      var kind := ParseKind(shapeType);
      if kind.None? {
        return Err(ValueError);
      }
      var s := new Shape(shapeLabel, kind.value, groupId, mask);
      return Ok(s);
    }

    /** The first ring, or no vertices when there are no rings. */
    function Ring0(): seq<Point>
      reads this
    {
      if points == [] then [] else points[0]
    }

    /** The rings after the first. */
    function OtherRings(): seq<seq<Point>>
      reads this
    {
      if points == [] then [] else points[1..]
    }

    /** There is one label per vertex of the first ring. */
    predicate LabelsAligned()
      reads this
    {
      |pointLabels| == |Ring0()|
    }

    function Snap(): Snapshot
      reads this
    {
      Snapshot(shapeType, points, pointLabels)
    }

    /** A polygon made of several rings: a first ring and at least one more. */
    function IsMultiPolygon(): (r: bool)
      reads this
      ensures r <==> KindName(shapeType) == "polygon" && |points| > 1
      ensures r ==> OtherRings() != []
    {
      shapeType == PolygonKind && |points| > 1
    }

    /** The kind setter: no value stores "polygon"; an unknown tag raises `ValueError` and
        keeps the previous kind. */
    method SetShapeType(value: Option<string>) returns (r: Outcome)
      modifies this`shapeType
      ensures ParseKind(value).Some? ==> r == Pass && shapeType == ParseKind(value).value
      ensures ParseKind(value).None? ==> r == Fail(ValueError) && shapeType == old(shapeType)
    {
      var kind := ParseKind(value);
      if kind.None? {
        return Fail(ValueError);
      }
      shapeType := kind.value;
      return Pass;
    }

    /** Whether the shape has been closed by `Close` and not reopened by `SetOpen`. */
    function IsClosed(): (r: bool)
      reads this
      ensures r <==> closed
    {
      closed
    }

    method Close()
      modifies this`closed
      ensures IsClosed()
    {
      closed := true;
    }

    method SetOpen()
      modifies this`closed
      ensures !IsClosed()
    {
      closed := false;
    }

    /** Adds a vertex at the end of the first ring (creating that ring if there are no rings)
        and its label at the end of the labels; a vertex equal to the first one of a
        non-empty first ring closes the shape instead. */
    method AddPoint(point: Point, pointLabel: int := 1)
      modifies this`points, this`pointLabels, this`closed
      ensures old(Ring0()) != [] && point == old(Ring0())[0] ==>
        closed && points == old(points) && pointLabels == old(pointLabels)
      ensures !(old(Ring0()) != [] && point == old(Ring0())[0]) ==>
        && closed == old(closed)
        && points == [old(Ring0()) + [point]] + old(OtherRings())
        && pointLabels == old(pointLabels) + [pointLabel]
      ensures old(LabelsAligned()) ==> LabelsAligned()
    {
      if points == [] {
        points := [[]];
      }
      if points[0] != [] && point == points[0][0] {
        Close();
      } else {
        points := points[0 := points[0] + [point]];
        pointLabels := pointLabels + [pointLabel];
      }
    }

    /** Vertices may be added interactively only to polygons and linestrips. */
    function CanAddPoint(): (r: bool)
      reads this
      ensures r <==> KindName(shapeType) in ["polygon", "linestrip"]
    {
      shapeType == PolygonKind || shapeType == LinestripKind
    }

    /** A vertex may be removed only from a polygon of more than three vertices or a
        linestrip of more than two. */
    function CanRemovePoint(): (r: bool)
      reads this
      ensures r <==> (shapeType == PolygonKind && |Ring0()| > 3) || (shapeType == LinestripKind && |Ring0()| > 2)
    {
      if !CanAddPoint() then false
      else if points == [] || points[0] == [] then false
      else if shapeType == PolygonKind && |points[0]| <= 3 then false
      else if shapeType == LinestripKind && |points[0]| <= 2 then false
      else true
    }

    /** Removes and returns the last vertex of the first ring, and the last label if there
        is one; with no vertex it returns None and changes nothing. */
    method PopPoint() returns (r: Option<Point>)
      modifies this`points, this`pointLabels
      ensures old(Ring0()) == [] ==> r.None? && points == old(points) && pointLabels == old(pointLabels)
      ensures old(Ring0()) != [] ==>
        && r == Some(old(Ring0())[|old(Ring0())| - 1])
        && points == [old(Ring0())[..|old(Ring0())| - 1]] + old(OtherRings())
        && pointLabels == (if old(pointLabels) == [] then [] else old(pointLabels)[..|old(pointLabels)| - 1])
      ensures old(LabelsAligned()) ==> LabelsAligned()
    {
      if points != [] && points[0] != [] {
        if pointLabels != [] {
          pointLabels := pointLabels[..|pointLabels| - 1];
        }
        var ring := points[0];
        points := points[0 := ring[..|ring| - 1]];
        return Some(ring[|ring| - 1]);
      }
      return None;
    }

    /** Inserts a vertex into the first ring (creating it if there are no rings) and a label
        into the labels, each at index `i` or at the end when `i` is past it. */
    method InsertPoint(i: nat, point: Point, pointLabel: int := 1)
      modifies this`points, this`pointLabels
      ensures points == [InsertAt(old(Ring0()), i, point)] + old(OtherRings())
      ensures pointLabels == InsertAt(old(pointLabels), i, pointLabel)
      ensures old(LabelsAligned()) ==> LabelsAligned()
    {
      if points == [] {
        points := [[]];
      }
      points := points[0 := InsertAt(points[0], i, point)];
      pointLabels := InsertAt(pointLabels, i, pointLabel);
    }

    /** Removes vertex `i` of the first ring, and label `i` when there are labels, if
        `CanRemovePoint` allows it; otherwise nothing changes and the tool logs a warning. An
        index past the first ring raises `IndexError` before anything changes; an index past
        a non-empty label list raises it after the vertex is gone. */
    method RemovePoint(i: nat) returns (r: Outcome)
      modifies this`points, this`pointLabels
      ensures !old(CanRemovePoint()) ==> r == Pass && points == old(points) && pointLabels == old(pointLabels)
      ensures old(CanRemovePoint()) && i >= |old(Ring0())| ==>
        r == Fail(IndexError) && points == old(points) && pointLabels == old(pointLabels)
      ensures old(CanRemovePoint()) && i < |old(Ring0())| ==>
        && points == [RemoveAt(old(Ring0()), i)] + old(OtherRings())
        && (old(pointLabels) == [] ==> r == Pass && pointLabels == [])
        && (i < |old(pointLabels)| ==> r == Pass && pointLabels == RemoveAt(old(pointLabels), i))
        && (old(pointLabels) != [] && i >= |old(pointLabels)| ==>
              r == Fail(IndexError) && pointLabels == old(pointLabels))
      ensures old(LabelsAligned()) ==> LabelsAligned() && r == (if old(CanRemovePoint()) && i >= |old(Ring0())| then Fail(IndexError) else Pass)
    {
      if !CanRemovePoint() {
        return Pass;
      }
      if points != [] && points[0] != [] {
        if i >= |points[0]| {
          return Fail(IndexError);
        }
        points := points[0 := RemoveAt(points[0], i)];
        if pointLabels != [] {
          if i >= |pointLabels| {
            return Fail(IndexError);
          }
          pointLabels := RemoveAt(pointLabels, i);
        }
      }
      return Pass;
    }

    /** Saves the current kind, rings and labels (overwriting any earlier snapshot), then
        installs the refined ones and the mask. The snapshot is taken before the new kind is
        validated, so an unknown kind raises `ValueError` with the snapshot already replaced
        and everything else as it was. */
    method SetShapeRefined(shapeType: Option<string>, points: seq<seq<Point>>, pointLabels: seq<int>,
                           mask: Option<seq<seq<bool>>> := None) returns (r: Outcome)
      modifies this`shapeRaw, this`shapeType, this`points, this`pointLabels, this`mask
      ensures shapeRaw == Some(old(Snap()))
      ensures ParseKind(shapeType).Some? ==>
        && r == Pass && this.shapeType == ParseKind(shapeType).value
        && this.points == points && this.pointLabels == pointLabels && this.mask == mask
      ensures ParseKind(shapeType).None? ==>
        r == Fail(ValueError) && Snap() == old(Snap()) && this.mask == old(this.mask)
    {
      shapeRaw := Some(Snap());
      r := SetShapeType(shapeType);
      if r.Fail? {
        return;
      }
      this.points := points;
      this.pointLabels := pointLabels;
      this.mask := mask;
    }

    /** Puts back the saved kind, rings and labels and forgets the snapshot; without a
        snapshot it does nothing. The mask is left as it is. */
    method RestoreShapeRaw()
      modifies this`shapeRaw, this`shapeType, this`points, this`pointLabels
      ensures shapeRaw.None?
      ensures old(shapeRaw).None? ==> Snap() == old(Snap())
      ensures old(shapeRaw).Some? ==> Snap() == old(shapeRaw).value
    {
      if shapeRaw.None? {
        return;
      }
      var saved := shapeRaw.value;
      shapeType, points, pointLabels := saved.shapeType, saved.points, saved.pointLabels;
      shapeRaw := None;
    }

    /** Translates every vertex of every ring by `offset`. */
    method MoveBy(offset: Point)
      modifies this`points
      ensures points == TranslateAll(old(points), offset)
    {
      points := TranslateAll(points, offset);
    }

    /** Translates vertex `i` of the first ring by `offset` when that vertex exists; every
        other vertex and ring stays as it is. */
    method MoveVertexBy(i: nat, offset: Point)
      modifies this`points
      ensures i < |old(Ring0())| ==>
        points == [old(Ring0())[i := Add(old(Ring0())[i], offset)]] + old(OtherRings())
      ensures i >= |old(Ring0())| ==> points == old(points)
    {
      if points != [] && points[0] != [] && i < |points[0]| {
        points := points[0 := points[0][i := Add(points[0][i], offset)]];
      }
    }

    /** The vertex of the first ring nearest to `point` within `epsilon` (the first of equal
        ones), or None; `norm` is the Euclidean length of a vector. */
    method NearestVertex(point: Point, epsilon: real, scale: real, norm: Point -> real) returns (r: Option<nat>)
      ensures Ring0() == [] ==> r.None?
      ensures r.Some? ==> r.value < |Ring0()|
      ensures IsNearestWithin(VertexDistances(Ring0(), point, scale, norm), epsilon, r)
    {
      if points == [] || points[0] == [] {
        return None;
      }
      var ring := points[0];
      ghost var ds := VertexDistances(ring, point, scale, norm);
      var minDistance: Option<real> := None;  // None stands for float("inf")
      r := None;
      var q := Scaled(point, scale);
      for i := 0 to |ring|
        invariant IsNearestWithin(ds[..i], epsilon, r)
        invariant r.None? <==> minDistance.None?
        invariant r.Some? ==> minDistance.value == ds[r.value]
      {
        var p := Scaled(ring[i], scale);
        var dist := norm(Sub(p, q));
        assert dist == ds[i];
        if dist <= epsilon && (minDistance.None? || dist < minDistance.value) {
          minDistance := Some(dist);
          r := Some(i);
        }
      }
      assert ds[..|ring|] == ds;
    }

    /** The edge of the first ring nearest to `point` within `epsilon` (the first of equal
        ones), or None; edge `i` joins vertex `i - 1` to vertex `i`, edge 0 the last vertex to
        the first, and `segDist` is the point-to-segment distance. */
    method NearestEdge(point: Point, epsilon: real, scale: real,
                       segDist: (Point, Point, Point) -> real) returns (r: Option<nat>)
      ensures Ring0() == [] ==> r.None?
      ensures r.Some? ==> r.value < |Ring0()|
      ensures IsNearestWithin(EdgeDistances(Ring0(), point, scale, segDist), epsilon, r)
    {
      if points == [] || points[0] == [] {
        return None;
      }
      var ring := points[0];
      ghost var ds := EdgeDistances(ring, point, scale, segDist);
      var minDistance: Option<real> := None;  // None stands for float("inf")
      r := None;
      var q := Scaled(point, scale);
      for i := 0 to |ring|
        invariant IsNearestWithin(ds[..i], epsilon, r)
        invariant r.None? <==> minDistance.None?
        invariant r.Some? ==> minDistance.value == ds[r.value]
      {
        var start := Scaled(ring[Prev(i, |ring|)], scale);
        var end := Scaled(ring[i], scale);
        var dist := segDist(q, start, end);
        assert dist == ds[i];
        if dist <= epsilon && (minDistance.None? || dist < minDistance.value) {
          minDistance := Some(dist);
          r := Some(i);
        }
      }
      assert ds[..|ring|] == ds;
    }

    /** The path of the first ring: a rectangle or circle through its two points for those
        kinds (nothing with another count), otherwise the polyline through its vertices. */
    function MakePath(norm: Point -> real): (r: Path)
      reads this
      ensures Ring0() == [] ==> r.EmptyPath?
      ensures Ring0() != [] && shapeType in {RectangleKind, MaskKind} ==>
        (r.RectPath? <==> |Ring0()| == 2) && (!r.RectPath? ==> r.EmptyPath?)
      ensures r.RectPath? ==> |Ring0()| == 2 && r.corner1 == Ring0()[0] && r.corner2 == Ring0()[1]
      ensures Ring0() != [] && shapeType == CircleKind ==>
        (r.EllipsePath? <==> |Ring0()| == 2) && (!r.EllipsePath? ==> r.EmptyPath?)
      ensures r.EllipsePath? ==> |Ring0()| == 2 && r.center == Ring0()[0] && r.radius == norm(Sub(Ring0()[0], Ring0()[1]))
      ensures Ring0() != [] && shapeType !in {RectangleKind, MaskKind, CircleKind} ==> r == Polyline(Ring0())
    {
      var ring := Ring0();
      if ring == [] then EmptyPath
      else if shapeType == RectangleKind || shapeType == MaskKind then
        if |ring| == 2 then RectPath(ring[0], ring[1]) else EmptyPath
      else if shapeType == CircleKind then
        if |ring| == 2 then EllipsePath(ring[0], norm(Sub(ring[0], ring[1]))) else EmptyPath
      else Polyline(ring)
    }

    /** Whether the shape's region contains `p`. Line, linestrip and points shapes have no
        region; a polygon with rings contains `p` when one of its non-empty rings does; any
        other shape with a mask raises (its mask lookup reads coordinates off a ring, which
        is a list); the rest ask the toolkit's fill test about `MakePath`. */
    function ContainsPoint(p: Point, fill: (Path, Point) -> bool, norm: Point -> real): (r: Result<bool>)
      reads this
      ensures shapeType in {LineKind, LinestripKind, PointsKind} ==> r == Ok(false)
      ensures shapeType == PolygonKind && points != [] ==>
        r.Ok? && (r.value <==> exists i :: 0 <= i < |points| && points[i] != [] && PathContains(ClosedRing(points[i]), p, fill))
      ensures r.Err? <==>
        shapeType !in {LineKind, LinestripKind, PointsKind} && !(shapeType == PolygonKind && points != []) && mask.Some?
      ensures r.Ok? && !(shapeType in {LineKind, LinestripKind, PointsKind}) && !(shapeType == PolygonKind && points != []) ==>
        r.value == PathContains(MakePath(norm), p, fill)
      ensures Ring0() == [] && mask.None? && !(shapeType == PolygonKind && points != []) ==> r == Ok(false)
    {
      if shapeType in {LineKind, LinestripKind, PointsKind} then Ok(false)
      else if shapeType == PolygonKind && points != [] then Ok(AnyRingContains(points, p, fill))
      else if mask.Some? then Err(if points == [] then IndexError else AttributeError)
      else Ok(PathContains(MakePath(norm), p, fill))
    }

    /** The shape's bounding box: the null box with no rings; for a polygon of several rings
        the `united` boxes of its non-empty rings, which is the box of all its vertices when
        no ring box is null; otherwise the box of `MakePath`, which for a single-ring polygon
        or any polyline kind is the box of the first ring's vertices. */
    function BoundingRect(norm: Point -> real): (r: Box)
      reads this
      ensures points == [] ==> r == NullBox
      ensures IsMultiPolygon() && ProperRings(points) && Flatten(points) != [] ==>
        r == BoundsOf(Flatten(points)) && !IsNull(r)
      ensures !IsMultiPolygon() && Ring0() != [] && shapeType !in {RectangleKind, MaskKind, CircleKind} ==>
        r == BoundsOf(Ring0())
      ensures !IsMultiPolygon() && Ring0() != [] && shapeType in {RectangleKind, MaskKind} ==>
        r == if |Ring0()| == 2 then BoundsOf(Ring0()) else NullBox
      ensures (IsMultiPolygon() ==> Flatten(points) == []) && Ring0() == [] ==> r == NullBox
      ensures Ring0() != [] && shapeType == CircleKind && |Ring0()| != 2 ==> r == NullBox
      ensures shapeType == CircleKind && |Ring0()| == 2 ==>
        var c := Ring0()[0];
        var rad := norm(Sub(Ring0()[0], Ring0()[1]));
        rad >= 0.0 ==> r == Box(c.x - rad, c.y - rad, c.x + rad, c.y + rad)
    {
      if points == [] then NullBox
      else if IsMultiPolygon() && RingBoxes(points) != [] then
        if ProperRings(points) then UniteRingBoxes(points); UniteAll(RingBoxes(points))
        else UniteAll(RingBoxes(points))
      else
        assert |Ring0()| == 2 ==> Ring0() == [Ring0()[0], Ring0()[1]];
        PathBox(MakePath(norm))
    }

    /** `len(shape)`: the number of vertices of the first ring. */
    function Len(): (n: nat)
      reads this
      ensures n == |Ring0()|
    {
      if points != [] && points[0] != [] then |points[0]| else 0
    }

    /** `shape[key]`: vertex `key` of the first ring; `IndexError` when there is none. */
    function GetItem(key: nat): (r: Result<Point>)
      reads this
      ensures r.Ok? <==> key < |Ring0()|
      ensures r.Ok? ==> r.value == Ring0()[key]
      ensures r.Err? ==> r.error == IndexError
    {
      if points != [] && points[0] != [] then
        if key < |points[0]| then Ok(points[0][key]) else Err(IndexError)
      else Err(IndexError)
    }

    /** `shape[key] = value`: replaces vertex `key` of the first ring. On a shape with no rings
        an empty first ring is created first, so the `IndexError` for a missing vertex leaves
        that ring behind. */
    method SetItem(key: nat, value: Point) returns (r: Outcome)
      modifies this`points
      ensures key < |old(Ring0())| ==>
        r == Pass && points == [old(Ring0())[key := value]] + old(OtherRings())
      ensures key >= |old(Ring0())| ==>
        r == Fail(IndexError) && points == (if old(points) == [] then [[]] else old(points))
    {
      if points == [] {
        points := [[]];
      }
      if key < |points[0]| {
        points := points[0 := points[0][key := value]];
        return Pass;
      }
      return Fail(IndexError);
    }
  }

  /** A refinement followed by a restore gives back the kind, rings and labels exactly and
      leaves no snapshot; the mask keeps the refined one; a second restore changes nothing. */
  method RefineThenRestore(s: Shape, shapeType: Option<string>, points: seq<seq<Point>>,
                           pointLabels: seq<int>, mask: Option<seq<seq<bool>>>)
    modifies s`shapeType, s`points, s`pointLabels, s`mask, s`shapeRaw
    ensures s.Snap() == old(s.Snap()) && s.shapeRaw.None?
    ensures s.mask == if ParseKind(shapeType).Some? then mask else old(s.mask)
    ensures s.closed == old(s.closed) && s.shapeLabel == old(s.shapeLabel) && s.groupId == old(s.groupId)
  {
    var _ := s.SetShapeRefined(shapeType, points, pointLabels, mask);
    s.RestoreShapeRaw();
    ghost var once := s.Snap();
    s.RestoreShapeRaw();
    assert s.Snap() == once;
  }
}
