/** Points, translation, axis-aligned boxes and the path descriptors a shape hands to the
    drawing toolkit. Coordinates are exact reals; the toolkit's own region tests stay
    abstract and are passed in as functions. */
module Geometry {

  /** A 2D point, as the toolkit's `QPointF`; also used for offsets. */
  datatype Point = Point(x: real, y: real)

  function Add(p: Point, q: Point): Point { Point(p.x + q.x, p.y + q.y) }

  function Sub(p: Point, q: Point): Point { Point(p.x - q.x, p.y - q.y) }

  function Neg(p: Point): Point { Point(-p.x, -p.y) }

  /** A point with both coordinates multiplied by the display scale factor. */
  function Scaled(p: Point, k: real): Point { Point(p.x * k, p.y * k) }

  /** `[p + offset for p in ring]`. */
  function Translate(ring: seq<Point>, offset: Point): (r: seq<Point>)
    ensures |r| == |ring|
    ensures forall k :: 0 <= k < |ring| ==> r[k] == Add(ring[k], offset)
  {
    if ring == [] then [] else [Add(ring[0], offset)] + Translate(ring[1..], offset)
  }

  /** Every ring translated by the same offset. */
  function TranslateAll(rings: seq<seq<Point>>, offset: Point): (r: seq<seq<Point>>)
    ensures |r| == |rings|
    ensures forall i :: 0 <= i < |rings| ==> r[i] == Translate(rings[i], offset)
  {
    if rings == [] then [] else [Translate(rings[0], offset)] + TranslateAll(rings[1..], offset)
  }

  /** Moving by an offset and then by its negation restores every ring. */
  lemma {:induction false} TranslateAllInverse(rings: seq<seq<Point>>, offset: Point)
    ensures TranslateAll(TranslateAll(rings, offset), Neg(offset)) == rings
  {
    var back := TranslateAll(TranslateAll(rings, offset), Neg(offset));
    forall i | 0 <= i < |rings| ensures back[i] == rings[i] {
      assert |back[i]| == |rings[i]|;
    }
  }

  /** An axis-aligned rectangle with corners (left, top) and (right, bottom), the toolkit's
      `QRectF` written by its edges instead of its origin and size. */
  datatype Box = Box(left: real, top: real, right: real, bottom: real)

  /** `QRectF()`: the rectangle of an empty path. */
  const NullBox := Box(0.0, 0.0, 0.0, 0.0)

  /** `QRectF.isNull()`: width and height are both zero. */
  predicate IsNull(b: Box) { b.right == b.left && b.bottom == b.top }

  /** The edges are in order (non-negative width and height). */
  predicate Normal(b: Box) { b.left <= b.right && b.top <= b.bottom }

  predicate Covers(b: Box, p: Point) { b.left <= p.x <= b.right && b.top <= p.y <= b.bottom }

  /** `b` contains the whole of `c`. */
  predicate Encloses(b: Box, c: Box) {
    b.left <= c.left && c.right <= b.right && b.top <= c.top && c.bottom <= b.bottom
  }

  function Min(a: real, b: real): real { if a <= b then a else b }

  function Max(a: real, b: real): real { if a <= b then b else a }

  function PointBox(p: Point): Box { Box(p.x, p.y, p.x, p.y) }

  /** The smallest box enclosing two boxes. */
  function Join(a: Box, b: Box): Box {
    Box(Min(a.left, b.left), Min(a.top, b.top), Max(a.right, b.right), Max(a.bottom, b.bottom))
  }

  /** The bounding box of a non-empty vertex list (a path through those vertices). */
  function BoundsOf(pts: seq<Point>): Box
    requires |pts| > 0
  {
    if |pts| == 1 then PointBox(pts[0])
    else Join(BoundsOf(pts[..|pts| - 1]), PointBox(pts[|pts| - 1]))
  }

  /** `BoundsOf` is the tightest box around the vertices: it covers every one of them and each
      of its four edges passes through one of them. */
  lemma {:induction false} BoundsOfHull(pts: seq<Point>)
    requires |pts| > 0
    ensures Normal(BoundsOf(pts))
    ensures forall k :: 0 <= k < |pts| ==> Covers(BoundsOf(pts), pts[k])
    ensures exists k :: 0 <= k < |pts| && pts[k].x == BoundsOf(pts).left
    ensures exists k :: 0 <= k < |pts| && pts[k].x == BoundsOf(pts).right
    ensures exists k :: 0 <= k < |pts| && pts[k].y == BoundsOf(pts).top
    ensures exists k :: 0 <= k < |pts| && pts[k].y == BoundsOf(pts).bottom
  {
    if |pts| > 1 {
      var init := pts[..|pts| - 1];
      BoundsOfHull(init);
      assert forall k :: 0 <= k < |init| ==> init[k] == pts[k];
    }
  }

  lemma JoinAssociative(a: Box, b: Box, c: Box)
    ensures Join(Join(a, b), c) == Join(a, Join(b, c))
  {
  }

  /** The box of a concatenation joins the boxes of its parts. */
  lemma {:induction false} BoundsOfConcat(a: seq<Point>, b: seq<Point>)
    requires |a| > 0 && |b| > 0
    ensures BoundsOf(a + b) == Join(BoundsOf(a), BoundsOf(b))
    decreases |b|
  {
    if |b| == 1 {
      assert (a + b)[..|a + b| - 1] == a;
    } else {
      var b' := b[..|b| - 1];
      var p := PointBox(b[|b| - 1]);
      assert (a + b)[..|a + b| - 1] == a + b';
      BoundsOfConcat(a, b');
      JoinAssociative(BoundsOf(a), BoundsOf(b'), p);
    }
  }

  /** `QRectF.united`: a null rectangle is absorbed by the other one, whatever its position;
      otherwise the smallest rectangle enclosing both. */
  function United(a: Box, b: Box): (r: Box)
    ensures IsNull(a) ==> r == b
    ensures !IsNull(a) && IsNull(b) ==> r == a
    ensures !IsNull(a) && !IsNull(b) ==> r == Join(a, b)
  {
    if IsNull(a) then b else if IsNull(b) then a else Join(a, b)
  }

  /** `combined = rects[0]; for rect in rects[1:]: combined = combined.united(rect)`. */
  function UniteAll(boxes: seq<Box>): Box
    requires |boxes| > 0
  {
    if |boxes| == 1 then boxes[0] else United(UniteAll(boxes[..|boxes| - 1]), boxes[|boxes| - 1])
  }

  /** The total number of vertices over all rings. */
  function VertexCount(rings: seq<seq<Point>>): nat {
    if rings == [] then 0 else |rings[0]| + VertexCount(rings[1..])
  }

  /** The vertices of all rings, ring after ring: exactly the ring vertices, each ring's
      vertices following the previous ring's. */
  function Flatten(rings: seq<seq<Point>>): (r: seq<Point>)
    ensures |r| == VertexCount(rings)
    ensures forall i, k :: 0 <= i < |rings| && 0 <= k < |rings[i]| ==> rings[i][k] in r
    ensures rings != [] ==> r[..|rings[0]|] == rings[0]
  {
    if rings == [] then []
    else
      var init := Flatten(rings[..|rings| - 1]);
      var last := rings[|rings| - 1];
      assert forall i :: 0 <= i < |rings| - 1 ==> rings[..|rings| - 1][i] == rings[i];
      VertexCountSnoc(rings[..|rings| - 1], last);
      assert rings[..|rings| - 1] + [last] == rings;
      init + last
  }

  /** Conversely, every flattened vertex is a vertex of some ring. */
  lemma {:induction false} FlattenOnlyRingVertices(rings: seq<seq<Point>>)
    ensures forall p :: p in Flatten(rings) ==>
      exists i, k :: 0 <= i < |rings| && 0 <= k < |rings[i]| && rings[i][k] == p
    decreases |rings|
  {
    if rings != [] {
      var init := rings[..|rings| - 1];
      var last := rings[|rings| - 1];
      FlattenOnlyRingVertices(init);
      forall p | p in Flatten(rings)
        ensures exists i, k :: 0 <= i < |rings| && 0 <= k < |rings[i]| && rings[i][k] == p
      {
        assert Flatten(rings) == Flatten(init) + last;
        if p in Flatten(init) {
          var i, k :| 0 <= i < |init| && 0 <= k < |init[i]| && init[i][k] == p;
          assert rings[i][k] == p;
        } else {
          var k :| 0 <= k < |last| && last[k] == p;
          assert rings[|rings| - 1][k] == p;
        }
      }
    }
  }

  /** Adding a ring at the end adds its vertices to the count. */
  lemma {:induction false} VertexCountSnoc(rings: seq<seq<Point>>, ring: seq<Point>)
    ensures VertexCount(rings + [ring]) == VertexCount(rings) + |ring|
  {
    if rings != [] {
      assert (rings + [ring])[1..] == rings[1..] + [ring];
      VertexCountSnoc(rings[1..], ring);
    }
  }

  /** The boxes of the non-empty rings, in ring order. */
  function RingBoxes(rings: seq<seq<Point>>): (r: seq<Box>)
    ensures |r| == 0 <==> Flatten(rings) == []
  {
    if rings == [] then []
    else
      var last := rings[|rings| - 1];
      RingBoxes(rings[..|rings| - 1]) + (if last == [] then [] else [BoundsOf(last)])
  }

  /** Every non-empty ring spans more than a single point, so its box is not null. */
  predicate ProperRings(rings: seq<seq<Point>>) {
    forall i :: 0 <= i < |rings| && rings[i] != [] ==> !IsNull(BoundsOf(rings[i]))
  }

  /** When no ring box is null, uniting the ring boxes gives exactly the bounding box of
      all the vertices: the smallest box enclosing every ring. */
  lemma {:induction false} UniteRingBoxes(rings: seq<seq<Point>>)
    requires ProperRings(rings) && Flatten(rings) != []
    ensures |RingBoxes(rings)| > 0 && UniteAll(RingBoxes(rings)) == BoundsOf(Flatten(rings))
    ensures !IsNull(UniteAll(RingBoxes(rings)))
    decreases |rings|
  {
    var n := |rings|;
    var init := rings[..n - 1];
    var last := rings[n - 1];
    assert ProperRings(init) by {
      forall i | 0 <= i < |init| && init[i] != [] ensures !IsNull(BoundsOf(init[i])) {
        assert init[i] == rings[i];
      }
    }
    assert Flatten(rings) == Flatten(init) + last;
    if last == [] {
      assert RingBoxes(rings) == RingBoxes(init);
      assert Flatten(rings) == Flatten(init);
      UniteRingBoxes(init);
    } else if Flatten(init) == [] {
      assert RingBoxes(rings) == [BoundsOf(last)];
      assert Flatten(rings) == last;
    } else {
      UniteRingBoxes(init);
      var boxes := RingBoxes(rings);
      assert boxes == RingBoxes(init) + [BoundsOf(last)];
      assert boxes[..|boxes| - 1] == RingBoxes(init);
      BoundsOfConcat(Flatten(init), last);
      var j := BoundsOf(Flatten(rings));
      assert !IsNull(BoundsOf(last));
      assert Encloses(j, BoundsOf(last));
    }
  }

  /** What a shape hands to the drawing toolkit to fill or measure: nothing, a rectangle
      through two opposite corners, a circle by centre and radius, an open polyline, or a
      ring closed back to its first vertex. */
  datatype Path =
    | EmptyPath
    | RectPath(corner1: Point, corner2: Point)
    | EllipsePath(center: Point, radius: real)
    | Polyline(vertices: seq<Point>)
    | ClosedRing(vertices: seq<Point>)

  /** `path.contains(point)`: an empty path contains nothing; every other path is judged by
      the toolkit's fill test `fill`, which this model leaves abstract. */
  predicate PathContains(path: Path, p: Point, fill: (Path, Point) -> bool) {
    !path.EmptyPath? && fill(path, p)
  }

  /** `path.boundingRect()`. */
  function PathBox(path: Path): (r: Box)
    ensures path.EmptyPath? ==> r == NullBox
    ensures (path.Polyline? || path.ClosedRing?) && path.vertices != [] ==>
      (forall k :: 0 <= k < |path.vertices| ==> Covers(r, path.vertices[k]))
    ensures path.RectPath? ==> Normal(r) && Covers(r, path.corner1) && Covers(r, path.corner2)
    ensures path.EllipsePath? && path.radius >= 0.0 ==>
      r == Box(path.center.x - path.radius, path.center.y - path.radius,
               path.center.x + path.radius, path.center.y + path.radius)
  {
    match path
    case EmptyPath => NullBox
    case RectPath(a, b) => BoundsOfHull([a, b]); BoundsOf([a, b])
    case EllipsePath(c, rad) =>
      Join(PointBox(Point(c.x - rad, c.y - rad)), PointBox(Point(c.x + rad, c.y + rad)))
    case Polyline(v) => if v == [] then NullBox else BoundsOfHull(v); BoundsOf(v)
    case ClosedRing(v) => if v == [] then NullBox else BoundsOfHull(v); BoundsOf(v)
  }
}
