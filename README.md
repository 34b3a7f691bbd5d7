# labelme shapes, the `<seg>` parser and mask IoU in Dafny

This project models three pieces of sequential logic from a labelme-based annotation
toolkit and proves properties of each.

- **The annotation `Shape`** (`shape.dfy`, module `Shapes`, with `geometry.dfy` and
  `lists.dfy`). It is a class whose fields are updated in place:
  - a kind tag, one of eight;
  - a list of rings, where vertex edits touch only ring 0;
  - per-vertex labels kept aligned with ring 0;
  - a closed flag;
  - a one-level raw/refined snapshot.

  Its methods are the kind setter, vertex add/insert/pop/remove, translation, refine and
  restore, the nearest-vertex and nearest-edge scans, and indexing. The queries
  `containsPoint`, `boundingRect` and `makePath` are functions over the state.
- **`parse_segmentation_string`** (`seg_parser.dfy`, module `SegParser`). Python's
  `re.findall` is written out for both patterns, `<seg>(.*?)</seg>` and
  `\(([^,]+),([^)]+)\)`: the leftmost match comes first, and scanning resumes after the
  end of each match. Both scans are proved to return exactly the non-overlapping matches,
  in order. `str.strip` is modelled with Python's whitespace set. The outer loop is a
  method.
- **`calculate_iou`** (`mask_iou.dfy`, module `MaskIoU`). It works on rectangular boolean
  grids with explicit dimensions. The counts are `nat` and the score is an exact `real`.

Collaborators this model cannot see are parameters:
- `labelme.utils.distance` is `norm: Point -> real`.
- `labelme.utils.distancetoline` is `segDist`.
- `QPainterPath.contains` is `fill: (Path, Point) -> bool`.
- Python's `float()` is `toFloat: string -> Option<real>`, where `None` is the
  `ValueError` it raises.

`float("inf")`, the starting minimum of the nearest scans, is `None`. Python exceptions
are `Err`/`Fail` values of `Result`/`Outcome`.

The model follows the code as written, including where it does something surprising:
- `setShapeRefined` saves the snapshot before the kind setter validates the new kind. An
  unknown kind therefore raises with the snapshot already overwritten.
- The mask branch of `containsPoint` calls `.y()` on `self.points[0]`. Under the ring
  layout that is a list, so the branch always raises: `IndexError` with no rings,
  `AttributeError` otherwise.
- `removePoint` and `__setitem__` can change state and then raise `IndexError`.

## Model

| member | source | states |
|---|---|---|
| Shapes.ParseKind | labelme/shape.py:108-123 | no value gives `polygon`; a tag is accepted exactly when it is one of the eight, and the accepted kind's name is that tag |
| Shapes.KindNameRoundTrip | labelme/shape.py:108-123 | every kind's tag is accepted by the setter and gives that kind back |
| Shapes.Shape.SetShapeType | labelme/shape.py:108-123 | a valid value stores its kind; an invalid one returns `ValueError` and keeps the previous kind; nothing else can change |
| Shapes.Shape.constructor | labelme/shape.py:44-76 | a new shape has no rings, no labels, no snapshot, is open, and stores label, group id, kind and mask |
| Shapes.Shape.Create | labelme/shape.py:44-76 | construction fails with `ValueError` exactly when the kind tag is unknown; otherwise as the constructor, with the parsed kind |
| Shapes.Shape.IsMultiPolygon | labelme/shape.py:84-86 | true exactly when the kind tag is `polygon` and there are at least two rings, so there are rings beyond ring 0 |
| Shapes.Shape.IsClosed | labelme/shape.py:186-187 | reports the closed flag |
| Shapes.Shape.Close | labelme/shape.py:125-126 | afterwards `IsClosed` holds, and nothing else changes |
| Shapes.Shape.SetOpen | labelme/shape.py:189-190 | afterwards `IsClosed` fails, and nothing else changes |
| Shapes.Shape.CanAddPoint | labelme/shape.py:138-139 | true exactly when the kind tag is `polygon` or `linestrip` |
| Shapes.Shape.AddPoint | labelme/shape.py:128-136 | a point equal to the first vertex of a non-empty ring 0 only closes the shape; otherwise the point is appended to ring 0 (created if there are no rings) and its label to the labels; other rings are untouched; label alignment is preserved |
| Shapes.Shape.CanRemovePoint | labelme/shape.py:155-168 | true exactly for a polygon with more than 3 vertices in ring 0 or a linestrip with more than 2 (through `canAddPoint`, lines 138-139) |
| Shapes.Shape.PopPoint | labelme/shape.py:141-146 | with no vertex: `None` and nothing changes; otherwise returns the last vertex of ring 0, removes it and the last label (if any); label alignment is preserved |
| Shapes.Shape.InsertPoint | labelme/shape.py:148-153 | the vertex and the label are inserted at index `i` (at the end when `i` is past it) into ring 0 (created if absent) and the labels; other rings are untouched; label alignment is preserved |
| Lists.InsertThenRemove | labelme/shape.py:148-183 | popping the index an insert used gives the list back |
| Shapes.Shape.RemovePoint | labelme/shape.py:170-183 | refused by `CanRemovePoint`: nothing changes; index past ring 0: `IndexError`, nothing changes; otherwise exactly index `i` goes from ring 0 and from a non-empty label list, with `IndexError` after the vertex is gone when the labels are shorter; with aligned labels alignment is preserved and only the out-of-range index fails |
| Shapes.Shape.SetShapeRefined | labelme/shape.py:91-96 | the snapshot becomes the prior kind, rings and labels (overwriting any earlier one); a valid kind installs kind, rings, labels and mask; an invalid one fails with `ValueError` and leaves them as they were |
| Shapes.Shape.RestoreShapeRaw | labelme/shape.py:98-102 | with a snapshot the kind, rings and labels become the saved ones and the snapshot is cleared; without one nothing changes; the mask is never touched |
| Shapes.RefineThenRestore | labelme/shape.py:91-102 | refine then restore gives back the exact prior kind, rings and labels with no snapshot left; a second restore is a no-op; the closed flag, label and group id are untouched |
| Shapes.Shape.MoveBy | labelme/shape.py:449-454 | every ring becomes its translation by the offset |
| Geometry.TranslateAll | labelme/shape.py:449-454 | the ring count, each ring's length and every vertex plus the offset |
| Geometry.TranslateAllInverse | labelme/shape.py:449-454 | moving by an offset and then by its negation gives the rings back |
| Shapes.Shape.MoveVertexBy | labelme/shape.py:457-460 | only vertex `i` of ring 0 moves, and only when `i` is in range; all other vertices and rings are unchanged |
| Shapes.Shape.NearestVertex | labelme/shape.py:334-348 | `None` with no vertex; otherwise `None` when every vertex is farther than epsilon, or the first index of minimal distance, which is within epsilon |
| Shapes.Shape.NearestEdge | labelme/shape.py:350-367 | the same over edges, edge `i` joining vertex `i-1` to vertex `i` and edge 0 the last vertex to the first |
| Shapes.NearestIsUnique | labelme/shape.py:334-367 | at most one index meets the nearest-within-epsilon condition, so both scans are determined by their distances |
| Shapes.Shape.MakePath | labelme/shape.py:402-424 | no vertex gives the empty path; a rectangle or mask gives the rectangle through ring 0's two vertices exactly when it has two, else the empty path; a circle gives the circle centred on ring 0's first vertex with the distance to the second as radius exactly when it has two, else the empty path; every other kind gives the open polyline through ring 0 |
| Shapes.AnyRingContains | labelme/shape.py:374-384 | true exactly when some non-empty ring, closed, contains the point |
| Shapes.Shape.ContainsPoint | labelme/shape.py:369-400 | false for line, linestrip and points; a polygon with rings contains the point exactly when one of its non-empty rings does; otherwise an error exactly when there is a mask, else the fill test of `makePath`, which is false with no vertex |
| Geometry.United | labelme/shape.py:441-445 | a null first box gives the second; a null second box gives the first; two non-null boxes unite to their join |
| Geometry.Flatten | labelme/shape.py:431-445 | as many vertices as all rings hold, ring 0's first, and every vertex of every ring among them |
| Geometry.FlattenOnlyRingVertices | labelme/shape.py:431-445 | every flattened vertex is a vertex of some ring |
| Geometry.RingBoxes | labelme/shape.py:431-440 | there are no ring boxes exactly when no ring has a vertex |
| Geometry.BoundsOfHull | labelme/shape.py:426-447 | the box of a non-empty vertex list is normal, covers every vertex, and each side is attained by a vertex |
| Geometry.JoinAssociative | labelme/shape.py:441-445 | joining boxes is associative |
| Geometry.BoundsOfConcat | labelme/shape.py:431-445 | the box of two vertex lists is the join of their boxes |
| Geometry.UniteRingBoxes | labelme/shape.py:431-445 | when no ring box is null, uniting the ring boxes in order gives the box of all vertices, which is not null |
| Geometry.PathBox | labelme/shape.py:447 | the empty path has the null box; a polyline or ring box covers all its vertices; a rectangle's box is normal and covers both corners; a circle of non-negative radius has the square around it |
| Shapes.Shape.BoundingRect | labelme/shape.py:426-447 | the null box with no rings; for a multi-polygon (`is_multi_polygon`, lines 84-86) with non-null ring boxes, the box of all vertices; otherwise the box of ring 0 for polyline kinds and two-point rectangles, the square around centre and radius for a two-point circle whose radius is not negative, the null box for other rectangles and circles and for no vertices |
| Shapes.Shape.Len | labelme/shape.py:481-485 | the number of vertices of ring 0 |
| Shapes.Shape.GetItem | labelme/shape.py:488-492 | vertex `key` of ring 0 exactly when it exists, `IndexError` otherwise |
| Shapes.Shape.SetItem | labelme/shape.py:495-501 | replaces vertex `key` of ring 0 when it exists; otherwise `IndexError`, with an empty ring 0 left behind on a shape that had no rings |
| SegParser.TagsSpelled | create_labelme_format_gt.py:31 | the character tests are exactly the tags `<seg>` and `</seg>` |
| SegParser.LazyClose | create_labelme_format_gt.py:31 | the lazy group ends at the first `</seg>` with no newline before it, and fails exactly when a newline or the end comes first |
| SegParser.ScanFindsMatches | create_labelme_format_gt.py:31-32 | the `findall`-style scan reports only matches of its matcher, left to right and without overlap |
| SegParser.ScanMissesNothing | create_labelme_format_gt.py:31-32 | the scan skips no match: none starts before the first reported one, between two reported ones, or after the last |
| SegParser.SegMatchEnd | create_labelme_format_gt.py:31 | at a position, the block matcher finds a match of `<seg>(.*?)</seg>` exactly when the pattern matches there, ending at its first possible `</seg>` |
| SegParser.SegBlocks | create_labelme_format_gt.py:31-32 | one block per match the scan finds |
| SegParser.SegBlocksAreGroups | create_labelme_format_gt.py:31-32 | each block is the group of its match, and that match is a match of `<seg>(.*?)</seg>` |
| SegParser.SegBlockShape | create_labelme_format_gt.py:31 | a block contains no `</seg>` and no newline |
| SegParser.NoOpenNoBlocks | create_labelme_format_gt.py:31-32 | a string with no `<seg>` gives no blocks |
| SegParser.FindFrom | create_labelme_format_gt.py:38 | the first occurrence of a character at or after a position, or none |
| SegParser.CoordMatchEnd | create_labelme_format_gt.py:38 | at a position, the tuple matcher finds a match of `\(([^,]+),([^)]+)\)` exactly when the pattern matches there |
| SegParser.CoordPairs | create_labelme_format_gt.py:38-39 | one pair per tuple match, in order, made of the match's two groups |
| SegParser.CoordPairShape | create_labelme_format_gt.py:38-39 | the first component is a non-empty run without commas, the second a non-empty run without `)` |
| SegParser.TrimStartShape | create_labelme_format_gt.py:42 | trimming the start cuts only whitespace and leaves a suffix that does not start with whitespace |
| SegParser.TrimEndShape | create_labelme_format_gt.py:42 | trimming the end cuts only whitespace and leaves a prefix that does not end with whitespace |
| SegParser.TrimBothShape | create_labelme_format_gt.py:42 | `strip()` is a piece of the string, everything cut from both ends is whitespace, and it neither starts nor ends with whitespace |
| SegParser.ConvertPairs | create_labelme_format_gt.py:42 | fails exactly when some stripped component does not convert; otherwise one `[x, y]` per pair, in order, made of the converted stripped components |
| SegParser.ConvertBlockShape | create_labelme_format_gt.py:36-43 | a converted block has one two-coordinate point per tuple match, and a block with no tuple gives the empty list |
| SegParser.ConvertBlocks | create_labelme_format_gt.py:34-45 | the loop over blocks: `ValueError` exactly when some block fails to convert; otherwise one point list per block, in order |
| SegParser.ParseSegmentationString | create_labelme_format_gt.py:20-45 | `ValueError` exactly when some block fails to convert; otherwise one point list per block, in order, each the block's conversion |
| MaskIoU.And | labelme/utils/iou_calculator.py:19 | the cell-wise conjunction, of the same shape |
| MaskIoU.Or | labelme/utils/iou_calculator.py:20 | the cell-wise disjunction, of the same shape |
| MaskIoU.CalculateIoU | labelme/utils/iou_calculator.py:5-25 | `ValueError` exactly when the shapes differ; otherwise a score in [0, 1] that is 0 exactly when no cell is in both, and for a non-empty union is the intersection count over the union count |
| MaskIoU.RatioInUnitInterval | labelme/utils/iou_calculator.py:25 | a count over a positive count at least as large lies in [0, 1] and is 0 exactly when the numerator is |
| MaskIoU.CountRowMonotone | labelme/utils/iou_calculator.py:19-20 | a row whose set cells are set in another has at most as many |
| MaskIoU.CountMonotone | labelme/utils/iou_calculator.py:19-20 | the same for grids |
| MaskIoU.IntersectionWithinUnion | labelme/utils/iou_calculator.py:19-20 | the intersection count is at most the union count |
| MaskIoU.CountZero | labelme/utils/iou_calculator.py:22-23 | a grid counts 0 exactly when no cell is set |
| MaskIoU.CountRowZero | labelme/utils/iou_calculator.py:22-23 | a row counts 0 exactly when no cell is set |
| MaskIoU.IoUSymmetric | labelme/utils/iou_calculator.py:5-25 | the score does not depend on the order of the masks |
| MaskIoU.IoUIdentical | labelme/utils/iou_calculator.py:19-25 | a mask with a set cell scores exactly 1 against itself |
| MaskIoU.IoUDisjoint | labelme/utils/iou_calculator.py:19-25 | same-shaped masks with no common set cell score exactly 0 |
| MaskIoU.IoUEmptyUnion | labelme/utils/iou_calculator.py:22-23 | two all-false same-shaped masks have an empty union and score exactly 0 |

## Left out

- Drawing: `paint`, `drawVertex`, `highlightVertex`, `highlightClear`, the Qt colours, pens and `point_size`, and `_scale_point`. These are rendering only.
- Qt geometry. `QPainterPath.contains` is the abstract `fill` test, because the Qt fill rule is foreign code.
- Shapes.Shape.BoundingRect: a circle's box is taken as the square around centre and radius. Qt's Bézier approximation of the ellipse is not modelled.
- Shapes.Shape.BoundingRect: for a multi-polygon with a null ring box, the contract states no more than the uniting itself. `United` absorbs the null boxes, so the result is the join of the non-null ring boxes, or the last ring's box when every ring box is null; this is not proved.
- `labelme.utils.distance` and `distancetoline` are abstract function parameters, because they are floating-point and square-root based. `scale` is a parameter.
- Shapes.Shape.ContainsPoint: the numpy `round`/`clip` lookup of the mask branch is not modelled. The branch always raises before reaching it under the ring layout.
- Python negative indices in `insertPoint`, `removePoint`, `moveVertexBy`, `__getitem__` and `__setitem__`: indices are `nat`.
- `QPointF`'s fuzzy `==` in `addPoint`: points compare exactly.
- `copy()` (a deep copy) and list aliasing between the snapshot and the live fields. The model uses value semantics.
- The fields `_points_raw` and `_shape_type_raw`, which no core operation uses.
- The fields `flags`, `description`, `other_data`, `fill`, `selected` and `line_color`. No core operation reads them. The label and group id are kept, as `shapeLabel` and `groupId`.
- The warning that `removePoint` logs when it refuses. Logging is I/O.
- `convert_to_labelme_format` and `main` of the converter: file, image, base64 and JSON I/O.
- `labelme_to_coco_format.py` is not part of this model: it is JSON reshaping glue.
- `float()` is abstract, so what strings it accepts and IEEE rounding are not modelled. The IoU score is an exact rational, not a float.
- Point coordinates are exact reals, not the doubles of `QPointF`. Geometry.TranslateAllInverse and the exact vertex equalities of `MoveBy`, `MoveVertexBy` and the box lemmas hold for the model only. With doubles, each `p + offset` is rounded, so moving by a large offset and back need not restore a vertex.
- Geometry.PathBox: a path's box is the minimum and maximum of its points. Qt's `addRect` and `addEllipse` skip a null rectangle, which makes the path empty and its box `QRectF()`. The model does not capture that, so a rectangle or mask with two equal corners, or a circle of radius 0, gets the point box at that corner or centre in `PathBox` and `BoundingRect`.
- Shapes.Shape.ContainsPoint: a one-vertex polyline or ring is left to the abstract `fill` test, whereas Qt treats such a path as empty in `contains`.
- MaskIoU.CalculateIoU: only two-dimensional masks are modelled. numpy arrays of other ranks, and shapes compared across ranks, are not.
