/** Intersection over union of two boolean masks: the number of cells set in both over the
    number of cells set in either, with an empty union scoring 0. The result is an exact real
    number rather than a floating-point one. */
module MaskIoU {
  import opened Wrappers

  /** A two-dimensional boolean mask of `height` rows by `width` columns. The dimensions are
      kept apart from the cells so that two masks without rows still differ in shape when
      their widths differ, as numpy shapes `(0, 3)` and `(0, 4)` do. */
  datatype Mask = Mask(height: nat, width: nat, cells: seq<seq<bool>>)

  /** The cells form a `height` by `width` grid. */
  predicate Rectangular(m: Mask) {
    |m.cells| == m.height && forall i :: 0 <= i < |m.cells| ==> |m.cells[i]| == m.width
  }

  predicate SameShape(a: Mask, b: Mask) {
    a.height == b.height && a.width == b.width
  }

  /** The number of set cells of a row. */
  function CountRow(row: seq<bool>): nat {
    if row == [] then 0 else (if row[0] then 1 else 0) + CountRow(row[1..])
  }

  /** The number of set cells of a grid: numpy's `.sum()` of a boolean array. */
  function Count(rows: seq<seq<bool>>): nat {
    if rows == [] then 0 else CountRow(rows[0]) + Count(rows[1..])
  }

  /** `np.logical_and` and `np.logical_or` of two rows of equal length. */
  function AndRow(a: seq<bool>, b: seq<bool>): (r: seq<bool>)
    requires |a| == |b|
    ensures |r| == |a| && forall j :: 0 <= j < |r| ==> (r[j] <==> a[j] && b[j])
  {
    seq(|a|, j requires 0 <= j < |a| => a[j] && b[j])
  }

  function OrRow(a: seq<bool>, b: seq<bool>): (r: seq<bool>)
    requires |a| == |b|
    ensures |r| == |a| && forall j :: 0 <= j < |r| ==> (r[j] <==> a[j] || b[j])
  {
    seq(|a|, j requires 0 <= j < |a| => a[j] || b[j])
  }

  /** The cell-wise conjunction and disjunction of two masks of the same shape. */
  function And(a: Mask, b: Mask): (r: Mask)
    requires Rectangular(a) && Rectangular(b) && SameShape(a, b)
    ensures Rectangular(r) && SameShape(r, a)
    ensures forall i, j :: 0 <= i < r.height && 0 <= j < r.width ==>
      (r.cells[i][j] <==> a.cells[i][j] && b.cells[i][j])
  {
    Mask(a.height, a.width, seq(a.height, i requires 0 <= i < a.height => AndRow(a.cells[i], b.cells[i])))
  }

  function Or(a: Mask, b: Mask): (r: Mask)
    requires Rectangular(a) && Rectangular(b) && SameShape(a, b)
    ensures Rectangular(r) && SameShape(r, a)
    ensures forall i, j :: 0 <= i < r.height && 0 <= j < r.width ==>
      (r.cells[i][j] <==> a.cells[i][j] || b.cells[i][j])
  {
    Mask(a.height, a.width, seq(a.height, i requires 0 <= i < a.height => OrRow(a.cells[i], b.cells[i])))
  }

  /** `calculate_iou`: `ValueError` when the shapes differ, 0 when no cell is set in either
      mask, and otherwise the intersection count over the union count, which lies in
      `[0, 1]`. */
  function CalculateIoU(a: Mask, b: Mask): (r: Result<real>)
    requires Rectangular(a) && Rectangular(b)
    ensures r.Err? <==> !SameShape(a, b)
    ensures r.Err? ==> r.error == ValueError
    ensures r.Ok? ==> 0.0 <= r.value <= 1.0
    ensures r.Ok? ==> (r.value == 0.0 <==> Count(And(a, b).cells) == 0)
    ensures r.Ok? && Count(Or(a, b).cells) > 0 ==>
      r.value == Count(And(a, b).cells) as real / Count(Or(a, b).cells) as real
  {
    if !SameShape(a, b) then Err(ValueError)
    else
      var intersection := Count(And(a, b).cells);
      var union := Count(Or(a, b).cells);
      IntersectionWithinUnion(a, b);
      if union == 0 then Ok(0.0)
      else
        RatioInUnitInterval(intersection, union);
        Ok(intersection as real / union as real)
  }

  /** A ratio of two counts, the first at most the second, lies in `[0, 1]` and is 0 exactly
      when its numerator is. */
  lemma RatioInUnitInterval(n: nat, d: nat)
    requires 0 < d && n <= d
    ensures 0.0 <= n as real / d as real <= 1.0
    ensures n as real / d as real == 0.0 <==> n == 0
  {
    assert n as real / d as real * d as real == n as real;
  }

  /** A row whose set cells are all set in another row of the same length has at most as many
      set cells. */
  lemma {:induction false} CountRowMonotone(x: seq<bool>, y: seq<bool>)
    requires |x| == |y|
    requires forall j :: 0 <= j < |x| ==> x[j] ==> y[j]
    ensures CountRow(x) <= CountRow(y)
  {
    if x != [] {
      CountRowMonotone(x[1..], y[1..]);
    }
  }

  /** The same for grids of the same shape. */
  lemma {:induction false} CountMonotone(x: seq<seq<bool>>, y: seq<seq<bool>>)
    requires |x| == |y|
    requires forall i :: 0 <= i < |x| ==> |x[i]| == |y[i]|
    requires forall i, j :: 0 <= i < |x| && 0 <= j < |x[i]| ==> x[i][j] ==> y[i][j]
    ensures Count(x) <= Count(y)
  {
    if x != [] {
      CountRowMonotone(x[0], y[0]);
      CountMonotone(x[1..], y[1..]);
    }
  }

  /** Every cell set in both masks is set in either, so the intersection count is at most the
      union count. */
  lemma IntersectionWithinUnion(a: Mask, b: Mask)
    requires Rectangular(a) && Rectangular(b) && SameShape(a, b)
    ensures Count(And(a, b).cells) <= Count(Or(a, b).cells)
  {
    CountMonotone(And(a, b).cells, Or(a, b).cells);
  }

  /** A grid counts 0 exactly when none of its cells is set. */
  lemma {:induction false} CountZero(x: seq<seq<bool>>)
    ensures Count(x) == 0 <==> forall i, j :: 0 <= i < |x| && 0 <= j < |x[i]| ==> !x[i][j]
  {
    if x != [] {
      CountZero(x[1..]);
      CountRowZero(x[0]);
      assert forall i :: 1 <= i < |x| ==> x[1..][i - 1] == x[i];
    }
  }

  /** A row counts 0 exactly when none of its cells is set. */
  lemma {:induction false} CountRowZero(x: seq<bool>)
    ensures CountRow(x) == 0 <==> forall j :: 0 <= j < |x| ==> !x[j]
  {
    if x != [] {
      CountRowZero(x[1..]);
      assert forall j :: 1 <= j < |x| ==> x[1..][j - 1] == x[j];
    }
  }

  /** The score does not depend on the order of the masks. */
  lemma IoUSymmetric(a: Mask, b: Mask)
    requires Rectangular(a) && Rectangular(b)
    ensures CalculateIoU(a, b) == CalculateIoU(b, a)
  {
    if SameShape(a, b) {
      forall i | 0 <= i < a.height
        ensures And(a, b).cells[i] == And(b, a).cells[i] && Or(a, b).cells[i] == Or(b, a).cells[i]
      {
        assert AndRow(a.cells[i], b.cells[i]) == AndRow(b.cells[i], a.cells[i]);
        assert OrRow(a.cells[i], b.cells[i]) == OrRow(b.cells[i], a.cells[i]);
      }
      assert And(a, b).cells == And(b, a).cells;
      assert Or(a, b).cells == Or(b, a).cells;
    }
  }

  /** A mask with at least one set cell scores 1 against itself. */
  lemma IoUIdentical(a: Mask)
    requires Rectangular(a) && Count(a.cells) > 0
    ensures CalculateIoU(a, a) == Ok(1.0)
  {
    forall i | 0 <= i < a.height ensures And(a, a).cells[i] == a.cells[i] && Or(a, a).cells[i] == a.cells[i] {
      assert AndRow(a.cells[i], a.cells[i]) == a.cells[i];
      assert OrRow(a.cells[i], a.cells[i]) == a.cells[i];
    }
    assert And(a, a).cells == a.cells;
    assert Or(a, a).cells == a.cells;
    var c := Count(a.cells) as real;
    assert c / c == 1.0;
  }

  /** Masks of the same shape without a common set cell score 0. */
  lemma IoUDisjoint(a: Mask, b: Mask)
    requires Rectangular(a) && Rectangular(b) && SameShape(a, b)
    requires forall i, j :: 0 <= i < a.height && 0 <= j < a.width ==> !(a.cells[i][j] && b.cells[i][j])
    ensures CalculateIoU(a, b) == Ok(0.0)
  {
    CountZero(And(a, b).cells);
  }

  /** Two all-false masks of the same shape have an empty union and score 0. */
  lemma IoUEmptyUnion(a: Mask, b: Mask)
    requires Rectangular(a) && Rectangular(b) && SameShape(a, b)
    requires Count(a.cells) == 0 && Count(b.cells) == 0
    ensures Count(Or(a, b).cells) == 0
    ensures CalculateIoU(a, b) == Ok(0.0)
  {
    CountZero(a.cells);
    CountZero(b.cells);
    CountZero(Or(a, b).cells);
  }
}
