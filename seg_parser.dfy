/** The coordinate-string parser of the ground-truth converter: the string is cut into the
    non-overlapping matches of `<seg>(.*?)</seg>`, each block into the matches of
    `\(([^,]+),([^)]+)\)`, and every pair of captured components is stripped of whitespace and
    converted to a number. Both regex scans are written out as Python's `re.findall` performs
    them: leftmost match first, scanning resumes after the end of each match. The conversion
    `float()` is a parameter. */
module SegParser {
  import opened Wrappers

  // ---- re.findall: leftmost, non-overlapping matches ----

  /** A match that starts at `start` and ends just before `end`. */
  datatype Span = Span(start: nat, end: nat)

  /** `matchEnd(s, p)` is where the match of a pattern at `p` ends, or None when the pattern
      does not match at `p`; every match is non-empty. */
  ghost predicate NonEmptyMatches(s: string, matchEnd: (string, nat) -> Option<nat>) {
    forall p: nat :: matchEnd(s, p).Some? ==> p < matchEnd(s, p).value
  }

  /** No match starts in `[a, b)`. */
  predicate NoMatchIn(s: string, matchEnd: (string, nat) -> Option<nat>, a: nat, b: nat) {
    forall q :: a <= q < b ==> matchEnd(s, q).None?
  }

  /** The matches `re.findall` reports from `pos` on: the leftmost match, then the matches
      from its end on. */
  function Scan(s: string, pos: nat, matchEnd: (string, nat) -> Option<nat>): seq<Span>
    requires NonEmptyMatches(s, matchEnd)
    decreases |s| - pos
  {
    if pos >= |s| then []
    else
      match matchEnd(s, pos)
      case Some(e) => [Span(pos, e)] + Scan(s, e, matchEnd)
      case None => Scan(s, pos + 1, matchEnd)
  }

  /** Every span found from `pos` on is a match, and they run left to right without
      overlapping. */
  lemma {:induction false} ScanFindsMatches(s: string, pos: nat, matchEnd: (string, nat) -> Option<nat>)
    requires NonEmptyMatches(s, matchEnd)
    decreases |s| - pos
    ensures forall k :: 0 <= k < |Scan(s, pos, matchEnd)| ==>
      pos <= Scan(s, pos, matchEnd)[k].start
      && matchEnd(s, Scan(s, pos, matchEnd)[k].start) == Some(Scan(s, pos, matchEnd)[k].end)
    ensures forall k :: 0 <= k < |Scan(s, pos, matchEnd)| - 1 ==>
      Scan(s, pos, matchEnd)[k].end <= Scan(s, pos, matchEnd)[k + 1].start
  {
    if pos < |s| {
      match matchEnd(s, pos)
      case Some(e) =>
        ScanFindsMatches(s, e, matchEnd);
        var rest := Scan(s, e, matchEnd);
        var r := Scan(s, pos, matchEnd);
        assert r == [Span(pos, e)] + rest;
        forall k | 0 <= k < |r|
          ensures pos <= r[k].start && matchEnd(s, r[k].start) == Some(r[k].end)
          ensures k < |r| - 1 ==> r[k].end <= r[k + 1].start
        {
          if k > 0 {
            assert r[k] == rest[k - 1];
          }
        }
      case None =>
        ScanFindsMatches(s, pos + 1, matchEnd);
    }
  }

  /** No match is missed: none starts before the first span, between two spans, or after the
      last one. */
  lemma {:induction false} ScanMissesNothing(s: string, pos: nat, matchEnd: (string, nat) -> Option<nat>)
    requires NonEmptyMatches(s, matchEnd)
    decreases |s| - pos
    ensures Scan(s, pos, matchEnd) == [] ==> NoMatchIn(s, matchEnd, pos, |s|)
    ensures Scan(s, pos, matchEnd) != [] ==>
      NoMatchIn(s, matchEnd, pos, Scan(s, pos, matchEnd)[0].start)
      && NoMatchIn(s, matchEnd, Scan(s, pos, matchEnd)[|Scan(s, pos, matchEnd)| - 1].end, |s|)
    ensures forall k :: 0 <= k < |Scan(s, pos, matchEnd)| - 1 ==>
      NoMatchIn(s, matchEnd, Scan(s, pos, matchEnd)[k].end, Scan(s, pos, matchEnd)[k + 1].start)
  {
    var r := Scan(s, pos, matchEnd);
    if pos < |s| {
      match matchEnd(s, pos)
      case Some(e) =>
        ScanMissesNothing(s, e, matchEnd);
        var rest := Scan(s, e, matchEnd);
        assert r == [Span(pos, e)] + rest;
        assert r[0].start == pos;
        if rest == [] {
          assert r[|r| - 1].end == e;
        } else {
          assert r[|r| - 1] == rest[|rest| - 1];
        }
        forall k | 0 <= k < |r| - 1
          ensures NoMatchIn(s, matchEnd, r[k].end, r[k + 1].start)
        {
          if k == 0 {
            assert r[1] == rest[0];
          } else {
            assert r[k] == rest[k - 1] && r[k + 1] == rest[k];
          }
        }
      case None =>
        ScanMissesNothing(s, pos + 1, matchEnd);
        assert r == Scan(s, pos + 1, matchEnd);
        if r != [] {
          assert NoMatchIn(s, matchEnd, pos + 1, r[0].start);
          assert pos + 1 <= r[0].start by {
            ScanFindsMatches(s, pos + 1, matchEnd);
          }
        }
    }
  }

  // ---- the block pattern <seg>(.*?)</seg> ----

  const Open: string := "<seg>"
  const Close: string := "</seg>"

  /** The opening tag `<seg>` occurs in `s` at index `i`. */
  predicate OpenAt(s: string, i: nat) {
    i + 5 <= |s| && s[i] == '<' && s[i + 1] == 's' && s[i + 2] == 'e' && s[i + 3] == 'g' && s[i + 4] == '>'
  }

  /** The closing tag `</seg>` occurs in `s` at index `i`. */
  predicate CloseAt(s: string, i: nat) {
    i + 6 <= |s| && s[i] == '<' && s[i + 1] == '/' && s[i + 2] == 's' && s[i + 3] == 'e'
    && s[i + 4] == 'g' && s[i + 5] == '>'
  }

  lemma TagsSpelled(s: string, i: nat)
    ensures OpenAt(s, i) <==> i + |Open| <= |s| && s[i..i + |Open|] == Open
    ensures CloseAt(s, i) <==> i + |Close| <= |s| && s[i..i + |Close|] == Close
  {
  }

  /** `<seg>(.*?)</seg>` matches `s[p..e]`: the lazy group stops at the first `</seg>`, and
      `.` matches no newline. */
  ghost predicate IsSegMatch(s: string, p: nat, e: nat) {
    && OpenAt(s, p)
    && p + 11 <= e
    && CloseAt(s, e - 6)
    && (forall k :: p + 5 <= k < e - 6 ==> s[k] != '\n')
    && (forall k :: p + 5 <= k < e - 6 ==> !CloseAt(s, k))
  }

  /** Where the lazy group that starts at `j` ends: at the first `</seg>`, unless a newline or
      the end of the string comes first. */
  function LazyClose(s: string, j: nat): (r: Option<nat>)
    decreases |s| - j
    ensures r.Some? ==> j <= r.value && CloseAt(s, r.value)
    ensures r.Some? ==> forall k :: j <= k < r.value ==> s[k] != '\n'
    ensures r.Some? ==> forall k :: j <= k < r.value ==> !CloseAt(s, k)
    ensures r.None? ==> forall c :: j <= c && CloseAt(s, c) ==> exists k :: j <= k < c && s[k] == '\n'
  {
    if j + 6 > |s| then None
    else if CloseAt(s, j) then Some(j)
    else if s[j] == '\n' then None
    else LazyClose(s, j + 1)
  }

  /** The end of the match of the block pattern at `p`, found exactly when there is one. */
  function SegMatchEnd(s: string, p: nat): (r: Option<nat>)
    ensures r.Some? ==> IsSegMatch(s, p, r.value)
    ensures r.None? ==> forall e :: !IsSegMatch(s, p, e)
  {
    if OpenAt(s, p) then
      match LazyClose(s, p + 5)
      case Some(c) => Some(c + 6)
      case None => None
    else None
  }

  /** `re.findall` of the block pattern, as the spans of its matches. */
  function SegSpans(s: string): seq<Span> {
    assert NonEmptyMatches(s, SegMatchEnd);
    Scan(s, 0, SegMatchEnd)
  }

  /** The captured contents of the `<seg>` blocks, in order. */
  function SegBlocks(s: string): (blocks: seq<string>)
    ensures |blocks| == |SegSpans(s)|
  {
    var spans := SegSpans(s);
    ScanFindsMatches(s, 0, SegMatchEnd);
    seq(|spans|, k requires 0 <= k < |spans| => s[spans[k].start + 5..spans[k].end - 6])
  }

  /** Block `k` is the group of the `k`-th match that `re.findall` reports. */
  lemma SegBlocksAreGroups(s: string)
    ensures forall k :: 0 <= k < |SegBlocks(s)| ==>
      var m := SegSpans(s)[k];
      IsSegMatch(s, m.start, m.end) && SegBlocks(s)[k] == s[m.start + 5..m.end - 6]
  {
    ScanFindsMatches(s, 0, SegMatchEnd);
  }

  /** A block ends at the first `</seg>` after its opening tag: it holds no `</seg>` and no
      newline. */
  lemma SegBlockShape(s: string, k: nat)
    requires k < |SegBlocks(s)|
    ensures forall j :: 0 <= j < |SegBlocks(s)[k]| ==> SegBlocks(s)[k][j] != '\n'
    ensures forall j :: 0 <= j < |SegBlocks(s)[k]| ==> !CloseAt(SegBlocks(s)[k], j)
  {
    var m := SegSpans(s)[k];
    var b := SegBlocks(s)[k];
    var o := m.start + 5;
    SegBlocksAreGroups(s);
    assert IsSegMatch(s, m.start, m.end);
    assert b == s[o..m.end - 6];
    forall j | 0 <= j < |b| ensures b[j] != '\n' && !CloseAt(b, j) {
      assert b[j] == s[o + j];
      assert !CloseAt(s, o + j);
    }
  }

  /** A string with no `<seg>` tag in it has no blocks. */
  lemma NoOpenNoBlocks(s: string)
    requires forall i :: 0 <= i < |s| ==> !OpenAt(s, i)
    ensures SegBlocks(s) == []
  {
    var blocks := SegBlocks(s);
    var spans := SegSpans(s);
    SegBlocksAreGroups(s);
    assert |spans| == 0 || OpenAt(s, spans[0].start);
  }

  // ---- the coordinate pattern \(([^,]+),([^)]+)\) ----

  /** `\(([^,]+),([^)]+)\)` matches `s[p..e]` with its comma at `c`: both groups are maximal
      runs, the first of non-commas and the second of non-parentheses, and neither is
      empty. */
  ghost predicate IsCoordMatch(s: string, p: nat, c: nat, e: nat) {
    && p + 1 < c && c + 2 < e && e <= |s|
    && s[p] == '(' && s[c] == ',' && s[e - 1] == ')'
    && (forall k :: p < k < c ==> s[k] != ',')
    && (forall k :: c < k < e - 1 ==> s[k] != ')')
  }

  /** The first `ch` at or after `i`. */
  function FindFrom(s: string, i: nat, ch: char): (r: Option<nat>)
    decreases |s| - i
    ensures r.Some? ==> i <= r.value < |s| && s[r.value] == ch
    ensures r.Some? ==> forall k :: i <= k < r.value ==> s[k] != ch
    ensures r.None? ==> forall k :: i <= k < |s| ==> s[k] != ch
  {
    if i >= |s| then None else if s[i] == ch then Some(i) else FindFrom(s, i + 1, ch)
  }

  /** The first comma after `p`: where the first group of a match at `p` must end. */
  function CommaOf(s: string, p: nat): nat {
    match FindFrom(s, p + 1, ',')
    case Some(c) => c
    case None => p
  }

  /** The end of the match of the coordinate pattern at `p`, found exactly when there is
      one. */
  function CoordMatchEnd(s: string, p: nat): (r: Option<nat>)
    ensures r.Some? ==> IsCoordMatch(s, p, CommaOf(s, p), r.value)
    ensures r.None? ==> forall c, e :: !IsCoordMatch(s, p, c, e)
  {
    if p >= |s| || s[p] != '(' then None
    else
      match FindFrom(s, p + 1, ',')
      case None => None
      case Some(c) =>
        if c == p + 1 then None
        else
          match FindFrom(s, c + 1, ')')
          case None => None
          case Some(d) => if d == c + 1 then None else Some(d + 1)
  }

  /** `re.findall` of the coordinate pattern in a block, as the spans of its matches. */
  function CoordSpans(block: string): seq<Span> {
    assert NonEmptyMatches(block, CoordMatchEnd);
    Scan(block, 0, CoordMatchEnd)
  }

  /** The two captured components of each coordinate match of a block, in order. */
  function CoordPairs(block: string): (pairs: seq<(string, string)>)
    ensures |pairs| == |CoordSpans(block)|
    ensures forall k :: 0 <= k < |pairs| ==>
      var m := CoordSpans(block)[k];
      && IsCoordMatch(block, m.start, CommaOf(block, m.start), m.end)
      && pairs[k].0 == block[m.start + 1..CommaOf(block, m.start)]
      && pairs[k].1 == block[CommaOf(block, m.start) + 1..m.end - 1]
  {
    var spans := CoordSpans(block);
    ScanFindsMatches(block, 0, CoordMatchEnd);
    seq(|spans|, k requires 0 <= k < |spans| =>
      (block[spans[k].start + 1..CommaOf(block, spans[k].start)],
       block[CommaOf(block, spans[k].start) + 1..spans[k].end - 1]))
  }

  /** Pair `k` is a non-empty run without commas and a non-empty run without `)`. */
  lemma CoordPairShape(block: string, k: nat)
    requires k < |CoordPairs(block)|
    ensures CoordPairs(block)[k].0 != [] && CoordPairs(block)[k].1 != []
    ensures forall j :: 0 <= j < |CoordPairs(block)[k].0| ==> CoordPairs(block)[k].0[j] != ','
    ensures forall j :: 0 <= j < |CoordPairs(block)[k].1| ==> CoordPairs(block)[k].1[j] != ')'
  {
    var m := CoordSpans(block)[k];
    var c := CommaOf(block, m.start);
    var (a, b) := CoordPairs(block)[k];
    assert IsCoordMatch(block, m.start, c, m.end);
    assert forall j :: 0 <= j < |a| ==> a[j] == block[m.start + 1 + j];
    assert forall j :: 0 <= j < |b| ==> b[j] == block[c + 1 + j];
  }

  // ---- stripping and conversion ----

  /** Python's `str.isspace` for a single character. */
  predicate IsSpace(ch: char) {
    var n := ch as int;
    (9 <= n <= 13) || (28 <= n <= 32) || n == 0x85 || n == 0xA0 || n == 0x1680
    || (0x2000 <= n <= 0x200A) || n == 0x2028 || n == 0x2029 || n == 0x202F
    || n == 0x205F || n == 0x3000
  }

  /** `s` without its leading characters that satisfy `ws`. */
  function TrimStart(s: string, ws: char -> bool): (r: string)
    ensures |r| <= |s|
  {
    if s != [] && ws(s[0]) then TrimStart(s[1..], ws) else s
  }

  /** `s` without its trailing characters that satisfy `ws`. */
  function TrimEnd(s: string, ws: char -> bool): (r: string)
    ensures |r| <= |s|
  {
    if s != [] && ws(s[|s| - 1]) then TrimEnd(s[..|s| - 1], ws) else s
  }

  /** `s.strip()`. */
  function Strip(s: string): string {
    TrimEnd(TrimStart(s, IsSpace), IsSpace)
  }

  /** Trimming the start cuts a prefix of characters satisfying `ws` and leaves a suffix that
      does not start with one. */
  lemma {:induction false} TrimStartShape(s: string, ws: char -> bool)
    decreases |s|
    ensures |TrimStart(s, ws)| <= |s| && TrimStart(s, ws) == s[|s| - |TrimStart(s, ws)|..]
    ensures forall k :: 0 <= k < |s| - |TrimStart(s, ws)| ==> ws(s[k])
    ensures TrimStart(s, ws) != [] ==> !ws(TrimStart(s, ws)[0])
  {
    if s != [] && ws(s[0]) {
      TrimStartShape(s[1..], ws);
      assert forall k :: 1 <= k < |s| ==> s[1..][k - 1] == s[k];
    }
  }

  /** Trimming the end cuts a suffix of characters satisfying `ws` and leaves a prefix that
      does not end with one. */
  lemma {:induction false} TrimEndShape(s: string, ws: char -> bool)
    decreases |s|
    ensures |TrimEnd(s, ws)| <= |s| && TrimEnd(s, ws) == s[..|TrimEnd(s, ws)|]
    ensures forall k :: |TrimEnd(s, ws)| <= k < |s| ==> ws(s[k])
    ensures TrimEnd(s, ws) != [] ==> !ws(TrimEnd(s, ws)[|TrimEnd(s, ws)| - 1])
  {
    if s != [] && ws(s[|s| - 1]) {
      TrimEndShape(s[..|s| - 1], ws);
    }
  }

  /** Trimming both ends, as `s.strip()` does with `ws` the whitespace test, leaves the piece
      `s[i..j]` of `s`: it neither starts nor ends with a character satisfying `ws`, and
      everything cut from either end satisfies `ws`. */
  lemma TrimBothShape(s: string, ws: char -> bool)
    ensures exists i, j :: (0 <= i <= j <= |s| && TrimEnd(TrimStart(s, ws), ws) == s[i..j]
                            && (forall k :: 0 <= k < i ==> ws(s[k]))
                            && (forall k :: j <= k < |s| ==> ws(s[k])))
    ensures var r := TrimEnd(TrimStart(s, ws), ws);
      r != [] ==> !ws(r[0]) && !ws(r[|r| - 1])
  {
    var t := TrimStart(s, ws);
    var r := TrimEnd(t, ws);
    TrimStartShape(s, ws);
    TrimEndShape(t, ws);
    var i := |s| - |t|;
    assert s[i..i + |r|] == t[..|r|] == r;
    forall k | i + |r| <= k < |s| ensures ws(s[k]) {
      assert s[k] == t[k - i];
    }
  }

  /** Both components of a pair convert, once stripped. */
  predicate Converts(pair: (string, string), toFloat: string -> Option<real>) {
    toFloat(Strip(pair.0)).Some? && toFloat(Strip(pair.1)).Some?
  }

  /** `[float(x.strip()), float(y.strip())]` for a pair that converts. */
  function PointOf(pair: (string, string), toFloat: string -> Option<real>): seq<real>
    requires Converts(pair, toFloat)
  {
    [toFloat(Strip(pair.0)).value, toFloat(Strip(pair.1)).value]
  }

  /** `[[float(x.strip()), float(y.strip())] for x, y in pairs]`, where `toFloat` is `float()`
      and None is the `ValueError` it raises: the list fails when any component fails to
      convert, and otherwise holds the converted pairs in order. */
  function ConvertPairs(pairs: seq<(string, string)>, toFloat: string -> Option<real>): (r: Option<seq<seq<real>>>)
    ensures r.Some? ==> forall k :: 0 <= k < |pairs| ==> Converts(pairs[k], toFloat)
    ensures r.None? ==> exists k :: 0 <= k < |pairs| && !Converts(pairs[k], toFloat)
    ensures r.Some? ==> |r.value| == |pairs|
    ensures r.Some? ==> forall k :: 0 <= k < |pairs| ==> r.value[k] == PointOf(pairs[k], toFloat)
  {
    if pairs == [] then Some([])
    else
      var rest := ConvertPairs(pairs[1..], toFloat);
      assert forall k :: 1 <= k < |pairs| ==> pairs[1..][k - 1] == pairs[k];
      if !Converts(pairs[0], toFloat) || rest.None? then None
      else Some([PointOf(pairs[0], toFloat)] + rest.value)
  }

  /** The point list of one block. */
  function ConvertBlock(block: string, toFloat: string -> Option<real>): Option<seq<seq<real>>>
  {
    ConvertPairs(CoordPairs(block), toFloat)
  }

  /** A converted block holds one point of two coordinates per coordinate match, in order;
      a block without any match converts to the empty list. */
  lemma ConvertBlockShape(block: string, toFloat: string -> Option<real>)
    ensures ConvertBlock(block, toFloat).Some? ==>
      |ConvertBlock(block, toFloat).value| == |CoordSpans(block)|
    ensures ConvertBlock(block, toFloat).Some? ==>
      forall k :: 0 <= k < |ConvertBlock(block, toFloat).value| ==> |ConvertBlock(block, toFloat).value[k]| == 2
    ensures CoordSpans(block) == [] ==> ConvertBlock(block, toFloat) == Some([])
  {
  }

  /** The loop of `parse_segmentation_string`: one point list per block, in order, or
      `ValueError` as soon as a block fails to convert. */
  method ConvertBlocks(segBlocks: seq<string>, toFloat: string -> Option<real>)
    returns (r: Result<seq<seq<seq<real>>>>)
    ensures r.Err? ==> r.error == ValueError
    ensures r.Ok? <==> forall i :: 0 <= i < |segBlocks| ==> ConvertBlock(segBlocks[i], toFloat).Some?
    ensures r.Ok? ==> |r.value| == |segBlocks|
    ensures r.Ok? ==> forall i :: 0 <= i < |r.value| ==> r.value[i] == ConvertBlock(segBlocks[i], toFloat).value
  {
    var allShapesPoints: seq<seq<seq<real>>> := [];
    for i := 0 to |segBlocks|
      invariant |allShapesPoints| == i
      invariant forall j :: 0 <= j < i ==>
        ConvertBlock(segBlocks[j], toFloat).Some? && allShapesPoints[j] == ConvertBlock(segBlocks[j], toFloat).value
    {
      var points := ConvertBlock(segBlocks[i], toFloat);
      if points.None? {
        return Err(ValueError);
      }
      ghost var prev := allShapesPoints;
      allShapesPoints := allShapesPoints + [points.value];
      forall j | 0 <= j < i + 1
        ensures ConvertBlock(segBlocks[j], toFloat).Some? && allShapesPoints[j] == ConvertBlock(segBlocks[j], toFloat).value
      {
        if j < i {
          assert allShapesPoints[j] == prev[j];
        }
      }
    }
    return Ok(allShapesPoints);
  }

  /** `parse_segmentation_string`: one point list per `<seg>` block, in order, or
      `ValueError` when a component of some block is not a number. */
  method ParseSegmentationString(s: string, toFloat: string -> Option<real>)
    returns (r: Result<seq<seq<seq<real>>>>)
    ensures r.Err? ==> r.error == ValueError
    ensures r.Ok? <==> forall i :: 0 <= i < |SegBlocks(s)| ==> ConvertBlock(SegBlocks(s)[i], toFloat).Some?
    ensures r.Ok? ==> |r.value| == |SegBlocks(s)|
    ensures r.Ok? ==> forall i :: 0 <= i < |r.value| ==> r.value[i] == ConvertBlock(SegBlocks(s)[i], toFloat).value
  {
    r := ConvertBlocks(SegBlocks(s), toFloat);
  }
}
