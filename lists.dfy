/** Python's in-place list edits `list.insert(i, x)` and `list.pop(i)`, on sequences and
    for non-negative indices. */
module Lists {

  /** `s.insert(i, x)`: `x` lands at index `i`, or at the end when `i` is at or past it. */
  function InsertAt<T>(s: seq<T>, i: nat, x: T): (r: seq<T>)
    ensures |r| == |s| + 1
    ensures var j := if i < |s| then i else |s|;
      forall k :: 0 <= k < |r| ==> r[k] == if k < j then s[k] else if k == j then x else s[k - 1]
  {
    if i < |s| then s[..i] + [x] + s[i..] else s + [x]
  }

  /** `s.pop(i)` for an index in range: every later element moves down by one. */
  function RemoveAt<T>(s: seq<T>, i: nat): (r: seq<T>)
    requires i < |s|
    ensures |r| == |s| - 1
    ensures forall k :: 0 <= k < |r| ==> r[k] == if k < i then s[k] else s[k + 1]
  {
    s[..i] + s[i + 1..]
  }

  /** Inserting at an index and popping the same index gives the list back. */
  lemma InsertThenRemove<T>(s: seq<T>, i: nat, x: T)
    ensures var j := if i < |s| then i else |s|;
      RemoveAt(InsertAt(s, i, x), j) == s
  {
    var j := if i < |s| then i else |s|;
    var r := RemoveAt(InsertAt(s, i, x), j);
    assert |r| == |s|;
    forall k | 0 <= k < |s| ensures r[k] == s[k] {
    }
  }
}
