/**
 * The occupancy index of one row of the sand box: for a fixed `y`, the
 * columns of `SandBox.leftNeighbors` and `SandBox.rightNeighbors` as two
 * sequences over `x`, and which columns hold a particle.
 *
 * The class comment calls the index a doubly-linked list whose pointers give
 * the nearest occupied column on each side (`Exact` below). `setParticle`
 * keeps that while it only puts particles down; taking one away leaves its
 * two occupied neighbours pointing at the now empty column. What the splice
 * does keep is `Sound`: every pointer goes the right way and jumps over
 * empty columns only, the pointers never decrease from left to right, and
 * the spans they jump over nest. That is what the row walks of `update` and
 * `write` rely on: following `rightNeighbors` from the first candidate
 * visits every particle of the row, in order, and stops.
 */
module Occupancy {

  /** One pointer of each kind and one occupancy flag per column. */
  predicate Shaped(left: seq<int>, right: seq<int>, occ: seq<bool>) {
    |left| == |occ| && |right| == |occ|
  }

  /** No column strictly between `a` and `b` holds a particle. */
  predicate EmptyBetween(occ: seq<bool>, a: int, b: int) {
    forall c :: 0 <= c < |occ| && a < c < b ==> !occ[c]
  }

  /** Right pointers go right, stay within the row or at its width, and jump over empty columns only. */
  predicate RightSkips(right: seq<int>, occ: seq<bool>) {
    |right| == |occ| &&
    forall x :: 0 <= x < |occ| ==> x < right[x] <= |occ| && EmptyBetween(occ, x, right[x])
  }

  /** Pointers go the right way, stay within -1 .. width, and jump over empty columns only. */
  predicate Skips(left: seq<int>, right: seq<int>, occ: seq<bool>) {
    Shaped(left, right, occ) &&
    forall x :: 0 <= x < |occ| ==>
      -1 <= left[x] < x < right[x] <= |occ| &&
      EmptyBetween(occ, left[x], x) && EmptyBetween(occ, x, right[x])
  }

  /** Both pointer rows are non-decreasing from left to right. */
  predicate Monotone(left: seq<int>, right: seq<int>) {
    |left| == |right| &&
    forall i, j :: 0 <= i < j < |left| ==> left[i] <= left[j] && right[i] <= right[j]
  }

  /** A column inside the span of another column's pointer does not point out past it. */
  predicate Nested(left: seq<int>, right: seq<int>) {
    |left| == |right| &&
    (forall c, d :: 0 <= c < d < |left| && d < right[c] ==> left[d] <= c) &&
    (forall c, d :: 0 <= d < c < |left| && left[c] < d ==> c <= right[d])
  }

  /** The invariant `setParticle` keeps. */
  predicate Sound(left: seq<int>, right: seq<int>, occ: seq<bool>) {
    Skips(left, right, occ) && Monotone(left, right) && Nested(left, right)
  }

  /** The nearest occupied column strictly left of `x`, or -1. */
  function NearestLeft(occ: seq<bool>, x: int): (r: int)
    requires 0 <= x <= |occ|
    ensures -1 <= r < x && EmptyBetween(occ, r, x) && (r >= 0 ==> occ[r])
  {
    if x == 0 then -1 else if occ[x - 1] then x - 1 else NearestLeft(occ, x - 1)
  }

  /** The nearest occupied column strictly right of `x`, or the width. */
  function NearestRight(occ: seq<bool>, x: int): (r: int)
    requires -1 <= x < |occ|
    ensures x < r <= |occ| && EmptyBetween(occ, x, r) && (r < |occ| ==> occ[r])
    decreases |occ| - x
  {
    if x + 1 == |occ| then |occ| else if occ[x + 1] then x + 1 else NearestRight(occ, x + 1)
  }

  /** The index as the class comment describes it: every pointer is the nearest occupied column. */
  predicate Exact(left: seq<int>, right: seq<int>, occ: seq<bool>) {
    Shaped(left, right, occ) &&
    forall x :: 0 <= x < |occ| ==> left[x] == NearestLeft(occ, x) && right[x] == NearestRight(occ, x)
  }

  /** The row `clear` leaves: nothing occupied, every left pointer -1 and every right pointer the width. */
  function ClearedLeft(width: nat): (r: seq<int>)
    ensures |r| == width && forall x :: 0 <= x < width ==> r[x] == -1
  {
    seq(width, x => -1)
  }

  function ClearedRight(width: nat): (r: seq<int>)
    ensures |r| == width && forall x :: 0 <= x < width ==> r[x] == width
  {
    seq(width, x => width)
  }

  function NoParticles(width: nat): (r: seq<bool>)
    ensures |r| == width && forall x :: 0 <= x < width ==> !r[x]
  {
    seq(width, x => false)
  }

  /**
   * The right pointers after `setParticle` re-splices column `x`: the columns
   * between `x` and its left pointer now point at `x` when a particle is put
   * there (`put`) and past it when one is taken away; a particle put down is
   * also linked from its left neighbour.
   */
  function SplicedRight(left: seq<int>, right: seq<int>, x: int, put: bool): (r: seq<int>)
    requires |left| == |right| && 0 <= x < |left|
    ensures |r| == |right|
  {
    seq(|right|, c requires 0 <= c < |right| =>
      if left[x] < c < x then (if put then x else right[x])
      else if put && c == left[x] then x
      else right[c])
  }

  /** The left pointers after the re-splice, the mirror image of `SplicedRight`. */
  function SplicedLeft(left: seq<int>, right: seq<int>, x: int, put: bool): (r: seq<int>)
    requires |left| == |right| && 0 <= x < |left|
    ensures |r| == |left|
  {
    seq(|left|, c requires 0 <= c < |left| =>
      if x < c < right[x] then (if put then x else left[x])
      else if put && c == right[x] then x
      else left[c])
  }

  // The splice keeps the invariant. `put` is a particle put down (on an empty
  // column or in place of a different element); otherwise the column held a
  // particle that is taken away.

  lemma SpliceSkips(left: seq<int>, right: seq<int>, occ: seq<bool>, x: int, put: bool)
    requires Sound(left, right, occ) && 0 <= x < |occ| && (put || occ[x])
    ensures Skips(SplicedLeft(left, right, x, put), SplicedRight(left, right, x, put), occ[x := put])
  {
    var l, r := SplicedLeft(left, right, x, put), SplicedRight(left, right, x, put);
    var o := occ[x := put];
    var a, b := left[x], right[x];
    forall y | 0 <= y < |occ|
      ensures -1 <= l[y] < y && EmptyBetween(o, l[y], y)
    {
      if x < y < b {
        assert l[y] == (if put then x else a);
      } else if put && y == b {
        assert l[y] == x;
      } else {
        assert l[y] == left[y];
      }
    }
    forall y | 0 <= y < |occ|
      ensures y < r[y] <= |occ| && EmptyBetween(o, y, r[y])
    {
      if a < y < x {
        assert r[y] == (if put then x else b);
      } else if put && y == a {
        assert r[y] == x;
      } else {
        assert r[y] == right[y];
      }
    }
  }

  lemma SpliceMonotone(left: seq<int>, right: seq<int>, occ: seq<bool>, x: int, put: bool)
    requires Sound(left, right, occ) && 0 <= x < |occ| && (put || occ[x])
    ensures Monotone(SplicedLeft(left, right, x, put), SplicedRight(left, right, x, put))
  {
    var l, r := SplicedLeft(left, right, x, put), SplicedRight(left, right, x, put);
    var a, b := left[x], right[x];
    forall i, j | 0 <= i < j < |occ|
      ensures l[i] <= l[j]
    {
      var ii := x < i < b || (put && i == b);
      var jj := x < j < b || (put && j == b);
      if ii && !jj {
        assert l[i] == (if put then x else a) && l[j] == left[j] && j > x;
      } else if !ii && jj {
        assert l[j] == (if put then x else a) && l[i] == left[i] && i <= x;
      }
    }
    forall i, j | 0 <= i < j < |occ|
      ensures r[i] <= r[j]
    {
      var ii := a < i < x || (put && i == a);
      var jj := a < j < x || (put && j == a);
      if ii && !jj {
        assert r[i] == (if put then x else b) && r[j] == right[j] && j >= x;
      } else if !ii && jj {
        assert r[j] == (if put then x else b) && r[i] == right[i] && i <= a;
      }
    }
  }

  lemma SpliceNestedRight(left: seq<int>, right: seq<int>, occ: seq<bool>, x: int, put: bool)
    requires Sound(left, right, occ) && 0 <= x < |occ| && (put || occ[x])
    ensures var l, r := SplicedLeft(left, right, x, put), SplicedRight(left, right, x, put);
      forall c, d :: 0 <= c < d < |occ| && d < r[c] ==> l[d] <= c
  {
    var l, r := SplicedLeft(left, right, x, put), SplicedRight(left, right, x, put);
    var a, b := left[x], right[x];
    forall c, d | 0 <= c < d < |occ| && d < r[c]
      ensures l[d] <= c
    {
      var cIn := a < c < x || (put && c == a);
      var dIn := x < d < b || (put && d == b);
      if dIn {
        assert l[d] == (if put then x else a);
        if cIn {
          assert r[c] == (if put then x else b);
        } else {
          assert r[c] == right[c];
        }
      } else {
        assert l[d] == left[d];
        if cIn {
          assert r[c] == (if put then x else b);
          assert d <= x;
        } else {
          assert r[c] == right[c];
        }
      }
    }
  }

  lemma SpliceNestedLeft(left: seq<int>, right: seq<int>, occ: seq<bool>, x: int, put: bool)
    requires Sound(left, right, occ) && 0 <= x < |occ| && (put || occ[x])
    ensures var l, r := SplicedLeft(left, right, x, put), SplicedRight(left, right, x, put);
      forall c, d :: 0 <= d < c < |occ| && l[c] < d ==> c <= r[d]
  {
    var l, r := SplicedLeft(left, right, x, put), SplicedRight(left, right, x, put);
    var a, b := left[x], right[x];
    forall c, d | 0 <= d < c < |occ| && l[c] < d
      ensures c <= r[d]
    {
      var cIn := x < c < b || (put && c == b);
      var dIn := a < d < x || (put && d == a);
      if dIn {
        assert r[d] == (if put then x else b);
        if cIn {
          assert l[c] == (if put then x else a);
        } else {
          assert l[c] == left[c];
        }
      } else {
        assert r[d] == right[d];
        if cIn {
          assert l[c] == (if put then x else a);
          assert d >= x;
        } else {
          assert l[c] == left[c];
        }
      }
    }
  }

  /** `setParticle`'s re-splice keeps the invariant, for a particle put down or taken away. */
  lemma SpliceSound(left: seq<int>, right: seq<int>, occ: seq<bool>, x: int, put: bool)
    requires Sound(left, right, occ) && 0 <= x < |occ| && (put || occ[x])
    ensures Sound(SplicedLeft(left, right, x, put), SplicedRight(left, right, x, put), occ[x := put])
  {
    SpliceSkips(left, right, occ, x, put);
    SpliceMonotone(left, right, occ, x, put);
    SpliceNestedRight(left, right, occ, x, put);
    SpliceNestedLeft(left, right, occ, x, put);
  }

  // The exact index.

  /** Every occupied column left of `x` is at or before the nearest one. */
  lemma {:induction false} NearestLeftIsNearest(occ: seq<bool>, x: int, c: int)
    requires 0 <= c < x <= |occ| && occ[c]
    ensures c <= NearestLeft(occ, x)
    decreases x
  {
    if !occ[x - 1] {
      NearestLeftIsNearest(occ, x - 1, c);
    }
  }

  lemma {:induction false} NearestRightIsNearest(occ: seq<bool>, x: int, c: int)
    requires -1 <= x < c < |occ| && occ[c]
    ensures NearestRight(occ, x) <= c
    decreases |occ| - x
  {
    if !occ[x + 1] {
      NearestRightIsNearest(occ, x + 1, c);
    }
  }

  /** A row `clear` leaves is exact. */
  lemma ClearedExact(width: nat)
    ensures Exact(ClearedLeft(width), ClearedRight(width), NoParticles(width))
  {
    var occ := NoParticles(width);
    forall x | 0 <= x < width
      ensures NearestLeft(occ, x) == -1 && NearestRight(occ, x) == width
    {
    }
  }

  /** The exact index is sound. */
  lemma ExactIsSound(left: seq<int>, right: seq<int>, occ: seq<bool>)
    requires Exact(left, right, occ)
    ensures Sound(left, right, occ)
  {
    forall i, j | 0 <= i < j < |occ|
      ensures left[i] <= left[j] && right[i] <= right[j]
    {
      if left[i] >= 0 {
        NearestLeftIsNearest(occ, j, left[i]);
      }
      if right[j] < |occ| {
        NearestRightIsNearest(occ, i, right[j]);
      }
    }
    forall c, d | 0 <= c < d < |occ| && d < right[c]
      ensures left[d] <= c
    {
      assert left[d] >= 0 ==> occ[left[d]];
    }
    forall c, d | 0 <= d < c < |occ| && left[c] < d
      ensures c <= right[d]
    {
      assert right[d] < |occ| ==> occ[right[d]];
    }
  }

  /** Putting a particle down keeps the index exact. */
  lemma PutKeepsExact(left: seq<int>, right: seq<int>, occ: seq<bool>, x: int)
    requires Exact(left, right, occ) && 0 <= x < |occ|
    ensures Exact(SplicedLeft(left, right, x, true), SplicedRight(left, right, x, true), occ[x := true])
  {
    var l, r := SplicedLeft(left, right, x, true), SplicedRight(left, right, x, true);
    var o := occ[x := true];
    ExactIsSound(left, right, occ);
    SpliceSound(left, right, occ, x, true);
    forall y | 0 <= y < |occ|
      ensures l[y] == NearestLeft(o, y) && r[y] == NearestRight(o, y)
    {
      var nl, nr := NearestLeft(o, y), NearestRight(o, y);
      if l[y] >= 0 {
        NearestLeftIsNearest(o, y, l[y]);
      }
      if nl >= 0 {
        assert l[y] >= nl;
      }
      if r[y] < |occ| {
        NearestRightIsNearest(o, y, r[y]);
      }
      if nr < |occ| {
        assert r[y] <= nr;
      }
    }
  }

  /**
   * Taking a particle away does not keep the index exact: in a row of two
   * particles, removing the right one leaves the left one pointing at it.
   */
  lemma RemovalLeavesStalePointer()
    ensures var left, right, occ := [-1, 0], [1, 2], [true, true];
      Exact(left, right, occ) &&
      SplicedRight(left, right, 1, false)[0] == 1 && !occ[1 := false][1] &&
      !Exact(SplicedLeft(left, right, 1, false), SplicedRight(left, right, 1, false), occ[1 := false])
  {
    var left, right, occ := [-1, 0], [1, 2], [true, true];
    assert NearestLeft(occ, 0) == -1 && NearestLeft(occ, 1) == 0;
    assert NearestRight(occ, 0) == 1 && NearestRight(occ, 1) == 2;
    var o := occ[1 := false];
    assert NearestRight(o, 0) == 2;
  }

  // Walking a row.

  /** The pointers of a row all point right, so a walk along them ends. */
  predicate PointsRight(right: seq<int>) {
    forall c :: 0 <= c < |right| ==> c < right[c]
  }

  /** The columns a walk along `right` visits from `x`, until it leaves the row. */
  function Walk(right: seq<int>, x: int): (r: seq<int>)
    requires PointsRight(right)
    ensures forall k :: 0 <= k < |r| ==> x <= r[k] < |right|
    decreases |right| - x
  {
    if x < 0 || x >= |right| then [] else [x] + Walk(right, right[x])
  }

  /** A walk visits its columns in strictly increasing order. */
  lemma {:induction false} WalkAscends(right: seq<int>, x: int)
    requires PointsRight(right)
    ensures forall i, j :: 0 <= i < j < |Walk(right, x)| ==> Walk(right, x)[i] < Walk(right, x)[j]
    decreases |right| - x
  {
    if 0 <= x < |right| {
      WalkAscends(right, right[x]);
    }
  }

  /** Every row the invariant holds for has right pointers that skip empty columns only. */
  lemma SoundSkipsRight(left: seq<int>, right: seq<int>, occ: seq<bool>)
    requires Sound(left, right, occ)
    ensures RightSkips(right, occ) && PointsRight(right)
  {
  }

  /** A walk visits every particle at or after its starting column. */
  lemma {:induction false} WalkVisitsParticles(right: seq<int>, occ: seq<bool>, x: int, c: int)
    requires RightSkips(right, occ) && 0 <= x <= c < |occ| && occ[c]
    ensures PointsRight(right) && c in Walk(right, x)
    decreases |occ| - x
  {
    if c != x {
      assert x < right[x] <= c;
      WalkVisitsParticles(right, occ, right[x], c);
    }
  }
}
