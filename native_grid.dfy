/**
 * The native engine's particle grid (`Grid<Point>` and `Point` in
 * jni/sandblaster.cc). A cell names its element by ordinal (`None` for the
 * null pointer) and carries its age and the iteration stamps.
 *
 * Indexing outside the grid lands on a spare `null_value`, which is reset to
 * `Point()` on every such access, so a read there sees the default point and
 * a write there reaches no cell. No code reads the spare without resetting it
 * first, so the model keeps only the cells: out of range, `At` yields the
 * default and `Put` changes nothing.
 */
module NativeGrid {
  import opened Wrappers

  datatype Point = Point(element: Option<nat>, age: int, lastSet: int, lastChanged: int, lastFloated: int)

  /** `Point()`: no element, and zero age and stamps. */
  const DEFAULT := Point(None, 0, 0, 0, 0)

  /** `point = element` (`Point::operator=`): the element is replaced, and the age restarts only when it changes. */
  function Assigned(p: Point, e: Option<nat>): (r: Point)
    ensures r.element == e
    ensures r.age == if e == p.element then p.age else 0
    ensures r.lastSet == p.lastSet && r.lastChanged == p.lastChanged && r.lastFloated == p.lastFloated
  {
    if e != p.element then p.(element := e, age := 0) else p.(element := e)
  }

  /** Assigning the element a point already holds leaves it as it is. */
  lemma AssignSameKeeps(p: Point)
    ensures Assigned(p, p.element) == p
  {
  }

  /** A second assignment of the same element changes nothing more. */
  lemma AssignIdempotent(p: Point, e: Option<nat>)
    ensures Assigned(Assigned(p, e), e) == Assigned(p, e)
  {
  }

  class Grid {
    const w: int
    const h: int
    /** `data[x].data[y]`. */
    const cells: array2<Point>

    predicate Valid() {
      cells.Length0 == w && cells.Length1 == h
    }

    predicate InRange(x: int, y: int) {
      0 <= x < w && 0 <= y < h
    }

    /**
     * `Grid(w, h)`: `w` columns of `h` points. The points `new T[h]` leaves
     * uninitialised are given here as `fill`.
     */
    constructor (w: nat, h: nat, fill: Point)
      ensures this.w == w && this.h == h && Valid() && fresh(cells)
      ensures forall x, y :: InRange(x, y) ==> cells[x, y] == fill
    {
      this.w, this.h := w, h;
      cells := new Point[w, h]((x, y) => fill);
    }

    /** `grid[x][y]` read: the cell's point in range, the reset default outside. */
    function At(x: int, y: int): (p: Point)
      reads cells
      requires Valid()
      ensures !InRange(x, y) ==> p == DEFAULT
      ensures InRange(x, y) ==> p == cells[x, y]
    {
      if InRange(x, y) then cells[x, y] else DEFAULT
    }

    /** `grid[x][y] = p`, or a field assignment through that reference: only an in-range cell changes. */
    method Put(x: int, y: int, p: Point)
      requires Valid()
      modifies cells
      ensures forall c, r :: InRange(c, r) ==> cells[c, r] == if c == x && r == y then p else old(cells[c, r])
      ensures !InRange(x, y) ==> unchanged(cells)
    {
      if InRange(x, y) {
        cells[x, y] := p;
      }
    }
  }
}
