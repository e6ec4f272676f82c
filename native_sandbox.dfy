/**
 * The native engine's world (`Sandbox` in jni/sandblaster.cc): a grid of
 * points over an element table, a tick counter and the C library's random
 * stream. A point names its element by ordinal in the table; the stamps
 * record the tick in which a point was last set, last changed and last
 * floated.
 *
 * `jint` arithmetic on the tick counter and on ages wraps at 32 bits here.
 * Float comparisons follow C on the 32-bit patterns, and the difference of
 * two densities is taken over the reals.
 */
module NativeSandbox {
  import opened Wrappers
  import opened Bytes
  import opened Draws
  import opened NativeGrid
  import opened NativeTable

  /** `NEIGHBORS`: the eight offsets of the transmutation pass, clockwise from the cell above. */
  const NEIGHBORS: seq<(int, int)> := [(0, 1), (1, 1), (1, 0), (1, -1), (0, -1), (-1, -1), (-1, 0), (-1, 1)]

  /** `jint` increment: two's complement wrap-around at 32 bits. */
  function Inc32(v: int): (r: int)
    ensures IsInt32(r)
    ensures IsInt32(v) && v < 0x7FFF_FFFF ==> r == v + 1
    ensures v == 0x7FFF_FFFF ==> r == -0x8000_0000
  {
    Signed32(Low32(v + 1))
  }

  /** The place of a float among the extended reals: -1 for minus infinity, 1 for plus infinity, else 0. */
  function Rank(w: word32): int {
    if Exponent(w) != 0xFF then 0 else if w < 0x8000_0000 then 1 else -1
  }

  /** C's `a < b` on two floats: false when either is NaN, else the order of the extended reals. */
  predicate Less(a: word32, b: word32) {
    !IsNaN(a) && !IsNaN(b) && (Rank(a) < Rank(b) || (Rank(a) == 0 && Rank(b) == 0 && FloatValue(a) < FloatValue(b)))
  }

  /** C's `a <= b` on two floats: false when either is NaN. */
  predicate AtMost(a: word32, b: word32) {
    !IsNaN(a) && !IsNaN(b) && !Less(b, a)
  }

  /** Neither C comparison holds both ways: `<` is a strict order on the floats. */
  lemma LessAsymmetric(a: word32, b: word32)
    ensures !(Less(a, b) && Less(b, a))
    ensures !Less(a, a)
  {
  }

  /** A NaN compares false both ways, so `a <= b` is not the negation of `b < a`. */
  lemma NaNIsUnordered(a: word32, b: word32)
    requires IsNaN(a)
    ensures !Less(a, b) && !Less(b, a) && !AtMost(a, b) && !AtMost(b, a)
  {
  }

  /**
   * `SetParticle` on one point: the last-changed stamp moves only when the
   * element differs, the last-set stamp always, and the element is assigned
   * by `Point::operator=`.
   */
  function Stamped(p: Point, e: Option<nat>, iteration: int): (r: Point)
    ensures r.element == e && r.lastSet == iteration && r.lastFloated == p.lastFloated
    ensures e != p.element ==> r.lastChanged == iteration && r.age == 0
    ensures e == p.element ==> r == p.(lastSet := iteration)
  {
    var q := if e != p.element then p.(lastChanged := iteration) else p;
    Assigned(q.(lastSet := iteration), e)
  }

  /** Setting a point twice in one tick with one element is setting it once. */
  lemma StampedTwice(p: Point, e: Option<nat>, iteration: int)
    ensures Stamped(Stamped(p, e, iteration), e, iteration) == Stamped(p, e, iteration)
  {
  }

  /** The two points `Swap` leaves at two distinct in-range cells: elements and ages exchanged, both stamped set. */
  function Exchanged(p1: Point, p2: Point, iteration: int): (r: (Point, Point))
    ensures r.0.element == p2.element && r.0.age == p2.age && r.1.element == p1.element && r.1.age == p1.age
    ensures r.0.lastSet == iteration && r.1.lastSet == iteration
    ensures r.0.lastFloated == p1.lastFloated && r.1.lastFloated == p2.lastFloated
  {
    (Stamped(p1, p2.element, iteration).(age := p2.age), Stamped(p2, p1.element, iteration).(age := p1.age))
  }

  /** Swapping back within the same tick restores both cells' elements and ages. */
  lemma {:induction false} ExchangeTwice(p1: Point, p2: Point, iteration: int)
    ensures var (q1, q2) := Exchanged(p1, p2, iteration);
      var (s1, s2) := Exchanged(q1, q2, iteration);
      s1.element == p1.element && s1.age == p1.age && s2.element == p2.element && s2.age == p2.age &&
      s1.lastFloated == p1.lastFloated && s2.lastFloated == p2.lastFloated
  {
  }

  class Sandbox {
    const w: int
    const h: int
    var iteration: int
    /** The C library's `random()`, shared with the table's draws. */
    const rng: CRandom
    const elements: ElementTable
    const points: Grid

    /** The grid spans the box, the table is as a read leaves it, and every point's element is one of the table's. */
    ghost predicate Valid()
      reads points.cells, elements, elements.elements, elements.transmutations
    {
      points.Valid() && points.w == w && points.h == h && elements.Valid() &&
      forall c, r :: 0 <= c < points.cells.Length0 && 0 <= r < points.cells.Length1 && points.cells[c, r].element.Some? ==>
        points.cells[c, r].element.value < elements.size
    }

    predicate InRange(x: int, y: int) {
      0 <= x < w && 0 <= y < h
    }

    /**
     * From the state before to the state now, within one tick: a point stamped
     * in this tick stays stamped, and every point whose element changed was
     * stamped set and changed.
     */
    twostate predicate StampsChanges()
      reads this`iteration, points.cells
    {
      old(iteration) == iteration &&
      forall c, r :: 0 <= c < points.cells.Length0 && 0 <= r < points.cells.Length1 ==>
        (old(points.cells[c, r].lastSet) == iteration ==> points.cells[c, r].lastSet == iteration) &&
        (old(points.cells[c, r].lastChanged) == iteration ==> points.cells[c, r].lastChanged == iteration) &&
        (points.cells[c, r].element != old(points.cells[c, r].element) ==>
           points.cells[c, r].lastSet == iteration && points.cells[c, r].lastChanged == iteration)
    }

    /** Every in-range cell other than `(x, y)` is as it was. */
    twostate predicate OthersKept(x: int, y: int)
      reads points.cells
    {
      forall c, r :: 0 <= c < points.cells.Length0 && 0 <= r < points.cells.Length1 && (c != x || r != y) ==>
        points.cells[c, r] == old(points.cells[c, r])
    }

    /**
     * `Sandbox(env, w, h, java_ref)`: a fresh empty table and a `w` by `h`
     * grid. The constructor leaves the tick counter and the grid's points
     * uninitialised; their values are given here as `iteration` and `fill`,
     * and only a null `fill` element makes a consistent world.
     */
    constructor (w: nat, h: nat, iteration: int, fill: Point, rng: CRandom)
      ensures this.w == w && this.h == h && this.iteration == iteration && this.rng == rng
      ensures fresh(elements) && fresh(points) && fresh(points.cells) && elements.size == 0
      ensures points.Valid() && points.w == w && points.h == h
      ensures forall c, r :: InRange(c, r) ==> points.cells[c, r] == fill
      ensures fill.element.None? ==> Valid()
    {
      this.w, this.h := w, h;
      this.iteration := iteration;
      this.rng := rng;
      elements := new ElementTable();
      points := new Grid(w, h, fill);
    }

    /** `Clear()`: every point is assigned null; stamps stay, and ages restart where a particle was. */
    method Clear()
      requires Valid()
      modifies points.cells
      ensures Valid()
      ensures forall c, r :: InRange(c, r) ==> points.cells[c, r] == Assigned(old(points.cells[c, r]), None)
    {
      for y := 0 to h
        invariant Valid()
        invariant forall c, r :: InRange(c, r) ==>
          points.cells[c, r] == if r < y then Assigned(old(points.cells[c, r]), None) else old(points.cells[c, r])
      {
        for x := 0 to w
          invariant Valid()
          invariant forall c, r :: InRange(c, r) ==>
            points.cells[c, r] == if r < y || (r == y && c < x) then Assigned(old(points.cells[c, r]), None) else old(points.cells[c, r])
        {
          points.Put(x, y, Assigned(points.At(x, y), None));
        }
      }
    }

    /**
     * `SetParticle(x, y, elem)`: in range, the point is stamped set in this
     * tick, stamped changed when the element differs, and assigned; out of
     * range nothing changes.
     */
    method SetParticle(x: int, y: int, e: Option<nat>)
      requires Valid() && (e.Some? ==> e.value < elements.size)
      modifies points.cells
      ensures Valid() && StampsChanges() && OthersKept(x, y)
      ensures InRange(x, y) ==> points.cells[x, y] == Stamped(old(points.cells[x, y]), e, iteration)
      ensures !InRange(x, y) ==> unchanged(points.cells)
    {
      if e != points.At(x, y).element {
        points.Put(x, y, points.At(x, y).(lastChanged := iteration));
      }
      points.Put(x, y, points.At(x, y).(lastSet := iteration));
      points.Put(x, y, Assigned(points.At(x, y), e));
    }

    /** `points[x][y].age = age` (a write through the spare reaches no cell). */
    method SetAge(x: int, y: int, age: int)
      requires Valid()
      modifies points.cells
      ensures Valid() && StampsChanges() && OthersKept(x, y)
      ensures InRange(x, y) ==> points.cells[x, y] == old(points.cells[x, y]).(age := age)
      ensures !InRange(x, y) ==> unchanged(points.cells)
    {
      points.Put(x, y, points.At(x, y).(age := age));
    }

    /** `points[x][y].last_floated = iteration`. */
    method MarkFloated(x: int, y: int)
      requires Valid()
      modifies points.cells
      ensures Valid() && StampsChanges() && OthersKept(x, y)
      ensures InRange(x, y) ==> points.cells[x, y] == old(points.cells[x, y]).(lastFloated := iteration)
      ensures !InRange(x, y) ==> unchanged(points.cells)
    {
      points.Put(x, y, points.At(x, y).(lastFloated := iteration));
    }

    /**
     * `Swap(x1, y1, x2, y2)`, with its first test reading `y2 >= h` where the
     * second reads it too. A first cell out of range on the left, right or
     * bottom, or a second cell above the top, sends the null particle to the
     * second cell; a second cell out of range sends it to the first. Two
     * distinct in-range cells exchange elements and ages, both stamped set.
     * A first cell above the top (`y1 >= h`) slips past both tests and is
     * read as the spare default: the second cell is emptied and its age zeroed.
     */
    method Swap(x1: int, y1: int, x2: int, y2: int)
      requires Valid()
      modifies points.cells
      ensures Valid() && StampsChanges()
      ensures x1 < 0 || y1 < 0 || x1 >= w || y2 >= h ==>
        OthersKept(x2, y2) && (InRange(x2, y2) ==> points.cells[x2, y2] == Stamped(old(points.cells[x2, y2]), None, iteration))
      ensures 0 <= x1 < w && 0 <= y1 && y2 < h && (x2 < 0 || y2 < 0 || x2 >= w) ==>
        OthersKept(x1, y1) && (InRange(x1, y1) ==> points.cells[x1, y1] == Stamped(old(points.cells[x1, y1]), None, iteration))
      ensures 0 <= x1 < w && h <= y1 && InRange(x2, y2) ==>
        OthersKept(x2, y2) && points.cells[x2, y2] == Stamped(old(points.cells[x2, y2]), None, iteration).(age := 0)
      ensures InRange(x1, y1) && InRange(x2, y2) && (x1 != x2 || y1 != y2) ==>
        (points.cells[x1, y1], points.cells[x2, y2]) == Exchanged(old(points.cells[x1, y1]), old(points.cells[x2, y2]), iteration) &&
        forall c, r :: InRange(c, r) && (c != x1 || r != y1) && (c != x2 || r != y2) ==> points.cells[c, r] == old(points.cells[c, r])
      ensures InRange(x1, y1) && x1 == x2 && y1 == y2 ==>
        OthersKept(x1, y1) && points.cells[x1, y1] == old(points.cells[x1, y1]).(lastSet := iteration)
    {
      if x1 < 0 || y1 < 0 || x1 >= w || y2 >= h {
        SetParticle(x2, y2, None);
        return;
      }
      if x2 < 0 || y2 < 0 || x2 >= w || y2 >= h {
        SetParticle(x1, y1, None);
        return;
      }
      var p1 := points.At(x1, y1);
      var p2 := points.At(x2, y2);
      var elem := p1.element;
      var leftAge := p1.age;
      var rightAge := p2.age;
      SetParticle(x1, y1, p2.element);
      SetParticle(x2, y2, elem);
      SetAge(x1, y1, rightAge);
      SetAge(x2, y2, leftAge);
    }

    /**
     * `Iterate()`: the tick counter goes up by one (wrapping as a `jint`),
     * then every row is scanned once, bottom row first. Every point whose
     * element changed has been stamped set and changed in the new tick.
     */
    method Iterate()
      requires Valid()
      modifies this`iteration, points.cells, rng
      ensures Valid() && iteration == Inc32(old(iteration))
      ensures forall c, r :: InRange(c, r) && points.cells[c, r].element != old(points.cells[c, r].element) ==>
        points.cells[c, r].lastSet == iteration && points.cells[c, r].lastChanged == iteration
      ensures rng.drawn >= old(rng.drawn) + h
    {
      iteration := Inc32(iteration);
      label Ticked:
      for y := 0 to h
        invariant Valid() && StampsChanges@Ticked()
        invariant rng.drawn >= old(rng.drawn) + y
      {
        ScanRow(y);
      }
    }

    /** One row: a coin picks the direction, and every column is stepped once, left to right or right to left. */
    method ScanRow(y: int)
      requires Valid() && 0 <= y < h
      modifies points.cells, rng
      ensures Valid() && StampsChanges()
      ensures rng.drawn > old(rng.drawn)
    {
      var start, last, dir := 0, w, 1;
      var leftward := rng.NextBoolean();
      if leftward {
        start, last, dir := w - 1, -1, -1;
      }
      var x := start;
      while x != last
        invariant Valid() && StampsChanges() && rng.drawn > old(rng.drawn)
        invariant if leftward then -1 <= x < w && last == -1 && dir == -1 else 0 <= x <= w && last == w && dir == 1
        decreases if leftward then x + 1 else w - x
      {
        Step(x, y);
        x := x + dir;
      }
    }

    /**
     * The body of the column loop for `(x, y)`. An empty point is left alone.
     * A sinking particle (positive density) in the bottom row drops off the
     * box at once; a floating one (negative density) in the top row floats
     * off, and having been set in this tick it does nothing more. A particle
     * already set in this tick neither transmutes its neighbours, nor
     * decays, nor moves, and draws nothing.
     */
    method Step(x: int, y: int)
      requires Valid() && InRange(x, y)
      modifies points.cells, rng
      ensures Valid() && StampsChanges()
      ensures old(points.cells[x, y].element).None? ==> unchanged(points.cells) && rng.drawn == old(rng.drawn)
      ensures (old(points.cells[x, y].element).Some? && y == 0 &&
               Less(0, elements.elements[old(points.cells[x, y].element).value].density)) ==>
        OthersKept(x, y) && points.cells[x, y] == Stamped(old(points.cells[x, y]), None, iteration) &&
        rng.drawn == old(rng.drawn)
      ensures old(points.cells[x, y].lastSet) == iteration ==>
        OthersKept(x, y) && rng.drawn == old(rng.drawn) &&
        (points.cells[x, y] == old(points.cells[x, y]) || points.cells[x, y] == Stamped(old(points.cells[x, y]), None, iteration))
      ensures rng.drawn >= old(rng.drawn)
    {
      var e := points.At(x, y).element;
      if e.None? {
        return;
      }
      var o := e.value;
      var el := elements.elements[o];
      if y == 0 && Less(0, el.density) {
        SetParticle(x, y, None);
        return;
      }
      if y == h - 1 && Less(el.density, 0) {
        SetParticle(x, y, None);
      }
      var curLastSet := points.At(x, y).lastSet;
      if curLastSet == iteration {
        return;
      }
      if el.transmutationCount > 0 {
        Transmute(x, y, o);
      }
      var gone := Decay(x, y, o);
      if gone || el.mobile == 0 {
        return;
      }
      Slide(x, y, o);
      var sank := Sink(x, y, o);
      if !sank {
        Rise(x, y, o);
      }
    }

    /** The transmutation pass of a particle of element `o` at `(x, y)`: its eight neighbours, in `NEIGHBORS` order. */
    method Transmute(x: int, y: int, o: nat)
      requires Valid() && InRange(x, y) && o < elements.size
      modifies points.cells, rng
      ensures Valid() && StampsChanges() && points.cells[x, y] == old(points.cells[x, y])
      ensures forall c, r :: InRange(c, r) && !(x - 1 <= c <= x + 1 && y - 1 <= r <= y + 1) ==>
        points.cells[c, r] == old(points.cells[c, r])
      ensures rng.drawn >= old(rng.drawn)
    {
      for i := 0 to |NEIGHBORS|
        invariant Valid() && StampsChanges() && points.cells[x, y] == old(points.cells[x, y])
        invariant forall c, r :: InRange(c, r) && !(x - 1 <= c <= x + 1 && y - 1 <= r <= y + 1) ==>
          points.cells[c, r] == old(points.cells[c, r])
        invariant rng.drawn >= old(rng.drawn)
      {
        var (dx, dy) := NEIGHBORS[i];
        Offer(x + dx, y + dy, o);
      }
    }

    /**
     * One neighbour: an in-range particle not set in this tick meets the rule
     * for (agent `o`, its element), and is set to the outcome when that
     * differs. Out of range, on an empty point or on one set in this tick,
     * nothing happens and nothing is drawn.
     */
    method Offer(nx: int, ny: int, o: nat)
      requires Valid() && o < elements.size
      modifies points.cells, rng
      ensures Valid() && StampsChanges() && OthersKept(nx, ny)
      ensures !InRange(nx, ny) || old(points.cells[nx, ny].element.None? || points.cells[nx, ny].lastSet == iteration) ==>
        unchanged(points.cells) && rng.drawn == old(rng.drawn)
      ensures rng.drawn >= old(rng.drawn)
    {
      if 0 <= nx < w && 0 <= ny < h && points.At(nx, ny).lastSet != iteration {
        var t := points.At(nx, ny).element;
        if t.Some? {
          var _ := Meet(nx, ny, o, t.value);
        }
      }
    }

    /**
     * `MaybeTransmutate(e, t)` for the particle of element `t` at `(nx, ny)`:
     * its outcome `r`, set with `SetParticle` when it differs from `t`.
     */
    method Meet(nx: int, ny: int, o: nat, t: nat) returns (r: Option<nat>)
      requires Valid() && InRange(nx, ny) && o < elements.size && points.cells[nx, ny].element == Some(t)
      modifies points.cells, rng
      ensures Valid() && StampsChanges() && OthersKept(nx, ny)
      ensures elements.transmutations[o, t].products.WellFormed()
      ensures r == Outcome(elements.transmutations[o, t], t, rng.stream, old(rng.drawn))
      ensures rng.drawn == old(rng.drawn) + OutcomeDraws(elements.transmutations[o, t], rng.stream, old(rng.drawn))
      ensures points.cells[nx, ny] == if r == Some(t) then old(points.cells[nx, ny]) else Stamped(old(points.cells[nx, ny]), r, iteration)
    {
      r := elements.MaybeTransmutate(Some(o), Some(t), rng);
      if r != points.At(nx, ny).element {
        SetParticle(nx, ny, r);
      }
    }

    /**
     * The decay pass: a positive decay probability draws, and a draw below
     * it ages the particle by one; past its lifetime the particle becomes a
     * pick of its element's decay products, and the pass reports it gone.
     */
    method Decay(x: int, y: int, o: nat) returns (gone: bool)
      requires Valid() && InRange(x, y) && points.cells[x, y].element == Some(o) && o < elements.size
      modifies points.cells, rng
      ensures Valid() && StampsChanges() && OthersKept(x, y)
      ensures !gone ==> points.cells[x, y].element == Some(o) && points.cells[x, y].lastSet == old(points.cells[x, y].lastSet)
      ensures gone ==> points.cells[x, y].lastSet == iteration && Inc32(old(points.cells[x, y].age)) > elements.elements[o].lifetime
      ensures gone ==> points.cells[x, y].element == None || points.cells[x, y].element in elements.elements[o].decayProducts.products
      ensures gone ==>
        var ps := elements.elements[o].decayProducts;
        ps.WellFormed() &&
        points.cells[x, y].element == (if |ps.products| == 0 then None else Picked(ps, rng.stream(old(rng.drawn) + 1))) &&
        rng.drawn == old(rng.drawn) + (if |ps.products| == 0 then 1 else 2)
      ensures !Below(0.0, elements.elements[o].decayProbability) ==> !gone && unchanged(points.cells) && rng.drawn == old(rng.drawn)
      ensures rng.drawn >= old(rng.drawn)
    {
      var el := elements.elements[o];
      if Below(0.0, el.decayProbability) {
        var f := rng.NextFloat();
        if Below(f, el.decayProbability) {
          SetAge(x, y, Inc32(points.At(x, y).age));
          if points.At(x, y).age > el.lifetime {
            var product := PickProduct(el.decayProducts, rng);
            SetParticle(x, y, product);
            return true;
          }
        }
      }
      return false;
    }

    /**
     * The coin of a move into another particle: free (an empty point) goes
     * without a draw; otherwise one draw goes when below the difference.
     */
    method Chance(free: bool, difference: real) returns (go: bool)
      modifies rng
      ensures free ==> go && rng.drawn == old(rng.drawn)
      ensures !free ==> go == (old(rng.Peek()) as real / 0x8000_0000 as real < difference) && rng.drawn == old(rng.drawn) + 1
    {
      go := free;
      if !go {
        var f := rng.NextFloat();
        go := f < difference;
      }
    }

    /**
     * The horizontal move: a draw below the viscosity, then a coin for the
     * side. A sinking particle slides only when blocked from below, into a
     * point the side's lower neighbour did not float from in this tick, and
     * marks its old point floated; a floating one slides only when blocked
     * from above and its point has not floated in this tick, and marks the
     * point above its new column.
     */
    method Slide(x: int, y: int, o: nat)
      requires Valid() && InRange(x, y) && o < elements.size
      modifies points.cells, rng
      ensures Valid() && StampsChanges()
      ensures rng.drawn >= old(rng.drawn)
    {
      var el := elements.elements[o];
      var f := rng.NextFloat();
      if !Below(f, el.viscosity) {
        return;
      }
      var coin := rng.NextBoolean();
      var nx := if coin then x + 1 else x - 1;
      var d := el.density;
      if Less(0, d) {
        if y - 1 >= 0 {
          var below := points.At(x, y - 1).element;
          if below.Some? && (elements.elements[below.value].mobile == 0 || AtMost(d, elements.elements[below.value].density)) {
            var go := Yields(nx, y, d, true);
            if go && (nx < 0 || nx >= w || points.At(nx, y - 1).lastFloated != iteration) {
              Swap(x, y, nx, y);
              MarkFloated(x, y);
            }
          }
        }
      } else if Less(d, 0) {
        if y + 1 < h && points.At(x, y).lastFloated != iteration {
          var above := points.At(x, y + 1).element;
          if above.Some? && (elements.elements[above.value].mobile == 0 || AtMost(elements.elements[above.value].density, d)) {
            var go := Yields(nx, y, d, false);
            if go {
              Swap(x, y, nx, y);
              if 0 <= nx < w {
                MarkFloated(nx, y + 1);
              }
            }
          }
        }
      }
    }

    /**
     * Whether the point beside, at `(nx, y)`, gives way to a particle of
     * density `d`: nothing there (or outside the box) always does; a mobile
     * particle lighter than a sinking one (heavier than a floating one) does
     * on a draw below the difference of densities; anything else does not.
     */
    method Yields(nx: int, y: int, d: word32, sinking: bool) returns (go: bool)
      requires Valid()
      modifies rng
      ensures (nx < 0 || nx >= w || points.At(nx, y).element.None?) ==> go && rng.drawn == old(rng.drawn)
      ensures 0 <= nx < w && points.At(nx, y).element.Some? ==>
        var pe := elements.elements[points.At(nx, y).element.value];
        if pe.mobile != 0 && (if sinking then Less(pe.density, d) else Less(d, pe.density)) then
          var difference := if sinking then FloatValue(d) - FloatValue(pe.density) else FloatValue(pe.density) - FloatValue(d);
          go == (old(rng.Peek()) as real / 0x8000_0000 as real < difference) && rng.drawn == old(rng.drawn) + 1
        else !go && rng.drawn == old(rng.drawn)
      ensures rng.drawn >= old(rng.drawn)
    {
      var p := if nx < 0 || nx >= w then None else points.At(nx, y).element;
      if p.None? {
        return true;
      }
      var pe := elements.elements[p.value];
      if pe.mobile != 0 && (if sinking then Less(pe.density, d) else Less(d, pe.density)) {
        go := Chance(false, if sinking then FloatValue(d) - FloatValue(pe.density) else FloatValue(pe.density) - FloatValue(d));
      } else {
        go := false;
      }
    }

    /**
     * The fall: a sinking particle over an empty point, or a particle heavier
     * than a mobile one below it, sinks (against a particle of nonzero
     * density, on a draw below the difference), marking its old point
     * floated. It reports whether the fall was tried, which ends the step.
     * Over an empty point a sinking particle always falls, without a draw.
     */
    method Sink(x: int, y: int, o: nat) returns (tried: bool)
      requires Valid() && InRange(x, y) && o < elements.size
      modifies points.cells, rng
      ensures Valid() && StampsChanges()
      ensures (0 < y && old(points.cells[x, y - 1].element).None? && Less(0, elements.elements[o].density)) ==>
        var (upper, lower) := Exchanged(old(points.cells[x, y]), old(points.cells[x, y - 1]), iteration);
        tried && rng.drawn == old(rng.drawn) &&
        points.cells[x, y] == upper.(lastFloated := iteration) && points.cells[x, y - 1] == lower &&
        forall c, r :: InRange(c, r) && (c != x || (r != y && r != y - 1)) ==> points.cells[c, r] == old(points.cells[c, r])
      ensures rng.drawn >= old(rng.drawn)
    {
      var d := elements.elements[o].density;
      var below := points.At(x, y - 1).element;
      tried := (below.None? && Less(0, d)) ||
        (below.Some? && elements.elements[below.value].mobile != 0 && Less(elements.elements[below.value].density, d));
      if tried {
        var nd := if below.None? then 0 else elements.elements[below.value].density;
        var go := Chance(below.None? || IsZero(nd), FloatValue(d) - FloatValue(nd));
        if go {
          Swap(x, y, x, y - 1);
          MarkFloated(x, y);
        }
      }
    }

    /**
     * The rise, when the fall was not tried and the point has not floated in
     * this tick: a floating particle under an empty point, or a particle
     * lighter than a mobile one above it, rises, marking the point above.
     */
    method Rise(x: int, y: int, o: nat)
      requires Valid() && InRange(x, y) && o < elements.size
      modifies points.cells, rng
      ensures Valid() && StampsChanges()
      ensures rng.drawn >= old(rng.drawn)
    {
      if points.At(x, y).lastFloated == iteration {
        return;
      }
      var d := elements.elements[o].density;
      var above := points.At(x, y + 1).element;
      if (above.None? && Less(d, 0)) ||
         (above.Some? && elements.elements[above.value].mobile != 0 && Less(d, elements.elements[above.value].density)) {
        var nd := if above.None? then 0 else elements.elements[above.value].density;
        var go := Chance(above.None? || IsZero(nd), FloatValue(nd) - FloatValue(d));
        if go {
          Swap(x, y, x, y + 1);
          if y + 1 < h {
            MarkFloated(x, y + 1);
          }
        }
      }
    }
  }
}
