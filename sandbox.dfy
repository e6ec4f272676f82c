/**
 * The particle engine (com.loganh.sandblaster.SandBox): a grid indexed
 * `[x, y]` holding each cell's element, age and tick stamps (the five
 * parallel arrays of the Java class, one record per cell), the occupancy
 * index of every row, the map of sources, the ring of cells to redraw, and
 * the tick counter.
 *
 * Elements are referred to by their ordinal in the element table. Random
 * draws come from `Random` objects whose draws are an input of the model:
 * the box's own generator, the table's, and the shared generator `rng`
 * that product sets pick with.
 */
module Engine {
  import opened Bytes
  import opened Wrappers
  import opened Draws
  import opened Catalog
  import opened Table
  import opened Occupancy
  import opened SandState

  /** What `setParticle` makes of a cell: a new element starts at age 0 and is stamped changed; every call stamps it set. */
  function Stamped(p: Particle, e: Option<nat>, iteration: int): Particle {
    if e == p.element then p.(lastSet := iteration) else Particle(e, 0, iteration, iteration, p.lastFloated)
  }

  /** The density of an element as a real number; NaN and the infinities read as 0. */
  function Density(e: Element): real {
    FloatValue(e.density)
  }

  /** Every product a decay set or a rule can yield is an element of the table, or nothing. */
  predicate ProductsKnown(v: TableValue)
    requires Square(v.rules, |v.elements|)
  {
    (forall i, k ::
      (0 <= i < |v.elements| && v.elements[i].decayProducts.Some? &&
       0 <= k < |v.elements[i].decayProducts.value.products|) ==>
      var p := v.elements[i].decayProducts.value.products[k]; p.Some? ==> p.value < |v.elements|) &&
    (forall i, j, k ::
      (0 <= i < |v.elements| && 0 <= j < |v.elements| && v.rules[i][j].Some? &&
       v.rules[i][j].value.product.Some? && 0 <= k < |v.rules[i][j].value.product.value.products|) ==>
      var p := v.rules[i][j].value.product.value.products[k]; p.Some? ==> p.value < |v.elements|)
  }

  /** Row `y` of a grid indexed `[x, y]`. */
  ghost function RowOf<T>(a: array2<T>, y: int): (r: seq<T>)
    reads a
    requires 0 <= y < a.Length1
    ensures |r| == a.Length0 && forall x :: 0 <= x < |r| ==> r[x] == a[x, y]
  {
    seq(a.Length0, x requires 0 <= x < a.Length0 reads a => a[x, y])
  }

  /** The ring slot of cell `(x, y)`, `y * width + x`, is one of the `width * height` slots. */
  lemma CellIndexInRange(x: int, y: int, width: int, height: int)
    requires 0 <= x < width && 0 <= y < height
    ensures 0 <= y * width + x < width * height
  {
    assert y * width <= (height - 1) * width;
  }

  class SandBox {
    const elementTable: ElementTable
    /** `elements`, `ages`, `lastSet`, `lastChange` and `lastFloated`, one record per cell. */
    var cells: array2<Particle>
    var leftNeighbors: array2<int>
    var rightNeighbors: array2<int>
    var sources: map<Point, nat>
    var dirtyPixels: array<int>
    var lastDirtyIndex: int
    var iteration: int
    const random: Random
    const width: int
    const height: int

    predicate InBounds(x: int, y: int) {
      0 <= x < width && 0 <= y < height
    }

    /** Every grid is width × height, and the redraw ring has one slot per cell. */
    predicate Sized()
      reads this`cells, this`leftNeighbors, this`rightNeighbors, this`dirtyPixels, this`lastDirtyIndex
    {
      0 <= width && 0 <= height &&
      cells.Length0 == width && cells.Length1 == height &&
      leftNeighbors.Length0 == width && leftNeighbors.Length1 == height &&
      rightNeighbors.Length0 == width && rightNeighbors.Length1 == height &&
      leftNeighbors != rightNeighbors &&
      dirtyPixels.Length == width * height &&
      0 <= lastDirtyIndex && (lastDirtyIndex < dirtyPixels.Length || lastDirtyIndex == 0)
    }

    /** Row `y` of `leftNeighbors`, over `x`. */
    ghost function LeftRow(y: int): seq<int>
      reads this`leftNeighbors, leftNeighbors
      requires 0 <= y < leftNeighbors.Length1
    {
      RowOf(leftNeighbors, y)
    }

    /** Row `y` of `rightNeighbors`, over `x`. */
    ghost function RightRow(y: int): seq<int>
      reads this`rightNeighbors, rightNeighbors
      requires 0 <= y < rightNeighbors.Length1
    {
      RowOf(rightNeighbors, y)
    }

    /** Which columns of row `y` hold a particle. */
    ghost function OccRow(y: int): seq<bool>
      reads this`cells, cells
      requires 0 <= y < cells.Length1
    {
      Occupied(RowOf(cells, y))
    }

    /** The occupancy index of every row is sound. */
    ghost predicate Indexed()
      reads this`cells, this`leftNeighbors, this`rightNeighbors, this`dirtyPixels, this`lastDirtyIndex
      reads cells, leftNeighbors, rightNeighbors
      requires Sized()
    {
      forall y :: 0 <= y < height ==> Sound(LeftRow(y), RightRow(y), OccRow(y))
    }

    /** Cells and sources name elements of the table, and sources lie in the box. */
    ghost predicate Known()
      reads this`cells, this`leftNeighbors, this`rightNeighbors, this`dirtyPixels, this`lastDirtyIndex
      reads this`sources, cells
      requires Sized()
    {
      (forall x, y :: 0 <= x < width && 0 <= y < height && cells[x, y].element.Some? ==>
        cells[x, y].element.value < elementTable.elements.Length) &&
      (forall p :: p in sources ==> InBounds(p.x, p.y) && sources[p] < elementTable.elements.Length)
    }

    /** The element table the box runs on: well formed, with its own generator, and closed under its products. */
    ghost predicate TableReady()
      reads elementTable, elementTable.elements, elementTable.rules
    {
      elementTable.Valid() && elementTable.random != random && ProductsKnown(elementTable.Value())
    }

    /** The box's own invariant: sized arrays, known elements, and a sound index in every row. */
    ghost predicate Valid()
      reads this`cells, this`leftNeighbors, this`rightNeighbors, this`dirtyPixels, this`lastDirtyIndex
      reads this`sources, cells, leftNeighbors, rightNeighbors
    {
      Sized() && Known() && Indexed()
    }

    /**
     * `SandBox(width, height)` followed by the assignment of the element
     * table: the box is cleared, and its generator is `random`.
     */
    constructor (width: int, height: int, table: ElementTable, random: Random)
      requires 0 <= width && 0 <= height
      requires table.Valid() && table.random != random && ProductsKnown(table.Value())
      ensures Valid() && TableReady() && this.width == width && this.height == height
      ensures elementTable == table && this.random == random
      ensures iteration == -1 && sources == map[] && lastDirtyIndex == 0
      ensures forall x, y :: InBounds(x, y) ==> cells[x, y] == Vacant
    {
      this.width, this.height := width, height;
      this.random, elementTable := random, table;
      lastDirtyIndex := 0;
      cells := new Particle[0, 0];
      leftNeighbors, rightNeighbors := new int[0, 0], new int[0, 0];
      dirtyPixels := new int[0];
      new;
      Clear();
    }

    /**
     * `clear()`: no sources, every cell empty with zero age and stamps,
     * every row's index cleared, a zeroed redraw ring, and the tick counter
     * back to -1; the ring position is kept.
     */
    method Clear()
      requires 0 <= width && 0 <= height && 0 <= lastDirtyIndex
      requires lastDirtyIndex < width * height || lastDirtyIndex == 0
      modifies this
      ensures Valid() && iteration == -1 && sources == map[]
      ensures lastDirtyIndex == old(lastDirtyIndex)
      ensures fresh(cells) && fresh(leftNeighbors) && fresh(rightNeighbors) && fresh(dirtyPixels)
      ensures forall x, y :: InBounds(x, y) ==> cells[x, y] == Vacant
      ensures forall y :: 0 <= y < height ==> LeftRow(y) == ClearedLeft(width) && RightRow(y) == ClearedRight(width)
      ensures forall i :: 0 <= i < dirtyPixels.Length ==> dirtyPixels[i] == 0
    {
      var grid := new Particle[width, height]((x, y) => Vacant);
      var left, right := EmptyLinks(width, height);
      var ring := new int[width * height](i => 0);
      sources, cells, leftNeighbors, rightNeighbors, iteration, dirtyPixels := map[], grid, left, right, -1, ring;
      forall y | 0 <= y < height
        ensures Sound(LeftRow(y), RightRow(y), OccRow(y))
      {
        assert OccRow(y) == NoParticles(width);
        ClearedExact(width);
        ExactIsSound(ClearedLeft(width), ClearedRight(width), NoParticles(width));
      }
    }

    /** The loops of `clear()` over fresh arrays: every left pointer -1, every right pointer `width`. */
    static method EmptyLinks(width: nat, height: nat) returns (left: array2<int>, right: array2<int>)
      ensures fresh(left) && fresh(right) && left != right
      ensures left.Length0 == width && left.Length1 == height && right.Length0 == width && right.Length1 == height
      ensures forall y :: 0 <= y < height ==> RowOf(left, y) == ClearedLeft(width) && RowOf(right, y) == ClearedRight(width)
    {
      left := new int[width, height];
      right := new int[width, height];
      for x := 0 to width
        invariant forall c, r :: 0 <= c < x && 0 <= r < height ==> left[c, r] == -1 && right[c, r] == width
      {
        for y := 0 to height
          invariant forall c, r :: 0 <= c < x && 0 <= r < height ==> left[c, r] == -1 && right[c, r] == width
          invariant forall r :: 0 <= r < y ==> left[x, r] == -1 && right[x, r] == width
        {
          left[x, y] := -1;
          right[x, y] := width;
        }
      }
      forall y | 0 <= y < height
        ensures RowOf(left, y) == ClearedLeft(width) && RowOf(right, y) == ClearedRight(width)
      {
      }
    }

    /**
     * The re-splice loops of `setParticle` for column `x` of row `y`, after
     * the element there has been replaced: `put` when a particle was put down.
     */
    method Resplice(x: int, y: int, put: bool)
      requires Sized() && InBounds(x, y)
      requires -1 <= leftNeighbors[x, y] < x < rightNeighbors[x, y] <= width
      modifies leftNeighbors, rightNeighbors
      ensures LeftRow(y) == SplicedLeft(old(LeftRow(y)), old(RightRow(y)), x, put)
      ensures RightRow(y) == SplicedRight(old(LeftRow(y)), old(RightRow(y)), x, put)
      ensures forall c, r :: 0 <= c < width && 0 <= r < height && r != y ==>
        leftNeighbors[c, r] == old(leftNeighbors[c, r]) && rightNeighbors[c, r] == old(rightNeighbors[c, r])
    {
      ghost var left, right := LeftRow(y), RightRow(y);
      RelinkBefore(x, y, put);
      RelinkAfter(x, y, put);
      if put {
        if leftNeighbors[x, y] >= 0 {
          rightNeighbors[leftNeighbors[x, y], y] := x;
        }
        if rightNeighbors[x, y] < width {
          leftNeighbors[rightNeighbors[x, y], y] := x;
        }
      }
      assert LeftRow(y) == SplicedLeft(left, right, x, put);
      assert RightRow(y) == SplicedRight(left, right, x, put);
    }

    /**
     * The first re-splice loop: the columns between `x` and its left
     * neighbour now point right to `x`, or past it when it was emptied.
     */
    method RelinkBefore(x: int, y: int, put: bool)
      requires Sized() && InBounds(x, y)
      requires -1 <= leftNeighbors[x, y] < x < rightNeighbors[x, y] <= width
      modifies rightNeighbors
      ensures forall c, r :: 0 <= c < width && 0 <= r < height ==>
        rightNeighbors[c, r] == if r == y && leftNeighbors[x, y] < c < x then (if put then x else old(rightNeighbors[x, y]))
                                else old(rightNeighbors[c, r])
    {
      var nx := x - 1;
      while nx > leftNeighbors[x, y]
        invariant leftNeighbors[x, y] <= nx < x
        invariant forall c, r :: 0 <= c < width && 0 <= r < height ==>
          rightNeighbors[c, r] == if r == y && nx < c < x then (if put then x else old(rightNeighbors[x, y]))
                                  else old(rightNeighbors[c, r])
        decreases nx
      {
        if !put {
          rightNeighbors[nx, y] := rightNeighbors[x, y];
        } else {
          rightNeighbors[nx, y] := x;
        }
        nx := nx - 1;
      }
    }

    /**
     * The second re-splice loop: the columns between `x` and its right
     * neighbour now point left to `x`, or past it when it was emptied.
     */
    method RelinkAfter(x: int, y: int, put: bool)
      requires Sized() && InBounds(x, y)
      requires -1 <= leftNeighbors[x, y] < x < rightNeighbors[x, y] <= width
      modifies leftNeighbors
      ensures forall c, r :: 0 <= c < width && 0 <= r < height ==>
        leftNeighbors[c, r] == if r == y && x < c < rightNeighbors[x, y] then (if put then x else old(leftNeighbors[x, y]))
                               else old(leftNeighbors[c, r])
    {
      var nx := x + 1;
      while nx < rightNeighbors[x, y]
        invariant x < nx <= rightNeighbors[x, y]
        invariant forall c, r :: 0 <= c < width && 0 <= r < height ==>
          leftNeighbors[c, r] == if r == y && x < c < nx then (if put then x else old(leftNeighbors[x, y]))
                                 else old(leftNeighbors[c, r])
        decreases width - nx
      {
        if !put {
          leftNeighbors[nx, y] := leftNeighbors[x, y];
        } else {
          leftNeighbors[nx, y] := x;
        }
        nx := nx + 1;
      }
    }

    /** A row that a step of `setParticle` did not touch keeps its index and its particles. */
    twostate lemma RowUnchanged(r: int)
      requires old(Sized()) && Sized() && old(cells) == cells && old(leftNeighbors) == leftNeighbors && old(rightNeighbors) == rightNeighbors
      requires 0 <= r < height
      requires forall c :: 0 <= c < width ==>
        cells[c, r] == old(cells[c, r]) && leftNeighbors[c, r] == old(leftNeighbors[c, r]) && rightNeighbors[c, r] == old(rightNeighbors[c, r])
      requires old(Sound(LeftRow(r), RightRow(r), OccRow(r)))
      ensures Sound(LeftRow(r), RightRow(r), OccRow(r))
    {
      assert LeftRow(r) == old(LeftRow(r)) && RightRow(r) == old(RightRow(r)) && OccRow(r) == old(OccRow(r));
    }

    /**
     * The part of `setParticle` that replaces a different element: the new
     * particle starts at age 0, stamped set and changed, and the row's
     * occupancy index is re-spliced around it.
     */
    method Replace(x: int, y: int, e: Option<nat>)
      requires Sized() && Indexed() && Known() && InBounds(x, y) && e != cells[x, y].element
      requires e.Some? ==> e.value < elementTable.elements.Length
      modifies cells, leftNeighbors, rightNeighbors
      ensures Indexed() && Known()
      ensures forall c, r :: InBounds(c, r) ==>
        cells[c, r] == if c == x && r == y then Stamped(old(cells[c, r]), e, iteration) else old(cells[c, r])
      ensures forall c, r :: InBounds(c, r) && r != y ==>
        leftNeighbors[c, r] == old(leftNeighbors[c, r]) && rightNeighbors[c, r] == old(rightNeighbors[c, r])
      ensures LeftRow(y) == SplicedLeft(old(LeftRow(y)), old(RightRow(y)), x, e.Some?)
      ensures RightRow(y) == SplicedRight(old(LeftRow(y)), old(RightRow(y)), x, e.Some?)
    {
      ghost var left, right, occ := LeftRow(y), RightRow(y), OccRow(y);
      cells[x, y] := Particle(e, 0, iteration, iteration, cells[x, y].lastFloated);
      Resplice(x, y, e.Some?);
      forall r | 0 <= r < height
        ensures Sound(LeftRow(r), RightRow(r), OccRow(r))
      {
        if r == y {
          SpliceSound(left, right, occ, x, e.Some?);
          assert OccRow(y) == occ[x := e.Some?];
        } else {
          RowUnchanged(r);
        }
      }
    }

    /** The part of `setParticle` that finds the same element in place: the cell is only stamped set. */
    method Restamp(x: int, y: int)
      requires Sized() && Indexed() && Known() && InBounds(x, y)
      modifies cells
      ensures Indexed() && Known()
      ensures forall c, r :: InBounds(c, r) ==>
        cells[c, r] == if c == x && r == y then old(cells[c, r]).(lastSet := iteration) else old(cells[c, r])
    {
      ghost var occ := OccRow(y);
      cells[x, y] := cells[x, y].(lastSet := iteration);
      assert OccRow(y) == occ;
      forall r | 0 <= r < height
        ensures Sound(LeftRow(r), RightRow(r), OccRow(r))
      {
        assert OccRow(r) == old(OccRow(r));
      }
    }

    /** Queues cell `(x, y)` for redrawing in the ring `dirtyPixels`. */
    method MarkDirty(x: int, y: int)
      requires Sized() && InBounds(x, y)
      modifies dirtyPixels, this`lastDirtyIndex
      ensures Sized()
      ensures 0 <= old(lastDirtyIndex) < dirtyPixels.Length && 0 <= y * width + x < dirtyPixels.Length
      ensures dirtyPixels[..] == old(dirtyPixels[..])[old(lastDirtyIndex) := y * width + x]
      ensures lastDirtyIndex == (old(lastDirtyIndex) + 1) % dirtyPixels.Length
    {
      CellIndexInRange(x, y, width, height);
      dirtyPixels[lastDirtyIndex] := y * width + x;
      lastDirtyIndex := (lastDirtyIndex + 1) % dirtyPixels.Length;
    }

    /**
     * `setParticle(x, y, e)`: outside the box nothing happens. Inside, the
     * cell is stamped set; a different element also resets the age, stamps
     * the cell changed, queues it for redrawing unless it already changed
     * this tick, and re-splices the row's occupancy index.
     */
    method SetParticle(x: int, y: int, e: Option<nat>)
      requires Valid() && (e.Some? ==> e.value < elementTable.elements.Length)
      modifies cells, leftNeighbors, rightNeighbors, dirtyPixels, this`lastDirtyIndex
      ensures Valid() && StampsChanges()
      ensures forall c, r :: InBounds(c, r) ==>
        cells[c, r] == if c == x && r == y then Stamped(old(cells[c, r]), e, iteration) else old(cells[c, r])
      ensures forall c, r :: InBounds(c, r) && r != y ==>
        leftNeighbors[c, r] == old(leftNeighbors[c, r]) && rightNeighbors[c, r] == old(rightNeighbors[c, r])
      ensures InBounds(x, y) && e != old(cells[x, y].element) ==>
        LeftRow(y) == SplicedLeft(old(LeftRow(y)), old(RightRow(y)), x, e.Some?) &&
        RightRow(y) == SplicedRight(old(LeftRow(y)), old(RightRow(y)), x, e.Some?)
      ensures InBounds(x, y) && e == old(cells[x, y].element) ==> LeftRow(y) == old(LeftRow(y)) && RightRow(y) == old(RightRow(y))
      ensures !InBounds(x, y) ==> unchanged(leftNeighbors, rightNeighbors)
      ensures var queued := InBounds(x, y) && e != old(cells[x, y].element) && old(cells[x, y].lastChange) != iteration;
        (queued ==> (0 <= old(lastDirtyIndex) < dirtyPixels.Length && 0 <= y * width + x < dirtyPixels.Length &&
                     dirtyPixels[..] == old(dirtyPixels[..])[old(lastDirtyIndex) := y * width + x] &&
                     lastDirtyIndex == (old(lastDirtyIndex) + 1) % dirtyPixels.Length)) &&
        (!queued ==> dirtyPixels[..] == old(dirtyPixels[..]) && lastDirtyIndex == old(lastDirtyIndex))
    {
      if !InBounds(x, y) {
        return;
      }
      var p := cells[x, y];
      if e == p.element {
        Restamp(x, y);
        return;
      }
      if p.lastChange != iteration {
        MarkDirty(x, y);
      }
      Replace(x, y, e);
    }

    // Sources.

    /** `addSource(element, x, y)`: a null element removes the point's source; a point outside the box is ignored. */
    method AddSource(e: Option<nat>, x: int, y: int)
      requires Valid() && (e.Some? ==> e.value < elementTable.elements.Length)
      modifies this`sources
      ensures Valid()
      ensures e.None? ==> sources == old(sources) - {Point(x, y)}
      ensures e.Some? && InBounds(x, y) ==> sources == old(sources)[Point(x, y) := e.value]
      ensures e.Some? && !InBounds(x, y) ==> sources == old(sources)
    {
      if e.None? {
        RemoveSource(x, y);
        return;
      }
      if 0 <= x && 0 <= y && x < width && y < height {
        sources := sources[Point(x, y) := e.value];
      }
    }

    /** `removeSource(x, y)`: the point no longer has a source. */
    method RemoveSource(x: int, y: int)
      requires Valid()
      modifies this`sources
      ensures Valid()
      ensures sources == old(sources) - {Point(x, y)}
      ensures Point(x, y) !in sources && forall p :: p != Point(x, y) ==> (p in sources <==> p in old(sources))
    {
      sources := sources - {Point(x, y)};
    }

    /** `getSources()`: one entry per source, with its point and element, in the map's iteration order. */
    method GetSources() returns (r: seq<Source>)
      ensures |r| == |sources|
      ensures forall i :: 0 <= i < |r| ==> Point(r[i].x, r[i].y) in sources && sources[Point(r[i].x, r[i].y)] == r[i].element
      ensures forall i, j :: 0 <= i < j < |r| ==> Point(r[i].x, r[i].y) != Point(r[j].x, r[j].y)
    {
      r := [];
      var left := sources.Keys;
      while left != {}
        invariant left <= sources.Keys
        invariant |r| + |left| == |sources|
        invariant forall i :: 0 <= i < |r| ==>
          Point(r[i].x, r[i].y) in sources.Keys - left && sources[Point(r[i].x, r[i].y)] == r[i].element
        invariant forall i, j :: 0 <= i < j < |r| ==> Point(r[i].x, r[i].y) != Point(r[j].x, r[j].y)
        decreases |left|
      {
        var p :| p in left;
        r := r + [Source(p.x, p.y, sources[p])];
        left := left - {p};
      }
    }

    // Reading cells.

    /** `effectiveDensity(x, y)`: the density of the element there; nothing, in or out of the box, weighs 0. */
    function EffectiveDensity(x: int, y: int): (d: real)
      reads this, cells, elementTable, elementTable.elements
      requires Sized() && Known()
      ensures !InBounds(x, y) || cells[x, y].element.None? ==> d == 0.0
      ensures InBounds(x, y) && cells[x, y].element.Some? ==> d == Density(elementTable.elements[cells[x, y].element.value])
    {
      if x < 0 || y < 0 || x >= width || y >= height || cells[x, y].element.None? then 0.0
      else Density(elementTable.elements[cells[x, y].element.value])
    }

    /**
     * `isMobile(x, y)`: outside the box and empty cells give way; a particle
     * gives way when its element is mobile and it has not been set this tick.
     */
    function IsMobile(x: int, y: int): (b: bool)
      reads this, cells, elementTable, elementTable.elements
      requires Sized() && Known()
      ensures !InBounds(x, y) || cells[x, y].element.None? ==> b
      ensures InBounds(x, y) && cells[x, y].lastSet == iteration && cells[x, y].element.Some? ==> !b
      ensures InBounds(x, y) && cells[x, y].element.Some? ==>
        (b <==> cells[x, y].lastSet != iteration && elementTable.elements[cells[x, y].element.value].mobile)
    {
      if x < 0 || y < 0 || x >= width || y >= height || cells[x, y].element.None? then true
      else cells[x, y].lastSet != iteration && elementTable.elements[cells[x, y].element.value].mobile
    }

    // Moving particles.

    /**
     * `swap(x1, y1, x2, y2)`: the two cells exchange elements and ages, both
     * stamped set by `setParticle`; when one end lies outside the box the
     * other is emptied, so particles leave the box at its edges.
     */
    method Swap(x1: int, y1: int, x2: int, y2: int)
      requires Valid()
      modifies cells, leftNeighbors, rightNeighbors, dirtyPixels, this`lastDirtyIndex
      ensures Valid() && StampsChanges()
      ensures !InBounds(x1, y1) ==> forall c, r :: InBounds(c, r) ==>
        cells[c, r] == if c == x2 && r == y2 then Stamped(old(cells[c, r]), None, iteration) else old(cells[c, r])
      ensures InBounds(x1, y1) && !InBounds(x2, y2) ==> forall c, r :: InBounds(c, r) ==>
        cells[c, r] == if c == x1 && r == y1 then Stamped(old(cells[c, r]), None, iteration) else old(cells[c, r])
      ensures InBounds(x1, y1) && InBounds(x2, y2) ==>
        cells[x1, y1] == Stamped(old(cells[x1, y1]), old(cells[x2, y2].element), iteration).(age := old(cells[x2, y2].age)) &&
        cells[x2, y2] == Stamped(old(cells[x2, y2]), old(cells[x1, y1].element), iteration).(age := old(cells[x1, y1].age)) &&
        forall c, r :: InBounds(c, r) && (c != x1 || r != y1) && (c != x2 || r != y2) ==> cells[c, r] == old(cells[c, r])
    {
      if x1 < 0 || y1 < 0 || x1 >= width || y1 >= height {
        SetParticle(x2, y2, None);
        return;
      }
      if x2 < 0 || y2 < 0 || x2 >= width || y2 >= height {
        SetParticle(x1, y1, None);
        return;
      }
      var l1 := cells[x1, y1].age;
      var l2 := cells[x2, y2].age;
      var e := cells[x1, y1].element;
      SetParticle(x1, y1, cells[x2, y2].element);
      SetParticle(x2, y2, e);
      SetAge(x1, y1, l2);
      SetAge(x2, y2, l1);
    }

    /** `ages[x][y] = age`. */
    method SetAge(x: int, y: int, age: int)
      requires Valid() && InBounds(x, y)
      modifies cells
      ensures Valid() && StampsChanges()
      ensures forall c, r :: InBounds(c, r) ==> cells[c, r] == if c == x && r == y then old(cells[c, r]).(age := age) else old(cells[c, r])
    {
      ghost var occ := OccRow(y);
      cells[x, y] := cells[x, y].(age := age);
      assert OccRow(y) == occ;
      forall r | 0 <= r < height
        ensures Sound(LeftRow(r), RightRow(r), OccRow(r))
      {
        assert OccRow(r) == old(OccRow(r));
      }
    }

    // The tick.

    /**
     * From the state before to the state now, within one tick: every cell
     * whose element changed was stamped set and changed, and a cell stamped
     * in this tick stays stamped.
     */
    twostate predicate StampsChanges()
      reads this`cells, this`iteration, cells
    {
      old(cells) == cells && old(iteration) == iteration &&
      forall c, r :: 0 <= c < cells.Length0 && 0 <= r < cells.Length1 ==>
        (old(cells[c, r].lastSet) == iteration ==> cells[c, r].lastSet == iteration) &&
        (old(cells[c, r].lastChange) == iteration ==> cells[c, r].lastChange == iteration) &&
        (cells[c, r].element != old(cells[c, r].element) ==> cells[c, r].lastSet == iteration && cells[c, r].lastChange == iteration)
    }

    /** The element a cell holds once the sources have been re-asserted. */
    function Sourced(c: int, r: int): Option<nat>
      reads this`cells, this`sources, cells
      requires 0 <= c < cells.Length0 && 0 <= r < cells.Length1
    {
      if Point(c, r) in sources then Some(sources[Point(c, r)]) else cells[c, r].element
    }

    /**
     * `update()`: the sources are re-asserted, the tick counter goes up by
     * one, and then every row is scanned once. Every cell whose element
     * differs from the one the sources left there has been set and changed
     * in the new tick, and the occupancy index is still sound.
     */
    method Update(rng: Random)
      requires Valid() && TableReady() && rng != random && rng != elementTable.random
      modifies this`iteration, this`lastDirtyIndex, cells, leftNeighbors, rightNeighbors, dirtyPixels
      modifies random, elementTable.random, rng
      ensures Valid() && iteration == old(iteration) + 1
      ensures forall c, r :: InBounds(c, r) && cells[c, r].element != old(Sourced(c, r)) ==>
        cells[c, r].lastSet == iteration && cells[c, r].lastChange == iteration
    {
      Reassert();
      iteration := iteration + 1;
      label Ticked:
      for y := 0 to height
        invariant Valid() && StampsChanges@Ticked()
      {
        ScanRow(y, rng);
      }
    }

    /** The first loop of `update()`: `setParticle` at every source, with its element. */
    method Reassert()
      requires Valid()
      modifies cells, leftNeighbors, rightNeighbors, dirtyPixels, this`lastDirtyIndex
      ensures Valid()
      ensures forall c, r :: InBounds(c, r) ==>
        cells[c, r] == if Point(c, r) in sources then Stamped(old(cells[c, r]), Some(sources[Point(c, r)]), iteration)
                       else old(cells[c, r])
      ensures forall c, r :: InBounds(c, r) ==> cells[c, r].element == old(Sourced(c, r))
    {
      var todo := sources.Keys;
      while todo != {}
        invariant todo <= sources.Keys && Valid()
        invariant forall c, r :: InBounds(c, r) ==>
          cells[c, r] == if Point(c, r) in sources && Point(c, r) !in todo
                         then Stamped(old(cells[c, r]), Some(sources[Point(c, r)]), iteration)
                         else old(cells[c, r])
        decreases |todo|
      {
        var p :| p in todo;
        SetParticle(p.x, p.y, Some(sources[p]));
        todo := todo - {p};
      }
    }

    /**
     * One row of `update()`: a coin picks the direction, and the walk goes
     * from the first column along the right pointers, or from the last one
     * along the left pointers, stepping each column it lands on. The walk
     * ends because every pointer of a sound index points away from its column.
     */
    method ScanRow(y: int, rng: Random)
      requires Valid() && TableReady() && 0 <= y < height && rng != random && rng != elementTable.random
      modifies this`lastDirtyIndex, cells, leftNeighbors, rightNeighbors, dirtyPixels, random, elementTable.random, rng
      ensures Valid() && StampsChanges()
    {
      var leftward := random.NextBoolean();
      var x := if leftward then width - 1 else 0;
      while 0 <= x < width
        invariant Valid() && StampsChanges()
        decreases if leftward then x + 1 else width - x
      {
        Step(x, y, rng);
        assert Sound(LeftRow(y), RightRow(y), OccRow(y));
        assert LeftRow(y)[x] == leftNeighbors[x, y] && RightRow(y)[x] == rightNeighbors[x, y];
        x := if leftward then leftNeighbors[x, y] else rightNeighbors[x, y];
      }
    }

    /**
     * The body of `update()`'s walk for column `x` of row `y`. An empty cell,
     * or a particle already set in this tick, is left alone and draws nothing.
     */
    method Step(x: int, y: int, rng: Random)
      requires Valid() && TableReady() && InBounds(x, y) && rng != random && rng != elementTable.random
      modifies this`lastDirtyIndex, cells, leftNeighbors, rightNeighbors, dirtyPixels, random, elementTable.random, rng
      ensures Valid() && StampsChanges()
      ensures old(cells[x, y].element.None? || cells[x, y].lastSet == iteration) ==>
        unchanged(cells, leftNeighbors, rightNeighbors, dirtyPixels, random, elementTable.random, rng) &&
        lastDirtyIndex == old(lastDirtyIndex)
    {
      var p := cells[x, y];
      if p.element.None? {
        return;
      }
      var o := p.element.value;
      var e := elementTable.elements[o];
      if e.transmutationCount > 0 && cells[x, y].lastSet != iteration {
        Transmute(x, y, o, rng);
      }
      var gone := Decay(x, y, o, rng);
      if gone {
        return;
      }
      if !e.mobile || cells[x, y].lastSet == iteration {
        return;
      }
      Slide(x, y, o);
      Settle(x, y, o);
    }

    /**
     * The transmutation pass for a particle of element `o` at `(x, y)`: each
     * of the eight neighbours is offered to the table's rule for the pair.
     */
    method Transmute(x: int, y: int, o: nat, rng: Random)
      requires Valid() && TableReady() && InBounds(x, y) && o < elementTable.elements.Length
      requires rng != random && rng != elementTable.random
      modifies this`lastDirtyIndex, cells, leftNeighbors, rightNeighbors, dirtyPixels, elementTable.random, rng
      ensures Valid() && StampsChanges() && cells[x, y] == old(cells[x, y])
      ensures forall c, r :: InBounds(c, r) && !(x - 1 <= c <= x + 1 && y - 1 <= r <= y + 1) ==> cells[c, r] == old(cells[c, r])
    {
      for xo := -1 to 2
        invariant Valid() && StampsChanges() && cells[x, y] == old(cells[x, y])
        invariant forall c, r :: InBounds(c, r) && !(x - 1 <= c <= x + 1 && y - 1 <= r <= y + 1) ==> cells[c, r] == old(cells[c, r])
      {
        for yo := -1 to 2
          invariant Valid() && StampsChanges() && cells[x, y] == old(cells[x, y])
          invariant forall c, r :: InBounds(c, r) && !(x - 1 <= c <= x + 1 && y - 1 <= r <= y + 1) ==> cells[c, r] == old(cells[c, r])
        {
          if xo != 0 || yo != 0 {
            Offer(x + xo, y + yo, o, rng);
          }
        }
      }
    }

    /**
     * One neighbour of the transmutation pass: a particle of element `t` at
     * `(nx, ny)` that was not set in this tick meets the rule for
     * `(o, t)`, and is replaced when the rule yields something else. Nothing
     * happens outside the box, on an empty cell or on a particle set in this tick.
     */
    method Offer(nx: int, ny: int, o: nat, rng: Random)
      requires Valid() && TableReady() && o < elementTable.elements.Length
      requires rng != random && rng != elementTable.random
      modifies this`lastDirtyIndex, cells, leftNeighbors, rightNeighbors, dirtyPixels, elementTable.random, rng
      ensures Valid() && StampsChanges()
      ensures forall c, r :: InBounds(c, r) && (c != nx || r != ny) ==> cells[c, r] == old(cells[c, r])
      ensures !InBounds(nx, ny) || old(cells[nx, ny].element.None? || cells[nx, ny].lastSet == iteration) ==>
        unchanged(cells, elementTable.random, rng)
    {
      if 0 <= nx < width && 0 <= ny < height && cells[nx, ny].element.Some? && cells[nx, ny].lastSet != iteration {
        var _ := Meet(nx, ny, o, cells[nx, ny].element.value, rng);
      }
    }

    /**
     * The rule for `(o, t)` applied to the particle of element `t` at
     * `(nx, ny)`: the outcome `r` of `maybeTransmutate`, set in place of the
     * particle when it differs from it.
     */
    method Meet(nx: int, ny: int, o: nat, t: nat, rng: Random) returns (r: Option<nat>)
      requires Valid() && TableReady() && InBounds(nx, ny) && o < elementTable.elements.Length
      requires cells[nx, ny].element == Some(t) && rng != random && rng != elementTable.random
      modifies this`lastDirtyIndex, cells, leftNeighbors, rightNeighbors, dirtyPixels, elementTable.random, rng
      ensures Valid() && StampsChanges()
      ensures forall c, r :: InBounds(c, r) && (c != nx || r != ny) ==> cells[c, r] == old(cells[c, r])
      ensures elementTable.rules[o, t].Some? && elementTable.rules[o, t].value.product.Some? ==>
        elementTable.rules[o, t].value.product.value.WellFormed()
      ensures r == Transmuted(elementTable.rules[o, t], t, old(elementTable.random.Peek()), old(rng.Peek()))
      ensures cells[nx, ny] == if r == Some(t) then old(cells[nx, ny]) else Stamped(old(cells[nx, ny]), r, iteration)
    {
      r := elementTable.MaybeTransmutate(o, t, rng);
      KnownProduct(o, t, r);
      assert unchanged(this, cells);
      Become(nx, ny, r);
    }

    /** The cell at `(x, y)` takes the element `e` through `setParticle`, unless it already holds it. */
    method Become(x: int, y: int, e: Option<nat>)
      requires Valid() && InBounds(x, y) && (e.Some? ==> e.value < elementTable.elements.Length)
      modifies cells, leftNeighbors, rightNeighbors, dirtyPixels, this`lastDirtyIndex
      ensures Valid() && StampsChanges()
      ensures forall c, r :: InBounds(c, r) && (c != x || r != y) ==> cells[c, r] == old(cells[c, r])
      ensures cells[x, y] == if e == old(cells[x, y].element) then old(cells[x, y]) else Stamped(old(cells[x, y]), e, iteration)
    {
      if e != cells[x, y].element {
        SetParticle(x, y, e);
      }
    }

    /** What a rule of the table yields is an element of the table, the target itself, or nothing. */
    lemma KnownProduct(o: nat, t: nat, r: Option<nat>)
      requires TableReady() && o < elementTable.elements.Length && t < elementTable.elements.Length
      requires elementTable.rules[o, t].None? ==> r == Some(t)
      requires elementTable.rules[o, t].Some? ==>
        var rule := elementTable.rules[o, t].value;
        r == Some(t) || r == None || (rule.product.Some? && r in rule.product.value.products)
      ensures r.Some? ==> r.value < elementTable.elements.Length
    {
      assert elementTable.Value().rules[o][t] == elementTable.rules[o, t];
    }

    /**
     * The decay pass: unless the particle was set in this tick, a positive
     * decay probability draws, and a draw below it ages the particle by one;
     * past its lifetime the particle expires, and the pass reports that it is gone.
     */
    method Decay(x: int, y: int, o: nat, rng: Random) returns (gone: bool)
      requires Valid() && TableReady() && InBounds(x, y) && cells[x, y].element == Some(o) && rng != random
      modifies this`lastDirtyIndex, cells, leftNeighbors, rightNeighbors, dirtyPixels, random, rng
      ensures Valid() && StampsChanges()
      ensures old(cells[x, y].lastSet) == iteration ==>
        !gone && unchanged(cells, leftNeighbors, rightNeighbors, dirtyPixels, random, rng) && lastDirtyIndex == old(lastDirtyIndex)
      ensures !gone ==> cells[x, y].element == Some(o) && cells[x, y].lastSet == old(cells[x, y].lastSet)
      ensures gone ==> cells[x, y].lastSet == iteration && old(cells[x, y].age) + 1 > elementTable.elements[o].lifetime
    {
      var e := elementTable.elements[o];
      if cells[x, y].lastSet != iteration && Below(0.0, e.decayProbability) {
        var f := random.NextFloat();
        if Below(f, e.decayProbability) {
          SetAge(x, y, cells[x, y].age + 1);
          if cells[x, y].age > e.lifetime {
            Expire(x, y, o, rng);
            return true;
          }
        }
      }
      return false;
    }

    /**
     * The end of a particle's life: it becomes a pick of its element's decay
     * products, or nothing when the element has none.
     */
    method Expire(x: int, y: int, o: nat, rng: Random)
      requires Valid() && TableReady() && InBounds(x, y) && o < elementTable.elements.Length && rng != random
      modifies this`lastDirtyIndex, cells, leftNeighbors, rightNeighbors, dirtyPixels, rng
      ensures Valid() && StampsChanges()
      ensures cells[x, y] == Stamped(old(cells[x, y]), cells[x, y].element, iteration)
      ensures var e := elementTable.elements[o];
        if e.decayProducts.None? then cells[x, y].element.None?
        else cells[x, y].element == None || cells[x, y].element in e.decayProducts.value.products
      ensures var e := elementTable.elements[o];
        e.decayProducts.Some? && |e.decayProducts.value.products| >= 1 ==> cells[x, y].element in e.decayProducts.value.products
      ensures var e := elementTable.elements[o];
        e.decayProducts.Some? ==>
          e.decayProducts.value.WellFormed() &&
          cells[x, y].element == e.decayProducts.value.Picked(old(rng.Peek())) &&
          rng.drawn == old(rng.drawn) + e.decayProducts.value.DrawsTaken()
      ensures elementTable.elements[o].decayProducts.None? ==> rng.drawn == old(rng.drawn)
      ensures forall c, r :: InBounds(c, r) && (c != x || r != y) ==> cells[c, r] == old(cells[c, r])
    {
      var e := elementTable.elements[o];
      var product := None;
      if e.decayProducts.Some? {
        KnownDecayProducts(o);
        product := e.decayProducts.value.PickProduct(rng);
      }
      SetParticle(x, y, product);
    }

    /** Each of an element's decay products is an element of the table, or nothing. */
    lemma KnownDecayProducts(o: nat)
      requires TableReady() && o < elementTable.elements.Length
      requires elementTable.elements[o].decayProducts.Some?
      ensures elementTable.elements[o].decayProducts.value.WellFormed()
      ensures forall r :: r in elementTable.elements[o].decayProducts.value.products && r.Some? ==>
        r.value < elementTable.elements.Length
    {
      assert elementTable.Value().elements[o] == elementTable.elements[o];
    }

    /**
     * The coin that decides a move against another particle: free (the cell
     * is empty, weighing 0) always goes and draws nothing; otherwise one
     * draw goes when it falls below the difference of densities.
     */
    method Chance(free: bool, difference: real) returns (go: bool)
      modifies random
      ensures free ==> go && random.drawn == old(random.drawn)
      ensures !free ==> go == (old(random.Peek()) < difference) && random.drawn == old(random.drawn) + 1
    {
      go := free;
      if !go {
        var g := random.NextFloat();
        go := g < difference;
      }
    }

    /**
     * The horizontal move: a draw below the viscosity picks a side by a coin.
     * A sinking particle (positive density) slides only when the cell below
     * blocks it, a floating one (negative density) only when the cell above does.
     */
    method Slide(x: int, y: int, o: nat)
      requires Valid() && InBounds(x, y) && o < elementTable.elements.Length
      modifies this`lastDirtyIndex, cells, leftNeighbors, rightNeighbors, dirtyPixels, random
      ensures Valid() && StampsChanges()
    {
      var e := elementTable.elements[o];
      var f := random.NextFloat();
      if Below(f, e.viscosity) {
        var coin := random.NextBoolean();
        var nx := if coin then x + 1 else x - 1;
        var d := Density(e);
        if d > 0.0 {
          if y - 1 >= 0 && (!IsMobile(x, y - 1) || d <= EffectiveDensity(x, y - 1)) {
            SlideBeside(x, y, nx, d);
          }
        } else if d < 0.0 {
          if y + 1 < height && (!IsMobile(x, y + 1) || d >= EffectiveDensity(x, y + 1)) {
            SlideBeside(x, y, nx, d);
          }
        }
      }
    }

    /**
     * The sideways swap: the cell beside must give way and be lighter than
     * a sinking particle (heavier than a floating one); unless it is empty,
     * a draw below the difference of densities decides.
     */
    method SlideBeside(x: int, y: int, nx: int, d: real)
      requires Valid() && InBounds(x, y)
      modifies this`lastDirtyIndex, cells, leftNeighbors, rightNeighbors, dirtyPixels, random
      ensures Valid() && StampsChanges()
    {
      var nd := EffectiveDensity(nx, y);
      if IsMobile(nx, y) && (if d > 0.0 then d > nd else d < nd) {
        var go := Chance(nd == 0.0, if d > 0.0 then d - nd else nd - d);
        if go {
          Swap(x, y, nx, y);
        }
      }
    }

    /**
     * The vertical move: a particle heavier than what lies below (nothing,
     * and the outside of the box, weigh 0) sinks into it, marking its old
     * cell as floated; otherwise, unless its cell was just floated, a
     * particle lighter than what lies above rises into it and marks that
     * cell. Against a particle, a draw below the difference of densities
     * decides.
     */
    method Settle(x: int, y: int, o: nat)
      requires Valid() && InBounds(x, y) && o < elementTable.elements.Length
      modifies this`lastDirtyIndex, cells, leftNeighbors, rightNeighbors, dirtyPixels, random
      ensures Valid() && StampsChanges()
    {
      var d := Density(elementTable.elements[o]);
      var nd := EffectiveDensity(x, y - 1);
      if IsMobile(x, y - 1) && d > nd {
        var go := Chance(nd == 0.0, d - nd);
        if go {
          Swap(x, y, x, y - 1);
          MarkFloated(x, y);
        }
      } else {
        nd := EffectiveDensity(x, y + 1);
        if cells[x, y].lastFloated != iteration && IsMobile(x, y + 1) && d < nd {
          var go := Chance(nd == 0.0, nd - d);
          if go {
            Swap(x, y, x, y + 1);
            if y + 1 < height {
              MarkFloated(x, y + 1);
            }
          }
        }
      }
    }

    /** `lastFloated[x][y] = iteration`. */
    method MarkFloated(x: int, y: int)
      requires Valid() && InBounds(x, y)
      modifies cells
      ensures Valid() && StampsChanges()
      ensures forall c, r :: InBounds(c, r) ==>
        cells[c, r] == if c == x && r == y then old(cells[c, r]).(lastFloated := iteration) else old(cells[c, r])
    {
      ghost var occ := OccRow(y);
      cells[x, y] := cells[x, y].(lastFloated := iteration);
      assert OccRow(y) == occ;
      forall r | 0 <= r < height
        ensures Sound(LeftRow(r), RightRow(r), OccRow(r))
      {
        assert OccRow(r) == old(OccRow(r));
      }
    }
  }
}

