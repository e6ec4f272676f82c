/**
 * The shared base of the sandbox classes: the per-cell state, the source
 * map and the tick counter, reset by `clear`. The map can be null in a
 * subclass that reaches `removeSource` before `clear` has run; `None`
 * models that null.
 */
module BaseEngine {
  import opened Wrappers
  import opened JavaData
  import opened SandState

  class BaseSandBox {
    const width: nat
    const height: nat
    var cells: array2<Particle>
    var pixels: array<int>
    var sources: Option<map<Point, nat>>
    var iteration: int

    predicate InBounds(x: int, y: int) {
      0 <= x < width && 0 <= y < height
    }

    /** The arrays have the box's dimensions. */
    predicate Sized()
      reads this
    {
      cells.Length0 == width && cells.Length1 == height && pixels.Length == width * height
    }

    /** The constructor: the dimensions, then `clear()`. */
    constructor (width: nat, height: nat)
      ensures this.width == width && this.height == height
      ensures Sized() && iteration == -1 && sources == Some(map[])
      ensures forall x, y :: InBounds(x, y) ==> cells[x, y] == Vacant
    {
      this.width, this.height := width, height;
      new;
      Clear();
    }

    /**
     * `clear()`: fresh arrays, so every cell is empty with age and stamps 0
     * and every pixel 0; the tick counter restarts at -1 and there are no sources.
     */
    method Clear()
      modifies this`cells, this`pixels, this`sources, this`iteration
      ensures Sized() && iteration == -1 && sources == Some(map[])
      ensures fresh(cells) && fresh(pixels)
      ensures forall x, y :: InBounds(x, y) ==> cells[x, y] == Vacant
      ensures forall i :: 0 <= i < pixels.Length ==> pixels[i] == 0
    {
      cells := new Particle[width, height]((x, y) => Vacant);
      pixels := new int[width * height](i => 0);
      iteration := -1;
      sources := Some(map[]);
    }

    /**
     * `addSource(element, x, y)`: a null element removes the source at the
     * point; a point outside the box is ignored; otherwise the point's
     * source becomes the element. Putting into a null map throws.
     */
    method AddSource(e: Option<nat>, x: int, y: int) returns (r: Result<(), IoError>)
      modifies this`sources
      ensures e.None? ==> r.Ok? && sources == (if old(sources).None? then None else Some(old(sources).value - {Point(x, y)}))
      ensures e.Some? && !InBounds(x, y) ==> r.Ok? && sources == old(sources)
      ensures e.Some? && InBounds(x, y) && old(sources).None? ==> r == Err(NullPointer) && sources == None
      ensures e.Some? && InBounds(x, y) && old(sources).Some? ==>
        r.Ok? && sources == Some(old(sources).value[Point(x, y) := e.value])
    {
      if e.None? {
        RemoveSource(x, y);
        return Ok(());
      }
      if x >= 0 && y >= 0 && x < width && y < height {
        if sources.None? {
          return Err(NullPointer);
        }
        sources := Some(sources.value[Point(x, y) := e.value]);
      }
      return Ok(());
    }

    /** `removeSource(x, y)`: nothing when the map is null, otherwise the point loses its source and nothing else changes. */
    method RemoveSource(x: int, y: int)
      modifies this`sources
      ensures old(sources).None? ==> sources == None
      ensures old(sources).Some? ==> sources == Some(old(sources).value - {Point(x, y)})
      ensures old(sources).Some? ==> sources.Some? && Point(x, y) !in sources.value
      ensures old(sources).Some? ==> forall p :: p != Point(x, y) ==>
        (p in sources.value <==> p in old(sources).value) && (p in sources.value ==> sources.value[p] == old(sources).value[p])
    {
      if sources.None? {
        return;
      }
      sources := Some(sources.value - {Point(x, y)});
    }

    /**
     * `getSources()`: exactly one entry per source, carrying its point and
     * element, in the map's iteration order (left open). A null map throws.
     */
    method GetSources() returns (r: Result<seq<Source>, IoError>)
      ensures sources.None? <==> r == Err(NullPointer)
      ensures r.Ok? ==> sources.Some? && |r.value| == |sources.value|
      ensures r.Ok? ==> forall i :: 0 <= i < |r.value| ==>
        Point(r.value[i].x, r.value[i].y) in sources.value && sources.value[Point(r.value[i].x, r.value[i].y)] == r.value[i].element
      ensures r.Ok? ==> forall i, j :: 0 <= i < j < |r.value| ==> Point(r.value[i].x, r.value[i].y) != Point(r.value[j].x, r.value[j].y)
    {
      if sources.None? {
        return Err(NullPointer);
      }
      var m := sources.value;
      var result: seq<Source> := [];
      var left := m.Keys;
      while left != {}
        invariant left <= m.Keys
        invariant |result| + |left| == |m|
        invariant forall i :: 0 <= i < |result| ==>
          Point(result[i].x, result[i].y) in m.Keys - left && m[Point(result[i].x, result[i].y)] == result[i].element
        invariant forall i, j :: 0 <= i < j < |result| ==> Point(result[i].x, result[i].y) != Point(result[j].x, result[j].y)
        decreases |left|
      {
        var p :| p in left;
        result := result + [Source(p.x, p.y, m[p])];
        left := left - {p};
      }
      return Ok(result);
    }
  }
}
