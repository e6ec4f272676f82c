/**
 * The state of a sand box (com.loganh.sandblaster.SandBox) as a value, and
 * the snapshot format of `SandBox.write` / `SandBox.read` on it.
 *
 * `write` emits the version tag, the element table, the dimensions, the tick
 * counter, the sources, and then each row as a walk along its right
 * pointers: the column the walk starts at, and for every column visited its
 * particle (or `-1` for an empty column the walk passes through) and the
 * pointer it follows next. Ages and tick stamps go out as 16-bit shorts,
 * the stamps relative to the tick counter. `read` rebuilds the cells from
 * that walk into a cleared box.
 */
module SandState {
  import opened Bytes
  import opened Wrappers
  import opened JavaData
  import opened Catalog
  import opened Table
  import opened Occupancy

  /** `SERIALIZATION_VERSION`, the float 1.6f, as its bit pattern. */
  const VERSION: word32 := 0x3FCC_CCCD

  /** A grid position, as `android.graphics.Point` holds it. */
  datatype Point = Point(x: int, y: int)

  /** One entry of `getSources`: a source's point and element. */
  datatype Source = Source(x: int, y: int, element: nat)

  /** What the parallel arrays hold for one cell: the element's ordinal (or none), the age and the three tick stamps. */
  datatype Particle = Particle(element: Option<nat>, age: int, lastSet: int, lastChange: int, lastFloated: int)

  /** A cell of freshly allocated arrays: no particle, and zero everywhere. */
  const Vacant := Particle(None, 0, 0, 0, 0)

  /** `rows` has `height` rows of `width` entries each. */
  predicate Grid<T>(rows: seq<seq<T>>, width: int, height: int) {
    |rows| == height && forall y :: 0 <= y < height ==> |rows[y]| == width
  }

  /** Which columns of a row hold a particle. */
  function Occupied(row: seq<Particle>): (r: seq<bool>)
    ensures |r| == |row| && forall x :: 0 <= x < |row| ==> r[x] == row[x].element.Some?
  {
    seq(|row|, x requires 0 <= x < |row| => row[x].element.Some?)
  }

  /**
   * A sand box as `write` sees it: the element table, the dimensions, the
   * tick counter, the sources, the cells row by row (`cells[y][x]` is the
   * Java `[x][y]`), and the right pointers of the occupancy index, row by row.
   */
  datatype Box = Box(table: TableValue, width: int, height: int, iteration: int,
                     sources: map<Point, nat>, cells: seq<seq<Particle>>, right: seq<seq<int>>)
  {
    /** The arrays have the box's dimensions and every right pointer points right. */
    predicate Shaped() {
      0 <= width && 0 <= height && Grid(cells, width, height) && Grid(right, width, height) &&
      forall y :: 0 <= y < height ==> PointsRight(right[y])
    }

    /** What `read` restores and `equals` compares: everything but the occupancy index. */
    function AsView(): View {
      View(table, width, height, iteration, sources, cells)
    }
  }

  /** A sand box without its occupancy index. */
  datatype View = View(table: TableValue, width: int, height: int, iteration: int,
                       sources: map<Point, nat>, cells: seq<seq<Particle>>)
  {
    /** The rule matrix is square and the cells have the box's dimensions. */
    predicate Shaped() {
      Square(table.rules, |table.elements|) && Grid(cells, width, height)
    }

    /** `sources.equals`: the same points, holding equal elements. */
    predicate SameSources(other: View) {
      |sources| == |other.sources| &&
      forall p :: p in sources ==>
        p in other.sources && SameElement(Some(sources[p]), Some(other.sources[p]), table.elements, other.table.elements)
    }

    /**
     * `SandBox.equals`: the same dimensions, equal tables, the same tick,
     * equal sources, and cell by cell the same age and stamps and equal
     * elements or none.
     */
    predicate Equals(other: View)
      requires Shaped() && other.Shaped()
    {
      width == other.width && height == other.height && table.Equals(other.table) &&
      iteration == other.iteration && SameSources(other) &&
      forall y, x :: 0 <= y < height && 0 <= x < width ==>
        SameCell(cells[y][x], other.cells[y][x], table.elements, other.table.elements)
    }

    /** `Equals`, except that the age and stamps of empty cells, which no snapshot holds, are not compared. */
    predicate SnapshotEquals(other: View)
      requires Shaped() && other.Shaped()
    {
      width == other.width && height == other.height && table.Equals(other.table) &&
      iteration == other.iteration && SameSources(other) &&
      forall y, x :: 0 <= y < height && 0 <= x < width ==>
        SameParticle(cells[y][x], other.cells[y][x], table.elements, other.table.elements)
    }
  }

  /** Both cells empty, or both holding elements that `equals` each other, each looked up in its own table. */
  predicate SameElement(a: Option<nat>, b: Option<nat>, mine: seq<Element>, theirs: seq<Element>) {
    a.Some? == b.Some? &&
    (a.Some? ==> a.value < |mine| && b.value < |theirs| && mine[a.value].Equals(theirs[b.value]))
  }

  /** The cell comparison of `SandBox.equals`. */
  predicate SameCell(p: Particle, q: Particle, mine: seq<Element>, theirs: seq<Element>) {
    p.age == q.age && p.lastSet == q.lastSet && p.lastChange == q.lastChange && p.lastFloated == q.lastFloated &&
    SameElement(p.element, q.element, mine, theirs)
  }

  /** The cell comparison a snapshot supports: age and stamps only where there is a particle. */
  predicate SameParticle(p: Particle, q: Particle, mine: seq<Element>, theirs: seq<Element>) {
    SameElement(p.element, q.element, mine, theirs) &&
    (p.element.Some? ==> p.age == q.age && p.lastSet == q.lastSet && p.lastChange == q.lastChange && p.lastFloated == q.lastFloated)
  }

  // Writing.

  /** A particle: its ordinal, age and the three stamps relative to the tick; an empty column is a `-1` byte. */
  function CellBytes(p: Particle, iteration: int): seq<byte> {
    match p.element
    case None => WriteByte(-1)
    case Some(o) =>
      WriteByte(o) + WriteShort(p.age) + WriteShort(p.lastSet - iteration) +
      WriteShort(p.lastChange - iteration) + WriteShort(p.lastFloated - iteration)
  }

  /** The walk along the right pointers from column `x`: each column's cell and the pointer followed. */
  function ChainBytes(row: seq<Particle>, right: seq<int>, iteration: int, x: int): seq<byte>
    requires |right| == |row| && PointsRight(right)
    decreases |row| - x
  {
    if x < 0 || x >= |row| then []
    else CellBytes(row[x], iteration) + WriteShort(right[x]) + ChainBytes(row, right, iteration, right[x])
  }

  /** The column a row's walk starts at: 0 when it holds a particle, its right pointer otherwise. */
  function RowStart(row: seq<Particle>, right: seq<int>): int
    requires |right| == |row| > 0
  {
    if row[0].element.None? then right[0] else 0
  }

  /** One row: the start column and the walk from it; a negative start ends the row at once. */
  function RowBytes(row: seq<Particle>, right: seq<int>, iteration: int): seq<byte>
    requires |right| == |row| > 0 && PointsRight(right)
  {
    if RowStart(row, right) < 0 then WriteShort(-1)
    else WriteShort(RowStart(row, right)) + ChainBytes(row, right, iteration, RowStart(row, right))
  }

  predicate RowsShaped(cells: seq<seq<Particle>>, right: seq<seq<int>>) {
    |cells| == |right| &&
    forall y :: 0 <= y < |cells| ==> |right[y]| == |cells[y]| > 0 && PointsRight(right[y])
  }

  /** The rows, bottom to top. */
  function RowsBytes(cells: seq<seq<Particle>>, right: seq<seq<int>>, iteration: int): seq<byte>
    requires RowsShaped(cells, right)
  {
    if cells == [] then []
    else
      RowsBytes(cells[..|cells| - 1], right[..|right| - 1], iteration) +
        RowBytes(cells[|cells| - 1], right[|right| - 1], iteration)
  }

  /** The sources in the order `getSources` lists them: x and y as shorts, then the element's ordinal. */
  function SourceBytes(order: seq<Point>, sources: map<Point, nat>): seq<byte>
    requires forall k :: 0 <= k < |order| ==> order[k] in sources
  {
    if order == [] then []
    else
      WriteShort(order[0].x) + WriteShort(order[0].y) + WriteByte(sources[order[0]]) +
        SourceBytes(order[1..], sources)
  }

  /** An iteration order of a map's keys: each key exactly once. */
  predicate IsOrder(order: seq<Point>, sources: map<Point, nat>) {
    |order| == |sources| &&
    (forall k :: 0 <= k < |order| ==> order[k] in sources) &&
    (forall p :: p in sources ==> p in order) &&
    forall i, j :: 0 <= i < j < |order| ==> order[i] != order[j]
  }

  /** What `write` emits after the dimensions: the tick, the sources and the rows. */
  function GridBytes(b: Box, order: seq<Point>): seq<byte>
    requires b.Shaped() && (0 < b.width || b.height == 0) && forall k :: 0 <= k < |order| ==> order[k] in b.sources
  {
    WriteInt(b.iteration) + WriteInt(|b.sources|) + SourceBytes(order, b.sources) + RowsBytes(b.cells, b.right, b.iteration)
  }

  /** Everything `write` emits after the element table. */
  function BodyBytes(b: Box, order: seq<Point>): seq<byte>
    requires b.Shaped() && (0 < b.width || b.height == 0) && forall k :: 0 <= k < |order| ==> order[k] in b.sources
  {
    WriteShort(b.width) + WriteShort(b.height) + GridBytes(b, order)
  }

  /**
   * `write`, with the sources in the iteration order `order` of the map.
   * A box with rows but no columns throws when the rows are reached.
   */
  function EncodeBox(b: Box, order: seq<Point>): Result<seq<byte>, IoError>
    requires b.Shaped() && forall k :: 0 <= k < |order| ==> order[k] in b.sources
  {
    var table :- b.table.Encode();
    if b.width == 0 && b.height > 0 then Err(IndexOutOfBounds)
    else Ok(WriteFloat(VERSION) + table + BodyBytes(b, order))
  }

  // Reading.

  /** `addSource(element, x, y)`: a null element removes the point's source; a point outside the box is ignored. */
  function AddSource(sources: map<Point, nat>, e: Option<nat>, x: int, y: int, width: int, height: int): map<Point, nat> {
    if e.None? then sources - {Point(x, y)}
    else if 0 <= x < width && 0 <= y < height then sources[Point(x, y) := e.value]
    else sources
  }

  /** The source loop of `read`: `k` triples, each resolved and added to `sources`. */
  function DecodeSources(s: seq<byte>, k: int, n: nat, width: int, height: int, sources: map<Point, nat>)
    : (r: Result<Got<map<Point, nat>>, IoError>)
    decreases if k < 0 then 0 else k
  {
    if k <= 0 then Ok(Got(sources, s))
    else
      var x :- ReadShort(s);
      var y :- ReadShort(x.rest);
      var b :- ReadByte(y.rest);
      DecodeSources(b.rest, k - 1, n, width, height, AddSource(sources, Resolved(b.value, n), x.value, y.value, width, height))
  }

  /** One column of a row: a particle that resolves, with its age and stamps; nothing for one that does not. */
  function ReadCell(s: seq<byte>, iteration: int, n: nat): (r: Result<Got<Option<Particle>>, IoError>)
    ensures r.Ok? ==> |r.value.rest| < |s|
  {
    var b :- ReadByte(s);
    match Resolved(b.value, n)
    case None => Ok(Got(None, b.rest))
    case Some(o) =>
      var age :- ReadShort(b.rest);
      var stamp :- ReadShort(age.rest);
      var change :- ReadShort(stamp.rest);
      var floated :- ReadShort(change.rest);
      Ok(Got(Some(Particle(Some(o), age.value, iteration + stamp.value, iteration + change.value, iteration + floated.value)),
        floated.rest))
  }

  /** The walk of `read` through a row from column `x`, until a column outside the row. */
  function DecodeChain(s: seq<byte>, x: int, row: seq<Particle>, iteration: int, n: nat)
    : (r: Result<Got<seq<Particle>>, IoError>)
    ensures r.Ok? ==> |r.value.value| == |row|
    decreases |s|
  {
    if x < 0 || x >= |row| then Ok(Got(row, s))
    else
      var cell :- ReadCell(s, iteration, n);
      var next :- ReadShort(cell.rest);
      DecodeChain(next.rest, next.value, if cell.value.Some? then row[x := cell.value.value] else row, iteration, n)
  }

  function VacantRow(width: nat): (r: seq<Particle>)
    ensures |r| == width && forall x :: 0 <= x < width ==> r[x] == Vacant
  {
    seq(width, x => Vacant)
  }

  /** One row of `read`, into a row of the cleared box. */
  function DecodeRow(s: seq<byte>, width: nat, iteration: int, n: nat): Result<Got<seq<Particle>>, IoError> {
    var x :- ReadShort(s);
    DecodeChain(x.rest, x.value, VacantRow(width), iteration, n)
  }

  function RowReader(width: nat, iteration: int, n: nat): seq<byte> -> Result<Got<seq<Particle>>, IoError> {
    s => DecodeRow(s, width, iteration, n)
  }

  /** What `read` does after the dimensions, into a cleared box of that size. */
  function DecodeGrid(s: seq<byte>, table: TableValue, width: nat, height: nat): Result<Got<View>, IoError> {
    var iteration :- ReadInt(s);
    var count :- ReadInt(iteration.rest);
    var n := |table.elements|;
    var sources :- DecodeSources(count.rest, count.value, n, width, height, map[]);
    var rows :- ReadMany(sources.rest, height, RowReader(width, iteration.value, n));
    Ok(Got(View(table, width, height, iteration.value, sources.value, rows.value), rows.rest))
  }

  /** What `read` does after the element table: a negative dimension throws when the box is allocated. */
  function DecodeBody(s: seq<byte>, table: TableValue): Result<Got<View>, IoError> {
    var width :- ReadShort(s);
    var height :- ReadShort(width.rest);
    if width.value < 0 || height.value < 0 then Err(NegativeSize)
    else DecodeGrid(height.rest, table, width.value, height.value)
  }

  /** `read`: a version tag other than 1.6f throws; then the element table, then the rest of the box. */
  function DecodeBox(s: seq<byte>): Result<Got<View>, IoError> {
    var version :- ReadFloat(s);
    if version.value != VERSION then Err(BadVersion)
    else
      var table :- Table.Decode(version.rest);
      DecodeBody(table.rest, table.value)
  }

  // The round trip.

  /** A particle `write` can emit and `read` restore: a known element, and an age and stamps that fit a short. */
  predicate CellFits(p: Particle, iteration: int, n: nat) {
    p.element.Some? ==>
      p.element.value < n && IsInt16(p.age) && IsInt16(p.lastSet - iteration) &&
      IsInt16(p.lastChange - iteration) && IsInt16(p.lastFloated - iteration)
  }

  /** A row `write` can emit: the particles fitting, and right pointers that skip empty columns only. */
  predicate RowFits(row: seq<Particle>, right: seq<int>, iteration: int, n: nat) {
    0 < |row| < 0x8000 && RightSkips(right, Occupied(row)) &&
    forall x :: 0 <= x < |row| ==> CellFits(row[x], iteration, n)
  }

  /** What `read` makes of a cell: an empty one comes back with zero age and stamps. */
  function Cleaned(p: Particle): (r: Particle)
    ensures r.element == p.element
    ensures p.element.Some? ==> r == p
  {
    if p.element.None? then Vacant else p
  }

  function CleanRow(row: seq<Particle>): (r: seq<Particle>)
    ensures |r| == |row| && forall x :: 0 <= x < |row| ==> r[x] == Cleaned(row[x])
  {
    seq(|row|, x requires 0 <= x < |row| => Cleaned(row[x]))
  }

  function CleanRows(cells: seq<seq<Particle>>): (r: seq<seq<Particle>>)
    ensures |r| == |cells| && forall y :: 0 <= y < |cells| ==> r[y] == CleanRow(cells[y])
  {
    seq(|cells|, y requires 0 <= y < |cells| => CleanRow(cells[y]))
  }

  /** Every empty cell is vacant: what `read` leaves in the cells it does not set. */
  predicate Clean(cells: seq<seq<Particle>>) {
    forall y, x :: 0 <= y < |cells| && 0 <= x < |cells[y]| && cells[y][x].element.None? ==> cells[y][x] == Vacant
  }

  /** A box whose rows and sources read back as written, with a table of `n` elements. */
  predicate BodyFits(b: Box, order: seq<Point>, n: nat) {
    b.Shaped() && (0 < b.width || b.height == 0) && b.width < 0x8000 && b.height < 0x8000 && IsInt32(b.iteration) &&
    n < 0x80 && IsOrder(order, b.sources) && IsInt32(|b.sources|) &&
    (forall p :: p in b.sources ==> 0 <= p.x < b.width && 0 <= p.y < b.height && b.sources[p] < n) &&
    forall y :: 0 <= y < b.height ==> RowFits(b.cells[y], b.right[y], b.iteration, n)
  }

  /** A box whose snapshot reads back as the same box. */
  predicate Encodable(b: Box, order: seq<Point>) {
    TableEncodable(b.table) && BodyFits(b, order, |b.table.elements|)
  }

  lemma CellRoundTrip(p: Particle, iteration: int, n: nat, rest: seq<byte>)
    requires CellFits(p, iteration, n) && n < 0x80
    ensures ReadCell(CellBytes(p, iteration) + rest, iteration, n) ==
      Ok(Got(if p.element.Some? then Some(p) else None, rest))
  {
    match p.element
    case None =>
      ReadWriteByte(-1, rest);
    case Some(o) =>
      var t4 := WriteShort(p.lastFloated - iteration) + rest;
      var t3 := WriteShort(p.lastChange - iteration) + t4;
      var t2 := WriteShort(p.lastSet - iteration) + t3;
      var t1 := WriteShort(p.age) + t2;
      ReadWriteShort(p.lastFloated - iteration, rest);
      ReadWriteShort(p.lastChange - iteration, t4);
      ReadWriteShort(p.lastSet - iteration, t3);
      ReadWriteShort(p.age, t2);
      ReadWriteByte(o, t1);
      var a1 := WriteByte(o) + WriteShort(p.age);
      var a2 := a1 + WriteShort(p.lastSet - iteration);
      var a3 := a2 + WriteShort(p.lastChange - iteration);
      Regroup(a3, WriteShort(p.lastFloated - iteration), rest);
      Regroup(a2, WriteShort(p.lastChange - iteration), t4);
      Regroup(a1, WriteShort(p.lastSet - iteration), t3);
      Regroup(WriteByte(o), WriteShort(p.age), t2);
  }

  /**
   * Reading the walk from column `x` into a row that already agrees with the
   * written one, cleaned, left of `x`, and is vacant from `x` on, gives the
   * written row with its empty cells cleaned.
   */
  lemma {:induction false} ChainRoundTrip(row: seq<Particle>, right: seq<int>, iteration: int, n: nat,
                                          x: int, partial: seq<Particle>, rest: seq<byte>)
    requires RowFits(row, right, iteration, n) && n < 0x80 && 0 <= x && |partial| == |row|
    requires forall c :: 0 <= c < |row| && c < x ==> partial[c] == Cleaned(row[c])
    requires forall c :: x <= c < |row| ==> partial[c] == Vacant
    ensures PointsRight(right)
    ensures DecodeChain(ChainBytes(row, right, iteration, x) + rest, x, partial, iteration, n) == Ok(Got(CleanRow(row), rest))
    decreases |row| - x
  {
    if x >= |row| {
      assert partial == CleanRow(row);
      assert ChainBytes(row, right, iteration, x) + rest == rest;
    } else {
      var next := right[x];
      var tail := ChainBytes(row, right, iteration, next) + rest;
      var updated := if row[x].element.Some? then partial[x := row[x]] else partial;
      assert forall c :: x < c < next ==> row[c].element.None? by {
        assert EmptyBetween(Occupied(row), x, next);
      }
      ChainRoundTrip(row, right, iteration, n, next, updated, rest);
      ReadWriteShort(next, tail);
      CellRoundTrip(row[x], iteration, n, WriteShort(next) + tail);
      Regroup(CellBytes(row[x], iteration), WriteShort(next), tail);
      Regroup(CellBytes(row[x], iteration) + WriteShort(next), ChainBytes(row, right, iteration, next), rest);
    }
  }

  lemma RowRoundTrip(row: seq<Particle>, right: seq<int>, iteration: int, n: nat, rest: seq<byte>)
    requires RowFits(row, right, iteration, n) && n < 0x80
    ensures PointsRight(right)
    ensures DecodeRow(RowBytes(row, right, iteration) + rest, |row|, iteration, n) == Ok(Got(CleanRow(row), rest))
  {
    var start := RowStart(row, right);
    assert 0 <= start <= |row|;
    var blank := VacantRow(|row|);
    assert forall c :: 0 <= c < |row| && c < start ==> blank[c] == Cleaned(row[c]) by {
      assert EmptyBetween(Occupied(row), 0, right[0]);
    }
    ChainRoundTrip(row, right, iteration, n, start, blank, rest);
    ReadWriteShort(start, ChainBytes(row, right, iteration, start) + rest);
    Regroup(WriteShort(start), ChainBytes(row, right, iteration, start), rest);
  }

  /** Rows that `read` can rebuild are rows `write` can emit. */
  lemma RowsFitShaped(cells: seq<seq<Particle>>, right: seq<seq<int>>, iteration: int, n: nat)
    requires |cells| == |right| && forall y :: 0 <= y < |cells| ==> RowFits(cells[y], right[y], iteration, n)
    ensures RowsShaped(cells, right)
  {
    forall y | 0 <= y < |cells|
      ensures |right[y]| == |cells[y]| > 0 && PointsRight(right[y])
    {
      assert RowFits(cells[y], right[y], iteration, n);
    }
  }

  /** The bytes of all rows but the last, then the last row. */
  lemma RowsBytesSnoc(cells: seq<seq<Particle>>, right: seq<seq<int>>, iteration: int, rest: seq<byte>)
    requires RowsShaped(cells, right) && cells != []
    ensures RowsShaped(cells[..|cells| - 1], right[..|right| - 1])
    ensures RowsBytes(cells, right, iteration) + rest ==
      RowsBytes(cells[..|cells| - 1], right[..|right| - 1], iteration) +
        (RowBytes(cells[|cells| - 1], right[|right| - 1], iteration) + rest)
  {
    var k := |cells| - 1;
    Regroup(RowsBytes(cells[..k], right[..k], iteration), RowBytes(cells[k], right[k], iteration), rest);
  }

  lemma CleanRowsSnoc(cells: seq<seq<Particle>>)
    requires cells != []
    ensures CleanRows(cells[..|cells| - 1]) + [CleanRow(cells[|cells| - 1])] == CleanRows(cells)
  {
  }

  /** `k` values read from `prefix`, then one more from `bytes`. */
  lemma ReadManyAppend<T>(prefix: seq<byte>, bytes: seq<byte>, rest: seq<byte>, k: nat,
                          read: seq<byte> -> Result<Got<T>, IoError>, init: seq<T>, last: T)
    requires ReadMany(prefix + (bytes + rest), k, read) == Ok(Got(init, bytes + rest))
    requires read(bytes + rest) == Ok(Got(last, rest))
    ensures ReadMany(prefix + (bytes + rest), k + 1, read) == Ok(Got(init + [last], rest))
  {
  }

  lemma {:induction false} RowsRoundTrip(cells: seq<seq<Particle>>, right: seq<seq<int>>, width: nat, iteration: int, n: nat, rest: seq<byte>)
    requires |cells| == |right| && n < 0x80
    requires forall y :: 0 <= y < |cells| ==> |cells[y]| == width && RowFits(cells[y], right[y], iteration, n)
    ensures RowsShaped(cells, right)
    ensures ReadMany(RowsBytes(cells, right, iteration) + rest, |cells|, RowReader(width, iteration, n)) ==
      Ok(Got(CleanRows(cells), rest))
    decreases |cells|
  {
    RowsFitShaped(cells, right, iteration, n);
    if cells == [] {
      assert RowsBytes(cells, right, iteration) + rest == rest;
    } else {
      var k := |cells| - 1;
      var bytes := RowBytes(cells[k], right[k], iteration);
      var read := RowReader(width, iteration, n);
      var prefix := RowsBytes(cells[..k], right[..k], iteration);
      RowsBytesSnoc(cells, right, iteration, rest);
      RowsRoundTrip(cells[..k], right[..k], width, iteration, n, bytes + rest);
      RowRoundTrip(cells[k], right[k], iteration, n, rest);
      assert |cells[k]| == width;
      assert read(bytes + rest) == Ok(Got(CleanRow(cells[k]), rest));
      ReadManyAppend(prefix, bytes, rest, k, read, CleanRows(cells[..k]), CleanRow(cells[k]));
      CleanRowsSnoc(cells);
    }
  }

  /** The source map after adding each point of `order` in turn, with its element in `sources`. */
  function AddAllSources(acc: map<Point, nat>, order: seq<Point>, sources: map<Point, nat>): map<Point, nat>
    requires forall k :: 0 <= k < |order| ==> order[k] in sources
    decreases |order|
  {
    if order == [] then acc else AddAllSources(acc[order[0] := sources[order[0]]], order[1..], sources)
  }

  lemma {:induction false} SourcesRoundTrip(order: seq<Point>, sources: map<Point, nat>, n: nat, width: int, height: int,
                                            acc: map<Point, nat>, rest: seq<byte>)
    requires forall k :: 0 <= k < |order| ==> order[k] in sources
    requires forall p :: p in sources ==> 0 <= p.x < width && 0 <= p.y < height && sources[p] < n
    requires width <= 0x8000 && height <= 0x8000 && n <= 0x80
    ensures DecodeSources(SourceBytes(order, sources) + rest, |order|, n, width, height, acc) ==
      Ok(Got(AddAllSources(acc, order, sources), rest))
    decreases |order|
  {
    if order == [] {
      assert SourceBytes(order, sources) + rest == rest;
    } else {
      var p := order[0];
      var tail := SourceBytes(order[1..], sources) + rest;
      SourcesRoundTrip(order[1..], sources, n, width, height, acc[p := sources[p]], rest);
      ReadWriteByte(sources[p], tail);
      ReadWriteShort(p.y, WriteByte(sources[p]) + tail);
      ReadWriteShort(p.x, WriteShort(p.y) + (WriteByte(sources[p]) + tail));
      var a1 := WriteShort(p.x) + WriteShort(p.y);
      var a2 := a1 + WriteByte(sources[p]);
      Regroup(a2, SourceBytes(order[1..], sources), rest);
      Regroup(a1, WriteByte(sources[p]), tail);
      Regroup(WriteShort(p.x), WriteShort(p.y), WriteByte(sources[p]) + tail);
    }
  }

  /** Adding the keys of a map in any iteration order, each with its element, rebuilds the map. */
  lemma {:induction false} AddAllRebuilds(acc: map<Point, nat>, order: seq<Point>, sources: map<Point, nat>)
    requires forall k :: 0 <= k < |order| ==> order[k] in sources
    requires forall p :: p in acc ==> p in sources && acc[p] == sources[p]
    requires forall p :: p in sources ==> p in acc || p in order
    ensures AddAllSources(acc, order, sources) == sources
    decreases |order|
  {
    if order != [] {
      var acc' := acc[order[0] := sources[order[0]]];
      forall p | p in sources
        ensures p in acc' || p in order[1..]
      {
        if p !in acc' {
          assert p in order && p != order[0];
          var k :| 0 <= k < |order| && order[k] == p;
          assert order[1..][k - 1] == p;
        }
      }
      AddAllRebuilds(acc', order[1..], sources);
    }
  }

  /** How `read` proceeds once the tick, the count, the sources and the rows are read. */
  lemma GridSteps(s: seq<byte>, table: TableValue, width: nat, height: nat, iteration: Got<int>, count: Got<int>,
                  sources: Got<map<Point, nat>>, rows: Got<seq<seq<Particle>>>)
    requires ReadInt(s) == Ok(iteration) && ReadInt(iteration.rest) == Ok(count)
    requires DecodeSources(count.rest, count.value, |table.elements|, width, height, map[]) == Ok(sources)
    requires ReadMany(sources.rest, height, RowReader(width, iteration.value, |table.elements|)) == Ok(rows)
    ensures DecodeGrid(s, table, width, height) ==
      Ok(Got(View(table, width, height, iteration.value, sources.value, rows.value), rows.rest))
  {
  }

  /** The bytes after the dimensions, grouped from the right. */
  lemma GridBytesShape(b: Box, order: seq<Point>, rest: seq<byte>)
    requires b.Shaped() && (0 < b.width || b.height == 0) && forall k :: 0 <= k < |order| ==> order[k] in b.sources
    ensures GridBytes(b, order) + rest ==
      WriteInt(b.iteration) + (WriteInt(|b.sources|) + (SourceBytes(order, b.sources) + (RowsBytes(b.cells, b.right, b.iteration) + rest)))
  {
    var sources := SourceBytes(order, b.sources);
    var rows := RowsBytes(b.cells, b.right, b.iteration);
    var a := WriteInt(b.iteration) + WriteInt(|b.sources|);
    Regroup(a + sources, rows, rest);
    Regroup(a, sources, rows + rest);
    Regroup(WriteInt(b.iteration), WriteInt(|b.sources|), sources + (rows + rest));
  }

  /** Reading back the tick, the sources and the rows, with a table of `n` elements. */
  lemma GridRoundTrip(b: Box, order: seq<Point>, table: TableValue, rest: seq<byte>)
    requires BodyFits(b, order, |table.elements|)
    ensures DecodeGrid(GridBytes(b, order) + rest, table, b.width, b.height) ==
      Ok(Got(View(table, b.width, b.height, b.iteration, b.sources, CleanRows(b.cells)), rest))
  {
    var n := |table.elements|;
    var t3 := RowsBytes(b.cells, b.right, b.iteration) + rest;
    var t2 := SourceBytes(order, b.sources) + t3;
    var t1 := WriteInt(|b.sources|) + t2;
    RowsRoundTrip(b.cells, b.right, b.width, b.iteration, n, rest);
    SourcesRoundTrip(order, b.sources, n, b.width, b.height, map[], t3);
    AddAllRebuilds(map[], order, b.sources);
    ReadWriteInt(|b.sources|, t2);
    ReadWriteInt(b.iteration, t1);
    GridBytesShape(b, order, rest);
    GridSteps(WriteInt(b.iteration) + t1, table, b.width, b.height, Got(b.iteration, t1), Got(|b.sources|, t2),
      Got(b.sources, t3), Got(CleanRows(b.cells), rest));
  }

  /** How `read` proceeds once the dimensions are read. */
  lemma BodySteps(s: seq<byte>, table: TableValue, width: Got<int>, height: Got<int>)
    requires ReadShort(s) == Ok(width) && ReadShort(width.rest) == Ok(height) && width.value >= 0 && height.value >= 0
    ensures DecodeBody(s, table) == DecodeGrid(height.rest, table, width.value, height.value)
  {
  }

  /** Reading back what `write` emits after the table, with a table of `n` elements. */
  lemma BodyRoundTrip(b: Box, order: seq<Point>, table: TableValue, rest: seq<byte>)
    requires BodyFits(b, order, |table.elements|)
    ensures DecodeBody(BodyBytes(b, order) + rest, table) ==
      Ok(Got(View(table, b.width, b.height, b.iteration, b.sources, CleanRows(b.cells)), rest))
  {
    var t2 := GridBytes(b, order) + rest;
    var t1 := WriteShort(b.height) + t2;
    GridRoundTrip(b, order, table, rest);
    ReadWriteShort(b.height, t2);
    ReadWriteShort(b.width, t1);
    Regroup(WriteShort(b.width) + WriteShort(b.height), GridBytes(b, order), rest);
    Regroup(WriteShort(b.width), WriteShort(b.height), t2);
    BodySteps(WriteShort(b.width) + t1, table, Got(b.width, t1), Got(b.height, t2));
  }

  /** How `read` proceeds once the version tag and the table are read. */
  lemma BoxSteps(s: seq<byte>, version: Got<word32>, table: Got<TableValue>)
    requires ReadFloat(s) == Ok(version) && version.value == VERSION && Table.Decode(version.rest) == Ok(table)
    ensures DecodeBox(s) == DecodeBody(table.rest, table.value)
  {
  }

  /** The version tag is a number, so it reads back as itself. */
  lemma VersionRoundTrip(rest: seq<byte>)
    ensures ReadFloat(WriteFloat(VERSION) + rest) == Ok(Got(VERSION, rest))
  {
    assert Exponent(VERSION) == 0x7F;
    ReadWriteFloat(VERSION, rest);
  }

  /** The bytes of a box that can be written, grouped from the right. */
  lemma BoxBytesShape(b: Box, order: seq<Point>, rest: seq<byte>)
    requires b.Shaped() && (0 < b.width || b.height == 0) && forall k :: 0 <= k < |order| ==> order[k] in b.sources
    requires b.table.Encode().Ok?
    ensures EncodeBox(b, order).Ok?
    ensures EncodeBox(b, order).value + rest == WriteFloat(VERSION) + (b.table.Encode().value + (BodyBytes(b, order) + rest))
  {
    var table := b.table.Encode().value;
    var body := BodyBytes(b, order);
    Regroup(WriteFloat(VERSION) + table, body, rest);
    Regroup(WriteFloat(VERSION), table, body + rest);
  }

  /**
   * `read(write(box))` gives the box back, with its table as `read` rebuilds
   * it and the empty cells with zero age and stamps.
   */
  lemma BoxRoundTrip(b: Box, order: seq<Point>, rest: seq<byte>)
    requires Encodable(b, order)
    ensures EncodeBox(b, order).Ok?
    ensures DecodeBox(EncodeBox(b, order).value + rest) == Ok(Got(Restored(b), rest))
  {
    TableRoundTrip(b.table, []);
    var t2 := BodyBytes(b, order) + rest;
    var t1 := b.table.Encode().value + t2;
    BoxBytesShape(b, order, rest);
    TableRoundTrip(b.table, t2);
    BodyRoundTrip(b, order, b.table.AsRead(), rest);
    VersionRoundTrip(t1);
    BoxSteps(WriteFloat(VERSION) + t1, Got(VERSION, t1), Got(b.table.AsRead(), t2));
  }

  /** A snapshot whose version tag is not 1.6f is refused. */
  lemma WrongVersionRefused(s: seq<byte>)
    requires ReadFloat(s).Ok? && ReadFloat(s).value.value != VERSION
    ensures DecodeBox(s) == Err(BadVersion)
  {
  }

  // Comparing a box with its copy.

  /** The view `read` builds from a box's snapshot. */
  function Restored(b: Box): (v: View)
    requires Square(b.table.rules, |b.table.elements|)
  {
    View(b.table.AsRead(), b.width, b.height, b.iteration, b.sources, CleanRows(b.cells))
  }

  /** Elements of a restored table `equals` the ones written. */
  lemma RestoredElements(b: Box)
    requires b.table.Valid() && NoNaNFloats(b.table)
    ensures b.table.AsRead().Equals(b.table)
    ensures forall o :: 0 <= o < |b.table.elements| ==> b.table.AsRead().elements[o].Equals(b.table.elements[o])
  {
    TableAsReadEquals(b.table);
  }

  /**
   * A restored box `equals` the original exactly when every empty cell of
   * the original has zero age and stamps: `equals` compares those, and
   * the snapshot does not hold them.
   */
  lemma RestoredEqualsIffClean(b: Box)
    requires b.Shaped() && b.table.Valid() && NoNaNFloats(b.table)
    requires forall p :: p in b.sources ==> b.sources[p] < |b.table.elements|
    requires forall y, x :: 0 <= y < b.height && 0 <= x < b.width && b.cells[y][x].element.Some? ==>
      b.cells[y][x].element.value < |b.table.elements|
    ensures Restored(b).Shaped() && b.AsView().Shaped()
    ensures Restored(b).Equals(b.AsView()) <==> Clean(b.cells)
  {
    var r := Restored(b);
    var v := b.AsView();
    RestoredElements(b);
    assert r.SameSources(v);
    if Clean(b.cells) {
      forall y, x | 0 <= y < b.height && 0 <= x < b.width
        ensures SameCell(r.cells[y][x], v.cells[y][x], r.table.elements, v.table.elements)
      {
      }
    } else {
      var y, x :| 0 <= y < |b.cells| && 0 <= x < |b.cells[y]| && b.cells[y][x].element.None? && b.cells[y][x] != Vacant;
      assert !SameCell(r.cells[y][x], v.cells[y][x], r.table.elements, v.table.elements);
    }
  }

  /** A restored box always equals the original when the age and stamps of empty cells are ignored. */
  lemma RestoredSnapshotEquals(b: Box)
    requires b.Shaped() && b.table.Valid() && NoNaNFloats(b.table)
    requires forall p :: p in b.sources ==> b.sources[p] < |b.table.elements|
    requires forall y, x :: 0 <= y < b.height && 0 <= x < b.width && b.cells[y][x].element.Some? ==>
      b.cells[y][x].element.value < |b.table.elements|
    ensures Restored(b).Shaped() && b.AsView().Shaped()
    ensures Restored(b).SnapshotEquals(b.AsView())
  {
    RestoredElements(b);
    var r := Restored(b);
    assert r.SameSources(b.AsView());
  }

  /**
   * `read(write(box)).equals(box)` holds exactly when the box is clean: a
   * cell a particle has left keeps the stamps `setParticle` gave it, and
   * `equals` compares them.
   */
  lemma CopyEqualsIffClean(b: Box, order: seq<Point>)
    requires Encodable(b, order) && NoNaNFloats(b.table)
    ensures EncodeBox(b, order).Ok? && DecodeBox(EncodeBox(b, order).value).Ok?
    ensures var copy := DecodeBox(EncodeBox(b, order).value).value.value;
      copy.Shaped() && b.AsView().Shaped() && (copy.Equals(b.AsView()) <==> Clean(b.cells))
  {
    BoxRoundTrip(b, order, []);
    var bytes := EncodeBox(b, order).value;
    assert bytes + [] == bytes;
    RowsFitOrdinals(b, order);
    RestoredEqualsIffClean(b);
  }

  /** `read(write(box))` equals the box whenever the age and stamps of empty cells are ignored. */
  lemma CopySnapshotEquals(b: Box, order: seq<Point>)
    requires Encodable(b, order) && NoNaNFloats(b.table)
    ensures EncodeBox(b, order).Ok? && DecodeBox(EncodeBox(b, order).value).Ok?
    ensures var copy := DecodeBox(EncodeBox(b, order).value).value.value;
      copy.Shaped() && b.AsView().Shaped() && copy.SnapshotEquals(b.AsView())
  {
    BoxRoundTrip(b, order, []);
    var bytes := EncodeBox(b, order).value;
    assert bytes + [] == bytes;
    RowsFitOrdinals(b, order);
    RestoredSnapshotEquals(b);
  }

  lemma RowsFitOrdinals(b: Box, order: seq<Point>)
    requires Encodable(b, order)
    ensures forall y, x :: 0 <= y < b.height && 0 <= x < b.width && b.cells[y][x].element.Some? ==>
      b.cells[y][x].element.value < |b.table.elements|
  {
    forall y, x | 0 <= y < b.height && 0 <= x < b.width && b.cells[y][x].element.Some?
      ensures b.cells[y][x].element.value < |b.table.elements|
    {
      assert RowFits(b.cells[y], b.right[y], b.iteration, |b.table.elements|);
      assert CellFits(b.cells[y][x], b.iteration, |b.table.elements|);
    }
  }
}
