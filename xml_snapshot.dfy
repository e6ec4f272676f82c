/**
 * The text-level helpers of the XML snapshot writer and reader
 * (src/com/loganh/sandblaster/XmlSnapshot.java): the run-length packing of a
 * grid row into `particle-sequence` elements, the colour component in hex,
 * and the reading of typed attributes. Strings are Java strings, sequences
 * of UTF-16 units.
 */
module XmlSnapshot {
  import opened Wrappers
  import opened Bytes
  import opened JavaData

  const PACK_RUN_LENGTH := 64

  /** '.', the mark of an empty cell inside a run. */
  const DOT: char16 := 0x2E

  /** One `particle-sequence` element: the column where its run starts, the row, and its text. */
  datatype Run = Run(x: int, y: int, text: JString)

  /** `(char) ((int) 'A' + e.ordinal)`: an element's letter, cut to 16 bits by the cast. */
  function Letter(ordinal: nat): char16 {
    (0x41 + ordinal) % 0x1_0000
  }

  /** The character the packing appends for a cell: its element's letter, or a dot when it is empty. */
  function Mark(cell: Option<nat>): char16 {
    match cell
    case Some(o) => Letter(o)
    case None => DOT
  }

  /**
   * No letter of the row is a dot. Only an ordinal of 0xFFED more than a
   * multiple of 0x1_0000 wraps onto '.', so any table of fewer than 65517
   * elements gives lettered rows.
   */
  ghost predicate Lettered(row: seq<Option<nat>>) {
    forall i :: 0 <= i < |row| && row[i].Some? ==> Letter(row[i].value) != DOT
  }

  lemma SmallOrdinalsLettered(row: seq<Option<nat>>)
    requires forall i :: 0 <= i < |row| && row[i].Some? ==> row[i].value < 0xFFED
    ensures Lettered(row)
  {
  }

  // What the runs of a row say: each run lays its letters from its column
  // on; a dot lays nothing.

  /** `row` with the letters of run `r` laid over it. */
  function Overlay(row: seq<Option<char16>>, r: Run): (s: seq<Option<char16>>)
    ensures |s| == |row|
  {
    seq(|row|, i requires 0 <= i < |row| =>
      if r.x <= i < r.x + |r.text| && r.text[i - r.x] != DOT then Some(r.text[i - r.x]) else row[i])
  }

  /** The letters the runs lay on an empty row of width `w`, in order. */
  function Shown(runs: seq<Run>, w: nat): (s: seq<Option<char16>>)
    ensures |s| == w
  {
    if runs == [] then seq(w, i => None) else Overlay(Shown(runs[..|runs| - 1], w), runs[|runs| - 1])
  }

  /** The letters of the row's first `upto` cells; nothing beyond. */
  function Letters(row: seq<Option<nat>>, upto: int): (s: seq<Option<char16>>)
    ensures |s| == |row|
  {
    seq(|row|, i requires 0 <= i < |row| => if i < upto && row[i].Some? then Some(Letter(row[i].value)) else None)
  }

  /** Dots are transparent: laying a run without its trailing dots lays the same letters. */
  lemma OverlayTrimmed(row: seq<Option<char16>>, x: int, y: int, pack: JString, text: JString)
    requires text <= pack && forall i :: |text| <= i < |pack| ==> pack[i] == DOT
    ensures Overlay(row, Run(x, y, text)) == Overlay(row, Run(x, y, pack))
  {
  }

  /**
   * `writePackedRow`: the run as written, its text being `pack` without its
   * trailing dots. (Java's post-decrementing `last` ends one below `end`.)
   */
  method WritePackedRow(x: int, y: int, pack: JString) returns (r: Run)
    ensures r.x == x && r.y == y
    ensures r.text <= pack && forall i :: |r.text| <= i < |pack| ==> pack[i] == DOT
    ensures r.text == [] || r.text[|r.text| - 1] != DOT
  {
    var end := |pack|;
    while end > 0 && pack[end - 1] == DOT
      invariant 0 <= end <= |pack|
      invariant forall i :: end <= i < |pack| ==> pack[i] == DOT
    {
      end := end - 1;
    }
    return Run(x, y, pack[..end]);
  }

  /** The pending run of the packing loop at column `x`: it started at `runStart` and holds a mark per cell since. */
  ghost predicate Pending(row: seq<Option<nat>>, x: int, runStart: int, pack: JString) {
    0 <= x <= |row| &&
    (runStart == -1 ==> pack == []) &&
    (runStart != -1 ==>
      0 <= runStart < x && row[runStart].Some? && |pack| == x - runStart &&
      forall i :: 0 <= i < |pack| ==> pack[i] == Mark(row[runStart + i]))
  }

  /** The runs written so far for row `y`: each starts at an occupied cell, ends before `bound`, and ends on a letter. */
  ghost predicate Written(row: seq<Option<nat>>, y: int, runs: seq<Run>, bound: int) {
    (forall k :: 0 <= k < |runs| ==>
      runs[k].y == y && |runs[k].text| <= PACK_RUN_LENGTH && 0 <= runs[k].x < |row| && row[runs[k].x].Some? &&
      runs[k].x + |runs[k].text| <= bound && (runs[k].text == [] || runs[k].text[|runs[k].text| - 1] != DOT)) &&
    (forall k, l :: 0 <= k < l < |runs| ==> runs[k].x + |runs[k].text| <= runs[l].x)
  }

  /** With lettered rows, the written runs start with their cell's letter and lay the row's letters before `bound`. */
  ghost predicate Faithful(row: seq<Option<nat>>, runs: seq<Run>, bound: int)
    requires forall k :: 0 <= k < |runs| ==> 0 <= runs[k].x < |row| && row[runs[k].x].Some?
  {
    Lettered(row) ==>
      Shown(runs, |row|) == Letters(row, bound) &&
      forall k :: 0 <= k < |runs| ==> |runs[k].text| > 0 && runs[k].text[0] == Letter(row[runs[k].x].value)
  }

  /** The state of the packing loop at column `x`: the pending run, and the runs written before it. */
  ghost predicate Packed(row: seq<Option<nat>>, y: int, runs: seq<Run>, x: int, runStart: int, pack: JString) {
    var bound := if runStart == -1 then x else runStart;
    Pending(row, x, runStart, pack) && Written(row, y, runs, bound) && Faithful(row, runs, bound)
  }

  /**
   * The packing of row `y` in `write` (its cells' element ordinals given as
   * `row`): an occupied cell appends its letter and starts a run if none is
   * pending; an empty cell appends a dot inside a run; a run is written once
   * it holds `PACK_RUN_LENGTH` characters, and a pending run at the end of
   * the row. Each run starts at an occupied cell, holds at most 64
   * characters, ends on a letter, and lies before the next; when no letter
   * is a dot, the runs lay exactly the row's letters.
   */
  method PackRow(row: seq<Option<nat>>, y: int) returns (runs: seq<Run>)
    ensures forall k :: 0 <= k < |runs| ==> runs[k].y == y && |runs[k].text| <= PACK_RUN_LENGTH
    ensures forall k :: 0 <= k < |runs| ==>
      0 <= runs[k].x < |row| && row[runs[k].x].Some? && runs[k].x + |runs[k].text| <= |row|
    ensures forall k :: 0 <= k < |runs| ==> runs[k].text == [] || runs[k].text[|runs[k].text| - 1] != DOT
    ensures forall k, l :: 0 <= k < l < |runs| ==> runs[k].x + |runs[k].text| <= runs[l].x
    ensures (forall i :: 0 <= i < |row| ==> row[i].None?) ==> runs == []
    ensures Lettered(row) ==> Shown(runs, |row|) == Letters(row, |row|)
    ensures Lettered(row) ==> forall k :: 0 <= k < |runs| ==> |runs[k].text| > 0 && runs[k].text[0] == Letter(row[runs[k].x].value)
  {
    runs := [];
    var runStart := -1;
    var pack: JString := [];
    for x := 0 to |row|
      invariant Packed(row, y, runs, x, runStart, pack) && |pack| < PACK_RUN_LENGTH
    {
      runs, runStart, pack := PackCell(row, y, runs, x, runStart, pack);
    }
    if runStart != -1 {
      var r := WritePackedRow(runStart, y, pack);
      Flushed(row, y, runs, |row|, runStart, pack, r);
      runs := runs + [r];
    }
    if runs != [] {
      assert row[runs[0].x].Some?;
    }
  }

  /** One turn of the packing loop, for column `x`. */
  method PackCell(row: seq<Option<nat>>, y: int, runs0: seq<Run>, x: int, runStart0: int, pack0: JString)
    returns (runs: seq<Run>, runStart: int, pack: JString)
    requires x < |row| && Packed(row, y, runs0, x, runStart0, pack0) && |pack0| < PACK_RUN_LENGTH
    ensures Packed(row, y, runs, x + 1, runStart, pack) && |pack| < PACK_RUN_LENGTH
  {
    runs, runStart, pack := runs0, runStart0, pack0;
    if row[x].Some? {
      if runStart == -1 {
        runStart := x;
      }
      pack := pack + [Letter(row[x].value)];
    } else if runStart != -1 {
      pack := pack + [DOT];
    }
    Marked(row, y, runs, x, runStart0, pack0, runStart, pack);
    if |pack| >= PACK_RUN_LENGTH {
      var r := WritePackedRow(runStart, y, pack);
      FlushedAt(row, y, runs, x + 1, runStart, pack, r);
      runs := runs + [r];
      runStart := -1;
      pack := [];
    }
  }

  /** Writing the pending run in the middle of the row leaves no run pending, with the same bound. */
  lemma FlushedAt(row: seq<Option<nat>>, y: int, runs: seq<Run>, x: int, runStart: int, pack: JString, r: Run)
    requires Packed(row, y, runs, x, runStart, pack) && runStart != -1 && |pack| <= PACK_RUN_LENGTH
    requires r.x == runStart && r.y == y && r.text <= pack && forall i :: |r.text| <= i < |pack| ==> pack[i] == DOT
    requires r.text == [] || r.text[|r.text| - 1] != DOT
    ensures Packed(row, y, runs + [r], x, -1, [])
  {
    Flushed(row, y, runs, x, runStart, pack, r);
  }

  /** Marking column `x` keeps the loop's facts: the written runs are untouched, and their bound moves only past an empty cell. */
  lemma Marked(row: seq<Option<nat>>, y: int, runs: seq<Run>, x: int, runStart0: int, pack0: JString, runStart: int, pack: JString)
    requires x < |row| && Packed(row, y, runs, x, runStart0, pack0)
    requires runStart == if row[x].Some? && runStart0 == -1 then x else runStart0
    requires pack == pack0 + if row[x].Some? || runStart0 != -1 then [Mark(row[x])] else []
    ensures Packed(row, y, runs, x + 1, runStart, pack)
  {
    if runStart == -1 {
      assert Letters(row, x) == Letters(row, x + 1);
    }
  }

  /** Writing the pending run, which covers the cells from `runStart` up to `x`, keeps the runs' facts. */
  lemma Flushed(row: seq<Option<nat>>, y: int, runs: seq<Run>, x: int, runStart: int, pack: JString, r: Run)
    requires 0 <= runStart < x <= |row| && row[runStart].Some? && |pack| == x - runStart && |pack| <= PACK_RUN_LENGTH
    requires forall i :: 0 <= i < |pack| ==> pack[i] == Mark(row[runStart + i])
    requires r.x == runStart && r.y == y && r.text <= pack && forall i :: |r.text| <= i < |pack| ==> pack[i] == DOT
    requires r.text == [] || r.text[|r.text| - 1] != DOT
    requires Written(row, y, runs, runStart) && Faithful(row, runs, runStart)
    ensures Written(row, y, runs + [r], x) && Faithful(row, runs + [r], x)
  {
    var rs := runs + [r];
    assert rs[..|runs|] == runs;
    if Lettered(row) {
      OverlayTrimmed(Shown(runs, |row|), runStart, y, pack, r.text);
      assert pack[0] == Letter(row[runStart].value);
      assert |r.text| > 0;
      forall i | 0 <= i < |row|
        ensures Overlay(Shown(runs, |row|), Run(runStart, y, pack))[i] == Letters(row, x)[i]
      {
        if runStart <= i < x {
          assert pack[i - runStart] == Mark(row[i]);
        }
      }
    }
  }

  // Hexadecimal colour components.

  /** A lower-case hex digit, as `Integer.toHexString` writes it. */
  function HexDigit(d: int): char16
    requires 0 <= d < 16
  {
    if d < 10 then 0x30 + d else 0x61 + (d - 10)
  }

  /** The value of a hex digit character, or -1 for any other character. */
  function DigitValue(c: char16): int {
    if 0x30 <= c <= 0x39 then c - 0x30
    else if 0x61 <= c <= 0x66 then c - 0x61 + 10
    else -1
  }

  /** The value of a string of hex digits, most significant first. */
  function HexValue(s: JString): int {
    if s == [] then 0 else HexValue(s[..|s| - 1]) * 16 + DigitValue(s[|s| - 1])
  }

  /** `Integer.toHexString` of a non-negative value: its hex digits, without leading zeros ("0" for zero). */
  function HexString(v: nat): JString {
    if v < 16 then [HexDigit(v)] else HexString(v / 16) + [HexDigit(v % 16)]
  }

  /** `toHexString` writes digits only, no leading zero, at most two of them below 0x100, and they read back as the value. */
  lemma {:induction false} HexStringReadsBack(v: nat)
    ensures 1 <= |HexString(v)| && HexValue(HexString(v)) == v
    ensures forall i :: 0 <= i < |HexString(v)| ==> 0 <= DigitValue(HexString(v)[i]) < 16
    ensures |HexString(v)| > 1 ==> HexString(v)[0] != 0x30
    ensures v < 0x100 ==> |HexString(v)| <= 2
  {
    if v >= 16 {
      HexStringReadsBack(v / 16);
      var s := HexString(v);
      assert s[..|s| - 1] == HexString(v / 16);
    }
  }

  /**
   * `colorComponentToString`: `Integer.toHexString` of the component (its
   * 32-bit pattern, so a negative component reads as eight digits), padded
   * with a leading zero to at least two digits.
   */
  function ColorComponentToString(component: int): (r: JString)
    ensures 2 <= |r| && forall i :: 0 <= i < |r| ==> 0 <= DigitValue(r[i]) < 16
    ensures HexValue(r) == Low32(component)
    ensures 0 <= component < 0x100 ==> |r| == 2
    ensures |r| > 2 ==> r[0] != 0x30
  {
    var s := HexString(Low32(component));
    HexStringReadsBack(Low32(component));
    if |s| < 2 then
      assert ([0x30] + s)[..1] == [0x30];
      [0x30] + s
    else s
  }

  // Typed attributes. `getAttributeValue` is the parser's; its answer is
  // given here as `value`, `None` for a missing attribute.

  /** NumberFormatException, thrown by Java's number parsers. */
  datatype Thrown = NumberFormatException

  /** "true". */
  const TRUE: JString := [0x74, 0x72, 0x75, 0x65]

  /** `toLowerCase` on the ASCII capitals; every other unit is kept. */
  function Lower(s: JString): (r: JString)
    ensures |r| == |s|
  {
    seq(|s|, i requires 0 <= i < |s| => if 0x41 <= s[i] <= 0x5A then s[i] + 0x20 else s[i])
  }

  /** `getBooleanAttribute`: the default when missing, else whether the text is "true" in any mix of cases. */
  function GetBooleanAttribute(value: Option<JString>, defaultValue: bool): (r: bool)
    ensures value.None? ==> r == defaultValue
    ensures value.Some? ==>
      (r <==> |value.value| == 4 && forall i :: 0 <= i < 4 ==> value.value[i] == TRUE[i] || value.value[i] == TRUE[i] - 0x20)
  {
    match value
    case None => defaultValue
    case Some(v) =>
      assert |Lower(v)| == 4 ==> (Lower(v) == TRUE <==> forall i :: 0 <= i < 4 ==> Lower(v)[i] == TRUE[i]);
      Lower(v) == TRUE
  }

  /** An ASCII decimal digit. */
  predicate IsDigit(c: char16) {
    0x30 <= c <= 0x39
  }

  /** The value of a string of decimal digits, most significant first. */
  function DecimalValue(s: JString): nat
    requires forall i :: 0 <= i < |s| ==> IsDigit(s[i])
  {
    if s == [] then 0
    else
      assert IsDigit(s[|s| - 1]);
      DecimalValue(s[..|s| - 1]) * 10 + (s[|s| - 1] as int - 0x30)
  }

  /**
   * `Integer.parseInt(s)`: an optional '-' or '+', then at least one
   * decimal digit and nothing else, with a value that fits an `int`;
   * anything else throws.
   */
  function ParseInt(s: JString): (r: Result<int, Thrown>)
    ensures r.Ok? ==> IsInt32(r.value)
    ensures r.Ok? ==> |s| > 0 && (IsDigit(s[0]) || s[0] == 0x2D || s[0] == 0x2B)
    ensures |s| == 0 || (|s| == 1 && !IsDigit(s[0])) ==> r.Err?
  {
    if |s| == 0 then Err(NumberFormatException)
    else
      var negative := s[0] == 0x2D;
      var digits := if negative || s[0] == 0x2B then s[1..] else s;
      if |digits| == 0 || exists i :: 0 <= i < |digits| && !IsDigit(digits[i]) then Err(NumberFormatException)
      else
        var m: int := if negative then -(DecimalValue(digits) as int) else DecimalValue(digits);
        if IsInt32(m) then Ok(m) else Err(NumberFormatException)
  }

  /** The decimal digits of a non-negative value, without leading zeros. */
  function Digits(n: nat): JString {
    if n < 10 then [0x30 + n] else Digits(n / 10) + [0x30 + n % 10]
  }

  /** `Integer.toString`, which the writer uses for the integer attributes. */
  function IntToString(n: int): JString {
    if n < 0 then [0x2D] + Digits(-n) else Digits(n)
  }

  lemma {:induction false} DigitsReadBack(n: nat)
    ensures |Digits(n)| > 0 && forall i :: 0 <= i < |Digits(n)| ==> IsDigit(Digits(n)[i])
    ensures DecimalValue(Digits(n)) == n
  {
    if n >= 10 {
      DigitsReadBack(n / 10);
      var s := Digits(n);
      assert s[..|s| - 1] == Digits(n / 10);
    }
  }

  /** Every `int` the writer puts in an attribute parses back to itself. */
  lemma ParseIntReadsToString(n: int)
    requires IsInt32(n)
    ensures ParseInt(IntToString(n)) == Ok(n)
  {
    if n < 0 {
      DigitsReadBack(-n);
      assert IntToString(n)[1..] == Digits(-n);
    } else {
      DigitsReadBack(n);
    }
  }

  /** `getIntegerAttribute`: the default when missing, else `Integer.parseInt` of the text, which may throw. */
  function GetIntegerAttribute(value: Option<JString>, defaultValue: int): (r: Result<int, Thrown>)
    ensures value.None? ==> r == Ok(defaultValue)
    ensures value.Some? ==> r == ParseInt(value.value)
    ensures r.Ok? && value.Some? ==> IsInt32(r.value)
  {
    match value
    case None => Ok(defaultValue)
    case Some(v) => ParseInt(v)
  }

  /**
   * `getFloatAttribute`: the default when missing, else `Float.parseFloat`
   * of the text, which may throw. The decimal parser is not part of this
   * model and is given as `parseFloat`.
   */
  function GetFloatAttribute(value: Option<JString>, defaultValue: word32, parseFloat: JString -> Result<word32, Thrown>): (r: Result<word32, Thrown>)
    ensures value.None? ==> r == Ok(defaultValue)
    ensures value.Some? ==> r == parseFloat(value.value)
  {
    match value
    case None => Ok(defaultValue)
    case Some(v) => parseFloat(v)
  }
}
