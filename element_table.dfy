/**
 * The element table (com.loganh.sandblaster.ElementTable): the elements in
 * ordinal order and the N×N matrix of transmutation rules, keyed by agent
 * ordinal and target ordinal, with the snapshot codec for the whole table.
 *
 * `TableValue` is the table's contents as a value; the codec and its round
 * trip are stated on it, and the `ElementTable` class that the engine
 * mutates is specified by the value it holds.
 */
module Table {
  import opened Bytes
  import opened Wrappers
  import opened JavaData
  import opened Draws
  import opened Catalog

  /** One agent's rules, by target ordinal; `None` is a null slot. */
  type Row = seq<Option<Transmutation>>

  /** The rule matrix, by agent ordinal. */
  type Matrix = seq<Row>

  predicate Square(m: Matrix, n: nat) {
    |m| == n && forall i :: 0 <= i < n ==> |m[i]| == n
  }

  /** `new Transmutation[n][n]`: every slot null. */
  function EmptyMatrix(n: nat): (m: Matrix)
    ensures Square(m, n)
  {
    seq(n, i => seq(n, j => None))
  }

  /** Two square matrices with the same slots are the same matrix. */
  lemma MatrixExt(a: Matrix, b: Matrix, n: nat)
    requires Square(a, n) && Square(b, n)
    requires forall i, j :: 0 <= i < n && 0 <= j < n ==> a[i][j] == b[i][j]
    ensures a == b
  {
    forall i | 0 <= i < n
      ensures a[i] == b[i]
    {
      assert forall j :: 0 <= j < n ==> a[i][j] == b[i][j];
    }
  }

  /** The non-null rules of a row, left to right. */
  function Present(row: Row): (r: seq<Transmutation>)
    ensures |r| <= |row|
  {
    if row == [] then []
    else Present(row[..|row| - 1]) + (match row[|row| - 1] case None => [] case Some(t) => [t])
  }

  /** Every rule of the row sits in the column of its target, as `addTransmutation` puts it. */
  predicate Placed(row: Row) {
    forall j :: 0 <= j < |row| && row[j].Some? ==> row[j].value.target == Some(j)
  }

  /** A rule record of the snapshot: the agent's ordinal and the rule. */
  datatype Record = Record(agent: nat, rule: Transmutation)

  /** The records of one agent's row, in target order. */
  function RowRecords(agent: nat, row: Row): (r: seq<Record>)
    ensures |r| == |Present(row)|
  {
    if row == [] then []
    else
      RowRecords(agent, row[..|row| - 1]) +
        (match row[|row| - 1] case None => [] case Some(t) => [Record(agent, t)])
  }

  /** All rule records, agent-major and target-minor, as `write` emits them. */
  function Records(m: Matrix): seq<Record> {
    if m == [] then [] else Records(m[..|m| - 1]) + RowRecords(|m| - 1, m[|m| - 1])
  }

  /** What `read` makes of a decay set that `write` wrote. */
  function DecayAsRead(d: Option<ProductSet>): Option<ProductSet> {
    match d
    case None => None
    case Some(p) => Some(p.AsRead())
  }

  /** What `read` makes of a rule slot that `write` wrote. */
  function SlotAsRead(slot: Option<Transmutation>): Option<Transmutation> {
    match slot
    case None => None
    case Some(t) => Some(t.AsRead())
  }

  function RowAsRead(row: Row): (r: Row)
    ensures |r| == |row|
  {
    seq(|row|, j requires 0 <= j < |row| => SlotAsRead(row[j]))
  }

  /** The contents of an element table. */
  datatype TableValue = TableValue(elements: seq<Element>, rules: Matrix) {

    /**
     * What every table the engine builds satisfies: an N×N matrix, ordinals
     * that are the positions, every rule in its target's column, and product
     * sets with one weight per product.
     */
    predicate Valid() {
      Square(rules, |elements|) &&
      (forall i :: 0 <= i < |elements| ==> elements[i].ordinal == i) &&
      (forall i :: 0 <= i < |elements| ==> Placed(rules[i])) &&
      (forall i :: 0 <= i < |elements| && elements[i].decayProducts.Some? ==>
        elements[i].decayProducts.value.WellFormed()) &&
      (forall i, j ::
        0 <= i < |elements| && 0 <= j < |elements| && rules[i][j].Some? && rules[i][j].value.product.Some?
        ==> rules[i][j].value.product.value.WellFormed())
    }

    /** `addTransmutation(agent, t)`: the slot (agent, target) holds `t`, and the agent counts one more rule. */
    function AddRule(agent: nat, t: Transmutation): (r: TableValue)
      requires Square(rules, |elements|) && agent < |elements|
      requires t.target.Some? && t.target.value < |elements|
      ensures |r.elements| == |elements| && Square(r.rules, |elements|)
      ensures r.rules[agent][t.target.value] == Some(t)
      ensures forall i, j :: 0 <= i < |elements| && 0 <= j < |elements| && (i != agent || j != t.target.value) ==>
        r.rules[i][j] == rules[i][j]
      ensures r.elements[agent] == elements[agent].(transmutationCount := elements[agent].transmutationCount + 1)
      ensures forall i :: 0 <= i < |elements| && i != agent ==> r.elements[i] == elements[i]
    {
      var e := elements[agent];
      TableValue(elements[agent := e.(transmutationCount := e.transmutationCount + 1)],
        rules[agent := rules[agent][t.target.value := Some(t)]])
    }

    /** `write`: count, elements, decay sets, rule records, and the `-1` sentinel. */
    function Encode(): Result<seq<byte>, IoError> {
      var es :- ElementBytes(elements);
      var rs :- RecordBytes(Records(rules));
      Ok(WriteByte(|elements|) + es + DecayBytes(elements) + rs + WriteByte(-1))
    }

    /** `equals`: pairwise equal elements, and pairwise equal rules, null where the other is null. */
    predicate Equals(other: TableValue)
      requires Square(rules, |elements|) && Square(other.rules, |other.elements|)
    {
      |elements| == |other.elements| &&
      forall i :: 0 <= i < |elements| ==>
        elements[i].Equals(other.elements[i]) &&
        forall j :: 0 <= j < |elements| ==>
          rules[i][j].Some? == other.rules[i][j].Some? &&
          (rules[i][j].Some? ==> rules[i][j].value.Equals(other.rules[i][j].value, elements, other.elements))
    }

    /**
     * The table `read` builds from what `write` wrote: each element's scalar
     * fields and decay set as read back, its ordinal, one rule counted per
     * non-null slot, and every rule as read back.
     */
    function AsRead(): (r: TableValue)
      requires Square(rules, |elements|)
      ensures Square(r.rules, |r.elements|) && |r.elements| == |elements|
    {
      TableValue(
        seq(|elements|, i requires 0 <= i < |elements| =>
          elements[i].AsRead().(decayProducts := DecayAsRead(elements[i].decayProducts), ordinal := i,
            transmutationCount := |Present(rules[i])|)),
        seq(|rules|, i requires 0 <= i < |rules| => RowAsRead(rules[i])))
    }
  }

  /** `new ElementTable(es)`: ordinal `i` for `es[i]`, and no rules. */
  function NewTable(es: seq<Element>): (r: TableValue)
    ensures |r.elements| == |es| && Square(r.rules, |es|)
  {
    TableValue(seq(|es|, i requires 0 <= i < |es| => es[i].(ordinal := i)), EmptyMatrix(|es|))
  }

  /** The bytes of `enc` on each value in turn; the first value that cannot be written stops the output. */
  function EncodeMany<T>(xs: seq<T>, enc: T -> Result<seq<byte>, IoError>): Result<seq<byte>, IoError> {
    if xs == [] then Ok([])
    else
      var init :- EncodeMany(xs[..|xs| - 1], enc);
      var last :- enc(xs[|xs| - 1]);
      Ok(init + last)
  }

  function EncodeElement(e: Element): Result<seq<byte>, IoError> {
    e.Encode()
  }

  /** The bytes of the elements, one `Element.write` after the other. */
  function ElementBytes(es: seq<Element>): Result<seq<byte>, IoError> {
    EncodeMany(es, EncodeElement)
  }

  /** One decay set: a `0` byte for null, the set's bytes otherwise. */
  function DecayOf(e: Element): seq<byte> {
    match e.decayProducts
    case None => WriteByte(0)
    case Some(p) => p.Encode()
  }

  function DecayBytes(es: seq<Element>): seq<byte> {
    if es == [] then [] else DecayBytes(es[..|es| - 1]) + DecayOf(es[|es| - 1])
  }

  /** One rule record: the agent's ordinal, then `Transmutation.write`. */
  function EncodeRecord(r: Record): Result<seq<byte>, IoError> {
    var rule :- r.rule.Encode();
    Ok(WriteByte(r.agent) + rule)
  }

  /** The bytes of the rule records, one after the other. */
  function RecordBytes(recs: seq<Record>): Result<seq<byte>, IoError> {
    EncodeMany(recs, EncodeRecord)
  }

  /** `k` values read back to back by `read`, each from where the previous one stopped. */
  function ReadMany<T>(s: seq<byte>, k: nat, read: seq<byte> -> Result<Got<T>, IoError>): (r: Result<Got<seq<T>>, IoError>)
    ensures r.Ok? ==> |r.value.value| == k
  {
    if k == 0 then Ok(Got([], s))
    else
      var init :- ReadMany(s, k - 1, read);
      var last :- read(init.rest);
      Ok(Got(init.value + [last.value], last.rest))
  }

  /** `k` elements read back to back. */
  function DecodeElements(s: seq<byte>, k: nat): (r: Result<Got<seq<Element>>, IoError>)
    ensures r.Ok? ==> |r.value.value| == k
  {
    ReadMany(s, k, Element.Decode)
  }

  /** `ProductSet.read` against a table of `n` elements. */
  function DecayReader(n: nat): seq<byte> -> Result<Got<Option<ProductSet>>, IoError> {
    s => ProductSet.Decode(s, n)
  }

  /** `k` decay sets read back to back, against a table of `n` elements. */
  function DecodeDecays(s: seq<byte>, k: nat, n: nat): (r: Result<Got<seq<Option<ProductSet>>>, IoError>)
    ensures r.Ok? ==> |r.value.value| == k
  {
    ReadMany(s, k, DecayReader(n))
  }

  /**
   * The record loop of `read`: an agent byte that resolves is followed by a
   * rule, which is added; the first one that does not resolve ends the table.
   * A rule whose target does not resolve makes `addTransmutation` throw.
   */
  function DecodeRecords(s: seq<byte>, v: TableValue): (r: Result<Got<TableValue>, IoError>)
    requires Square(v.rules, |v.elements|)
    ensures r.Ok? ==> |r.value.value.elements| == |v.elements| && Square(r.value.value.rules, |v.elements|)
    decreases |s|
  {
    var a :- ReadByte(s);
    match Resolved(a.value, |v.elements|)
    case None => Ok(Got(v, a.rest))
    case Some(agent) =>
      var t :- Transmutation.Decode(a.rest, |v.elements|);
      if t.value.target.None? then Err(NullPointer)
      else DecodeRecords(t.rest, v.AddRule(agent, t.value))
  }

  /** The table after the constructor and the decay loop of `read`. */
  function Loaded(es: seq<Element>, decays: seq<Option<ProductSet>>): (r: TableValue)
    requires |decays| == |es|
    ensures |r.elements| == |es| && Square(r.rules, |es|)
  {
    var t := NewTable(es);
    TableValue(seq(|es|, i requires 0 <= i < |es| => t.elements[i].(decayProducts := decays[i])), t.rules)
  }

  /** `ElementTable.read`. */
  function Decode(s: seq<byte>): Result<Got<TableValue>, IoError> {
    var count :- ReadByte(s);
    if count.value < 0 then Err(NegativeSize)
    else
      var k: nat := count.value;
      var es :- DecodeElements(count.rest, k);
      var decays :- DecodeDecays(es.rest, k, k);
      DecodeRecords(decays.rest, Loaded(es.value, decays.value))
  }

  // The round trip of the table codec.

  /** The records as `read` adds them: each rule as read back. */
  function ReadBack(recs: seq<Record>): (r: seq<Record>)
    ensures |r| == |recs|
  {
    seq(|recs|, k requires 0 <= k < |recs| => Record(recs[k].agent, recs[k].rule.AsRead()))
  }

  /** A record `addTransmutation` accepts: an agent and a target of the table. */
  predicate Fits(r: Record, n: nat) {
    r.agent < n && r.rule.target.Some? && r.rule.target.value < n
  }

  /** The records added one after the other, as the record loop of `read` adds them. */
  function AddAll(recs: seq<Record>, v: TableValue): (r: TableValue)
    requires Square(v.rules, |v.elements|)
    ensures |r.elements| == |v.elements| && Square(r.rules, |v.elements|)
  {
    if recs == [] then v
    else
      var w := AddAll(recs[..|recs| - 1], v);
      var last := recs[|recs| - 1];
      if Fits(last, |v.elements|) then w.AddRule(last.agent, last.rule) else w
  }

  lemma {:induction false} AddAllAppend(a: seq<Record>, b: seq<Record>, v: TableValue)
    requires Square(v.rules, |v.elements|)
    ensures AddAll(a + b, v) == AddAll(b, AddAll(a, v))
    decreases |b|
  {
    if b == [] {
      assert a + b == a;
    } else {
      var init := b[..|b| - 1];
      assert (a + b)[..|a + b| - 1] == a + init;
      AddAllAppend(a, init, v);
    }
  }

  /** Each element as `Element.read` gives it back. */
  function ReadAll(es: seq<Element>): (r: seq<Element>)
    ensures |r| == |es| && forall i :: 0 <= i < |es| ==> r[i] == es[i].AsRead()
  {
    if es == [] then [] else ReadAll(es[..|es| - 1]) + [es[|es| - 1].AsRead()]
  }

  /** Each decay set as `ProductSet.read` gives it back. */
  function DecaysRead(es: seq<Element>): (r: seq<Option<ProductSet>>)
    ensures |r| == |es| && forall i :: 0 <= i < |es| ==> r[i] == DecayAsRead(es[i].decayProducts)
  {
    if es == [] then [] else DecaysRead(es[..|es| - 1]) + [DecayAsRead(es[|es| - 1].decayProducts)]
  }

  lemma ReadManyStep<T>(s: seq<byte>, k: nat, read: seq<byte> -> Result<Got<T>, IoError>, init: Got<seq<T>>, last: Got<T>)
    requires 0 < k && ReadMany(s, k - 1, read) == Ok(init) && read(init.rest) == Ok(last)
    ensures ReadMany(s, k, read) == Ok(Got(init.value + [last.value], last.rest))
  {
  }

  lemma {:induction false} ElementsRoundTrip(es: seq<Element>, rest: seq<byte>)
    requires forall i :: 0 <= i < |es| ==> ElementEncodable(es[i])
    ensures ElementBytes(es).Ok?
    ensures DecodeElements(ElementBytes(es).value + rest, |es|) == Ok(Got(ReadAll(es), rest))
  {
    if es == [] {
      assert ElementBytes(es).value + rest == rest;
    } else {
      var init, last := es[..|es| - 1], es[|es| - 1];
      var tail := last.Encode().value;
      ElementsRoundTrip(init, tail + rest);
      var head := ElementBytes(init).value;
      assert ElementBytes(es).value == head + tail;
      Regroup(head, tail, rest);
      ElementRoundTrip(last, rest);
      var s := ElementBytes(es).value + rest;
      assert s == head + (tail + rest);
      ReadManyStep(s, |es|, Element.Decode, Got(ReadAll(init), tail + rest), Got(last.AsRead(), rest));
      assert ReadAll(es) == ReadAll(init) + [last.AsRead()];
    }
  }

  /** A decay set the table codec carries: null, or a set it can carry. */
  predicate DecayEncodable(e: Element, n: nat) {
    e.decayProducts.Some? ==> Encodable(e.decayProducts.value, n)
  }

  lemma DecayRoundTrip(e: Element, n: nat, rest: seq<byte>)
    requires DecayEncodable(e, n)
    ensures ProductSet.Decode(DecayOf(e) + rest, n) == Ok(Got(DecayAsRead(e.decayProducts), rest))
  {
    match e.decayProducts
    case None =>
      ReadWriteByte(0, rest);
    case Some(p) =>
      ProductSetRoundTrip(p, n, rest);
  }

  lemma {:induction false} DecaysRoundTrip(es: seq<Element>, n: nat, rest: seq<byte>)
    requires forall i :: 0 <= i < |es| ==> DecayEncodable(es[i], n)
    ensures DecodeDecays(DecayBytes(es) + rest, |es|, n) == Ok(Got(DecaysRead(es), rest))
  {
    if es == [] {
      assert DecayBytes(es) + rest == rest;
    } else {
      var init, last := es[..|es| - 1], es[|es| - 1];
      var tail := DecayOf(last);
      DecaysRoundTrip(init, n, tail + rest);
      Regroup(DecayBytes(init), tail, rest);
      DecayRoundTrip(last, n, rest);
    }
  }

  /** A record the table codec carries: an agent below 128 in a table of `n`, and a rule it carries. */
  predicate RecordEncodable(r: Record, n: nat) {
    r.agent < n && n <= 0x80 && RuleEncodable(r.rule, n)
  }

  /** One record, agent byte then rule, is read back and added. */
  lemma RecordRoundTrip(r: Record, w: TableValue, rest: seq<byte>)
    requires Square(w.rules, |w.elements|) && RecordEncodable(r, |w.elements|)
    ensures DecodeRecords(WriteByte(r.agent) + r.rule.Encode().value + rest, w) ==
      DecodeRecords(rest, w.AddRule(r.agent, r.rule.AsRead()))
  {
    var rule := r.rule.Encode().value;
    Regroup(WriteByte(r.agent), rule, rest);
    ReadWriteByte(r.agent, rule + rest);
    TransmutationRoundTrip(r.rule, |w.elements|, rest);
  }

  /** Reading the records back adds each rule, as read back, to the table. */
  lemma {:induction false} RecordsRoundTrip(recs: seq<Record>, v: TableValue, rest: seq<byte>)
    requires Square(v.rules, |v.elements|)
    requires forall r :: r in recs ==> RecordEncodable(r, |v.elements|)
    ensures RecordBytes(recs).Ok?
    ensures DecodeRecords(RecordBytes(recs).value + rest, v) == DecodeRecords(rest, AddAll(ReadBack(recs), v))
  {
    if recs == [] {
      assert RecordBytes(recs).value + rest == rest;
    } else {
      var init, last := recs[..|recs| - 1], recs[|recs| - 1];
      assert recs == init + [last];
      assert last in recs;
      var tail := WriteByte(last.agent) + last.rule.Encode().value;
      RecordsRoundTrip(init, v, tail + rest);
      assert RecordBytes(recs).value == RecordBytes(init).value + tail;
      Regroup(RecordBytes(init).value, tail, rest);
      var w := AddAll(ReadBack(init), v);
      RecordRoundTrip(last, w, rest);
      assert ReadBack(recs)[..|recs| - 1] == ReadBack(init);
    }
  }

  /** The `-1` sentinel ends the record loop. */
  lemma SentinelEnds(v: TableValue, rest: seq<byte>)
    requires Square(v.rules, |v.elements|)
    ensures DecodeRecords(WriteByte(-1) + rest, v) == Ok(Got(v, rest))
  {
    ReadWriteByte(-1, rest);
  }

  lemma {:induction false} RowRecordsIn(agent: nat, row: Row)
    ensures forall r :: r in RowRecords(agent, row) ==>
      r.agent == agent && exists j :: 0 <= j < |row| && row[j] == Some(r.rule)
  {
    if row != [] {
      var init := row[..|row| - 1];
      RowRecordsIn(agent, init);
      forall r | r in RowRecords(agent, row)
        ensures r.agent == agent && exists j :: 0 <= j < |row| && row[j] == Some(r.rule)
      {
        if r in RowRecords(agent, init) {
          var j :| 0 <= j < |init| && init[j] == Some(r.rule);
          assert row[j] == Some(r.rule);
        } else {
          assert row[|row| - 1] == Some(r.rule);
        }
      }
    }
  }

  /** Every record of a matrix comes from one of its slots. */
  lemma {:induction false} RecordsIn(m: Matrix)
    ensures forall r :: r in Records(m) ==>
      r.agent < |m| && exists j :: 0 <= j < |m[r.agent]| && m[r.agent][j] == Some(r.rule)
  {
    if m != [] {
      var init := m[..|m| - 1];
      RecordsIn(init);
      RowRecordsIn(|m| - 1, m[|m| - 1]);
      forall r | r in Records(m)
        ensures r.agent < |m| && exists j :: 0 <= j < |m[r.agent]| && m[r.agent][j] == Some(r.rule)
      {
        if r in Records(init) {
          var j :| 0 <= j < |init[r.agent]| && init[r.agent][j] == Some(r.rule);
          assert m[r.agent][j] == Some(r.rule);
        }
      }
    }
  }

  /** A slot after a fill: the slot read back where `on` and non-null, the old slot otherwise. */
  function Filled(slot: Option<Transmutation>, before: Option<Transmutation>, on: bool): Option<Transmutation> {
    if on && slot.Some? then SlotAsRead(slot) else before
  }

  /** `r` is `v` with the first `l` slots of `row`, as read back, added for `agent`. */
  predicate RowFilled(r: TableValue, v: TableValue, agent: nat, row: Row, l: nat)
    requires Square(v.rules, |v.elements|) && |r.elements| == |v.elements| && Square(r.rules, |v.elements|)
    requires |row| == |v.elements| && l <= |row|
  {
    (forall i, j :: 0 <= i < |v.elements| && 0 <= j < |v.elements| ==>
      r.rules[i][j] == Filled(row[j], v.rules[i][j], i == agent && j < l)) &&
    (forall i :: 0 <= i < |v.elements| ==>
      r.elements[i] == if i == agent then
        v.elements[i].(transmutationCount := v.elements[i].transmutationCount + |Present(row[..l])|)
      else v.elements[i])
  }

  /** How the records of a row prefix grow by one slot. */
  lemma RowRecordsStep(agent: nat, row: Row, l: nat)
    requires 0 < l <= |row|
    ensures RowRecords(agent, row[..l]) == RowRecords(agent, row[..l - 1]) +
      (match row[l - 1] case None => [] case Some(t) => [Record(agent, t)])
    ensures |Present(row[..l])| == |Present(row[..l - 1])| + (if row[l - 1].Some? then 1 else 0)
  {
    assert row[..l][..l - 1] == row[..l - 1];
  }

  lemma RowFilledStep(r: TableValue, v: TableValue, agent: nat, row: Row, l: nat)
    requires Square(v.rules, |v.elements|) && |r.elements| == |v.elements| && Square(r.rules, |v.elements|)
    requires agent < |v.elements| && |row| == |v.elements| && Placed(row) && 0 < l <= |row|
    requires RowFilled(r, v, agent, row, l - 1)
    ensures row[l - 1].Some? ==> RowFilled(r.AddRule(agent, row[l - 1].value.AsRead()), v, agent, row, l)
    ensures row[l - 1].None? ==> RowFilled(r, v, agent, row, l)
  {
    RowRecordsStep(agent, row, l);
    var n := |v.elements|;
    if row[l - 1].Some? {
      var t := row[l - 1].value.AsRead();
      assert t.target == Some(l - 1);
      var r' := r.AddRule(agent, t);
      forall i, j | 0 <= i < n && 0 <= j < n
        ensures r'.rules[i][j] == Filled(row[j], v.rules[i][j], i == agent && j < l)
      {
        if i != agent || j != l - 1 {
          assert r'.rules[i][j] == r.rules[i][j];
        }
      }
    }
  }

  /** Adding the records of one row, as read back, fills that row's non-null slots. */
  lemma {:induction false} RowSlots(agent: nat, row: Row, v: TableValue, l: nat)
    requires Square(v.rules, |v.elements|) && agent < |v.elements|
    requires |row| == |v.elements| && Placed(row) && l <= |row|
    ensures RowFilled(AddAll(ReadBack(RowRecords(agent, row[..l])), v), v, agent, row, l)
  {
    if l == 0 {
      assert row[..0] == [];
    } else {
      RowSlots(agent, row, v, l - 1);
      var before := RowRecords(agent, row[..l - 1]);
      var w := AddAll(ReadBack(before), v);
      RowRecordsStep(agent, row, l);
      RowFilledStep(w, v, agent, row, l);
      var recs := RowRecords(agent, row[..l]);
      if row[l - 1].Some? {
        assert ReadBack(recs)[..|recs| - 1] == ReadBack(before);
      } else {
        assert recs == before;
      }
    }
  }

  /** `r` is `v` with the non-null slots of the first `k` rows of `m`, as read back, added. */
  predicate MatrixFilled(r: TableValue, v: TableValue, m: Matrix, k: nat)
    requires Square(v.rules, |v.elements|) && |r.elements| == |v.elements| && Square(r.rules, |v.elements|)
    requires Square(m, |v.elements|) && k <= |m|
  {
    (forall i, j :: 0 <= i < |v.elements| && 0 <= j < |v.elements| ==>
      r.rules[i][j] == Filled(m[i][j], v.rules[i][j], i < k)) &&
    (forall i :: 0 <= i < |v.elements| ==>
      r.elements[i] == if i < k then
        v.elements[i].(transmutationCount := v.elements[i].transmutationCount + |Present(m[i])|)
      else v.elements[i])
  }

  lemma MatrixFilledStep(r: TableValue, w: TableValue, v: TableValue, m: Matrix, k: nat)
    requires Square(v.rules, |v.elements|) && Square(m, |v.elements|) && 0 < k <= |m|
    requires |w.elements| == |v.elements| && Square(w.rules, |v.elements|)
    requires |r.elements| == |v.elements| && Square(r.rules, |v.elements|)
    requires MatrixFilled(w, v, m, k - 1)
    requires RowFilled(r, w, k - 1, m[k - 1], |m[k - 1]|)
    ensures MatrixFilled(r, v, m, k)
  {
    var n := |v.elements|;
    var row := m[k - 1];
    assert row[..|row|] == row;
    forall i, j | 0 <= i < n && 0 <= j < n
      ensures r.rules[i][j] == Filled(m[i][j], v.rules[i][j], i < k)
    {
      assert r.rules[i][j] == Filled(row[j], w.rules[i][j], i == k - 1 && j < |row|);
    }
    forall i | 0 <= i < n
      ensures r.elements[i] == if i < k then
        v.elements[i].(transmutationCount := v.elements[i].transmutationCount + |Present(m[i])|)
      else v.elements[i]
    {
      if i == k - 1 {
        assert r.elements[i] ==
          w.elements[i].(transmutationCount := w.elements[i].transmutationCount + |Present(row[..|row|])|);
      } else {
        assert r.elements[i] == w.elements[i];
      }
    }
  }

  /** The records of the first `k` rows, as read back, are those of the first `k - 1` rows and then of row `k - 1`. */
  lemma RecordsStep(m: Matrix, k: nat)
    requires 0 < k <= |m|
    ensures ReadBack(Records(m[..k])) == ReadBack(Records(m[..k - 1])) + ReadBack(RowRecords(k - 1, m[k - 1]))
  {
    assert m[..k][..k - 1] == m[..k - 1];
    var a, b := Records(m[..k - 1]), RowRecords(k - 1, m[k - 1]);
    assert Records(m[..k]) == a + b;
    assert ReadBack(a + b) == ReadBack(a) + ReadBack(b);
  }

  /** Adding all records of a placed matrix, as read back, fills exactly its non-null slots. */
  lemma {:induction false} AllSlots(m: Matrix, v: TableValue, k: nat)
    requires Square(v.rules, |v.elements|) && Square(m, |v.elements|) && k <= |m|
    requires forall i :: 0 <= i < |m| ==> Placed(m[i])
    ensures MatrixFilled(AddAll(ReadBack(Records(m[..k])), v), v, m, k)
  {
    if k == 0 {
      assert m[..0] == [];
    } else {
      AllSlots(m, v, k - 1);
      var before := ReadBack(Records(m[..k - 1]));
      var row := ReadBack(RowRecords(k - 1, m[k - 1]));
      RecordsStep(m, k);
      AddAllAppend(before, row, v);
      var w := AddAll(before, v);
      RowSlots(k - 1, m[k - 1], w, |m[k - 1]|);
      assert m[k - 1][..|m[k - 1]|] == m[k - 1];
      MatrixFilledStep(AddAll(row, w), w, v, m, k);
    }
  }

  /** A table the codec carries: fewer than 128 elements, each with its decay set and rules carried. */
  predicate TableEncodable(v: TableValue) {
    v.Valid() && |v.elements| < 0x80 &&
    (forall i :: 0 <= i < |v.elements| ==> ElementEncodable(v.elements[i]) && DecayEncodable(v.elements[i], |v.elements|)) &&
    forall i, j :: 0 <= i < |v.elements| && 0 <= j < |v.elements| && v.rules[i][j].Some? ==>
      RuleEncodable(v.rules[i][j].value, |v.elements|)
  }

  /** How `read` proceeds once the count, the elements and the decay sets are read. */
  lemma DecodeSteps(s: seq<byte>, n: nat, body: seq<byte>, es: Got<seq<Element>>, ds: Got<seq<Option<ProductSet>>>)
    requires ReadByte(s) == Ok(Got(n, body))
    requires DecodeElements(body, n) == Ok(es) && DecodeDecays(es.rest, n, n) == Ok(ds)
    ensures Decode(s) == DecodeRecords(ds.rest, Loaded(es.value, ds.value))
  {
  }

  /** The table `read` builds is the one written, as read back. */
  lemma LoadedFilled(v: TableValue)
    requires v.Valid()
    ensures var loaded := Loaded(ReadAll(v.elements), DecaysRead(v.elements));
      AddAll(ReadBack(Records(v.rules)), loaded) == v.AsRead()
  {
    var n := |v.elements|;
    var loaded := Loaded(ReadAll(v.elements), DecaysRead(v.elements));
    var filled := AddAll(ReadBack(Records(v.rules)), loaded);
    AllSlots(v.rules, loaded, n);
    assert v.rules[..n] == v.rules;
    FilledRules(v, loaded, filled);
    FilledElements(v, loaded, filled);
  }

  lemma FilledRules(v: TableValue, loaded: TableValue, filled: TableValue)
    requires v.Valid() && loaded == Loaded(ReadAll(v.elements), DecaysRead(v.elements))
    requires |filled.elements| == |v.elements| && Square(filled.rules, |v.elements|)
    requires MatrixFilled(filled, loaded, v.rules, |v.elements|)
    ensures filled.rules == v.AsRead().rules
  {
    var n := |v.elements|;
    forall i, j | 0 <= i < n && 0 <= j < n
      ensures filled.rules[i][j] == v.AsRead().rules[i][j]
    {
      assert filled.rules[i][j] == Filled(v.rules[i][j], None, true);
    }
    MatrixExt(filled.rules, v.AsRead().rules, n);
  }

  lemma FilledElements(v: TableValue, loaded: TableValue, filled: TableValue)
    requires v.Valid() && loaded == Loaded(ReadAll(v.elements), DecaysRead(v.elements))
    requires |filled.elements| == |v.elements| && Square(filled.rules, |v.elements|)
    requires MatrixFilled(filled, loaded, v.rules, |v.elements|)
    ensures filled.elements == v.AsRead().elements
  {
    var n := |v.elements|;
    forall i | 0 <= i < n
      ensures filled.elements[i] == v.AsRead().elements[i]
    {
      assert loaded.elements[i] == v.elements[i].AsRead().(ordinal := i, decayProducts := DecayAsRead(v.elements[i].decayProducts));
    }
  }

  /** The bytes of `write`, regrouped as `read` consumes them. */
  lemma EncodeShape(v: TableValue, rest: seq<byte>)
    requires v.Encode().Ok?
    ensures var es := ElementBytes(v.elements).value;
      var rs := RecordBytes(Records(v.rules)).value;
      v.Encode().value + rest ==
        WriteByte(|v.elements|) + (es + (DecayBytes(v.elements) + (rs + (WriteByte(-1) + rest))))
  {
    var n := |v.elements|;
    var es := ElementBytes(v.elements).value;
    var ds := DecayBytes(v.elements);
    var rs := RecordBytes(Records(v.rules)).value;
    var stop := WriteByte(-1);
    var t3 := rs + (stop + rest);
    var t2 := ds + t3;
    Regroup(WriteByte(n) + es + ds + rs, stop, rest);
    Regroup(WriteByte(n) + es + ds, rs, stop + rest);
    Regroup(WriteByte(n) + es, ds, t3);
    Regroup(WriteByte(n), es, t2);
  }

  /** `ElementTable.read(write(t))` builds the table `t.AsRead()`, and stops right after the sentinel. */
  lemma TableRoundTrip(v: TableValue, rest: seq<byte>)
    requires TableEncodable(v)
    ensures v.Encode().Ok?
    ensures Decode(v.Encode().value + rest) == Ok(Got(v.AsRead(), rest))
  {
    var n := |v.elements|;
    ElementsRoundTrip(v.elements, []);
    RecordsIn(v.rules);
    assert forall r :: r in Records(v.rules) ==> RecordEncodable(r, n);
    RecordsRoundTrip(Records(v.rules), v, []);
    var es := ElementBytes(v.elements).value;
    var ds := DecayBytes(v.elements);
    var rs := RecordBytes(Records(v.rules)).value;
    var stop := WriteByte(-1);
    var t3 := rs + (stop + rest);
    var t2 := ds + t3;
    var t1 := es + t2;
    EncodeShape(v, rest);
    ReadWriteByte(n, t1);
    ElementsRoundTrip(v.elements, t2);
    DecaysRoundTrip(v.elements, n, t3);
    var loaded := Loaded(ReadAll(v.elements), DecaysRead(v.elements));
    DecodeSteps(v.Encode().value + rest, n, t1, Got(ReadAll(v.elements), t2), Got(DecaysRead(v.elements), t3));
    RecordsRoundTrip(Records(v.rules), loaded, stop + rest);
    var filled := AddAll(ReadBack(Records(v.rules)), loaded);
    SentinelEnds(filled, rest);
    LoadedFilled(v);
  }

  /** Every float of the table is a number, so Java's `==` on it is reflexive. */
  predicate NoNaNFloats(v: TableValue)
    requires Square(v.rules, |v.elements|)
  {
    (forall i :: 0 <= i < |v.elements| ==>
      var e := v.elements[i];
      !IsNaN(e.density) && !IsNaN(e.viscosity) && !IsNaN(e.decayProbability) &&
      (e.decayProducts.Some? ==> NoNaN(e.decayProducts.value.weights))) &&
    forall i, j ::
      0 <= i < |v.elements| && 0 <= j < |v.elements| && v.rules[i][j].Some? && v.rules[i][j].value.product.Some?
      ==> NoNaN(v.rules[i][j].value.product.value.weights)
  }

  /** A table read back `equals` the one written when none of its floats is NaN. */
  lemma TableAsReadEquals(v: TableValue)
    requires v.Valid() && NoNaNFloats(v)
    ensures v.AsRead().Equals(v)
  {
    var r := v.AsRead();
    var n := |v.elements|;
    forall i | 0 <= i < n
      ensures r.elements[i].Equals(v.elements[i])
    {
      ElementAsReadSame(v.elements[i]);
      if v.elements[i].decayProducts.Some? {
        ProductSetAsReadEquals(v.elements[i].decayProducts.value);
      }
    }
    forall i, j | 0 <= i < n && 0 <= j < n && v.rules[i][j].Some?
      ensures r.rules[i][j].value.Equals(v.rules[i][j].value, r.elements, v.elements)
    {
      TransmutationAsReadEquals(v.rules[i][j].value, r.elements, v.elements);
    }
  }

  // What the rules of one agent look like.

  /** `getTransmutations` lists a rule exactly when some slot of the row holds it. */
  lemma {:induction false} PresentExactly(row: Row)
    ensures forall t :: t in Present(row) <==> exists j :: 0 <= j < |row| && row[j] == Some(t)
  {
    if row != [] {
      var init := row[..|row| - 1];
      PresentExactly(init);
      forall t
        ensures t in Present(row) <==> exists j :: 0 <= j < |row| && row[j] == Some(t)
      {
        if t in Present(init) {
          var j :| 0 <= j < |init| && init[j] == Some(t);
          assert row[j] == Some(t);
        }
        if exists j :: 0 <= j < |row| && row[j] == Some(t) {
          var j :| 0 <= j < |row| && row[j] == Some(t);
          if j < |init| {
            assert init[j] == Some(t);
          }
        }
      }
    }
  }

  /** In a row where every rule sits in its target's column, the rules come out in strictly ascending target order. */
  lemma {:induction false} PresentAscending(row: Row)
    requires Placed(row)
    ensures forall a :: 0 <= a < |Present(row)| ==>
      Present(row)[a].target.Some? && Present(row)[a].target.value < |row|
    ensures forall a, b :: 0 <= a < b < |Present(row)| ==>
      Present(row)[a].target.value < Present(row)[b].target.value
  {
    if row != [] {
      var init := row[..|row| - 1];
      assert Placed(init) by {
        forall j | 0 <= j < |init| && init[j].Some?
          ensures init[j].value.target == Some(j)
        {
          assert init[j] == row[j];
        }
      }
      PresentAscending(init);
    }
  }

  /** `addTransmutation` keeps the table well formed when the rule's target is in the table and its products are well formed. */
  lemma AddRuleKeepsValid(v: TableValue, agent: nat, t: Transmutation)
    requires v.Valid() && agent < |v.elements| && t.target.Some? && t.target.value < |v.elements|
    requires t.product.Some? ==> t.product.value.WellFormed()
    ensures v.AddRule(agent, t).Valid()
  {
    var r := v.AddRule(agent, t);
    var n := |v.elements|;
    forall i | 0 <= i < n
      ensures Placed(r.rules[i])
    {
      forall j | 0 <= j < n && r.rules[i][j].Some?
        ensures r.rules[i][j].value.target == Some(j)
      {
        if i != agent || j != t.target.value {
          assert r.rules[i][j] == v.rules[i][j];
        }
      }
    }
  }

  /**
   * A second rule for the same agent and target replaces the first, yet the
   * agent's count goes up on both calls: the count is the number of calls,
   * not the number of rules in the row.
   */
  lemma OverwriteCountsTwice(v: TableValue, agent: nat, first: Transmutation, second: Transmutation)
    requires Square(v.rules, |v.elements|) && agent < |v.elements|
    requires first.target.Some? && first.target.value < |v.elements| && second.target == first.target
    ensures v.AddRule(agent, first).AddRule(agent, second).rules == v.AddRule(agent, second).rules
    ensures v.AddRule(agent, first).AddRule(agent, second).elements[agent].transmutationCount ==
      v.elements[agent].transmutationCount + 2
  {
    var n := |v.elements|;
    var twice, once := v.AddRule(agent, first).AddRule(agent, second), v.AddRule(agent, second);
    forall i, j | 0 <= i < n && 0 <= j < n
      ensures twice.rules[i][j] == once.rules[i][j]
    {
      if i != agent || j != first.target.value {
        assert twice.rules[i][j] == v.rules[i][j];
      }
    }
    MatrixExt(twice.rules, once.rules, n);
  }

  // Failures of `write` stop it: lemmas about prefixes of the output.

  /** Once some values fail to encode, so do those values followed by any others. */
  lemma {:induction false} EncodeManyFails<T>(a: seq<T>, b: seq<T>, enc: T -> Result<seq<byte>, IoError>)
    requires EncodeMany(a, enc).Err?
    ensures EncodeMany(a + b, enc) == Err(EncodeMany(a, enc).error)
    decreases |b|
  {
    if b == [] {
      assert a + b == a;
    } else {
      EncodeManyFails(a, b[..|b| - 1], enc);
      assert (a + b)[..|a + b| - 1] == a + b[..|b| - 1];
    }
  }

  /** Encoding two runs of values one after the other: the bytes of both, or the first failure. */
  lemma {:induction false} EncodeManyAppend<T>(a: seq<T>, b: seq<T>, enc: T -> Result<seq<byte>, IoError>)
    ensures EncodeMany(a, enc).Ok? && EncodeMany(b, enc).Ok? ==>
      EncodeMany(a + b, enc) == Ok(EncodeMany(a, enc).value + EncodeMany(b, enc).value)
    ensures EncodeMany(a, enc).Ok? && EncodeMany(b, enc).Err? ==> EncodeMany(a + b, enc) == Err(EncodeMany(b, enc).error)
    ensures EncodeMany(a, enc).Err? ==> EncodeMany(a + b, enc) == Err(EncodeMany(a, enc).error)
    decreases |b|
  {
    if b == [] {
      assert a + b == a;
      assert EncodeMany(a, enc).Ok? ==> EncodeMany(a, enc).value + [] == EncodeMany(a, enc).value;
    } else {
      var init := b[..|b| - 1];
      EncodeManyAppend(a, init, enc);
      assert (a + b)[..|a + b| - 1] == a + init;
      assert (a + b)[|a + b| - 1] == b[|b| - 1];
      if EncodeMany(a, enc).Ok? && EncodeMany(init, enc).Ok? && enc(b[|b| - 1]).Ok? {
        Regroup(EncodeMany(a, enc).value, EncodeMany(init, enc).value, enc(b[|b| - 1]).value);
      }
    }
  }

  /** When a prefix fails to encode, so does the whole sequence. */
  lemma EncodeManyPrefixFails<T>(a: seq<T>, b: seq<T>, enc: T -> Result<seq<byte>, IoError>)
    requires a <= b && EncodeMany(a, enc).Err?
    ensures EncodeMany(b, enc) == Err(EncodeMany(a, enc).error)
  {
    assert b == a + b[|a|..];
    EncodeManyFails(a, b[|a|..], enc);
  }

  lemma {:induction false} RowRecordsPrefix(agent: nat, row: Row, j: nat)
    requires j <= |row|
    ensures RowRecords(agent, row[..j]) <= RowRecords(agent, row)
    decreases |row|
  {
    if j == |row| {
      assert row[..j] == row;
    } else {
      var init := row[..|row| - 1];
      RowRecordsPrefix(agent, init, j);
      assert init[..j] == row[..j];
    }
  }

  lemma {:induction false} RecordsPrefix(m: Matrix, i: nat)
    requires i <= |m|
    ensures Records(m[..i]) <= Records(m)
    decreases |m|
  {
    if i == |m| {
      assert m[..i] == m;
    } else {
      var init := m[..|m| - 1];
      RecordsPrefix(init, i);
      assert init[..i] == m[..i];
    }
  }

  /** Encoding one more value: the bytes so far and its bytes, or its failure. */
  lemma EncodeManySnoc<T>(xs: seq<T>, x: T, enc: T -> Result<seq<byte>, IoError>, out: seq<byte>)
    requires EncodeMany(xs, enc) == Ok(out)
    ensures enc(x).Ok? ==> EncodeMany(xs + [x], enc) == Ok(out + enc(x).value)
    ensures enc(x).Err? ==> EncodeMany(xs + [x], enc) == Err(enc(x).error)
  {
    assert (xs + [x])[..|xs|] == xs;
  }

  /** One more slot of a row: nothing for a null slot, the record's bytes for a rule, or its failure for the whole row. */
  lemma RowBytesStep(agent: nat, row: Row, j: nat, out: seq<byte>, enc: Record -> Result<seq<byte>, IoError>)
    requires j < |row| && EncodeMany(RowRecords(agent, row[..j]), enc) == Ok(out)
    ensures row[j].None? ==> EncodeMany(RowRecords(agent, row[..j + 1]), enc) == Ok(out)
    ensures row[j].Some? && enc(Record(agent, row[j].value)).Ok? ==>
      EncodeMany(RowRecords(agent, row[..j + 1]), enc) == Ok(out + enc(Record(agent, row[j].value)).value)
    ensures row[j].Some? && enc(Record(agent, row[j].value)).Err? ==>
      EncodeMany(RowRecords(agent, row), enc) == Err(enc(Record(agent, row[j].value)).error)
  {
    RowRecordsStep(agent, row, j + 1);
    var recs := RowRecords(agent, row[..j]);
    if row[j].Some? {
      var rec := Record(agent, row[j].value);
      EncodeManySnoc(recs, rec, enc, out);
      if enc(rec).Err? {
        RowRecordsPrefix(agent, row, j + 1);
        EncodeManyPrefixFails(recs + [rec], RowRecords(agent, row), enc);
      }
    } else {
      assert recs + [] == recs;
    }
  }

  /** The records `write` has emitted after `j` slots of row `i` are a prefix of all records. */
  lemma RecordsSoFar(m: Matrix, i: nat, j: nat)
    requires i < |m| && j <= |m[i]|
    ensures Records(m[..i]) + RowRecords(i, m[i][..j]) <= Records(m)
  {
    RowRecordsPrefix(i, m[i], j);
    assert m[..i + 1][..i] == m[..i];
    assert Records(m[..i + 1]) == Records(m[..i]) + RowRecords(i, m[i]);
    RecordsPrefix(m, i + 1);
  }

  /** `k` reads with `read`, each from where the previous one stopped, the first failure ending the loop. */
  method ReadLoop<T>(s: seq<byte>, k: nat, read: seq<byte> -> Result<Got<T>, IoError>) returns (r: Result<Got<seq<T>>, IoError>)
    ensures r == ReadMany(s, k, read)
  {
    var values: seq<T> := [];
    var cursor := s;
    for i := 0 to k
      invariant ReadMany(s, i, read) == Ok(Got(values, cursor))
    {
      var next := read(cursor);
      if next.Err? {
        ReadManyFails(s, i + 1, k, read);
        return Err(next.error);
      }
      values := values + [next.value.value];
      cursor := next.value.rest;
    }
    return Ok(Got(values, cursor));
  }

  /** Once `i` reads fail, reading more fails the same way. */
  lemma {:induction false} ReadManyFails<T>(s: seq<byte>, i: nat, k: nat, read: seq<byte> -> Result<Got<T>, IoError>)
    requires i <= k && ReadMany(s, i, read).Err?
    ensures ReadMany(s, k, read) == Err(ReadMany(s, i, read).error)
    decreases k
  {
    if i < k {
      ReadManyFails(s, i, k - 1, read);
    }
  }

  // Names are compared ignoring case.

  /** `toLowerCase` on one UTF-16 unit, for the ASCII letters. */
  function LowerChar(c: char16): (r: char16)
    ensures 'A' as char16 <= c <= 'Z' as char16 ==> r == c + 32
    ensures !('A' as char16 <= c <= 'Z' as char16) ==> r == c
  {
    if 'A' as char16 <= c <= 'Z' as char16 then c + 32 else c
  }

  function Lower(s: JString): (r: JString)
    ensures |r| == |s|
  {
    seq(|s|, i requires 0 <= i < |s| => LowerChar(s[i]))
  }

  /** `name.toLowerCase().equals(other.toLowerCase())`. */
  predicate SameName(name: JString, other: JString) {
    Lower(name) == Lower(other)
  }

  /** Lower-casing a name first does not change which names it matches. */
  lemma SameNameIgnoresCase(name: JString, other: JString)
    ensures SameName(name, other) == SameName(name, Lower(other))
  {
    assert Lower(Lower(other)) == Lower(other) by {
      forall i | 0 <= i < |other|
        ensures Lower(Lower(other))[i] == Lower(other)[i]
      {
        assert !('A' as char16 <= LowerChar(other[i]) <= 'Z' as char16);
      }
    }
  }

  /**
   * The element table the engine mutates: the elements, the N×N rule slots
   * indexed by agent and target ordinal, and the generator the transmutation
   * draws come from. The element array is the caller's own array, which the
   * constructor and `read` update in place.
   */
  /**
   * What `maybeTransmutate` yields for the rule in a pair's slot, when the
   * table's next draw is `u` and the shared generator's next draw is `v`:
   * the target without a rule or when `u` misses the probability, and the
   * rule's pick otherwise.
   */
  function Transmuted(slot: Option<Transmutation>, target: nat, u: real, v: real): Option<nat>
    requires slot.Some? && slot.value.product.Some? ==> slot.value.product.value.WellFormed()
  {
    match slot
    case None => Some(target)
    case Some(t) => if Below(u, t.probability) then t.Picked(v) else Some(target)
  }

  class ElementTable {
    const elements: array<Element>
    const rules: array2<Option<Transmutation>>
    const random: Random

    /** The rule slots as a matrix. */
    function Rules(): (m: Matrix)
      reads rules
      ensures |m| == rules.Length0 && forall i :: 0 <= i < rules.Length0 ==> |m[i]| == rules.Length1
      ensures forall i, j :: 0 <= i < rules.Length0 && 0 <= j < rules.Length1 ==> m[i][j] == rules[i, j]
    {
      seq(rules.Length0, i requires 0 <= i < rules.Length0 reads rules =>
        seq(rules.Length1, j requires 0 <= j < rules.Length1 reads rules => rules[i, j]))
    }

    /** The table's contents. */
    function Value(): TableValue
      reads this, elements, rules
    {
      TableValue(elements[..], Rules())
    }

    /** The rule slots form an N×N matrix. */
    predicate Shaped()
      reads this
    {
      rules.Length0 == elements.Length && rules.Length1 == elements.Length
    }

    ghost predicate Valid()
      reads this, elements, rules
    {
      Shaped() && Value().Valid()
    }

    /** Each element's ordinal is its position, as the constructor sets it. */
    predicate Ordered()
      reads this, elements
    {
      forall k :: 0 <= k < elements.Length ==> elements[k].ordinal == k
    }

    lemma ValidIsOrdered()
      requires Valid()
      ensures Ordered()
    {
      forall k | 0 <= k < elements.Length
        ensures elements[k].ordinal == k
      {
        assert Value().elements[k] == elements[k];
      }
    }

    /** `new ElementTable(elements)`: each element gets its position as ordinal, and every slot is null. */
    constructor (elements: array<Element>, random: Random)
      modifies elements
      ensures this.elements == elements && this.random == random && fresh(rules) && Shaped()
      ensures Value() == NewTable(old(elements[..]))
    {
      this.elements := elements;
      this.random := random;
      var n := elements.Length;
      for i := 0 to n
        invariant forall k :: 0 <= k < i ==> elements[k] == old(elements[k]).(ordinal := k)
        invariant forall k :: i <= k < n ==> elements[k] == old(elements[k])
      {
        elements[i] := elements[i].(ordinal := i);
      }
      rules := new Option<Transmutation>[n, n]((i, j) => None);
      new;
      MatrixExt(Rules(), EmptyMatrix(n), n);
    }

    /** `resolve(String)`: the first element whose name matches ignoring case, or null. */
    method ResolveName(name: JString) returns (r: Option<Element>)
      ensures r.None? <==> forall k :: 0 <= k < elements.Length ==> !SameName(elements[k].name, name)
      ensures r.Some? ==> exists k ::
        0 <= k < elements.Length && r.value == elements[k] &&
        SameName(elements[k].name, name) && forall q :: 0 <= q < k ==> !SameName(elements[q].name, name)
    {
      for i := 0 to elements.Length
        invariant forall q :: 0 <= q < i ==> !SameName(elements[q].name, name)
      {
        if Lower(elements[i].name) == Lower(name) {
          return Some(elements[i]);
        }
      }
      return None;
    }

    /** `resolve(char)`: the first element with this id, or null. */
    method ResolveId(id: char16) returns (r: Option<Element>)
      ensures r.None? <==> forall k :: 0 <= k < elements.Length ==> elements[k].id != id
      ensures r.Some? ==> exists k ::
        0 <= k < elements.Length && r.value == elements[k] &&
        elements[k].id == id && forall q :: 0 <= q < k ==> elements[q].id != id
    {
      for i := 0 to elements.Length
        invariant forall q :: 0 <= q < i ==> elements[q].id != id
      {
        if elements[i].id == id {
          return Some(elements[i]);
        }
      }
      return None;
    }

    /**
     * `resolve(byte)`: the first element with this ordinal, or null. In a
     * table whose ordinals are the positions, that is the element at
     * position `b` when `0 <= b < N`.
     */
    method ResolveOrdinal(b: int) returns (r: Option<Element>)
      ensures r.None? <==> forall k :: 0 <= k < elements.Length ==> elements[k].ordinal != b
      ensures r.Some? ==> exists k ::
        0 <= k < elements.Length && r.value == elements[k] &&
        elements[k].ordinal == b && forall q :: 0 <= q < k ==> elements[q].ordinal != b
      ensures Ordered() ==> (r.Some? <==> Resolved(b, elements.Length).Some?)
      ensures Ordered() && r.Some? ==> r.value == elements[b]
    {
      assert Ordered() && 0 <= b < elements.Length ==> elements[b].ordinal == b;
      for i := 0 to elements.Length
        invariant forall q :: 0 <= q < i ==> elements[q].ordinal != b
      {
        if elements[i].ordinal == b {
          return Some(elements[i]);
        }
      }
      return None;
    }

    /**
     * `addTransmutation(agent, t)`: the slot (agent, target) holds `t`, and
     * the agent's count goes up by one. A null target throws.
     */
    method AddTransmutation(agent: nat, t: Transmutation)
      requires Shaped() && agent < elements.Length
      requires t.target.Some? && t.target.value < elements.Length
      modifies elements, rules
      ensures Value() == old(Value()).AddRule(agent, t)
    {
      ghost var before := Value();
      rules[agent, t.target.value] := Some(t);
      elements[agent] := elements[agent].(transmutationCount := elements[agent].transmutationCount + 1);
      MatrixExt(Rules(), before.AddRule(agent, t).rules, elements.Length);
    }

    /**
     * `maybeTransmutate(agent, target)`: with no rule for the pair, the target
     * stays, drawing nothing; otherwise one draw of the table's generator
     * decides, and only a draw below the rule's probability makes the rule
     * pick a product, with the engine's shared generator `rng`.
     */
    method MaybeTransmutate(agent: nat, target: nat, rng: Random) returns (r: Option<nat>)
      requires Valid() && agent < elements.Length && target < elements.Length && rng != random
      modifies random, rng
      ensures rules[agent, target].None? ==> r == Some(target) && random.drawn == old(random.drawn)
      ensures rules[agent, target].Some? ==> random.drawn == old(random.drawn) + 1
      ensures rules[agent, target].Some? && !Below(old(random.Peek()), rules[agent, target].value.probability) ==>
        r == Some(target) && rng.drawn == old(rng.drawn)
      ensures rules[agent, target].Some? && Below(old(random.Peek()), rules[agent, target].value.probability) ==>
        var t := rules[agent, target].value;
        (t.product.None? ==> r == None) &&
        (t.product.Some? ==> r == None || r in t.product.value.products) &&
        (t.product.Some? && |t.product.value.products| >= 2 ==>
          r == t.product.value.Choice(t.product.value.Scaled(old(rng.Peek()))))
      ensures rules[agent, target].Some? && Below(old(random.Peek()), rules[agent, target].value.probability) ==>
        var t := rules[agent, target].value;
        (t.product.Some? && |t.product.value.products| == 1 ==> r == t.product.value.products[0]) &&
        (t.product.Some? && |t.product.value.products| >= 1 ==> r in t.product.value.products) &&
        rng.drawn == old(rng.drawn) + t.DrawsTaken()
      ensures rules[agent, target].Some? && rules[agent, target].value.product.Some? ==>
        rules[agent, target].value.product.value.WellFormed()
      ensures r == Transmuted(rules[agent, target], target, old(random.Peek()), old(rng.Peek()))
    {
      var slot := rules[agent, target];
      if slot.None? {
        return Some(target);
      }
      var t := slot.value;
      assert Rules()[agent][target] == slot;
      var draw := random.NextFloat();
      if Below(draw, t.probability) {
        r := t.PickProduct(rng);
        return;
      }
      return Some(target);
    }

    /** `getTransmutations(agent)`: the agent's non-null rules, by ascending target. */
    method GetTransmutations(agent: nat) returns (r: seq<Transmutation>)
      requires Shaped() && agent < elements.Length
      ensures r == Present(Value().rules[agent])
    {
      var row := Value().rules[agent];
      r := [];
      for i := 0 to elements.Length
        invariant r == Present(row[..i])
      {
        assert row[..i + 1][..i] == row[..i];
        if rules[agent, i].Some? {
          r := r + [rules[agent, i].value];
        }
      }
      assert row[..elements.Length] == row;
    }

    /** `write`: the element count, the elements, the decay sets, the rule records agent by agent and target by target, and `-1`. */
    method Write() returns (r: Result<seq<byte>, IoError>)
      requires Valid()
      ensures r == Value().Encode()
    {
      var out := WriteByte(elements.Length);
      var es := WriteElements();
      if es.Err? {
        return Err(es.error);
      }
      out := out + es.value;
      var ds := WriteDecays();
      out := out + ds;
      var rs := WriteRecords();
      if rs.Err? {
        return Err(rs.error);
      }
      out := out + rs.value;
      out := out + WriteByte(-1);
      return Ok(out);
    }

    /** The element loop of `write`: `Element.write` for each element in turn. */
    method WriteElements() returns (r: Result<seq<byte>, IoError>)
      ensures r == ElementBytes(elements[..])
    {
      var n := elements.Length;
      var out := [];
      for i := 0 to n
        invariant ElementBytes(elements[..i]) == Ok(out)
      {
        assert elements[..i + 1][..i] == elements[..i];
        var bytes := elements[i].Encode();
        if bytes.Err? {
          EncodeManyPrefixFails(elements[..i + 1], elements[..], EncodeElement);
          return Err(bytes.error);
        }
        out := out + bytes.value;
      }
      assert elements[..n] == elements[..];
      return Ok(out);
    }

    /** The decay loop of `write`: a `0` byte for a null decay set, `ProductSet.write` otherwise. */
    method WriteDecays() returns (out: seq<byte>)
      ensures out == DecayBytes(elements[..])
    {
      var n := elements.Length;
      out := [];
      for i := 0 to n
        invariant out == DecayBytes(elements[..i])
      {
        assert elements[..i + 1][..i] == elements[..i];
        match elements[i].decayProducts
        case None =>
          out := out + WriteByte(0);
        case Some(p) =>
          var bytes := p.Write();
          out := out + bytes;
      }
      assert elements[..n] == elements[..];
    }

    /** The rule loops of `write`: for each agent in turn, its records. */
    method WriteRecords() returns (r: Result<seq<byte>, IoError>)
      requires Valid()
      ensures r == RecordBytes(Records(Value().rules))
    {
      ValidIsOrdered();
      var n := elements.Length;
      ghost var m := Value().rules;
      var out: seq<byte> := [];
      for i := 0 to n
        invariant RecordBytes(Records(m[..i])) == Ok(out)
      {
        var row := WriteRow(i);
        assert m[..i + 1][..i] == m[..i];
        EncodeManyAppend(Records(m[..i]), RowRecords(i, m[i]), EncodeRecord);
        if row.Err? {
          RecordsPrefix(m, i + 1);
          EncodeManyPrefixFails(Records(m[..i + 1]), Records(m), EncodeRecord);
          return Err(row.error);
        }
        out := out + row.value;
      }
      assert m[..n] == m;
      return Ok(out);
    }

    /** The inner rule loop of `write`: for each target in turn, the agent's ordinal and the rule, where there is one. */
    method WriteRow(i: nat) returns (r: Result<seq<byte>, IoError>)
      requires Shaped() && Ordered() && i < elements.Length
      ensures r == RecordBytes(RowRecords(i, Value().rules[i]))
    {
      var n := elements.Length;
      ghost var row := Value().rules[i];
      var agent := elements[i];
      var out: seq<byte> := [];
      for j := 0 to n
        invariant RecordBytes(RowRecords(i, row[..j])) == Ok(out)
      {
        var slot := rules[agent.ordinal, elements[j].ordinal];
        assert slot == row[j];
        RowBytesStep(i, row, j, out, EncodeRecord);
        if slot.Some? {
          var bytes := EncodeRecord(Record(agent.ordinal, slot.value));
          if bytes.Err? {
            return Err(bytes.error);
          }
          out := out + bytes.value;
        }
      }
      assert row[..n] == row;
      return Ok(out);
    }

    /** The element loop of `read`: `k` elements, one `Element.read` after the other. */
    static method ReadElements(s: seq<byte>, k: nat) returns (r: Result<Got<seq<Element>>, IoError>)
      ensures r == DecodeElements(s, k)
    {
      r := ReadLoop(s, k, Element.Decode);
    }

    /** The decay loop of `read`: one `ProductSet.read` per element, stored as its decay set. */
    method ReadDecays(s: seq<byte>) returns (r: Result<seq<byte>, IoError>)
      modifies elements
      ensures var d := DecodeDecays(s, elements.Length, elements.Length);
        (r.Ok? <==> d.Ok?) &&
        (r.Ok? ==>
          r.value == d.value.rest &&
          forall q :: 0 <= q < elements.Length ==> elements[q] == old(elements[q]).(decayProducts := d.value.value[q]))
    {
      var n := elements.Length;
      var cursor := s;
      ghost var decays: seq<Option<ProductSet>> := [];
      var read := DecayReader(n);
      for i := 0 to n
        invariant DecodeDecays(s, i, n) == Ok(Got(decays, cursor))
        invariant forall q :: 0 <= q < i ==> elements[q] == old(elements[q]).(decayProducts := decays[q])
        invariant forall q :: i <= q < n ==> elements[q] == old(elements[q])
      {
        var p := read(cursor);
        if p.Err? {
          ReadManyFails(s, i + 1, n, read);
          return Err(p.error);
        }
        elements[i] := elements[i].(decayProducts := p.value.value);
        decays := decays + [p.value.value];
        cursor := p.value.rest;
      }
      return Ok(cursor);
    }

    /** The rule loop of `read`: while the agent byte resolves, read a rule and add it. */
    method ReadRules(s: seq<byte>) returns (r: Result<seq<byte>, IoError>)
      requires Shaped() && Ordered()
      modifies elements, rules
      ensures var d := DecodeRecords(s, old(Value()));
        (r.Ok? <==> d.Ok?) && (r.Ok? ==> r.value == d.value.rest && Value() == d.value.value)
    {
      var cursor := s;
      while true
        invariant Shaped() && Ordered()
        invariant DecodeRecords(s, old(Value())) == DecodeRecords(cursor, Value())
        decreases |cursor|
      {
        var a := ReadByte(cursor);
        if a.Err? {
          return Err(a.error);
        }
        var agent := ResolveOrdinal(a.value.value);
        if agent.None? {
          return Ok(a.value.rest);
        }
        var t := Transmutation.Decode(a.value.rest, elements.Length);
        if t.Err? {
          return Err(t.error);
        }
        if t.value.value.target.None? {
          return Err(NullPointer);
        }
        AddTransmutation(agent.value.ordinal, t.value.value);
        cursor := t.value.rest;
      }
    }

    /** `ElementTable.read`: the count, the elements, a new table over them, the decay sets, then the rules. */
    static method Read(s: seq<byte>, random: Random) returns (r: Result<Got<ElementTable>, IoError>)
      ensures r.Ok? <==> Decode(s).Ok?
      ensures r.Ok? ==>
        fresh(r.value.value) && fresh(r.value.value.elements) && r.value.value.random == random &&
        r.value.value.Value() == Decode(s).value.value && r.value.rest == Decode(s).value.rest
    {
      var count := ReadByte(s);
      if count.Err? {
        return Err(count.error);
      }
      if count.value.value < 0 {
        return Err(NegativeSize);
      }
      var k: nat := count.value.value;
      var read := ReadElements(count.value.rest, k);
      if read.Err? {
        return Err(read.error);
      }
      var es := read.value.value;
      var slots := new Element[k](i requires 0 <= i < k => es[i]);
      assert slots[..] == es;
      var table := new ElementTable(slots, random);
      var decays := table.ReadDecays(read.value.rest);
      if decays.Err? {
        return Err(decays.error);
      }
      ghost var d := DecodeDecays(read.value.rest, k, k).value.value;
      assert table.Value() == Loaded(es, d);
      var rest := table.ReadRules(decays.value);
      if rest.Err? {
        return Err(rest.error);
      }
      return Ok(Got(table, rest.value));
    }
  }
}
