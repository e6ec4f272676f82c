/**
 * The native engine's element table (`Element`, `ProductSet`,
 * `Transmutation` and `ElementTable` in jni/sandblaster.cc), read from the
 * snapshot bytes that the Java `ElementTable.write` produces.
 *
 * An `Element*` into the table is its ordinal here, and `NULL` is `None`.
 * The size × size block of rules, which the C++ keeps as one array indexed
 * `agent * size + target`, is a two-dimensional array indexed `[agent, target]`.
 * Where the C++ would crash or index memory it does not own, a read ends in
 * a `Fault`.
 */
module NativeTable {
  import opened Bytes
  import opened Wrappers
  import opened Draws
  import Catalog
  import opened NativeStream

  /** How a table read goes wrong where the C++ crashes or has undefined behaviour. */
  datatype Fault =
    | ReadBeforeStart  // a name length skipped the cursor before the array, and the next read indexes there
    | NegativeSize     // a negative count reached `new T[count]`
    | NullTarget       // a rule's target ordinal resolved to nothing, and `t.target->ordinal` dereferences it

  type ProductSet = Catalog.ProductSet

  /** `ProductSet()`: no products. The C++ leaves the arrays and the total of an empty set unset; nothing reads them. */
  const NO_PRODUCTS: ProductSet := Catalog.ProductSet([], [], 0.0)

  datatype Element = Element(
    ordinal: int, id: int, color: int, mobile: byte, density: word32, viscosity: word32,
    lifetime: int, transmutationCount: int, decayProbability: word32, decayProducts: ProductSet)

  datatype Transmutation = Transmutation(probability: word32, target: Option<nat>, products: ProductSet)

  /** `Transmutation()`: probability 0, no target, no products. */
  const NO_RULE := Transmutation(0, None, NO_PRODUCTS)

  /** One record of the rule list: the agent's ordinal and the rule read after it. */
  datatype Record = Record(agent: nat, rule: Transmutation)

  /** What the table holds after a read: its elements, and the rule for every (agent, target) pair. */
  datatype Table = Table(elements: seq<Element>, rules: seq<seq<Transmutation>>)

  /** A product set whose products are elements of an `n`-element table, or nothing. */
  predicate Closed(ps: ProductSet, n: nat) {
    ps.WellFormed() && forall k :: 0 <= k < |ps.products| && ps.products[k].Some? ==> ps.products[k].value < n
  }

  /** A rule of an `n`-element table: its target and its products are elements of the table. */
  predicate RuleIn(t: Transmutation, n: nat) {
    Closed(t.products, n) && (t.target.Some? ==> t.target.value < n)
  }

  /** A method's result and cursor against a specification: the same value and cursor, or the same fault. */
  predicate Agrees<T(==)>(r: Result<T, Fault>, spec: Result<Taken<T>, Fault>, pos: int) {
    match spec
    case Ok(v) => r == Ok(v.value) && pos == v.pos
    case Err(e) => r == Err(e)
  }

  // The stream format, as functions of the bytes and the cursor.

  /** `Element::Read` for the element with ordinal `i`: the name is skipped by its length, `drawable` is read and dropped. */
  function ElementAt(data: seq<byte>, pos: nat, i: int): (r: Result<Taken<Element>, Fault>)
    ensures r.Ok? ==> r.value.pos >= 0 && r.value.value.ordinal == i && IsInt16(r.value.value.id)
    ensures r.Ok? ==> r.value.value.transmutationCount == 0 && r.value.value.decayProducts == NO_PRODUCTS
    ensures r.Err? <==> Jshort(data, pos).pos + Jshort(data, pos).value < 0
    ensures r.Err? ==> r.error == ReadBeforeStart
  {
    var n := Jshort(data, pos);
    if n.pos + n.value < 0 then Err(ReadBeforeStart)
    else
      var id := Jshort(data, n.pos + n.value);
      var color := Jint(data, id.pos);
      var drawable := Jboolean(data, color.pos);
      var mobile := Jboolean(data, drawable.pos);
      var density := Jfloat(data, mobile.pos);
      var viscosity := Jfloat(data, density.pos);
      var decay := Jfloat(data, viscosity.pos);
      var lifetime := Jint(data, decay.pos);
      Ok(Taken(Element(i, id.value, color.value, mobile.value, density.value, viscosity.value,
                      lifetime.value, 0, decay.value, NO_PRODUCTS), lifetime.pos))
  }

  /** The first `k` elements, numbered 0 .. k-1 in stream order. */
  function ElementsFrom(data: seq<byte>, pos: nat, k: nat): (r: Result<Taken<seq<Element>>, Fault>)
    ensures r.Ok? ==> r.value.pos >= 0 && |r.value.value| == k
  {
    if k == 0 then Ok(Taken([], pos))
    else
      var init :- ElementsFrom(data, pos, k - 1);
      var last :- ElementAt(data, init.pos, k - 1);
      Ok(Taken(init.value + [last.value], last.pos))
  }

  /** The elements read are numbered in stream order, with 16-bit ids, no rules counted yet and no decay products. */
  lemma {:induction false} ElementsNumbered(data: seq<byte>, pos: nat, k: nat)
    requires ElementsFrom(data, pos, k).Ok?
    ensures var es := ElementsFrom(data, pos, k).value.value;
      forall i :: 0 <= i < k ==>
        es[i].ordinal == i && IsInt16(es[i].id) && es[i].transmutationCount == 0 && es[i].decayProducts == NO_PRODUCTS
  {
    if k > 0 {
      ElementsNumbered(data, pos, k - 1);
    }
  }

  /** Once an element read faults, reading more elements ends in the same fault. */
  lemma {:induction false} ElementsFaultPersists(data: seq<byte>, pos: nat, k: nat, m: nat)
    requires k <= m && ElementsFrom(data, pos, k).Err?
    ensures ElementsFrom(data, pos, m) == ElementsFrom(data, pos, k)
    decreases m - k
  {
    if k < m {
      ElementsFaultPersists(data, pos, k, m - 1);
    }
  }

  /** `k` product ordinals, each resolved against an `n`-element table. */
  function OrdinalsFrom(data: seq<byte>, pos: nat, k: nat, n: nat): (r: Taken<seq<Option<nat>>>)
    ensures pos <= r.pos && (pos <= |data| ==> r.pos <= |data|)
    ensures |r.value| == k && forall j :: 0 <= j < k && r.value[j].Some? ==> r.value[j].value < n
  {
    if k == 0 then Taken([], pos)
    else
      var init := OrdinalsFrom(data, pos, k - 1, n);
      var b := Jbyte(data, init.pos);
      Taken(init.value + [Catalog.Resolved(b.value, n)], b.pos)
  }

  /** `k` float words. */
  function WordsFrom(data: seq<byte>, pos: nat, k: nat): (r: Taken<seq<word32>>)
    ensures pos <= r.pos && (pos <= |data| ==> r.pos <= |data|)
    ensures |r.value| == k
  {
    if k == 0 then Taken([], pos)
    else
      var init := WordsFrom(data, pos, k - 1);
      var w := Jfloat(data, init.pos);
      Taken(init.value + [w.value], w.pos)
  }

  /** `ProductSet::Read`: a count, that many ordinals, then that many weights, totalled. */
  function ProductSetAt(data: seq<byte>, pos: nat, n: nat): (r: Result<Taken<ProductSet>, Fault>)
    ensures r.Ok? ==> pos <= r.value.pos && (pos <= |data| ==> r.value.pos <= |data|)
    ensures r.Err? <==> Jbyte(data, pos).value < 0
    ensures r.Err? ==> r.error == NegativeSize
  {
    var count := Jbyte(data, pos);
    if count.value < 0 then Err(NegativeSize)
    else
      var ords := OrdinalsFrom(data, count.pos, count.value, n);
      var ws := WordsFrom(data, ords.pos, count.value);
      Ok(Taken(Catalog.ProductSet(ords.value, ws.value, Catalog.WeightSum(ws.value)), ws.pos))
  }

  /** A product set read names only elements of the table, and its total is the sum of its weights. */
  lemma ProductSetAtClosed(data: seq<byte>, pos: nat, n: nat)
    requires ProductSetAt(data, pos, n).Ok?
    ensures var ps := ProductSetAt(data, pos, n).value.value;
      Closed(ps, n) && ps.totalWeight == Catalog.WeightSum(ps.weights)
  {
  }

  /** The decay sets of the first `k` elements of an `n`-element table. */
  function DecaysFrom(data: seq<byte>, pos: nat, k: nat, n: nat): (r: Result<Taken<seq<ProductSet>>, Fault>)
    ensures r.Ok? ==> pos <= r.value.pos && |r.value.value| == k
  {
    if k == 0 then Ok(Taken([], pos))
    else
      var init :- DecaysFrom(data, pos, k - 1, n);
      var last :- ProductSetAt(data, init.pos, n);
      Ok(Taken(init.value + [last.value], last.pos))
  }

  /** Every decay set read names only elements of the table. */
  lemma {:induction false} DecaysClosed(data: seq<byte>, pos: nat, k: nat, n: nat)
    requires DecaysFrom(data, pos, k, n).Ok?
    ensures var ds := DecaysFrom(data, pos, k, n).value.value; forall j :: 0 <= j < k ==> Closed(ds[j], n)
  {
    if k > 0 {
      DecaysClosed(data, pos, k - 1, n);
      ProductSetAtClosed(data, DecaysFrom(data, pos, k - 1, n).value.pos, n);
    }
  }

  /** Once a decay set read faults, reading more decay sets ends in the same fault. */
  lemma {:induction false} DecaysFaultPersists(data: seq<byte>, pos: nat, k: nat, m: nat, n: nat)
    requires k <= m && DecaysFrom(data, pos, k, n).Err?
    ensures DecaysFrom(data, pos, m, n) == DecaysFrom(data, pos, k, n)
    decreases m - k
  {
    if k < m {
      DecaysFaultPersists(data, pos, k, m - 1, n);
      assert DecaysFrom(data, pos, m - 1, n).Err?;
    }
  }

  /** `Transmutation::Read`: the target ordinal, the probability, the product set. */
  function RuleAt(data: seq<byte>, pos: nat, n: nat): (r: Result<Taken<Transmutation>, Fault>)
    ensures r.Ok? ==> pos <= r.value.pos && (pos <= |data| ==> r.value.pos <= |data|)
    ensures r.Ok? && r.value.value.target.Some? ==> r.value.value.target.value < n
  {
    var ord := Jbyte(data, pos);
    var probability := Jfloat(data, ord.pos);
    var products :- ProductSetAt(data, probability.pos, n);
    Ok(Taken(Transmutation(probability.value, Catalog.Resolved(ord.value, n), products.value), products.pos))
  }

  /** A rule read belongs to the table. */
  lemma RuleAtIn(data: seq<byte>, pos: nat, n: nat)
    requires RuleAt(data, pos, n).Ok?
    ensures RuleIn(RuleAt(data, pos, n).value.value, n)
  {
    ProductSetAtClosed(data, Jfloat(data, Jbyte(data, pos).pos).pos, n);
  }

  /**
   * The rule list, with the end-of-stream stop this model adds: records
   * follow each other until the stream is exhausted or an agent ordinal does
   * not resolve. A record whose target does not resolve is a fault.
   */
  function RecordsFrom(data: seq<byte>, pos: nat, n: nat): (r: Result<Taken<seq<Record>>, Fault>)
    ensures r.Ok? ==> pos <= r.value.pos
    decreases |data| - pos
  {
    if pos >= |data| then Ok(Taken([], pos))
    else
      var ord := Jbyte(data, pos);
      match Catalog.Resolved(ord.value, n)
      case None => Ok(Taken([], ord.pos))
      case Some(agent) =>
        var rule :- RuleAt(data, ord.pos, n);
        if rule.value.target.None? then Err(NullTarget)
        else
          var more :- RecordsFrom(data, rule.pos, n);
          Ok(Taken([Record(agent, rule.value)] + more.value, more.pos))
  }

  /** Every record read names an element of the table as its agent and holds a rule of the table. */
  lemma {:induction false} RecordsIn(data: seq<byte>, pos: nat, n: nat)
    requires RecordsFrom(data, pos, n).Ok?
    ensures var rs := RecordsFrom(data, pos, n).value.value;
      forall j :: 0 <= j < |rs| ==> rs[j].agent < n && RuleIn(rs[j].rule, n)
    decreases |data| - pos
  {
    if pos < |data| {
      var ord := Jbyte(data, pos);
      if Catalog.Resolved(ord.value, n).Some? {
        RuleAtIn(data, ord.pos, n);
        RecordsIn(data, RuleAt(data, ord.pos, n).value.pos, n);
      }
    }
  }

  /** How many records name `a` as their agent: `transmutation_count` after the read. */
  function Count(records: seq<Record>, a: nat): nat {
    if records == [] then 0
    else Count(records[..|records| - 1], a) + (if records[|records| - 1].agent == a then 1 else 0)
  }

  /** The rule the slot for `(a, t)` holds after the records are stored in order: the last one for the pair. */
  function LastRule(records: seq<Record>, a: nat, t: nat): Transmutation {
    if records == [] then NO_RULE
    else
      var last := records[|records| - 1];
      if last.agent == a && last.rule.target == Some(t) then last.rule
      else LastRule(records[..|records| - 1], a, t)
  }

  /** The element records once decay sets and rule counts are filled in. */
  function Built(es: seq<Element>, decays: seq<ProductSet>, records: seq<Record>): (r: seq<Element>)
    requires |decays| == |es|
    ensures |r| == |es|
  {
    seq(|es|, i requires 0 <= i < |es| => es[i].(decayProducts := decays[i], transmutationCount := Count(records, i)))
  }

  /** The size × size rule block. */
  function Rules(records: seq<Record>, n: nat): (r: seq<seq<Transmutation>>)
    ensures |r| == n && forall a :: 0 <= a < n ==> |r[a]| == n
  {
    seq(n, a requires 0 <= a < n => seq(n, t requires 0 <= t < n => LastRule(records, a, t)))
  }

  /** `ElementTable::Read`: the count, the elements, their decay sets, then the rule list. */
  function TableAt(data: seq<byte>, pos: nat): (r: Result<Taken<Table>, Fault>)
  {
    var count := Jbyte(data, pos);
    if count.value < 0 then Err(NegativeSize)
    else
      var n := count.value;
      var es :- ElementsFrom(data, count.pos, n);
      var ds :- DecaysFrom(data, es.pos, n, n);
      var rs :- RecordsFrom(data, ds.pos, n);
      Ok(Taken(Table(Built(es.value, ds.value, rs.value), Rules(rs.value, n)), rs.pos))
  }

  /** `TableAt` in terms of the results of its three parts. */
  lemma TableParts(data: seq<byte>, pos: nat)
    requires Jbyte(data, pos).value >= 0
    ensures var n := Jbyte(data, pos).value;
      match ElementsFrom(data, Jbyte(data, pos).pos, n)
      case Err(e) => TableAt(data, pos) == Err(e)
      case Ok(es) =>
        match DecaysFrom(data, es.pos, n, n)
        case Err(e) => TableAt(data, pos) == Err(e)
        case Ok(ds) =>
          match RecordsFrom(data, ds.pos, n)
          case Err(e) => TableAt(data, pos) == Err(e)
          case Ok(rs) => TableAt(data, pos) == Ok(Taken(Table(Built(es.value, ds.value, rs.value), Rules(rs.value, n)), rs.pos))
  {
  }

  /** The records read so far in front of what the rest of the list yields. */
  function Prepend(records: seq<Record>, rest: Result<Taken<seq<Record>>, Fault>): Result<Taken<seq<Record>>, Fault> {
    match rest
    case Ok(v) => Ok(Taken(records + v.value, v.pos))
    case Err(e) => Err(e)
  }

  // What the read makes of the rule list.

  /** `transmutation_count` goes up once per record that names the element as its agent. */
  lemma {:induction false} CountSnoc(records: seq<Record>, r: Record, a: nat)
    ensures Count(records + [r], a) == Count(records, a) + (if r.agent == a then 1 else 0)
  {
    assert (records + [r])[..|records|] == records;
  }

  /** A record overwrites the slot of its own pair and no other. */
  lemma {:induction false} LastRuleSnoc(records: seq<Record>, r: Record, a: nat, t: nat)
    ensures LastRule(records + [r], a, t) == if r.agent == a && r.rule.target == Some(t) then r.rule else LastRule(records, a, t)
  {
    assert (records + [r])[..|records|] == records;
  }

  /**
   * A later record for the same pair overwrites an earlier one: the slot
   * holds the rule of the last record for `(a, t)`, whatever came before it.
   */
  lemma {:induction false} LaterRecordWins(records: seq<Record>, k: nat, a: nat, t: nat)
    requires k < |records| && records[k].agent == a && records[k].rule.target == Some(t)
    requires forall j :: k < j < |records| ==> records[j].agent != a || records[j].rule.target != Some(t)
    ensures LastRule(records, a, t) == records[k].rule
  {
    if k < |records| - 1 {
      var init := records[..|records| - 1];
      assert records == init + [records[|records| - 1]];
      LaterRecordWins(init, k, a, t);
      LastRuleSnoc(init, records[|records| - 1], a, t);
    }
  }

  /** A pair that no record names keeps the empty rule, with probability 0. */
  lemma {:induction false} UnnamedPairKeepsNoRule(records: seq<Record>, a: nat, t: nat)
    requires forall j :: 0 <= j < |records| ==> records[j].agent != a || records[j].rule.target != Some(t)
    ensures LastRule(records, a, t) == NO_RULE
  {
    if records != [] {
      UnnamedPairKeepsNoRule(records[..|records| - 1], a, t);
    }
  }

  /** Every slot of the block holds a rule of the table. */
  lemma {:induction false} LastRuleIn(records: seq<Record>, n: nat, a: nat, t: nat)
    requires forall j :: 0 <= j < |records| ==> RuleIn(records[j].rule, n)
    ensures RuleIn(LastRule(records, a, t), n)
  {
    if records != [] {
      LastRuleIn(records[..|records| - 1], n, a, t);
    }
  }

  /** With no records read yet, the list is what the rest of the stream yields. */
  lemma PrependNothing(rest: Result<Taken<seq<Record>>, Fault>)
    ensures Prepend([], rest) == rest
  {
    if rest.Ok? {
      assert [] + rest.value.value == rest.value.value;
    }
  }

  /** Reading a record and then the rest of the list is the same as reading the list from the record on. */
  lemma PrependTwice(records: seq<Record>, r: Record, rest: Result<Taken<seq<Record>>, Fault>)
    ensures Prepend(records, Prepend([r], rest)) == Prepend(records + [r], rest)
  {
    if rest.Ok? {
      assert records + ([r] + rest.value.value) == (records + [r]) + rest.value.value;
    }
  }

  /** One record of the list, read after an agent ordinal that resolves to `a`. */
  lemma RecordStep(data: seq<byte>, at: nat, n: nat, a: nat)
    requires at < |data| && Catalog.Resolved(Jbyte(data, at).value, n) == Some(a)
    ensures match RuleAt(data, at + 1, n)
      case Err(e) => RecordsFrom(data, at, n) == Err(e)
      case Ok(rule) =>
        if rule.value.target.None? then RecordsFrom(data, at, n) == Err(NullTarget)
        else RecordsFrom(data, at, n) == Prepend([Record(a, rule.value)], RecordsFrom(data, rule.pos, n))
  {
  }

  /** The rule list ends where the stream does: with no byte left there are no more records. */
  lemma ExhaustedStreamEndsRecords(data: seq<byte>, pos: nat, n: nat)
    requires pos >= |data|
    ensures RecordsFrom(data, pos, n) == Ok(Taken([], pos))
  {
  }

  // The rule loop as the C++ writes it, without the end-of-stream stop.

  /**
   * One turn of `ElementTable::Read`'s rule loop as written: read an agent
   * ordinal; if it resolves, read the record's rule. `None` is the loop's exit.
   */
  function RecordStepAsWritten(data: seq<byte>, pos: nat, n: nat): (r: Option<Result<Taken<Record>, Fault>>)
    ensures r.Some? ==> Jbyte(data, pos).value < n
  {
    var ord := Jbyte(data, pos);
    match Catalog.Resolved(ord.value, n)
    case None => None
    case Some(agent) =>
      match RuleAt(data, ord.pos, n)
      case Err(e) => Some(Err(e))
      case Ok(rule) => Some(Ok(Taken(Record(agent, rule.value), rule.pos)))
  }

  /**
   * With the stream exhausted and at least one element, the loop as written
   * never exits: every read yields 0, ordinal 0 resolves, and the turn reads
   * the record "element 0 on element 0, probability 0" and leaves the cursor
   * where it was, so the next turn starts from the same state.
   */
  lemma AsWrittenLoopNeverExits(data: seq<byte>, pos: nat, n: nat)
    requires pos >= |data| && n > 0
    ensures RecordStepAsWritten(data, pos, n) == Some(Ok(Taken(Record(0, Transmutation(0, Some(0), NO_PRODUCTS)), pos)))
  {
    assert OrdinalsFrom(data, pos, 0, n) == Taken([], pos);
    assert WordsFrom(data, pos, 0) == Taken([], pos);
    assert Catalog.WeightSum([]) == 0.0;
  }

  /** One more weight adds its value to the running total. */
  lemma WeightSumSnoc(ws: seq<word32>, w: word32)
    ensures Catalog.WeightSum(ws + [w]) == Catalog.WeightSum(ws) + FloatValue(w)
  {
    assert Catalog.Reals(ws + [w])[..|ws|] == Catalog.Reals(ws);
  }

  /** The pick `PickProduct` makes from a non-empty set with the value `v` of `random()`. */
  function Picked(ps: ProductSet, v: Random31): Option<nat>
    requires ps.WellFormed() && |ps.products| > 0
  {
    ps.Choice(ps.Scaled(v as real / 0x8000_0000 as real))
  }

  /**
   * `ProductSet::PickProduct`: null for an empty set, without a draw;
   * otherwise one draw, even for a single product, scaled by the total and
   * walked through the weights. (Its `size == 0` branch is dead code.)
   */
  method PickProduct(ps: ProductSet, rng: CRandom) returns (r: Option<nat>)
    requires ps.WellFormed()
    modifies rng
    ensures |ps.products| == 0 ==> r == None && rng.drawn == old(rng.drawn)
    ensures |ps.products| > 0 ==> r == Picked(ps, old(rng.Peek())) && rng.drawn == old(rng.drawn) + 1
    ensures |ps.products| > 0 ==> r in ps.products
  {
    if |ps.products| == 0 {
      return None;
    }
    var f := rng.NextFloat();
    r := ps.Walk(ps.Scaled(f));
    Catalog.ChoiceIsAProduct(ps, ps.Scaled(f));
  }

  /** Whatever `random()` returns, the pick from a non-empty set is one of its products. */
  lemma PickedIsAProduct(ps: ProductSet, v: Random31)
    requires ps.WellFormed() && |ps.products| > 0
    ensures Picked(ps, v) in ps.products
  {
    Catalog.ChoiceIsAProduct(ps, ps.Scaled(v as real / 0x8000_0000 as real));
  }

  /**
   * What `MaybeTransmutate` yields when the particle of element `target`
   * meets the rule `t`, and `random()` will return `s(k)`, `s(k + 1)`, ...:
   * the target when the probability is at most 0 or the first value misses
   * it, and otherwise nothing for an empty set or the pick of the second value.
   */
  function Outcome(t: Transmutation, target: nat, s: nat -> Random31, k: nat): Option<nat>
    requires t.products.WellFormed()
  {
    if AtMostZero(t.probability) || !Below(s(k) as real / 0x8000_0000 as real, t.probability) then Some(target)
    else if |t.products.products| == 0 then None
    else Picked(t.products, s(k + 1))
  }

  /** How many values of `random()` that outcome consumes. */
  function OutcomeDraws(t: Transmutation, s: nat -> Random31, k: nat): nat {
    if AtMostZero(t.probability) then 0
    else if !Below(s(k) as real / 0x8000_0000 as real, t.probability) || |t.products.products| == 0 then 1
    else 2
  }

  /** C's `p <= 0` on a float: true for both zeros and every negative number, false for NaN. */
  predicate AtMostZero(w: word32) {
    !IsNaN(w) && (IsZero(w) || w >= 0x8000_0000)
  }

  class ElementTable {
    var size: int
    var elements: array<Element>
    /** The rule for agent `a` and target `t` at `[a, t]`. */
    var transmutations: array2<Transmutation>

    /** A table as a read leaves it: sized arrays, 16-bit ids, and every product and target an element of the table. */
    ghost predicate Valid()
      reads this, elements, transmutations
    {
      0 <= size && elements.Length == size && transmutations.Length0 == size && transmutations.Length1 == size &&
      (forall i :: 0 <= i < size ==> IsInt16(elements[i].id) && Closed(elements[i].decayProducts, size)) &&
      (forall a, t :: 0 <= a < size && 0 <= t < size ==> RuleIn(transmutations[a, t], size))
    }

    /** The table's contents as a value. */
    ghost function Value(): Table
      reads this, elements, transmutations
      requires Valid()
    {
      var rules, n := transmutations, size;
      Table(elements[..], seq(n, a requires 0 <= a < n reads rules => seq(n, t requires 0 <= t < n reads rules => rules[a, t])))
    }

    /** `new ElementTable()`: zero-initialised, so no elements and no rules. */
    constructor ()
      ensures Valid() && size == 0
    {
      size := 0;
      elements := new Element[0];
      transmutations := new Transmutation[0, 0];
    }

    /** `GetElementById`: the first element, in ordinal order, whose (16-bit, signed) id equals `id`. */
    method GetElementById(id: char16) returns (r: Option<nat>)
      requires Valid()
      ensures r.Some? ==> r.value < size && elements[r.value].id == id
      ensures r.Some? ==> forall j :: 0 <= j < r.value ==> elements[j].id != id
      ensures r.None? ==> forall j :: 0 <= j < size ==> elements[j].id != id
      ensures id >= 0x8000 ==> r.None?
    {
      for i := 0 to size
        invariant forall j :: 0 <= j < i ==> elements[j].id != id
      {
        if elements[i].id == id {
          return Some(i);
        }
      }
      return None;
    }

    /** `GetElementByOrdinal`: the element with that ordinal, or null outside `[0, size)`. */
    function GetElementByOrdinal(ord: int): (r: Option<nat>)
      reads this
      ensures r.Some? <==> 0 <= ord < size
      ensures r.Some? ==> r.value == ord
    {
      if 0 <= ord < size then Some(ord) else None
    }

    /**
     * `MaybeTransmutate(agent, target)`: the target itself when either is
     * null or the pair's rule has probability at most 0, without a draw;
     * otherwise one draw, and below the probability the rule's pick.
     */
    method MaybeTransmutate(agent: Option<nat>, target: Option<nat>, rng: CRandom) returns (r: Option<nat>)
      requires Valid()
      requires agent.Some? ==> agent.value < size
      requires target.Some? ==> target.value < size
      modifies rng
      ensures agent.None? || target.None? ==> r == target && rng.drawn == old(rng.drawn)
      ensures agent.Some? && target.Some? ==>
        var t := transmutations[agent.value, target.value];
        if AtMostZero(t.probability) then r == target && rng.drawn == old(rng.drawn)
        else if !Below(old(rng.Peek()) as real / 0x8000_0000 as real, t.probability) then
          r == target && rng.drawn == old(rng.drawn) + 1
        else if |t.products.products| == 0 then r == None && rng.drawn == old(rng.drawn) + 1
        else r == Picked(t.products, rng.stream(old(rng.drawn) + 1)) && rng.drawn == old(rng.drawn) + 2
      ensures agent.Some? && target.Some? ==>
        var t := transmutations[agent.value, target.value];
        t.products.WellFormed() &&
        r == Outcome(t, target.value, rng.stream, old(rng.drawn)) && rng.drawn == old(rng.drawn) + OutcomeDraws(t, rng.stream, old(rng.drawn))
      ensures r.Some? ==> r.value < size
    {
      if agent.None? || target.None? {
        return target;
      }
      var t := transmutations[agent.value, target.value];
      if AtMostZero(t.probability) {
        return target;
      }
      var f := rng.NextFloat();
      if Below(f, t.probability) {
        r := PickProduct(t.products, rng);
        return;
      }
      return target;
    }

    /** `ProductSet::Read` against this table: ordinals resolve by `GetElementByOrdinal`. */
    method ReadProductSet(stream: DataStream) returns (r: Result<ProductSet, Fault>)
      requires 0 <= stream.pos && 0 <= size
      modifies stream
      ensures Agrees(r, ProductSetAt(stream.data, old(stream.pos), size), stream.pos)
    {
      ghost var p0 := stream.pos;
      var count := stream.ReadJbyte();
      if count < 0 {
        return Err(NegativeSize);
      }
      ghost var p1 := stream.pos;
      var products: seq<Option<nat>> := [];
      for i := 0 to count
        invariant 0 <= stream.pos
        invariant OrdinalsFrom(stream.data, p1, i, size) == Taken(products, stream.pos)
      {
        var ord := stream.ReadJbyte();
        products := products + [GetElementByOrdinal(ord)];
      }
      ghost var p2 := stream.pos;
      var weights: seq<word32> := [];
      var total := 0.0;
      for i := 0 to count
        invariant 0 <= stream.pos
        invariant WordsFrom(stream.data, p2, i) == Taken(weights, stream.pos)
        invariant total == Catalog.WeightSum(weights)
      {
        var w := stream.ReadJfloat();
        WeightSumSnoc(weights, w);
        weights := weights + [w];
        total := total + FloatValue(w);
      }
      r := Ok(Catalog.ProductSet(products, weights, total));
    }

    /** `Element::Read` into the element with ordinal `i`, whose count starts at 0 and whose decay set is empty. */
    static method ReadElement(stream: DataStream, i: int) returns (r: Result<Element, Fault>)
      requires 0 <= stream.pos
      modifies stream
      ensures Agrees(r, ElementAt(stream.data, old(stream.pos), i), stream.pos)
    {
      var n := stream.ReadJshort();
      stream.Skip(n);
      if stream.pos < 0 {
        return Err(ReadBeforeStart);
      }
      var id := stream.ReadJshort();
      var color := stream.ReadJint();
      var _ := stream.ReadJboolean();
      var mobile := stream.ReadJboolean();
      var density := stream.ReadJfloat();
      var viscosity := stream.ReadJfloat();
      var decay := stream.ReadJfloat();
      var lifetime := stream.ReadJint();
      r := Ok(Element(i, id, color, mobile, density, viscosity, lifetime, 0, decay, NO_PRODUCTS));
    }

    /** `Transmutation::Read` against this table. */
    method ReadRule(stream: DataStream) returns (r: Result<Transmutation, Fault>)
      requires 0 <= stream.pos && 0 <= size
      modifies stream
      ensures Agrees(r, RuleAt(stream.data, old(stream.pos), size), stream.pos)
    {
      var ord := stream.ReadJbyte();
      var target := GetElementByOrdinal(ord);
      var probability := stream.ReadJfloat();
      var products := ReadProductSet(stream);
      if products.Err? {
        return Err(products.error);
      }
      r := Ok(Transmutation(probability, target, products.value));
    }

    /**
     * `ElementTable::Read`: on success the table holds exactly what
     * `TableAt` describes and the cursor is past the rule list; a fault
     * ends the read with it.
     */
    method Read(stream: DataStream) returns (r: Result<(), Fault>)
      requires 0 <= stream.pos
      modifies this, stream
      ensures match TableAt(stream.data, old(stream.pos))
        case Ok(v) => r.Ok? && Valid() && fresh(elements) && fresh(transmutations) && Value() == v.value && stream.pos == v.pos
        case Err(e) => r == Err(e)
    {
      ghost var p0 := stream.pos;
      var count := stream.ReadJbyte();
      if count < 0 {
        return Err(NegativeSize);
      }
      size := count;
      elements := new Element[count](_ => Element(0, 0, 0, 0, 0, 0, 0, 0, 0, NO_PRODUCTS));
      transmutations := new Transmutation[count, count]((a, t) => NO_RULE);
      ghost var p1 := stream.pos;
      var ok := ReadElements(stream);
      ghost var es := ElementsFrom(stream.data, p1, count);
      if ok.Err? {
        TableParts(stream.data, p0);
        return ok;
      }
      ghost var p2 := stream.pos;
      var decays := ReadDecays(stream);
      ghost var ds := DecaysFrom(stream.data, p2, count, count);
      if decays.Err? {
        TableParts(stream.data, p0);
        return Err(decays.error);
      }
      ghost var base := elements[..];
      ElementsNumbered(stream.data, p1, count);
      DecaysClosed(stream.data, p2, count, count);
      ghost var p3 := stream.pos;
      var done, records := ReadRecords(stream);
      TableParts(stream.data, p0);
      if done.Err? {
        return done;
      }
      RecordsIn(stream.data, p3, count);
      Assembled(es.value.value, ds.value.value, base, records);
      return Ok(());
    }

    /** The arrays after the three loops hold the table `TableAt` builds from their parts. */
    lemma Assembled(es: seq<Element>, ds: seq<ProductSet>, base: seq<Element>, records: seq<Record>)
      requires |es| == |ds| == |base| == size
      requires forall i :: 0 <= i < size ==> IsInt16(es[i].id) && Closed(ds[i], size)
      requires forall i :: 0 <= i < size ==> base[i] == es[i].(decayProducts := ds[i])
      requires forall j :: 0 <= j < |records| ==> records[j].agent < size && RuleIn(records[j].rule, size)
      requires Tallied(base, records)
      ensures Valid() && Value() == Table(Built(es, ds, records), Rules(records, size))
    {
      forall a, t | 0 <= a < size && 0 <= t < size {
        LastRuleIn(records, size, a, t);
      }
      assert elements[..] == Built(es, ds, records);
      var rules := Rules(records, size);
      forall a | 0 <= a < size
        ensures Value().rules[a] == rules[a]
      {
        assert forall t :: 0 <= t < size ==> Value().rules[a][t] == transmutations[a, t] == rules[a][t];
      }
    }
    /** The first loop of `ElementTable::Read`: every element in ordinal order. */
    method ReadElements(stream: DataStream) returns (r: Result<(), Fault>)
      requires 0 <= stream.pos && 0 <= size == elements.Length
      modifies stream, elements
      ensures match ElementsFrom(stream.data, old(stream.pos), size)
        case Ok(v) => r.Ok? && elements[..] == v.value && stream.pos == v.pos
        case Err(e) => r == Err(e)
    {
      ghost var p0 := stream.pos;
      for i := 0 to size
        invariant 0 <= stream.pos
        invariant ElementsFrom(stream.data, p0, i) == Ok(Taken(elements[..i], stream.pos))
      {
        var ok := ReadElementInto(stream, i, p0);
        if ok.Err? {
          ElementsFaultPersists(stream.data, p0, i + 1, size);
          return ok;
        }
      }
      assert elements[..size] == elements[..];
      return Ok(());
    }

    /** One turn of the element loop: element `i` is read into its slot. */
    method ReadElementInto(stream: DataStream, i: nat, ghost p0: nat) returns (r: Result<(), Fault>)
      requires 0 <= stream.pos && i < size == elements.Length
      requires ElementsFrom(stream.data, p0, i) == Ok(Taken(elements[..i], stream.pos))
      modifies stream, elements
      ensures r.Ok? ==> 0 <= stream.pos && ElementsFrom(stream.data, p0, i + 1) == Ok(Taken(elements[..i + 1], stream.pos))
      ensures r.Err? ==> ElementsFrom(stream.data, p0, i + 1) == Err(r.error)
    {
      var e := ReadElement(stream, i);
      if e.Err? {
        return Err(e.error);
      }
      elements[i] := e.value;
      assert elements[..i + 1] == old(elements[..i]) + [e.value];
      return Ok(());
    }

    /** The second loop: each element's decay set, in ordinal order. */
    method ReadDecays(stream: DataStream) returns (r: Result<seq<ProductSet>, Fault>)
      requires 0 <= stream.pos && 0 <= size == elements.Length
      modifies stream, elements
      ensures match DecaysFrom(stream.data, old(stream.pos), size, size)
        case Ok(v) => r == Ok(v.value) && stream.pos == v.pos &&
          forall j :: 0 <= j < size ==> elements[j] == old(elements[j]).(decayProducts := v.value[j])
        case Err(e) => r == Err(e)
    {
      ghost var p0 := stream.pos;
      ghost var base := elements[..];
      var decays: seq<ProductSet> := [];
      for i := 0 to size
        invariant 0 <= stream.pos
        invariant DecaysFrom(stream.data, p0, i, size) == Ok(Taken(decays, stream.pos))
        invariant forall j :: 0 <= j < i ==> elements[j] == base[j].(decayProducts := decays[j])
        invariant forall j :: i <= j < size ==> elements[j] == base[j]
      {
        var ps := ReadDecayInto(stream, i, p0, decays);
        if ps.Err? {
          DecaysFaultPersists(stream.data, p0, i + 1, size, size);
          return Err(ps.error);
        }
        decays := decays + [ps.value];
      }
      return Ok(decays);
    }

    /** One turn of the decay loop: element `i`'s decay set is read into it. */
    method ReadDecayInto(stream: DataStream, i: nat, ghost p0: nat, ghost decays: seq<ProductSet>) returns (r: Result<ProductSet, Fault>)
      requires 0 <= stream.pos && i < size == elements.Length
      requires DecaysFrom(stream.data, p0, i, size) == Ok(Taken(decays, stream.pos))
      modifies stream, elements
      ensures r.Ok? ==> 0 <= stream.pos && DecaysFrom(stream.data, p0, i + 1, size) == Ok(Taken(decays + [r.value], stream.pos))
      ensures r.Ok? ==> elements[i] == old(elements[i]).(decayProducts := r.value)
      ensures r.Err? ==> DecaysFrom(stream.data, p0, i + 1, size) == Err(r.error)
      ensures forall j :: 0 <= j < size && j != i ==> elements[j] == old(elements[j])
    {
      r := ReadProductSet(stream);
      if r.Ok? {
        elements[i] := elements[i].(decayProducts := r.value);
      }
    }

    /** The element counts and the rule block after the records `records`, over the elements `base`. */
    ghost predicate Tallied(base: seq<Element>, records: seq<Record>)
      reads this, elements, transmutations
    {
      elements.Length == |base| == size && transmutations.Length0 == size && transmutations.Length1 == size &&
      (forall j :: 0 <= j < size ==> elements[j] == base[j].(transmutationCount := Count(records, j))) &&
      (forall a, t :: 0 <= a < size && 0 <= t < size ==> transmutations[a, t] == LastRule(records, a, t))
    }

    /**
     * The rule loop: while the agent ordinal resolves, count the record
     * against its agent and store its rule at `[agent, target]`. The loop
     * also stops when the stream is exhausted; see `AsWrittenLoopNeverExits`.
     */
    method ReadRecords(stream: DataStream) returns (r: Result<(), Fault>, ghost records: seq<Record>)
      requires 0 <= stream.pos && 0 <= size == elements.Length
      requires transmutations.Length0 == size && transmutations.Length1 == size
      requires forall i :: 0 <= i < size ==> elements[i].transmutationCount == 0
      requires forall a, t :: 0 <= a < size && 0 <= t < size ==> transmutations[a, t] == NO_RULE
      modifies stream, elements, transmutations
      ensures match RecordsFrom(stream.data, old(stream.pos), size)
        case Ok(v) => r.Ok? && records == v.value && stream.pos == v.pos && Tallied(old(elements[..]), v.value)
        case Err(e) => r == Err(e)
    {
      ghost var p0 := stream.pos;
      ghost var at := stream.pos;
      ghost var base := elements[..];
      records := [];
      PrependNothing(RecordsFrom(stream.data, p0, size));
      var agent := NextAgent(stream);
      while agent.Some?
        invariant 0 <= at <= stream.pos
        invariant RecordsFrom(stream.data, p0, size) == Prepend(records, RecordsFrom(stream.data, at, size))
        invariant agent.None? ==> RecordsFrom(stream.data, at, size) == Ok(Taken([], stream.pos))
        invariant agent.Some? ==>
          at < |stream.data| && stream.pos == at + 1 && agent == Catalog.Resolved(Jbyte(stream.data, at).value, size)
        invariant Tallied(base, records)
        decreases if agent.Some? then |stream.data| - stream.pos + 1 else 0
      {
        var ok, record := ReadRecordAfter(stream, base, records, at, agent.value);
        if ok.Err? {
          return ok, records;
        }
        PrependTwice(records, record, RecordsFrom(stream.data, stream.pos, size));
        records := records + [record];
        at := stream.pos;
        agent := NextAgent(stream);
      }
      return Ok(()), records;
    }

    /**
     * One turn of the rule loop, after the agent byte at `at` resolved to
     * `a`: the rule is read, and a rule with a target is counted and stored.
     */
    method ReadRecordAfter(stream: DataStream, ghost base: seq<Element>, ghost records: seq<Record>, ghost at: nat, a: nat)
      returns (r: Result<(), Fault>, ghost record: Record)
      requires Tallied(base, records)
      requires at < |stream.data| && stream.pos == at + 1
      requires Catalog.Resolved(Jbyte(stream.data, at).value, size) == Some(a)
      modifies stream, elements, transmutations
      ensures r.Err? ==> RecordsFrom(stream.data, at, size) == Err(r.error)
      ensures r.Ok? ==> at < stream.pos && Tallied(base, records + [record])
      ensures r.Ok? ==> RecordsFrom(stream.data, at, size) == Prepend([record], RecordsFrom(stream.data, stream.pos, size))
    {
      RecordStep(stream.data, at, size, a);
      var rule := ReadRule(stream);
      if rule.Err? {
        return Err(rule.error), Record(a, NO_RULE);
      }
      if rule.value.target.None? {
        return Err(NullTarget), Record(a, NO_RULE);
      }
      var next := Record(a, rule.value);
      Tally(base, records, next);
      return Ok(()), next;
    }

    /**
     * The loop's next agent: the next byte's ordinal when it resolves. An
     * exhausted stream ends the list here, where the C++ reads a 0.
     */
    method NextAgent(stream: DataStream) returns (agent: Option<nat>)
      requires 0 <= stream.pos && 0 <= size
      modifies stream
      ensures agent.None? ==> RecordsFrom(stream.data, old(stream.pos), size) == Ok(Taken([], stream.pos))
      ensures agent.Some? ==>
        old(stream.pos) < |stream.data| && stream.pos == old(stream.pos) + 1 &&
        agent == Catalog.Resolved(Jbyte(stream.data, old(stream.pos)).value, size)
    {
      agent := None;
      if stream.pos < |stream.data| {
        var ord := stream.ReadJbyte();
        agent := GetElementByOrdinal(ord);
      }
    }

    /** `agent->transmutation_count++` and `transmutations[agent, target] = t` for one record. */
    method Tally(ghost base: seq<Element>, ghost records: seq<Record>, record: Record)
      requires Tallied(base, records) && record.agent < size
      requires record.rule.target.Some? && record.rule.target.value < size
      modifies elements, transmutations
      ensures Tallied(base, records + [record])
    {
      var a, t := record.agent, record.rule.target.value;
      elements[a] := elements[a].(transmutationCount := elements[a].transmutationCount + 1);
      transmutations[a, t] := record.rule;
      forall j | 0 <= j < size
        ensures elements[j] == base[j].(transmutationCount := Count(records + [record], j))
      {
        CountSnoc(records, record, j);
      }
      forall b, u | 0 <= b < size && 0 <= u < size
        ensures transmutations[b, u] == LastRule(records + [record], b, u)
      {
        LastRuleSnoc(records, record, b, u);
      }
    }
  }
}
