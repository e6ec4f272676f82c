/**
 * Elements, their weighted product sets and their transmutation rules, with
 * the binary codec the snapshots use (com.loganh.sandblaster.Element).
 *
 * An element is a value here. Java shares Element objects between the element
 * table, product sets and the grid; everything but the table refers to an
 * element by its ordinal, which is also what the codec writes.
 */
module Catalog {
  import opened Bytes
  import opened Wrappers
  import opened JavaData
  import opened Draws

  /** `resolve(byte)` against a table whose elements carry the ordinals 0 .. n-1. */
  function Resolved(b: int, n: nat): (r: Option<nat>)
    ensures r.Some? <==> 0 <= b < n
    ensures r.Some? ==> r.value == b
  {
    if 0 <= b < n then Some(b) else None
  }

  /** The byte `writeByte` emits for a product: its ordinal, or -1 for "nothing". */
  function OrdinalByte(e: Option<nat>): byte {
    match e
    case None => Low8(-1)
    case Some(o) => Low8(o)
  }

  /** The ordinal bytes of a product list, one per product. */
  function OrdinalBytes(ps: seq<Option<nat>>): (r: seq<byte>)
    ensures |r| == |ps|
  {
    seq(|ps|, i requires 0 <= i < |ps| => OrdinalByte(ps[i]))
  }

  /** The sum of a sequence of reals, left to right. */
  function Sum(xs: seq<real>): real {
    if xs == [] then 0.0 else Sum(xs[..|xs| - 1]) + xs[|xs| - 1]
  }

  lemma SumStep(xs: seq<real>, i: nat)
    requires i < |xs|
    ensures Sum(xs[..i + 1]) == Sum(xs[..i]) + xs[i]
  {
    assert xs[..i + 1][..i] == xs[..i];
  }

  /** The real values of float weights (rounding is not modelled). */
  function Reals(ws: seq<word32>): (r: seq<real>)
    ensures |r| == |ws|
  {
    seq(|ws|, i requires 0 <= i < |ws| => FloatValue(ws[i]))
  }

  /** The sum of the weights, as `totalWeight` accumulates it. */
  function WeightSum(ws: seq<word32>): real {
    if ws == [] then 0.0 else WeightSum(ws[..|ws| - 1]) + FloatValue(ws[|ws| - 1])
  }

  /** The running total is the sum of the weights' values. */
  lemma {:induction false} WeightSumIsSum(ws: seq<word32>)
    ensures WeightSum(ws) == Sum(Reals(ws))
  {
    if ws != [] {
      WeightSumIsSum(ws[..|ws| - 1]);
      assert Reals(ws)[..|ws| - 1] == Reals(ws[..|ws| - 1]);
    }
  }

  /** The first index at or after `i` whose running total of `xs` reaches `w`, if there is one. */
  function FirstAtLeast(xs: seq<real>, w: real, i: nat): Option<nat>
    requires i <= |xs|
    decreases |xs| - i
  {
    if i == |xs| then None
    else if w <= Sum(xs[..i + 1]) then Some(i)
    else FirstAtLeast(xs, w, i + 1)
  }

  lemma {:induction false} FirstAtLeastIsFirst(xs: seq<real>, w: real, i: nat)
    requires i <= |xs|
    ensures match FirstAtLeast(xs, w, i)
      case Some(k) =>
        i <= k < |xs| && w <= Sum(xs[..k + 1]) &&
        forall j :: i < j <= k ==> Sum(xs[..j]) < w
      case None => forall j :: i < j <= |xs| ==> Sum(xs[..j]) < w
    decreases |xs| - i
  {
    if i < |xs| && Sum(xs[..i + 1]) < w {
      FirstAtLeastIsFirst(xs, w, i + 1);
    }
  }

  /** Every weight is a float other than NaN, so Java's `!=` on it behaves. */
  predicate NoNaN(ws: seq<word32>) {
    forall i :: 0 <= i < |ws| ==> !IsNaN(ws[i])
  }

  /** The four bytes of each weight, in order, as `writeFloat` emits them. */
  function FloatWords(ws: seq<word32>): (r: seq<byte>)
    ensures |r| == 4 * |ws|
  {
    if ws == [] then [] else FloatWords(ws[..|ws| - 1]) + WriteFloat(ws[|ws| - 1])
  }

  /** `k` weights read back to back with `readFloat`. */
  function ReadWords(s: seq<byte>, k: nat): (r: Result<Got<seq<word32>>, IoError>)
    ensures r.Ok? ==> |r.value.value| == k && |r.value.rest| <= |s|
  {
    if k == 0 then Ok(Got([], s))
    else
      var init :- ReadWords(s, k - 1);
      var last :- ReadFloat(init.rest);
      Ok(Got(init.value + [last.value], last.rest))
  }

  /** Once a read of `i` weights fails, every longer read fails the same way. */
  lemma {:induction false} ReadWordsFails(s: seq<byte>, i: nat, k: nat)
    requires i <= k && ReadWords(s, i).Err?
    ensures ReadWords(s, k) == Err(ReadWords(s, i).error)
    decreases k
  {
    if i < k {
      ReadWordsFails(s, i, k - 1);
    }
  }

  /** The bit patterns `writeFloat` puts on the stream: each weight, with NaN made canonical. */
  function CanonicalWords(ws: seq<word32>): (r: seq<word32>)
    ensures |r| == |ws|
    ensures NoNaN(ws) ==> r == ws
  {
    seq(|ws|, i requires 0 <= i < |ws| => FloatToIntBits(ws[i]))
  }

  /** Reading back written weights gives each weight, with every NaN made canonical. */
  lemma {:induction false} ReadFloatWords(ws: seq<word32>, rest: seq<byte>)
    ensures ReadWords(FloatWords(ws) + rest, |ws|) == Ok(Got(CanonicalWords(ws), rest))
  {
    if ws != [] {
      var init, last := ws[..|ws| - 1], ws[|ws| - 1];
      var tail := WriteFloat(last) + rest;
      assert FloatWords(ws) + rest == FloatWords(init) + tail;
      ReadFloatWords(init, tail);
      assert ReadWords(FloatWords(ws) + rest, |ws| - 1) == Ok(Got(CanonicalWords(init), tail));
      ReadWriteFloat(last, rest);
      assert CanonicalWords(ws) == CanonicalWords(init) + [FloatToIntBits(last)];
    } else {
      assert FloatWords(ws) + rest == rest;
    }
  }

  /**
   * What a particle may turn into: each product (an ordinal, or `None` for
   * "nothing") with its weight, and the total of the weights.
   */
  datatype ProductSet = ProductSet(products: seq<Option<nat>>, weights: seq<word32>, totalWeight: real) {

    /** Every product has a weight: the constructor's callers build both arrays with one length. */
    predicate WellFormed() {
      |weights| == |products|
    }

    /** The combined weight of the first `k` products. */
    function Cumulative(k: nat): real
      requires k <= |weights|
    {
      Sum(Reals(weights)[..k])
    }

    /** The first product at or after `i` whose cumulative weight reaches `w`, if there is one. */
    function FirstCovering(w: real, i: nat): Option<nat>
      requires WellFormed() && i <= |products|
    {
      FirstAtLeast(Reals(weights), w, i)
    }

    /** The product picked for the scaled draw `w`: the first covering one, or else the first product. */
    function Choice(w: real): Option<nat>
      requires WellFormed() && |products| > 0
    {
      match FirstCovering(w, 0)
      case Some(i) => if i < |products| then products[i] else products[0]
      case None => products[0]
    }

    /** A draw `u` in [0, 1) scaled to the weights, as `nextFloat() * totalWeight`. */
    function Scaled(u: real): real {
      u * totalWeight
    }

    /** `pickProduct`'s walk for an already scaled draw `w`: subtract weights until one covers what is left. */
    method Walk(w: real) returns (r: Option<nat>)
      requires WellFormed() && |products| > 0
      ensures r == Choice(w)
    {
      var rest := w;
      for i := 0 to |products|
        invariant rest == w - Cumulative(i)
        invariant FirstCovering(w, 0) == FirstCovering(w, i)
      {
        SumStep(Reals(weights), i);
        if rest <= FloatValue(weights[i]) {
          return products[i];
        }
        rest := rest - FloatValue(weights[i]);
      }
      return products[0];
    }

    /** What `pickProduct` yields when the next draw is `u`: nothing, the only product, or the covering choice. */
    function Picked(u: real): Option<nat>
      requires WellFormed()
    {
      if |products| == 0 then None else if |products| == 1 then products[0] else Choice(Scaled(u))
    }

    /** How many draws `pickProduct` consumes: one only when there are two products or more. */
    function DrawsTaken(): nat {
      if |products| >= 2 then 1 else 0
    }

    /**
     * `pickProduct`: null when there are no products, the only product without
     * consuming a draw, and otherwise the walk for one draw scaled by `totalWeight`.
     */
    method PickProduct(rng: Random) returns (r: Option<nat>)
      requires WellFormed()
      modifies rng
      ensures |products| == 0 ==> r == None
      ensures |products| == 1 ==> r == products[0]
      ensures |products| <= 1 ==> rng.drawn == old(rng.drawn)
      ensures |products| >= 2 ==> r == Choice(Scaled(old(rng.Peek()))) && rng.drawn == old(rng.drawn) + 1
      ensures |products| >= 1 ==> r in products
      ensures r == Picked(old(rng.Peek())) && rng.drawn == old(rng.drawn) + DrawsTaken()
    {
      if |products| == 0 {
        return None;
      } else if |products| == 1 {
        return products[0];
      }
      var draw := rng.NextFloat();
      r := Walk(Scaled(draw));
      ChoiceIsAProduct(this, Scaled(draw));
    }

    /** `write`: the product count, one ordinal byte per product, then the weights. */
    function Encode(): seq<byte> {
      WriteByte(|products|) + OrdinalBytes(products) + FloatWords(weights)
    }

    /** `write`, as the Java method does it, one product and one weight at a time. */
    method Write() returns (out: seq<byte>)
      ensures out == Encode()
    {
      out := WriteByte(|products|);
      var ordinals: seq<byte> := [];
      for i := 0 to |products|
        invariant ordinals == OrdinalBytes(products[..i])
      {
        ordinals := ordinals + WriteByte(match products[i] case None => -1 case Some(o) => o);
      }
      assert products[..|products|] == products;
      out := out + ordinals;
      var words: seq<byte> := [];
      for i := 0 to |weights|
        invariant words == FloatWords(weights[..i])
      {
        assert weights[..i + 1][..i] == weights[..i];
        words := words + WriteFloat(weights[i]);
      }
      assert weights[..|weights|] == weights;
      out := out + words;
    }

    /** The set `read` rebuilds from what `write` wrote: the same products, the weights with NaN made canonical. */
    function AsRead(): ProductSet {
      ProductSet(products, CanonicalWords(weights), WeightSum(CanonicalWords(weights)))
    }

    /** `equals`: same lengths, and pairwise the same null-ness, ordinals and weights (by float `==`). */
    predicate Equals(other: ProductSet) {
      |products| == |other.products| && |weights| == |other.weights| &&
      |products| <= |weights| &&
      forall i :: 0 <= i < |products| ==>
        products[i] == other.products[i] && FloatEquals(weights[i], other.weights[i])
    }

    /**
     * `read`, against a table of `n` elements: a zero count stands for a null
     * set, a negative one fails to allocate, and otherwise the ordinals are
     * resolved (unknown ones to "nothing") and the weights read.
     */
    static function Decode(s: seq<byte>, n: nat): (r: Result<Got<Option<ProductSet>>, IoError>)
      ensures r.Ok? ==> |r.value.rest| < |s|
    {
      var count :- ReadByte(s);
      var k := count.value;
      if k == 0 then Ok(Got(None, count.rest))
      else if k < 0 then Err(NegativeSize)
      else if |count.rest| < k then Err(EndOfStream)
      else
        var ordinals := seq(k, i requires 0 <= i < k => Resolved(Signed8(count.rest[i]), n));
        var ws :- ReadWords(count.rest[k..], k);
        Ok(Got(Some(ProductSet(ordinals, ws.value, WeightSum(ws.value))), ws.rest))
    }

    /** `read`, as the Java method does it, one ordinal and one weight at a time. */
    static method Read(s: seq<byte>, n: nat) returns (r: Result<Got<Option<ProductSet>>, IoError>)
      ensures r == Decode(s, n)
    {
      var count := ReadByte(s);
      if count.Err? {
        return Err(count.error);
      }
      var k := count.value.value;
      if k == 0 {
        return Ok(Got(None, count.value.rest));
      } else if k < 0 {
        return Err(NegativeSize);
      }
      var bytes := count.value.rest;
      var cursor := bytes;
      var products: seq<Option<nat>> := [];
      for i := 0 to k
        invariant i <= |bytes| && cursor == bytes[i..]
        invariant products == seq(i, j requires 0 <= j < i => Resolved(Signed8(bytes[j]), n))
      {
        var b := ReadByte(cursor);
        if b.Err? {
          return Err(b.error);
        }
        products := products + [Resolved(b.value.value, n)];
        cursor := b.value.rest;
      }
      var weights: seq<word32> := [];
      for i := 0 to k
        invariant ReadWords(bytes[k..], i) == Ok(Got(weights, cursor))
      {
        var w := ReadFloat(cursor);
        if w.Err? {
          ReadWordsFails(bytes[k..], i + 1, k);
          return Err(w.error);
        }
        weights := weights + [w.value.value];
        cursor := w.value.rest;
      }
      var made := NewProductSet(products, weights);
      r := Ok(Got(Some(made), cursor));
    }
  }

  /** `new ProductSet(products, weights)`: `totalWeight` accumulates the weights one by one. */
  method NewProductSet(products: seq<Option<nat>>, weights: seq<word32>) returns (p: ProductSet)
    ensures p.products == products && p.weights == weights
    ensures p.totalWeight == WeightSum(weights)
  {
    var total := 0.0;
    for i := 0 to |weights|
      invariant total == Sum(Reals(weights)[..i])
    {
      SumStep(Reals(weights), i);
      total := total + FloatValue(weights[i]);
    }
    assert Reals(weights)[..|weights|] == Reals(weights);
    WeightSumIsSum(weights);
    p := ProductSet(products, weights, total);
  }

  /** A rule: when an agent touches `target`, with `probability` the target becomes one of `product`. */
  datatype Transmutation = Transmutation(target: Option<nat>, probability: word32, product: Option<ProductSet>) {

    /** What `pickProduct` yields when the next draw is `u`: nothing without a product set, else the set's pick. */
    function Picked(u: real): Option<nat>
      requires product.Some? ==> product.value.WellFormed()
    {
      match product
      case None => None
      case Some(p) => p.Picked(u)
    }

    /** How many draws `pickProduct` consumes. */
    function DrawsTaken(): nat {
      match product
      case None => 0
      case Some(p) => p.DrawsTaken()
    }

    /** `pickProduct`: nothing when there is no product set, and otherwise the set's pick. */
    method PickProduct(rng: Random) returns (r: Option<nat>)
      requires product.Some? ==> product.value.WellFormed()
      modifies rng
      ensures product.None? ==> r == None && rng.drawn == old(rng.drawn)
      ensures product.Some? ==> r == None || r in product.value.products
      ensures product.Some? && |product.value.products| == 1 ==>
        r == product.value.products[0] && rng.drawn == old(rng.drawn)
      ensures product.Some? && |product.value.products| >= 1 ==> r in product.value.products
      ensures product.Some? && |product.value.products| >= 2 ==>
        r == product.value.Choice(product.value.Scaled(old(rng.Peek()))) && rng.drawn == old(rng.drawn) + 1
      ensures r == Picked(old(rng.Peek())) && rng.drawn == old(rng.drawn) + DrawsTaken()
    {
      if product.None? {
        return None;
      }
      r := product.value.PickProduct(rng);
    }

    /** `write`: target ordinal, probability, product set; a null target or product set throws. */
    function Encode(): Result<seq<byte>, IoError> {
      if target.None? || product.None? then Err(NullPointer)
      else Ok(WriteByte(target.value) + WriteFloat(probability) + product.value.Encode())
    }

    /** `read`: the target ordinal, resolved against a table of `n` elements, the probability and the product set. */
    static function Decode(s: seq<byte>, n: nat): (r: Result<Got<Transmutation>, IoError>)
      ensures r.Ok? ==> |r.value.rest| < |s|
    {
      var t :- ReadByte(s);
      var p :- ReadFloat(t.rest);
      var ps :- ProductSet.Decode(p.rest, n);
      Ok(Got(Transmutation(Resolved(t.value, n), p.value, ps.value), ps.rest))
    }

    /** The rule `read` rebuilds from what `write` wrote. */
    function AsRead(): Transmutation {
      Transmutation(target, FloatToIntBits(probability),
        match product case None => None case Some(p) => Some(p.AsRead()))
    }

    /**
     * `equals`: the targets are equal elements (looked up in each side's own
     * table) and the product sets are both null or equal; the probability is
     * not compared. A null target makes Java's `equals` throw; here it is unequal.
     */
    predicate Equals(other: Transmutation, mine: seq<Element>, theirs: seq<Element>) {
      target.Some? && other.target.Some? && target.value < |mine| && other.target.value < |theirs| &&
      mine[target.value].Equals(theirs[other.target.value]) &&
      product.Some? == other.product.Some? &&
      (product.Some? ==> product.value.Equals(other.product.value))
    }
  }

  /** An element; `ordinal` and `transmutationCount` belong to the table that holds it. */
  datatype Element = Element(
    name: JString, id: char16, color: int, drawable: bool, mobile: bool,
    density: word32, viscosity: word32, decayProbability: word32, lifetime: int,
    decayProducts: Option<ProductSet>, ordinal: int, transmutationCount: int)
  {
    /** `write`: the nine scalar fields, name through lifetime, in declaration order. */
    function Encode(): Result<seq<byte>, IoError> {
      var nm :- WriteUtf(name);
      Ok(nm + WriteChar(id) + WriteInt(color) + WriteBoolean(drawable) + WriteBoolean(mobile)
        + WriteFloat(density) + WriteFloat(viscosity) + WriteFloat(decayProbability) + WriteInt(lifetime))
    }

    /** `read`: the nine scalar fields, into a new element with no decay products. */
    static function Decode(s: seq<byte>): (r: Result<Got<Element>, IoError>)
      ensures r.Ok? ==> |r.value.rest| < |s|
    {
      var nm :- ReadUtf(s);
      var id :- ReadChar(nm.rest);
      var color :- ReadInt(id.rest);
      var drawable :- ReadBoolean(color.rest);
      var mobile :- ReadBoolean(drawable.rest);
      var density :- ReadFloat(mobile.rest);
      var viscosity :- ReadFloat(density.rest);
      var decay :- ReadFloat(viscosity.rest);
      var lifetime :- ReadInt(decay.rest);
      Ok(Got(NewElement(nm.value, id.value, color.value, drawable.value, mobile.value,
        density.value, viscosity.value, decay.value, lifetime.value), lifetime.rest))
    }

    /** The element `read` rebuilds from what `write` wrote: the nine scalar fields, floats with NaN made canonical. */
    function AsRead(): Element {
      NewElement(name, id, color, drawable, mobile, FloatToIntBits(density),
        FloatToIntBits(viscosity), FloatToIntBits(decayProbability), lifetime)
    }

    /** The nine scalar fields compare equal, the floats by Java's `==`. */
    predicate SameScalars(other: Element) {
      name == other.name && id == other.id && color == other.color &&
      drawable == other.drawable && mobile == other.mobile &&
      FloatEquals(density, other.density) && FloatEquals(viscosity, other.viscosity) &&
      FloatEquals(decayProbability, other.decayProbability) && lifetime == other.lifetime
    }

    /** `equals`: the scalar fields, and decay sets that are both null or equal. */
    predicate Equals(other: Element) {
      SameScalars(other) &&
      decayProducts.Some? == other.decayProducts.Some? &&
      (decayProducts.Some? ==> decayProducts.value.Equals(other.decayProducts.value))
    }
  }

  /** The nine-argument constructor: no decay products, ordinal 0, no rules yet. */
  function NewElement(name: JString, id: char16, color: int, drawable: bool, mobile: bool,
                      density: word32, viscosity: word32, decayProbability: word32, lifetime: int): Element
  {
    Element(name, id, color, drawable, mobile, density, viscosity, decayProbability, lifetime, None, 0, 0)
  }

  // Properties of the weighted pick.

  /** The cumulative walk finds the first product whose running total reaches `w`. */
  lemma FirstCoveringIsFirst(p: ProductSet, w: real, i: nat)
    requires p.WellFormed() && i <= |p.products|
    ensures match p.FirstCovering(w, i)
      case Some(k) =>
        i <= k < |p.products| && w <= p.Cumulative(k + 1) &&
        forall j :: i < j <= k ==> p.Cumulative(j) < w
      case None => forall j :: i < j <= |p.products| ==> p.Cumulative(j) < w
  {
    FirstAtLeastIsFirst(Reals(p.weights), w, i);
  }


  /** Whatever the draw, the pick is one of the set's products. */
  lemma ChoiceIsAProduct(p: ProductSet, w: real)
    requires p.WellFormed() && |p.products| > 0
    ensures p.Choice(w) in p.products
    ensures p.FirstCovering(w, 0).Some? ==>
      p.FirstCovering(w, 0).value < |p.products| && p.Choice(w) == p.products[p.FirstCovering(w, 0).value]
  {
    FirstCoveringIsFirst(p, w, 0);
  }

  lemma {:induction false} SumMonotone(xs: seq<real>, i: nat, j: nat)
    requires i <= j <= |xs|
    requires forall k :: 0 <= k < |xs| ==> xs[k] >= 0.0
    ensures Sum(xs[..i]) <= Sum(xs[..j])
    decreases j - i
  {
    if i < j {
      SumMonotone(xs, i, j - 1);
      SumStep(xs, j - 1);
    }
  }

  /** With non-negative weights the cumulative weights never decrease. */
  lemma CumulativeMonotone(p: ProductSet, i: nat, j: nat)
    requires i <= j <= |p.weights|
    requires forall k :: 0 <= k < |p.weights| ==> FloatValue(p.weights[k]) >= 0.0
    ensures p.Cumulative(i) <= p.Cumulative(j)
  {
    SumMonotone(Reals(p.weights), i, j);
  }


  /** Java scales a draw in [0, 1) by the total weight, which lands in [0, total] when the total is not negative. */
  lemma ScaledDrawBelowTotal(p: ProductSet, u: Unit)
    requires p.totalWeight >= 0.0
    ensures 0.0 <= p.Scaled(u) <= p.totalWeight
  {
    FractionOf(u, p.totalWeight);
    assert p.Scaled(u) == u * p.totalWeight;
  }

  lemma FractionOf(u: Unit, t: real)
    requires t >= 0.0
    ensures 0.0 <= u * t <= t
  {
    assert 0.0 <= (1.0 - u) * t;
  }

  /**
   * With non-negative weights and `totalWeight` their sum, every scaled draw
   * `w` between 0 and the total is covered, so the fallback to the first
   * product is never taken: the pick is the product whose slice of the
   * cumulative weights holds `w`, and so each product is picked with
   * probability proportional to its weight.
   */
  lemma {:induction false} PickIsProportional(p: ProductSet, w: real)
    requires p.WellFormed() && |p.products| > 0
    requires forall k :: 0 <= k < |p.weights| ==> FloatValue(p.weights[k]) >= 0.0
    requires p.totalWeight == WeightSum(p.weights)
    requires 0.0 <= w <= p.totalWeight
    ensures p.FirstCovering(w, 0).Some?
    ensures var k := p.FirstCovering(w, 0).value;
      k < |p.products| && p.Choice(w) == p.products[k] &&
      p.Cumulative(k) <= w <= p.Cumulative(k + 1)
  {
    var n := |p.products|;
    assert Reals(p.weights)[..n] == Reals(p.weights);
    WeightSumIsSum(p.weights);
    assert p.Cumulative(n) == p.totalWeight;
    FirstCoveringIsFirst(p, w, 0);
    match p.FirstCovering(w, 0)
    case None =>
      assert false;
    case Some(k) =>
      if k > 0 {
        assert p.Cumulative(k) < w;
      } else {
        assert p.weights[..0] == [];
      }
  }

  // Round trips of the codec.

  /** Ordinals below `n` (and below 128, so that they fit the signed byte) name products of the table. */
  predicate ProductsIn(p: ProductSet, n: nat) {
    forall i :: 0 <= i < |p.products| && p.products[i].Some? ==> p.products[i].value < n && p.products[i].value < 0x80
  }

  /** A product set the codec can carry: between 1 and 127 products, each with a weight, all known to the table. */
  predicate Encodable(p: ProductSet, n: nat) {
    p.WellFormed() && 1 <= |p.products| < 0x80 && ProductsIn(p, n)
  }

  /** How `ProductSet.read` proceeds on a stream with a positive count `k` and room for `k` ordinals. */
  lemma DecodeSteps(s: seq<byte>, n: nat, k: int, body: seq<byte>, ws: seq<word32>, rest: seq<byte>)
    requires ReadByte(s) == Ok(Got(k, body)) && 0 < k <= |body|
    requires ReadWords(body[k..], k) == Ok(Got(ws, rest))
    ensures ProductSet.Decode(s, n) ==
      Ok(Got(Some(ProductSet(seq(k, i requires 0 <= i < k => Resolved(Signed8(body[i]), n)), ws, WeightSum(ws))), rest))
  {
  }

  /** `ProductSet.read(write(p))` gives back the same products and weights, with NaN made canonical. */
  lemma ProductSetRoundTrip(p: ProductSet, n: nat, rest: seq<byte>)
    requires Encodable(p, n)
    ensures ProductSet.Decode(p.Encode() + rest, n) == Ok(Got(Some(p.AsRead()), rest))
  {
    var k := |p.products|;
    var ordinals, words := OrdinalBytes(p.products), FloatWords(p.weights);
    var body := ordinals + (words + rest);
    Regroup(WriteByte(k) + ordinals, words, rest);
    Regroup(WriteByte(k), ordinals, words + rest);
    ReadWriteByte(k, body);
    Split(ordinals, words + rest);
    OrdinalsRoundTrip(p, n, body);
    ReadFloatWords(p.weights, rest);
    DecodeSteps(p.Encode() + rest, n, k, body, CanonicalWords(p.weights), rest);
    assert seq(k, i requires 0 <= i < k => Resolved(Signed8(body[i]), n)) == p.products;
    assert ProductSet(p.products, CanonicalWords(p.weights), WeightSum(CanonicalWords(p.weights))) == p.AsRead();
  }

  lemma OrdinalsRoundTrip(p: ProductSet, n: nat, s: seq<byte>)
    requires ProductsIn(p, n) && |p.products| <= |s| && s[..|p.products|] == OrdinalBytes(p.products)
    ensures seq(|p.products|, i requires 0 <= i < |p.products| => Resolved(Signed8(s[i]), n)) == p.products
  {
    forall i | 0 <= i < |p.products|
      ensures Resolved(Signed8(s[i]), n) == p.products[i]
    {
      assert s[i] == OrdinalBytes(p.products)[i];
      match p.products[i]
      case None =>
      case Some(o) => Signed8Low8(o);
    }
  }

  /** A set read back `equals` the one written when no weight is NaN. */
  lemma ProductSetAsReadEquals(p: ProductSet)
    requires p.WellFormed() && NoNaN(p.weights)
    ensures p.AsRead().Equals(p) && p.AsRead().WellFormed()
  {
  }

  /** An element whose nine scalar fields the codec carries: its Java `int` fields fit 32 bits and its name can be written. */
  predicate ElementEncodable(e: Element) {
    IsInt32(e.color) && IsInt32(e.lifetime) && e.Encode().Ok?
  }

  /** `Element.read(write(e))` reproduces the nine scalar fields, floats bit for bit up to NaN. */
  lemma ElementRoundTrip(e: Element, rest: seq<byte>)
    requires ElementEncodable(e)
    ensures Element.Decode(e.Encode().value + rest) == Ok(Got(e.AsRead(), rest))
  {
    var t8 := WriteInt(e.lifetime) + rest;
    var t7 := WriteFloat(e.decayProbability) + t8;
    var t6 := WriteFloat(e.viscosity) + t7;
    var t5 := WriteFloat(e.density) + t6;
    var t4 := WriteBoolean(e.mobile) + t5;
    var t3 := WriteBoolean(e.drawable) + t4;
    var t2 := WriteInt(e.color) + t3;
    var t1 := WriteChar(e.id) + t2;
    var nm := WriteUtf(e.name).value;
    var a1 := nm + WriteChar(e.id);
    var a2 := a1 + WriteInt(e.color);
    var a3 := a2 + WriteBoolean(e.drawable);
    var a4 := a3 + WriteBoolean(e.mobile);
    var a5 := a4 + WriteFloat(e.density);
    var a6 := a5 + WriteFloat(e.viscosity);
    var a7 := a6 + WriteFloat(e.decayProbability);
    assert e.Encode().value == a7 + WriteInt(e.lifetime);
    Regroup(a7, WriteInt(e.lifetime), rest);
    Regroup(a6, WriteFloat(e.decayProbability), t8);
    Regroup(a5, WriteFloat(e.viscosity), t7);
    Regroup(a4, WriteFloat(e.density), t6);
    Regroup(a3, WriteBoolean(e.mobile), t5);
    Regroup(a2, WriteBoolean(e.drawable), t4);
    Regroup(a1, WriteInt(e.color), t3);
    Regroup(nm, WriteChar(e.id), t2);
    ReadWriteUtf(e.name, t1);
    ReadWriteChar(e.id, t2);
    ReadWriteInt(e.color, t3);
    ReadWriteBoolean(e.drawable, t4);
    ReadWriteBoolean(e.mobile, t5);
    ReadWriteFloat(e.density, t6);
    ReadWriteFloat(e.viscosity, t7);
    ReadWriteFloat(e.decayProbability, t8);
    ReadWriteInt(e.lifetime, rest);
  }

  /** With no NaN among its floats, the element read back has the scalar fields of the one written. */
  lemma ElementAsReadSame(e: Element)
    requires !IsNaN(e.density) && !IsNaN(e.viscosity) && !IsNaN(e.decayProbability)
    ensures e.AsRead().SameScalars(e)
  {
  }

  /** A rule the codec carries: a target below 128 and a product set it can carry. */
  predicate RuleEncodable(t: Transmutation, n: nat) {
    t.target.Some? && t.target.value < n && t.target.value < 0x80 &&
    t.product.Some? && Encodable(t.product.value, n)
  }

  /** `Transmutation.read(write(t))` gives the same target and products, and the probability up to NaN. */
  lemma TransmutationRoundTrip(t: Transmutation, n: nat, rest: seq<byte>)
    requires RuleEncodable(t, n)
    ensures Transmutation.Decode(t.Encode().value + rest, n) == Ok(Got(t.AsRead(), rest))
  {
    var body := t.product.value.Encode() + rest;
    var head := WriteByte(t.target.value) + WriteFloat(t.probability);
    Regroup(head, t.product.value.Encode(), rest);
    Regroup(WriteByte(t.target.value), WriteFloat(t.probability), body);
    ReadWriteByte(t.target.value, WriteFloat(t.probability) + body);
    ReadWriteFloat(t.probability, body);
    ProductSetRoundTrip(t.product.value, n, rest);
  }

  /**
   * A rule read back `equals` the one written, whatever its probability, when
   * its target is an equal element on both sides and no weight is NaN.
   */
  lemma TransmutationAsReadEquals(t: Transmutation, mine: seq<Element>, theirs: seq<Element>)
    requires t.target.Some? && t.target.value < |mine| && t.target.value < |theirs|
    requires mine[t.target.value].Equals(theirs[t.target.value])
    requires t.product.Some? ==> t.product.value.WellFormed() && NoNaN(t.product.value.weights)
    ensures t.AsRead().Equals(t, mine, theirs)
  {
    if t.product.Some? {
      ProductSetAsReadEquals(t.product.value);
    }
  }
}
