/**
 * The first-generation element (src/com/loganh/sand/Element.java): six
 * public fields and a map from target names to rules, each rule an output
 * element (possibly null) and a probability. Densities and probabilities
 * are Java doubles, taken here as reals.
 */
module SandElement {
  import opened Draws
  import opened JavaData

  /** `Element.Transmutation`: what the target becomes, and the chance of it. */
  datatype Transmutation = Transmutation(output: Element?, probability: real)

  class Element {
    var name: JString
    var color: int
    var mobile: bool
    var density: real
    var decayProbability: real
    var lifetime: int
    /** `transmutations`: the rule for each target name. */
    var transmutations: map<JString, Transmutation>

    /** The six fields as given, and no rules. */
    constructor (name: JString, color: int, mobile: bool, density: real, decayProbability: real, lifetime: int)
      ensures this.name == name && this.color == color && this.mobile == mobile
      ensures this.density == density && this.decayProbability == decayProbability && this.lifetime == lifetime
      ensures transmutations == map[]
    {
      this.name := name;
      this.color := color;
      this.mobile := mobile;
      this.density := density;
      this.decayProbability := decayProbability;
      this.lifetime := lifetime;
      transmutations := map[];
    }

    /** `addTransmutation`: the rule for `target` becomes this one, replacing any earlier rule for the name. */
    method AddTransmutation(target: JString, output: Element?, probability: real)
      modifies this`transmutations
      ensures transmutations == old(transmutations)[target := Transmutation(output, probability)]
      ensures target in transmutations && transmutations[target] == Transmutation(output, probability)
      ensures forall n :: n in old(transmutations) && n != target ==> n in transmutations && transmutations[n] == old(transmutations[n])
      ensures transmutations.Keys == old(transmutations.Keys) + {target}
    {
      transmutations := transmutations[target := Transmutation(output, probability)];
    }

    /**
     * `maybeTransmutate`: with no rule for the target's name, the target
     * itself and no draw; otherwise one draw, and the rule's output when the
     * draw falls below its probability, else the target.
     */
    method MaybeTransmutate(target: Element, random: Random) returns (r: Element?)
      modifies random
      ensures target.name !in transmutations ==> r == target && random.drawn == old(random.drawn)
      ensures target.name in transmutations ==> random.drawn == old(random.drawn) + 1
      ensures target.name in transmutations ==>
        var t := transmutations[target.name];
        (old(random.Peek()) < t.probability ==> r == t.output) && (old(random.Peek()) >= t.probability ==> r == target)
      ensures r != target ==> target.name in transmutations && r == transmutations[target.name].output
    {
      if target.name in transmutations {
        var t := transmutations[target.name];
        var f := random.NextFloat();
        if f < t.probability {
          return t.output;
        }
      }
      return target;
    }
  }
}
