/**
 * ComplexCPPNNEAT/CPPNNEATNeuronGene.cs and CPPNNEATLinkGene.cs (CPPNNEAT/CPPNNEATLinkGene.cs is
 * the same link gene): the two gene kinds of a CPPN-NEAT genome.
 *
 * Genes are objects: dictionaries and sets of the source key them by reference, and the GA hands
 * out the same hidden-neuron gene object every time a given link is split.
 */
module Genes {
  import opened Wrappers
  import opened Values
  import opened Text
  import opened Network

  datatype NeuronType = Bias | Input | Hidden | Output

  /** A CPPNNEATActivationFunction: the function and the label it prints as. */
  datatype ActivationFunction = ActivationFunction(apply: (Complex -> Complex), name: string)

  /** `TypeString`: one letter per neuron type. */
  function TypeString(t: NeuronType): (s: string)
    ensures |s| == 1 && TypeOfLetter(s[0]) == Some(t)
  {
    match t
    case Bias => "B"
    case Output => "O"
    case Input => "I"
    case Hidden => "H"
  }

  function TypeOfLetter(c: char): Option<NeuronType> {
    if c == 'B' then Some(Bias)
    else if c == 'O' then Some(Output)
    else if c == 'I' then Some(Input)
    else if c == 'H' then Some(Hidden)
    else None
  }

  /** The phene kind `Update` builds for each gene type. */
  function PheneKind(t: NeuronType): NeuronKind {
    match t
    case Input => InputNeuron
    case Output => OutputNeuron
    case Hidden => HiddenNeuron
    case Bias => BiasNeuron
  }

  class NeuronGene {
    const innovationNumber: int
    const level: real
    const neuronType: NeuronType
    /** Null for bias and input genes. */
    const activationFunction: Option<ActivationFunction>
    var phene: NetworkNeuron?

    constructor (innovationNumber: int, level: real, neuronType: NeuronType,
                 activationFunction: Option<ActivationFunction>)
      ensures this.innovationNumber == innovationNumber && this.level == level
      ensures this.neuronType == neuronType && this.activationFunction == activationFunction
      ensures phene == null
    {
      this.innovationNumber := innovationNumber;
      this.level := level;
      this.neuronType := neuronType;
      this.activationFunction := activationFunction;
      phene := null;
    }

    /** `Update`: a fresh phene of the matching kind, with no synapses; an output or hidden
        gene passes its activation function on, and throws when it has none. */
    method Update() returns (ok: bool)
      modifies this
      ensures ok <==> !(PheneKind(neuronType).Computes() && activationFunction.None?)
      ensures ok ==> phene != null && fresh(phene) && phene.kind == PheneKind(neuronType)
      ensures ok ==> phene.synapses == [] && !phene.isCalculating
      ensures ok && PheneKind(neuronType).Computes() ==> phene.activationFunction == activationFunction.value.apply
      ensures !ok ==> phene == old(phene)
    {
      var kind := PheneKind(neuronType);
      if kind.Computes() {
        if activationFunction.None? {
          return false;
        }
        phene := new NetworkNeuron(kind, activationFunction.value.apply);
      } else {
        phene := new NetworkNeuron(kind, x => x);
      }
      return true;
    }

    /** Whether `ToString` prints the activation function: not for bias and input genes. */
    predicate ShowsFunction() { neuronType == Hidden || neuronType == Output }

    /** The label `ToString` prints: a null function formats as the empty string. */
    function LabelText(): string {
      if activationFunction.Some? then activationFunction.value.name else ""
    }

    /** `ToString`: "T(n)" for bias and input genes, "T(n, label)" for the others. */
    function Text(): string {
      if ShowsFunction() then TypeString(neuronType) + "(" + IntToString(innovationNumber) + ", " + LabelText() + ")"
      else TypeString(neuronType) + "(" + IntToString(innovationNumber) + ")"
    }
  }

  /** Reads back the type, the innovation number and (when printed) the label of a gene's text. */
  function ParseNeuronText(s: string): Option<(NeuronType, int, Option<string>)> {
    if |s| < 4 || s[1] != '(' || s[|s| - 1] != ')' || TypeOfLetter(s[0]).None? then None
    else
      var body := s[2..|s| - 1];
      var k := IndexOf(body, ',');
      if k == |body| then
        match ParseInt(body)
        case Some(n) => Some((TypeOfLetter(s[0]).value, n, None))
        case None => None
      else if k + 1 < |body| && body[k + 1] == ' ' then
        match ParseInt(body[..k])
        case Some(n) => Some((TypeOfLetter(s[0]).value, n, Some(body[k + 2..])))
        case None => None
      else None
  }

  /** A neuron gene's text gives back its type, its innovation number and, for hidden and
      output genes, its function's label, whatever characters the label holds. */
  lemma {:induction false} NeuronTextRoundTrip(g: NeuronGene)
    ensures ParseNeuronText(g.Text()) ==
      Some((g.neuronType, g.innovationNumber, if g.ShowsFunction() then Some(g.LabelText()) else None))
  {
    var t := TypeString(g.neuronType);
    if g.ShowsFunction() {
      ParseLabelled(t[0], g.innovationNumber, g.LabelText());
      assert g.Text() == [t[0]] + "(" + IntToString(g.innovationNumber) + ", " + g.LabelText() + ")";
    } else {
      ParseUnlabelled(t[0], g.innovationNumber);
      assert g.Text() == [t[0]] + "(" + IntToString(g.innovationNumber) + ")";
    }
  }

  /** "T(n, label)" reads back as type T, number n and the label. */
  lemma ParseLabelled(c: char, n: int, lbl: string)
    requires TypeOfLetter(c).Some?
    ensures ParseNeuronText([c] + "(" + IntToString(n) + ", " + lbl + ")") == Some((TypeOfLetter(c).value, n, Some(lbl)))
  {
    var digits := IntToString(n);
    IntRoundTrip(n);
    var s := [c] + "(" + digits + ", " + lbl + ")";
    var body := s[2..|s| - 1];
    assert body == digits + [','] + (" " + lbl);
    IndexOfAfterPrefix(digits, ',', " " + lbl);
    assert body[..|digits|] == digits;
    assert body[|digits| + 2..] == lbl;
  }

  /** "T(n)" reads back as type T and number n. */
  lemma ParseUnlabelled(c: char, n: int)
    requires TypeOfLetter(c).Some?
    ensures ParseNeuronText([c] + "(" + IntToString(n) + ")") == Some((TypeOfLetter(c).value, n, None))
  {
    var digits := IntToString(n);
    IntRoundTrip(n);
    var s := [c] + "(" + digits + ")";
    assert s[2..|s| - 1] == digits;
    NoCommaInNumber(digits);
  }

  lemma NoCommaInNumber(digits: string)
    requires forall k :: 0 <= k < |digits| ==> IsDigit(digits[k]) || (k == 0 && digits[k] == '-')
    ensures IndexOf(digits, ',') == |digits|
  {
  }

  class LinkGene {
    const innovationNumber: int
    const from: NeuronGene
    const to: NeuronGene
    var enabled: bool
    var weight: Complex

    /** A new link gene is enabled. */
    constructor (innovationNumber: int, from: NeuronGene, to: NeuronGene, weight: Complex)
      ensures this.innovationNumber == innovationNumber && this.from == from && this.to == to
      ensures this.weight == weight && enabled
    {
      this.innovationNumber := innovationNumber;
      this.from := from;
      this.to := to;
      this.weight := weight;
      enabled := true;
    }

    /** `Copy` (MemberwiseClone): a distinct object with the same fields, sharing the endpoint
        neuron genes. */
    method Copy() returns (c: LinkGene)
      ensures fresh(c)
      ensures c.innovationNumber == innovationNumber && c.from == from && c.to == to
      ensures c.enabled == enabled && c.weight == weight
    {
      c := new LinkGene(innovationNumber, from, to, weight);
      c.enabled := enabled;
    }

    /** `ToString`: "from - weight -> to", with the weight printed to two decimals as
        `weightText`. */
    function Text(weightText: string): string {
      from.Text() + " - " + weightText + " -> " + to.Text()
    }
  }

  /** What a neuron gene's text reads back as: its type, its number and, for hidden and output
      genes, its function's label. */
  function Reading(g: NeuronGene): (NeuronType, int, Option<string>) {
    (g.neuronType, g.innovationNumber, if g.ShowsFunction() then Some(g.LabelText()) else None)
  }

  /** A link gene's text is the source gene's text, " - ", the weight, " -> " and the target
      gene's text; both ends read back from it. */
  lemma LinkTextEnds(l: LinkGene, weightText: string)
    ensures var s, a, b := l.Text(weightText), l.from.Text(), l.to.Text();
      && |s| == |a| + 3 + |weightText| + 4 + |b|
      && s[|a|..|a| + 3] == " - " && s[|a| + 3..|s| - |b| - 4] == weightText && s[|s| - |b| - 4..|s| - |b|] == " -> "
      && ParseNeuronText(s[..|a|]) == Some(Reading(l.from)) && ParseNeuronText(s[|s| - |b|..]) == Some(Reading(l.to))
  {
    NeuronTextRoundTrip(l.from);
    NeuronTextRoundTrip(l.to);
    Slices(l.Text(weightText), l.from.Text(), weightText, l.to.Text(), Reading(l.from), Reading(l.to));
  }

  /** Where the parts of `a - w -> b` sit, and the ends read back as they did alone. */
  lemma Slices(s: string, a: string, w: string, b: string, ra: (NeuronType, int, Option<string>),
               rb: (NeuronType, int, Option<string>))
    requires s == a + " - " + w + " -> " + b
    requires ParseNeuronText(a) == Some(ra) && ParseNeuronText(b) == Some(rb)
    ensures && |s| == |a| + 3 + |w| + 4 + |b|
      && s[|a|..|a| + 3] == " - " && s[|a| + 3..|s| - |b| - 4] == w && s[|s| - |b| - 4..|s| - |b|] == " -> "
      && ParseNeuronText(s[..|a|]) == Some(ra) && ParseNeuronText(s[|s| - |b|..]) == Some(rb)
  {
    assert s[..|a|] == a;
    assert s[|s| - |b|..] == b;
  }
}
