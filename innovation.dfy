/**
 * The innovation registry of a CPPN-NEAT GA (ComplexCPPNNEAT/BaseCPPNNEATGA.cs, its copy
 * CPPNNEAT/BaseCPPNNEATGA.cs, and NEATSpacesLibrary/CPPNNEAT/CPPNNEATGA.cs): memoised numbering of
 * (from, to) neuron-gene pairs and of the hidden neurons that split them, driven by two counters
 * that only grow, and the default topology every genome starts from.
 */
module Innovations {
  import opened Wrappers
  import opened Values
  import opened MathExtensions
  import opened ListExtensions
  import opened Genes

  type Edge = (NeuronGene, NeuronGene)

  class BaseCPPNNEATGA {
    const numberOfInputs: nat
    /** The functions a new neuron picks from. */
    const canonicalFunctionList: seq<ActivationFunction>
    /** True for the two GA variants whose list holds factories that are invoked on the pick (an
        empty list then makes the pick a null factory, and invoking it throws); false for the
        NEATSpaces variant, whose list holds the functions themselves (an empty list gives a neuron
        without a function). */
    const listHoldsFactories: bool
    const feedForwardOnly: bool
    var iterationsToClearLinkCache: int

    var edgeInnovationNumberMap: map<Edge, int>
    var edgeMap: map<int, Edge>
    var hiddenNeuronMap: map<int, NeuronGene>
    var edgeInnovationNumber: int
    var neuronInnovationNumber: int

    var defaultNeuronGenes: seq<NeuronGene>
    var defaultLinkGenes: seq<LinkGene>

    /** Every number below the edge counter was handed out to exactly one pair, recorded in
        `edgeMap`; the cache maps each pair it holds back to that number; hidden neurons exist only
        for numbered edges. */
    ghost predicate Valid()
      reads this
    {
      && 0 <= edgeInnovationNumber
      && (forall k :: k in edgeMap <==> 0 <= k < edgeInnovationNumber)
      && (forall e :: e in edgeInnovationNumberMap ==>
            edgeInnovationNumberMap[e] in edgeMap && edgeMap[edgeInnovationNumberMap[e]] == e)
      && (forall k :: k in hiddenNeuronMap ==> k in edgeMap)
    }

    /** The default genes: bias (innovation number 1), the inputs (2, 3, ...), then the output
        (innovation number 0, level 1); one enabled zero-weight link from each non-output default
        neuron into the output, numbered 0, 1, ... in that order. */
    constructor (numberOfInputs: nat, canonicalFunctionList: seq<ActivationFunction>,
                 outputFunction: Option<ActivationFunction>, listHoldsFactories: bool,
                 feedForwardOnly: bool)
      requires numberOfInputs >= 1
      ensures Valid()
      ensures this.numberOfInputs == numberOfInputs && this.canonicalFunctionList == canonicalFunctionList
      ensures this.listHoldsFactories == listHoldsFactories && this.feedForwardOnly == feedForwardOnly
      ensures iterationsToClearLinkCache == 0 && hiddenNeuronMap == map[]
      ensures HasDefaultTopology()
      ensures defaultNeuronGenes[numberOfInputs + 1].activationFunction == outputFunction
    {
      this.numberOfInputs := numberOfInputs;
      this.canonicalFunctionList := canonicalFunctionList;
      this.listHoldsFactories := listHoldsFactories;
      this.feedForwardOnly := feedForwardOnly;
      iterationsToClearLinkCache := 0;
      edgeInnovationNumberMap := map[];
      edgeMap := map[];
      hiddenNeuronMap := map[];
      edgeInnovationNumber := 0;
      neuronInnovationNumber := 0;
      defaultNeuronGenes := [];
      defaultLinkGenes := [];
      new;
      var outputGene := new NeuronGene(neuronInnovationNumber, 1.0, Output, outputFunction);
      neuronInnovationNumber := neuronInnovationNumber + 1;
      var currentGene := new NeuronGene(neuronInnovationNumber, 0.0, Bias, None);
      neuronInnovationNumber := neuronInnovationNumber + 1;
      AddDefaultLink(currentGene, outputGene);
      AddInputs(outputGene);
      AddOutput(outputGene);
    }

    /** The constructor's last step: the output neuron closes the default neuron list. */
    method AddOutput(output: NeuronGene)
      requires DefaultsSoFar(output, numberOfInputs + 1) && neuronInnovationNumber == numberOfInputs + 2
      requires defaultNeuronGenes[0].neuronType == Bias
      requires forall k :: 1 <= k <= numberOfInputs ==> defaultNeuronGenes[k].neuronType == Input
      requires output.neuronType == Output && output.innovationNumber == 0 && output.level == 1.0
      modifies this
      ensures HasDefaultTopology() && defaultNeuronGenes[numberOfInputs + 1] == output
      ensures iterationsToClearLinkCache == old(iterationsToClearLinkCache) && hiddenNeuronMap == old(hiddenNeuronMap)
    {
      defaultNeuronGenes := defaultNeuronGenes + [output];
    }

    /** The default topology built by the constructor. */
    ghost predicate HasDefaultTopology()
      reads this, defaultNeuronGenes, defaultLinkGenes
    {
      && Valid()
      && edgeInnovationNumber == numberOfInputs + 1 && neuronInnovationNumber == numberOfInputs + 2
      && |defaultNeuronGenes| == numberOfInputs + 2 && |defaultLinkGenes| == numberOfInputs + 1
      && defaultNeuronGenes[0].neuronType == Bias
      && (forall k :: 1 <= k <= numberOfInputs ==> defaultNeuronGenes[k].neuronType == Input)
      && (forall k :: 0 <= k <= numberOfInputs ==>
            var g := defaultNeuronGenes[k];
            g.innovationNumber == k + 1 && g.level == 0.0 && g.activationFunction == None)
      && (var output := defaultNeuronGenes[numberOfInputs + 1];
          output.neuronType == Output && output.innovationNumber == 0 && output.level == 1.0)
      && (forall k :: 0 <= k <= numberOfInputs ==>
            var l := defaultLinkGenes[k];
            && l.innovationNumber == k && l.from == defaultNeuronGenes[k]
            && l.to == defaultNeuronGenes[numberOfInputs + 1] && l.weight == Zero && l.enabled
            && (l.from, l.to) in edgeInnovationNumberMap && edgeInnovationNumberMap[(l.from, l.to)] == k)
      && (forall i, j :: 0 <= i < j < |defaultNeuronGenes| ==> defaultNeuronGenes[i] != defaultNeuronGenes[j])
    }

    /** The constructor's input loop: one input neuron and its link per iteration. */
    method AddInputs(output: NeuronGene)
      requires DefaultsSoFar(output, 1) && neuronInnovationNumber == 2
      requires defaultNeuronGenes[0].neuronType == Bias
      modifies this
      ensures DefaultsSoFar(output, numberOfInputs + 1) && neuronInnovationNumber == numberOfInputs + 2
      ensures defaultNeuronGenes[0].neuronType == Bias
      ensures forall k :: 1 <= k <= numberOfInputs ==> defaultNeuronGenes[k].neuronType == Input
      ensures iterationsToClearLinkCache == old(iterationsToClearLinkCache) && hiddenNeuronMap == old(hiddenNeuronMap)
    {
      var i := 0;
      while i < numberOfInputs
        invariant 0 <= i <= numberOfInputs
        invariant DefaultsSoFar(output, i + 1) == true && neuronInnovationNumber == i + 2
        invariant defaultNeuronGenes[0].neuronType == Bias
        invariant forall k :: 1 <= k < |defaultNeuronGenes| ==> defaultNeuronGenes[k].neuronType == Input
        invariant iterationsToClearLinkCache == old(iterationsToClearLinkCache) && hiddenNeuronMap == old(hiddenNeuronMap)
      {
        var _ := AddInput(output);
        i := i + 1;
      }
    }

    /** One iteration of the input loop: a new input neuron, numbered by the neuron counter,
        and its link into `output`. */
    method AddInput(output: NeuronGene) returns (gene: NeuronGene)
      requires DefaultsSoFar(output, |defaultNeuronGenes|) && neuronInnovationNumber == |defaultNeuronGenes| + 1
      modifies this
      ensures defaultNeuronGenes == old(defaultNeuronGenes) + [gene] && gene.neuronType == Input
      ensures DefaultsSoFar(output, |defaultNeuronGenes|) && neuronInnovationNumber == |defaultNeuronGenes| + 1
      ensures iterationsToClearLinkCache == old(iterationsToClearLinkCache) && hiddenNeuronMap == old(hiddenNeuronMap)
    {
      gene := new NeuronGene(neuronInnovationNumber, 0.0, Input, None);
      neuronInnovationNumber := neuronInnovationNumber + 1;
      AddDefaultLink(gene, output);
    }

    /** The registry after `count` default neurons, each with its link into `output`. */
    ghost predicate DefaultsSoFar(output: NeuronGene, count: nat)
      reads this, defaultNeuronGenes, defaultLinkGenes
    {
      && Valid()
      && |defaultNeuronGenes| == count && |defaultLinkGenes| == count
      && edgeInnovationNumber == count
      && output !in defaultNeuronGenes
      && (forall i, j :: 0 <= i < j < count ==> defaultNeuronGenes[i] != defaultNeuronGenes[j])
      && (forall e :: e in edgeInnovationNumberMap ==> e.1 == output && e.0 in defaultNeuronGenes)
      && (forall k :: 0 <= k < count ==> edgeMap[k] == (defaultNeuronGenes[k], output))
      && (forall k :: 0 <= k < count ==>
            var g := defaultNeuronGenes[k];
            g.innovationNumber == k + 1 && g.level == 0.0 && g.activationFunction == None)
      && (forall k :: 0 <= k < count ==>
            var l := defaultLinkGenes[k];
            && l.innovationNumber == k && l.from == defaultNeuronGenes[k] && l.to == output
            && l.weight == Zero && l.enabled
            && (l.from, l.to) in edgeInnovationNumberMap && edgeInnovationNumberMap[(l.from, l.to)] == k)
    }

    /** One step of the constructor: registers `gene` as a default neuron and links it into
        `output` under the edge number the registry hands out. */
    method AddDefaultLink(gene: NeuronGene, output: NeuronGene)
      requires gene != output && gene !in defaultNeuronGenes
      requires DefaultsSoFar(output, |defaultNeuronGenes|)
      requires gene.innovationNumber == |defaultNeuronGenes| + 1 && gene.level == 0.0
      requires gene.activationFunction == None && neuronInnovationNumber == |defaultNeuronGenes| + 2
      modifies this
      ensures defaultNeuronGenes == old(defaultNeuronGenes) + [gene]
      ensures DefaultsSoFar(output, |defaultNeuronGenes|)
      ensures iterationsToClearLinkCache == old(iterationsToClearLinkCache)
      ensures hiddenNeuronMap == old(hiddenNeuronMap) && neuronInnovationNumber == old(neuronInnovationNumber)
    {
      var number := GetEdgeInnovationNumber(gene, output);
      var link := new LinkGene(number, gene, output, Zero);
      defaultNeuronGenes := defaultNeuronGenes + [gene];
      defaultLinkGenes := defaultLinkGenes + [link];
    }

    /** `GetEdgeInnovationNumber`: a cached pair keeps its number; a new pair gets the current
        counter value, which no pair had before, and the counter moves on. */
    method GetEdgeInnovationNumber(from: NeuronGene, to: NeuronGene) returns (n: int)
      requires Valid()
      modifies this
      ensures Valid()
      ensures (from, to) in edgeInnovationNumberMap && edgeInnovationNumberMap[(from, to)] == n
      ensures (from, to) in old(edgeInnovationNumberMap) ==>
        n == old(edgeInnovationNumberMap[(from, to)]) && edgeInnovationNumberMap == old(edgeInnovationNumberMap)
        && edgeMap == old(edgeMap) && edgeInnovationNumber == old(edgeInnovationNumber)
      ensures (from, to) !in old(edgeInnovationNumberMap) ==>
        && n == old(edgeInnovationNumber) && n !in old(edgeMap)
        && edgeInnovationNumberMap == old(edgeInnovationNumberMap)[(from, to) := n]
        && edgeMap == old(edgeMap)[n := (from, to)] && edgeInnovationNumber == n + 1
      ensures n in edgeMap && edgeMap[n] == (from, to)
      ensures hiddenNeuronMap == old(hiddenNeuronMap) && neuronInnovationNumber == old(neuronInnovationNumber)
      ensures defaultNeuronGenes == old(defaultNeuronGenes) && defaultLinkGenes == old(defaultLinkGenes)
      ensures iterationsToClearLinkCache == old(iterationsToClearLinkCache)
    {
      var key := (from, to);
      if key !in edgeInnovationNumberMap {
        edgeInnovationNumberMap := edgeInnovationNumberMap[key := edgeInnovationNumber];
        edgeMap := edgeMap[edgeInnovationNumber := key];
        edgeInnovationNumber := edgeInnovationNumber + 1;
      }
      n := edgeInnovationNumberMap[key];
    }

    /** `GetHiddenNeuron`: memoised per edge number. A new hidden neuron takes the next neuron
        number, the mean of its edge's endpoint levels, and the function picked by draw `u`.
        An unnumbered edge is a missing dictionary key; with factories, an empty function list
        fails after the neuron counter has already moved on. */
    method GetHiddenNeuron(innovationNumber: int, u: real) returns (r: Result<NeuronGene>)
      requires Valid() && IsDraw(u)
      modifies this
      ensures Valid()
      ensures edgeInnovationNumberMap == old(edgeInnovationNumberMap) && edgeMap == old(edgeMap)
      ensures edgeInnovationNumber == old(edgeInnovationNumber)
      ensures defaultNeuronGenes == old(defaultNeuronGenes) && defaultLinkGenes == old(defaultLinkGenes)
      ensures iterationsToClearLinkCache == old(iterationsToClearLinkCache)
      ensures innovationNumber in old(hiddenNeuronMap) ==>
        r == Success(old(hiddenNeuronMap)[innovationNumber])
        && hiddenNeuronMap == old(hiddenNeuronMap) && neuronInnovationNumber == old(neuronInnovationNumber)
      ensures innovationNumber !in old(hiddenNeuronMap) && innovationNumber !in edgeMap ==>
        r == Failure("KeyNotFoundException")
        && hiddenNeuronMap == old(hiddenNeuronMap) && neuronInnovationNumber == old(neuronInnovationNumber)
      ensures innovationNumber !in old(hiddenNeuronMap) && innovationNumber in edgeMap
              && listHoldsFactories && |canonicalFunctionList| == 0 ==>
        r == Failure("NullReferenceException")
        && hiddenNeuronMap == old(hiddenNeuronMap) && neuronInnovationNumber == old(neuronInnovationNumber) + 1
      ensures innovationNumber !in old(hiddenNeuronMap) && innovationNumber in edgeMap
              && !(listHoldsFactories && |canonicalFunctionList| == 0) ==>
        && r.Success? && fresh(r.value)
        && hiddenNeuronMap == old(hiddenNeuronMap)[innovationNumber := r.value]
        && neuronInnovationNumber == old(neuronInnovationNumber) + 1
        && r.value.innovationNumber == old(neuronInnovationNumber)
        && r.value.neuronType == Hidden
        && r.value.level == (edgeMap[innovationNumber].0.level + edgeMap[innovationNumber].1.level) / 2.0
        && r.value.activationFunction == RandomSingle(canonicalFunctionList, u)
      ensures r.Success? ==> innovationNumber in hiddenNeuronMap && hiddenNeuronMap[innovationNumber] == r.value
    {
      if innovationNumber !in hiddenNeuronMap {
        if innovationNumber !in edgeMap {
          return Failure("KeyNotFoundException");
        }
        var edge := edgeMap[innovationNumber];
        var level := (edge.0.level + edge.1.level) / 2.0;
        var number := neuronInnovationNumber;
        neuronInnovationNumber := neuronInnovationNumber + 1;
        var picked := RandomSingle(canonicalFunctionList, u);
        if listHoldsFactories && picked.None? {
          return Failure("NullReferenceException");
        }
        var gene := new NeuronGene(number, level, Hidden, picked);
        hiddenNeuronMap := hiddenNeuronMap[innovationNumber := gene];
      }
      r := Success(hiddenNeuronMap[innovationNumber]);
    }

    /** `CPPNNEATGA_IterationComplete`: forgets the pair-to-number cache every
        `iterationsToClearLinkCache` iterations (never when that is 0); the numbered edges and the
        counter stay, so no number is handed out twice. */
    method IterationComplete(iterationNumber: int) returns (cleared: bool)
      requires Valid()
      modifies this
      ensures Valid()
      ensures cleared <==> ClearsCache(iterationsToClearLinkCache, iterationNumber)
      ensures edgeInnovationNumberMap == if cleared then map[] else old(edgeInnovationNumberMap)
      ensures edgeMap == old(edgeMap) && edgeInnovationNumber == old(edgeInnovationNumber)
      ensures hiddenNeuronMap == old(hiddenNeuronMap) && neuronInnovationNumber == old(neuronInnovationNumber)
      ensures defaultNeuronGenes == old(defaultNeuronGenes) && defaultLinkGenes == old(defaultLinkGenes)
      ensures iterationsToClearLinkCache == old(iterationsToClearLinkCache)
    {
      cleared := iterationsToClearLinkCache != 0 && CSharpRem(iterationNumber, iterationsToClearLinkCache) == 0;
      if cleared {
        edgeInnovationNumberMap := map[];
      }
    }
  }

  /** The clearing rule: a non-zero period that divides the iteration number, with C#'s `%`. */
  predicate ClearsCache(period: int, iterationNumber: int) {
    period != 0 && CSharpRem(iterationNumber, period) == 0
  }

  /** For a positive period the rule clears exactly on the multiples of the period, negative
      iteration numbers included; a zero period never clears. */
  lemma {:induction false} ClearsCacheOnMultiples(period: int, iterationNumber: int)
    ensures period == 0 ==> !ClearsCache(period, iterationNumber)
    ensures period > 0 ==> (ClearsCache(period, iterationNumber) <==> iterationNumber % period == 0)
  {
    if period > 0 {
      var q := CSharpQuot(iterationNumber, period);
      var r := CSharpRem(iterationNumber, period);
      if r == 0 {
        EuclideanUnique(iterationNumber, period, q, 0);
      } else if iterationNumber >= 0 {
        EuclideanUnique(iterationNumber, period, q, r);
      } else {
        MulPred(period, q);
        EuclideanUnique(iterationNumber, period, q - 1, r + period);
      }
    }
  }

  /** The CPPNNEAT and ComplexCPPNNEAT constructors: fewer than one input is rejected; the output
      neuron takes the given function, or else one picked from the factory list by draw `u`,
      which throws when that list is empty. */
  method NewCPPNNEATGA(numberOfInputs: int, canonicalFunctionList: seq<ActivationFunction>,
                       outputFunction: Option<ActivationFunction>, u: real, feedForwardOnly: bool)
    returns (r: Result<BaseCPPNNEATGA>)
    requires IsDraw(u)
    ensures numberOfInputs < 1 ==> r == Failure("ApplicationException")
    ensures numberOfInputs >= 1 && outputFunction.None? && |canonicalFunctionList| == 0 ==>
      r == Failure("NullReferenceException")
    ensures numberOfInputs >= 1 && (outputFunction.Some? || |canonicalFunctionList| > 0) ==>
      && r.Success? && fresh(r.value) && r.value.Valid()
      && r.value.numberOfInputs == numberOfInputs && r.value.listHoldsFactories
      && r.value.canonicalFunctionList == canonicalFunctionList && r.value.feedForwardOnly == feedForwardOnly
      && r.value.HasDefaultTopology()
      && r.value.defaultNeuronGenes[numberOfInputs + 1].activationFunction ==
           (if outputFunction.Some? then outputFunction else RandomSingle(canonicalFunctionList, u))
  {
    if numberOfInputs < 1 {
      return Failure("ApplicationException");
    }
    var picked := if outputFunction.Some? then outputFunction else RandomSingle(canonicalFunctionList, u);
    if picked.None? {
      return Failure("NullReferenceException");
    }
    var ga := new BaseCPPNNEATGA(numberOfInputs, canonicalFunctionList, picked, true, feedForwardOnly);
    r := Success(ga);
  }

  /** The NEATSpaces constructor: only zero inputs is rejected up front; a negative count fails
      when the input loop's range is built; the output function is picked from the list by
      draw `u`, and is null for an empty list. */
  method NewNEATSpacesGA(numberOfInputs: int, canonicalFunctionList: seq<ActivationFunction>, u: real,
                         feedForwardOnly: bool)
    returns (r: Result<BaseCPPNNEATGA>)
    requires IsDraw(u)
    ensures numberOfInputs == 0 ==> r == Failure("ApplicationException")
    ensures numberOfInputs < 0 ==> r == Failure("ArgumentOutOfRangeException")
    ensures numberOfInputs > 0 ==>
      && r.Success? && fresh(r.value) && r.value.Valid()
      && r.value.numberOfInputs == numberOfInputs && !r.value.listHoldsFactories
      && r.value.canonicalFunctionList == canonicalFunctionList && r.value.feedForwardOnly == feedForwardOnly
      && r.value.HasDefaultTopology()
      && r.value.defaultNeuronGenes[numberOfInputs + 1].activationFunction == RandomSingle(canonicalFunctionList, u)
  {
    if numberOfInputs == 0 {
      return Failure("ApplicationException");
    }
    if numberOfInputs < 0 {
      return Failure("ArgumentOutOfRangeException");
    }
    var ga := new BaseCPPNNEATGA(numberOfInputs, canonicalFunctionList, RandomSingle(canonicalFunctionList, u),
                                 false, feedForwardOnly);
    r := Success(ga);
  }

  /** With two inputs the defaults number three edges, so the first new pair gets 3, and asking
      for the same pair again gives 3 again. */
  method InnovationNumberOfNewPair() returns (first: int, second: int)
    ensures first == 3 && second == 3
  {
    var ga := new BaseCPPNNEATGA(2, [], None, false, false);
    var from := new NeuronGene(0, 0.0, Input, None);
    var to := new NeuronGene(0, 0.0, Input, None);
    first := ga.GetEdgeInnovationNumber(from, to);
    second := ga.GetEdgeInnovationNumber(from, to);
  }

  /** Splitting the same default edge twice gives the very same hidden neuron object. */
  method HiddenNeuronIsShared(u: real, v: real) returns (a: Result<NeuronGene>, b: Result<NeuronGene>)
    requires IsDraw(u) && IsDraw(v)
    ensures a.Success? && a == b
  {
    var f := ActivationFunction(x => x, "x");
    var ga := new BaseCPPNNEATGA(2, [f], None, false, false);
    a := ga.GetHiddenNeuron(1, u);
    b := ga.GetHiddenNeuron(1, v);
  }
}
