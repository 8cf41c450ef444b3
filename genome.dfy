/**
 * ComplexCPPNNEAT/CPPNNEATGenome.cs, with its near-copies CPPNNEAT/CPPNNEAT/CPPNNEATGenome.cs and
 * NEATSpacesLibrary/CPPNNEAT/CPPNNEATGenome.cs: the operations of a CPPN-NEAT genome on its
 * gene collection. The walk over two collections (`DifferenceAnalysis`) is the `Align` of the
 * Alignments module; here it is read off two collections, and crossover, compatibility
 * distance, copying, printing and mutation are built on it.
 */
module Genomes {
  import opened Wrappers
  import opened Values
  import opened Genes
  import opened GeneCollections
  import opened Alignments
  import opened Innovations
  import opened MathExtensions
  import opened ListExtensions
  import opened Text

  /** `SMALL_GENOME_THRESHOLD`: up to this many link genes the unmatched counts are not scaled. */
  const SmallGenomeThreshold: nat := 20

  /** The key the walk compares: a link gene's innovation number. */
  function Number(l: LinkGene): int { l.innovationNumber }

  /** `LinkGenes` is in strictly ascending innovation order. */
  lemma LinkGenesAscending(table: map<int, LinkGene>)
    requires forall k :: k in table ==> table[k].innovationNumber == k
    ensures Ascending(SortedLinks(table), Number)
  {
    forall i, j | 0 <= i < j < |SortedLinks(table)|
      ensures Number(SortedLinks(table)[i]) < Number(SortedLinks(table)[j])
    {
      SortedLinksAscending(table, i, j);
    }
  }

  /** Reading `LinkGenes` throws: the sorted view was never filled. */
  predicate Unfilled(c: GeneCollection)
    reads c
  {
    !c.sortedLinkGenesCacheExpired && c.sortedLinkGenes.None?
  }

  /** The collections' link-gene tables, neurons and candidate pairs are as they were. */
  twostate predicate Kept(c: GeneCollection)
    reads c
  {
    && c.linkGeneMap == old(c.linkGeneMap) && c.neuronGeneSet == old(c.neuronGeneSet)
    && c.possibleConnections == old(c.possibleConnections) && c.orphanedNeurons == old(c.orphanedNeurons)
  }

  /** The `DifferenceAnalysis` constructor: both collections' `LinkGenes`, walked side by side. */
  method CollectionDifferences(c1: GeneCollection, c2: GeneCollection) returns (r: Result<Alignment<LinkGene>>)
    requires c1.Valid() && c2.Valid()
    modifies c1, c2
    ensures c1.Valid() && c2.Valid() && Kept(c1) && Kept(c2)
    ensures r.Failure? <==> old(Unfilled(c1)) || old(Unfilled(c2))
    ensures r.Failure? ==> r.error == "NullReferenceException"
    ensures r.Success? ==> !Unfilled(c1) && !Unfilled(c2)
    ensures r.Success? ==> r.value == Align(SortedLinks(c1.linkGeneMap), SortedLinks(c2.linkGeneMap), Number)
  {
    var links1 := c1.LinkGenes();
    if links1.Failure? {
      return Failure(links1.error);
    }
    var links2 := c2.LinkGenes();
    if links2.Failure? {
      return Failure(links2.error);
    }
    var d := DifferenceAnalysis(links1.value, links2.value, Number);
    r := Success(d);
  }

  // ---------------------------------------------------------------- compatibility distance

  /** The GA's coefficients of the four distance terms. */
  datatype DistanceWeights = DistanceWeights(excess: real, disjoint: real, matching: real, functions: real)

  function TotalExcess<G>(d: Alignment<G>): nat {
    |d.first.excess| + |d.second.excess|
  }

  function TotalDisjoint<G>(d: Alignment<G>): nat {
    |d.first.disjoint| + |d.second.disjoint|
  }

  /** The divisor of the unmatched counts: the larger genome's size, or 1 for small genomes. */
  function Normaliser(count1: nat, count2: nat): (n: nat)
    ensures n >= 1
    ensures (count1 > SmallGenomeThreshold || count2 > SmallGenomeThreshold) ==> n >= count1 && n >= count2
    ensures n == 1 || n == count1 || n == count2
  {
    var larger := if count1 >= count2 then count1 else count2;
    if larger <= SmallGenomeThreshold then 1 else larger
  }

  /** Each list splits into its matched, disjoint and excess genes. */
  lemma AlignSizes<G>(a: seq<G>, b: seq<G>, num: G -> int)
    ensures var d := Align(a, b, num);
      |a| == |d.matches| + |d.first.disjoint| + |d.first.excess| &&
      |b| == |d.matches| + |d.second.disjoint| + |d.second.excess|
  {
    var d := Align(a, b, num);
    AlignPartitions(a, b, num);
    assert |multiset(a)| == |multiset(Firsts(d.matches))| + |multiset(d.first.disjoint)| + |multiset(d.first.excess)|;
    assert |multiset(b)| == |multiset(Seconds(d.matches))| + |multiset(d.second.disjoint)| + |multiset(d.second.excess)|;
  }

  /** The scaled unmatched terms are bounded: by 2 for large genomes, by twice the threshold for
      small ones. */
  lemma UnmatchedScaled<G>(a: seq<G>, b: seq<G>, num: G -> int)
    ensures var d := Align(a, b, num);
      var n := Normaliser(|a|, |b|);
      TotalExcess(d) + TotalDisjoint(d) + 2 * |d.matches| == |a| + |b| &&
      TotalExcess(d) + TotalDisjoint(d) <= (if n == 1 then 2 * SmallGenomeThreshold else 2 * n)
  {
    AlignSizes(a, b, num);
  }

  /** The mean lies between the least and the greatest element. */
  lemma MeanWithin(s: seq<real>, low: real, high: real)
    requires s != [] && forall k :: 0 <= k < |s| ==> low <= s[k] <= high
    ensures low <= Mean(s).value <= high
  {
    SumWithin(s, low, high);
    var n := |s| as real;
    var mean := Mean(s).value;
    assert mean * n == Sum(s) && n > 0.0;
    if mean < low {
      ScaleStrict(mean, low, n);
    }
    if mean > high {
      ScaleStrict(high, mean, n);
    }
  }

  lemma ScaleStrict(x: real, y: real, n: real)
    requires x < y && n > 0.0
    ensures x * n < y * n
  {
  }

  /** The genes the matches pair up. */
  function GenesOf(ms: seq<(LinkGene, LinkGene)>): set<LinkGene> {
    (set p | p in ms :: p.0) + (set p | p in ms :: p.1)
  }

  /** The weight difference of one match, measured by `magnitude` (`Complex.Magnitude`, or
      `Math.Abs` on the real weights of the NEATSpaces genome). */
  function Gap(p: (LinkGene, LinkGene), magnitude: Complex -> real): real
    reads p.0, p.1
  {
    magnitude(Sub(p.0.weight, p.1.weight))
  }

  function Gaps(ms: seq<(LinkGene, LinkGene)>, magnitude: Complex -> real): (r: seq<real>)
    reads GenesOf(ms)
    ensures |r| == |ms| && forall k :: 0 <= k < |ms| ==> r[k] == Gap(ms[k], magnitude)
  {
    if ms == [] then []
    else
      assert GenesOf(ms[..|ms| - 1]) <= GenesOf(ms) by {
        forall p | p in ms[..|ms| - 1] ensures p in ms { }
      }
      assert ms[|ms| - 1] in ms;
      Gaps(ms[..|ms| - 1], magnitude) + [Gap(ms[|ms| - 1], magnitude)]
  }

  // ---------------------------------------------------------------- function differences

  /** The labels of the activation functions the neurons carry. */
  function Labels(neurons: set<NeuronGene>): set<string> {
    set g | g in neurons && g.activationFunction.Some? :: g.activationFunction.value.name
  }

  /** The neurons whose function has label `name`. */
  function Labelled(neurons: set<NeuronGene>, name: string): set<NeuronGene> {
    set g | g in neurons && g.activationFunction.Some? && g.activationFunction.value.name == name
  }

  /** The size of the group labelled `name`. */
  function Count(neurons: set<NeuronGene>, name: string): (n: nat)
    ensures n > 0 <==> name in Labels(neurons)
  {
    LabelledNonEmpty(neurons, name);
    |Labelled(neurons, name)|
  }

  lemma LabelledNonEmpty(neurons: set<NeuronGene>, name: string)
    ensures Labelled(neurons, name) != {} <==> name in Labels(neurons)
  {
    if name in Labels(neurons) {
      var g :| g in neurons && g.activationFunction.Some? && g.activationFunction.value.name == name;
      assert g in Labelled(neurons, name);
    }
  }

  function AbsDiff(x: nat, y: nat): (r: nat)
    ensures (r == 0 <==> x == y) && (x == y + r || y == x + r)
  {
    if x >= y then x - y else y - x
  }

  /** The function-difference map: every label of either genome, with the gap between its two
      group sizes. */
  function FunctionGaps(n1: set<NeuronGene>, n2: set<NeuronGene>): (m: map<string, nat>)
    ensures m.Keys == Labels(n1) + Labels(n2)
    ensures forall l :: l in m ==> m[l] == AbsDiff(Count(n1, l), Count(n2, l))
  {
    map l | l in Labels(n1) + Labels(n2) :: AbsDiff(Count(n1, l), Count(n2, l))
  }

  /** The loops of `GetAverageFunctionDifference` that build the map: the first genome's groups,
      then each group of the second genome sets its label to the gap. */
  method FunctionDifferenceMap(n1: set<NeuronGene>, n2: set<NeuronGene>) returns (m: map<string, nat>)
    ensures m == FunctionGaps(n1, n2)
  {
    m := map l | l in Labels(n1) :: Count(n1, l);
    var groups := Labels(n2);
    while groups != {}
      invariant groups <= Labels(n2) && Gapped(m, n1, n2, groups)
      decreases |groups|
    {
      var l :| l in groups;
      ghost var before := m;
      if l !in m {
        m := m[l := 0];
      }
      m := m[l := AbsDiff(m[l], Count(n2, l))];
      GapStep(before, m, n1, n2, groups, l);
      groups := groups - {l};
    }
    GapsDone(m, n1, n2);
  }

  /** The map after the groups outside `groups` were visited. */
  ghost predicate Gapped(m: map<string, nat>, n1: set<NeuronGene>, n2: set<NeuronGene>, groups: set<string>) {
    && m.Keys == Labels(n1) + (Labels(n2) - groups)
    && forall l :: l in m ==> m[l] == if l in groups then Count(n1, l) else AbsDiff(Count(n1, l), Count(n2, l))
  }

  lemma GapStep(before: map<string, nat>, after: map<string, nat>, n1: set<NeuronGene>, n2: set<NeuronGene>,
                groups: set<string>, l: string)
    requires Gapped(before, n1, n2, groups) && l in groups && groups <= Labels(n2)
    requires var base := if l in before then before[l] else 0;
      after == before[l := AbsDiff(base, Count(n2, l))]
    ensures Gapped(after, n1, n2, groups - {l})
  {
  }

  lemma GapsDone(m: map<string, nat>, n1: set<NeuronGene>, n2: set<NeuronGene>)
    requires Gapped(m, n1, n2, {})
    ensures m == FunctionGaps(n1, n2)
  {
  }

  /** The sum of the map's values over `keys`, in no particular order. */
  ghost function SetSum(m: map<string, nat>, keys: set<string>): nat
    requires keys <= m.Keys
    decreases keys
  {
    if keys == {} then 0
    else
      var l :| l in keys;
      m[l] + SetSum(m, keys - {l})
  }

  /** The sum does not depend on which key is taken first. */
  lemma {:induction false} SetSumAny(m: map<string, nat>, keys: set<string>, x: string)
    requires keys <= m.Keys && x in keys
    ensures SetSum(m, keys) == m[x] + SetSum(m, keys - {x})
    decreases keys
  {
    var l :| l in keys && SetSum(m, keys) == m[l] + SetSum(m, keys - {l});
    if l != x {
      SetSumAny(m, keys - {l}, x);
      SetSumAny(m, keys - {x}, l);
      assert keys - {l} - {x} == keys - {x} - {l};
    }
  }

  lemma {:induction false} SetSumZero(m: map<string, nat>, keys: set<string>)
    requires keys <= m.Keys && forall l :: l in keys ==> m[l] == 0
    ensures SetSum(m, keys) == 0
    decreases keys
  {
    if keys != {} {
      var l :| l in keys && SetSum(m, keys) == m[l] + SetSum(m, keys - {l});
      SetSumZero(m, keys - {l});
    }
  }

  /** `GetAverageFunctionDifference`: the mean of the map's values; it throws when neither
      genome has a neuron with a function. */
  ghost function FunctionDifference(n1: set<NeuronGene>, n2: set<NeuronGene>): (r: Result<real>)
    ensures r.Failure? <==> Labels(n1) == {} && Labels(n2) == {}
  {
    var m := FunctionGaps(n1, n2);
    if m.Keys == {} then Failure("InvalidOperationException")
    else Success((SetSum(m, m.Keys) as real) / (|m.Keys| as real))
  }

  method AverageFunctionDifference(n1: set<NeuronGene>, n2: set<NeuronGene>) returns (r: Result<real>)
    ensures r == FunctionDifference(n1, n2)
  {
    var m := FunctionDifferenceMap(n1, n2);
    if m.Keys == {} {
      return Failure("InvalidOperationException");
    }
    var sum: nat := 0;
    var rest := m.Keys;
    while rest != {}
      invariant rest <= m.Keys
      invariant sum + SetSum(m, rest) == SetSum(m, m.Keys)
      decreases rest
    {
      var l :| l in rest;
      SetSumAny(m, rest, l);
      sum := sum + m[l];
      rest := rest - {l};
    }
    r := Success((sum as real) / (|m.Keys| as real));
  }

  /** Swapping the genomes gives the same function difference. */
  lemma FunctionDifferenceSymmetric(n1: set<NeuronGene>, n2: set<NeuronGene>)
    ensures FunctionDifference(n1, n2) == FunctionDifference(n2, n1)
  {
    var m1, m2 := FunctionGaps(n1, n2), FunctionGaps(n2, n1);
    assert m1.Keys == m2.Keys;
    forall l | l in m1 ensures m1[l] == m2[l] {
      assert m1[l] == AbsDiff(Count(n1, l), Count(n2, l)) && m2[l] == AbsDiff(Count(n2, l), Count(n1, l));
    }
    assert m1 == m2;
  }

  /** A genome does not differ from itself in its functions. */
  lemma FunctionDifferenceSelf(n: set<NeuronGene>)
    requires Labels(n) != {}
    ensures FunctionDifference(n, n) == Success(0.0)
  {
    var m := FunctionGaps(n, n);
    SetSumZero(m, m.Keys);
  }

  // ---------------------------------------------------------------- NEATSpaces function analysis

  /** Some neuron carries a function outside the canonical list. */
  predicate Uncanonical(canonical: seq<string>, neurons: set<NeuronGene>) {
    exists g :: g in neurons && g.activationFunction.Some? && g.activationFunction.value.name !in canonical
  }

  /** NEATSpaces `GetFunctionAnalysis`: every canonical function with the number of neurons that
      carry it; a neuron whose function is not canonical is a missing dictionary key. */
  method FunctionAnalysis(canonical: seq<string>, neurons: set<NeuronGene>) returns (r: Result<map<string, nat>>)
    ensures r.Failure? <==> Uncanonical(canonical, neurons)
    ensures r.Failure? ==> r.error == "KeyNotFoundException"
    ensures r.Success? ==> r.value.Keys == set l | l in canonical
    ensures r.Success? ==> forall l :: l in canonical ==> r.value[l] == Count(neurons, l)
  {
    var result: map<string, nat> := map l | l in canonical :: 0;
    var rest := neurons;
    while rest != {}
      invariant rest <= neurons && Analysed(result, canonical, neurons - rest)
      decreases rest
    {
      var g :| g in rest;
      ghost var done := neurons - rest;
      ghost var before := result;
      if g.activationFunction.Some? {
        var l := g.activationFunction.value.name;
        if l !in result {
          assert Uncanonical(canonical, neurons) by {
            assert g in neurons && l !in canonical;
          }
          return Failure("KeyNotFoundException");
        }
        result := result[l := result[l] + 1];
      }
      rest := rest - {g};
      assert neurons - rest == done + {g};
      AnalysisStep(before, result, canonical, done, g);
    }
    assert neurons - rest == neurons;
    return Success(result);
  }

  /** The counts after the neurons of `done` were visited, none of them uncanonical. */
  ghost predicate Analysed(result: map<string, nat>, canonical: seq<string>, done: set<NeuronGene>) {
    && result.Keys == (set l | l in canonical)
    && !Uncanonical(canonical, done)
    && forall l :: l in canonical ==> result[l] == |Labelled(done, l)|
  }

  lemma AnalysisStep(before: map<string, nat>, after: map<string, nat>, canonical: seq<string>,
                     done: set<NeuronGene>, g: NeuronGene)
    requires Analysed(before, canonical, done) && g !in done
    requires g.activationFunction.None? ==> after == before
    requires g.activationFunction.Some? ==>
      var l := g.activationFunction.value.name;
      l in before && after == before[l := before[l] + 1]
    ensures Analysed(after, canonical, done + {g})
  {
    forall l | l in canonical ensures after[l] == |Labelled(done + {g}, l)| {
      LabelledAdd(done, g, l);
    }
  }

  lemma LabelledAdd(done: set<NeuronGene>, g: NeuronGene, l: string)
    requires g !in done
    ensures |Labelled(done + {g}, l)| ==
      |Labelled(done, l)| + if g.activationFunction.Some? && g.activationFunction.value.name == l then 1 else 0
  {
    if g.activationFunction.Some? && g.activationFunction.value.name == l {
      assert Labelled(done + {g}, l) == Labelled(done, l) + {g};
    } else {
      assert Labelled(done + {g}, l) == Labelled(done, l);
    }
  }

  /** The NEATSpaces distance term: the mean gap over the canonical list. */
  ghost function CanonicalDifference(canonical: seq<string>, n1: set<NeuronGene>, n2: set<NeuronGene>): (r: Result<real>)
    ensures r.Failure? <==> canonical == [] || Uncanonical(canonical, n1) || Uncanonical(canonical, n2)
  {
    if Uncanonical(canonical, n1) || Uncanonical(canonical, n2) then Failure("KeyNotFoundException")
    else Mean(seq(|canonical|, k requires 0 <= k < |canonical| =>
                  AbsDiff(Count(n1, canonical[k]), Count(n2, canonical[k])) as real))
  }

  /** NEATSpaces: both analyses, then the mean gap over the canonical list. */
  method CanonicalAverage(canonical: seq<string>, n1: set<NeuronGene>, n2: set<NeuronGene>) returns (r: Result<real>)
    ensures r == CanonicalDifference(canonical, n1, n2)
  {
    var analysis1 := FunctionAnalysis(canonical, n1);
    if analysis1.Failure? {
      return Failure(analysis1.error);
    }
    var analysis2 := FunctionAnalysis(canonical, n2);
    if analysis2.Failure? {
      return Failure(analysis2.error);
    }
    var a1, a2 := analysis1.value, analysis2.value;
    var gaps := seq(|canonical|, k requires 0 <= k < |canonical| => AbsDiff(a1[canonical[k]], a2[canonical[k]]) as real);
    assert gaps == seq(|canonical|, k requires 0 <= k < |canonical| =>
                       AbsDiff(Count(n1, canonical[k]), Count(n2, canonical[k])) as real);
    r := Mean(gaps);
  }

  /** The function term of the distance: the label map of `GetAverageFunctionDifference`, or,
      given the canonical function list, the NEATSpaces analysis over it. */
  ghost function FunctionTerm(canonical: Option<seq<string>>, n1: set<NeuronGene>, n2: set<NeuronGene>): Result<real> {
    match canonical
    case None => FunctionDifference(n1, n2)
    case Some(list) => CanonicalDifference(list, n1, n2)
  }

  /** The four weighted terms: the unmatched counts over the normaliser `n`, the mean of the
      weight gaps and the function term. Throws when there are no gaps or the function term
      throws. */
  function Combine(w: DistanceWeights, excess: nat, disjoint: nat, n: nat, gaps: seq<real>,
                   functionTerm: Result<real>): (r: Result<real>)
    requires n >= 1
    ensures r.Failure? <==> gaps == [] || functionTerm.Failure?
  {
    var weightGap := Mean(gaps);
    if weightGap.Failure? then Failure(weightGap.error)
    else if functionTerm.Failure? then Failure(functionTerm.error)
    else
      Success(w.excess * ((excess as real) / (n as real)) + w.disjoint * ((disjoint as real) / (n as real)) +
              w.matching * weightGap.value + w.functions * functionTerm.value)
  }

  /** `CompatibilityDistance` of a walk `d` over genomes of `count1` and `count2` link genes. */
  function Distance(w: DistanceWeights, d: Alignment<LinkGene>, count1: nat, count2: nat,
                          magnitude: Complex -> real, functionTerm: Result<real>): (r: Result<real>)
    reads GenesOf(d.matches)
    ensures r.Failure? <==> d.matches == [] || functionTerm.Failure?
  {
    Combine(w, TotalExcess(d), TotalDisjoint(d), Normaliser(count1, count2), Gaps(d.matches, magnitude), functionTerm)
  }

  /** `CompatibilityDistance`: the walk, the mean weight gap of the matches, both genomes' sizes
      and the function term, weighted by the GA's coefficients. */
  method CompatibilityDistance(c1: GeneCollection, c2: GeneCollection, w: DistanceWeights,
                               magnitude: Complex -> real, canonical: Option<seq<string>>) returns (r: Result<real>)
    requires c1.Valid() && c2.Valid()
    modifies c1, c2
    ensures c1.Valid() && c2.Valid() && Kept(c1) && Kept(c2)
    ensures old(Unfilled(c1)) || old(Unfilled(c2)) ==> r == Failure("NullReferenceException")
    ensures !old(Unfilled(c1)) && !old(Unfilled(c2)) ==>
      r == Distance(w, Align(SortedLinks(c1.linkGeneMap), SortedLinks(c2.linkGeneMap), Number),
                    |c1.linkGeneMap|, |c2.linkGeneMap|, magnitude,
                    FunctionTerm(canonical, c1.neuronGeneSet, c2.neuronGeneSet))
  {
    var differences := CollectionDifferences(c1, c2);
    if differences.Failure? {
      return Failure(differences.error);
    }
    var links1 := c1.LinkGenes();
    var links2 := c2.LinkGenes();
    assert links1.Success? && links2.Success?;
    var functionTerm := FunctionTermOf(canonical, c1.neuronGeneSet, c2.neuronGeneSet);
    r := Distance(w, differences.value, |links1.value|, |links2.value|, magnitude, functionTerm);
  }

  /** The function term of either kind of genome. */
  method FunctionTermOf(canonical: Option<seq<string>>, n1: set<NeuronGene>, n2: set<NeuronGene>) returns (r: Result<real>)
    ensures r == FunctionTerm(canonical, n1, n2)
  {
    if canonical.None? {
      r := AverageFunctionDifference(n1, n2);
    } else {
      r := CanonicalAverage(canonical.value, n1, n2);
    }
  }

  /** With a weight measure that ignores the order of subtraction, the distance does not depend
      on which genome is measured against which. */
  lemma DistanceSymmetric(w: DistanceWeights, a: seq<LinkGene>, b: seq<LinkGene>, magnitude: Complex -> real,
                          canonical: Option<seq<string>>, n1: set<NeuronGene>, n2: set<NeuronGene>)
    requires forall x, y :: magnitude(Sub(x, y)) == magnitude(Sub(y, x))
    ensures Distance(w, Align(a, b, Number), |a|, |b|, magnitude, FunctionTerm(canonical, n1, n2)) ==
            Distance(w, Align(b, a, Number), |b|, |a|, magnitude, FunctionTerm(canonical, n2, n1))
  {
    var d := Align(a, b, Number);
    AlignSwaps(a, b, Number);
    var e := Align(b, a, Number);
    GapsSwapped(d.matches, magnitude);
    assert Gaps(e.matches, magnitude) == Gaps(d.matches, magnitude);
    assert TotalExcess(e) == TotalExcess(d) && TotalDisjoint(e) == TotalDisjoint(d);
    assert Normaliser(|b|, |a|) == Normaliser(|a|, |b|);
    FunctionTermSymmetric(canonical, n1, n2);
  }

  lemma GapsSwapped(ms: seq<(LinkGene, LinkGene)>, magnitude: Complex -> real)
    requires forall x, y :: magnitude(Sub(x, y)) == magnitude(Sub(y, x))
    ensures Gaps(Swapped(Alignment(Unmatched([], []), Unmatched([], []), ms)).matches, magnitude) == Gaps(ms, magnitude)
  {
    var swapped := Swapped(Alignment(Unmatched([], []), Unmatched([], []), ms)).matches;
    forall k | 0 <= k < |ms| ensures Gap(swapped[k], magnitude) == Gap(ms[k], magnitude) {
      assert swapped[k] == (ms[k].1, ms[k].0);
    }
  }

  lemma FunctionTermSymmetric(canonical: Option<seq<string>>, n1: set<NeuronGene>, n2: set<NeuronGene>)
    ensures FunctionTerm(canonical, n1, n2) == FunctionTerm(canonical, n2, n1)
  {
    if canonical.None? {
      FunctionDifferenceSymmetric(n1, n2);
    } else {
      var list := canonical.value;
      if !Uncanonical(list, n1) && !Uncanonical(list, n2) {
        assert seq(|list|, k requires 0 <= k < |list| => AbsDiff(Count(n1, list[k]), Count(n2, list[k])) as real) ==
               seq(|list|, k requires 0 <= k < |list| => AbsDiff(Count(n2, list[k]), Count(n1, list[k])) as real);
      }
    }
  }

  /** A genome is at distance zero from itself whenever the distance is defined. */
  lemma DistanceToSelf(w: DistanceWeights, a: seq<LinkGene>, magnitude: Complex -> real,
                       canonical: Option<seq<string>>, n: set<NeuronGene>)
    requires magnitude(Zero) == 0.0
    ensures var r := Distance(w, Align(a, a, Number), |a|, |a|, magnitude, FunctionTerm(canonical, n, n));
      r.Success? <==> a != [] && FunctionTerm(canonical, n, n).Success?
    ensures var r := Distance(w, Align(a, a, Number), |a|, |a|, magnitude, FunctionTerm(canonical, n, n));
      r.Success? ==> r.value == 0.0
  {
    AlignSelf(a, Number);
    FunctionTermSelf(canonical, n);
    SelfWalkZero(w, Align(a, a, Number), |a|, magnitude, FunctionTerm(canonical, n, n));
  }

  /** A walk that pairs each gene with itself and leaves nothing over is at distance zero. */
  lemma SelfWalkZero(w: DistanceWeights, d: Alignment<LinkGene>, count: nat, magnitude: Complex -> real,
                     functionTerm: Result<real>)
    requires magnitude(Zero) == 0.0
    requires d.first == Unmatched([], []) && d.second == Unmatched([], [])
    requires forall k :: 0 <= k < |d.matches| ==> d.matches[k].0 == d.matches[k].1
    requires functionTerm.Success? ==> functionTerm.value == 0.0
    ensures var r := Distance(w, d, count, count, magnitude, functionTerm); r.Success? ==> r.value == 0.0
  {
    var gaps := Gaps(d.matches, magnitude);
    forall k | 0 <= k < |gaps| ensures 0.0 <= gaps[k] <= 0.0 {
      var g := d.matches[k].0;
      assert Sub(g.weight, g.weight) == Zero;
    }
    assert TotalExcess(d) == 0 && TotalDisjoint(d) == 0;
    CombineZero(w, Normaliser(count, count), gaps, functionTerm);
  }

  lemma CombineZero(w: DistanceWeights, n: nat, gaps: seq<real>, functionTerm: Result<real>)
    requires n >= 1 && forall k :: 0 <= k < |gaps| ==> 0.0 <= gaps[k] <= 0.0
    requires functionTerm.Success? ==> functionTerm.value == 0.0
    ensures var r := Combine(w, 0, 0, n, gaps, functionTerm); r.Success? ==> r.value == 0.0
  {
    if gaps != [] {
      MeanWithin(gaps, 0.0, 0.0);
    }
  }

  lemma FunctionTermSelf(canonical: Option<seq<string>>, n: set<NeuronGene>)
    ensures FunctionTerm(canonical, n, n).Success? ==> FunctionTerm(canonical, n, n).value == 0.0
  {
    if canonical.None? {
      if Labels(n) != {} {
        FunctionDifferenceSelf(n);
      }
    } else {
      var list := canonical.value;
      if list != [] && !Uncanonical(list, n) {
        var gaps := seq(|list|, k requires 0 <= k < |list| => AbsDiff(Count(n, list[k]), Count(n, list[k])) as real);
        MeanWithin(gaps, 0.0, 0.0);
      }
    }
  }

  // ---------------------------------------------------------------- ToString

  /** `String.Join("\r\n", lines)`. */
  function JoinLines(lines: seq<string>): string {
    if lines == [] then ""
    else if |lines| == 1 then lines[0]
    else lines[0] + "\r\n" + JoinLines(lines[1..])
  }

  /** Cuts a text at each "\r\n", the reading of what `JoinLines` writes. */
  function SplitLines(s: string): (r: seq<string>)
    ensures r != []
    decreases |s|
  {
    var k := IndexOf(s, '\r');
    if k + 1 < |s| && s[k + 1] == '\n' then [s[..k]] + SplitLines(s[k + 2..]) else [s]
  }

  predicate NoCarriageReturn(line: string) {
    forall k :: 0 <= k < |line| ==> line[k] != '\r'
  }

  /** Lines free of carriage returns are read back one by one from their join. */
  lemma {:induction false} SplitJoin(lines: seq<string>)
    requires lines != [] && forall i :: 0 <= i < |lines| ==> NoCarriageReturn(lines[i])
    ensures SplitLines(JoinLines(lines)) == lines
    decreases |lines|
  {
    var first := lines[0];
    if |lines| == 1 {
      assert IndexOf(first, '\r') == |first|;
    } else {
      var rest := JoinLines(lines[1..]);
      var s := first + "\r\n" + rest;
      assert s == first + ['\r'] + ("\n" + rest);
      IndexOfAfterPrefix(first, '\r', "\n" + rest);
      assert s[..|first|] == first && s[|first| + 2..] == rest;
      SplitJoin(lines[1..]);
      assert lines == [first] + lines[1..];
    }
  }

  /** Each link's `ToString`, the weight printed by `weightText` ("f2" formatting). */
  function LinkTexts(links: seq<LinkGene>, weightText: Complex -> string): (r: seq<string>)
    reads links
    ensures |r| == |links| && forall k :: 0 <= k < |links| ==> r[k] == links[k].Text(weightText(links[k].weight))
  {
    seq(|links|, k requires 0 <= k < |links| reads links => links[k].Text(weightText(links[k].weight)))
  }

  /** `ToString`: the valid links' texts in innovation order, one per line. Reading the sorted
      view throws when it was never filled. */
  method GenomeText(c: GeneCollection, weightText: Complex -> string) returns (r: Result<string>)
    requires c.Valid()
    modifies c
    ensures c.Valid() && Kept(c)
    ensures r.Failure? <==> old(Unfilled(c))
    ensures r.Success? ==>
      var valid := ValidOf(SortedLinks(c.linkGeneMap), c.orphanedNeurons);
      && r.value == JoinLines(LinkTexts(valid, weightText))
      && (valid != [] && (forall k :: 0 <= k < |valid| ==> NoCarriageReturn(LinkTexts(valid, weightText)[k]))
          ==> SplitLines(r.value) == LinkTexts(valid, weightText))
  {
    var links := c.ValidLinks();
    if links.Failure? {
      return Failure(links.error);
    }
    var texts := LinkTexts(links.value, weightText);
    if texts != [] && forall k :: 0 <= k < |texts| ==> NoCarriageReturn(texts[k]) {
      SplitJoin(texts);
    }
    r := Success(JoinLines(texts));
  }
}
