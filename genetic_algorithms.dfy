/**
 * The generic genetic-algorithm layer: CPPNNEAT/GeneticAlgorithms/Genome.cs (the stale-phenome
 * protocol), GeneticAlgorithms/SpeciatedGenome.cs, GeneticAlgorithms/Species.cs,
 * GeneticAlgorithms/BaseGA.cs and GeneticAlgorithms/BaseSpeciatedGA.cs (the same logic as
 * CPPNNEAT/GeneticAlgorithms/BaseSpeciatedGA.cs).
 *
 * The speciated genome and the speciated GA are folded into `Genome` and `GA`: the only
 * concrete GA of the repository is speciated, and its event handlers (`GenomeAdded`,
 * `SelectionComplete`, `IterationComplete`) are called where the base class raises the events.
 * Genes `G` and phenomes `P` are opaque. What the concrete genome does (building the phenome,
 * mutating, crossing over, measuring the compatibility distance) and the fitness function
 * reach the model as parameters or `const` fields; so do the random draws.
 */
module GeneticAlgorithms {
  import opened Wrappers
  import opened MathExtensions
  import opened ListExtensions

  /** `SPECIES_CHAMPION_THRESHOLD`: a species needs more members than this to keep a champion. */
  const SpeciesChampionThreshold := 5

  // ================================================================ Genome

  /** A genome: its genes, the score and phenome computed from them, and whether they are
      stale. `parent` is the GA it belongs to (null for an orphan), `species` the species it
      was last added to (null when none). */
  class Genome<G, P(==)> {
    var genes: G
    var score: real
    var phenome: Option<P>
    var phenomeExpired: bool
    var parent: GA?<G, P>
    var species: Species?<G, P>

    /** A new genome of `parent` whose gene collection holds `genes`. The score is 0, there is
        no phenome yet and, as for any fresh .NET object, the expiry flag is clear. */
    constructor (parent: GA?<G, P>, genes: G)
      ensures this.parent == parent && this.genes == genes && species == null
      ensures score == 0.0 && phenome == None && !phenomeExpired
    {
      this.genes := genes;
      this.parent := parent;
      species := null;
      score := 0.0;
      phenome := None;
      phenomeExpired := false;
    }

    /** `Score`: an orphan genome throws, and so does a stale one. */
    function Score(): (r: Result<real>)
      reads this
      ensures r.Success? <==> parent != null && !phenomeExpired
      ensures r.Success? ==> r.value == score
      ensures r.Failure? ==> r.error == "ApplicationException"
    {
      if parent == null || phenomeExpired then Failure("ApplicationException") else Success(score)
    }

    /** `Phenome`: guarded exactly as `Score` is. */
    function Phenome(): (r: Result<Option<P>>)
      reads this
      ensures r.Success? <==> Score().Success?
      ensures r.Success? ==> r.value == phenome
      ensures r.Failure? ==> r.error == "ApplicationException"
    {
      if parent == null || phenomeExpired then Failure("ApplicationException") else Success(phenome)
    }

    /** Only the score, the phenome and the expiry flag changed. */
    twostate predicate Rescored()
      reads this
    {
      genes == old(genes) && parent == old(parent) && species == old(species)
    }

    /** `UpdatePhenome`: the phenome is built from the genes (`express` stands for the concrete
        genome's `GetPhenome`) and is fresh again, so an attached genome's guards pass. */
    method UpdatePhenome(express: G -> P)
      modifies this
      ensures phenome == Some(express(genes)) && !phenomeExpired
      ensures Rescored() && score == old(score)
      ensures parent != null ==> Phenome() == Success(Some(express(genes))) && Score() == Success(score)
    {
      phenome := Some(express(genes));
      phenomeExpired := false;
    }

    /** The speciated `Update`: the genome's species (if any) drops its caches, the genome goes
        stale and its GA drops its caches. An orphan throws once the flag is set. */
    method Update() returns (r: Result<()>)
      modifies this, species, parent
      ensures phenomeExpired && Rescored() && score == old(score) && phenome == old(phenome)
      ensures Score().Failure? && Phenome().Failure?
      ensures species != null ==> species.Invalidated()
      ensures r.Failure? <==> parent == null
      ensures r.Failure? ==> r.error == "NullReferenceException"
      ensures parent != null ==> parent.Invalidated()
    {
      if species != null {
        species.Update();
      }
      phenomeExpired := true;
      if parent == null {
        return Failure("NullReferenceException");
      }
      parent.Update();
      r := Success(());
    }

    /** `Mutate`: the concrete `InnerMutate` turns the genes into `mutated`, then `Update`. */
    method Mutate(mutated: G) returns (r: Result<()>)
      modifies this, species, parent
      ensures genes == mutated && parent == old(parent) && species == old(species)
      ensures phenomeExpired && score == old(score) && phenome == old(phenome)
      ensures species != null ==> species.Invalidated()
      ensures r.Failure? <==> parent == null
      ensures parent != null ==> parent.Invalidated()
    {
      genes := mutated;
      r := Update();
    }

    /** `Copy`: `InnerCopy` clones every field (the copy shares the parent and the species),
        then the copy is updated, so it comes back stale and its species and GA invalidated. */
    method Copy() returns (r: Result<Genome<G, P>>)
      modifies species, parent
      ensures r.Failure? <==> parent == null
      ensures r.Success? ==> fresh(r.value)
      ensures r.Success? ==> r.value.genes == genes && r.value.parent == parent && r.value.species == species
      ensures r.Success? ==> r.value.phenomeExpired && r.value.score == score && r.value.phenome == phenome
      ensures species != null ==> species.Invalidated()
      ensures parent != null ==> parent.Invalidated()
    {
      var copy := new Genome(parent, genes);
      copy.species, copy.score, copy.phenome, copy.phenomeExpired := species, score, phenome, phenomeExpired;
      var updated := copy.Update();
      if updated.Failure? {
        return Failure(updated.error);
      }
      r := Success(copy);
    }

    /** `Crossover`: the concrete `InnerCrossover` builds a new genome of the same GA whose
        genes `childGenes` are bred from this genome's and the partner's; each gene it adds
        notifies the child, which therefore comes back stale, as after `Initialise`. */
    method Crossover(partner: Genome<G, P>, childGenes: G) returns (child: Genome<G, P>)
      ensures fresh(child) && child.parent == parent && child.genes == childGenes && child.species == null
      ensures child.phenomeExpired
    {
      child := new Genome(parent, childGenes);
      child.phenomeExpired := true;
    }

    /** `Initialise`: the concrete genome fills its gene collection with `initialGenes`; every
        gene it adds notifies the genome, which therefore ends up stale, as after `Update`. */
    method Initialise(initialGenes: G) returns (r: Result<()>)
      modifies this, species, parent
      ensures genes == initialGenes && parent == old(parent) && species == old(species)
      ensures phenomeExpired && score == old(score) && phenome == old(phenome)
      ensures species != null ==> species.Invalidated()
      ensures r.Failure? <==> parent == null
      ensures parent != null ==> parent.Invalidated()
    {
      genes := initialGenes;
      r := Update();
    }
  }

  // ================================================================ Species

  /** A species: its members (sorted by score, best first, whenever `listStale` is clear), the
      representative new genomes are measured against, the stagnation bookkeeping and the
      cached average fitness. */
  class Species<G, P(==)> {
    const ga: GA<G, P>
    var previousScore: real
    var canBreed: bool
    var noInnovationCount: int
    var averageFitness: real
    var averageStale: bool
    var representative: Genome<G, P>
    var members: seq<Genome<G, P>>
    var listStale: bool

    /** Both caches dropped; nothing else changed. */
    twostate predicate Invalidated()
      reads this
    {
      listStale && averageStale && Kept()
    }

    /** Membership, representative and stagnation bookkeeping unchanged. */
    twostate predicate Kept()
      reads this
    {
      && members == old(members) && representative == old(representative)
      && previousScore == old(previousScore) && canBreed == old(canBreed)
      && noInnovationCount == old(noInnovationCount)
    }

    /** The constructor body after `Best.Score` was read: a species of one genome, which may
        breed, whose previous score is that genome's. The caches are dropped last. */
    constructor (ga: GA<G, P>, representative: Genome<G, P>, representativeScore: real)
      ensures this.ga == ga && this.representative == representative && members == [representative]
      ensures canBreed && previousScore == representativeScore && noInnovationCount == 0
      ensures listStale && averageStale
    {
      this.ga := ga;
      this.representative := representative;
      members := [representative];
      canBreed := true;
      noInnovationCount := 0;
      averageFitness := 0.0;
      previousScore := representativeScore;
      listStale := true;
      averageStale := true;
    }

    /** `Update`: both caches are invalidated. */
    method Update()
      modifies this
      ensures Invalidated() && averageFitness == old(averageFitness)
    {
      listStale := true;
      averageStale := true;
    }

    /** `Count`: the number of members. */
    function Count(): (n: nat)
      reads this
      ensures n == |members|
    {
      |members|
    }

    /** `BelongsTo`: the genome is within the GA's threshold of the representative; a distance
        that throws propagates. */
    function BelongsTo(genome: Genome<G, P>): (r: Result<bool>)
      reads this, representative`genes, genome`genes
    {
      var d := ga.distance(representative.genes, genome.genes);
      if d.Failure? then Failure(d.error) else Success(d.value <= ga.compatibilityThreshold)
    }

    /** `Add`: the genome is appended and becomes the representative. */
    method Add(genome: Genome<G, P>)
      modifies this
      ensures members == old(members) + [genome] && representative == genome
      ensures listStale && averageStale
      ensures previousScore == old(previousScore) && canBreed == old(canBreed)
      ensures noInnovationCount == old(noInnovationCount)
    {
      members := members + [genome];
      representative := genome;
      Update();
    }

    /** `Remove`: the first occurrence of the genome, if any, leaves the list. */
    method Remove(genome: Genome<G, P>)
      modifies this
      ensures members == RemoveFirst(old(members), genome)
      ensures multiset(members) == multiset(old(members)) - multiset{genome}
      ensures |members| == |old(members)| - (if genome in old(members) then 1 else 0)
      ensures listStale && averageStale && representative == old(representative)
      ensures previousScore == old(previousScore) && canBreed == old(canBreed)
      ensures noInnovationCount == old(noInnovationCount)
    {
      RemoveFirstCounts(members, genome);
      members := RemoveFirst(members, genome);
      Update();
    }

    /** The stagnation bookkeeping. */
    function Bookkeeping(): (b: Stagnation)
      reads this
      ensures b.previousScore == previousScore && b.canBreed == canBreed && b.noInnovationCount == noInnovationCount
    {
      Stagnation(previousScore, canBreed, noInnovationCount)
    }

    /** No members are left, both caches are dropped and the bookkeeping is kept. */
    twostate predicate Cleared()
      reads this
    {
      && members == [] && listStale && averageStale && representative == old(representative)
      && previousScore == old(previousScore) && canBreed == old(canBreed)
      && noInnovationCount == old(noInnovationCount)
    }

    /** `Clear`: no members are left. */
    method Clear()
      modifies this
      ensures members == [] && representative == old(representative)
      ensures listStale && averageStale
      ensures previousScore == old(previousScore) && canBreed == old(canBreed)
      ensures noInnovationCount == old(noInnovationCount)
    {
      members := [];
      Update();
    }

    /** The list is in the order `Members` sorts it into, and when that took a comparison no
        member was stale. */
    predicate Ranked()
      reads this, set g | g in members
    {
      ByScore(members) && (|members| >= 2 ==> AllFresh(members))
    }

    /** Only the order of the members and the list cache changed. */
    twostate predicate Reordered()
      reads this
    {
      && multiset(members) == multiset(old(members)) && representative == old(representative)
      && previousScore == old(previousScore) && canBreed == old(canBreed)
      && noInnovationCount == old(noInnovationCount)
      && averageFitness == old(averageFitness) && averageStale == old(averageStale)
    }

    /** `Members`: a stale list makes the GA bring its genomes up to date, then is sorted best
        first. `List.Sort` compares only when there are two members or more, and a comparison
        that reads a throwing score makes it throw `InvalidOperationException`. A fresh list
        is returned as it is. */
    method Members() returns (r: Result<seq<Genome<G, P>>>)
      modifies this, ga, set g | g in ga.population
      ensures Reordered() && ga.Kept() && ga.best == old(ga.best) && ga.average == old(ga.average)
      ensures !old(listStale) ==> r == Success(members) && unchanged(this) && unchanged(ga)
      ensures !old(listStale) ==> unchanged(set g | g in ga.population)
      ensures old(listStale) && ga.initialised ==> forall g :: g in ga.population ==> ga.Refreshed(g)
      ensures old(listStale) && !ga.initialised ==> r == Failure("ArgumentNullException")
      ensures old(listStale) && !ga.initialised ==> unchanged(ga) && unchanged(set g | g in ga.population)
      ensures old(listStale) && ga.initialised ==>
        (r.Failure? <==> |members| >= 2 && !AllScored(members))
      ensures r.Failure? ==> members == old(members) && listStale
      ensures r.Success? ==> r.value == members && !listStale
      ensures r.Success? && old(listStale) ==> Ranked()
    {
      if !listStale {
        return Success(members);
      }
      var updated := ga.UpdateGenomes();
      if updated.Failure? {
        return Failure(updated.error);
      }
      var sorted := Sort();
      if !sorted {
        return Failure("InvalidOperationException");
      }
      r := Success(members);
    }

    /** The `List.Sort` call of `Members`: it compares only when there are two members or more,
        and throws when a comparison reads a score that throws. */
    method Sort() returns (sorted: bool)
      modifies this`members, this`listStale
      ensures sorted <==> |old(members)| < 2 || AllScored(old(members))
      ensures multiset(members) == multiset(old(members)) && |members| == |old(members)|
      ensures forall g :: g in members <==> g in old(members)
      ensures sorted ==> Ranked() && !listStale
      ensures !sorted ==> members == old(members) && listStale == old(listStale)
    {
      if |members| >= 2 {
        if !AllScored(members) {
          return false;
        }
        assert AllFresh(members);
        var ranked := SortedByScore(members);
        SortedByScoreRanks(members);
        members := ranked;
      }
      listStale := false;
      sorted := true;
    }

    /** `Best`: the first of `Members`; an empty species throws. When the list was stale, or
        ranked, that is a member of greatest score. */
    method Best() returns (r: Result<Genome<G, P>>)
      modifies this, ga, set g | g in ga.population
      ensures Reordered() && ga.Kept() && ga.best == old(ga.best) && ga.average == old(ga.average)
      ensures old(listStale) && ga.initialised ==> forall g :: g in ga.population ==> ga.Refreshed(g)
      ensures !old(listStale) || !ga.initialised ==> unchanged(ga) && unchanged(set g | g in ga.population)
      ensures members == [] && (!old(listStale) || ga.initialised) ==> r == Failure("InvalidOperationException")
      ensures members != [] && old(listStale) && !ga.initialised ==> r == Failure("ArgumentNullException")
      ensures members != [] && old(listStale) && ga.initialised ==>
        (r.Failure? <==> |members| >= 2 && !AllScored(members))
      ensures members != [] && !old(listStale) ==> r.Success?
      ensures r.Success? ==> |members| > 0 && r.value == members[0]
      ensures r.Success? && (old(listStale) || old(Ranked())) ==> forall g :: g in members ==> g.score <= r.value.score
    {
      var listed := Members();
      if listed.Failure? {
        return Failure(listed.error);
      }
      if |listed.value| == 0 {
        return Failure("InvalidOperationException");
      }
      r := Success(listed.value[0]);
      if !old(listStale) && old(Ranked()) {
        assert members == old(members);
        assert forall k :: 0 <= k < |members| ==> members[k].score == old(members[k].score);
      }
      if old(listStale) || old(Ranked()) {
        forall g | g in members
          ensures g.score <= r.value.score
        {
          var k :| 0 <= k < |members| && members[k] == g;
          if k > 0 {
            assert members[0].score >= members[k].score;
          }
        }
      }
    }

    /** `AverageFitness`: a stale cache makes the GA bring its genomes up to date, then holds
        the mean of the members' adjusted scores; a fresh cache is returned as it is. */
    method AverageFitness() returns (r: Result<real>)
      modifies this, ga, set g | g in ga.population
      ensures Kept() && listStale == old(listStale)
      ensures ga.Kept() && ga.best == old(ga.best) && ga.average == old(ga.average)
      ensures !old(averageStale) ==> r == Success(averageFitness) && unchanged(this) && unchanged(ga)
      ensures !old(averageStale) ==> unchanged(set g | g in ga.population)
      ensures old(averageStale) && ga.initialised ==> forall g :: g in ga.population ==> ga.Refreshed(g)
      ensures old(averageStale) && !ga.initialised ==> r == Failure("ArgumentNullException")
      ensures old(averageStale) && !ga.initialised ==> unchanged(ga) && unchanged(set g | g in ga.population)
      ensures old(averageStale) && ga.initialised ==> r == AverageAdjusted(members)
      ensures r.Success? ==> !averageStale && averageFitness == r.value
      ensures r.Failure? ==> averageStale && averageFitness == old(averageFitness)
    {
      if !averageStale {
        return Success(averageFitness);
      }
      var updated := ga.UpdateGenomes();
      if updated.Failure? {
        return Failure(updated.error);
      }
      r := AverageAdjusted(members);
      if r.Success? {
        averageFitness := r.value;
        averageStale := false;
      }
    }
  }

  /** Every score is at least every later one. */
  predicate ByScore<G, P(==)>(gs: seq<Genome<G, P>>)
    reads set g | g in gs
  {
    forall i, j :: 0 <= i < j < |gs| ==> gs[i].score >= gs[j].score
  }

  /** Every genome of the list can give its score: none throws. */
  predicate AllScored<G, P(==)>(gs: seq<Genome<G, P>>)
    reads set g | g in gs
  {
    forall g :: g in gs ==> g.Score().Success?
  }

  /** No genome of the list is stale. */
  predicate AllFresh<G, P(==)>(gs: seq<Genome<G, P>>)
    reads set g | g in gs
  {
    forall g :: g in gs ==> !g.phenomeExpired
  }

  /** The genomes paired with their scores, in list order: what the sort compares. */
  function WithScores<G, P(==)>(gs: seq<Genome<G, P>>): (r: seq<(Genome<G, P>, real)>)
    reads set g | g in gs
    ensures |r| == |gs| && forall k :: 0 <= k < |gs| ==> r[k] == (gs[k], gs[k].score)
  {
    seq(|gs|, k requires 0 <= k < |gs| reads set g | g in gs => (gs[k], gs[k].score))
  }

  /** The items of a list of scored items. */
  function Unscored<T>(ps: seq<(T, real)>): (r: seq<T>)
    ensures |r| == |ps| && forall k :: 0 <= k < |ps| ==> r[k] == ps[k].0
  {
    if ps == [] then [] else [ps[0].0] + Unscored(ps[1..])
  }

  /** `List.Sort` with the comparison `member2.Score.CompareTo(member1.Score)`: best first, as
      the descending sort of the scored members. */
  function SortedByScore<G, P(==)>(gs: seq<Genome<G, P>>): (r: seq<Genome<G, P>>)
    reads set g | g in gs
  {
    Unscored(SortByWeightDescending(WithScores(gs)))
  }

  /** Sorting keeps the members and puts them best first. */
  lemma SortedByScoreRanks<G, P>(gs: seq<Genome<G, P>>)
    ensures multiset(SortedByScore(gs)) == multiset(gs)
    ensures forall g :: g in SortedByScore(gs) <==> g in gs
    ensures ByScore(SortedByScore(gs))
    ensures AllFresh(gs) ==> AllFresh(SortedByScore(gs))
  {
    SortedByScoreKeeps(gs);
    SortedByScoreDescends(gs);
    FreshWithin(gs, SortedByScore(gs));
  }

  /** The same genomes as fresh genomes are fresh. */
  lemma FreshWithin<G, P>(gs: seq<Genome<G, P>>, r: seq<Genome<G, P>>)
    requires forall g :: g in r <==> g in gs
    ensures AllFresh(gs) ==> AllFresh(r)
  {
  }

  /** Sorting keeps the members, each as often as before. */
  lemma SortedByScoreKeeps<G, P>(gs: seq<Genome<G, P>>)
    ensures multiset(SortedByScore(gs)) == multiset(gs)
    ensures forall g :: g in SortedByScore(gs) <==> g in gs
  {
    var ps := WithScores(gs);
    SortKeepsItems(ps);
    assert Unscored(ps) == gs;
    SameMembers(SortedByScore(gs), gs);
  }

  /** Two sequences with the same multiset hold the same elements. */
  lemma SameMembers<T>(a: seq<T>, b: seq<T>)
    requires multiset(a) == multiset(b)
    ensures forall x :: x in a <==> x in b
  {
    forall x
      ensures x in a <==> x in b
    {
      assert x in a <==> x in multiset(a);
      assert x in b <==> x in multiset(b);
    }
  }

  /** Sorting puts the members in descending order of score. */
  lemma SortedByScoreDescends<G, P>(gs: seq<Genome<G, P>>)
    ensures ByScore(SortedByScore(gs))
  {
    var ps := WithScores(gs);
    var sorted := SortByWeightDescending(ps);
    SortKeepsItems(ps);
    var r := Unscored(sorted);
    PairsScored(gs, sorted);
    forall i, j | 0 <= i < j < |r|
      ensures r[i].score >= r[j].score
    {
      DescendingAllPairs(sorted, i, j);
    }
  }

  /** A rearrangement of the scored genomes still pairs each genome with its score. */
  lemma PairsScored<G, P>(gs: seq<Genome<G, P>>, sorted: seq<(Genome<G, P>, real)>)
    requires multiset(sorted) == multiset(WithScores(gs))
    ensures forall k :: 0 <= k < |sorted| ==> sorted[k].1 == sorted[k].0.score
  {
    var ps := WithScores(gs);
    forall k | 0 <= k < |sorted|
      ensures sorted[k].1 == sorted[k].0.score
    {
      assert sorted[k] in multiset(ps);
      var i :| 0 <= i < |ps| && ps[i] == sorted[k];
    }
  }

  /** The descending sort of scored items keeps the items. */
  lemma {:induction false} SortKeepsItems<T>(ps: seq<(T, real)>)
    ensures multiset(Unscored(SortByWeightDescending(ps))) == multiset(Unscored(ps))
  {
    if ps != [] {
      SortKeepsItems(ps[1..]);
      InsertKeepsItems(ps[0], SortByWeightDescending(ps[1..]));
    }
  }

  lemma {:induction false} InsertKeepsItems<T>(x: (T, real), ps: seq<(T, real)>)
    requires Descending(ps)
    ensures multiset(Unscored(InsertDescending(x, ps))) == multiset(Unscored(ps)) + multiset{x.0}
  {
    if ps != [] && x.1 < ps[0].1 {
      InsertKeepsItems(x, ps[1..]);
    }
  }

  /** `AdjustedScore`: the score divided by the size of the genome's species. The score is read
      first (and may throw), then the species (null throws); an empty species would make the
      .NET division non-finite, which the model reports as a failure. */
  function AdjustedScore<G, P(==)>(g: Genome<G, P>): (r: Result<real>)
    reads g, (if g.species == null then {} else {g.species})`members
  {
    if g.Score().Failure? then Failure(g.Score().error)
    else if g.species == null then Failure("NullReferenceException")
    else if |g.species.members| == 0 then Failure("NonFinite")
    else Success(g.score / (|g.species.members| as real))
  }

  /** The adjusted scores of a list, computed in order; the first that throws wins. */
  function AdjustedScores<G, P(==)>(gs: seq<Genome<G, P>>): (r: Result<seq<real>>)
    reads set g | g in gs, (set g | g in gs :: g.species)`members
    ensures r.Success? ==> |r.value| == |gs| && forall k :: 0 <= k < |gs| ==> AdjustedScore(gs[k]) == Success(r.value[k])
    ensures r.Failure? <==> exists k :: 0 <= k < |gs| && AdjustedScore(gs[k]).Failure?
  {
    if gs == [] then Success([])
    else
      var first := AdjustedScore(gs[0]);
      if first.Failure? then Failure(first.error)
      else
        var rest := AdjustedScores(gs[1..]);
        if rest.Failure? then Failure(rest.error)
        else
          assert forall k :: 1 <= k < |gs| ==> gs[k] == gs[1..][k - 1];
          Success([first.value] + rest.value)
  }

  /** `members.Select(member => member.AdjustedScore).Average()`. */
  function AverageAdjusted<G, P(==)>(gs: seq<Genome<G, P>>): (r: Result<real>)
    reads set g | g in gs, (set g | g in gs :: g.species)`members
  {
    var adjusted := AdjustedScores(gs);
    if adjusted.Failure? then Failure(adjusted.error) else Mean(adjusted.value)
  }

  /** `Select(genome => genome.Score)` as `MaxBy` and `Average` consume it: the first score
      that throws aborts the whole. */
  function ScoresOf<G, P(==)>(gs: seq<Genome<G, P>>): (r: Result<seq<real>>)
    reads set g | g in gs
    ensures r.Success? <==> AllScored(gs)
    ensures r.Success? ==> |r.value| == |gs| && forall k :: 0 <= k < |gs| ==> r.value[k] == gs[k].score
    ensures r.Failure? ==> r.error == "ApplicationException"
  {
    if gs == [] then Success([])
    else
      var first := gs[0].Score();
      if first.Failure? then Failure(first.error)
      else
        var rest := ScoresOf(gs[1..]);
        if rest.Failure? then Failure(rest.error)
        else
          assert forall k :: 1 <= k < |gs| ==> gs[k] == gs[1..][k - 1];
          Success([first.value] + rest.value)
  }

  /** The key `Best` hands to `MaxBy`, on genomes paired with their scores. */
  function PairScore<T>(p: (T, real)): real {
    p.1
  }

  /** Position `k` holds the highest score of the list, and every later score is strictly
      lower: the genome `MaxBy` picks. */
  ghost predicate LastBest<G, P>(gs: seq<Genome<G, P>>, k: int)
    reads set g | g in gs
  {
    && 0 <= k < |gs|
    && (forall j :: 0 <= j < |gs| ==> gs[j].score <= gs[k].score)
    && (forall j :: k < j < |gs| ==> gs[j].score < gs[k].score)
  }

  /** `List.Remove`: the list without its first occurrence of `x`. */
  function RemoveFirst<T(==)>(s: seq<T>, x: T): seq<T> {
    if s == [] then []
    else if s[0] == x then s[1..]
    else [s[0]] + RemoveFirst(s[1..], x)
  }

  /** Removing the first occurrence takes one copy of `x` out of the list, if it had one. */
  lemma {:induction false} RemoveFirstCounts<T>(s: seq<T>, x: T)
    ensures multiset(RemoveFirst(s, x)) == multiset(s) - multiset{x}
    ensures |RemoveFirst(s, x)| == |s| - (if x in s then 1 else 0)
  {
    if s != [] {
      assert s == [s[0]] + s[1..];
      assert multiset(s) == multiset{s[0]} + multiset(s[1..]);
      if s[0] == x {
        assert x in s;
      } else {
        RemoveFirstCounts(s[1..], x);
        assert x in s <==> x in s[1..];
        assert multiset(RemoveFirst(s, x)) == multiset{s[0]} + multiset(RemoveFirst(s[1..], x));
      }
    }
  }

  /** The `GenomeAdded` rule: the position of the first species, in list order, that the genome
      belongs to, or None when it belongs to none. A distance that throws on the way propagates. */
  function Placement<G, P(==)>(ss: seq<Species<G, P>>, g: Genome<G, P>): (r: Result<Option<nat>>)
    reads set s | s in ss, (set s | s in ss :: s.representative)`genes, g`genes
    ensures r.Success? && r.value.Some? ==> r.value.value < |ss| && ss[r.value.value].BelongsTo(g) == Success(true)
    ensures r.Success? ==>
      forall k :: 0 <= k < |ss| && (r.value.None? || k < r.value.value) ==> ss[k].BelongsTo(g) == Success(false)
    ensures r.Failure? ==>
      exists k :: 0 <= k < |ss| && ss[k].BelongsTo(g) == Failure(r.error) &&
        forall j :: 0 <= j < k ==> ss[j].BelongsTo(g) == Success(false)
  {
    if ss == [] then Success(None)
    else
      var b := ss[0].BelongsTo(g);
      if b.Failure? then Failure(b.error)
      else if b.value then Success(Some(0))
      else
        var rest := Placement(ss[1..], g);
        assert forall k :: 1 <= k < |ss| ==> ss[k] == ss[1..][k - 1];
        if rest.Failure? then Failure(rest.error)
        else if rest.value.None? then Success(None)
        else Success(Some(rest.value.value + 1))
  }

  /** `List.Remove` of an element the prefix does not hold takes it out where it stands. */
  lemma {:induction false} RemoveFirstAt<T>(a: seq<T>, x: T, b: seq<T>)
    requires x !in a
    ensures RemoveFirst(a + [x] + b, x) == a + b
  {
    if a != [] {
      assert (a + [x] + b)[1..] == a[1..] + [x] + b;
      RemoveFirstAt(a[1..], x, b);
      assert [a[0]] + (a[1..] + b) == a + b;
    } else {
      assert (a + [x] + b)[1..] == b;
    }
  }

  /** In a list without repeats, `List.Remove` of the element at `at` drops exactly that
      place, and leaves a list without repeats, of elements the list had. */
  lemma DroppedDistinct<T>(s: seq<T>, at: nat)
    requires at < |s| && forall i, j :: 0 <= i < j < |s| ==> s[i] != s[j]
    ensures var r := s[..at] + s[at + 1..];
      && RemoveFirst(s, s[at]) == r
      && (forall i, j :: 0 <= i < j < |r| ==> r[i] != r[j])
      && (forall x :: x in r ==> x in s)
  {
    assert s == s[..at] + [s[at]] + s[at + 1..];
    RemoveFirstAt(s[..at], s[at], s[at + 1..]);
    var r := s[..at] + s[at + 1..];
    forall i, j | 0 <= i < j < |r| ensures r[i] != r[j] {
      var i', j' := if i < at then i else i + 1, if j < at then j else j + 1;
      assert r[i] == s[i'] && r[j] == s[j'];
    }
  }

  // ================================================================ Stagnation

  /** A species' stagnation bookkeeping. */
  datatype Stagnation = Stagnation(previousScore: real, canBreed: bool, noInnovationCount: int)

  /** One review by the `IterationComplete` handler of a species that may breed and has members,
      whose best genome now scores `best`: no improvement on the previous score counts one more
      iteration without innovation, and reaching the threshold stops the species from breeding;
      an improvement resets the count. The best score becomes the previous score either way. */
  function Advance(b: Stagnation, best: real, threshold: int): Stagnation {
    var count := if best <= b.previousScore then b.noInnovationCount + 1 else 0;
    Stagnation(best, b.canBreed && !(best <= b.previousScore && count >= threshold), count)
  }

  /** The bookkeeping after a run of iterations whose best scores are `bests`; once a species
      stops breeding it is no longer reviewed. */
  function History(b: Stagnation, bests: seq<real>, threshold: int): Stagnation {
    if bests == [] then b
    else
      var before := History(b, bests[..|bests| - 1], threshold);
      if before.canBreed then Advance(before, bests[|bests| - 1], threshold) else before
  }

  /** The number of final iterations of the run none of which beat the score before it. */
  function Unimproved(previous: real, bests: seq<real>): nat {
    if bests == [] then 0
    else
      var last := bests[|bests| - 1];
      var before := if |bests| == 1 then previous else bests[|bests| - 2];
      if last <= before then Unimproved(previous, bests[..|bests| - 1]) + 1 else 0
  }

  /** Starting from a new species (which may breed and has a count of 0), a species stops
      breeding exactly when some run of iterations without improvement reached the threshold;
      while it breeds, its count is the length of the current run and its previous score is the
      last best score. */
  lemma {:induction false} StagnationCounts(b: Stagnation, bests: seq<real>, threshold: int)
    requires b.canBreed && b.noInnovationCount == 0 && threshold >= 1
    ensures History(b, bests, threshold).canBreed <==>
      forall n :: 1 <= n <= |bests| ==> Unimproved(b.previousScore, bests[..n]) < threshold
    ensures History(b, bests, threshold).canBreed ==>
      && History(b, bests, threshold).noInnovationCount == Unimproved(b.previousScore, bests)
      && History(b, bests, threshold).previousScore == (if bests == [] then b.previousScore else bests[|bests| - 1])
  {
    if bests != [] {
      var prefix := bests[..|bests| - 1];
      StagnationCounts(b, prefix, threshold);
      assert forall n :: 1 <= n <= |prefix| ==> bests[..n] == prefix[..n];
      assert bests[..|bests|] == bests;
      var before := History(b, prefix, threshold);
      if !before.canBreed {
        var n :| 1 <= n <= |prefix| && Unimproved(b.previousScore, prefix[..n]) >= threshold;
        assert bests[..n] == prefix[..n];
      } else {
        assert Unimproved(b.previousScore, bests) ==
          if bests[|bests| - 1] <= before.previousScore then Unimproved(b.previousScore, prefix) + 1 else 0;
      }
    }
  }

  /** The species among the first `n` of a list whose member counts (`sizes`, in list order)
      are not zero, in list order. */
  function Survivors<G, P>(ss: seq<Species<G, P>>, sizes: seq<int>, n: nat): seq<Species<G, P>>
    requires |sizes| == |ss| && n <= |ss|
  {
    if n == 0 then [] else Survivors(ss, sizes, n - 1) + if sizes[n - 1] > 0 then [ss[n - 1]] else []
  }

  /** What the `IterationComplete` handler did with a species whose bookkeeping was `before`:
      reviewed it, with the best score that became its previous score, if it could breed and had
      members (`breeding`), and left it alone otherwise. */
  predicate Reviewed(after: Stagnation, before: Stagnation, breeding: bool, threshold: int) {
    after == if breeding then Advance(before, after.previousScore, threshold) else before
  }

  /** A survivor of the handler's loop is one of the first `n` species whose member count was
      positive, and every such species survives, in list order. */
  lemma {:induction false} SurvivorsAreTheNonEmpty<G, P>(ss: seq<Species<G, P>>, sizes: seq<int>, n: nat)
    requires |sizes| == |ss| && n <= |ss|
    ensures forall s :: s in Survivors(ss, sizes, n) ==> exists k :: 0 <= k < n && ss[k] == s && sizes[k] > 0
    ensures forall k :: 0 <= k < n && sizes[k] > 0 ==> ss[k] in Survivors(ss, sizes, n)
    ensures |Survivors(ss, sizes, n)| <= n
  {
    if n > 0 {
      SurvivorsAreTheNonEmpty(ss, sizes, n - 1);
    }
  }

  // ================================================================ selection

  /** `SelectBreeders`: the first ceil(count × survival threshold) candidates; `Take` of a count
      that is not positive yields nothing, and of more than there are yields them all. */
  function Breeders<T>(candidates: seq<T>, survivalThreshold: real): (r: seq<T>)
    ensures r <= candidates
    ensures |r| == Clamp(ToInt32(Ceil(|candidates| as real * survivalThreshold)), |candidates|)
  {
    candidates[..Clamp(ToInt32(Ceil(|candidates| as real * survivalThreshold)), |candidates|)]
  }

  /** With a survival threshold in [0, 1] the breeders are the smallest prefix that holds at
      least that share of the candidates. */
  lemma BreedersShare<T>(candidates: seq<T>, survivalThreshold: real)
    requires 0.0 <= survivalThreshold <= 1.0 && |candidates| <= IntMax
    ensures var r := Breeders(candidates, survivalThreshold);
      |candidates| as real * survivalThreshold <= |r| as real < |candidates| as real * survivalThreshold + 1.0
  {
    var x := |candidates| as real * survivalThreshold;
    assert 0.0 <= x <= |candidates| as real by {
      MulWithin(|candidates| as real, survivalThreshold);
    }
    var c := Ceil(x);
    assert 0 <= c <= |candidates|;
  }

  lemma MulWithin(n: real, t: real)
    requires 0.0 <= n && 0.0 <= t <= 1.0
    ensures 0.0 <= n * t <= n
  {
  }

  /** The positions, in list order, of the species with more than `SpeciesChampionThreshold`
      members among the first `n` member counts: the species that yield a champion. */
  function Crowded(sizes: seq<int>, n: nat): (r: seq<nat>)
    requires n <= |sizes|
    ensures |r| <= n
    ensures forall j :: 0 <= j < |r| ==> r[j] < n && sizes[r[j]] > SpeciesChampionThreshold
  {
    if n == 0 then []
    else Crowded(sizes, n - 1) + if sizes[n - 1] > SpeciesChampionThreshold then [n - 1] else []
  }

  /** Every species with more than `SpeciesChampionThreshold` members yields exactly one
      champion: the positions are strictly increasing and miss none of them. */
  lemma {:induction false} CrowdedExactly(sizes: seq<int>, n: nat)
    requires n <= |sizes|
    ensures forall a, b :: 0 <= a < b < |Crowded(sizes, n)| ==> Crowded(sizes, n)[a] < Crowded(sizes, n)[b]
    ensures forall k :: 0 <= k < n && sizes[k] > SpeciesChampionThreshold ==> k in Crowded(sizes, n)
  {
    if n > 0 {
      CrowdedExactly(sizes, n - 1);
    }
  }

  /** The number of additions a selection loop of `amount` turns makes to a selection of
      `count` genomes when it stops as soon as the selection holds `size`: the check is for
      equality, so a selection already past `size` never stops early. */
  function Room(count: int, size: int, amount: nat): nat {
    if count <= size && size - count < amount then size - count else amount
  }

  /** A breeding species' share of the population left after the champions: its average
      fitness over the total, times what is left, rounded up and cast to `int`. A zero total
      makes the quotient infinite or NaN, which the cast turns into `int.MinValue`. */
  function BreedingLimit(average: real, total: real, afterChampions: int): int {
    if total == 0.0 then IntMin else ToInt32(Ceil(average / total * afterChampions as real))
  }

  /** How many parent pairs a share of `limit` genomes yields: `floor(limit × rate)`. */
  function CrossoverAmount(limit: int, crossoverRate: real): int {
    ToInt32((limit as real * crossoverRate).Floor)
  }

  /** How many mutants a share of `limit` genomes yields: `ceil(limit × (1 − rate))`. */
  function MutationAmount(limit: int, crossoverRate: real): int {
    ToInt32(Ceil(limit as real * (1.0 - crossoverRate)))
  }

  /** The pairs and the mutants split a share exactly: floor(x) + ceil(L − x) == L. */
  lemma AmountsSplit(limit: int, crossoverRate: real)
    requires 0 <= limit <= IntMax && 0.0 <= crossoverRate <= 1.0
    ensures 0 <= CrossoverAmount(limit, crossoverRate) && 0 <= MutationAmount(limit, crossoverRate)
    ensures CrossoverAmount(limit, crossoverRate) + MutationAmount(limit, crossoverRate) == limit
  {
    var x, y := limit as real * crossoverRate, limit as real * (1.0 - crossoverRate);
    ShareSplit(limit, crossoverRate, x, y);
    SplitAt(limit, x, y);
  }

  /** A share `L × t` of `L` lies within [0, L] and leaves `L × (1 − t)`. */
  lemma ShareSplit(limit: int, t: real, x: real, y: real)
    requires 0 <= limit && 0.0 <= t <= 1.0
    requires x == limit as real * t && y == limit as real * (1.0 - t)
    ensures 0.0 <= x <= limit as real && y == limit as real - x
  {
    MulWithin(limit as real, t);
    Complement(limit as real, t);
  }

  /** floor(x) + ceil(L − x) == L for 0 <= x <= L, both within 32 bits. */
  lemma SplitAt(limit: int, x: real, y: real)
    requires 0 <= limit <= IntMax && 0.0 <= x <= limit as real && y == limit as real - x
    ensures 0 <= ToInt32(x.Floor) && 0 <= ToInt32(Ceil(y))
    ensures ToInt32(x.Floor) + ToInt32(Ceil(y)) == limit
  {
    var f := x.Floor;
    FloorWithin(x, limit);
    CeilJustBelow(limit - f, x - f as real);
  }

  lemma FloorWithin(x: real, n: int)
    requires 0.0 <= x <= n as real
    ensures 0 <= x.Floor <= n
  {
  }

  lemma Complement(l: real, t: real)
    ensures l * (1.0 - t) == l - l * t
  {
  }

  lemma CeilJustBelow(m: int, d: real)
    requires 0.0 <= d < 1.0
    ensures Ceil(m as real - d) == m
  {
  }

  /** A species whose average fitness is part of a positive total gets at most what is left
      after the champions, and nothing negative. */
  lemma BreedingLimitWithin(average: real, total: real, afterChampions: int)
    requires 0.0 <= average <= total && 0.0 < total && 0 <= afterChampions <= IntMax
    ensures 0 <= BreedingLimit(average, total, afterChampions) <= afterChampions
  {
    var share := average / total;
    assert 0.0 <= share <= 1.0;
    MulWithin(afterChampions as real, share);
    assert share * afterChampions as real == afterChampions as real * share;
  }

  /** The genes of each of `gs`, in order. */
  ghost function GenesAt<G, P>(gs: seq<Genome<G, P>>): (r: seq<G>)
    reads set g | g in gs
    ensures |r| == |gs| && forall j :: 0 <= j < |gs| ==> r[j] == gs[j].genes
  {
    seq(|gs|, j requires 0 <= j < |gs| reads set g | g in gs => gs[j].genes)
  }

  /** The genes `now` of the champions and the mutated copies, from the genes `copied` at
      selection: the first `retained` unchanged, the j-th copy after them mutated by
      `mutation(j)`. */
  ghost predicate Mutated<G>(now: seq<G>, copied: seq<G>, retained: nat, mutation: nat -> G -> G) {
    && |now| == |copied| && retained <= |now|
    && (forall j :: 0 <= j < retained ==> now[j] == copied[j])
    && (forall j :: retained <= j < |now| ==> now[j] == mutation(j - retained)(copied[j]))
  }

  /** A selection grown from `sel` by `crossoverAmount` parent pairs, then `mutationAmount`
      mutants, each loop stopping when the selection holds `size` genomes. */
  predicate Counted<G, P(==)>(sel: Selection<G, P>, sel': Selection<G, P>, size: int, crossoverAmount: int, mutationAmount: int) {
    && 0 <= crossoverAmount && 0 <= mutationAmount
    && |sel'.parentPairs| == |sel.parentPairs| + Room(sel.Count(), size, crossoverAmount)
    && |sel'.toMutate| == |sel.toMutate| + Room(sel.Count() + Room(sel.Count(), size, crossoverAmount), size, mutationAmount)
  }

  /** The same for the share of `breedingLimit` genomes of a species. */
  predicate Allotted<G, P(==)>(sel: Selection<G, P>, sel': Selection<G, P>, size: int, breedingLimit: int, crossoverRate: real) {
    Counted(sel, sel', size, CrossoverAmount(breedingLimit, crossoverRate), MutationAmount(breedingLimit, crossoverRate))
  }

  /** The result of a generational selection: the champions to keep, the copies to mutate and
      the parent pairs to breed from (either parent may be the null a `RandomSingle` of an
      empty list returns). */
  datatype Selection<G, P(==)> = Selection(toRetain: seq<Genome<G, P>>, toMutate: seq<Genome<G, P>>,
                                           parentPairs: seq<(Option<Genome<G, P>>, Option<Genome<G, P>>)>)
  {
    /** `Count`. */
    function Count(): nat {
      |toMutate| + |toRetain| + |parentPairs|
    }
  }

  // ================================================================ GA

  /** The speciated generational GA. `population` is the source's list, which is null until
      `Initialise` (`initialised`); `best`/`average` are the caches behind `Best` and
      `AverageScore`. */
  class GA<G, P(==)> {
    const populationSize: int
    const express: G -> P
    const scoreFunction: P -> real
    const distance: (G, G) -> Result<real>
    const interSpeciesMatingRate: real
    const compatibilityThreshold: real
    const noInnovationThreshold: int
    const survivalThreshold: real
    const crossoverRate: real

    var initialised: bool
    var population: seq<Genome<G, P>>
    var numberOfGenerations: int
    var best: Option<Genome<G, P>>
    var bestStale: bool
    var average: real
    var averageStale: bool
    var species: seq<Species<G, P>>

    /** Both caches dropped; nothing else changed. */
    twostate predicate Invalidated()
      reads this
    {
      bestStale && averageStale && Kept()
    }

    /** Population, species list and generation count unchanged. */
    twostate predicate Kept()
      reads this
    {
      && initialised == old(initialised) && population == old(population)
      && species == old(species) && numberOfGenerations == old(numberOfGenerations)
    }

    /** The constructors of `BaseGA` and `BaseSpeciatedGA`: no population yet, no species. */
    constructor (populationSize: int, express: G -> P, scoreFunction: P -> real,
                 distance: (G, G) -> Result<real>, interSpeciesMatingRate: real,
                 compatibilityThreshold: real, noInnovationThreshold: int,
                 survivalThreshold: real, crossoverRate: real)
      ensures this.populationSize == populationSize && this.express == express
      ensures this.scoreFunction == scoreFunction && this.distance == distance
      ensures this.interSpeciesMatingRate == interSpeciesMatingRate
      ensures this.compatibilityThreshold == compatibilityThreshold
      ensures this.noInnovationThreshold == noInnovationThreshold
      ensures this.survivalThreshold == survivalThreshold && this.crossoverRate == crossoverRate
      ensures !initialised && population == [] && species == [] && numberOfGenerations == 0
      ensures best == None && !bestStale && !averageStale
    {
      this.populationSize := populationSize;
      this.express := express;
      this.scoreFunction := scoreFunction;
      this.distance := distance;
      this.interSpeciesMatingRate := interSpeciesMatingRate;
      this.compatibilityThreshold := compatibilityThreshold;
      this.noInnovationThreshold := noInnovationThreshold;
      this.survivalThreshold := survivalThreshold;
      this.crossoverRate := crossoverRate;
      initialised := false;
      population := [];
      species := [];
      numberOfGenerations := 0;
      best := None;
      bestStale := false;
      average := 0.0;
      averageStale := false;
    }

    /** `Update`: both caches are invalidated. */
    method Update()
      modifies this
      ensures Invalidated() && best == old(best) && average == old(average)
    {
      bestStale := true;
      averageStale := true;
    }

    /** The species of the list. */
    function SpeciesSet(): set<Species<G, P>>
      reads this
    {
      set s | s in species
    }

    /** The members of the species of the list. */
    function MemberSet(): set<Genome<G, P>>
      reads this, SpeciesSet()`members
    {
      set s, g | s in species && g in s.members :: g
    }

    /** The species list holds each species once, every species belongs to this GA, and every
        member points back at its species and at this GA: `GenomeAdded` is the only way into a
        species, and it sets the genome's species. */
    predicate Valid()
      reads this, SpeciesSet()`members, MemberSet()`species, MemberSet()`parent
    {
      && (!initialised ==> population == [])
      && (forall i, j :: 0 <= i < j < |species| ==> species[i] != species[j])
      && (forall s :: s in species ==> s.ga == this)
      && (forall s, g :: s in species && g in s.members ==> g.species == s && g.parent == this)
    }

    /** `Initialise`: a new population list, then `populationSize` genomes, each created with
        the genes `created(i)`, initialised and added; the generation count restarts at 0. The
        species list is kept as it is. A negative size makes the list constructor throw. */
    method Initialise(created: nat -> G) returns (r: Result<()>)
      requires Valid()
      modifies this, SpeciesSet()
      ensures populationSize < 0 ==> r == Failure("ArgumentOutOfRangeException") && unchanged(this)
      ensures populationSize >= 0 ==> Valid() && initialised && |population| <= populationSize
      ensures r.Success? ==> |population| == populationSize && numberOfGenerations == 0
      ensures r.Success? ==> forall k :: 0 <= k < |population| ==> Created(population[k], created(k))
    {
      if populationSize < 0 {
        return Failure("ArgumentOutOfRangeException");
      }
      population := [];
      initialised := true;
      var i := 0;
      while i < populationSize
        invariant 0 <= i <= populationSize && |population| == i && initialised && Valid()
        invariant forall k :: 0 <= k < i ==> Created(population[k], created(k))
        invariant forall t :: t in species ==> t in old(species) || fresh(t)
      {
        var added := Create(created(i));
        if added.Failure? {
          return Failure(added.error);
        }
        i := i + 1;
      }
      numberOfGenerations := 0;
      r := Success(());
    }

    /** One turn of the loop of `Initialise`: `CreateGenome`, the genome's own `Initialise`
        with the given genes, and `AddGenome`. */
    method Create(genes: G) returns (r: Result<()>)
      requires Valid() && initialised
      modifies this, SpeciesSet()
      ensures Valid() && initialised && numberOfGenerations == old(numberOfGenerations)
      ensures |population| == |old(population)| + 1 && population[..|old(population)|] == old(population)
      ensures Created(population[|old(population)|], genes)
      ensures forall t :: t in species ==> t in old(species) || fresh(t)
    {
      var g := new Genome(this, genes);
      var _ := g.Initialise(genes);
      r := AddGenome(g);
      assert population[..|old(population)|] == old(population);
    }

    /** A genome `Initialise` made: new, of this GA, with the given genes, scored. */
    twostate predicate Created(new g: Genome<G, P>, new genes: G)
      reads this, g
    {
      fresh(g) && g.genes == genes && g.parent == this && Scored(g)
    }

    /** The `SelectionComplete` handler: every species is emptied and the list keeps them all. */
    method ClearSpecies()
      requires Valid()
      modifies SpeciesSet()
      ensures Valid() && (forall s :: s in species ==> s.Cleared()) && MemberSet() == {}
    {
      for i := 0 to |species|
        invariant forall k :: 0 <= k < i ==> species[k].Cleared()
        invariant forall k :: i <= k < |species| ==> unchanged(species[k])
      {
        species[i].Clear();
      }
      assert forall s, g :: s in species && g in s.members ==> false;
    }

    /** The member counts of the species, in list order. */
    function Sizes(): (r: seq<int>)
      reads this, SpeciesSet()
      ensures |r| == |species| && forall k :: 0 <= k < |species| ==> r[k] == |species[k].members|
    {
      seq(|species|, k requires 0 <= k < |species| reads this, SpeciesSet() => |species[k].members|)
    }

    /** The `IterationComplete` handler, over a copy of the species list: a species that may
        breed and has members is reviewed with the score of its best genome (the first of its
        sorted members), a species with no members leaves the list, and any other species is
        left alone. Member counts do not change on the way, so the list ends up filtered by the
        counts it started with. */
    method IterationComplete() returns (r: Result<()>)
      requires Valid()
      modifies this, SpeciesSet(), set g | g in population
      ensures Valid() && population == old(population) && initialised == old(initialised)
      ensures numberOfGenerations == old(numberOfGenerations)
      ensures forall g :: g in population ==> g.Rescored()
      ensures r.Success? ==> species == Survivors(old(species), old(Sizes()), |old(species)|)
      ensures r.Success? ==> forall k :: 0 <= k < |old(species)| ==>
        Reviewed(old(species)[k].Bookkeeping(), old(Bookkeepings())[k], old(Breedings())[k], noInnovationThreshold)
    {
      var snapshot := species;
      ghost var sizes := Sizes();
      ghost var befores := Bookkeepings();
      ghost var breedings := Breedings();
      assert Visiting(snapshot, sizes, befores, breedings, [], 0);
      ghost var kept;
      r, kept := VisitAll(snapshot, sizes, befores, breedings);
    }

    /** The handler's loop over the list copy `snapshot`. */
    method VisitAll(snapshot: seq<Species<G, P>>, ghost sizes: seq<int>, ghost befores: seq<Stagnation>,
                    ghost breedings: seq<bool>)
      returns (r: Result<()>, ghost kept: seq<Species<G, P>>)
      requires Valid() && Visiting(snapshot, sizes, befores, breedings, [], 0)
      modifies this, set s | s in snapshot, set g | g in population
      ensures Valid() && population == old(population) && initialised == old(initialised)
      ensures numberOfGenerations == old(numberOfGenerations)
      ensures forall g :: g in population ==> g.Rescored()
      ensures r.Success? ==> Visiting(snapshot, sizes, befores, breedings, kept, |snapshot|) == true
    {
      kept := [];
      var i := 0;
      while i < |snapshot|
        invariant 0 <= i <= |snapshot| && Valid() == true
        invariant population == old(population) && initialised == old(initialised)
        invariant numberOfGenerations == old(numberOfGenerations)
        invariant forall g :: g in population ==> g.Rescored()
        invariant Visiting(snapshot, sizes, befores, breedings, kept, i) == true
      {
        var outcome: Result<()>;
        outcome, kept := Step(snapshot, sizes, befores, breedings, kept, i);
        if outcome.Failure? {
          r := Failure(outcome.error);
          return;
        }
        i := i + 1;
      }
      r := Success(());
    }

    /** The stagnation bookkeeping of every species, in list order. */
    function Bookkeepings(): (r: seq<Stagnation>)
      reads this, SpeciesSet()
      ensures |r| == |species| && forall k :: 0 <= k < |species| ==> r[k] == species[k].Bookkeeping()
    {
      seq(|species|, k requires 0 <= k < |species| reads this, SpeciesSet() => species[k].Bookkeeping())
    }

    /** Whether each species, in list order, may breed and has members. */
    function Breedings(): (r: seq<bool>)
      reads this, SpeciesSet()
      ensures |r| == |species|
      ensures forall k :: 0 <= k < |species| ==> r[k] == (species[k].canBreed && |species[k].members| > 0)
    {
      seq(|species|, k requires 0 <= k < |species| reads this, SpeciesSet() =>
        species[k].canBreed && |species[k].members| > 0)
    }

    /** Where the handler's loop stands after `i` species of the list copy `snapshot`: the list
        now holds `kept`, the survivors among them, followed by the species still to visit;
        member counts (`sizes`) are as they were, the visited species are reviewed against their
        former bookkeeping (`befores`) and the others keep it. */
    ghost predicate Visiting(snapshot: seq<Species<G, P>>, sizes: seq<int>, befores: seq<Stagnation>,
                             breedings: seq<bool>, kept: seq<Species<G, P>>, i: nat)
      reads this, set s | s in snapshot
    {
      && i <= |snapshot| == |sizes| == |befores| == |breedings| && species == kept + snapshot[i..]
      && kept == Survivors(snapshot, sizes, i)
      && (forall a, b :: 0 <= a < b < |snapshot| ==> snapshot[a] != snapshot[b])
      && (forall k :: 0 <= k < |snapshot| ==> |snapshot[k].members| == sizes[k])
      && (forall k :: 0 <= k < |snapshot| ==> breedings[k] == (befores[k].canBreed && sizes[k] > 0))
      && (forall k :: 0 <= k < i ==> Reviewed(snapshot[k].Bookkeeping(), befores[k],
            breedings[k], noInnovationThreshold))
      && (forall k :: i <= k < |snapshot| ==> snapshot[k].Bookkeeping() == befores[k])
    }

    /** One turn of the handler's loop, on the species at position `i` of the list copy. */
    method Step(snapshot: seq<Species<G, P>>, ghost sizes: seq<int>, ghost befores: seq<Stagnation>,
                ghost breedings: seq<bool>, ghost kept: seq<Species<G, P>>, i: nat)
      returns (r: Result<()>, ghost kept': seq<Species<G, P>>)
      requires Valid() && i < |snapshot| && Visiting(snapshot, sizes, befores, breedings, kept, i)
      modifies this, snapshot[i], set g | g in population
      ensures Valid() && population == old(population) && initialised == old(initialised)
      ensures numberOfGenerations == old(numberOfGenerations)
      ensures forall g :: g in population ==> g.Rescored()
      ensures r.Success? ==> Visiting(snapshot, sizes, befores, breedings, kept', i + 1)
    {
      assert species[..|kept|] == kept && species[|kept|] == snapshot[i];
      assert species[|kept| + 1..] == snapshot[i + 1..];
      r := Visit(snapshot[i], |kept|, snapshot);
      kept' := kept + if sizes[i] > 0 then [snapshot[i]] else [];
    }

    /** One turn of the handler's loop, on the species at position `at` of the list: a review if
        it may breed and has members, its removal if it has none. */
    method Visit(s: Species<G, P>, ghost at: nat, ghost others: seq<Species<G, P>>) returns (r: Result<()>)
      requires Valid() && at < |species| && species[at] == s
      modifies this, s, set g | g in population
      ensures Valid() && population == old(population) && initialised == old(initialised)
      ensures numberOfGenerations == old(numberOfGenerations) && |s.members| == old(|s.members|)
      ensures forall g :: g in population ==> g.Rescored()
      ensures forall k :: 0 <= k < |others| && others[k] != s ==> unchanged(others[k])
      ensures r.Success? ==>
        Reviewed(s.Bookkeeping(), old(s.Bookkeeping()), old(s.canBreed && |s.members| > 0), noInnovationThreshold)
      ensures r.Success? ==>
        species == old(species[..at]) + (if |s.members| > 0 then [s] else []) + old(species[at + 1..])
    {
      if s.canBreed && |s.members| > 0 {
        r := Review(s);
        assert species == species[..at] + [s] + species[at + 1..];
      } else {
        if |s.members| == 0 {
          Discard(s, at);
        } else {
          assert species == species[..at] + [s] + species[at + 1..];
        }
        r := Success(());
      }
    }

    /** `species.Remove` of a species with no members, which stands at position `at`. */
    method Discard(s: Species<G, P>, ghost at: nat)
      requires Valid() && at < |species| && species[at] == s && |s.members| == 0
      modifies this`species
      ensures Valid() && species == old(species[..at]) + old(species[at + 1..])
    {
      DroppedDistinct(species, at);
      species := RemoveFirst(species, s);
    }

    /** One review: the best genome's score advances the species' bookkeeping. A best genome that
        throws, or whose score throws, aborts the handler. */
    method Review(s: Species<G, P>) returns (r: Result<()>)
      requires Valid() && s in species && s.canBreed && |s.members| > 0
      modifies this, s, set g | g in population
      ensures Valid() && species == old(species) && population == old(population)
      ensures initialised == old(initialised) && numberOfGenerations == old(numberOfGenerations)
      ensures forall g :: g in population ==> g.Rescored()
      ensures multiset(s.members) == multiset(old(s.members)) && |s.members| == old(|s.members|)
      ensures r.Success? ==> s.Bookkeeping() == Advance(old(s.Bookkeeping()), s.members[0].score, noInnovationThreshold)
      ensures r.Success? && old(s.listStale) ==> forall g :: g in s.members ==> g.score <= s.previousScore
      ensures r.Failure? ==> s.Bookkeeping() == old(s.Bookkeeping())
    {
      var best := BestOf(s, []);
      if best.Failure? {
        return Failure(best.error);
      }
      var score := best.value.Score();
      if score.Failure? {
        return Failure(score.error);
      }
      if score.value <= s.previousScore {
        s.noInnovationCount := s.noInnovationCount + 1;
        if s.noInnovationCount >= noInnovationThreshold {
          s.canBreed := false;
        }
      } else {
        s.noInnovationCount := 0;
      }
      s.previousScore := score.value;
      r := Success(());
    }

    /** `Best` of a species of the list, seen from the GA: only the order of the species' members,
        its list cache, and the genomes of the population (rescored) change. */
    method BestOf(s: Species<G, P>, ghost others: seq<Species<G, P>>) returns (r: Result<Genome<G, P>>)
      requires Valid() && s in species
      modifies this, s, set g | g in population
      ensures Valid() && species == old(species) && population == old(population)
      ensures initialised == old(initialised) && numberOfGenerations == old(numberOfGenerations)
      ensures forall k :: 0 <= k < |others| && others[k] != s ==> unchanged(others[k])
      ensures forall g :: g in population ==> g.Rescored()
      ensures s.Reordered() && |s.members| == old(|s.members|)
      ensures r.Success? ==> |s.members| > 0 && r.value == s.members[0]
      ensures r.Success? && (old(s.listStale) || old(s.Ranked())) ==>
        forall g :: g in s.members ==> g.score <= r.value.score
      ensures |s.members| > 0 && !old(s.listStale) ==> r.Success?
    {
      r := s.Best();
      assert |multiset(s.members)| == |multiset(old(s.members))|;
      forall t, g | t in species && g in t.members
        ensures g in old(t.members) && g.species == old(g.species) && g.parent == old(g.parent)
      {
        assert g in multiset(t.members);
      }
    }

    /** `AverageFitness` of a species of the list, seen from the GA: only the species' average
        cache and the genomes of the population (rescored) change. */
    method AverageOf(s: Species<G, P>, ghost others: seq<Species<G, P>>) returns (r: Result<real>)
      requires Valid() && s in species
      modifies this, s, set g | g in population
      ensures Valid() && species == old(species) && population == old(population)
      ensures initialised == old(initialised) && numberOfGenerations == old(numberOfGenerations)
      ensures s.Kept() && s.listStale == old(s.listStale)
      ensures forall k :: 0 <= k < |others| && others[k] != s ==> unchanged(others[k])
      ensures forall g :: g in population ==> g.Rescored()
      ensures old(s.averageStale) && initialised ==> r == AverageAdjusted(s.members)
      ensures !old(s.averageStale) ==> r == Success(old(s.averageFitness))
      ensures r.Success? ==> !s.averageStale && s.averageFitness == r.value
    {
      r := s.AverageFitness();
    }

    /** Some species may breed and has a fresh, positive average fitness. */
    predicate Thriving()
      reads this, SpeciesSet()
    {
      exists k :: 0 <= k < |species| && species[k].canBreed && !species[k].averageStale && species[k].averageFitness > 0.0
    }

    /** `Failed`: no species may breed with a positive average fitness. `Any` stops at the first
        species that may, and the average is only read for species that may breed. */
    method Failed() returns (r: Result<bool>)
      requires Valid()
      modifies this, SpeciesSet(), set g | g in population
      ensures Valid() && Kept() && Sizes() == old(Sizes())
      ensures r.Success? && !r.value ==> Thriving()
      ensures r.Success? && r.value ==> forall k :: 0 <= k < |species| && species[k].canBreed ==>
        !species[k].averageStale && species[k].averageFitness <= 0.0
    {
      var i := 0;
      while i < |species|
        invariant 0 <= i <= |species| && Valid() && Kept()
        invariant forall k :: 0 <= k < |species| ==> |species[k].members| == old(|species[k].members|)
        invariant forall k :: 0 <= k < i && species[k].canBreed ==>
          !species[k].averageStale && species[k].averageFitness <= 0.0
      {
        if species[i].canBreed {
          var a := AverageAt(i);
          if a.Failure? {
            return Failure(a.error);
          }
          if a.value > 0.0 {
            return Success(false);
          }
        }
        i := i + 1;
      }
      r := Success(true);
    }

    /** The average fitness of the `i`-th species, read through its cache; no other species and
        no member count changes. */
    method AverageAt(i: nat) returns (r: Result<real>)
      requires Valid() && i < |species|
      modifies this, species[i], set g | g in population
      ensures Valid() && Kept()
      ensures forall k :: 0 <= k < |species| ==> |species[k].members| == old(|species[k].members|)
      ensures forall k :: 0 <= k < |species| && species[k] != species[i] ==> unchanged(species[k])
      ensures species[i].canBreed == old(species[i].canBreed)
      ensures r.Success? ==> !species[i].averageStale && species[i].averageFitness == r.value
    {
      r := AverageOf(species[i], species);
    }

    /** `Members` of a species of the list, seen from the GA: only the order of the species'
        members, its list cache, and the genomes of the population (rescored) change. */
    method MembersOf(s: Species<G, P>, ghost others: seq<Species<G, P>>) returns (r: Result<seq<Genome<G, P>>>)
      requires Valid() && s in species
      modifies this, s, set g | g in population
      ensures Valid() && species == old(species) && population == old(population)
      ensures initialised == old(initialised) && numberOfGenerations == old(numberOfGenerations)
      ensures s.Reordered() && |s.members| == old(|s.members|)
      ensures forall k :: 0 <= k < |others| && others[k] != s ==> unchanged(others[k])
      ensures forall g :: g in population ==> g.Rescored()
      ensures r.Success? ==> r.value == s.members
      ensures r.Success? && old(s.listStale) ==> s.Ranked()
      ensures !old(s.listStale) ==> r == Success(old(s.members))
    {
      r := s.Members();
      assert |multiset(s.members)| == |multiset(old(s.members))|;
      forall t, g | t in species && g in t.members
        ensures g in old(t.members) && g.species == old(g.species) && g.parent == old(g.parent)
      {
        assert g in multiset(t.members);
      }
    }

    /** `Copy` of a member of a species of the list: a new genome of this GA with the same genes
        and species, stale; the species and the GA drop their caches. */
    method CopyOf(s: Species<G, P>, g: Genome<G, P>, ghost others: seq<Species<G, P>>) returns (c: Genome<G, P>)
      requires Valid() && s in species && g in s.members
      modifies this, s
      ensures Valid() && Kept() && s.Invalidated()
      ensures forall k :: 0 <= k < |others| && others[k] != s ==> unchanged(others[k])
      ensures fresh(c) && c.genes == g.genes && c.parent == this && c.species == s && c.phenomeExpired
    {
      var r := g.Copy();
      c := r.value;
    }

    /** The first loop of `PerformGenerationalSelection`: a copy of the best genome of every
        species with more than `SpeciesChampionThreshold` members, in list order, and the sum of
        the average fitnesses of the species that may breed. */
    method Champions() returns (r: Result<(seq<Genome<G, P>>, real)>, ghost fitness: seq<real>)
      requires Valid()
      modifies this, SpeciesSet(), set g | g in population
      ensures Valid() && Kept()
      ensures r.Success? ==> Championing(old(Sizes()), r.value.0, r.value.1, fitness, |species|) == true
      ensures r.Success? ==> forall j :: 0 <= j < |r.value.0| ==> fresh(r.value.0[j])
    {
      ghost var sizes := Sizes();
      var retained := [];
      var total := 0.0;
      fitness := [];
      var i := 0;
      while i < |species|
        invariant 0 <= i <= |species| && Valid() && Kept()
        invariant Championing(sizes, retained, total, fitness, i) == true
        invariant forall j :: 0 <= j < |retained| ==> fresh(retained[j])
      {
        var outcome: Result<()>;
        outcome, retained, total, fitness := ChampionStep(sizes, retained, total, fitness, i);
        if outcome.Failure? {
          r := Failure(outcome.error);
          return;
        }
        i := i + 1;
      }
      r := Success((retained, total));
    }

    /** Where the first selection loop stands after `i` species: `retained` holds one copy for
        each species with more than `SpeciesChampionThreshold` members (`sizes`, which do not
        change), and `total` sums `fitness`, the fresh average fitness of each species visited
        that may breed, 0 for the others. */
    ghost predicate Championing(sizes: seq<int>, retained: seq<Genome<G, P>>, total: real, fitness: seq<real>, i: nat)
      reads this, SpeciesSet(), set g | g in retained
    {
      ChampionCount(sizes, retained, i) && ChampionSources(sizes, retained, i) && Detached(retained)
      && Tallying(total, fitness, i)
    }

    /** The member counts are `sizes` and there is one retained genome per crowded species. */
    ghost predicate ChampionCount(sizes: seq<int>, retained: seq<Genome<G, P>>, i: nat)
      reads this, SpeciesSet()
    {
      && i <= |species| == |sizes|
      && (forall k :: 0 <= k < |species| ==> |species[k].members| == sizes[k])
      && |retained| == |Crowded(sizes, i)|
    }

    /** Each retained genome shares the species it is the champion of. */
    ghost predicate ChampionSources(sizes: seq<int>, retained: seq<Genome<G, P>>, i: nat)
      reads this, set g | g in retained
    {
      && i <= |sizes| && |retained| == |Crowded(sizes, i)| && |sizes| == |species|
      && (forall j :: 0 <= j < |retained| ==> retained[j].species == species[Crowded(sizes, i)[j]])
    }

    /** Genomes of this GA, stale, outside the population and pairwise distinct: what copies
        are while a selection is made. */
    ghost predicate Detached(gs: seq<Genome<G, P>>)
      reads this, set g | g in gs
    {
      && (forall j :: 0 <= j < |gs| ==> gs[j].parent == this && gs[j].phenomeExpired)
      && (forall j :: 0 <= j < |gs| ==> gs[j] !in population)
      && (forall a, b :: 0 <= a < b < |gs| ==> gs[a] != gs[b])
    }

    /** Each of `copies` carries the genes of the genome of `breeders` at the same place of
        `sources`. */
    ghost predicate CopiedFrom(copies: seq<Genome<G, P>>, sources: seq<Genome<G, P>>, breeders: seq<Genome<G, P>>)
      reads set c | c in copies, set b | b in sources
    {
      && |copies| == |sources|
      && forall k :: 0 <= k < |copies| ==> sources[k] in breeders && copies[k].genes == sources[k].genes
    }

    lemma CopiedGrows(copies: seq<Genome<G, P>>, sources: seq<Genome<G, P>>, breeders: seq<Genome<G, P>>,
                      c: Genome<G, P>, b: Genome<G, P>)
      requires CopiedFrom(copies, sources, breeders) && b in breeders && c.genes == b.genes
      ensures CopiedFrom(copies + [c], sources + [b], breeders)
    {
    }

    /** A new stale copy of this GA, outside the population, keeps a detached list detached. */
    lemma DetachedGrows(gs: seq<Genome<G, P>>, c: Genome<G, P>)
      requires Detached(gs) && c.parent == this && c.phenomeExpired && c !in population && c !in gs
      ensures Detached(gs + [c])
    {
    }

    /** The two parts of a detached list are detached, and no genome is in both. */
    lemma DetachedParts(a: seq<Genome<G, P>>, b: seq<Genome<G, P>>)
      requires Detached(a + b)
      ensures Detached(a) && Detached(b)
      ensures forall i, j :: 0 <= i < |a| && 0 <= j < |b| ==> a[i] != b[j]
    {
      assert forall i :: 0 <= i < |a| ==> (a + b)[i] == a[i];
      assert forall j :: 0 <= j < |b| ==> (a + b)[|a| + j] == b[j];
    }

    /** The average fitnesses of the first `i` species: fresh where the species may breed. */
    ghost predicate Tallying(total: real, fitness: seq<real>, i: nat)
      reads this, SpeciesSet()
    {
      && i <= |species| && |fitness| == i && total == Sum(fitness)
      && (forall k :: 0 <= k < i ==> fitness[k] == if species[k].canBreed then species[k].averageFitness else 0.0)
      && (forall k :: 0 <= k < i && species[k].canBreed ==> !species[k].averageStale)
    }

    /** One turn of the first selection loop, on the species at position `i`. */
    method ChampionStep(ghost sizes: seq<int>, retained: seq<Genome<G, P>>, total: real, ghost fitness: seq<real>, i: nat)
      returns (r: Result<()>, retained': seq<Genome<G, P>>, total': real, ghost fitness': seq<real>)
      requires Valid() && i < |species| && Championing(sizes, retained, total, fitness, i)
      modifies this, species[i], set g | g in population
      ensures Valid() && Kept()
      ensures r.Success? ==> Championing(sizes, retained', total', fitness', i + 1)
      ensures retained <= retained' && forall j :: |retained| <= j < |retained'| ==> fresh(retained'[j])
    {
      total', fitness' := total, fitness;
      r, retained' := RetainStep(sizes, retained, total, fitness, i);
      if r.Success? {
        r, total', fitness' := TallyStep(sizes, retained', total, fitness, i);
      }
    }

    /** The champion half of a turn of the first selection loop. */
    method RetainStep(ghost sizes: seq<int>, retained: seq<Genome<G, P>>, ghost total: real, ghost fitness: seq<real>, i: nat)
      returns (r: Result<()>, retained': seq<Genome<G, P>>)
      requires Valid() && i < |species| && Championing(sizes, retained, total, fitness, i)
      modifies this, species[i], set g | g in population
      ensures Valid() && Kept() && species[i].canBreed == old(species[i].canBreed)
      ensures retained <= retained' && forall j :: |retained| <= j < |retained'| ==> fresh(retained'[j])
      ensures r.Success? ==> ChampionCount(sizes, retained', i + 1) && ChampionSources(sizes, retained', i + 1)
      ensures r.Success? ==> Detached(retained') && Tallying(total, fitness, i)
    {
      retained' := retained;
      var champion := Champion(species[i], species);
      if champion.Failure? {
        r := Failure(champion.error);
        return;
      }
      retained' := retained + if champion.value.Some? then [champion.value.value] else [];
      r := Success(());
    }

    /** The average-fitness half of a turn of the first selection loop. */
    method TallyStep(ghost sizes: seq<int>, retained: seq<Genome<G, P>>, total: real, ghost fitness: seq<real>, i: nat)
      returns (r: Result<()>, total': real, ghost fitness': seq<real>)
      requires Valid() && i < |species| && Tallying(total, fitness, i)
      requires ChampionCount(sizes, retained, i + 1) && ChampionSources(sizes, retained, i + 1) && Detached(retained)
      modifies this, species[i], set g | g in population
      ensures Valid() && Kept()
      ensures r.Success? ==> Championing(sizes, retained, total', fitness', i + 1)
    {
      total', fitness' := total, fitness;
      if species[i].canBreed {
        var average := AverageBeside(sizes, retained, i);
        if average.Failure? {
          r := Failure(average.error);
          return;
        }
        total' := total + average.value;
        fitness' := fitness + [average.value];
      } else {
        fitness' := fitness + [0.0];
      }
      assert fitness'[..i] == fitness;
      r := Success(());
    }

    /** `AverageAt` while a selection is made: the genomes retained so far keep their species. */
    method AverageBeside(ghost sizes: seq<int>, ghost retained: seq<Genome<G, P>>, i: nat) returns (r: Result<real>)
      requires Valid() && i < |species|
      requires ChampionCount(sizes, retained, i + 1) && ChampionSources(sizes, retained, i + 1) && Detached(retained)
      modifies this, species[i], set g | g in population
      ensures Valid() && Kept()
      ensures ChampionCount(sizes, retained, i + 1) && ChampionSources(sizes, retained, i + 1) && Detached(retained)
      ensures forall k :: 0 <= k < |species| && species[k] != species[i] ==> unchanged(species[k])
      ensures species[i].canBreed == old(species[i].canBreed)
      ensures r.Success? ==> !species[i].averageStale && species[i].averageFitness == r.value
    {
      r := AverageAt(i);
    }

    /** The champion of a species of the list: a copy of its best genome when it has more than
        `SpeciesChampionThreshold` members, nothing otherwise. */
    method Champion(s: Species<G, P>, ghost others: seq<Species<G, P>>) returns (r: Result<Option<Genome<G, P>>>)
      requires Valid() && s in species
      modifies this, s, set g | g in population
      ensures Valid() && Kept() && |s.members| == old(|s.members|) && s.canBreed == old(s.canBreed)
      ensures forall k :: 0 <= k < |others| && others[k] != s ==> unchanged(others[k])
      ensures r.Success? ==> (r.value.Some? <==> |s.members| > SpeciesChampionThreshold)
      ensures r.Success? && r.value.Some? ==> var c := r.value.value;
        fresh(c) && c.parent == this && c.species == s && c.phenomeExpired
    {
      if |s.members| > SpeciesChampionThreshold {
        var best := BestOf(s, others);
        if best.Failure? {
          return Failure(best.error);
        }
        var c := CopyOf(s, best.value, others);
        r := Success(Some(c));
      } else {
        r := Success(None);
      }
    }

    /** The crossover loop for one species: up to `amount` parent pairs, stopping as soon as the
        selection holds `size` genomes. Each pair draws a parent among the breeders, then a
        number that says where the partner comes from: the whole population when it is at most
        the inter-species mating rate, the breeders otherwise. An empty list yields null. */
    method PairUp(breeders: seq<Genome<G, P>>, sel: Selection<G, P>, size: int, amount: nat, draws: nat -> real, n: nat)
      returns (sel': Selection<G, P>, n': nat)
      requires forall k :: IsDraw(draws(k))
      ensures sel'.toRetain == sel.toRetain && sel'.toMutate == sel.toMutate && sel.parentPairs <= sel'.parentPairs
      ensures sel'.Count() == sel.Count() + Room(sel.Count(), size, amount)
      ensures sel.Count() <= size ==> sel'.Count() <= size
      ensures forall k :: |sel.parentPairs| <= k < |sel'.parentPairs| ==> Paired(sel'.parentPairs[k], breeders)
    {
      sel', n' := sel, n;
      var i := 0;
      while i < amount
        invariant 0 <= i <= amount && |sel'.parentPairs| == |sel.parentPairs| + i
        invariant sel'.toRetain == sel.toRetain && sel'.toMutate == sel.toMutate && sel.parentPairs <= sel'.parentPairs
        invariant sel.Count() <= size ==> sel.Count() + i <= size
        invariant forall k :: |sel.parentPairs| <= k < |sel'.parentPairs| ==> Paired(sel'.parentPairs[k], breeders)
      {
        if sel'.Count() == size {
          break;
        }
        var parent := RandomSingle(breeders, draws(n'));
        var partner := if draws(n' + 1) <= interSpeciesMatingRate then RandomSingle(population, draws(n' + 2))
                       else RandomSingle(breeders, draws(n' + 2));
        sel' := sel'.(parentPairs := sel'.parentPairs + [(parent, partner)]);
        n' := n' + 3;
        i := i + 1;
      }
    }

    /** A parent pair drawn for a species with these breeders: the parent is one of them (null
        exactly when there are none), the partner one of them or of the population. */
    predicate Paired(pair: (Option<Genome<G, P>>, Option<Genome<G, P>>), breeders: seq<Genome<G, P>>)
      reads this
    {
      && (pair.0.None? <==> breeders == [])
      && (pair.0.Some? ==> pair.0.value in breeders)
      && (pair.1.Some? ==> pair.1.value in breeders || pair.1.value in population)
    }

    /** `AddMutants` for one species: up to `amount` copies of breeders drawn at random,
        stopping as soon as the selection holds `size` genomes. Drawing from no breeders yields
        null, whose `Copy` throws. */
    method AddMutants(s: Species<G, P>, breeders: seq<Genome<G, P>>, sel: Selection<G, P>, size: int, amount: nat,
                      draws: nat -> real, n: nat, ghost others: seq<Species<G, P>>)
      returns (r: Result<(Selection<G, P>, nat)>, ghost sources: seq<Genome<G, P>>)
      requires Valid() && s in species && (forall g :: g in breeders ==> g in s.members)
      requires forall k :: IsDraw(draws(k))
      requires Detached(sel.toRetain + sel.toMutate)
      modifies this, s
      ensures Valid() && Kept() && s.members == old(s.members) && s.canBreed == old(s.canBreed)
      ensures forall k :: 0 <= k < |others| && others[k] != s ==> unchanged(others[k])
      ensures r.Failure? <==> breeders == [] && amount > 0 && sel.Count() != size
      ensures r.Failure? ==> r.error == "NullReferenceException"
      ensures r.Success? ==> var sel' := r.value.0;
        && sel'.toRetain == sel.toRetain && sel'.parentPairs == sel.parentPairs && sel.toMutate <= sel'.toMutate
        && sel'.Count() == sel.Count() + Room(sel.Count(), size, amount)
        && Detached(sel'.toRetain + sel'.toMutate)
      ensures r.Success? ==> var sel' := r.value.0;
        forall j :: |sel.toMutate| <= j < |sel'.toMutate| ==> fresh(sel'.toMutate[j]) && sel'.toMutate[j].species == s
      ensures r.Success? ==> CopiedFrom(r.value.0.toMutate[|sel.toMutate|..], sources, breeders)
    {
      var sel', n' := sel, n;
      sources := [];
      var i := 0;
      while i < amount
        invariant 0 <= i <= amount && |sel'.toMutate| == |sel.toMutate| + i && Valid() && Kept()
        invariant s.members == old(s.members) && s.canBreed == old(s.canBreed)
        invariant forall k :: 0 <= k < |others| && others[k] != s ==> unchanged(others[k])
        invariant sel'.toRetain == sel.toRetain && sel'.parentPairs == sel.parentPairs && sel.toMutate <= sel'.toMutate
        invariant sel.Count() <= size ==> sel.Count() + i <= size
        invariant i > 0 ==> breeders != []
        invariant Detached(sel'.toRetain + sel'.toMutate)
        invariant forall j :: |sel.toMutate| <= j < |sel'.toMutate| ==> fresh(sel'.toMutate[j]) && sel'.toMutate[j].species == s
        invariant CopiedFrom(sel'.toMutate[|sel.toMutate|..], sources, breeders)
      {
        if sel'.Count() == size {
          break;
        }
        var pick := RandomSingle(breeders, draws(n'));
        if pick.None? {
          r := Failure("NullReferenceException");
          return;
        }
        ghost var before := sel'.toRetain + sel'.toMutate;
        var c := CopyOf(s, pick.value, others);
        DetachedGrows(before, c);
        assert sel'.toRetain + (sel'.toMutate + [c]) == before + [c];
        CopiedGrows(sel'.toMutate[|sel.toMutate|..], sources, breeders, c, pick.value);
        assert (sel'.toMutate + [c])[|sel.toMutate|..] == sel'.toMutate[|sel.toMutate|..] + [c];
        sources := sources + [pick.value];
        sel' := sel'.(toMutate := sel'.toMutate + [c]);
        n' := n' + 1;
        i := i + 1;
      }
      r := Success((sel', n'));
    }

    /** `PerformGenerationalSelection`: first the champions and the total average fitness of
        the species that may breed, then, species by species among those, parent pairs and
        mutants in proportion to the species' average fitness, until the selection holds as
        many genomes as the population. Every random draw is taken from `draws` in turn. */
    method PerformGenerationalSelection(draws: nat -> real) returns (r: Result<Selection<G, P>>)
      requires Valid() && forall k :: IsDraw(draws(k))
      modifies this, SpeciesSet(), set g | g in population
      ensures Valid() && Kept()
      ensures r.Success? ==> |r.value.toRetain| <= |population| ==> r.value.Count() <= |population|
      ensures r.Success? ==> |r.value.toRetain| == |Crowded(old(Sizes()), |species|)|
      ensures r.Success? ==> ChampionSources(old(Sizes()), r.value.toRetain, |species|)
      ensures r.Success? ==> Sound(r.value)
      ensures r.Success? ==> forall j :: 0 <= j < |r.value.toRetain| ==> fresh(r.value.toRetain[j])
      ensures r.Success? ==> forall j :: 0 <= j < |r.value.toMutate| ==> fresh(r.value.toMutate[j])
    {
      var size := |population|;
      ghost var sizes := Sizes();
      var champions, fitness := Champions();
      if champions.Failure? {
        return Failure(champions.error);
      }
      var retained := champions.value.0;
      assert retained + [] == retained;
      r := BreedAll(Selection(retained, [], []), champions.value.1, size - |retained|, size, draws);
    }

    /** A selection as it is made: detached champions and mutants, mutants copied from species
        of the list that may breed, and first parents that are members of such species. */
    ghost predicate Sound(sel: Selection<G, P>)
      reads this, SpeciesSet(), set g | g in sel.toRetain + sel.toMutate
      reads set k | 0 <= k < |sel.parentPairs| && sel.parentPairs[k].0.Some? :: sel.parentPairs[k].0.value
    {
      && Detached(sel.toRetain + sel.toMutate)
      && (forall j :: 0 <= j < |sel.toMutate| ==> sel.toMutate[j].species in species && sel.toMutate[j].species.canBreed)
      && (forall k :: 0 <= k < |sel.parentPairs| && sel.parentPairs[k].0.Some? ==>
            var p := sel.parentPairs[k].0.value;
            p.parent == this && p.species in species && p.species.canBreed)
    }

    /** The second loop of `PerformGenerationalSelection`, over the species that may breed. */
    method BreedAll(sel: Selection<G, P>, total: real, afterChampions: int, size: int, draws: nat -> real)
      returns (r: Result<Selection<G, P>>)
      requires Valid() && forall k :: IsDraw(draws(k))
      requires sel.toMutate == [] && sel.parentPairs == [] && Detached(sel.toRetain)
      modifies this, SpeciesSet(), set g | g in population
      ensures Valid() && Kept()
      ensures r.Success? ==> r.value.toRetain == sel.toRetain && Sound(r.value)
      ensures r.Success? ==> |sel.toRetain| <= size ==> r.value.Count() <= size
      ensures r.Success? ==> forall j :: 0 <= j < |r.value.toMutate| ==> fresh(r.value.toMutate[j])
    {
      var current := sel;
      var n := 0;
      var i := 0;
      assert sel.toRetain + sel.toMutate == sel.toRetain;
      while i < |species|
        invariant 0 <= i <= |species| && Valid() && Kept()
        invariant current.toRetain == sel.toRetain && Sound(current)
        invariant |sel.toRetain| <= size ==> current.Count() <= size
        invariant forall j :: 0 <= j < |current.toMutate| ==> fresh(current.toMutate[j])
      {
        if species[i].canBreed {
          if current.Count() == size {
            break;
          }
          var bred := BreedStep(current, total, afterChampions, size, draws, n, i);
          if bred.Failure? {
            return Failure(bred.error);
          }
          current, n := bred.value.0, bred.value.1;
        }
        i := i + 1;
      }
      r := Success(current);
    }

    /** A turn of the second selection loop keeps the selection sound. */
    method BreedStep(sel: Selection<G, P>, total: real, afterChampions: int, size: int, draws: nat -> real, n: nat, i: nat)
      returns (r: Result<(Selection<G, P>, nat)>)
      requires Valid() && i < |species| && species[i].canBreed && forall k :: IsDraw(draws(k))
      requires Sound(sel)
      modifies this, species[i], set g | g in population
      ensures Valid() && Kept()
      ensures r.Success? ==> var sel' := r.value.0;
        && sel'.toRetain == sel.toRetain && Sound(sel')
        && (sel.Count() <= size ==> sel'.Count() <= size)
        && (forall j :: |sel.toMutate| <= j < |sel'.toMutate| ==> fresh(sel'.toMutate[j]))
        && sel.toMutate <= sel'.toMutate
    {
      var s := species[i];
      ghost var limit, average, sources;
      r, limit, average, sources := BreedSpecies(s, sel, total, afterChampions, size, draws, n);
      if r.Success? {
        var sel' := r.value.0;
        forall k | 0 <= k < |sel'.parentPairs| && sel'.parentPairs[k].0.Some?
          ensures var p := sel'.parentPairs[k].0.value; p.parent == this && p.species in species && p.species.canBreed
        {
          if k >= |sel.parentPairs| {
            assert sel'.parentPairs[k].0.value in s.members;
          } else {
            assert sel'.parentPairs[k] == sel.parentPairs[k];
          }
        }
      }
    }

    /** One turn of the second selection loop, for a species that may breed: its share of the
        population left after the champions is its average fitness over the total; a share of
        `breedingLimit` genomes becomes `floor(limit × crossover rate)` parent pairs and
        `ceil(limit × (1 − crossover rate))` mutants of its breeders. A zero total makes the
        share infinite or NaN, which the cast turns into `int.MinValue`; a negative amount makes
        `Enumerable.Range` throw. */
    method BreedSpecies(s: Species<G, P>, sel: Selection<G, P>, total: real, afterChampions: int, size: int,
                        draws: nat -> real, n: nat)
      returns (r: Result<(Selection<G, P>, nat)>, breedingLimit: int, ghost average: real, ghost sources: seq<Genome<G, P>>)
      requires Valid() && s in species && forall k :: IsDraw(draws(k))
      requires Detached(sel.toRetain + sel.toMutate)
      modifies this, s, set g | g in population
      ensures Valid() && Kept() && |s.members| == old(|s.members|) && s.canBreed == old(s.canBreed)
      ensures forall t :: t in species ==> t.canBreed == old(t.canBreed)
      ensures forall g :: g in population ==> g.Rescored()
      ensures r.Success? ==> var sel' := r.value.0;
        && sel'.toRetain == sel.toRetain && sel.toMutate <= sel'.toMutate && sel.parentPairs <= sel'.parentPairs
        && (sel.Count() <= size ==> sel'.Count() <= size)
        && Detached(sel'.toRetain + sel'.toMutate)
      ensures r.Success? ==> var sel' := r.value.0;
        && (forall j :: |sel.toMutate| <= j < |sel'.toMutate| ==> fresh(sel'.toMutate[j]) && sel'.toMutate[j].species == s)
        && (forall k :: |sel.parentPairs| <= k < |sel'.parentPairs| ==>
              sel'.parentPairs[k].0.Some? ==> sel'.parentPairs[k].0.value in s.members)
      ensures r.Success? ==> breedingLimit == BreedingLimit(average, total, afterChampions)
      ensures !old(s.averageStale) && r.Success? ==> average == old(s.averageFitness)
      ensures r.Success? ==> Allotted(sel, r.value.0, size, breedingLimit, crossoverRate)
      ensures r.Success? ==> Drawn(sel, r.value.0, Breeders(s.members, survivalThreshold), sources)
    {
      breedingLimit, average, sources := IntMin, 0.0, [];
      var fitness := AverageOf(s, species);
      if fitness.Failure? {
        r := Failure(fitness.error);
        return;
      }
      average := fitness.value;
      breedingLimit := BreedingLimit(fitness.value, total, afterChampions);
      r, sources := Reproduce(s, breedingLimit, sel, size, draws, n);
    }

    /** The rest of a turn of the second selection loop, once the species' breeding limit is
        known. */
    method Reproduce(s: Species<G, P>, breedingLimit: int, sel: Selection<G, P>, size: int, draws: nat -> real, n: nat)
      returns (r: Result<(Selection<G, P>, nat)>, ghost sources: seq<Genome<G, P>>)
      requires Valid() && s in species && forall k :: IsDraw(draws(k))
      requires Detached(sel.toRetain + sel.toMutate)
      modifies this, s, set g | g in population
      ensures Valid() && Kept() && |s.members| == old(|s.members|) && s.canBreed == old(s.canBreed)
      ensures forall k :: 0 <= k < |species| && species[k] != s ==> unchanged(species[k])
      ensures forall g :: g in population ==> g.Rescored()
      ensures r.Success? ==> var sel' := r.value.0;
        && sel'.toRetain == sel.toRetain && sel.toMutate <= sel'.toMutate && sel.parentPairs <= sel'.parentPairs
        && (sel.Count() <= size ==> sel'.Count() <= size)
        && Detached(sel'.toRetain + sel'.toMutate)
      ensures r.Success? ==> var sel' := r.value.0;
        && (forall j :: |sel.toMutate| <= j < |sel'.toMutate| ==> fresh(sel'.toMutate[j]) && sel'.toMutate[j].species == s)
        && (forall k :: |sel.parentPairs| <= k < |sel'.parentPairs| ==>
              sel'.parentPairs[k].0.Some? ==> sel'.parentPairs[k].0.value in s.members)
      ensures r.Success? ==> Allotted(sel, r.value.0, size, breedingLimit, crossoverRate)
      ensures CrossoverAmount(breedingLimit, crossoverRate) < 0 || MutationAmount(breedingLimit, crossoverRate) < 0 ==>
        r.Failure?
      ensures r.Success? ==> Drawn(sel, r.value.0, Breeders(s.members, survivalThreshold), sources)
    {
      sources := [];
      var listed := MembersOf(s, species);
      if listed.Failure? {
        r := Failure(listed.error);
        return;
      }
      var breeders := Breeders(listed.value, survivalThreshold);
      r, sources := Allot(s, breeders, sel, size, CrossoverAmount(breedingLimit, crossoverRate),
                          MutationAmount(breedingLimit, crossoverRate), draws, n);
    }

    /** The pairs and mutants of a species once its breeders and their numbers are known: a
        negative number of either makes `Enumerable.Range` throw, the mutant count only after
        the pairs were drawn. */
    method Allot(s: Species<G, P>, breeders: seq<Genome<G, P>>, sel: Selection<G, P>, size: int,
                 crossoverAmount: int, mutationAmount: int, draws: nat -> real, n: nat)
      returns (r: Result<(Selection<G, P>, nat)>, ghost sources: seq<Genome<G, P>>)
      requires Valid() && s in species && (forall g :: g in breeders ==> g in s.members)
      requires forall k :: IsDraw(draws(k))
      requires Detached(sel.toRetain + sel.toMutate)
      modifies this, s
      ensures Valid() && Kept() && s.members == old(s.members) && s.canBreed == old(s.canBreed)
      ensures forall k :: 0 <= k < |species| && species[k] != s ==> unchanged(species[k])
      ensures r.Success? ==> var sel' := r.value.0;
        && sel'.toRetain == sel.toRetain && sel.toMutate <= sel'.toMutate && sel.parentPairs <= sel'.parentPairs
        && (sel.Count() <= size ==> sel'.Count() <= size)
        && Detached(sel'.toRetain + sel'.toMutate)
      ensures r.Success? ==> var sel' := r.value.0;
        forall j :: |sel.toMutate| <= j < |sel'.toMutate| ==> fresh(sel'.toMutate[j]) && sel'.toMutate[j].species == s
      ensures r.Success? ==> Counted(sel, r.value.0, size, crossoverAmount, mutationAmount)
      ensures crossoverAmount < 0 || mutationAmount < 0 ==> r.Failure? && r.error == "ArgumentOutOfRangeException"
      ensures r.Success? ==> Drawn(sel, r.value.0, breeders, sources)
    {
      sources := [];
      if crossoverAmount < 0 {
        r := Failure("ArgumentOutOfRangeException");
        return;
      }
      var paired, n' := PairUp(breeders, sel, size, crossoverAmount, draws, n);
      if mutationAmount < 0 {
        r := Failure("ArgumentOutOfRangeException");
        return;
      }
      r, sources := AddMutants(s, breeders, paired, size, mutationAmount, draws, n', species);
    }

    /** The parent pairs added to `sel` were drawn from these breeders (and the population),
        and the mutants added are copies of the breeders in `sources`. */
    ghost predicate Drawn(sel: Selection<G, P>, sel': Selection<G, P>, breeders: seq<Genome<G, P>>,
                          sources: seq<Genome<G, P>>)
      reads this, set c | c in sel'.toMutate, set b | b in sources
    {
      && (forall k :: |sel.parentPairs| <= k < |sel'.parentPairs| ==> Paired(sel'.parentPairs[k], breeders))
      && |sel.toMutate| <= |sel'.toMutate|
      && CopiedFrom(sel'.toMutate[|sel.toMutate|..], sources, breeders)
    }

    /** The `Best` getter: when the cache is stale the population is brought up to date and
        `MaxBy` over the scores picks the last genome with the highest one (null for an empty
        population); the cache then serves until the next `Update`. A score that throws, or
        the null list of a GA that was never initialised, aborts the getter. */
    method Best() returns (r: Result<Option<Genome<G, P>>>)
      modifies this, set g | g in population
      ensures Kept()
      ensures !old(bestStale) ==> r == Success(old(best)) && unchanged(this)
      ensures old(bestStale) ==> Rebested(r)
    {
      if bestStale {
        r := Rebest();
      } else {
        r := Success(best);
      }
    }

    /** What the getter leaves when the cache was stale. */
    twostate predicate Rebested(new r: Result<Option<Genome<G, P>>>)
      reads this, set g | g in population
    {
      && Kept()
      && (!initialised ==> r == Failure("ArgumentNullException"))
      && (initialised ==> forall g :: g in old(population) ==> Refreshed(g))
      && (initialised ==> Picked(r))
    }

    /** `MaxBy` over the scores of the population, as the getter stores it. */
    ghost predicate Picked(r: Result<Option<Genome<G, P>>>)
      reads this, set g | g in population
    {
      && (r.Failure? <==> !AllScored(population))
      && (r.Failure? ==> r.error == "ApplicationException")
      && (r.Success? ==> !bestStale && best == r.value && (r.value.None? <==> population == []))
      && (r.Success? && r.value.Some? ==> exists k :: LastBest(population, k) && r.value.value == population[k])
    }

    /** The getter's refresh of a stale cache. */
    method Rebest() returns (r: Result<Option<Genome<G, P>>>)
      modifies this, set g | g in population
      ensures Rebested(r)
    {
      var updated := UpdateGenomes();
      if updated.Failure? {
        return Failure(updated.error);
      }
      r := PickBest();
    }

    /** The getter past `UpdateGenomes`: `MaxBy` with the score as key, stored in the cache. */
    method PickBest() returns (r: Result<Option<Genome<G, P>>>)
      modifies this`best, this`bestStale
      ensures Picked(r)
    {
      var scores := ScoresOf(population);
      if scores.Failure? {
        return Failure(scores.error);
      }
      var top := MaxBy(WithScores(population), PairScore);
      if top.None? {
        best := None;
      } else {
        var k :| IsLastMax(WithScores(population), PairScore, k) && top.value == WithScores(population)[k];
        assert LastBest(population, k);
        best := Some(top.value.0);
      }
      bestStale := false;
      r := Success(best);
    }

    /** The `AverageScore` getter: 0 when `Failed` holds; otherwise, when the cache is stale,
        the population is brought up to date and its scores averaged (an empty population, a
        score that throws, or the null list of a GA that was never initialised aborts the
        getter); the cache then serves until the next `Update`. */
    method AverageScore() returns (r: Result<real>)
      requires Valid()
      modifies this, SpeciesSet(), set g | g in population
      ensures Valid() == true && Kept()
      ensures r.Success? && !Thriving() ==> r.value == 0.0
      ensures r.Success? && Thriving() ==> !averageStale && r.value == average
    {
      var failed := Failed();
      if failed.Failure? {
        return Failure(failed.error);
      }
      if failed.value {
        return Success(0.0);
      }
      if averageStale {
        r := Reaverage();
      } else {
        r := Success(average);
      }
    }

    /** What the getter leaves when the cache was stale: the mean of the refreshed scores,
        stored in the cache, or the exception that aborted it. */
    twostate predicate Reaveraged(new r: Result<real>)
      reads this, set g | g in population
    {
      && population == old(population)
      && (!initialised ==> r == Failure("ArgumentNullException"))
      && (initialised ==> forall g :: g in old(population) ==> Refreshed(g))
      && (initialised && !AllScored(population) ==> r == Failure("ApplicationException"))
      && (initialised && AllScored(population) ==> r == Mean(ScoresOf(population).value))
      && (r.Success? ==> !averageStale && average == r.value)
    }

    /** The getter's refresh of a stale cache. */
    method Reaverage() returns (r: Result<real>)
      modifies this, set g | g in population
      ensures Kept() && Reaveraged(r)
      ensures r.Success? ==> !averageStale && average == r.value
    {
      var updated := UpdateGenomes();
      if updated.Failure? {
        return Failure(updated.error);
      }
      var scores := ScoresOf(population);
      if scores.Failure? {
        return Failure(scores.error);
      }
      r := Mean(scores.value);
      if r.Success? {
        average := r.value;
        averageStale := false;
      }
    }

    /** `GenerationalIterate`: nothing to do when `Failed`; otherwise a selection, then the
        population is replaced by the champions, the mutated copies and one mutated child per
        parent pair, in that order, and the generation count goes up by one. The null check
        reads `Population`, whose getter already dereferences the null list of a GA that was
        never initialised. The selection's draws come from `draws`; `mutation(k)` is what the
        concrete `InnerMutate` makes of the genes in the k-th mutation of the iteration, and
        `crossing(k)` what `InnerCrossover` breeds from the genes of the k-th parent pair. */
    method GenerationalIterate(draws: nat -> real, mutation: nat -> G -> G, crossing: nat -> (G, G) -> G)
      returns (r: Result<Option<Selection<G, P>>>, ghost copied: seq<G>)
      requires Valid() && forall k :: IsDraw(draws(k))
      modifies this, SpeciesSet(), set g | g in population
      ensures Valid()
      ensures !old(initialised) ==> r == Failure("NullReferenceException") && unchanged(this)
      ensures r == Success(None) ==> old(initialised) && Kept()
      ensures r == Success(None) ==> forall k :: 0 <= k < |species| && species[k].canBreed ==>
        !species[k].averageStale && species[k].averageFitness <= 0.0
      ensures r.Success? && r.value.Some? ==> var sel := r.value.value;
        && initialised && numberOfGenerations == old(numberOfGenerations) + 1 && |population| == sel.Count()
        && population[..|sel.toRetain| + |sel.toMutate|] == sel.toRetain + sel.toMutate
        && (forall k :: 0 <= k < |population| ==> fresh(population[k]))
        && (|sel.toRetain| <= |old(population)| ==> |population| <= |old(population)|)
        && |sel.toRetain| == |Crowded(old(Sizes()), |old(species)|)|
      ensures r.Success? && r.value.Some? ==> Regenerated(population, r.value.value, copied, mutation, crossing)
    {
      copied := [];
      if !initialised {
        r := Failure("NullReferenceException");
        return;
      }
      var failed := Failed();
      if failed.Failure? {
        r := Failure(failed.error);
        return;
      }
      if failed.value {
        r := Success(None);
        return;
      }
      var next;
      next, copied := Regenerate(draws, mutation, crossing);
      if next.Failure? {
        r := Failure(next.error);
        return;
      }
      r := Success(Some(next.value));
    }

    /** `GenerationalIterate` past the `Failed` check: the selection, the new population and
        the generation count. */
    method Regenerate(draws: nat -> real, mutation: nat -> G -> G, crossing: nat -> (G, G) -> G)
      returns (r: Result<Selection<G, P>>, ghost copied: seq<G>)
      requires Valid() && initialised && forall k :: IsDraw(draws(k))
      modifies this, SpeciesSet(), set g | g in population
      ensures Valid()
      ensures r.Success? ==> var sel := r.value;
        && initialised && numberOfGenerations == old(numberOfGenerations) + 1 && |population| == sel.Count()
        && population[..|sel.toRetain| + |sel.toMutate|] == sel.toRetain + sel.toMutate
        && (forall k :: 0 <= k < |population| ==> fresh(population[k]))
        && (|sel.toRetain| <= |old(population)| ==> |population| <= |old(population)|)
        && |sel.toRetain| == |Crowded(old(Sizes()), |old(species)|)|
      ensures r.Success? ==> Regenerated(population, r.value, copied, mutation, crossing)
    {
      copied := [];
      var selection := PerformGenerationalSelection(draws);
      if selection.Failure? {
        r := Failure(selection.error);
        return;
      }
      var sel := selection.value;
      var replaced;
      replaced, copied := NextGeneration(sel, mutation, crossing);
      if replaced.Failure? {
        r := Failure(replaced.error);
        return;
      }
      r := Success(sel);
    }

    /** The end of `GenerationalIterate`: the selection replaces the population and the
        generation count goes up. */
    method NextGeneration(sel: Selection<G, P>, mutation: nat -> G -> G, crossing: nat -> (G, G) -> G)
      returns (r: Result<()>, ghost copied: seq<G>)
      requires Valid() && initialised && Sound(sel)
      requires forall j :: 0 <= j < |sel.toRetain| ==> sel.toRetain[j].species in species
      modifies this, SpeciesSet(), set g | g in sel.toRetain, set g | g in sel.toMutate
      ensures Valid()
      ensures r.Success? ==>
        && initialised && numberOfGenerations == old(numberOfGenerations) + 1 && |population| == sel.Count()
        && population[..|sel.toRetain| + |sel.toMutate|] == sel.toRetain + sel.toMutate
        && (forall k :: 0 <= k < |population| ==> population[k] in sel.toRetain + sel.toMutate || fresh(population[k]))
      ensures r.Success? ==> Regenerated(population, sel, copied, mutation, crossing)
    {
      r, copied := Replace(sel, mutation, crossing);
      if r.Failure? {
        return;
      }
      forall k | 0 <= k < |population|
        ensures population[k] in sel.toRetain + sel.toMutate || fresh(population[k])
      {
        if k < |sel.toRetain| + |sel.toMutate| {
          assert population[k] == (sel.toRetain + sel.toMutate)[k];
        }
      }
      numberOfGenerations := numberOfGenerations + 1;
    }

    /** The population a generation leaves, given the genes `copied` of the champions and the
        copies to mutate when they were selected: the champions unchanged, the j-th copy mutated
        by `mutation(j)`, then a bred child per parent pair. */
    ghost predicate Regenerated(population: seq<Genome<G, P>>, sel: Selection<G, P>, copied: seq<G>,
                                mutation: nat -> G -> G, crossing: nat -> (G, G) -> G)
      reads set g | g in population
      reads set k | 0 <= k < |sel.parentPairs| && sel.parentPairs[k].0.Some? :: sel.parentPairs[k].0.value
      reads set k | 0 <= k < |sel.parentPairs| && sel.parentPairs[k].1.Some? :: sel.parentPairs[k].1.value
    {
      var kept := |sel.toRetain| + |sel.toMutate|;
      && |population| == sel.Count()
      && Mutated(GenesAt(population[..kept]), copied, |sel.toRetain|, mutation)
      && (forall j :: kept <= j < |population| ==>
            Bred(population[j], sel.parentPairs[j - kept], crossing(j - kept), mutation(|sel.toMutate| + j - kept)))
    }

    /** The part of `GenerationalIterate` after the selection: the champions and the mutated
        copies replace the population, the children are bred and mutated, then the caches are
        dropped and the `IterationComplete` handler runs. */
    method Replace(sel: Selection<G, P>, mutation: nat -> G -> G, crossing: nat -> (G, G) -> G)
      returns (r: Result<()>, ghost copied: seq<G>)
      requires Valid() && initialised && Sound(sel)
      requires forall j :: 0 <= j < |sel.toRetain| ==> sel.toRetain[j].species in species
      modifies this, SpeciesSet(), set g | g in sel.toRetain, set g | g in sel.toMutate
      ensures Valid() && initialised && numberOfGenerations == old(numberOfGenerations)
      ensures r.Success? ==> |population| == sel.Count()
      ensures r.Success? ==> population[..|sel.toRetain| + |sel.toMutate|] == sel.toRetain + sel.toMutate
      ensures r.Success? ==> forall j :: 0 <= j < |sel.toRetain| ==> sel.toRetain[j].genes == old(sel.toRetain[j].genes)
      ensures r.Success? ==> forall j :: 0 <= j < |sel.toMutate| ==>
        sel.toMutate[j].genes == mutation(j)(old(sel.toMutate[j].genes))
      ensures r.Success? ==> forall j :: |sel.toRetain| + |sel.toMutate| <= j < |population| ==>
        fresh(population[j]) && var k := j - |sel.toRetain| - |sel.toMutate|;
        Bred(population[j], sel.parentPairs[k], crossing(k), mutation(|sel.toMutate| + k))
      ensures r.Success? ==> copied == old(GenesAt(sel.toRetain + sel.toMutate))
      ensures r.Success? ==> Regenerated(population, sel, copied, mutation, crossing)
    {
      copied := GenesAt(sel.toRetain + sel.toMutate);
      var added := Renew(sel, mutation);
      if added.Failure? {
        r := Failure(added.error);
        return;
      }
      assert Mutated(GenesAt(population), copied, |sel.toRetain|, mutation);
      r := Regrow(sel, mutation, crossing, copied);
    }

    /** The rest of that part, once the champions and the mutated copies (whose genes follow
        `copied`) make up the population: the children join them. */
    method Regrow(sel: Selection<G, P>, mutation: nat -> G -> G, crossing: nat -> (G, G) -> G, ghost copied: seq<G>)
      returns (r: Result<()>)
      requires Valid() && initialised && MemberSet() <= set h | h in population
      requires forall k :: 0 <= k < |sel.parentPairs| && sel.parentPairs[k].0.Some? ==>
        sel.parentPairs[k].0.value.parent == this
      requires population == sel.toRetain + sel.toMutate
      requires Mutated(GenesAt(population), copied, |sel.toRetain|, mutation)
      modifies this, SpeciesSet(), set g | g in population
      ensures Valid() && initialised && numberOfGenerations == old(numberOfGenerations)
      ensures r.Success? ==> |population| == sel.Count()
      ensures r.Success? ==> population[..|sel.toRetain| + |sel.toMutate|] == sel.toRetain + sel.toMutate
      ensures r.Success? ==> forall g :: g in old(population) ==> g.genes == old(g.genes)
      ensures r.Success? ==> forall j :: |sel.toRetain| + |sel.toMutate| <= j < |population| ==>
        fresh(population[j]) && var k := j - |sel.toRetain| - |sel.toMutate|;
        Bred(population[j], sel.parentPairs[k], crossing(k), mutation(|sel.toMutate| + k))
      ensures r.Success? ==> Regenerated(population, sel, copied, mutation, crossing)
    {
      ghost var renewed := GenesAt(population);
      ghost var before := population;
      r := Conclude(sel.parentPairs, crossing, mutation, |sel.toMutate|);
      if r.Success? {
        assert population[..|before|] == before;
        assert GenesAt(population[..|before|]) == renewed;
      }
    }

    /** The end of that part: the children are added, then the caches are dropped and the
        `IterationComplete` handler runs. */
    method Conclude(pairs: seq<(Option<Genome<G, P>>, Option<Genome<G, P>>)>, crossing: nat -> (G, G) -> G,
                    mutation: nat -> G -> G, offset: nat) returns (r: Result<()>)
      requires Valid() && initialised && MemberSet() <= set h | h in population
      requires forall k :: 0 <= k < |pairs| && pairs[k].0.Some? ==> pairs[k].0.value.parent == this
      modifies this, SpeciesSet(), set g | g in population
      ensures Valid() && initialised && numberOfGenerations == old(numberOfGenerations)
      ensures r.Success? ==> |population| == |old(population)| + |pairs| && population[..|old(population)|] == old(population)
      ensures r.Success? ==> forall g :: g in old(population) ==> g.genes == old(g.genes)
      ensures r.Success? ==> forall j :: |old(population)| <= j < |population| ==>
        fresh(population[j]) && var k := j - |old(population)|; Bred(population[j], pairs[k], crossing(k), mutation(offset + k))
    {
      r := AdoptChildren(pairs, crossing, mutation, offset);
      if r.Failure? {
        return;
      }
      forall g | g in population
        ensures g in old(population) || fresh(g)
      {
        var k :| 0 <= k < |population| && population[k] == g;
        if k < |old(population)| {
          assert g == population[..|old(population)|][k];
        }
      }
      label adopted:
      r := Complete();
      forall j | |old(population)| <= j < |population|
        ensures var k := j - |old(population)|; Bred(population[j], pairs[k], crossing(k), mutation(offset + k))
      {
        var k := j - |old(population)|;
        assert old@adopted(Bred(population[j], pairs[k], crossing(k), mutation(offset + k)));
        var c, p, q := population[j], pairs[k].0.value, pairs[k].1.value;
        assert c in population && c.genes == old@adopted(c.genes);
        if p in population {
          assert p.genes == old@adopted(p.genes);
        }
        if q in population {
          assert q.genes == old@adopted(q.genes);
        }
      }
    }

    /** The end of `GenerationalIterate`: `Update`, then the `IterationComplete` handler. */
    method Complete() returns (r: Result<()>)
      requires Valid()
      modifies this, SpeciesSet(), set g | g in population
      ensures Valid() && population == old(population) && initialised == old(initialised)
      ensures numberOfGenerations == old(numberOfGenerations)
      ensures forall g :: g in population ==> g.Rescored()
    {
      Update();
      r := IterationComplete();
    }

    /** The start of that part: the population list is emptied, the `SelectionComplete`
        handler empties the species, the champions are added as they are and the copies are
        mutated and added. */
    method Renew(sel: Selection<G, P>, mutation: nat -> G -> G) returns (r: Result<()>)
      requires Valid() && initialised && Sound(sel)
      requires forall j :: 0 <= j < |sel.toRetain| ==> sel.toRetain[j].species in species
      modifies this, SpeciesSet(), set g | g in sel.toRetain, set g | g in sel.toMutate
      ensures Valid() && initialised && numberOfGenerations == old(numberOfGenerations)
      ensures MemberSet() <= set h | h in population
      ensures forall t :: t in species ==> t in old(species) || fresh(t)
      ensures forall k :: 0 <= k < |sel.parentPairs| && sel.parentPairs[k].0.Some? ==>
        sel.parentPairs[k].0.value.parent == this
      ensures r.Success? ==> population == sel.toRetain + sel.toMutate
      ensures r.Success? ==> forall j :: 0 <= j < |sel.toRetain| ==> sel.toRetain[j].genes == old(sel.toRetain[j].genes)
      ensures r.Success? ==> forall j :: 0 <= j < |sel.toMutate| ==>
        sel.toMutate[j].genes == mutation(j)(old(sel.toMutate[j].genes))
    {
      r := AdoptChampions(sel, mutation);
      if r.Failure? {
        return;
      }
      r := AdoptBeside(sel.toMutate, mutation, sel.toRetain);
    }

    /** The first half of `Renew`: the list emptied, the species emptied and the champions
        added as they are; the copies to mutate are left for `AdoptBeside`. */
    method AdoptChampions(sel: Selection<G, P>, mutation: nat -> G -> G) returns (r: Result<()>)
      requires Valid() && initialised && Sound(sel)
      requires forall j :: 0 <= j < |sel.toRetain| ==> sel.toRetain[j].species in species
      modifies this, SpeciesSet(), set g | g in sel.toRetain
      ensures Valid() && initialised && numberOfGenerations == old(numberOfGenerations)
      ensures MemberSet() <= set h | h in population
      ensures forall t :: t in species ==> t in old(species) || fresh(t)
      ensures forall k :: 0 <= k < |sel.parentPairs| && sel.parentPairs[k].0.Some? ==>
        sel.parentPairs[k].0.value.parent == this
      ensures r.Success? ==> population == sel.toRetain
      ensures r.Success? ==> forall j :: 0 <= j < |sel.toRetain| ==> sel.toRetain[j].genes == old(sel.toRetain[j].genes)
      ensures forall j :: 0 <= j < |sel.toMutate| ==> sel.toMutate[j].genes == old(sel.toMutate[j].genes)
      ensures forall j :: 0 <= j < |sel.toMutate| ==> sel.toMutate[j].parent == this
      ensures r.Success? ==> forall j :: 0 <= j < |sel.toMutate| ==> sel.toMutate[j] !in population
      ensures forall j :: 0 <= j < |sel.toMutate| ==> sel.toMutate[j].species == null || sel.toMutate[j].species in species
      ensures forall a, b :: 0 <= a < b < |sel.toMutate| ==> sel.toMutate[a] != sel.toMutate[b]
      ensures forall i, j :: 0 <= i < |sel.toRetain| && 0 <= j < |sel.toMutate| ==> sel.toRetain[i] != sel.toMutate[j]
    {
      DetachedParts(sel.toRetain, sel.toMutate);
      population := [];
      ClearSpecies();
      r := AdoptAll(sel.toRetain, false, mutation);
      if r.Success? {
        assert population == [] + sel.toRetain == sel.toRetain;
      }
    }

    /** `AdoptAll` of the copies to mutate, next to the champions already adopted: the
        champions' genes stay as they are. */
    method AdoptBeside(gs: seq<Genome<G, P>>, mutation: nat -> G -> G, ghost kept: seq<Genome<G, P>>) returns (r: Result<()>)
      requires Valid() && initialised && MemberSet() <= set h | h in population
      requires forall j :: 0 <= j < |gs| ==> gs[j].parent == this && gs[j] !in population
      requires forall j :: 0 <= j < |gs| ==> gs[j].species == null || gs[j].species in species
      requires forall a, b :: 0 <= a < b < |gs| ==> gs[a] != gs[b]
      requires forall i, j :: 0 <= i < |kept| && 0 <= j < |gs| ==> kept[i] != gs[j]
      modifies this, SpeciesSet(), set g | g in gs
      ensures Valid() && initialised && numberOfGenerations == old(numberOfGenerations)
      ensures MemberSet() <= set h | h in population
      ensures forall t :: t in species ==> t in old(species) || fresh(t)
      ensures forall g :: g in gs ==> g.parent == this
      ensures r.Success? ==> population == old(population) + gs
      ensures r.Success? ==> forall j :: 0 <= j < |gs| ==> gs[j].genes == mutation(j)(old(gs[j].genes))
      ensures forall j :: 0 <= j < |kept| ==> kept[j].genes == old(kept[j].genes)
    {
      r := AdoptAll(gs, true, mutation);
    }

    /** A genome of the new population bred from the pair: both parents are there, and its
        genes are the mutation of what crossing their genes gave. */
    ghost predicate Bred(child: Genome<G, P>, pair: (Option<Genome<G, P>>, Option<Genome<G, P>>), crossing: (G, G) -> G, mutation: G -> G)
      reads child, if pair.0.Some? then {pair.0.value} else {}, if pair.1.Some? then {pair.1.value} else {}
    {
      && pair.0.Some? && pair.1.Some? && child.parent == this
      && child.genes == mutation(crossing(pair.0.value.genes, pair.1.value.genes))
    }

    /** The loop of `GenerationalIterate` over the champions (`mutate` clear) or over the
        copies to mutate (`mutate` set, the j-th copy mutated by `mutation(j)`): each is added
        to the population in turn. */
    method AdoptAll(gs: seq<Genome<G, P>>, mutate: bool, mutation: nat -> G -> G) returns (r: Result<()>)
      requires Valid() && initialised && MemberSet() <= set h | h in population
      requires forall j :: 0 <= j < |gs| ==> gs[j].parent == this && gs[j] !in population
      requires forall j :: 0 <= j < |gs| ==> gs[j].species == null || gs[j].species in species
      requires forall a, b :: 0 <= a < b < |gs| ==> gs[a] != gs[b]
      modifies this, SpeciesSet(), set g | g in gs
      ensures Valid() && initialised && numberOfGenerations == old(numberOfGenerations)
      ensures MemberSet() <= set h | h in population
      ensures |old(species)| <= |species| && species[..|old(species)|] == old(species)
      ensures forall t :: t in species ==> t in old(species) || fresh(t)
      ensures forall g :: g in gs ==> g.parent == this
      ensures r.Success? ==> population == old(population) + gs
      ensures r.Success? ==> forall j :: 0 <= j < |gs| ==>
        gs[j].genes == if mutate then mutation(j)(old(gs[j].genes)) else old(gs[j].genes)
    {
      var i := 0;
      while i < |gs|
        invariant 0 <= i <= |gs| && Valid() && initialised && numberOfGenerations == old(numberOfGenerations)
        invariant MemberSet() <= set h | h in population
        invariant |old(species)| <= |species| && species[..|old(species)|] == old(species)
        invariant population == old(population) + gs[..i]
        invariant forall t :: t in species ==> t in old(species) || fresh(t)
        invariant forall j :: 0 <= j < i ==> gs[j].genes == if mutate then mutation(j)(old(gs[j].genes)) else old(gs[j].genes)
        invariant forall j :: i <= j < |gs| ==> unchanged(gs[j])
        invariant forall g :: g in gs ==> g.parent == this
      {
        var g := gs[i];
        assert g.species == null || g.species in species;
        assert g !in population;
        r := Adopt(g, mutate, mutation(i));
        if r.Failure? {
          return;
        }
        assert gs[..i + 1] == gs[..i] + [g];
        i := i + 1;
      }
      assert gs[..i] == gs;
      r := Success(());
    }

    /** The loop of `GenerationalIterate` over the parent pairs: the child of each pair is
        mutated by `mutation(offset + k)` and added; a null parent throws. */
    method AdoptChildren(pairs: seq<(Option<Genome<G, P>>, Option<Genome<G, P>>)>, crossing: nat -> (G, G) -> G,
                         mutation: nat -> G -> G, offset: nat) returns (r: Result<()>)
      requires Valid() && initialised && MemberSet() <= set h | h in population
      requires forall k :: 0 <= k < |pairs| && pairs[k].0.Some? ==> pairs[k].0.value.parent == this
      modifies this, SpeciesSet()
      ensures Valid() && initialised && numberOfGenerations == old(numberOfGenerations)
      ensures forall t :: t in species ==> t in old(species) || fresh(t)
      ensures r.Success? ==> |population| == |old(population)| + |pairs| && population[..|old(population)|] == old(population)
      ensures r.Success? ==> forall j :: |old(population)| <= j < |population| ==>
        fresh(population[j]) && var k := j - |old(population)|; Bred(population[j], pairs[k], crossing(k), mutation(offset + k))
    {
      var n := |population|;
      for k := 0 to |pairs|
        invariant Valid() && initialised && numberOfGenerations == old(numberOfGenerations)
        invariant MemberSet() <= set h | h in population
        invariant |population| == n + k && population[..n] == old(population)
        invariant forall t :: t in species ==> t in old(species) || fresh(t)
        invariant forall j :: n <= j < |population| ==>
          fresh(population[j]) && Bred(population[j], pairs[j - n], crossing(j - n), mutation(offset + (j - n)))
      {
        r := AdoptChild(pairs[k], crossing(k), mutation(offset + k));
        if r.Failure? {
          return;
        }
      }
      r := Success(());
    }

    /** One turn of that loop: `Crossover` of the pair (a null parent throws), `Mutate` of
        the child and `AddGenome`. */
    method AdoptChild(pair: (Option<Genome<G, P>>, Option<Genome<G, P>>), crossing: (G, G) -> G, mutation: G -> G)
      returns (r: Result<()>)
      requires Valid() && initialised && MemberSet() <= set h | h in population
      requires pair.0.Some? ==> pair.0.value.parent == this
      modifies this, SpeciesSet()
      ensures Valid() && initialised && numberOfGenerations == old(numberOfGenerations)
      ensures MemberSet() <= set h | h in population
      ensures forall t :: t in species ==> t in old(species) || fresh(t)
      ensures pair.0.None? || pair.1.None? ==> r == Failure("NullReferenceException") && unchanged(this)
      ensures r.Success? ==> |population| == |old(population)| + 1 && population[..|old(population)|] == old(population)
      ensures r.Success? ==> fresh(population[|old(population)|]) && Bred(population[|old(population)|], pair, crossing, mutation)
    {
      if pair.0.None? || pair.1.None? {
        return Failure("NullReferenceException");
      }
      var child := pair.0.value.Crossover(pair.1.value, crossing(pair.0.value.genes, pair.1.value.genes));
      r := Adopt(child, true, mutation);
      assert population[..|old(population)|] == old(population);
    }

    /** One genome of the selection joins the new population: mutated first (by `mutation`)
        when `mutate` is set, then `AddGenome`. */
    method Adopt(g: Genome<G, P>, mutate: bool, mutation: G -> G) returns (r: Result<()>)
      requires Valid() && initialised && g.parent == this && g !in population
      requires MemberSet() <= set h | h in population
      requires g.species == null || g.species in species
      modifies this, g, SpeciesSet()
      ensures Valid() && initialised && numberOfGenerations == old(numberOfGenerations)
      ensures population == old(population) + [g] && g.parent == this
      ensures g.genes == if mutate then mutation(old(g.genes)) else old(g.genes)
      ensures mutate || old(g.phenomeExpired) ==> Scored(g)
      ensures |old(species)| <= |species| && species[..|old(species)|] == old(species)
      ensures MemberSet() <= set h | h in population
      ensures forall t :: t in species ==> t in old(species) || fresh(t)
    {
      if mutate {
        Reshape(g, mutation);
      }
      r := AddGenome(g);
    }

    /** `Mutate` on a genome of this GA outside the species: its species (if any) and this GA
        drop their caches, and the membership does not change. */
    method Reshape(g: Genome<G, P>, mutation: G -> G)
      requires Valid() && g.parent == this && g !in MemberSet()
      requires g.species == null || g.species in species
      modifies this, g, g.species
      ensures Valid() && Kept() && MemberSet() == old(MemberSet())
      ensures g.genes == mutation(old(g.genes)) && g.phenomeExpired
      ensures g.parent == this && g.species == old(g.species)
    {
      var _ := g.Mutate(mutation(g.genes));
      assert forall t :: t in species ==> t.members == old(t.members);
    }

    /** The loop of the `GenomeAdded` handler that looks for the genome's species. */
    method FindSpecies(g: Genome<G, P>) returns (r: Result<Option<nat>>)
      ensures r == Placement(species, g)
    {
      var i := 0;
      while i < |species|
        invariant 0 <= i <= |species|
        invariant forall k :: 0 <= k < i ==> species[k].BelongsTo(g) == Success(false)
      {
        var b := species[i].BelongsTo(g);
        if b.Failure? {
          return Failure(b.error);
        }
        if b.value {
          return Success(Some(i));
        }
        i := i + 1;
      }
      r := Success(None);
    }

    /** `AddGenome` and the speciated GA's `GenomeAdded` handler: the genome joins the
        population and is brought up to date, then joins the first species it belongs to, or
        founds a new species at the end of the list. The callers only add genomes of this GA
        that no species holds yet (new ones, copies and children). */
    method AddGenome(g: Genome<G, P>) returns (r: Result<()>)
      requires Valid() && initialised && g.parent == this
      requires g !in MemberSet()
      modifies this, g, SpeciesSet()
      ensures Valid() == true && Placed(g, old(species), old(Placement(species, g)), r) == true
      ensures Enlisted(g, old(numberOfGenerations), old(population), old(g.genes), old(g.phenomeExpired), old(g.score)) == true
      ensures r.Failure? ==> species == old(species) && unchanged(old(SpeciesSet()))
      ensures forall t :: t in species ==> t in old(species) || fresh(t)
      ensures |old(species)| <= |species| && species[..|old(species)|] == old(species)
      ensures r.Success? ==> MemberSet() == old(MemberSet()) + {g}
      ensures r.Failure? ==> MemberSet() == old(MemberSet())
    {
      Enlist(g);
      r := SpeciateEnlisted(g, old(numberOfGenerations), old(population), old(g.genes), old(g.phenomeExpired), old(g.score));
    }

    /** `Speciate` as `AddGenome` calls it: what `Enlist` established stays true. */
    method SpeciateEnlisted(g: Genome<G, P>, ghost gens: int, ghost pop: seq<Genome<G, P>>, ghost genes: G,
                            ghost expired: bool, ghost score: real) returns (r: Result<()>)
      requires Valid() && g.parent == this && !g.phenomeExpired
      requires g !in MemberSet()
      requires Enlisted(g, gens, pop, genes, expired, score) == true
      modifies this`species, g`species, SpeciesSet()
      ensures Valid() && Placed(g, old(species), old(Placement(species, g)), r)
      ensures r.Failure? ==> species == old(species) && unchanged(old(SpeciesSet()))
      ensures forall t :: t in species ==> t in old(species) || fresh(t)
      ensures |old(species)| <= |species| && species[..|old(species)|] == old(species)
      ensures r.Success? ==> MemberSet() == old(MemberSet()) + {g}
      ensures r.Failure? ==> MemberSet() == old(MemberSet())
      ensures Enlisted(g, gens, pop, genes, expired, score) == true
    {
      r := Speciate(g);
    }

    /** What `AddGenome` promises of the GA's counters and list and of `g` itself, given their
        values before: the GA stays initialised at generation `gens`, `g` is appended to `pop`,
        keeps `genes` and this GA as its parent, is scored when it was stale (`expired`) and
        stays fresh with its `score` otherwise. */
    ghost predicate Enlisted(g: Genome<G, P>, gens: int, pop: seq<Genome<G, P>>, genes: G, expired: bool, score: real)
      reads this`initialised, this`numberOfGenerations, this`population
      reads g`genes, g`parent, g`phenomeExpired, g`phenome, g`score
    {
      && initialised && numberOfGenerations == gens
      && population == pop + [g] && g.genes == genes && g.parent == this
      && (expired ==> Scored(g))
      && (!expired ==> !g.phenomeExpired && g.score == score)
    }

    /** The body of `AddGenome` before the event: the genome joins the population list and
        is brought up to date. */
    method Enlist(g: Genome<G, P>)
      requires Valid() && initialised && g.parent == this
      modifies this, g
      ensures Valid() && species == old(species)
      ensures Enlisted(g, old(numberOfGenerations), old(population), old(g.genes), old(g.phenomeExpired), old(g.score)) == true
      ensures g.species == old(g.species)
      ensures Placement(species, g) == old(Placement(species, g)) && MemberSet() == old(MemberSet())
      ensures unchanged(SpeciesSet())
    {
      population := population + [g];
      label added:
      UpdateGenome(g);
      assert unchanged@added(SpeciesSet());
    }

    /** The `GenomeAdded` handler. */
    method Speciate(g: Genome<G, P>) returns (r: Result<()>)
      requires Valid() && g.parent == this && !g.phenomeExpired
      requires g !in MemberSet()
      modifies this`species, g`species, SpeciesSet()
      ensures Valid() && Placed(g, old(species), old(Placement(species, g)), r)
      ensures r.Failure? ==> species == old(species) && unchanged(old(SpeciesSet()))
      ensures forall t :: t in species ==> t in old(species) || fresh(t)
      ensures |old(species)| <= |species| && species[..|old(species)|] == old(species)
      ensures r.Success? ==> MemberSet() == old(MemberSet()) + {g}
      ensures r.Failure? ==> MemberSet() == old(MemberSet())
    {
      var place := FindSpecies(g);
      if place.Failure? {
        return Failure(place.error);
      }
      if place.value.Some? {
        Join(g, place.value.value);
      } else {
        Found(g);
      }
      r := Success(());
    }

    /** The genome joins the species at position `j`. */
    method Join(g: Genome<G, P>, j: nat)
      requires Valid() && j < |species| && g.parent == this
      requires g !in MemberSet()
      modifies g`species, species[j]
      ensures Valid() && g.species == species[j]
      ensures species[j].members == old(species[j].members) + [g] && species[j].representative == g
      ensures species[j].listStale && species[j].averageStale && species[j].canBreed == old(species[j].canBreed)
      ensures species[j].previousScore == old(species[j].previousScore)
      ensures species[j].noInnovationCount == old(species[j].noInnovationCount)
      ensures MemberSet() == old(MemberSet()) + {g}
    {
      var s := species[j];
      s.Add(g);
      g.species := s;
      assert g in s.members;
      forall h | h in MemberSet()
        ensures h in old(MemberSet()) + {g}
      {
        var t :| t in species && h in t.members;
        if t != s {
          assert h in old(t.members);
        }
      }
      forall h | h in old(MemberSet())
        ensures h in MemberSet()
      {
        var t :| t in species && h in old(t.members);
        assert h in t.members;
      }
    }

    /** The genome founds a new species, appended to the list. */
    method Found(g: Genome<G, P>)
      requires Valid() && g.parent == this && !g.phenomeExpired
      requires g !in MemberSet()
      modifies this`species, g`species
      ensures Valid() && |species| == |old(species)| + 1 && species[..|old(species)|] == old(species)
      ensures fresh(species[|old(species)|]) && g.species == species[|old(species)|]
      ensures species[|old(species)|].members == [g] && species[|old(species)|].representative == g
      ensures species[|old(species)|].canBreed && species[|old(species)|].previousScore == g.score
      ensures species[|old(species)|].noInnovationCount == 0
      ensures MemberSet() == old(MemberSet()) + {g}
    {
      assert g.Score().Success?;
      var founded := new Species(this, g, g.score);
      species := species + [founded];
      g.species := founded;
    }

    /** What `AddGenome` did with the genome's species, given where `Placement` files it. */
    twostate predicate Placed(g: Genome<G, P>, before: seq<Species<G, P>>, place: Result<Option<nat>>, new r: Result<()>)
      reads this, SpeciesSet(), g
    {
      && (r.Failure? <==> place.Failure?)
      && (r.Success? && place.value.Some? ==>
            && place.value.value < |species| && species == before
            && var s := species[place.value.value];
               s.members == old(s.members) + [g] && s.representative == g && g.species == s
               && s.listStale && s.averageStale && s.canBreed == old(s.canBreed)
               && s.previousScore == old(s.previousScore) && s.noInnovationCount == old(s.noInnovationCount)
               && forall t :: t in before && t != s ==> unchanged(t))
      && (r.Success? && place.value.None? ==>
            && |species| == |before| + 1 && species[..|before|] == before
            && var s := species[|before|];
               fresh(s) && s.members == [g] && s.representative == g && g.species == s
               && s.canBreed && s.previousScore == g.score && s.noInnovationCount == 0
               && forall t :: t in before ==> unchanged(t))
    }

    /** What `UpdateGenome` leaves in a genome that was stale: the phenome built from its
        genes, scored by the fitness function, fresh. */
    predicate Scored(g: Genome<G, P>)
      reads g`phenomeExpired, g`phenome, g`score, g`genes
    {
      !g.phenomeExpired && g.phenome == Some(express(g.genes)) && g.score == scoreFunction(express(g.genes))
    }

    /** `UpdateGenome`: a stale genome is rebuilt and rescored and the caches are dropped; a
        fresh one is left alone. */
    method UpdateGenome(g: Genome<G, P>)
      modifies this, g
      ensures g.Rescored() && Kept() && best == old(best) && average == old(average)
      ensures old(g.phenomeExpired) ==> Scored(g) && bestStale && averageStale
      ensures !old(g.phenomeExpired) ==> unchanged(g) && unchanged(this)
    {
      if g.phenomeExpired {
        g.UpdatePhenome(express);
        g.score := scoreFunction(express(g.genes));
        Update();
      }
    }

    /** What `UpdateGenomes` leaves in a genome of the population: rescored if it was stale,
        untouched if not. */
    twostate predicate Refreshed(g: Genome<G, P>)
      reads this, g
    {
      g.Rescored() &&
      if old(g.phenomeExpired) then Scored(g)
      else !g.phenomeExpired && g.score == old(g.score) && g.phenome == old(g.phenome)
    }

    /** `UpdateGenomes`: every stale genome of the population is rebuilt and rescored, and the
        caches are dropped if there was one; the null list of an uninitialised GA throws. */
    method UpdateGenomes() returns (r: Result<()>)
      modifies this, set g | g in population
      ensures Kept() && best == old(best) && average == old(average)
      ensures r.Failure? <==> !initialised
      ensures r.Failure? ==> r.error == "ArgumentNullException" && unchanged(this) && unchanged(set g | g in population)
      ensures r.Success? ==> forall g :: g in population ==> Refreshed(g)
      ensures r.Success? && (exists g :: g in population && old(g.phenomeExpired)) ==> bestStale && averageStale
      ensures r.Success? && !(exists g :: g in population && old(g.phenomeExpired)) ==> unchanged(this)
    {
      if !initialised {
        return Failure("ArgumentNullException");
      }
      var i := 0;
      while i < |population|
        invariant 0 <= i <= |population| && Kept() && best == old(best) && average == old(average)
        invariant forall g :: g in population[..i] ==> Refreshed(g)
        invariant forall g :: g in population && g !in population[..i] ==> unchanged(g)
        invariant (exists g :: g in population[..i] && old(g.phenomeExpired)) ==> bestStale && averageStale
        invariant !(exists g :: g in population[..i] && old(g.phenomeExpired)) ==> unchanged(this)
      {
        assert population[..i + 1] == population[..i] + [population[i]];
        UpdateGenome(population[i]);
        i := i + 1;
      }
      assert population[..i] == population;
      r := Success(());
    }
  }
}
