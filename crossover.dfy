/**
 * The crossover constructor of ComplexCPPNNEAT/CPPNNEATGenome.cs (the same in
 * CPPNNEAT/CPPNNEAT/CPPNNEATGenome.cs) and of NEATSpacesLibrary/CPPNNEAT/CPPNNEATGenome.cs: a child
 * gene collection built from the walk over the two parents. Each match gives the child one
 * copy, and the fitter parent's disjoint and excess genes are copied after them.
 *
 * The child's genes are specified by their values: what a `Copy` of a gene holds.
 */
module Crossovers {
  import opened Wrappers
  import opened Values
  import opened Genes
  import opened GeneCollections
  import opened Alignments
  import opened Innovations
  import opened Genomes

  /** A link gene's state: number, ends, weight and whether it is enabled. */
  datatype LinkValue = LinkValue(number: int, from: NeuronGene, to: NeuronGene, weight: Complex, enabled: bool)

  function ValueOf(l: LinkGene): (v: LinkValue)
    reads l
    ensures v.number == l.innovationNumber && v.enabled == l.enabled
  {
    LinkValue(l.innovationNumber, l.from, l.to, l.weight, l.enabled)
  }

  function Elements(s: seq<LinkGene>): set<LinkGene> {
    set l | l in s
  }

  function ValuesOf(s: seq<LinkGene>): (r: seq<LinkValue>)
    reads Elements(s)
    ensures |r| == |s| && forall k :: 0 <= k < |s| ==> r[k] == ValueOf(s[k])
  {
    seq(|s|, k requires 0 <= k < |s| reads Elements(s) => ValueOf(s[k]))
  }

  function PairValues(ms: seq<(LinkGene, LinkGene)>): (r: seq<(LinkValue, LinkValue)>)
    reads GenesOf(ms)
    ensures |r| == |ms| && forall k :: 0 <= k < |ms| ==> r[k] == (ValueOf(ms[k].0), ValueOf(ms[k].1))
  {
    seq(|ms|, k requires 0 <= k < |ms| reads GenesOf(ms) =>
      assert ms[k] in ms;
      (ValueOf(ms[k].0), ValueOf(ms[k].1)))
  }

  /** A gene table as values. */
  function Snapshot(table: map<int, LinkGene>): (r: map<int, LinkValue>)
    reads table.Values
    ensures r.Keys == table.Keys && forall n :: n in table ==> r[n] == ValueOf(table[n])
  {
    map n | n in table :: ValueOf(table[n])
  }

  // ---------------------------------------------------------------- choices the draws make

  datatype Side = FirstParent | SecondParent

  /** Which parent supplies the disjoint and excess genes: the one with the higher score, and on
      a tie the first when the draw `u` is at most 0.5. */
  function SourceSide(parentScore: real, partnerScore: real, u: real): (s: Side)
    ensures parentScore > partnerScore ==> s == FirstParent
    ensures partnerScore > parentScore ==> s == SecondParent
    ensures parentScore == partnerScore ==> (s == FirstParent <==> u <= 0.5)
  {
    if partnerScore > parentScore then SecondParent
    else if partnerScore == parentScore then (if u <= 0.5 then FirstParent else SecondParent)
    else FirstParent
  }

  /** The unmatched genes of the chosen side. */
  function SideOf<G>(d: Alignment<G>, side: Side): Unmatched<G> {
    if side == FirstParent then d.first else d.second
  }

  /** The weight a match passes on: the mean of both weights when averaging, otherwise the
      first parent's weight when the draw `u` is at most 0.5 and the second's when not. */
  function MatchWeight(averaging: bool, w1: Complex, w2: Complex, u: real): (w: Complex)
    ensures averaging ==> Add(w, w) == Add(w1, w2)
    ensures !averaging ==> (w == w1 || w == w2) && (u <= 0.5 ==> w == w1) && (u > 0.5 ==> w == w2)
  {
    if averaging then Complex((w1.re + w2.re) / 2.0, (w1.im + w2.im) / 2.0)
    else if u <= 0.5 then w1 else w2
  }

  /** How matched genes are combined. `Blending` (the complex and CPPNNEAT genomes): the first
      parent's gene, enabled, with a combined weight, disabled again at rate `disableRate` when
      either parent had it disabled. `Choosing` (the NEATSpaces genome): one parent's gene as it
      is, re-enabled at rate `enableRate` when it was disabled. */
  datatype Mating = Blending(averaging: bool, disableRate: real) | Choosing(enableRate: real)

  /** The copy a match offers the child, given the match's first draw. */
  function MatchChild(p: (LinkValue, LinkValue), mating: Mating, u: real): (c: LinkValue)
    ensures c.number == p.0.number || c.number == p.1.number
    ensures mating.Blending? ==> c == p.0.(enabled := true, weight := MatchWeight(mating.averaging, p.0.weight, p.1.weight, u))
    ensures mating.Choosing? ==> c == if u <= 0.5 then p.1 else p.0
  {
    match mating
    case Blending(averaging, _) => p.0.(enabled := true, weight := MatchWeight(averaging, p.0.weight, p.1.weight, u))
    case Choosing(_) => if u <= 0.5 then p.1 else p.0
  }

  /** Whether the child's copy is toggled afterwards, given the match's draws. */
  predicate Toggles(p: (LinkValue, LinkValue), mating: Mating, draw: (real, real)) {
    match mating
    case Blending(_, rate) => (!p.0.enabled || !p.1.enabled) && draw.1 <= rate
    case Choosing(rate) => !MatchChild(p, mating, draw.0).enabled && draw.1 <= rate
  }

  // ---------------------------------------------------------------- the child's table

  /** `TryAddLinkGene` on values: refused while an enabled gene holds the number. */
  function Offer(m: map<int, LinkValue>, v: LinkValue): (r: map<int, LinkValue>)
    ensures r.Keys == m.Keys + {v.number}
    ensures v.number !in m ==> r == m[v.number := v]
    ensures forall n :: n in m && n != v.number ==> r[n] == m[n]
  {
    if v.number in m && m[v.number].enabled then m else m[v.number := v]
  }

  /** `DisableLinkGene(number)` or `EnableLinkGene(number)` on values. */
  function Toggle(m: map<int, LinkValue>, n: int, enabled: bool): (r: map<int, LinkValue>)
    ensures r.Keys == m.Keys
    ensures n in m ==> r[n] == m[n].(enabled := enabled)
    ensures forall k :: k in m && k != n ==> r[k] == m[k]
  {
    if n in m then m[n := m[n].(enabled := enabled)] else m
  }

  /** One match: its copy is offered, then toggled when the draws say so. */
  function BreedMatch(m: map<int, LinkValue>, p: (LinkValue, LinkValue), mating: Mating, draw: (real, real))
    : map<int, LinkValue>
  {
    var c := MatchChild(p, mating, draw.0);
    var offered := Offer(m, c);
    if Toggles(p, mating, draw) then Toggle(offered, c.number, mating.Choosing?) else offered
  }

  /** The matches in order, the `k`-th with draws `draws(k)`. */
  function Bred(m: map<int, LinkValue>, ps: seq<(LinkValue, LinkValue)>, mating: Mating, draws: nat -> (real, real))
    : map<int, LinkValue>
    decreases |ps|
  {
    if ps == [] then m
    else BreedMatch(Bred(m, ps[..|ps| - 1], mating, draws), ps[|ps| - 1], mating, draws(|ps| - 1))
  }

  /** The unmatched genes of the source, offered in order. */
  function Inherited(m: map<int, LinkValue>, vs: seq<LinkValue>): map<int, LinkValue>
    decreases |vs|
  {
    if vs == [] then m else Offer(Inherited(m, vs[..|vs| - 1]), vs[|vs| - 1])
  }

  /** `Enumerable.Union`: the elements of `x` and then of `y`, each once, in first-seen order. */
  function Union<T(==)>(x: seq<T>, y: seq<T>): (r: seq<T>)
    ensures forall k :: 0 <= k < |r| ==> r[k] in x || r[k] in y
    ensures (forall k :: 0 <= k < |x| ==> x[k] in r) && (forall k :: 0 <= k < |y| ==> y[k] in r)
    ensures NoDuplicates(r)
    ensures NoDuplicates(x + y) ==> r == x + y
  {
    var r := Distinct(x + y);
    assert forall k :: 0 <= k < |x| ==> x[k] == (x + y)[k];
    assert forall k :: 0 <= k < |y| ==> y[k] == (x + y)[|x| + k];
    r
  }

  predicate NoDuplicates<T(==)>(s: seq<T>) {
    forall i, j :: 0 <= i < j < |s| ==> s[i] != s[j]
  }

  function Distinct<T(==)>(s: seq<T>): (r: seq<T>)
    ensures forall k :: 0 <= k < |r| ==> r[k] in s
    ensures forall k :: 0 <= k < |s| ==> s[k] in r
    ensures NoDuplicates(r)
    ensures NoDuplicates(s) ==> r == s
    decreases |s|
  {
    if s == [] then []
    else
      var front := Distinct(s[..|s| - 1]);
      var last := s[|s| - 1];
      assert forall k :: 0 <= k < |s| - 1 ==> s[k] == s[..|s| - 1][k];
      if last in front then front else front + [last]
  }

  /** The disjoint and excess genes of the chosen side, each once. */
  function Inheritance<G(==)>(d: Alignment<G>, side: Side): seq<G> {
    var u := SideOf(d, side);
    Union(u.disjoint, u.excess)
  }

  /** The child's table on values: the matches bred into an empty table, then the source's
      disjoint and excess genes offered. */
  function Offspring(ps: seq<(LinkValue, LinkValue)>, inherited: seq<LinkValue>, mating: Mating,
                     draws: nat -> (real, real)): map<int, LinkValue>
  {
    Inherited(Bred(map[], ps, mating, draws), inherited)
  }

  // ---------------------------------------------------------------- where the genes land

  /** The value a match leaves in the child when no other gene shares its number. */
  function Landed(p: (LinkValue, LinkValue), mating: Mating, draw: (real, real)): (v: LinkValue)
    ensures v.number == MatchChild(p, mating, draw.0).number
    ensures mating.Blending? ==> v.enabled == !Toggles(p, mating, draw)
    ensures mating.Choosing? ==> v.enabled == (MatchChild(p, mating, draw.0).enabled || Toggles(p, mating, draw))
  {
    var c := MatchChild(p, mating, draw.0);
    if Toggles(p, mating, draw) then c.(enabled := mating.Choosing?) else c
  }

  /** Every match pairs genes of one number, and no two matches share it. */
  predicate DistinctMatches(ps: seq<(LinkValue, LinkValue)>) {
    && (forall k :: 0 <= k < |ps| ==> ps[k].0.number == ps[k].1.number)
    && (forall i, j :: 0 <= i < j < |ps| ==> ps[i].0.number != ps[j].0.number)
  }

  function MatchNumbers(ps: seq<(LinkValue, LinkValue)>): set<int> {
    set k | 0 <= k < |ps| :: ps[k].0.number
  }

  /** One match whose number is new to the table adds that number, with the landed value. */
  lemma BreedMatchLands(m: map<int, LinkValue>, p: (LinkValue, LinkValue), mating: Mating, draw: (real, real))
    requires p.0.number == p.1.number && p.0.number !in m
    ensures var r := BreedMatch(m, p, mating, draw);
      && r.Keys == m.Keys + {p.0.number}
      && (forall n :: n in m ==> r[n] == m[n])
      && r[p.0.number] == Landed(p, mating, draw)
  {
  }

  lemma MatchNumbersSnoc(ps: seq<(LinkValue, LinkValue)>)
    requires ps != []
    ensures MatchNumbers(ps) == MatchNumbers(ps[..|ps| - 1]) + {ps[|ps| - 1].0.number}
  {
    var front := ps[..|ps| - 1];
    assert forall k :: 0 <= k < |front| ==> front[k] == ps[k];
    forall n | n in MatchNumbers(ps) ensures n in MatchNumbers(front) + {ps[|ps| - 1].0.number} {
      var k :| 0 <= k < |ps| && ps[k].0.number == n;
      if k < |front| {
        assert front[k].0.number == n;
      }
    }
  }

  /** When every match has a number of its own, each match's gene lands under it, and nothing
      else changes. */
  lemma {:induction false} BredLands(m: map<int, LinkValue>, ps: seq<(LinkValue, LinkValue)>, mating: Mating,
                                     draws: nat -> (real, real))
    requires DistinctMatches(ps) && forall k :: 0 <= k < |ps| ==> ps[k].0.number !in m
    ensures var r := Bred(m, ps, mating, draws);
      && r.Keys == m.Keys + MatchNumbers(ps)
      && (forall n :: n in m ==> r[n] == m[n])
      && (forall k :: 0 <= k < |ps| ==> ps[k].0.number in r && r[ps[k].0.number] == Landed(ps[k], mating, draws(k)))
    decreases |ps|
  {
    if ps != [] {
      var front := ps[..|ps| - 1];
      var last := ps[|ps| - 1];
      FrontMatches(ps);
      BredLands(m, front, mating, draws);
      var before := Bred(m, front, mating, draws);
      BreedMatchLands(before, last, mating, draws(|ps| - 1));
      MatchNumbersSnoc(ps);
      LastLands(before, Bred(m, ps, mating, draws), ps, mating, draws);
    }
  }

  /** Dropping the last match keeps the matches distinct, and the last one's number is new. */
  lemma FrontMatches(ps: seq<(LinkValue, LinkValue)>)
    requires ps != [] && DistinctMatches(ps)
    ensures DistinctMatches(ps[..|ps| - 1]) && ps[|ps| - 1].0.number !in MatchNumbers(ps[..|ps| - 1])
    ensures forall k :: 0 <= k < |ps| - 1 ==> ps[..|ps| - 1][k] == ps[k]
  {
    var front := ps[..|ps| - 1];
    assert forall k :: 0 <= k < |front| ==> front[k] == ps[k];
  }

  /** The step of `BredLands`: the earlier matches keep their values when the last one lands. */
  lemma LastLands(before: map<int, LinkValue>, r: map<int, LinkValue>, ps: seq<(LinkValue, LinkValue)>, mating: Mating,
                  draws: nat -> (real, real))
    requires ps != [] && ps[|ps| - 1].0.number !in before
    requires r.Keys == before.Keys + {ps[|ps| - 1].0.number}
    requires forall k :: 0 <= k < |ps| - 1 ==>
      ps[k].0.number in before && before[ps[k].0.number] == Landed(ps[k], mating, draws(k))
    requires forall n :: n in before ==> r[n] == before[n]
    requires r[ps[|ps| - 1].0.number] == Landed(ps[|ps| - 1], mating, draws(|ps| - 1))
    ensures forall k :: 0 <= k < |ps| ==> ps[k].0.number in r && r[ps[k].0.number] == Landed(ps[k], mating, draws(k))
  {
    forall k | 0 <= k < |ps| ensures ps[k].0.number in r && r[ps[k].0.number] == Landed(ps[k], mating, draws(k)) {
      if k < |ps| - 1 {
        assert r[ps[k].0.number] == before[ps[k].0.number];
      }
    }
  }

  function ValueNumbers(vs: seq<LinkValue>): set<int> {
    set k | 0 <= k < |vs| :: vs[k].number
  }

  lemma ValueNumbersSnoc(vs: seq<LinkValue>)
    requires vs != []
    ensures ValueNumbers(vs) == ValueNumbers(vs[..|vs| - 1]) + {vs[|vs| - 1].number}
  {
    var front := vs[..|vs| - 1];
    assert forall k :: 0 <= k < |front| ==> front[k] == vs[k];
    forall n | n in ValueNumbers(vs) ensures n in ValueNumbers(front) + {vs[|vs| - 1].number} {
      var k :| 0 <= k < |vs| && vs[k].number == n;
      if k < |front| {
        assert front[k].number == n;
      }
    }
  }

  /** Values of pairwise distinct numbers, none already in the table, each land under their
      own number. */
  lemma {:induction false} InheritedLands(m: map<int, LinkValue>, vs: seq<LinkValue>)
    requires forall i, j :: 0 <= i < j < |vs| ==> vs[i].number != vs[j].number
    requires forall k :: 0 <= k < |vs| ==> vs[k].number !in m
    ensures var r := Inherited(m, vs);
      && r.Keys == m.Keys + ValueNumbers(vs)
      && (forall n :: n in m ==> r[n] == m[n])
      && (forall k :: 0 <= k < |vs| ==> vs[k].number in r && r[vs[k].number] == vs[k])
    decreases |vs|
  {
    if vs != [] {
      var front := vs[..|vs| - 1];
      assert forall k :: 0 <= k < |front| ==> front[k] == vs[k];
      InheritedLands(m, front);
      assert vs[|vs| - 1].number !in ValueNumbers(front);
      ValueNumbersSnoc(vs);
      LastInherited(m, Inherited(m, front), vs);
    }
  }

  /** The step of `InheritedLands`: offering the last value keeps what the earlier ones left. */
  lemma LastInherited(m: map<int, LinkValue>, before: map<int, LinkValue>, vs: seq<LinkValue>)
    requires vs != [] && vs[|vs| - 1].number !in before
    requires before.Keys == m.Keys + ValueNumbers(vs[..|vs| - 1])
    requires ValueNumbers(vs) == ValueNumbers(vs[..|vs| - 1]) + {vs[|vs| - 1].number}
    requires forall n :: n in m ==> before[n] == m[n]
    requires forall k :: 0 <= k < |vs| - 1 ==> vs[k].number in before && before[vs[k].number] == vs[k]
    ensures var r := Offer(before, vs[|vs| - 1]);
      && r.Keys == m.Keys + ValueNumbers(vs)
      && (forall n :: n in m ==> r[n] == m[n])
      && (forall k :: 0 <= k < |vs| ==> vs[k].number in r && r[vs[k].number] == vs[k])
  {
    var last := vs[|vs| - 1];
    var r := Offer(before, last);
    forall k | 0 <= k < |vs| ensures vs[k].number in r && r[vs[k].number] == vs[k] {
      if k < |vs| - 1 {
        assert r[vs[k].number] == before[vs[k].number];
      }
    }
  }

  // ---------------------------------------------------------------- the constructor

  lemma SnapshotUpdate(table: map<int, LinkGene>, gene: LinkGene)
    ensures Snapshot(table[gene.innovationNumber := gene]) == Snapshot(table)[gene.innovationNumber := ValueOf(gene)]
  {
  }

  /** Storing `gene` under `n` adds no value but `gene`. */
  lemma StoredValues(table: map<int, LinkGene>, n: int, gene: LinkGene)
    ensures forall l :: l in table[n := gene].Values ==> l in table.Values || l == gene
  {
    var m := table[n := gene];
    forall k | k in m
      ensures m[k] in table.Values || m[k] == gene
    {
      if k != n {
        assert m[k] == table[k];
      }
    }
  }

  /** A table that differs from `before` only in the enabled flag of entry `n` is `Toggle`'s. */
  lemma ToggledEntries(before: map<int, LinkValue>, after: map<int, LinkValue>, n: int, enabled: bool)
    requires after.Keys == before.Keys
    requires forall k :: k in after ==> after[k] == if k == n then before[k].(enabled := enabled) else before[k]
    ensures after == Toggle(before, n, enabled)
  {
  }

  /** `DisableLinkGene(number)` on the child. */
  method DisableStep(child: GeneCollection, n: int)
    requires child.Valid()
    modifies child, child.linkGeneMap.Values
    ensures child.Valid() && child.linkGeneMap == old(child.linkGeneMap)
    ensures Snapshot(child.linkGeneMap) == Toggle(old(Snapshot(child.linkGeneMap)), n, false)
  {
    ghost var before := Snapshot(child.linkGeneMap);
    var r := child.DisableLinkGeneByNumber(n);
    ghost var table := child.linkGeneMap;
    forall k | k in table ensures Snapshot(table)[k] == if k == n then before[k].(enabled := false) else before[k] {
      var l := table[k];
      assert l in table.Values && l.innovationNumber == k;
      if k == n {
        assert r.Success? && l.enabled == false;
      } else {
        assert r.Failure? || l != table[n];
      }
    }
    ToggledEntries(before, Snapshot(table), n, false);
  }

  /** `EnableLinkGene(number)` on the child. */
  method EnableStep(child: GeneCollection, n: int)
    requires child.Valid()
    modifies child, child.linkGeneMap.Values
    ensures child.Valid() && child.linkGeneMap == old(child.linkGeneMap)
    ensures Snapshot(child.linkGeneMap) == Toggle(old(Snapshot(child.linkGeneMap)), n, true)
  {
    ghost var before := Snapshot(child.linkGeneMap);
    var r := child.EnableLinkGeneByNumber(n);
    ghost var table := child.linkGeneMap;
    forall k | k in table ensures Snapshot(table)[k] == if k == n then before[k].(enabled := true) else before[k] {
      var l := table[k];
      assert l in table.Values && l.innovationNumber == k;
      if k == n {
        assert r.Success? && l.enabled == true;
      } else {
        assert r.Failure? || l != table[n];
      }
    }
    ToggledEntries(before, Snapshot(table), n, true);
  }

  /** `TryAddLinkGene(gene)`, then, when `toggle` is set, `EnableLinkGene` (`enable` set) or
      `DisableLinkGene` of its number. */
  method OfferToggled(child: GeneCollection, gene: LinkGene, toggle: bool, enable: bool)
    requires child.Valid()
    modifies child, child.linkGeneMap.Values, gene
    ensures child.Valid()
    ensures Snapshot(child.linkGeneMap)
         == var offered := Offer(old(Snapshot(child.linkGeneMap)), old(ValueOf(gene)));
            if toggle then Toggle(offered, gene.innovationNumber, enable) else offered
    ensures forall l :: l in child.linkGeneMap.Values ==> l in old(child.linkGeneMap.Values) || l == gene
  {
    OfferGene(child, gene);
    if toggle {
      if enable {
        EnableStep(child, gene.innovationNumber);
      } else {
        DisableStep(child, gene.innovationNumber);
      }
    }
  }

  /** `TryAddLinkGene(gene)`: the child's values take the gene's as `Offer` says. */
  method OfferGene(child: GeneCollection, gene: LinkGene)
    requires child.Valid()
    modifies child
    ensures child.Valid()
    ensures Snapshot(child.linkGeneMap) == Offer(old(Snapshot(child.linkGeneMap)), ValueOf(gene))
    ensures forall l :: l in child.linkGeneMap.Values ==> l in old(child.linkGeneMap.Values) || l == gene
  {
    ghost var before := child.linkGeneMap;
    ghost var snap, v := Snapshot(before), ValueOf(gene);
    var added := child.TryAddLinkGene(gene);
    assert Snapshot(before) == snap && ValueOf(gene) == v;
    Offered(before, gene, added, child.linkGeneMap);
  }

  /** The table `TryAddLinkGene` leaves, on values: `Offer` of the gene's value. */
  lemma Offered(before: map<int, LinkGene>, gene: LinkGene, added: bool, after: map<int, LinkGene>)
    requires added <==> !(gene.innovationNumber in before && before[gene.innovationNumber].enabled)
    requires after == if added then before[gene.innovationNumber := gene] else before
    ensures Snapshot(after) == Offer(Snapshot(before), ValueOf(gene))
    ensures forall l :: l in after.Values ==> l in before.Values || l == gene
  {
    if added {
      SnapshotUpdate(before, gene);
      StoredValues(before, gene.innovationNumber, gene);
    }
  }

  /** One turn of the loop over the matches: the copy is added, then disabled (blending) or
      enabled (choosing) when the draws say so. */
  method BreedStep(child: GeneCollection, p: (LinkGene, LinkGene), mating: Mating, draw: (real, real))
    requires child.Valid() && p.0 !in child.linkGeneMap.Values && p.1 !in child.linkGeneMap.Values
    modifies child, child.linkGeneMap.Values
    ensures child.Valid()
    ensures Snapshot(child.linkGeneMap)
         == BreedMatch(old(Snapshot(child.linkGeneMap)), (ValueOf(p.0), ValueOf(p.1)), mating, draw)
    ensures forall l :: l in child.linkGeneMap.Values ==> l in old(child.linkGeneMap.Values) || fresh(l)
  {
    match mating {
      case Blending(averaging, rate) => BlendStep(child, p, averaging, rate, draw);
      case Choosing(rate) => ChooseStep(child, p, rate, draw);
    }
  }

  /** The turn of the complex and CPPNNEAT genomes. */
  method BlendStep(child: GeneCollection, p: (LinkGene, LinkGene), averaging: bool, rate: real, draw: (real, real))
    requires child.Valid() && p.0 !in child.linkGeneMap.Values && p.1 !in child.linkGeneMap.Values
    modifies child, child.linkGeneMap.Values
    ensures child.Valid()
    ensures Snapshot(child.linkGeneMap)
         == BreedMatch(old(Snapshot(child.linkGeneMap)), (ValueOf(p.0), ValueOf(p.1)), Blending(averaging, rate), draw)
    ensures forall l :: l in child.linkGeneMap.Values ==> l in old(child.linkGeneMap.Values) || fresh(l)
  {
    var gene := BlendedCopy(p, averaging, rate, draw.0);
    OfferToggled(child, gene, (!p.0.enabled || !p.1.enabled) && draw.1 <= rate, false);
  }

  /** The first parent's gene copied, enabled, with the combined weight. */
  method BlendedCopy(p: (LinkGene, LinkGene), averaging: bool, rate: real, u: real) returns (gene: LinkGene)
    ensures fresh(gene)
    ensures ValueOf(gene) == MatchChild((ValueOf(p.0), ValueOf(p.1)), Blending(averaging, rate), u)
  {
    gene := p.0.Copy();
    gene.enabled := true;
    gene.weight := MatchWeight(averaging, p.0.weight, p.1.weight, u);
  }

  /** The turn of the NEATSpaces genome. */
  method ChooseStep(child: GeneCollection, p: (LinkGene, LinkGene), rate: real, draw: (real, real))
    requires child.Valid() && p.0 !in child.linkGeneMap.Values && p.1 !in child.linkGeneMap.Values
    modifies child, child.linkGeneMap.Values
    ensures child.Valid()
    ensures Snapshot(child.linkGeneMap)
         == BreedMatch(old(Snapshot(child.linkGeneMap)), (ValueOf(p.0), ValueOf(p.1)), Choosing(rate), draw)
    ensures forall l :: l in child.linkGeneMap.Values ==> l in old(child.linkGeneMap.Values) || fresh(l)
  {
    var gene := ChosenCopy(p, rate, draw.0);
    OfferToggled(child, gene, !gene.enabled && draw.1 <= rate, true);
  }

  /** A copy of one parent's gene, the second's when the draw is at most one half. */
  method ChosenCopy(p: (LinkGene, LinkGene), rate: real, u: real) returns (gene: LinkGene)
    ensures fresh(gene)
    ensures ValueOf(gene) == MatchChild((ValueOf(p.0), ValueOf(p.1)), Choosing(rate), u)
  {
    var geneToCopy := if u <= 0.5 then p.1 else p.0;
    gene := geneToCopy.Copy();
  }

  /** `TryAddLinkGene(gene.Copy())`, for a disjoint or excess gene of the source. */
  method InheritStep(child: GeneCollection, gene: LinkGene)
    requires child.Valid()
    modifies child
    ensures child.Valid()
    ensures Snapshot(child.linkGeneMap) == Offer(old(Snapshot(child.linkGeneMap)), ValueOf(gene))
    ensures forall l :: l in child.linkGeneMap.Values ==> l in old(child.linkGeneMap.Values) || fresh(l)
  {
    var c := gene.Copy();
    OfferGene(child, c);
  }

  /** The step of `BreedAll`: breeding the next match extends the bred prefix by one. */
  lemma BredStepLands(before: map<int, LinkValue>, after: map<int, LinkValue>, ps: seq<(LinkValue, LinkValue)>,
                      i: nat, mating: Mating, draws: nat -> (real, real))
    requires i < |ps| && before == Bred(map[], ps[..i], mating, draws)
    requires after == BreedMatch(before, ps[i], mating, draws(i))
    ensures after == Bred(map[], ps[..i + 1], mating, draws)
  {
    BredNext(map[], ps, i, mating, draws);
  }

  lemma BredNext(m: map<int, LinkValue>, ps: seq<(LinkValue, LinkValue)>, i: nat, mating: Mating,
                 draws: nat -> (real, real))
    requires i < |ps|
    ensures Bred(m, ps[..i + 1], mating, draws) == BreedMatch(Bred(m, ps[..i], mating, draws), ps[i], mating, draws(i))
  {
    assert ps[..i + 1][..i] == ps[..i];
  }

  lemma InheritedNext(m: map<int, LinkValue>, vs: seq<LinkValue>, j: nat)
    requires j < |vs|
    ensures Inherited(m, vs[..j + 1]) == Offer(Inherited(m, vs[..j]), vs[j])
  {
    assert vs[..j + 1][..j] == vs[..j];
  }

  /** The child collection built from the matches and the inherited genes. */
  method BuildChild(ga: BaseCPPNNEATGA, ms: seq<(LinkGene, LinkGene)>, inherited: seq<LinkGene>, mating: Mating,
                    draws: nat -> (real, real))
    returns (child: GeneCollection)
    ensures Snapshot(child.linkGeneMap) == Offspring(PairValues(ms), ValuesOf(inherited), mating, draws)
    ensures forall l :: l in child.linkGeneMap.Values ==> fresh(l)
    ensures fresh(child) && child.ga == ga && child.Valid()
  {
    child := new GeneCollection(ga);
    ghost var pairs := PairValues(ms);
    ghost var values := ValuesOf(inherited);
    ghost var parents := GenesOf(ms) + Elements(inherited);
    BreedAll(child, ms, mating, draws, parents);
    InheritAll(child, inherited, parents);
    assert Snapshot(child.linkGeneMap) == Inherited(Bred(map[], pairs, mating, draws), values);
  }

  /** The loop over the matches. */
  method BreedAll(child: GeneCollection, ms: seq<(LinkGene, LinkGene)>, mating: Mating, draws: nat -> (real, real),
                  ghost parents: set<LinkGene>)
    requires child.Valid() && child.linkGeneMap == map[] && GenesOf(ms) <= parents
    modifies child
    ensures child.Valid() && unchanged(parents)
    ensures forall l :: l in child.linkGeneMap.Values ==> fresh(l)
    ensures Snapshot(child.linkGeneMap) == Bred(map[], PairValues(ms), mating, draws)
  {
    ghost var pairs := PairValues(ms);
    var i := 0;
    while i < |ms|
      invariant 0 <= i <= |ms|
      invariant child.Valid()
      invariant forall l :: l in child.linkGeneMap.Values ==> fresh(l)
      invariant Snapshot(child.linkGeneMap) == Bred(map[], pairs[..i], mating, draws)
      invariant unchanged(parents)
    {
      assert ms[i] in ms && ms[i].0 in parents && ms[i].1 in parents;
      ghost var before := Snapshot(child.linkGeneMap);
      BreedStep(child, ms[i], mating, draws(i));
      assert (ValueOf(ms[i].0), ValueOf(ms[i].1)) == pairs[i];
      BredStepLands(before, Snapshot(child.linkGeneMap), pairs, i, mating, draws);
      i := i + 1;
    }
    assert pairs[..i] == pairs;
    assert PairValues(ms) == pairs;
  }

  /** The loop over the source's disjoint and excess genes. */
  method InheritAll(child: GeneCollection, inherited: seq<LinkGene>, ghost parents: set<LinkGene>)
    requires child.Valid()
    modifies child
    ensures child.Valid() && unchanged(parents)
    ensures forall l :: l in child.linkGeneMap.Values ==> l in old(child.linkGeneMap.Values) || fresh(l)
    ensures Snapshot(child.linkGeneMap) == Inherited(old(Snapshot(child.linkGeneMap)), old(ValuesOf(inherited)))
  {
    ghost var values := ValuesOf(inherited);
    ghost var start := Snapshot(child.linkGeneMap);
    ghost var held := child.linkGeneMap.Values;
    var j := 0;
    while j < |inherited|
      invariant 0 <= j <= |inherited|
      invariant child.Valid()
      invariant forall l :: l in child.linkGeneMap.Values ==> l in held || fresh(l)
      invariant Snapshot(child.linkGeneMap) == Inherited(start, values[..j])
    {
      InheritNext(child, inherited[j], start, values, j);
      j := j + 1;
    }
    assert values[..j] == values;
  }

  /** One turn of the loop of `InheritAll`: offering `gene`, the `j`-th of the inherited
      genes, extends the inherited prefix by one. */
  method InheritNext(child: GeneCollection, gene: LinkGene, ghost start: map<int, LinkValue>,
                     ghost values: seq<LinkValue>, ghost j: nat)
    requires child.Valid() && j < |values| && ValueOf(gene) == values[j]
    requires Snapshot(child.linkGeneMap) == Inherited(start, values[..j])
    modifies child
    ensures child.Valid()
    ensures forall l :: l in child.linkGeneMap.Values ==> l in old(child.linkGeneMap.Values) || fresh(l)
    ensures Snapshot(child.linkGeneMap) == Inherited(start, values[..j + 1])
  {
    InheritStep(child, gene);
    InheritedNext(start, values, j);
  }

  /** The child's genes bred from two parents' tables, the unmatched ones from `side`. */
  function ChildTable(t1: map<int, LinkGene>, t2: map<int, LinkGene>, side: Side, mating: Mating,
                      draws: nat -> (real, real)): map<int, LinkValue>
    reads t1.Values, t2.Values
  {
    var d := Align(SortedLinks(t1), SortedLinks(t2), Number);
    WalkedGenes(t1, t2, side);
    WalkTable(d, side, mating, draws)
  }

  /** The child's genes bred from a walk `d`, the unmatched ones from `side`. */
  function WalkTable(d: Alignment<LinkGene>, side: Side, mating: Mating, draws: nat -> (real, real)): map<int, LinkValue>
    reads GenesOf(d.matches), Elements(Inheritance(d, side))
  {
    Offspring(PairValues(d.matches), ValuesOf(Inheritance(d, side)), mating, draws)
  }

  /** Every gene the walk over two tables files comes from one of the tables. */
  lemma WalkedGenes(t1: map<int, LinkGene>, t2: map<int, LinkGene>, side: Side)
    ensures var d := Align(SortedLinks(t1), SortedLinks(t2), Number);
      GenesOf(d.matches) <= t1.Values + t2.Values && Elements(Inheritance(d, side)) <= t1.Values + t2.Values
  {
    var a, b := SortedLinks(t1), SortedLinks(t2);
    WalkGenes(a, b, side);
    assert Elements(a) <= t1.Values && Elements(b) <= t2.Values;
  }

  /** Every gene the walk over two lists files comes from one of the lists. */
  lemma WalkGenes(a: seq<LinkGene>, b: seq<LinkGene>, side: Side)
    ensures var d := Align(a, b, Number);
      GenesOf(d.matches) <= Elements(a) + Elements(b) && Elements(Inheritance(d, side)) <= Elements(a) + Elements(b)
  {
    var d := Align(a, b, Number);
    FiledGenes(a, b);
    forall g | g in GenesOf(d.matches)
      ensures g in Elements(a) + Elements(b)
    {
      var p :| p in d.matches && (g == p.0 || g == p.1);
      var k :| 0 <= k < |d.matches| && d.matches[k] == p;
    }
    var u := Inheritance(d, side);
    forall g | g in Elements(u)
      ensures g in Elements(a) + Elements(b)
    {
      var k :| 0 <= k < |u| && u[k] == g;
      assert g in SideOf(d, side).disjoint || g in SideOf(d, side).excess;
    }
  }

  /** A partition files only genes of the two lists. */
  lemma FiledGenes(a: seq<LinkGene>, b: seq<LinkGene>)
    ensures var d := Align(a, b, Number);
      && (forall k :: 0 <= k < |d.matches| ==> d.matches[k].0 in a && d.matches[k].1 in b)
      && (forall g :: g in d.first.disjoint || g in d.first.excess ==> g in a)
      && (forall g :: g in d.second.disjoint || g in d.second.excess ==> g in b)
  {
    var d := Align(a, b, Number);
    AlignPartitions(a, b, Number);
    forall k | 0 <= k < |d.matches|
      ensures d.matches[k].0 in a && d.matches[k].1 in b
    {
      assert Firsts(d.matches)[k] in multiset(a);
      assert Seconds(d.matches)[k] in multiset(b);
    }
    forall g | g in d.first.disjoint || g in d.first.excess
      ensures g in a
    {
      assert g in multiset(a);
    }
    forall g | g in d.second.disjoint || g in d.second.excess
      ensures g in b
    {
      assert g in multiset(b);
    }
  }

  /** The crossover constructor: the walk over both parents' genes (which fails as
      `DifferenceAnalysis` does when a parent's sorted view was never filled), the side that
      supplies the unmatched genes, the matches bred in order, then the side's disjoint and
      excess genes copied. `sideDraw` is the draw that settles a tie, `draws(k)` the draws of
      the `k`-th match. */
  method Crossover(ga: BaseCPPNNEATGA, parent: GeneCollection, parentScore: real, partner: GeneCollection,
                   partnerScore: real, mating: Mating, sideDraw: real, draws: nat -> (real, real))
    returns (r: Result<GeneCollection>)
    requires parent.Valid() && partner.Valid()
    modifies parent, partner
    ensures parent.Valid() && partner.Valid() && Kept(parent) && Kept(partner)
    ensures r.Failure? <==> old(Unfilled(parent)) || old(Unfilled(partner))
    ensures r.Failure? ==> r.error == "NullReferenceException"
    ensures r.Success? ==> fresh(r.value) && r.value.Valid() && r.value.ga == ga
    ensures r.Success? ==> forall l :: l in r.value.linkGeneMap.Values ==> fresh(l)
    ensures r.Success? ==> !Unfilled(parent) && !Unfilled(partner)
    ensures r.Success? ==>
      Snapshot(r.value.linkGeneMap) == ChildTable(parent.linkGeneMap, partner.linkGeneMap,
                                                  SourceSide(parentScore, partnerScore, sideDraw), mating, draws)
    ensures r.Success? ==>
      r.value.linkGeneMap.Keys
      == ParentTable(parent.linkGeneMap, partner.linkGeneMap, SourceSide(parentScore, partnerScore, sideDraw)).Keys
  {
    var differences := CollectionDifferences(parent, partner);
    if differences.Failure? {
      return Failure(differences.error);
    }
    var d := differences.value;
    var side := SourceSide(parentScore, partnerScore, sideDraw);
    var child := Breed(ga, parent, partner, d, side, mating, draws);
    OffspringGenes(parent.linkGeneMap, partner.linkGeneMap, side, mating, draws);
    r := Success(child);
  }

  /** One crossover constructor run over a walk `d` of the two parents: the child's table is
      `ChildTable` of the parents'. */
  method Breed(ga: BaseCPPNNEATGA, parent: GeneCollection, partner: GeneCollection, d: Alignment<LinkGene>,
               side: Side, mating: Mating, draws: nat -> (real, real))
    returns (child: GeneCollection)
    requires d == Align(SortedLinks(parent.linkGeneMap), SortedLinks(partner.linkGeneMap), Number)
    ensures fresh(child) && child.Valid() && child.ga == ga
    ensures forall l :: l in child.linkGeneMap.Values ==> fresh(l)
    ensures Snapshot(child.linkGeneMap) == ChildTable(parent.linkGeneMap, partner.linkGeneMap, side, mating, draws)
  {
    child := BuildChild(ga, d.matches, Inheritance(d, side), mating, draws);
  }

  /** A well-formed child of `ga` whose table holds `table`. */
  ghost predicate Built(child: GeneCollection, ga: BaseCPPNNEATGA, table: map<int, LinkValue>)
    reads child, child.linkGeneMap.Values
  {
    child.Valid() && child.ga == ga && Snapshot(child.linkGeneMap) == table
  }

  /** Two crossover constructor runs over the same walk `d`, each with its own side and draws.
      (`Built(...) == true` is `Built(...)`, checked as one obligation.) */
  method BreedTwins(ga: BaseCPPNNEATGA, d: Alignment<LinkGene>, side1: Side, side2: Side, mating: Mating,
                    draws1: nat -> (real, real), draws2: nat -> (real, real))
    returns (child1: GeneCollection, child2: GeneCollection)
    ensures fresh(child1) && fresh(child2) && child1 != child2
    ensures Built(child1, ga, WalkTable(d, side1, mating, draws1)) == true
    ensures Built(child2, ga, WalkTable(d, side2, mating, draws2)) == true
  {
    child1 := BuildChild(ga, d.matches, Inheritance(d, side1), mating, draws1);
    child2 := BuildBeside(ga, d, side2, mating, draws2, child1, side1, draws1);
  }

  /** The second run of `BreedTwins`: it leaves the first child's table, and the walk's genes,
      as they were. */
  method BuildBeside(ga: BaseCPPNNEATGA, d: Alignment<LinkGene>, side: Side, mating: Mating, draws: nat -> (real, real),
                     ghost first: GeneCollection, ghost firstSide: Side, ghost firstDraws: nat -> (real, real))
    returns (child: GeneCollection)
    requires Built(first, ga, WalkTable(d, firstSide, mating, firstDraws)) == true
    ensures fresh(child) && Built(child, ga, WalkTable(d, side, mating, draws)) == true
    ensures Built(first, ga, WalkTable(d, firstSide, mating, firstDraws)) == true
  {
    ghost var table := Snapshot(first.linkGeneMap);
    child := BuildKeeping(ga, d, side, mating, draws, firstSide);
    assert Snapshot(first.linkGeneMap) == table;
  }

  /** `BuildChild` over the walk `d`: the values of the genes the walk gives `firstSide` stay
      as they were. */
  method BuildKeeping(ga: BaseCPPNNEATGA, d: Alignment<LinkGene>, side: Side, mating: Mating, draws: nat -> (real, real),
                      ghost firstSide: Side)
    returns (child: GeneCollection)
    ensures fresh(child) && Built(child, ga, WalkTable(d, side, mating, draws)) == true
    ensures PairValues(d.matches) == old(PairValues(d.matches))
    ensures ValuesOf(Inheritance(d, firstSide)) == old(ValuesOf(Inheritance(d, firstSide)))
  {
    ghost var pairs, values := PairValues(d.matches), ValuesOf(Inheritance(d, firstSide));
    child := BuildChild(ga, d.matches, Inheritance(d, side), mating, draws);
    assert PairValues(d.matches) == pairs && ValuesOf(Inheritance(d, firstSide)) == values;
  }

  /** `InnerCrossover` of NEATSpacesLibrary: two children from the same two parents, each bred
      by the crossover constructor with its own draws. Each constructor walks the parents' genes;
      the walks touch only the parents' sorted views and the breeding only the new child, so the
      model makes both walks before breeding. */
  method InnerCrossover(ga: BaseCPPNNEATGA, parent: GeneCollection, parentScore: real, partner: GeneCollection,
                        partnerScore: real, mating: Mating, sideDraws: (real, real),
                        draws1: nat -> (real, real), draws2: nat -> (real, real))
    returns (r: Result<seq<GeneCollection>>)
    requires parent.Valid() && partner.Valid()
    modifies parent, partner
    ensures parent.Valid() && partner.Valid() && Kept(parent) && Kept(partner)
    ensures r.Failure? <==> old(Unfilled(parent)) || old(Unfilled(partner))
    ensures r.Success? ==> |r.value| == 2 && r.value[0] != r.value[1]
    ensures r.Success? ==> fresh(r.value[0]) && r.value[0].Valid() && r.value[0].ga == ga
    ensures r.Success? ==> fresh(r.value[1]) && r.value[1].Valid() && r.value[1].ga == ga
    ensures r.Success? ==>
      && Snapshot(r.value[0].linkGeneMap) == ChildTable(parent.linkGeneMap, partner.linkGeneMap,
                                                        SourceSide(parentScore, partnerScore, sideDraws.0), mating, draws1)
      && Snapshot(r.value[1].linkGeneMap) == ChildTable(parent.linkGeneMap, partner.linkGeneMap,
                                                        SourceSide(parentScore, partnerScore, sideDraws.1), mating, draws2)
  {
    var first := CollectionDifferences(parent, partner);
    if first.Failure? {
      return Failure(first.error);
    }
    var second := CollectionDifferences(parent, partner);
    assert second == first;
    var child1, child2 := BreedTwins(ga, second.value, SourceSide(parentScore, partnerScore, sideDraws.0),
                                     SourceSide(parentScore, partnerScore, sideDraws.1), mating, draws1, draws2);
    r := Success([child1, child2]);
  }

  // ---------------------------------------------------------------- the child against its parents

  /** A gene table keyed by innovation number, as every valid collection's is. */
  predicate Numbered(table: map<int, LinkGene>) {
    forall k :: k in table ==> table[k].innovationNumber == k
  }

  function ParentTable(t1: map<int, LinkGene>, t2: map<int, LinkGene>, side: Side): map<int, LinkGene> {
    if side == FirstParent then t1 else t2
  }

  /** The chosen side's genes as the walk files them: its halves of the matches, then its
      disjoint and excess genes. */
  function Parts(d: Alignment<LinkGene>, side: Side): seq<LinkGene> {
    var u := SideOf(d, side);
    (if side == FirstParent then Firsts(d.matches) else Seconds(d.matches)) + u.disjoint + u.excess
  }

  /** An ascending list holds no element twice. */
  lemma {:induction false} AscendingOnce(s: seq<LinkGene>, x: LinkGene)
    requires Ascending(s, Number)
    ensures multiset(s)[x] <= 1
    decreases |s|
  {
    if s != [] {
      AscendingTail(s, Number);
      AscendingOnce(s[1..], x);
      assert s == [s[0]] + s[1..];
      assert multiset(s) == multiset{s[0]} + multiset(s[1..]);
      if x == s[0] {
        assert x !in s[1..];
      }
    }
  }

  lemma RepeatCounted<T>(w: seq<T>, i: nat, j: nat)
    requires i < j < |w| && w[i] == w[j]
    ensures multiset(w)[w[i]] >= 2
  {
    assert w == w[..j] + [w[j]] + w[j + 1..];
    assert w[i] == w[..j][i];
    assert multiset(w) == multiset(w[..j]) + multiset{w[j]} + multiset(w[j + 1..]);
  }

  /** A rearrangement of an ascending list has pairwise distinct numbers, the same ones. */
  lemma RearrangedNumbers(all: seq<LinkGene>, w: seq<LinkGene>)
    requires Ascending(all, Number) && multiset(w) == multiset(all)
    ensures forall i, j :: 0 <= i < j < |w| ==> Number(w[i]) != Number(w[j])
    ensures Alignments.Numbers(w, Number) == Alignments.Numbers(all, Number)
  {
    forall i, j | 0 <= i < j < |w| ensures Number(w[i]) != Number(w[j]) {
      if Number(w[i]) == Number(w[j]) {
        assert w[i] in multiset(all) && w[j] in multiset(all);
        var p :| 0 <= p < |all| && all[p] == w[i];
        var q :| 0 <= q < |all| && all[q] == w[j];
        assert p == q;
        RepeatCounted(w, i, j);
        AscendingOnce(all, w[i]);
        assert false;
      }
    }
    forall n | n in Alignments.Numbers(w, Number) ensures n in Alignments.Numbers(all, Number) {
      var k :| 0 <= k < |w| && Number(w[k]) == n;
      assert w[k] in multiset(all);
      var p :| 0 <= p < |all| && all[p] == w[k];
    }
    forall n | n in Alignments.Numbers(all, Number) ensures n in Alignments.Numbers(w, Number) {
      var p :| 0 <= p < |all| && Number(all[p]) == n;
      assert all[p] in multiset(w);
      var k :| 0 <= k < |w| && w[k] == all[p];
    }
  }

  /** The sorted view of a numbered table: its numbers are the keys, each under its own key. */
  lemma SortedNumbers(table: map<int, LinkGene>)
    requires Numbered(table)
    ensures Alignments.Numbers(SortedLinks(table), Number) == table.Keys
    ensures forall l :: l in SortedLinks(table) ==> Number(l) in table && table[Number(l)] == l
  {
    var s := SortedLinks(table);
    SortedHolds(table, s);
    forall l | l in s ensures Number(l) in table && table[Number(l)] == l {
      var n :| n in table && table[n] == l;
    }
  }

  lemma SortedHolds(table: map<int, LinkGene>, s: seq<LinkGene>)
    requires Numbered(table) && forall l :: l in s <==> l in table.Values
    ensures Alignments.Numbers(s, Number) == table.Keys
  {
    forall n | n in table ensures n in Alignments.Numbers(s, Number) {
      assert table[n] in table.Values;
      var k :| 0 <= k < |s| && s[k] == table[n];
    }
    forall n | n in Alignments.Numbers(s, Number) ensures n in table {
      var k :| 0 <= k < |s| && Number(s[k]) == n;
      assert s[k] in table.Values;
    }
  }

  /** The walk files the chosen side's genes once each: a rearrangement of its sorted view. */
  lemma PartsRearrange(t1: map<int, LinkGene>, t2: map<int, LinkGene>, side: Side)
    requires Numbered(t1) && Numbered(t2)
    ensures var d := Align(SortedLinks(t1), SortedLinks(t2), Number);
      multiset(Parts(d, side)) == multiset(SortedLinks(ParentTable(t1, t2, side)))
  {
    var d := Align(SortedLinks(t1), SortedLinks(t2), Number);
    AlignPartitions(SortedLinks(t1), SortedLinks(t2), Number);
  }

  /** The unmatched genes of the chosen side, disjoint first. */
  function Rest(d: Alignment<LinkGene>, side: Side): seq<LinkGene> {
    SideOf(d, side).disjoint + SideOf(d, side).excess
  }

  /** How the parts line up with the matches and the rest. */
  lemma PartsLayout(d: Alignment<LinkGene>, side: Side)
    requires Agree(d.matches, Number)
    ensures var w := Parts(d, side);
      && |w| == |d.matches| + |Rest(d, side)|
      && (forall k :: 0 <= k < |d.matches| ==> Number(w[k]) == Number(d.matches[k].0))
      && (forall k :: 0 <= k < |Rest(d, side)| ==> w[|d.matches| + k] == Rest(d, side)[k])
  {
    var u := SideOf(d, side);
    assert Parts(d, side) == (if side == FirstParent then Firsts(d.matches) else Seconds(d.matches)) + Rest(d, side);
  }

  /** Pairwise distinct numbers over the parts give the value-level conditions under which
      every gene lands under its own number. */
  lemma DistinctParts(d: Alignment<LinkGene>, side: Side)
    requires Agree(d.matches, Number)
    requires var w := Parts(d, side); forall i, j :: 0 <= i < j < |w| ==> Number(w[i]) != Number(w[j])
    ensures var ps := PairValues(d.matches); var vs := ValuesOf(Inheritance(d, side));
      && Inheritance(d, side) == Rest(d, side)
      && DistinctMatches(ps)
      && (forall i, j :: 0 <= i < j < |vs| ==> vs[i].number != vs[j].number)
      && (forall k :: 0 <= k < |vs| ==> vs[k].number !in MatchNumbers(ps))
      && MatchNumbers(ps) + ValueNumbers(vs) == Alignments.Numbers(Parts(d, side), Number)
  {
    PartsLayout(d, side);
    RestOnce(d, side);
    MatchesDistinct(d, side);
    RestDistinct(d, side);
    PartsNumbers(d, side);
  }

  lemma RestOnce(d: Alignment<LinkGene>, side: Side)
    requires Agree(d.matches, Number)
    requires var w := Parts(d, side); forall i, j :: 0 <= i < j < |w| ==> Number(w[i]) != Number(w[j])
    ensures Inheritance(d, side) == Rest(d, side)
  {
    var w := Parts(d, side);
    var m := |d.matches|;
    var rest := Rest(d, side);
    PartsLayout(d, side);
    assert NoDuplicates(rest) by {
      forall i, j | 0 <= i < j < |rest| ensures rest[i] != rest[j] {
        assert Number(w[m + i]) != Number(w[m + j]);
      }
    }
  }

  lemma MatchesDistinct(d: Alignment<LinkGene>, side: Side)
    requires Agree(d.matches, Number)
    requires var w := Parts(d, side); forall i, j :: 0 <= i < j < |w| ==> Number(w[i]) != Number(w[j])
    ensures DistinctMatches(PairValues(d.matches))
  {
    var w := Parts(d, side);
    var ps := PairValues(d.matches);
    PartsLayout(d, side);
    forall i, j | 0 <= i < j < |ps| ensures ps[i].0.number != ps[j].0.number {
      assert Number(w[i]) != Number(w[j]);
    }
  }

  lemma RestDistinct(d: Alignment<LinkGene>, side: Side)
    requires Agree(d.matches, Number)
    requires var w := Parts(d, side); forall i, j :: 0 <= i < j < |w| ==> Number(w[i]) != Number(w[j])
    ensures var ps := PairValues(d.matches); var vs := ValuesOf(Rest(d, side));
      && (forall i, j :: 0 <= i < j < |vs| ==> vs[i].number != vs[j].number)
      && (forall k :: 0 <= k < |vs| ==> vs[k].number !in MatchNumbers(ps))
  {
    var w := Parts(d, side);
    var m := |d.matches|;
    var ps := PairValues(d.matches);
    var vs := ValuesOf(Rest(d, side));
    PartsLayout(d, side);
    forall i, j | 0 <= i < j < |vs| ensures vs[i].number != vs[j].number {
      assert Number(w[m + i]) != Number(w[m + j]);
    }
    forall k | 0 <= k < |vs| ensures vs[k].number !in MatchNumbers(ps) {
      forall i | 0 <= i < m ensures ps[i].0.number != vs[k].number {
        assert Number(w[i]) != Number(w[m + k]);
      }
    }
  }

  lemma PartsNumbers(d: Alignment<LinkGene>, side: Side)
    requires Agree(d.matches, Number)
    ensures MatchNumbers(PairValues(d.matches)) + ValueNumbers(ValuesOf(Rest(d, side)))
         == Alignments.Numbers(Parts(d, side), Number)
  {
    var w := Parts(d, side);
    var m := |d.matches|;
    var ps := PairValues(d.matches);
    var vs := ValuesOf(Rest(d, side));
    PartsLayout(d, side);
    forall n | n in Alignments.Numbers(w, Number) ensures n in MatchNumbers(ps) + ValueNumbers(vs) {
      var k :| 0 <= k < |w| && Number(w[k]) == n;
      if k < m {
        assert ps[k].0.number == n;
      } else {
        assert vs[k - m].number == n;
      }
    }
    forall n | n in MatchNumbers(ps) + ValueNumbers(vs) ensures n in Alignments.Numbers(w, Number) {
      if n in MatchNumbers(ps) {
        var k :| 0 <= k < m && ps[k].0.number == n;
        assert Number(w[k]) == n;
      } else {
        var k :| 0 <= k < |vs| && vs[k].number == n;
        assert Number(w[m + k]) == n;
      }
    }
  }

  /** Under those conditions the child's table holds every match's landed value and every
      unmatched gene as it is, under their numbers and no others. */
  lemma ValuesLand(ps: seq<(LinkValue, LinkValue)>, vs: seq<LinkValue>, mating: Mating, draws: nat -> (real, real))
    requires DistinctMatches(ps)
    requires forall i, j :: 0 <= i < j < |vs| ==> vs[i].number != vs[j].number
    requires forall k :: 0 <= k < |vs| ==> vs[k].number !in MatchNumbers(ps)
    ensures var child := Offspring(ps, vs, mating, draws);
      && child.Keys == MatchNumbers(ps) + ValueNumbers(vs)
      && (forall k :: 0 <= k < |ps| ==> ps[k].0.number in child && child[ps[k].0.number] == Landed(ps[k], mating, draws(k)))
      && (forall k :: 0 <= k < |vs| ==> vs[k].number in child && child[vs[k].number] == vs[k])
  {
    BredLands(map[], ps, mating, draws);
    InheritedLands(Bred(map[], ps, mating, draws), vs);
  }

  /** The matches pair the two tables' genes of each shared number, and every shared number
      is matched. */
  lemma MatchesFromTables(t1: map<int, LinkGene>, t2: map<int, LinkGene>)
    requires Numbered(t1) && Numbered(t2)
    ensures var d := Align(SortedLinks(t1), SortedLinks(t2), Number);
      && (forall k :: 0 <= k < |d.matches| ==>
            var n := Number(d.matches[k].0); n in t1 && n in t2 && d.matches[k] == (t1[n], t2[n]))
      && MatchNumbers(PairValues(d.matches)) == t1.Keys * t2.Keys
  {
    var a := SortedLinks(t1);
    var b := SortedLinks(t2);
    LinkGenesAscending(t1);
    LinkGenesAscending(t2);
    SortedNumbers(t1);
    SortedNumbers(t2);
    assert forall n :: n in t1 ==> t1[n] in a by {
      forall n | n in t1 ensures t1[n] in a {
        assert t1[n] in t1.Values;
      }
    }
    MatchesPair(t1, t2, a, b);
    SharedMatched(t1, t2, a, b);
  }

  lemma MatchesPair(t1: map<int, LinkGene>, t2: map<int, LinkGene>, a: seq<LinkGene>, b: seq<LinkGene>)
    requires forall l :: l in a ==> Number(l) in t1 && t1[Number(l)] == l
    requires forall l :: l in b ==> Number(l) in t2 && t2[Number(l)] == l
    ensures var ms := Align(a, b, Number).matches;
      forall k :: 0 <= k < |ms| ==> var n := Number(ms[k].0); n in t1 && n in t2 && ms[k] == (t1[n], t2[n])
  {
    var ms := Align(a, b, Number).matches;
    AlignPartitions(a, b, Number);
    MatchesAgree(a, b, Number);
    forall k | 0 <= k < |ms| ensures var n := Number(ms[k].0); n in t1 && n in t2 && ms[k] == (t1[n], t2[n]) {
      assert Firsts(ms)[k] in multiset(a) && Seconds(ms)[k] in multiset(b);
    }
  }

  lemma SharedMatched(t1: map<int, LinkGene>, t2: map<int, LinkGene>, a: seq<LinkGene>, b: seq<LinkGene>)
    requires Ascending(a, Number) && Ascending(b, Number)
    requires Alignments.Numbers(a, Number) == t1.Keys && Alignments.Numbers(b, Number) == t2.Keys
    requires forall n :: n in t1 ==> t1[n] in a && Number(t1[n]) == n
    ensures MatchNumbers(PairValues(Align(a, b, Number).matches)) == t1.Keys * t2.Keys
  {
    var ms := Align(a, b, Number).matches;
    var ps := PairValues(ms);
    AlignPartitions(a, b, Number);
    MatchesAgree(a, b, Number);
    forall n | n in t1.Keys * t2.Keys ensures n in MatchNumbers(ps) {
      var g := t1[n];
      MatchedIffShared(a, b, Number, g);
      var k :| 0 <= k < |ms| && Firsts(ms)[k] == g;
      assert ps[k].0.number == n;
    }
    forall n | n in MatchNumbers(ps) ensures n in t1.Keys * t2.Keys {
      var k :| 0 <= k < |ps| && ps[k].0.number == n;
      assert Firsts(ms)[k] in multiset(a) && Seconds(ms)[k] in multiset(b);
      assert n == Number(Firsts(ms)[k]) == Number(Seconds(ms)[k]);
    }
  }

  /** Every match's number carries the value the match lands. */
  predicate MatchesLand(child: map<int, LinkValue>, ps: seq<(LinkValue, LinkValue)>, mating: Mating,
                        draws: nat -> (real, real))
  {
    forall k :: 0 <= k < |ps| ==> ps[k].0.number in child && child[ps[k].0.number] == Landed(ps[k], mating, draws(k))
  }

  /** Every number only one parent holds carries that parent's gene as it is. */
  ghost predicate LonesCopied(child: map<int, LinkValue>, t1: map<int, LinkGene>, t2: map<int, LinkGene>, side: Side)
    reads t1.Values, t2.Values
  {
    forall n :: n in child && !(n in t1 && n in t2) ==>
      n in ParentTable(t1, t2, side) && child[n] == ValueOf(ParentTable(t1, t2, side)[n])
  }

  /** The child's genes against its parents' tables: it holds exactly the numbers of the
      parent that supplies the unmatched genes; the matched numbers are those both parents
      hold, and each carries the value its match lands; a number only one parent holds carries
      that parent's gene as it is. */
  lemma OffspringGenes(t1: map<int, LinkGene>, t2: map<int, LinkGene>, side: Side, mating: Mating,
                       draws: nat -> (real, real))
    requires Numbered(t1) && Numbered(t2)
    ensures var d := Align(SortedLinks(t1), SortedLinks(t2), Number);
      var ps := PairValues(d.matches);
      var child := Offspring(ps, ValuesOf(Inheritance(d, side)), mating, draws);
      && child.Keys == ParentTable(t1, t2, side).Keys
      && MatchNumbers(ps) == t1.Keys * t2.Keys
      && MatchesLand(child, ps, mating, draws)
      && LonesCopied(child, t1, t2, side)
  {
    var d := Align(SortedLinks(t1), SortedLinks(t2), Number);
    var ps := PairValues(d.matches);
    var vs := ValuesOf(Inheritance(d, side));
    ChildLayout(t1, t2, side, mating, draws);
    MatchesFromTables(t1, t2);
    LonesFromRest(Offspring(ps, vs, mating, draws), ps, vs, t1, t2, side);
  }

  /** The child's numbers split into the matched ones and the inherited ones; both land. */
  lemma ChildLayout(t1: map<int, LinkGene>, t2: map<int, LinkGene>, side: Side, mating: Mating,
                    draws: nat -> (real, real))
    requires Numbered(t1) && Numbered(t2)
    ensures var d := Align(SortedLinks(t1), SortedLinks(t2), Number);
      var ps := PairValues(d.matches);
      var vs := ValuesOf(Inheritance(d, side));
      var child := Offspring(ps, vs, mating, draws);
      var parent := ParentTable(t1, t2, side);
      && child.Keys == MatchNumbers(ps) + ValueNumbers(vs) == parent.Keys
      && MatchesLand(child, ps, mating, draws)
      && (forall k :: 0 <= k < |vs| ==> vs[k].number in parent && vs[k].number in child && child[vs[k].number] == ValueOf(parent[vs[k].number]))
  {
    PartsFacts(t1, t2, side);
    LayoutOf(Align(SortedLinks(t1), SortedLinks(t2), Number), side, ParentTable(t1, t2, side),
             SortedLinks(ParentTable(t1, t2, side)), mating, draws);
  }

  /** What the walk guarantees about the chosen side's parts, given the parent's sorted view. */
  ghost predicate WellFiled(d: Alignment<LinkGene>, side: Side, parent: map<int, LinkGene>, sorted: seq<LinkGene>)
    reads parent.Values
  {
    var w := Parts(d, side);
    && Agree(d.matches, Number)
    && (forall i, j :: 0 <= i < j < |w| ==> Number(w[i]) != Number(w[j]))
    && Alignments.Numbers(w, Number) == parent.Keys
    && multiset(w) == multiset(sorted)
    && (forall l :: l in sorted ==> Number(l) in parent && parent[Number(l)] == l)
  }

  lemma PartsFacts(t1: map<int, LinkGene>, t2: map<int, LinkGene>, side: Side)
    requires Numbered(t1) && Numbered(t2)
    ensures WellFiled(Align(SortedLinks(t1), SortedLinks(t2), Number), side, ParentTable(t1, t2, side),
                      SortedLinks(ParentTable(t1, t2, side)))
  {
    var a := SortedLinks(t1);
    var b := SortedLinks(t2);
    var d := Align(a, b, Number);
    var parent := ParentTable(t1, t2, side);
    LinkGenesAscending(t1);
    LinkGenesAscending(t2);
    MatchesAgree(a, b, Number);
    PartsRearrange(t1, t2, side);
    RearrangedNumbers(SortedLinks(parent), Parts(d, side));
    SortedNumbers(parent);
  }

  lemma LayoutOf(d: Alignment<LinkGene>, side: Side, parent: map<int, LinkGene>, sorted: seq<LinkGene>, mating: Mating,
                 draws: nat -> (real, real))
    requires WellFiled(d, side, parent, sorted)
    ensures var ps := PairValues(d.matches);
      var vs := ValuesOf(Inheritance(d, side));
      var child := Offspring(ps, vs, mating, draws);
      && child.Keys == MatchNumbers(ps) + ValueNumbers(vs) == parent.Keys
      && MatchesLand(child, ps, mating, draws)
      && (forall k :: 0 <= k < |vs| ==> vs[k].number in parent && vs[k].number in child && child[vs[k].number] == ValueOf(parent[vs[k].number]))
  {
    LayoutKeys(d, side, parent, sorted, mating, draws);
    LayoutLones(d, side, parent, sorted, mating, draws);
  }

  /** The first half of `LayoutOf`: the child's numbers and the matches' values. */
  lemma LayoutKeys(d: Alignment<LinkGene>, side: Side, parent: map<int, LinkGene>, sorted: seq<LinkGene>, mating: Mating,
                   draws: nat -> (real, real))
    requires WellFiled(d, side, parent, sorted)
    ensures var ps := PairValues(d.matches);
      var vs := ValuesOf(Inheritance(d, side));
      var child := Offspring(ps, vs, mating, draws);
      && child.Keys == MatchNumbers(ps) + ValueNumbers(vs) == parent.Keys
      && MatchesLand(child, ps, mating, draws)
  {
    DistinctParts(d, side);
    ValuesLand(PairValues(d.matches), ValuesOf(Inheritance(d, side)), mating, draws);
  }

  /** The second half of `LayoutOf`: the inherited genes carry the parent's values. */
  lemma LayoutLones(d: Alignment<LinkGene>, side: Side, parent: map<int, LinkGene>, sorted: seq<LinkGene>, mating: Mating,
                    draws: nat -> (real, real))
    requires WellFiled(d, side, parent, sorted)
    ensures var ps := PairValues(d.matches);
      var vs := ValuesOf(Inheritance(d, side));
      var child := Offspring(ps, vs, mating, draws);
      forall k :: 0 <= k < |vs| ==> vs[k].number in parent && vs[k].number in child && child[vs[k].number] == ValueOf(parent[vs[k].number])
  {
    DistinctParts(d, side);
    var ps := PairValues(d.matches);
    var vs := ValuesOf(Inheritance(d, side));
    ValuesLand(ps, vs, mating, draws);
    LoneGenes(d, side, sorted, parent, vs, Offspring(ps, vs, mating, draws));
  }

  lemma LonesFromRest(child: map<int, LinkValue>, ps: seq<(LinkValue, LinkValue)>, vs: seq<LinkValue>,
                      t1: map<int, LinkGene>, t2: map<int, LinkGene>, side: Side)
    requires child.Keys == MatchNumbers(ps) + ValueNumbers(vs) && MatchNumbers(ps) == t1.Keys * t2.Keys
    requires forall k :: 0 <= k < |vs| ==>
      vs[k].number in ParentTable(t1, t2, side) && vs[k].number in child && child[vs[k].number] == ValueOf(ParentTable(t1, t2, side)[vs[k].number])
    ensures LonesCopied(child, t1, t2, side)
  {
    forall n | n in child && !(n in t1 && n in t2)
      ensures n in ParentTable(t1, t2, side) && child[n] == ValueOf(ParentTable(t1, t2, side)[n])
    {
      var k :| 0 <= k < |vs| && vs[k].number == n;
    }
  }

  lemma LoneGenes(d: Alignment<LinkGene>, side: Side, sorted: seq<LinkGene>, parent: map<int, LinkGene>,
                  vs: seq<LinkValue>, child: map<int, LinkValue>)
    requires Agree(d.matches, Number) && vs == ValuesOf(Rest(d, side))
    requires multiset(Parts(d, side)) == multiset(sorted)
    requires forall l :: l in sorted ==> Number(l) in parent && parent[Number(l)] == l
    requires forall k :: 0 <= k < |vs| ==> vs[k].number in child && child[vs[k].number] == vs[k]
    ensures forall k :: 0 <= k < |vs| ==> vs[k].number in parent && vs[k].number in child && child[vs[k].number] == ValueOf(parent[vs[k].number])
  {
    PartsLayout(d, side);
    LonesOf(Parts(d, side), Rest(d, side), |d.matches|, sorted, parent, vs, child);
  }

  /** `LoneGenes` over any rearrangement `w` of the sorted view whose tail from `m` on is `rest`. */
  lemma LonesOf(w: seq<LinkGene>, rest: seq<LinkGene>, m: nat, sorted: seq<LinkGene>, parent: map<int, LinkGene>,
                vs: seq<LinkValue>, child: map<int, LinkValue>)
    requires |w| == m + |rest| && forall k :: 0 <= k < |rest| ==> w[m + k] == rest[k]
    requires vs == ValuesOf(rest) && multiset(w) == multiset(sorted)
    requires forall l :: l in sorted ==> Number(l) in parent && parent[Number(l)] == l
    requires forall k :: 0 <= k < |vs| ==> vs[k].number in child && child[vs[k].number] == vs[k]
    ensures forall k :: 0 <= k < |vs| ==> vs[k].number in parent && vs[k].number in child && child[vs[k].number] == ValueOf(parent[vs[k].number])
  {
    forall k | 0 <= k < |vs| ensures vs[k].number in parent && vs[k].number in child && child[vs[k].number] == ValueOf(parent[vs[k].number]) {
      var g := rest[k];
      assert g == w[m + k];
      FiledUnder(w, sorted, parent, g);
      assert vs[k] == ValueOf(g) && vs[k].number == Number(g);
    }
  }

  /** A gene of a rearrangement of a table's sorted view is filed under its own number. */
  lemma FiledUnder(w: seq<LinkGene>, sorted: seq<LinkGene>, parent: map<int, LinkGene>, g: LinkGene)
    requires multiset(w) == multiset(sorted) && g in w
    requires forall l :: l in sorted ==> Number(l) in parent && parent[Number(l)] == l
    ensures Number(g) in parent && parent[Number(g)] == g
  {
    assert g in multiset(sorted);
  }

  // ---------------------------------------------------------------- copying a genome

  /** `InnerCopy`: a new collection for the copy (under the same GA), given a `Copy` of each of
      the original's `LinkGenes` in turn. Reading `LinkGenes` throws as it does for crossover
      when the original's sorted view was never filled. */
  method InnerCopy(original: GeneCollection) returns (r: Result<GeneCollection>)
    requires original.Valid()
    modifies original
    ensures original.Valid() && Kept(original)
    ensures r.Failure? <==> old(Unfilled(original))
    ensures r.Failure? ==> r.error == "NullReferenceException"
    ensures r.Success? ==> fresh(r.value) && r.value.Valid() && r.value.ga == original.ga
    ensures r.Success? ==> forall l :: l in r.value.linkGeneMap.Values ==> fresh(l)
    ensures r.Success? ==> Snapshot(r.value.linkGeneMap) == Snapshot(original.linkGeneMap)
  {
    var links := original.LinkGenes();
    if links.Failure? {
      return Failure(links.error);
    }
    var copy := CopyGenes(original.ga, links.value);
    CopiedTable(original.linkGeneMap);
    r := Success(copy);
  }

  /** The loop of `InnerCopy`: a new collection offered a copy of each gene in turn. */
  method CopyGenes(ga: BaseCPPNNEATGA, links: seq<LinkGene>) returns (copy: GeneCollection)
    ensures fresh(copy) && copy.Valid() && copy.ga == ga
    ensures forall l :: l in copy.linkGeneMap.Values ==> fresh(l)
    ensures Snapshot(copy.linkGeneMap) == Inherited(map[], ValuesOf(links))
  {
    copy := new GeneCollection(ga);
    InheritAll(copy, links, Elements(links));
    assert ValuesOf(links) == old(ValuesOf(links));
  }

  /** Offering every gene of a table's sorted view, in order, to an empty table rebuilds the
      table's values. */
  lemma CopiedTable(table: map<int, LinkGene>)
    requires Numbered(table)
    ensures Inherited(map[], ValuesOf(SortedLinks(table))) == Snapshot(table)
  {
    var s := SortedLinks(table);
    LinkGenesAscending(table);
    SortedNumbers(table);
    CopiedValues(table, s, ValuesOf(s));
  }

  lemma CopiedValues(table: map<int, LinkGene>, s: seq<LinkGene>, vs: seq<LinkValue>)
    requires Numbered(table) && Ascending(s, Number) && Alignments.Numbers(s, Number) == table.Keys
    requires forall l :: l in table.Values ==> l in s
    requires |vs| == |s| && forall k :: 0 <= k < |s| ==> vs[k] == ValueOf(s[k])
    ensures Inherited(map[], vs) == Snapshot(table)
  {
    DistinctValueNumbers(s, vs);
    CopiedDistinct(table, s, vs);
  }

  /** `CopiedValues` once the copied values are known to carry distinct numbers. */
  lemma CopiedDistinct(table: map<int, LinkGene>, s: seq<LinkGene>, vs: seq<LinkValue>)
    requires Numbered(table) && Alignments.Numbers(s, Number) == table.Keys
    requires forall l :: l in table.Values ==> l in s
    requires |vs| == |s| && forall k :: 0 <= k < |s| ==> vs[k] == ValueOf(s[k])
    requires forall i, j :: 0 <= i < j < |vs| ==> vs[i].number != vs[j].number
    ensures Inherited(map[], vs) == Snapshot(table)
  {
    InheritedFresh(vs);
    CopiedKeys(s, vs);
    CopiedSnapshot(table, s, vs, Inherited(map[], vs));
  }

  /** Values with distinct numbers offered to an empty table land under exactly their numbers. */
  lemma InheritedFresh(vs: seq<LinkValue>)
    requires forall i, j :: 0 <= i < j < |vs| ==> vs[i].number != vs[j].number
    ensures Inherited(map[], vs).Keys == ValueNumbers(vs)
    ensures forall k :: 0 <= k < |vs| ==> vs[k].number in Inherited(map[], vs) && Inherited(map[], vs)[vs[k].number] == vs[k]
  {
    InheritedLands(map[], vs);
  }

  /** The values of genes in strictly ascending order carry distinct numbers. */
  lemma DistinctValueNumbers(s: seq<LinkGene>, vs: seq<LinkValue>)
    requires Ascending(s, Number)
    requires |vs| == |s| && forall k :: 0 <= k < |s| ==> vs[k] == ValueOf(s[k])
    ensures forall i, j :: 0 <= i < j < |vs| ==> vs[i].number != vs[j].number
  {
    forall i, j | 0 <= i < j < |vs| ensures vs[i].number != vs[j].number {
      assert Number(s[i]) < Number(s[j]);
    }
  }

  /** A table holding every copied value under its number, and nothing else, is the snapshot. */
  lemma CopiedSnapshot(table: map<int, LinkGene>, s: seq<LinkGene>, vs: seq<LinkValue>, r: map<int, LinkValue>)
    requires Numbered(table) && Alignments.Numbers(s, Number) == table.Keys
    requires forall l :: l in table.Values ==> l in s
    requires |vs| == |s| && forall k :: 0 <= k < |s| ==> vs[k] == ValueOf(s[k])
    requires r.Keys == ValueNumbers(vs) && ValueNumbers(vs) == Alignments.Numbers(s, Number)
    requires forall k :: 0 <= k < |vs| ==> vs[k].number in r && r[vs[k].number] == vs[k]
    ensures r == Snapshot(table)
  {
    CopiedEntries(table, s, vs, r);
    SameEntries(r, Snapshot(table));
  }

  lemma CopiedKeys(s: seq<LinkGene>, vs: seq<LinkValue>)
    requires |vs| == |s| && forall k :: 0 <= k < |s| ==> vs[k].number == s[k].innovationNumber
    ensures ValueNumbers(vs) == Alignments.Numbers(s, Number)
  {
    forall n | n in ValueNumbers(vs) ensures n in Alignments.Numbers(s, Number) {
      var k :| 0 <= k < |vs| && vs[k].number == n;
      assert Number(s[k]) == n;
    }
    forall n | n in Alignments.Numbers(s, Number) ensures n in ValueNumbers(vs) {
      var k :| 0 <= k < |s| && Number(s[k]) == n;
      assert vs[k].number == n;
    }
  }

  lemma CopiedEntries(table: map<int, LinkGene>, s: seq<LinkGene>, vs: seq<LinkValue>, r: map<int, LinkValue>)
    requires forall l :: l in table.Values ==> l in s
    requires |vs| == |s| && forall k :: 0 <= k < |s| ==> vs[k] == ValueOf(s[k])
    requires forall k :: 0 <= k < |vs| ==> vs[k].number in r && r[vs[k].number] == vs[k]
    requires Numbered(table) && table.Keys <= r.Keys
    ensures forall n :: n in table ==> r[n] == ValueOf(table[n])
  {
    forall n | n in table ensures r[n] == ValueOf(table[n]) {
      assert table[n] in table.Values;
      var k :| 0 <= k < |s| && s[k] == table[n];
      assert vs[k] == ValueOf(table[n]);
    }
  }

  lemma SameEntries(a: map<int, LinkValue>, b: map<int, LinkValue>)
    requires a.Keys == b.Keys && forall n :: n in b ==> a[n] == b[n]
    ensures a == b
  {
    assert forall n :: n in a <==> n in b;
    assert forall n :: n in a ==> a[n] == b[n];
  }
}
