/**
 * The gene collection of a CPPN-NEAT genome (ComplexCPPNNEAT/CPPNNEATGeneCollection.cs; the class
 * in CPPNNEAT/CPPNNEATGeneCollection.cs is the same but for how its parent is set): link genes
 * keyed by innovation number, the neuron genes they touch, the candidate (from, to) pairs a new
 * link may take, the hidden neurons cut off from the network ("orphaned"), and a cached view of
 * the link genes in innovation order.
 */
module GeneCollections {
  import opened Wrappers
  import opened Values
  import opened MathExtensions
  import opened ListExtensions
  import opened Genes
  import opened Innovations

  type Pair = (NeuronGene, NeuronGene)

  // ---------------------------------------------------------------- the sorted view

  predicate StrictlyIncreasing(s: seq<int>) {
    forall i, j :: 0 <= i < j < |s| ==> s[i] < s[j]
  }

  lemma {:induction false} MinimumExists(keys: set<int>)
    requires keys != {}
    ensures exists m :: m in keys && forall k :: k in keys ==> m <= k
    decreases |keys|
  {
    if forall y :: y !in keys {
      assert false;
    }
    var x :| x in keys;
    if keys != {x} {
      var rest := keys - {x};
      MinimumExists(rest);
      var m :| m in rest && forall k :: k in rest ==> m <= k;
      var least := if x < m then x else m;
      forall k | k in keys ensures least <= k {
        if k != x {
          assert k in rest;
        }
      }
      assert least in keys;
    } else {
      forall k | k in keys ensures x <= k {
        assert k == x;
      }
    }
  }

  /** The keys in ascending order, each once. */
  function SortedKeys(keys: set<int>): (r: seq<int>)
    ensures |r| == |keys| && StrictlyIncreasing(r)
    ensures forall k :: k in r <==> k in keys
    decreases |keys|
  {
    if keys == {} then []
    else
      MinimumExists(keys);
      var m :| m in keys && forall k :: k in keys ==> m <= k;
      var rest := SortedKeys(keys - {m});
      MinimumFirst(keys, m, rest);
      [m] + rest
  }

  /** The least key followed by the other keys in ascending order holds every key, ascending. */
  lemma MinimumFirst(keys: set<int>, m: int, rest: seq<int>)
    requires m in keys && forall k :: k in keys ==> m <= k
    requires |rest| == |keys - {m}| && StrictlyIncreasing(rest)
    requires forall k :: k in rest <==> k in keys - {m}
    ensures |[m] + rest| == |keys| && StrictlyIncreasing([m] + rest)
    ensures forall k :: k in [m] + rest <==> k in keys
  {
    forall i, j | 0 <= i < j < |[m] + rest| ensures ([m] + rest)[i] < ([m] + rest)[j] {
      assert ([m] + rest)[j] == rest[j - 1] && rest[j - 1] in rest;
      if i > 0 {
        assert ([m] + rest)[i] == rest[i - 1];
      }
    }
  }

  /** `LinkGenes`: the table's genes in ascending key order. */
  function SortedLinks(table: map<int, LinkGene>): (r: seq<LinkGene>)
    ensures |r| == |table|
    ensures forall l :: l in r ==> l in table.Values
    ensures forall l :: l in table.Values ==> l in r
  {
    var keys := SortedKeys(table.Keys);
    assert |table.Keys| == |table|;
    var r := seq(|keys|, i requires 0 <= i < |keys| => table[keys[i]]);
    LookedUp(table, keys, r);
    r
  }

  /** Looking up every key of the table, in any order, yields exactly the table's genes. */
  lemma LookedUp(table: map<int, LinkGene>, keys: seq<int>, r: seq<LinkGene>)
    requires forall k :: k in keys <==> k in table
    requires |r| == |keys| && forall i :: 0 <= i < |keys| ==> keys[i] in table && r[i] == table[keys[i]]
    ensures forall l :: l in r ==> l in table.Values
    ensures forall l :: l in table.Values ==> l in r
  {
    forall k | k in table ensures table[k] in r {
      assert k in keys;
      var i :| 0 <= i < |keys| && keys[i] == k;
      assert r[i] == table[k];
    }
  }

  /** When every gene sits under its own innovation number, the view is strictly ascending in
      innovation numbers, so it lists each gene exactly once. */
  lemma SortedLinksAscending(table: map<int, LinkGene>, i: int, j: int)
    requires forall k :: k in table ==> table[k].innovationNumber == k
    requires 0 <= i < j < |table|
    ensures SortedLinks(table)[i].innovationNumber < SortedLinks(table)[j].innovationNumber
  {
  }

  // ---------------------------------------------------------------- propagation helpers

  /** The two propagation directions: downstream (a link's parent is its From end, its child
      its To end) and upstream (the other way round). */
  datatype Direction = Downstream | Upstream

  function ParentOf(l: LinkGene, d: Direction): NeuronGene {
    if d == Downstream then l.from else l.to
  }

  function ChildOf(l: LinkGene, d: Direction): NeuronGene {
    if d == Downstream then l.to else l.from
  }

  /** `ValidLinks`' filter: enabled, and neither end orphaned. */
  predicate IsValidLink(l: LinkGene, orphans: set<NeuronGene>)
    reads l
  {
    l.enabled && l.to !in orphans && l.from !in orphans
  }

  function ValidOf(links: seq<LinkGene>, orphans: set<NeuronGene>): (r: seq<LinkGene>)
    reads links
    ensures forall l :: l in r ==> l in links && IsValidLink(l, orphans)
    ensures forall l :: l in links && IsValidLink(l, orphans) ==> l in r
  {
    if links == [] then []
    else (if IsValidLink(links[0], orphans) then [links[0]] else []) + ValidOf(links[1..], orphans)
  }

  function EnabledOf(links: seq<LinkGene>): (r: seq<LinkGene>)
    reads links
    ensures forall l :: l in r ==> l in links && l.enabled
    ensures forall l :: l in links && l.enabled ==> l in r
  {
    if links == [] then []
    else (if links[0].enabled then [links[0]] else []) + EnabledOf(links[1..])
  }

  /** The links whose parent end is `neuron`. */
  function OutOf(links: seq<LinkGene>, neuron: NeuronGene, d: Direction): (r: seq<LinkGene>)
    ensures forall l :: l in r ==> l in links && ParentOf(l, d) == neuron
    ensures forall l :: l in links && ParentOf(l, d) == neuron ==> l in r
  {
    if links == [] then []
    else (if ParentOf(links[0], d) == neuron then [links[0]] else []) + OutOf(links[1..], neuron, d)
  }

  /** The enabled links of `table` whose parent end is `neuron`, in innovation order. */
  function EnabledLinksFrom(table: map<int, LinkGene>, neuron: NeuronGene, d: Direction): (r: seq<LinkGene>)
    reads table.Values
    ensures forall j :: 0 <= j < |r| ==> r[j] in table.Values && ParentOf(r[j], d) == neuron
    ensures forall l :: l in table.Values && l.enabled && ParentOf(l, d) == neuron ==> l in r
  {
    OutOf(EnabledOf(SortedLinks(table)), neuron, d)
  }

  /** The valid links (in the sense of `orphans`) of `table` whose parent end is `neuron`, in
      innovation order. */
  function ValidLinksFrom(table: map<int, LinkGene>, orphans: set<NeuronGene>, neuron: NeuronGene, d: Direction)
    : (r: seq<LinkGene>)
    reads table.Values
    ensures forall j :: 0 <= j < |r| ==>
      r[j] in table.Values && ParentOf(r[j], d) == neuron && IsValidLink(r[j], orphans)
    ensures forall l :: l in table.Values && IsValidLink(l, orphans) && ParentOf(l, d) == neuron ==> l in r
  {
    OutOf(ValidOf(SortedLinks(table), orphans), neuron, d)
  }

  /** The links of `links` other than `except` whose child end is `c`. */
  function IntoOf(links: seq<LinkGene>, except: LinkGene, c: NeuronGene, d: Direction): (r: seq<LinkGene>)
    ensures forall l :: l in r ==> l in links && l != except && ChildOf(l, d) == c
    ensures forall l :: l in links && l != except && ChildOf(l, d) == c ==> l in r
  {
    if links == [] then []
    else (if links[0] != except && ChildOf(links[0], d) == c then [links[0]] else []) + IntoOf(links[1..], except, c, d)
  }

  /** `HasBeenOrphaned`'s count of the valid links other than `except` leading into `c` is
      zero exactly when no other valid link feeds `c`. */
  function NoOtherValidInto(table: map<int, LinkGene>, orphans: set<NeuronGene>, except: LinkGene, c: NeuronGene,
                            d: Direction): (none: bool)
    reads table.Values
    ensures none <==> !HasOtherValidInto(table.Values, except, c, orphans, d)
  {
    var r := IntoOf(ValidOf(SortedLinks(table), orphans), except, c, d);
    assert HasOtherValidInto(table.Values, except, c, orphans, d) ==> |r| > 0 by {
      if HasOtherValidInto(table.Values, except, c, orphans, d) {
        var l :| l in table.Values && l != except && IsValidLink(l, orphans) && ChildOf(l, d) == c;
        assert l in r;
      }
    }
    assert |r| > 0 ==> HasOtherValidInto(table.Values, except, c, orphans, d) by {
      if |r| > 0 {
        assert r[0] in r;
      }
    }
    |r| == 0
  }

  /** Once `neuron` is orphaned, no valid link leaves it: the list `HasBeenOrphaned` gathers
      after orphaning it is empty. */
  lemma NoValidLinksFromOrphan(table: map<int, LinkGene>, orphans: set<NeuronGene>, neuron: NeuronGene, d: Direction)
    requires neuron in orphans
    ensures ValidLinksFrom(table, orphans, neuron, d) == []
  {
    FirstValidLinkFrom(table, orphans, neuron, d);
  }

  lemma FirstValidLinkFrom(table: map<int, LinkGene>, orphans: set<NeuronGene>, neuron: NeuronGene, d: Direction)
    ensures var r := ValidLinksFrom(table, orphans, neuron, d);
      r != [] ==> ParentOf(r[0], d) == neuron && ParentOf(r[0], d) !in orphans
  {
  }

  /** `HasBeenOrphaned`'s test: `neuron` is a hidden neuron not yet orphaned, and no valid link
      other than `propagating` feeds it. */
  ghost predicate Orphans(neuron: NeuronGene, propagating: LinkGene, links: set<LinkGene>, orphans: set<NeuronGene>,
                          d: Direction)
    reads links
  {
    neuron.neuronType == Hidden && neuron !in orphans && !HasOtherValidInto(links, propagating, neuron, orphans, d)
  }

  /** A child after its turn: not hidden, orphaned, or still fed by a valid link. */
  ghost predicate Settled(links: set<LinkGene>, c: NeuronGene, orphans: set<NeuronGene>, d: Direction)
    reads links
  {
    c.neuronType == Hidden && c !in orphans ==> HasValidInto(links, c, orphans, d)
  }

  /** One turn of `HasBeenOrphaned`'s loop: the child of `children[i]` has been offered for orphaning. */
  lemma OrphanStep(links: set<LinkGene>, start: set<NeuronGene>, before: set<NeuronGene>, after: set<NeuronGene>,
                   children: seq<LinkGene>, i: nat, d: Direction)
    requires i < |children| && children[i] in links
    requires start <= before <= after
    requires Closed(links, start, before, d) && Closed(links, before, after, d)
    requires forall j :: 0 <= j < i ==> Settled(links, ChildOf(children[j], d), before, d)
    requires Orphans(ChildOf(children[i], d), children[i], links, before, d) ==> ChildOf(children[i], d) in after
    requires !Orphans(ChildOf(children[i], d), children[i], links, before, d) ==> after == before
    ensures Closed(links, start, after, d)
    ensures forall j :: 0 <= j < i + 1 ==> Settled(links, ChildOf(children[j], d), after, d)
  {
    ClosedGrows(links, start, before, after, d);
    forall j | 0 <= j < i + 1 ensures Settled(links, ChildOf(children[j], d), after, d) {
      var c := ChildOf(children[j], d);
      if j < i && c.neuronType == Hidden && c !in after {
        FedGrows(links, {c}, before, after, d);
      }
    }
  }

  lemma ClosedAtEnd(links: set<LinkGene>, before: set<NeuronGene>, orphans: set<NeuronGene>,
                    neuron: NeuronGene, children: seq<LinkGene>, d: Direction)
    requires before + {neuron} <= orphans && neuron !in before
    requires Closed(links, before + {neuron}, orphans, d)
    requires forall l :: l in links && IsValidLink(l, before) && ParentOf(l, d) == neuron ==> l in children
    requires forall j :: 0 <= j < |children| ==> Settled(links, ChildOf(children[j], d), orphans, d)
    ensures Closed(links, before, orphans, d)
  {
    forall l | l in links && l.enabled && ParentOf(l, d) in orphans && ParentOf(l, d) !in before
      && ChildOf(l, d).neuronType == Hidden && ChildOf(l, d) !in orphans
      ensures HasValidInto(links, ChildOf(l, d), orphans, d)
    {
      if ParentOf(l, d) == neuron {
        assert IsValidLink(l, before);
        var j :| 0 <= j < |children| && children[j] == l;
        assert Settled(links, ChildOf(children[j], d), orphans, d);
      }
    }
  }

  /** The source's orphaning stops too early. Links `In -> H1` (just disabled), `H1 -> H2` and
      `H2 -> Out`: `H1` is orphaned, which is all `HasBeenOrphanedAsWritten` does; but `H2`, fed
      only through `H1`, stays un-orphaned, so propagation is not complete. */
  lemma OrphaningStopsEarly(inLink: LinkGene, midLink: LinkGene, outLink: LinkGene)
    requires inLink.to.neuronType == Hidden && midLink.to.neuronType == Hidden
    requires midLink.from == inLink.to && outLink.from == midLink.to && inLink.to != midLink.to
    requires outLink.to != midLink.to && outLink.to != inLink.to && !inLink.enabled && midLink.enabled && outLink.enabled
    ensures Orphans(inLink.to, inLink, {inLink, midLink, outLink}, {}, Downstream)
    ensures !Closed({inLink, midLink, outLink}, {}, {inLink.to}, Downstream)
  {
    var links := {inLink, midLink, outLink};
    assert !HasValidInto(links, midLink.to, {inLink.to}, Downstream);
    assert midLink in links && ParentOf(midLink, Downstream) == inLink.to;
  }

  /** Some valid link other than `except` leads into `c`. */
  ghost predicate HasOtherValidInto(links: set<LinkGene>, except: LinkGene, c: NeuronGene,
                                    orphans: set<NeuronGene>, d: Direction)
    reads links
  {
    exists l :: l in links && l != except && IsValidLink(l, orphans) && ChildOf(l, d) == c
  }

  ghost predicate HasValidInto(links: set<LinkGene>, c: NeuronGene, orphans: set<NeuronGene>, d: Direction)
    reads links
  {
    exists l :: l in links && IsValidLink(l, orphans) && ChildOf(l, d) == c
  }

  /** Every hidden neuron of `watched` is orphaned or still fed by a valid link. */
  ghost predicate Fed(links: set<LinkGene>, watched: set<NeuronGene>, orphans: set<NeuronGene>, d: Direction)
    reads links
  {
    forall c :: c in watched && c.neuronType == Hidden && c !in orphans ==> HasValidInto(links, c, orphans, d)
  }

  /** Orphan propagation is complete for the neurons orphaned since `before`: each hidden child
      of theirs, along an enabled link, is orphaned too unless a valid link still feeds it. */
  ghost predicate Closed(links: set<LinkGene>, before: set<NeuronGene>, orphans: set<NeuronGene>, d: Direction)
    reads links
  {
    forall l :: l in links && l.enabled && ParentOf(l, d) in orphans && ParentOf(l, d) !in before
      && ChildOf(l, d).neuronType == Hidden && ChildOf(l, d) !in orphans
      ==> HasValidInto(links, ChildOf(l, d), orphans, d)
  }

  lemma FedGrows(links: set<LinkGene>, watched: set<NeuronGene>, o1: set<NeuronGene>, o2: set<NeuronGene>,
                 d: Direction)
    requires o1 <= o2 && Fed(links, watched, o1, d) && Closed(links, o1, o2, d)
    ensures Fed(links, watched, o2, d)
  {
    forall c | c in watched && c.neuronType == Hidden && c !in o2
      ensures HasValidInto(links, c, o2, d)
    {
      var l :| l in links && IsValidLink(l, o1) && ChildOf(l, d) == c;
      if !IsValidLink(l, o2) {
        assert ParentOf(l, d) in o2 && ParentOf(l, d) !in o1;
      }
    }
  }

  lemma ClosedGrows(links: set<LinkGene>, x: set<NeuronGene>, o1: set<NeuronGene>, o2: set<NeuronGene>,
                    d: Direction)
    requires x <= o1 <= o2 && Closed(links, x, o1, d) && Closed(links, o1, o2, d)
    ensures Closed(links, x, o2, d)
  {
    forall l | l in links && l.enabled && ParentOf(l, d) in o2 && ParentOf(l, d) !in x
      && ChildOf(l, d).neuronType == Hidden && ChildOf(l, d) !in o2
      ensures HasValidInto(links, ChildOf(l, d), o2, d)
    {
      if ParentOf(l, d) in o1 {
        FedGrows(links, {ChildOf(l, d)}, o1, o2, d);
      }
    }
  }

  /** Un-orphaning is complete for the neurons revived since `before`: no enabled link leads
      from one of them into an orphan. */
  ghost predicate Revived(links: set<LinkGene>, before: set<NeuronGene>, orphans: set<NeuronGene>, d: Direction)
    reads links
  {
    forall l :: l in links && l.enabled && ParentOf(l, d) in before && ParentOf(l, d) !in orphans
      ==> ChildOf(l, d) !in orphans
  }

  lemma RevivedGrows(links: set<LinkGene>, x: set<NeuronGene>, o1: set<NeuronGene>, o2: set<NeuronGene>,
                     d: Direction)
    requires o2 <= o1 <= x && Revived(links, x, o1, d) && Revived(links, o1, o2, d)
    ensures Revived(links, x, o2, d)
  {
    forall l | l in links && l.enabled && ParentOf(l, d) in x && ParentOf(l, d) !in o2
      ensures ChildOf(l, d) !in o2
    {
      if ParentOf(l, d) !in o1 {
        assert ChildOf(l, d) !in o1;
      }
    }
  }

  /** `HasBeenUnOrphaned`'s test: `neuron` is an orphaned hidden neuron and the link reaching
      it comes from a parent that is not orphaned. */
  predicate Revives(neuron: NeuronGene, propagating: LinkGene, orphans: set<NeuronGene>, d: Direction) {
    neuron.neuronType == Hidden && neuron in orphans && ParentOf(propagating, d) !in orphans
  }

  /** One turn of `HasBeenUnOrphaned`'s loop: the child of `children[i]` has been offered for revival. */
  lemma RevivalStep(links: set<LinkGene>, start: set<NeuronGene>, before: set<NeuronGene>, after: set<NeuronGene>,
                    children: seq<LinkGene>, i: nat, neuron: NeuronGene, d: Direction)
    requires i < |children| && ParentOf(children[i], d) == neuron && neuron !in start
    requires after <= before <= start && forall n :: n in after ==> n.neuronType == Hidden
    requires Revived(links, start, before, d) && Revived(links, before, after, d)
    requires forall j :: 0 <= j < i ==> ChildOf(children[j], d) !in before
    requires Revives(ChildOf(children[i], d), children[i], before, d) ==> ChildOf(children[i], d) !in after
    requires !Revives(ChildOf(children[i], d), children[i], before, d) ==> after == before
    ensures Revived(links, start, after, d)
    ensures forall j :: 0 <= j < i + 1 ==> ChildOf(children[j], d) !in after
  {
    RevivedGrows(links, start, before, after, d);
  }

  lemma RevivedAtEnd(links: set<LinkGene>, before: set<NeuronGene>, orphans: set<NeuronGene>,
                     neuron: NeuronGene, children: seq<LinkGene>, d: Direction)
    requires orphans <= before - {neuron}
    requires Revived(links, before - {neuron}, orphans, d)
    requires forall l :: l in links && l.enabled && ParentOf(l, d) == neuron ==> l in children
    requires forall j :: 0 <= j < |children| ==> ChildOf(children[j], d) !in orphans
    ensures Revived(links, before, orphans, d)
  {
    forall l | l in links && l.enabled && ParentOf(l, d) in before && ParentOf(l, d) !in orphans
      ensures ChildOf(l, d) !in orphans
    {
      if ParentOf(l, d) == neuron {
        var j :| 0 <= j < |children| && children[j] == l;
      }
    }
  }

  lemma {:induction false} DifferenceShrinks<T>(s: set<T>, a: set<T>, b: set<T>, x: T)
    requires a <= b && x in s && x !in a && x in b
    ensures |s - b| < |s - a|
  {
    assert s - b <= (s - a) - {x};
    SubsetCardinality(s - b, (s - a) - {x});
  }

  lemma {:induction false} SubsetCardinality<T>(a: set<T>, b: set<T>)
    requires a <= b
    ensures |a| <= |b|
    decreases |b|
  {
    if a != {} {
      var x :| x in a;
      SubsetCardinality(a - {x}, b - {x});
    }
  }

  predicate Computes(t: NeuronType) { t != Input && t != Bias }

  /** The candidate pairs `AddNeuronGene` records for a neuron joining `genes` (which already
      holds it): links out of it into computing neurons, and, when it computes itself, links
      into it; under feed-forward-only, only towards a strictly higher level. */
  function CandidatesFor(neuron: NeuronGene, genes: set<NeuronGene>, feedForwardOnly: bool): (r: set<Pair>)
    requires neuron in genes
    ensures forall p :: p in r ==> (p.0 == neuron || p.1 == neuron) && p.0 in genes && p.1 in genes
    ensures forall p :: p in r ==> Computes(p.1.neuronType) && (feedForwardOnly ==> p.0.level < p.1.level)
  {
    OutgoingCandidates(neuron, genes, feedForwardOnly)
    + (if Computes(neuron.neuronType) then IncomingCandidates(neuron, genes, feedForwardOnly) else {})
  }

  /** Pairs from `neuron` into the computing neurons of `genes` (upwards only under feed-forward-only). */
  function OutgoingCandidates(neuron: NeuronGene, genes: set<NeuronGene>, feedForwardOnly: bool): set<Pair> {
    set t | t in genes && Computes(t.neuronType) && (!feedForwardOnly || t.level > neuron.level) :: (neuron, t)
  }

  /** Pairs from the neurons of `genes` into `neuron` (from below only under feed-forward-only). */
  function IncomingCandidates(neuron: NeuronGene, genes: set<NeuronGene>, feedForwardOnly: bool): set<Pair> {
    set f | f in genes && (!feedForwardOnly || f.level < neuron.level) :: (f, neuron)
  }

  /** The pair `neuron -> t` when the first loop of `AddNeuronGene` adds it, else none. */
  function OutgoingPair(neuron: NeuronGene, t: NeuronGene, ff: bool): set<Pair> {
    if Computes(t.neuronType) && (!ff || t.level > neuron.level) then {(neuron, t)} else {}
  }

  /** The pair `f -> neuron` when the second loop of `AddNeuronGene` adds it, else none. */
  function IncomingPair(neuron: NeuronGene, f: NeuronGene, ff: bool): set<Pair> {
    if !ff || f.level < neuron.level then {(f, neuron)} else {}
  }

  /** Taking `t` out of the neurons still to visit adds its outgoing pair to the candidates. */
  lemma OutgoingStep(neuron: NeuronGene, genes: set<NeuronGene>, remaining: set<NeuronGene>, t: NeuronGene, ff: bool)
    requires t in remaining && remaining <= genes
    ensures OutgoingCandidates(neuron, genes - (remaining - {t}), ff)
      == OutgoingCandidates(neuron, genes - remaining, ff) + OutgoingPair(neuron, t, ff)
  {
    assert genes - (remaining - {t}) == (genes - remaining) + {t};
  }

  /** Taking `f` out of the neurons still to visit adds its incoming pair to the candidates. */
  lemma IncomingStep(neuron: NeuronGene, genes: set<NeuronGene>, remaining: set<NeuronGene>, f: NeuronGene, ff: bool)
    requires f in remaining && remaining <= genes
    ensures IncomingCandidates(neuron, genes - (remaining - {f}), ff)
      == IncomingCandidates(neuron, genes - remaining, ff) + IncomingPair(neuron, f, ff)
  {
    assert genes - (remaining - {f}) == (genes - remaining) + {f};
  }

  /** The candidate set after `neuron` is offered to the neuron set `genes`. */
  function Joined(candidates: set<Pair>, genes: set<NeuronGene>, neuron: NeuronGene, feedForwardOnly: bool): set<Pair> {
    if neuron in genes then candidates else candidates + CandidatesFor(neuron, genes + {neuron}, feedForwardOnly)
  }

  /** Each link gene sits under its own innovation number and its ends are in the neuron set;
      a cache that has not expired and has been filled holds the sorted view. */
  ghost predicate TableValid(table: map<int, LinkGene>, neurons: set<NeuronGene>, expired: bool,
                             cache: Option<seq<LinkGene>>)
  {
    && (forall k :: k in table ==> table[k].innovationNumber == k)
    && (forall l :: l in table.Values ==> l.from in neurons && l.to in neurons)
    && (!expired && cache.Some? ==> cache.value == SortedLinks(table))
  }

  /** The first loop of `AddNeuronGene`: a pair from `neuron` to every computing neuron of
      `genes` (upwards only under feed-forward-only). */
  method OutgoingLoop(neuron: NeuronGene, genes: set<NeuronGene>, ff: bool) returns (pairs: set<Pair>)
    ensures pairs == OutgoingCandidates(neuron, genes, ff)
  {
    pairs := {};
    var remaining := genes;
    while remaining != {}
      invariant remaining <= genes
      invariant pairs == OutgoingCandidates(neuron, genes - remaining, ff)
      decreases remaining
    {
      if forall y :: y !in remaining {
        assert false;
      }
      var toNeuron :| toNeuron in remaining;
      OutgoingStep(neuron, genes, remaining, toNeuron, ff);
      if Computes(toNeuron.neuronType) && (!ff || toNeuron.level > neuron.level) {
        pairs := pairs + {(neuron, toNeuron)};
      }
      remaining := remaining - {toNeuron};
    }
    assert genes - remaining == genes;
  }

  /** The second loop of `AddNeuronGene`: a pair from every neuron of `genes` into `neuron`
      (from below only under feed-forward-only). */
  method IncomingLoop(neuron: NeuronGene, genes: set<NeuronGene>, ff: bool) returns (pairs: set<Pair>)
    ensures pairs == IncomingCandidates(neuron, genes, ff)
  {
    pairs := {};
    var remaining := genes;
    while remaining != {}
      invariant remaining <= genes
      invariant pairs == IncomingCandidates(neuron, genes - remaining, ff)
      decreases remaining
    {
      if forall y :: y !in remaining {
        assert false;
      }
      var fromNeuron :| fromNeuron in remaining;
      IncomingStep(neuron, genes, remaining, fromNeuron, ff);
      if !ff || fromNeuron.level < neuron.level {
        pairs := pairs + {(fromNeuron, neuron)};
      }
      remaining := remaining - {fromNeuron};
    }
    assert genes - remaining == genes;
  }

  /** The candidate set after a link `from -> to` joins: both ends are offered to the neuron
      set, and an enabled link's own pair is no longer a candidate. */
  function WithLink(candidates: set<Pair>, genes: set<NeuronGene>, from: NeuronGene, to: NeuronGene, enabled: bool,
                    feedForwardOnly: bool): set<Pair>
  {
    Joined(Joined(candidates, genes, from, feedForwardOnly), genes + {from}, to, feedForwardOnly)
    - (if enabled then {(from, to)} else {})
  }

  /** A pair `AddNeuronGene` may record: both ends in the neuron set, the second a computing
      neuron, and (under feed-forward-only) the first strictly lower. */
  predicate ProperPair(p: Pair, genes: set<NeuronGene>, feedForwardOnly: bool) {
    p.0 in genes && p.1 in genes && Computes(p.1.neuronType) && (feedForwardOnly ==> p.0.level < p.1.level)
  }

  predicate AllProper(candidates: set<Pair>, genes: set<NeuronGene>, feedForwardOnly: bool) {
    forall p :: p in candidates ==> ProperPair(p, genes, feedForwardOnly)
  }

  /** Candidate connections never lead into an input or bias neuron, nor (under
      feed-forward-only) sideways or downwards: adding a link keeps every candidate proper. */
  lemma WithLinkKeepsProper(candidates: set<Pair>, genes: set<NeuronGene>, from: NeuronGene, to: NeuronGene,
                            enabled: bool, feedForwardOnly: bool)
    requires AllProper(candidates, genes, feedForwardOnly)
    ensures AllProper(WithLink(candidates, genes, from, to, enabled, feedForwardOnly), genes + {from, to},
                      feedForwardOnly)
  {
    var g1 := genes + {from};
    var c1 := Joined(candidates, genes, from, feedForwardOnly);
    assert AllProper(c1, g1, feedForwardOnly);
    assert AllProper(Joined(c1, g1, to, feedForwardOnly), g1 + {to}, feedForwardOnly);
    assert g1 + {to} == genes + {from, to};
  }

  /** What adding a link does to the candidates: the old ones stay, every proper pair with a
      newly joined end comes in, and an enabled link's own pair goes. */
  lemma {:induction false} WithLinkCandidates(candidates: set<Pair>, genes: set<NeuronGene>, from: NeuronGene,
                                              to: NeuronGene, enabled: bool, feedForwardOnly: bool)
    ensures forall p :: p in candidates && !(enabled && p == (from, to))
              ==> p in WithLink(candidates, genes, from, to, enabled, feedForwardOnly)
    ensures forall p :: ProperPair(p, genes + {from, to}, feedForwardOnly) && (p.0 !in genes || p.1 !in genes)
                        && !(enabled && p == (from, to)) ==>
              p in WithLink(candidates, genes, from, to, enabled, feedForwardOnly)
    ensures enabled ==> (from, to) !in WithLink(candidates, genes, from, to, enabled, feedForwardOnly)
  {
    var ff := feedForwardOnly;
    var g1 := genes + {from};
    var c1 := Joined(candidates, genes, from, ff);
    forall p | ProperPair(p, genes + {from, to}, ff) && (p.0 !in genes || p.1 !in genes)
      ensures p in Joined(c1, g1, to, ff)
    {
      if p.0 !in g1 || p.1 !in g1 {
        JoinsNewPair(c1, g1, to, p, ff);
      } else {
        JoinsNewPair(candidates, genes, from, p, ff);
      }
    }
  }

  /** A proper pair over `genes + {neuron}` with `neuron` as an end is a candidate once a new
      `neuron` has joined. */
  lemma JoinsNewPair(candidates: set<Pair>, genes: set<NeuronGene>, neuron: NeuronGene, p: Pair, ff: bool)
    requires ProperPair(p, genes + {neuron}, ff) && (p.0 !in genes || p.1 !in genes)
    ensures p in Joined(candidates, genes, neuron, ff)
  {
    var all := genes + {neuron};
    if p.0 == neuron {
      assert p in OutgoingCandidates(neuron, all, ff) by {
        assert p == (neuron, p.1);
      }
    } else {
      assert p in IncomingCandidates(neuron, all, ff) by {
        assert p == (p.0, neuron);
      }
    }
  }

  /** The source's guard on a new link: the target's level is not 0 (input and bias neurons
      sit at level 0) and, under feed-forward-only, the link goes strictly upwards. */
  predicate LinkAllowed(from: NeuronGene, to: NeuronGene, feedForwardOnly: bool) {
    to.level != 0.0 && !(feedForwardOnly && from.level >= to.level)
  }

  /** Default neurons sit at level 0 and the output at level 1, so each default link passes
      the guard, and is proper, whatever the feed-forward setting. */
  lemma DefaultLinksAllowed(from: NeuronGene, output: NeuronGene, ff: bool)
    requires from.level == 0.0 && output.level == 1.0 && output.neuronType == Output
    ensures LinkAllowed(from, output, ff) && ProperPair((from, output), {from, output}, ff)
  {
  }

  /** The link `l` runs `from -> to` with weight `weight`. */
  predicate Carries(l: LinkGene, from: NeuronGene, to: NeuronGene, weight: Complex)
    reads l
  {
    l.from == from && l.to == to && l.weight == weight
  }

  /** One step of `Initialise`: after the defaults `neurons[..i]` have been linked to the
      output, linking `neurons[i]` leaves the candidates as they were after the first link. */
  lemma DefaultLinkStep(candidates: set<Pair>, genes: set<NeuronGene>, neurons: seq<NeuronGene>, output: NeuronGene,
                        i: nat, ff: bool)
    requires i < |neurons| - 1 && output == neurons[|neurons| - 1]
    requires output.neuronType == Output && output.level == 1.0
    requires forall k :: 0 <= k < |neurons| - 1 ==> neurons[k].level == 0.0 && !Computes(neurons[k].neuronType)
    requires forall j, k :: 0 <= j < k < |neurons| ==> neurons[j] != neurons[k]
    requires forall g :: g in genes <==> i > 0 && (g == output || g in neurons[..i])
    requires candidates == if i == 0 || ff then {} else {(output, output)}
    ensures WithLink(candidates, genes, neurons[i], output, true, ff) == if ff then {} else {(output, output)}
  {
    var from := neurons[i];
    assert from != output;
    assert from !in genes;
    assert OutgoingCandidates(from, genes + {from}, ff) == if i == 0 then {} else {(from, output)} by {
      forall p | p in OutgoingCandidates(from, genes + {from}, ff) ensures p == (from, output) && i > 0 {
      }
      if i > 0 {
        assert (from, output) in OutgoingCandidates(from, genes + {from}, ff);
      }
    }
    var c1 := Joined(candidates, genes, from, ff);
    assert c1 == candidates + if i == 0 then {} else {(from, output)};
    if i == 0 {
      assert genes + {from} == {from};
      var all := {from, output};
      assert OutgoingCandidates(output, all, ff) == if ff then {} else {(output, output)};
      assert IncomingCandidates(output, all, ff) == if ff then {(from, output)} else {(from, output), (output, output)};
    } else {
      assert output in genes + {from};
    }
  }

  /** The first `n` elements of `s`, as a set. */
  function Elements<T>(s: seq<T>, n: nat): set<T>
    requires n <= |s|
  {
    if n == 0 then {} else Elements(s, n - 1) + {s[n - 1]}
  }

  lemma {:induction false} ElementsMembers<T>(s: seq<T>, n: nat)
    requires n <= |s|
    ensures forall x :: x in Elements(s, n) <==> x in s[..n]
  {
    if n > 0 {
      ElementsMembers(s, n - 1);
      assert s[..n] == s[..n - 1] + [s[n - 1]];
    }
  }

  /** The GA's default genes as `Initialise` relies on them: link `k` runs, under number `k`,
      from the bias or input neuron `neurons[k]` (level 0) to the output, which comes last
      (level 1); the neurons are distinct. */
  ghost predicate DefaultShape(defaults: seq<LinkGene>, neurons: seq<NeuronGene>) {
    && |neurons| == |defaults| + 1
    && neurons[|defaults|].neuronType == Output && neurons[|defaults|].level == 1.0
    && (forall k :: 0 <= k < |defaults| ==> neurons[k].level == 0.0 && !Computes(neurons[k].neuronType))
    && (forall j, k :: 0 <= j < k < |neurons| ==> neurons[j] != neurons[k])
    && (forall k :: 0 <= k < |defaults| ==>
          defaults[k].innovationNumber == k && defaults[k].from == neurons[k] && defaults[k].to == neurons[|defaults|])
  }

  /** The GA's default topology has the shape `Initialise` relies on, with at least the bias
      link. */
  lemma DefaultTopologyShape(ga: BaseCPPNNEATGA)
    requires ga.HasDefaultTopology()
    ensures |ga.defaultLinkGenes| > 0 && DefaultShape(ga.defaultLinkGenes, ga.defaultNeuronGenes)
  {
  }

  /** Link `l` holds number `k` and is an enabled copy of default link `k` with weight
      `weights[k]`. */
  predicate DefaultEntry(l: LinkGene, k: nat, defaults: seq<LinkGene>, weights: seq<Complex>)
    requires k < |defaults| == |weights|
    reads l
  {
    l.innovationNumber == k && l.enabled && Carries(l, defaults[k].from, defaults[k].to, weights[k])
  }

  class GeneCollection {
    /** The GA this collection's genome belongs to (`ParentGA`). */
    const ga: BaseCPPNNEATGA
    var linkGeneMap: map<int, LinkGene>
    var neuronGeneSet: set<NeuronGene>
    var possibleConnections: set<Pair>
    var orphanedNeurons: set<NeuronGene>
    var sortedLinkGenesCacheExpired: bool
    /** Null until the cache is first filled. */
    var sortedLinkGenes: Option<seq<LinkGene>>

    ghost predicate Valid()
      reads this
    {
      && TableValid(linkGeneMap, neuronGeneSet, sortedLinkGenesCacheExpired, sortedLinkGenes)
      && orphanedNeurons <= neuronGeneSet
      && (forall n :: n in orphanedNeurons ==> n.neuronType == Hidden)
    }

    constructor (ga: BaseCPPNNEATGA)
      ensures Valid() && this.ga == ga
      ensures linkGeneMap == map[] && neuronGeneSet == {} && possibleConnections == {} && orphanedNeurons == {}
      ensures !sortedLinkGenesCacheExpired && sortedLinkGenes == None
    {
      this.ga := ga;
      linkGeneMap := map[];
      neuronGeneSet := {};
      possibleConnections := {};
      orphanedNeurons := {};
      sortedLinkGenesCacheExpired := false;
      sortedLinkGenes := None;
    }

    /** `LinkGenes`: the genes in innovation order, re-sorted only when the cache has expired.
        Before the first fill the cache is null, and reading it throws. */
    method LinkGenes() returns (r: Result<seq<LinkGene>>)
      requires Valid()
      modifies this
      ensures Valid()
      ensures old(sortedLinkGenesCacheExpired) || old(sortedLinkGenes).Some? ==> r == Success(SortedLinks(linkGeneMap))
      ensures !old(sortedLinkGenesCacheExpired) && old(sortedLinkGenes).None? ==> r == Failure("NullReferenceException")
      ensures !sortedLinkGenesCacheExpired
      ensures sortedLinkGenes.Some? <==> old(sortedLinkGenesCacheExpired) || old(sortedLinkGenes).Some?
      ensures linkGeneMap == old(linkGeneMap) && neuronGeneSet == old(neuronGeneSet)
      ensures possibleConnections == old(possibleConnections) && orphanedNeurons == old(orphanedNeurons)
    {
      if sortedLinkGenesCacheExpired {
        sortedLinkGenes := Some(SortedLinks(linkGeneMap));
        sortedLinkGenesCacheExpired := false;
      }
      if sortedLinkGenes.None? {
        return Failure("NullReferenceException");
      }
      r := Success(sortedLinkGenes.value);
    }

    /** `ValidLinks`: the enabled links in innovation order whose ends are not orphaned. */
    method ValidLinks() returns (r: Result<seq<LinkGene>>)
      requires Valid()
      modifies this
      ensures Valid()
      ensures old(sortedLinkGenesCacheExpired) || old(sortedLinkGenes).Some? ==>
        r == Success(ValidOf(SortedLinks(linkGeneMap), orphanedNeurons))
      ensures !old(sortedLinkGenesCacheExpired) && old(sortedLinkGenes).None? ==> r == Failure("NullReferenceException")
      ensures linkGeneMap == old(linkGeneMap) && neuronGeneSet == old(neuronGeneSet)
      ensures possibleConnections == old(possibleConnections) && orphanedNeurons == old(orphanedNeurons)
    {
      var links := LinkGenes();
      if links.Failure? {
        return Failure(links.error);
      }
      r := Success(ValidOf(links.value, orphanedNeurons));
    }

    /** `AddNeuronGene`: a neuron new to the set joins it, together with its candidate pairs. */
    method AddNeuronGene(neuron: NeuronGene)
      modifies this
      ensures neuronGeneSet == old(neuronGeneSet) + {neuron}
      ensures possibleConnections == Joined(old(possibleConnections), old(neuronGeneSet), neuron, ga.feedForwardOnly)
      ensures linkGeneMap == old(linkGeneMap) && orphanedNeurons == old(orphanedNeurons)
      ensures sortedLinkGenesCacheExpired == old(sortedLinkGenesCacheExpired) && sortedLinkGenes == old(sortedLinkGenes)
    {
      if neuron !in neuronGeneSet {
        neuronGeneSet := neuronGeneSet + {neuron};
        var ff := ga.feedForwardOnly;
        var outgoing := OutgoingLoop(neuron, neuronGeneSet, ff);
        var connections := possibleConnections + outgoing;
        if Computes(neuron.neuronType) {
          var incoming := IncomingLoop(neuron, neuronGeneSet, ff);
          connections := connections + incoming;
        }
        possibleConnections := connections;
      }
    }
    /** `HasBeenUnOrphaned`: `propagating` (a link of the collection leading, in direction `d`,
        into `neuron`) has become enabled; an orphaned hidden neuron it reaches from a parent
        that is not orphaned is revived, and so, transitively, is every neuron its enabled links
        lead to. */
    method HasBeenUnOrphaned(neuron: NeuronGene, propagating: LinkGene, d: Direction)
      requires Valid() && propagating in linkGeneMap.Values && ChildOf(propagating, d) == neuron
      modifies this
      decreases |orphanedNeurons|, 2
      ensures Valid() && orphanedNeurons <= old(orphanedNeurons)
      ensures Revives(neuron, propagating, old(orphanedNeurons), d) ==> neuron !in orphanedNeurons
      ensures !Revives(neuron, propagating, old(orphanedNeurons), d) ==> orphanedNeurons == old(orphanedNeurons)
      ensures Revived(linkGeneMap.Values, old(orphanedNeurons), orphanedNeurons, d)
      ensures linkGeneMap == old(linkGeneMap) && neuronGeneSet == old(neuronGeneSet)
      ensures possibleConnections == old(possibleConnections)
      ensures sortedLinkGenesCacheExpired == old(sortedLinkGenesCacheExpired) && sortedLinkGenes == old(sortedLinkGenes)
    {
      if Revives(neuron, propagating, orphanedNeurons, d) {
        Revive(neuron, d);
      }
    }

    /** The revival itself: `neuron` leaves the orphans, then the children of its enabled links
        in direction `d` are offered for revival. */
    method Revive(neuron: NeuronGene, d: Direction)
      requires Valid() && neuron in orphanedNeurons
      modifies this
      decreases |orphanedNeurons|, 1
      ensures Valid() && orphanedNeurons <= old(orphanedNeurons) && neuron !in orphanedNeurons
      ensures Revived(linkGeneMap.Values, old(orphanedNeurons), orphanedNeurons, d)
      ensures linkGeneMap == old(linkGeneMap) && neuronGeneSet == old(neuronGeneSet)
      ensures possibleConnections == old(possibleConnections)
      ensures sortedLinkGenesCacheExpired == old(sortedLinkGenesCacheExpired) && sortedLinkGenes == old(sortedLinkGenes)
    {
      Unorphan(neuron);
      var children := EnabledLinksFrom(linkGeneMap, neuron, d);
      ReviveChildren(neuron, children, d);
      RevivedAtEnd(linkGeneMap.Values, old(orphanedNeurons), orphanedNeurons, neuron, children, d);
    }

    /** `orphanedNeurons.Remove(neuron)`: a collection stays valid when a neuron leaves its orphans. */
    method Unorphan(neuron: NeuronGene)
      requires Valid()
      modifies this
      ensures Valid() && orphanedNeurons == old(orphanedNeurons) - {neuron}
      ensures linkGeneMap == old(linkGeneMap) && neuronGeneSet == old(neuronGeneSet)
      ensures possibleConnections == old(possibleConnections)
      ensures sortedLinkGenesCacheExpired == old(sortedLinkGenesCacheExpired) && sortedLinkGenes == old(sortedLinkGenes)
    {
      orphanedNeurons := orphanedNeurons - {neuron};
    }

    /** The loop of `HasBeenUnOrphaned`: each link of `children` leaves the revived `neuron`, and
        its child is offered for revival in turn. */
    method ReviveChildren(neuron: NeuronGene, children: seq<LinkGene>, d: Direction)
      requires Valid() && neuron !in orphanedNeurons
      requires forall j :: 0 <= j < |children| ==> children[j] in linkGeneMap.Values && ParentOf(children[j], d) == neuron
      modifies this
      decreases |orphanedNeurons| + 1, 0
      ensures Valid() && orphanedNeurons <= old(orphanedNeurons)
      ensures Revived(linkGeneMap.Values, old(orphanedNeurons), orphanedNeurons, d)
      ensures forall j :: 0 <= j < |children| ==> ChildOf(children[j], d) !in orphanedNeurons
      ensures linkGeneMap == old(linkGeneMap) && neuronGeneSet == old(neuronGeneSet)
      ensures possibleConnections == old(possibleConnections)
      ensures sortedLinkGenesCacheExpired == old(sortedLinkGenesCacheExpired) && sortedLinkGenes == old(sortedLinkGenes)
    {
      ghost var links := linkGeneMap.Values;
      var i := 0;
      while i < |children|
        invariant 0 <= i <= |children|
        invariant Valid() && orphanedNeurons <= old(orphanedNeurons)
        invariant Revived(links, old(orphanedNeurons), orphanedNeurons, d)
        invariant forall j :: 0 <= j < i ==> ChildOf(children[j], d) !in orphanedNeurons
        invariant linkGeneMap == old(linkGeneMap) && neuronGeneSet == old(neuronGeneSet)
        invariant possibleConnections == old(possibleConnections)
        invariant sortedLinkGenesCacheExpired == old(sortedLinkGenesCacheExpired) && sortedLinkGenes == old(sortedLinkGenes)
      {
        var link := children[i];
        ghost var before := orphanedNeurons;
        SubsetCardinality(orphanedNeurons, old(orphanedNeurons));
        HasBeenUnOrphaned(ChildOf(link, d), link, d);
        RevivalStep(links, old(orphanedNeurons), before, orphanedNeurons, children, i, neuron, d);
        i := i + 1;
      }
    }

    /** `HasBeenOrphaned`, with the valid links read once before `neuron` is orphaned: the
        link `propagating` into `neuron` (in direction `d`) has become unusable; a hidden neuron
        that no other valid link feeds is orphaned, and every child it feeds along a valid link
        is offered for orphaning in turn. */
    method HasBeenOrphaned(neuron: NeuronGene, propagating: LinkGene, d: Direction)
      requires Valid() && propagating in linkGeneMap.Values && ChildOf(propagating, d) == neuron
      modifies this
      decreases |neuronGeneSet - orphanedNeurons|, 2
      ensures Valid() && old(orphanedNeurons) <= orphanedNeurons
      ensures Orphans(neuron, propagating, linkGeneMap.Values, old(orphanedNeurons), d) ==> neuron in orphanedNeurons
      ensures !Orphans(neuron, propagating, linkGeneMap.Values, old(orphanedNeurons), d)
              ==> orphanedNeurons == old(orphanedNeurons)
      ensures Closed(linkGeneMap.Values, old(orphanedNeurons), orphanedNeurons, d)
      ensures linkGeneMap == old(linkGeneMap) && neuronGeneSet == old(neuronGeneSet)
      ensures possibleConnections == old(possibleConnections)
      ensures sortedLinkGenesCacheExpired == old(sortedLinkGenesCacheExpired) && sortedLinkGenes == old(sortedLinkGenes)
    {
      if neuron.neuronType != Hidden || neuron in orphanedNeurons {
        return;
      }
      if NoOtherValidInto(linkGeneMap, orphanedNeurons, propagating, neuron, d) {
        var children := ValidLinksFrom(linkGeneMap, orphanedNeurons, neuron, d);
        Orphan(neuron, children, d);
      }
    }

    /** The orphaning branch of `HasBeenOrphaned`: `neuron` joins the orphans and the children
        it fed along the valid links `children` (gathered before) are offered in turn. */
    method Orphan(neuron: NeuronGene, children: seq<LinkGene>, d: Direction)
      requires Valid() && neuron in neuronGeneSet && neuron.neuronType == Hidden && neuron !in orphanedNeurons
      requires forall j :: 0 <= j < |children| ==> children[j] in linkGeneMap.Values && ParentOf(children[j], d) == neuron
      requires forall l :: l in linkGeneMap.Values && IsValidLink(l, orphanedNeurons) && ParentOf(l, d) == neuron
                 ==> l in children
      modifies this
      decreases |neuronGeneSet - orphanedNeurons|, 1
      ensures Valid() && old(orphanedNeurons) + {neuron} <= orphanedNeurons
      ensures Closed(linkGeneMap.Values, old(orphanedNeurons), orphanedNeurons, d)
      ensures linkGeneMap == old(linkGeneMap) && neuronGeneSet == old(neuronGeneSet)
      ensures possibleConnections == old(possibleConnections)
      ensures sortedLinkGenesCacheExpired == old(sortedLinkGenesCacheExpired) && sortedLinkGenes == old(sortedLinkGenes)
    {
      orphanedNeurons := orphanedNeurons + {neuron};
      OrphanChildren(neuron, children, d);
      ClosedAtEnd(linkGeneMap.Values, old(orphanedNeurons), orphanedNeurons, neuron, children, d);
    }

    /** Every field but the orphan set holds the given value. */
    ghost predicate Holding(table: map<int, LinkGene>, neurons: set<NeuronGene>, candidates: set<Pair>,
                            expired: bool, cache: Option<seq<LinkGene>>)
      reads this
    {
      && linkGeneMap == table && neuronGeneSet == neurons && possibleConnections == candidates
      && sortedLinkGenesCacheExpired == expired && sortedLinkGenes == cache
    }

    /** The loop of `HasBeenOrphaned`: each link of `children` leaves the orphaned `neuron`, and
        its child is offered for orphaning in turn. */
    method OrphanChildren(neuron: NeuronGene, children: seq<LinkGene>, d: Direction)
      requires Valid() && neuron in orphanedNeurons
      requires forall j :: 0 <= j < |children| ==> children[j] in linkGeneMap.Values && ParentOf(children[j], d) == neuron
      modifies this
      decreases |neuronGeneSet - orphanedNeurons| + 1, 0
      ensures Valid() && old(orphanedNeurons) <= orphanedNeurons
      ensures Closed(linkGeneMap.Values, old(orphanedNeurons), orphanedNeurons, d)
      ensures forall j :: 0 <= j < |children| ==> Settled(linkGeneMap.Values, ChildOf(children[j], d), orphanedNeurons, d)
      ensures linkGeneMap == old(linkGeneMap) && neuronGeneSet == old(neuronGeneSet)
      ensures possibleConnections == old(possibleConnections)
      ensures sortedLinkGenesCacheExpired == old(sortedLinkGenesCacheExpired) && sortedLinkGenes == old(sortedLinkGenes)
    {
      ghost var links := linkGeneMap.Values;
      var i := 0;
      while i < |children|
        invariant 0 <= i <= |children|
        invariant Valid() && old(orphanedNeurons) <= orphanedNeurons
        invariant Closed(links, old(orphanedNeurons), orphanedNeurons, d)
        invariant forall j :: 0 <= j < i ==> Settled(links, ChildOf(children[j], d), orphanedNeurons, d)
        invariant Holding(old(linkGeneMap), old(neuronGeneSet), old(possibleConnections),
                          old(sortedLinkGenesCacheExpired), old(sortedLinkGenes)) == true
      {
        var link := children[i];
        ghost var before := orphanedNeurons;
        SubsetCardinality(neuronGeneSet - orphanedNeurons, neuronGeneSet - old(orphanedNeurons));
        HasBeenOrphaned(ChildOf(link, d), link, d);
        OrphanStep(links, old(orphanedNeurons), before, orphanedNeurons, children, i, d);
        i := i + 1;
      }
    }

    /** `HasBeenOrphaned` as the source writes it: the valid-link sequence is evaluated lazily,
        so the links leaving `neuron` are gathered only after `neuron` has joined the orphans;
        no link touching an orphan is valid, the gathered list is always empty, and the loop
        over it (omitted here) never runs. Orphaning stops at the first neuron. */
    method HasBeenOrphanedAsWritten(neuron: NeuronGene, propagating: LinkGene, d: Direction)
      requires Valid() && propagating in linkGeneMap.Values && ChildOf(propagating, d) == neuron
      modifies this
      ensures Valid()
      ensures Orphans(neuron, propagating, linkGeneMap.Values, old(orphanedNeurons), d)
              ==> orphanedNeurons == old(orphanedNeurons) + {neuron}
      ensures !Orphans(neuron, propagating, linkGeneMap.Values, old(orphanedNeurons), d)
              ==> orphanedNeurons == old(orphanedNeurons)
      ensures linkGeneMap == old(linkGeneMap) && neuronGeneSet == old(neuronGeneSet)
      ensures possibleConnections == old(possibleConnections)
      ensures sortedLinkGenesCacheExpired == old(sortedLinkGenesCacheExpired) && sortedLinkGenes == old(sortedLinkGenes)
    {
      if neuron.neuronType != Hidden || neuron in orphanedNeurons {
        return;
      }
      if NoOtherValidInto(linkGeneMap, orphanedNeurons, propagating, neuron, d) {
        OrphanAsWritten(neuron, d);
      }
    }

    /** The orphaning branch of `HasBeenOrphanedAsWritten`: `neuron` joins the orphans first,
        so the valid links gathered from it afterwards are none. */
    method OrphanAsWritten(neuron: NeuronGene, d: Direction)
      requires Valid() && neuron in neuronGeneSet && neuron.neuronType == Hidden
      modifies this
      ensures Valid() && orphanedNeurons == old(orphanedNeurons) + {neuron}
      ensures linkGeneMap == old(linkGeneMap) && neuronGeneSet == old(neuronGeneSet)
      ensures possibleConnections == old(possibleConnections)
      ensures sortedLinkGenesCacheExpired == old(sortedLinkGenesCacheExpired) && sortedLinkGenes == old(sortedLinkGenes)
    {
      orphanedNeurons := orphanedNeurons + {neuron};
      NoValidLinksFromOrphan(linkGeneMap, orphanedNeurons, neuron, d);
      var children := ValidLinksFrom(linkGeneMap, orphanedNeurons, neuron, d);
      assert children == [];
    }

    /** `TryAddLinkGene`: refused when an enabled gene already holds the number; otherwise the
        gene takes the number, its ends join the neuron set, an enabled gene's pair stops being
        a candidate, the sorted view expires, and the gene's ends are offered for revival. */
    method TryAddLinkGene(gene: LinkGene) returns (added: bool)
      requires Valid()
      modifies this
      ensures Valid()
      ensures added <==> !(gene.innovationNumber in old(linkGeneMap) && old(linkGeneMap[gene.innovationNumber].enabled))
      ensures !added ==> linkGeneMap == old(linkGeneMap) && neuronGeneSet == old(neuronGeneSet)
      ensures !added ==> possibleConnections == old(possibleConnections) && orphanedNeurons == old(orphanedNeurons)
      ensures !added ==> sortedLinkGenesCacheExpired == old(sortedLinkGenesCacheExpired)
      ensures sortedLinkGenes == old(sortedLinkGenes)
      ensures added ==> linkGeneMap == old(linkGeneMap)[gene.innovationNumber := gene]
      ensures added ==> neuronGeneSet == old(neuronGeneSet) + {gene.from, gene.to}
      ensures added ==>
        possibleConnections
        == WithLink(old(possibleConnections), old(neuronGeneSet), gene.from, gene.to, gene.enabled, ga.feedForwardOnly)
      ensures added ==> sortedLinkGenesCacheExpired && orphanedNeurons <= old(orphanedNeurons)
      ensures added && (gene.from !in old(orphanedNeurons) || gene.to !in old(orphanedNeurons))
              ==> gene.from !in orphanedNeurons && gene.to !in orphanedNeurons
    {
      if gene.innovationNumber in linkGeneMap && linkGeneMap[gene.innovationNumber].enabled {
        return false;
      }
      AddToTable(gene);
      ghost var before := orphanedNeurons;
      HasBeenUnOrphaned(gene.to, gene, Downstream);
      ghost var middle := orphanedNeurons;
      HasBeenUnOrphaned(gene.from, gene, Upstream);
      assert gene.from !in before || gene.to !in before ==> gene.to !in middle;
      return true;
    }

    /** The bookkeeping half of `TryAddLinkGene`, up to the revival of the gene's ends. */
    method AddToTable(gene: LinkGene)
      requires Valid()
      modifies this
      ensures Valid() && gene in linkGeneMap.Values
      ensures linkGeneMap == old(linkGeneMap)[gene.innovationNumber := gene]
      ensures neuronGeneSet == old(neuronGeneSet) + {gene.from, gene.to}
      ensures possibleConnections
        == WithLink(old(possibleConnections), old(neuronGeneSet), gene.from, gene.to, gene.enabled, ga.feedForwardOnly)
      ensures sortedLinkGenesCacheExpired && sortedLinkGenes == old(sortedLinkGenes)
      ensures orphanedNeurons == old(orphanedNeurons)
    {
      linkGeneMap := linkGeneMap[gene.innovationNumber := gene];
      AddNeuronGene(gene.from);
      AddNeuronGene(gene.to);
      if gene.enabled {
        possibleConnections := possibleConnections - {(gene.from, gene.to)};
      }
      sortedLinkGenesCacheExpired := true;
      assert linkGeneMap[gene.innovationNumber] == gene;
      assert forall l :: l in linkGeneMap.Values ==> l == gene || l in old(linkGeneMap).Values;
    }

    /** `DisableLinkGene`: the link stops being enabled, its pair becomes a candidate again,
        and its ends are offered for orphaning: the To end downstream (giving `middle`), then
        the From end upstream. */
    method DisableLinkGene(selected: LinkGene) returns (ghost middle: set<NeuronGene>)
      requires Valid() && selected in linkGeneMap.Values
      modifies this, selected
      ensures Valid() && !selected.enabled && selected.weight == old(selected.weight)
      ensures possibleConnections == old(possibleConnections) + {(selected.from, selected.to)}
      ensures old(orphanedNeurons) <= middle <= orphanedNeurons
      ensures Orphans(selected.to, selected, linkGeneMap.Values, old(orphanedNeurons), Downstream)
              ==> selected.to in middle
      ensures !Orphans(selected.to, selected, linkGeneMap.Values, old(orphanedNeurons), Downstream)
              ==> middle == old(orphanedNeurons)
      ensures Closed(linkGeneMap.Values, old(orphanedNeurons), middle, Downstream)
      ensures Orphans(selected.from, selected, linkGeneMap.Values, middle, Upstream) ==> selected.from in orphanedNeurons
      ensures !Orphans(selected.from, selected, linkGeneMap.Values, middle, Upstream) ==> orphanedNeurons == middle
      ensures Closed(linkGeneMap.Values, middle, orphanedNeurons, Upstream)
      ensures linkGeneMap == old(linkGeneMap) && neuronGeneSet == old(neuronGeneSet)
      ensures sortedLinkGenesCacheExpired == old(sortedLinkGenesCacheExpired) && sortedLinkGenes == old(sortedLinkGenes)
    {
      selected.enabled := false;
      possibleConnections := possibleConnections + {(selected.from, selected.to)};
      HasBeenOrphaned(selected.to, selected, Downstream);
      middle := orphanedNeurons;
      HasBeenOrphaned(selected.from, selected, Upstream);
    }

    /** `EnableLinkGene`: the link is enabled again, its pair stops being a candidate, and its
        ends are offered for revival: the To end downstream (giving `middle`), then the From end
        upstream. */
    method EnableLinkGene(selected: LinkGene) returns (ghost middle: set<NeuronGene>)
      requires Valid() && selected in linkGeneMap.Values
      modifies this, selected
      ensures Valid() && selected.enabled && selected.weight == old(selected.weight)
      ensures possibleConnections == old(possibleConnections) - {(selected.from, selected.to)}
      ensures orphanedNeurons <= middle <= old(orphanedNeurons)
      ensures Revives(selected.to, selected, old(orphanedNeurons), Downstream) ==> selected.to !in middle
      ensures !Revives(selected.to, selected, old(orphanedNeurons), Downstream) ==> middle == old(orphanedNeurons)
      ensures Revived(linkGeneMap.Values, old(orphanedNeurons), middle, Downstream)
      ensures Revives(selected.from, selected, middle, Upstream) ==> selected.from !in orphanedNeurons
      ensures !Revives(selected.from, selected, middle, Upstream) ==> orphanedNeurons == middle
      ensures Revived(linkGeneMap.Values, middle, orphanedNeurons, Upstream)
      ensures selected.from !in old(orphanedNeurons) || selected.to !in old(orphanedNeurons)
              ==> selected.from !in orphanedNeurons && selected.to !in orphanedNeurons
      ensures linkGeneMap == old(linkGeneMap) && neuronGeneSet == old(neuronGeneSet)
      ensures sortedLinkGenesCacheExpired == old(sortedLinkGenesCacheExpired) && sortedLinkGenes == old(sortedLinkGenes)
    {
      selected.enabled := true;
      possibleConnections := possibleConnections - {(selected.from, selected.to)};
      HasBeenUnOrphaned(selected.to, selected, Downstream);
      middle := orphanedNeurons;
      HasBeenUnOrphaned(selected.from, selected, Upstream);
    }

    /** `DisableLinkGene(int)`: the gene stored under the number; a missing number is a
        missing dictionary key. */
    method DisableLinkGeneByNumber(innovationNumber: int) returns (r: Result<()>)
      requires Valid()
      modifies this, linkGeneMap.Values
      ensures Valid()
      ensures r.Failure? <==> innovationNumber !in linkGeneMap
      ensures r.Failure? ==> r.error == "KeyNotFoundException" && possibleConnections == old(possibleConnections)
      ensures r.Failure? ==> orphanedNeurons == old(orphanedNeurons)
      ensures r.Success? ==> !linkGeneMap[innovationNumber].enabled
      ensures r.Success? ==>
        possibleConnections == old(possibleConnections) + {(linkGeneMap[innovationNumber].from, linkGeneMap[innovationNumber].to)}
      ensures r.Success? ==> old(orphanedNeurons) <= orphanedNeurons
      ensures forall l :: l in old(linkGeneMap.Values) && (r.Failure? || l != linkGeneMap[innovationNumber])
                         ==> l.enabled == old(l.enabled)
      ensures forall l :: l in old(linkGeneMap.Values) ==> l.weight == old(l.weight)
      ensures linkGeneMap == old(linkGeneMap) && neuronGeneSet == old(neuronGeneSet)
      ensures sortedLinkGenesCacheExpired == old(sortedLinkGenesCacheExpired) && sortedLinkGenes == old(sortedLinkGenes)
    {
      if innovationNumber !in linkGeneMap {
        return Failure("KeyNotFoundException");
      }
      var _ := DisableLinkGene(linkGeneMap[innovationNumber]);
      r := Success(());
    }

    /** `EnableLinkGene(int)`: the gene stored under the number; a missing number is a
        missing dictionary key. */
    method EnableLinkGeneByNumber(innovationNumber: int) returns (r: Result<()>)
      requires Valid()
      modifies this, linkGeneMap.Values
      ensures Valid()
      ensures r.Failure? <==> innovationNumber !in linkGeneMap
      ensures r.Failure? ==> r.error == "KeyNotFoundException" && possibleConnections == old(possibleConnections)
      ensures r.Failure? ==> orphanedNeurons == old(orphanedNeurons)
      ensures r.Success? ==> linkGeneMap[innovationNumber].enabled
      ensures r.Success? ==>
        possibleConnections == old(possibleConnections) - {(linkGeneMap[innovationNumber].from, linkGeneMap[innovationNumber].to)}
      ensures r.Success? ==> orphanedNeurons <= old(orphanedNeurons)
      ensures forall l :: l in old(linkGeneMap.Values) && (r.Failure? || l != linkGeneMap[innovationNumber])
                         ==> l.enabled == old(l.enabled)
      ensures forall l :: l in old(linkGeneMap.Values) ==> l.weight == old(l.weight)
      ensures linkGeneMap == old(linkGeneMap) && neuronGeneSet == old(neuronGeneSet)
      ensures sortedLinkGenesCacheExpired == old(sortedLinkGenesCacheExpired) && sortedLinkGenes == old(sortedLinkGenes)
    {
      if innovationNumber !in linkGeneMap {
        return Failure("KeyNotFoundException");
      }
      var _ := EnableLinkGene(linkGeneMap[innovationNumber]);
      r := Success(());
    }

    /** `GetRandomEnabledLinkGene`: the enabled links in innovation order, one picked by draw
        `u`; none when no link is enabled. */
    method GetRandomEnabledLinkGene(u: real) returns (r: Result<Option<LinkGene>>)
      requires Valid() && IsDraw(u)
      modifies this
      ensures Valid()
      ensures r.Failure? <==> !old(sortedLinkGenesCacheExpired) && old(sortedLinkGenes).None?
      ensures r.Success? ==> r.value == RandomSingle(EnabledOf(SortedLinks(linkGeneMap)), u)
      ensures r.Success? ==> (r.value.None? <==> forall l :: l in linkGeneMap.Values ==> !l.enabled)
      ensures r.Success? && r.value.Some? ==> r.value.value in linkGeneMap.Values && r.value.value.enabled
      ensures linkGeneMap == old(linkGeneMap) && neuronGeneSet == old(neuronGeneSet)
      ensures possibleConnections == old(possibleConnections) && orphanedNeurons == old(orphanedNeurons)
    {
      var links := LinkGenes();
      if links.Failure? {
        return Failure(links.error);
      }
      var enabled := EnabledOf(links.value);
      if exists l :: l in linkGeneMap.Values && l.enabled {
        var l :| l in linkGeneMap.Values && l.enabled;
        assert l in enabled;
      }
      if |enabled| > 0 {
        assert enabled[0] in enabled;
      }
      r := Success(RandomSingle(enabled, u));
    }

    /** `TryDisableLinkGene`: disables a link picked by draw `u` among the enabled ones;
        false when there is none. */
    method TryDisableLinkGene(u: real) returns (r: Result<bool>)
      requires Valid() && IsDraw(u)
      modifies this, linkGeneMap.Values
      ensures Valid()
      ensures r.Failure? <==> !old(sortedLinkGenesCacheExpired) && old(sortedLinkGenes).None?
      ensures r.Success? && !r.value <==> r.Success? && forall l :: l in old(linkGeneMap.Values) ==> !old(l.enabled)
      ensures !(r == Success(true)) ==> possibleConnections == old(possibleConnections)
      ensures !(r == Success(true)) ==> orphanedNeurons == old(orphanedNeurons)
      ensures !(r == Success(true)) ==> forall l :: l in old(linkGeneMap.Values) ==> l.enabled == old(l.enabled)
      ensures r == Success(true) ==>
        exists l :: l in old(linkGeneMap.Values) && old(l.enabled) && !l.enabled
                    && possibleConnections == old(possibleConnections) + {(l.from, l.to)}
      ensures old(orphanedNeurons) <= orphanedNeurons
      ensures linkGeneMap == old(linkGeneMap) && neuronGeneSet == old(neuronGeneSet)
    {
      var picked := GetRandomEnabledLinkGene(u);
      if picked.Failure? {
        return Failure(picked.error);
      }
      if picked.value.None? {
        return Success(false);
      }
      var selected := picked.value.value;
      ghost var connections := possibleConnections;
      var _ := DisableLinkGene(selected);
      assert possibleConnections == connections + {(selected.from, selected.to)};
      return Success(true);
    }

    /** `TryCreateLinkGene(from, to)`: throws when the guard fails; otherwise offers
        `TryAddLinkGene` a new gene numbered by the GA for the pair, with weight `weight`. */
    method TryCreateLinkGene(from: NeuronGene, to: NeuronGene, weight: Complex) returns (r: Result<bool>)
      requires Valid() && ga.Valid()
      modifies this, ga
      ensures Valid() && ga.Valid()
      ensures r.Failure? <==> !LinkAllowed(from, to, ga.feedForwardOnly)
      ensures r.Failure? ==> r.error == "ApplicationException" && ga.edgeInnovationNumberMap == old(ga.edgeInnovationNumberMap)
      ensures !(r == Success(true)) ==> linkGeneMap == old(linkGeneMap) && neuronGeneSet == old(neuronGeneSet)
      ensures !(r == Success(true)) ==> possibleConnections == old(possibleConnections)
      ensures !(r == Success(true)) ==> orphanedNeurons == old(orphanedNeurons)
      ensures r.Success? ==> (from, to) in ga.edgeInnovationNumberMap
      ensures r.Success? ==>
        var n := ga.edgeInnovationNumberMap[(from, to)];
        (r.value <==> !(n in old(linkGeneMap) && old(linkGeneMap[n].enabled)))
      ensures r == Success(true) ==>
        var n := ga.edgeInnovationNumberMap[(from, to)];
        && n in linkGeneMap && fresh(linkGeneMap[n]) && linkGeneMap[n].enabled && linkGeneMap[n].weight == weight
        && linkGeneMap[n].innovationNumber == n && linkGeneMap[n].from == from && linkGeneMap[n].to == to
        && linkGeneMap == old(linkGeneMap)[n := linkGeneMap[n]]
      ensures r == Success(true) ==> neuronGeneSet == old(neuronGeneSet) + {from, to}
      ensures r == Success(true) ==>
        possibleConnections == WithLink(old(possibleConnections), old(neuronGeneSet), from, to, true, ga.feedForwardOnly)
    {
      if to.level == 0.0 {
        return Failure("ApplicationException");
      } else if ga.feedForwardOnly && from.level >= to.level {
        return Failure("ApplicationException");
      }
      var n := ga.GetEdgeInnovationNumber(from, to);
      var gene := new LinkGene(n, from, to, weight);
      var added := TryAddLinkGene(gene);
      r := Success(added);
    }

    /** `TryCreateLinkGene()`: a candidate pair picked by draw `u` from the candidates listed
        in the set's enumeration order `order`, handed to `TryCreateLinkGene(from, to)`; false
        when there are no candidates. */
    method TryCreateRandomLinkGene(order: seq<Pair>, u: real, weight: Complex) returns (r: Result<bool>)
      requires Valid() && ga.Valid() && IsDraw(u)
      requires forall p :: p in order <==> p in possibleConnections
      modifies this, ga
      ensures Valid() && ga.Valid()
      ensures |order| == 0 ==> r == Success(false)
      ensures |order| > 0 ==>
        var p := RandomSingle(order, u).value;
        && p in old(possibleConnections)
        && (r.Failure? <==> !LinkAllowed(p.0, p.1, ga.feedForwardOnly))
        && (r.Success? ==> (p.0, p.1) in ga.edgeInnovationNumberMap)
        && (r == Success(true) ==> neuronGeneSet == old(neuronGeneSet) + {p.0, p.1} && p !in possibleConnections)
      ensures !(r == Success(true)) ==> linkGeneMap == old(linkGeneMap) && neuronGeneSet == old(neuronGeneSet)
      ensures !(r == Success(true)) ==> possibleConnections == old(possibleConnections)
    {
      var connection := RandomSingle(order, u);
      if connection.None? {
        return Success(false);
      }
      var p := connection.value;
      ghost var genes := neuronGeneSet;
      ghost var candidates := possibleConnections;
      r := TryCreateLinkGene(p.0, p.1, weight);
      if r == Success(true) {
        WithLinkCandidates(candidates, genes, p.0, p.1, true, ga.feedForwardOnly);
      }
    }

    /** `CreateNeuronGene`: splits `selected`. The link is disabled, the GA supplies the hidden
        neuron for its number (function picked by draw `u`), and two links are offered:
        From -> new with weight 1, numbered `first`, and new -> To with the old weight,
        numbered `second`. A number no gene held before always gets its new link. */
    method CreateNeuronGene(selected: LinkGene, u: real) returns (r: Result<NeuronGene>, ghost first: int,
                                                                   ghost second: int)
      requires Valid() && ga.Valid() && selected in linkGeneMap.Values && IsDraw(u)
      modifies this, selected, ga
      ensures Valid() && ga.Valid() && !selected.enabled && selected.weight == old(selected.weight)
      ensures r.Failure? <==>
        selected.innovationNumber !in old(ga.hiddenNeuronMap)
        && (selected.innovationNumber !in ga.edgeMap || (ga.listHoldsFactories && |ga.canonicalFunctionList| == 0))
      ensures r.Failure? ==> linkGeneMap == old(linkGeneMap) && neuronGeneSet == old(neuronGeneSet)
      ensures r.Success? ==>
        selected.innovationNumber in ga.hiddenNeuronMap && r.value == ga.hiddenNeuronMap[selected.innovationNumber]
      ensures r.Success? ==>
        (selected.from, r.value) in ga.edgeInnovationNumberMap && ga.edgeInnovationNumberMap[(selected.from, r.value)] == first
      ensures r.Success? ==>
        (r.value, selected.to) in ga.edgeInnovationNumberMap && ga.edgeInnovationNumberMap[(r.value, selected.to)] == second
      ensures r.Success? ==> first in linkGeneMap && linkGeneMap[first].enabled
      ensures r.Success? ==> second in linkGeneMap && linkGeneMap[second].enabled
      ensures r.Success? && first !in old(linkGeneMap) ==> Carries(linkGeneMap[first], selected.from, r.value, One)
      ensures r.Success? && second !in old(linkGeneMap) && second != first ==>
        Carries(linkGeneMap[second], r.value, selected.to, old(selected.weight))
      ensures r.Success? ==> linkGeneMap.Keys == old(linkGeneMap).Keys + {first, second}
    {
      var _ := DisableLinkGene(selected);
      var newNeuron := ga.GetHiddenNeuron(selected.innovationNumber, u);
      if newNeuron.Failure? {
        return Failure(newNeuron.error), 0, 0;
      }
      var hidden := newNeuron.value;
      first, second := AddSplitLinks(selected.from, hidden, selected.to, selected.weight);
      r := Success(hidden);
    }

    /** The two additions of `CreateNeuronGene`: `from -> hidden` with weight 1, then
        `hidden -> to` with weight `weight`. */
    method AddSplitLinks(from: NeuronGene, hidden: NeuronGene, to: NeuronGene, weight: Complex)
      returns (first: int, second: int)
      requires Valid() && ga.Valid()
      modifies this, ga
      ensures Valid() && ga.Valid() && ga.hiddenNeuronMap == old(ga.hiddenNeuronMap)
      ensures (from, hidden) in ga.edgeInnovationNumberMap && ga.edgeInnovationNumberMap[(from, hidden)] == first
      ensures (hidden, to) in ga.edgeInnovationNumberMap && ga.edgeInnovationNumberMap[(hidden, to)] == second
      ensures first in linkGeneMap && linkGeneMap[first].enabled
      ensures second in linkGeneMap && linkGeneMap[second].enabled
      ensures first !in old(linkGeneMap) ==> Carries(linkGeneMap[first], from, hidden, One)
      ensures second !in old(linkGeneMap) && second != first ==> Carries(linkGeneMap[second], hidden, to, weight)
      ensures linkGeneMap.Keys == old(linkGeneMap).Keys + {first, second}
    {
      ghost var keys := linkGeneMap.Keys;
      first := AddNumberedLink(from, hidden, One);
      second := AddLinkBeside(hidden, to, weight, first, from, hidden, first !in keys, keys);
    }

    /** The second of `CreateNeuronGene`'s additions, beside the first (`first`, numbered for
        `from1 -> to1`, carrying weight one when it was new to the table `keys` held): the
        first keeps its number and its enabled gene. */
    method AddLinkBeside(from: NeuronGene, to: NeuronGene, weight: Complex,
                         ghost first: int, ghost from1: NeuronGene, ghost to1: NeuronGene, ghost isNew: bool,
                         ghost keys: set<int>)
      returns (n: int)
      requires Valid() && ga.Valid()
      requires (from1, to1) in ga.edgeInnovationNumberMap && ga.edgeInnovationNumberMap[(from1, to1)] == first
      requires first in linkGeneMap && linkGeneMap[first].enabled && linkGeneMap.Keys == keys + {first}
      requires isNew ==> Carries(linkGeneMap[first], from1, to1, One)
      modifies this, ga
      ensures Valid() && ga.Valid() && ga.hiddenNeuronMap == old(ga.hiddenNeuronMap)
      ensures (from1, to1) in ga.edgeInnovationNumberMap && ga.edgeInnovationNumberMap[(from1, to1)] == first
      ensures (from, to) in ga.edgeInnovationNumberMap && ga.edgeInnovationNumberMap[(from, to)] == n
      ensures first in linkGeneMap && linkGeneMap[first].enabled
      ensures n in linkGeneMap && linkGeneMap[n].enabled
      ensures isNew ==> Carries(linkGeneMap[first], from1, to1, One)
      ensures n !in keys && n != first ==> Carries(linkGeneMap[n], from, to, weight)
      ensures linkGeneMap.Keys == keys + {first, n}
    {
      n := AddNumberedLink(from, to, weight);
    }

    /** One of `CreateNeuronGene`'s two additions: a new gene `from -> to` with weight `weight`,
        numbered `n` by the GA, offered to `TryAddLinkGene`. Afterwards an enabled gene holds
        `n`: the new one, unless an enabled gene held `n` already. */
    method AddNumberedLink(from: NeuronGene, to: NeuronGene, weight: Complex) returns (n: int)
      requires Valid() && ga.Valid()
      modifies this, ga
      ensures Valid() && ga.Valid()
      ensures (from, to) in ga.edgeInnovationNumberMap && ga.edgeInnovationNumberMap[(from, to)] == n
      ensures forall e :: e in old(ga.edgeInnovationNumberMap) ==>
                e in ga.edgeInnovationNumberMap && ga.edgeInnovationNumberMap[e] == old(ga.edgeInnovationNumberMap[e])
      ensures ga.hiddenNeuronMap == old(ga.hiddenNeuronMap)
      ensures n in linkGeneMap && linkGeneMap[n].enabled && linkGeneMap.Keys == old(linkGeneMap).Keys + {n}
      ensures n !in old(linkGeneMap) ==> Carries(linkGeneMap[n], from, to, weight)
      ensures forall k :: k in old(linkGeneMap) && (k != n || old(linkGeneMap[k].enabled))
                ==> linkGeneMap[k] == old(linkGeneMap[k])
    {
      n := ga.GetEdgeInnovationNumber(from, to);
      var gene := new LinkGene(n, from, to, weight);
      var _ := TryAddLinkGene(gene);
    }

    /** `TryCreateNeuronGene`: splits a link picked by draw `u` among the enabled ones (the
        new neuron's function picked by draw `v`); false when no link is enabled. */
    method TryCreateNeuronGene(u: real, v: real) returns (r: Result<bool>)
      requires Valid() && ga.Valid() && IsDraw(u) && IsDraw(v)
      modifies this, linkGeneMap.Values, ga
      ensures Valid() == true && ga.Valid() == true
      ensures r == Success(false) <==> (old(sortedLinkGenesCacheExpired) || old(sortedLinkGenes).Some?)
                                       && forall l :: l in old(linkGeneMap.Values) ==> !old(l.enabled)
      ensures r == Success(false) ==> linkGeneMap == old(linkGeneMap) && possibleConnections == old(possibleConnections)
      ensures r.Success? && r.value ==> exists l :: l in old(linkGeneMap.Values) && old(l.enabled) && !l.enabled
      ensures old(linkGeneMap).Keys <= linkGeneMap.Keys
    {
      var picked := GetRandomEnabledLinkGene(u);
      if picked.Failure? {
        r := Failure(picked.error);
      } else if picked.value.None? {
        r := Success(false);
      } else {
        var selected := picked.value.value;
        assert selected in old(linkGeneMap.Values) && old(selected.enabled);
        r := SplitLink(selected, v);
      }
    }

    /** `CreateNeuronGene` on the picked link, its outcome seen by `TryCreateNeuronGene`: the
        link ends disabled and no number leaves the table. */
    method SplitLink(selected: LinkGene, v: real) returns (r: Result<bool>)
      requires Valid() == true && ga.Valid() == true && selected in linkGeneMap.Values && IsDraw(v)
      modifies this, selected, ga
      ensures Valid() == true && ga.Valid() == true && !selected.enabled
      ensures r == Success(true) || r.Failure?
      ensures r.Failure? ==> linkGeneMap == old(linkGeneMap)
      ensures old(linkGeneMap).Keys <= linkGeneMap.Keys
    {
      var created, _, _ := CreateNeuronGene(selected, v);
      if created.Failure? {
        return Failure(created.error);
      }
      return Success(true);
    }

    /** `Initialise`: everything is emptied and the sorted view expires; then each default
        link of the GA is added as a new gene with the same number and ends and the weight
        `weights[k]` drawn for it. Afterwards the neurons are the default ones, nothing is
        orphaned, and the only candidate left is the output's link to itself, which
        feed-forward-only rules out as well. */
    method Initialise(weights: seq<Complex>)
      requires ga.HasDefaultTopology() && |weights| == |ga.defaultLinkGenes|
      modifies this
      ensures Valid() && orphanedNeurons == {} && sortedLinkGenesCacheExpired
      ensures forall k :: k in linkGeneMap <==> 0 <= k < |weights|
      ensures forall k :: 0 <= k < |weights| ==>
        fresh(linkGeneMap[k]) && DefaultEntry(linkGeneMap[k], k, ga.defaultLinkGenes, weights)
      ensures forall g :: g in neuronGeneSet <==> g in ga.defaultNeuronGenes
      ensures possibleConnections
        == if ga.feedForwardOnly then {} else {(ga.defaultNeuronGenes[ga.numberOfInputs + 1],
                                               ga.defaultNeuronGenes[ga.numberOfInputs + 1])}
    {
      linkGeneMap := map[];
      neuronGeneSet := {};
      possibleConnections := {};
      orphanedNeurons := {};
      sortedLinkGenesCacheExpired := true;
      DefaultTopologyShape(ga);
      AddDefaultLinks(ga.defaultLinkGenes, weights, ga.defaultNeuronGenes);
      AllInitialised(ga.defaultLinkGenes, weights, ga.defaultNeuronGenes);
    }

    /** The loop of `Initialise`: a new copy of each default link, with its drawn weight, is
        added to the emptied collection. */
    method AddDefaultLinks(defaults: seq<LinkGene>, weights: seq<Complex>, ghost neurons: seq<NeuronGene>)
      requires |defaults| == |weights| && |defaults| > 0 && DefaultShape(defaults, neurons)
      requires linkGeneMap == map[] && neuronGeneSet == {} && possibleConnections == {}
      requires orphanedNeurons == {} && sortedLinkGenesCacheExpired
      modifies this
      ensures InitialisedUpTo(|defaults|, defaults, weights, neurons)
      ensures forall k :: 0 <= k < |defaults| ==> fresh(linkGeneMap[k])
    {
      EmptyIsInitialised(defaults, weights, neurons);
      var i := 0;
      while i < |defaults|
        invariant 0 <= i <= |defaults|
        invariant InitialisedUpTo(i, defaults, weights, neurons)
        invariant forall k :: 0 <= k < i ==> fresh(linkGeneMap[k])
      {
        var d := defaults[i];
        var gene := new LinkGene(d.innovationNumber, d.from, d.to, weights[i]);
        InitialiseStep(i, gene, defaults, weights, neurons);
        i := i + 1;
      }
    }

    lemma EmptyIsInitialised(defaults: seq<LinkGene>, weights: seq<Complex>, neurons: seq<NeuronGene>)
      requires |defaults| == |weights| && |neurons| == |defaults| + 1
      requires linkGeneMap == map[] && neuronGeneSet == {} && possibleConnections == {}
      requires orphanedNeurons == {} && sortedLinkGenesCacheExpired
      ensures InitialisedUpTo(0, defaults, weights, neurons)
    {
    }

    /** Once every default link is in, the neurons are exactly the default ones. */
    lemma AllInitialised(defaults: seq<LinkGene>, weights: seq<Complex>, neurons: seq<NeuronGene>)
      requires |defaults| == |weights| && |defaults| > 0 && |neurons| == |defaults| + 1
      requires InitialisedUpTo(|defaults|, defaults, weights, neurons)
      ensures Valid() && orphanedNeurons == {} && sortedLinkGenesCacheExpired
      ensures forall k :: k in linkGeneMap <==> 0 <= k < |weights|
      ensures forall k :: 0 <= k < |weights| ==> DefaultEntry(linkGeneMap[k], k, defaults, weights)
      ensures forall g :: g in neuronGeneSet <==> g in neurons
      ensures possibleConnections
        == if ga.feedForwardOnly then {} else {(neurons[|defaults|], neurons[|defaults|])}
    {
      var n := |defaults|;
      ElementsMembers(neurons, n);
      assert neurons == neurons[..n] + [neurons[n]];
    }

    /** After the first `i` default links: exactly the numbers below `i` are held, each by a
        copy of its default link with its drawn weight; the neurons are those links' ends; and
        the candidates are those the first default link left. */
    ghost predicate InitialisedUpTo(i: nat, defaults: seq<LinkGene>, weights: seq<Complex>, neurons: seq<NeuronGene>)
      reads this, linkGeneMap.Values
      requires i <= |defaults| == |weights| && |neurons| == |defaults| + 1
    {
      var output := neurons[|neurons| - 1];
      && Valid() && orphanedNeurons == {} && sortedLinkGenesCacheExpired
      && (forall k :: k in linkGeneMap <==> 0 <= k < i)
      && (forall k :: 0 <= k < i ==> DefaultEntry(linkGeneMap[k], k, defaults, weights))
      && neuronGeneSet == (if i == 0 then {} else {output} + Elements(neurons, i))
      && possibleConnections == if i == 0 || ga.feedForwardOnly then {} else {(output, output)}
    }

    /** The body of `Initialise`'s loop: `gene`, a new copy of default link `i`, is added. */
    method InitialiseStep(i: nat, gene: LinkGene, defaults: seq<LinkGene>, weights: seq<Complex>,
                          ghost neurons: seq<NeuronGene>)
      requires i < |defaults| == |weights| && |neurons| == |defaults| + 1
      requires InitialisedUpTo(i, defaults, weights, neurons) && DefaultShape(defaults, neurons)
      requires gene.innovationNumber == defaults[i].innovationNumber && gene.enabled
      requires Carries(gene, defaults[i].from, defaults[i].to, weights[i])
      modifies this
      ensures InitialisedUpTo(i + 1, defaults, weights, neurons)
      ensures linkGeneMap == old(linkGeneMap)[i := gene]
    {
      ghost var output := neurons[|neurons| - 1];
      ghost var genes := neuronGeneSet;
      ElementsMembers(neurons, i);
      DefaultLinkStep(possibleConnections, neuronGeneSet, neurons, output, i, ga.feedForwardOnly);
      assert gene.innovationNumber == i && gene.from == neurons[i] && gene.to == output;
      AddDefaultLink(gene, i, defaults, weights);
      NeuronsStep(genes, neurons, output, i);
    }

    /** `TryAddLinkGene` of default link `i` into a table holding the first `i`: the gene is
        added, with its endpoints and the candidate pairs they bring. */
    method AddDefaultLink(gene: LinkGene, i: nat, defaults: seq<LinkGene>, weights: seq<Complex>)
      requires Valid() && gene.enabled && i < |defaults| == |weights| && gene.innovationNumber == i
      requires forall k :: k in linkGeneMap <==> 0 <= k < i
      requires forall k :: 0 <= k < i ==> DefaultEntry(linkGeneMap[k], k, defaults, weights)
      requires DefaultEntry(gene, i, defaults, weights)
      modifies this
      ensures Valid() && orphanedNeurons <= old(orphanedNeurons) && sortedLinkGenesCacheExpired
      ensures linkGeneMap == old(linkGeneMap)[i := gene]
      ensures forall k :: k in linkGeneMap <==> 0 <= k < i + 1
      ensures forall k :: 0 <= k < i + 1 ==> DefaultEntry(linkGeneMap[k], k, defaults, weights)
      ensures neuronGeneSet == old(neuronGeneSet) + {gene.from, gene.to}
      ensures possibleConnections
              == WithLink(old(possibleConnections), old(neuronGeneSet), gene.from, gene.to, true, ga.feedForwardOnly)
    {
      ghost var before := linkGeneMap;
      var added := TryAddLinkGene(gene);
      assert forall k :: 0 <= k < i ==> DefaultEntry(before[k], k, defaults, weights);
      EntriesStep(before, linkGeneMap, i, gene, defaults, weights);
    }

    /** Adding default link `i` adds its source, the `i`-th neuron, to the neurons held. */
    lemma NeuronsStep(genes: set<NeuronGene>, neurons: seq<NeuronGene>, output: NeuronGene, i: nat)
      requires i < |neurons|
      requires genes == if i == 0 then {} else {output} + Elements(neurons, i)
      ensures genes + {neurons[i], output} == {output} + Elements(neurons, i + 1)
    {
      assert Elements(neurons, i + 1) == Elements(neurons, i) + {neurons[i]};
    }

    /** Adding default link `i` under its number extends the held numbers and entries by one. */
    lemma EntriesStep(before: map<int, LinkGene>, after: map<int, LinkGene>, i: nat, gene: LinkGene,
                      defaults: seq<LinkGene>, weights: seq<Complex>)
      requires i < |defaults| == |weights|
      requires forall k :: k in before <==> 0 <= k < i
      requires forall k :: 0 <= k < i ==> DefaultEntry(before[k], k, defaults, weights)
      requires after == before[i := gene] && DefaultEntry(gene, i, defaults, weights)
      ensures forall k :: k in after <==> 0 <= k < i + 1
      ensures forall k :: 0 <= k < i + 1 ==> DefaultEntry(after[k], k, defaults, weights)
    {
    }
  }
}
