/**
 * `CPPNNEATGenome.DifferenceAnalysis` (ComplexCPPNNEAT, CPPNNEAT and NEATSpacesLibrary carry the
 * same loop): two link-gene lists, each in innovation order, are walked side by side and every
 * gene is filed as matched (both lists hold its innovation number), disjoint (it falls inside
 * the other list's range) or excess (it comes after the other list has run out).
 *
 * The walk is specified by `Align`, generic in the element type and in the function that gives
 * an element's innovation number, so that the repository's table tests can be stated on plain
 * numbers.
 */
module Alignments {
  import opened ListExtensions

  /** One side's genes that found no partner. */
  datatype Unmatched<G> = Unmatched(excess: seq<G>, disjoint: seq<G>)

  /** The three result lists of `DifferenceAnalysis`: `FirstCollection`, `SecondCollection` and
      `Matches` (first-list gene, second-list gene). */
  datatype Alignment<G> = Alignment(first: Unmatched<G>, second: Unmatched<G>, matches: seq<(G, G)>)

  function Empty<G>(): Alignment<G> {
    Alignment(Unmatched([], []), Unmatched([], []), [])
  }

  /** Each list of `x` followed by the same list of `y`. */
  function Append<G>(x: Alignment<G>, y: Alignment<G>): Alignment<G> {
    Alignment(Unmatched(x.first.excess + y.first.excess, x.first.disjoint + y.first.disjoint),
              Unmatched(x.second.excess + y.second.excess, x.second.disjoint + y.second.disjoint),
              x.matches + y.matches)
  }

  function FirstExcess<G>(g: G): Alignment<G> {
    Alignment(Unmatched([g], []), Unmatched([], []), [])
  }

  function SecondExcess<G>(g: G): Alignment<G> {
    Alignment(Unmatched([], []), Unmatched([g], []), [])
  }

  function FirstDisjoint<G>(g: G): Alignment<G> {
    Alignment(Unmatched([], [g]), Unmatched([], []), [])
  }

  function SecondDisjoint<G>(g: G): Alignment<G> {
    Alignment(Unmatched([], []), Unmatched([], [g]), [])
  }

  function Matched<G>(g: G, h: G): Alignment<G> {
    Alignment(Unmatched([], []), Unmatched([], []), [(g, h)])
  }

  /** The walk: the head of `a` against the head of `b`, in the order the loop tests them. */
  function Align<G>(a: seq<G>, b: seq<G>, num: G -> int): Alignment<G>
    decreases |a| + |b|
  {
    if a == [] && b == [] then Empty()
    else if a == [] then Append(SecondExcess(b[0]), Align(a, b[1..], num))
    else if b == [] then Append(FirstExcess(a[0]), Align(a[1..], b, num))
    else if num(a[0]) == num(b[0]) then Append(Matched(a[0], b[0]), Align(a[1..], b[1..], num))
    else if num(b[0]) > num(a[0]) then Append(FirstDisjoint(a[0]), Align(a[1..], b, num))
    else Append(SecondDisjoint(b[0]), Align(a, b[1..], num))
  }

  lemma AppendAssociative<G>(x: Alignment<G>, y: Alignment<G>, z: Alignment<G>)
    ensures Append(Append(x, y), z) == Append(x, Append(y, z))
  {
    assert (x.matches + y.matches) + z.matches == x.matches + (y.matches + z.matches);
    assert (x.first.excess + y.first.excess) + z.first.excess == x.first.excess + (y.first.excess + z.first.excess);
    assert (x.first.disjoint + y.first.disjoint) + z.first.disjoint
        == x.first.disjoint + (y.first.disjoint + z.first.disjoint);
    assert (x.second.excess + y.second.excess) + z.second.excess
        == x.second.excess + (y.second.excess + z.second.excess);
    assert (x.second.disjoint + y.second.disjoint) + z.second.disjoint
        == x.second.disjoint + (y.second.disjoint + z.second.disjoint);
  }

  lemma AppendEmpty<G>(x: Alignment<G>)
    ensures Append(x, Empty()) == x
  {
    assert x.matches + [] == x.matches;
    assert x.first.excess + [] == x.first.excess && x.first.disjoint + [] == x.first.disjoint;
    assert x.second.excess + [] == x.second.excess && x.second.disjoint + [] == x.second.disjoint;
  }

  /** The same walk with the lists' roles exchanged. */
  function Swapped<G>(d: Alignment<G>): (r: Alignment<G>)
    ensures |r.matches| == |d.matches|
  {
    Alignment(d.second, d.first, seq(|d.matches|, k requires 0 <= k < |d.matches| => (d.matches[k].1, d.matches[k].0)))
  }

  /** The first-list genes of the matches. */
  function Firsts<G>(m: seq<(G, G)>): (r: seq<G>)
    ensures |r| == |m| && forall k :: 0 <= k < |m| ==> r[k] == m[k].0
  {
    seq(|m|, k requires 0 <= k < |m| => m[k].0)
  }

  /** The second-list genes of the matches. */
  function Seconds<G>(m: seq<(G, G)>): (r: seq<G>)
    ensures |r| == |m| && forall k :: 0 <= k < |m| ==> r[k] == m[k].1
  {
    seq(|m|, k requires 0 <= k < |m| => m[k].1)
  }

  /** Strictly ascending innovation numbers: the shape of `LinkGenes`. */
  predicate Ascending<G>(s: seq<G>, num: G -> int) {
    forall i, j :: 0 <= i < j < |s| ==> num(s[i]) < num(s[j])
  }

  function Numbers<G>(s: seq<G>, num: G -> int): set<int> {
    set k | 0 <= k < |s| :: num(s[k])
  }

  // ---------------------------------------------------------------- the loop

  /** The loop of `DifferenceAnalysis` over two lists: each turn files the current gene(s) and
      advances one or both enumerators, so it stops after at most |a| + |b| turns. */
  method DifferenceAnalysis<G>(a: seq<G>, b: seq<G>, num: G -> int) returns (d: Alignment<G>)
    ensures d == Align(a, b, num)
  {
    d := Empty();
    var i, j := 0, 0;
    AppendEmpty(Align(a, b, num));
    assert a[i..] == a && b[j..] == b;
    while i < |a| || j < |b|
      invariant 0 <= i <= |a| && 0 <= j <= |b|
      invariant Append(d, Align(a[i..], b[j..], num)) == Align(a, b, num)
      decreases |a| - i + |b| - j
    {
      assert a[i..] != [] ==> a[i..][0] == a[i] && a[i..][1..] == a[i + 1..];
      assert b[j..] != [] ==> b[j..][0] == b[j] && b[j..][1..] == b[j + 1..];
      var step: Alignment<G>;
      if i == |a| {
        step := SecondExcess(b[j]);
        AppendAssociative(d, step, Align(a[i..], b[j + 1..], num));
        j := j + 1;
      } else if j == |b| {
        step := FirstExcess(a[i]);
        AppendAssociative(d, step, Align(a[i + 1..], b[j..], num));
        i := i + 1;
      } else if num(a[i]) == num(b[j]) {
        step := Matched(a[i], b[j]);
        AppendAssociative(d, step, Align(a[i + 1..], b[j + 1..], num));
        i, j := i + 1, j + 1;
      } else if num(b[j]) > num(a[i]) {
        step := FirstDisjoint(a[i]);
        AppendAssociative(d, step, Align(a[i + 1..], b[j..], num));
        i := i + 1;
      } else {
        // the source tests `link1 > link2` here, which always holds by now
        step := SecondDisjoint(b[j]);
        AppendAssociative(d, step, Align(a[i..], b[j + 1..], num));
        j := j + 1;
      }
      d := Append(d, step);
    }
    assert a[i..] == [] && b[j..] == [];
    AppendEmpty(d);
  }

  // ---------------------------------------------------------------- properties of the walk

  lemma FirstsAppend<G>(m: seq<(G, G)>, n: seq<(G, G)>)
    ensures Firsts(m + n) == Firsts(m) + Firsts(n) && Seconds(m + n) == Seconds(m) + Seconds(n)
  {
  }

  lemma HeadTail<G>(s: seq<G>)
    requires s != []
    ensures [s[0]] + s[1..] == s
  {
  }

  /** `d` files every gene of `a` and of `b` exactly once. */
  ghost predicate Partition<G>(a: seq<G>, b: seq<G>, d: Alignment<G>) {
    multiset(a) == multiset(Firsts(d.matches)) + multiset(d.first.disjoint) + multiset(d.first.excess) &&
    multiset(b) == multiset(Seconds(d.matches)) + multiset(d.second.disjoint) + multiset(d.second.excess)
  }

  lemma PartitionAppend<G>(a1: seq<G>, b1: seq<G>, x: Alignment<G>, a2: seq<G>, b2: seq<G>, y: Alignment<G>)
    requires Partition(a1, b1, x) && Partition(a2, b2, y)
    ensures Partition(a1 + a2, b1 + b2, Append(x, y))
  {
    FirstsAppend(x.matches, y.matches);
  }

  /** How many genes the next turn of the walk takes from each list. */
  function Taken<G>(a: seq<G>, b: seq<G>, num: G -> int): (r: (nat, nat))
    requires a != [] || b != []
    ensures r.0 <= |a| && r.1 <= |b| && 0 < r.0 + r.1
  {
    if a == [] then (0, 1)
    else if b == [] then (1, 0)
    else if num(a[0]) == num(b[0]) then (1, 1)
    else if num(b[0]) > num(a[0]) then (1, 0)
    else (0, 1)
  }

  /** What the next turn of the walk files. */
  function Step<G>(a: seq<G>, b: seq<G>, num: G -> int): Alignment<G>
    requires a != [] || b != []
  {
    if a == [] then SecondExcess(b[0])
    else if b == [] then FirstExcess(a[0])
    else if num(a[0]) == num(b[0]) then Matched(a[0], b[0])
    else if num(b[0]) > num(a[0]) then FirstDisjoint(a[0])
    else SecondDisjoint(b[0])
  }

  lemma AlignUnfolds<G>(a: seq<G>, b: seq<G>, num: G -> int)
    requires a != [] || b != []
    ensures var t := Taken(a, b, num);
      Align(a, b, num) == Append(Step(a, b, num), Align(a[t.0..], b[t.1..], num))
  {
    assert a[0..] == a && b[0..] == b;
  }

  lemma StepPartitions<G>(a: seq<G>, b: seq<G>, num: G -> int)
    requires a != [] || b != []
    ensures var t := Taken(a, b, num); Partition(a[..t.0], b[..t.1], Step(a, b, num))
  {
    var t := Taken(a, b, num);
    var d := Step(a, b, num);
    assert t.0 == 1 ==> a[..t.0] == [a[0]];
    assert t.1 == 1 ==> b[..t.1] == [b[0]];
    assert t.0 == 0 ==> a[..t.0] == [];
    assert t.1 == 0 ==> b[..t.1] == [];
    if t == (1, 1) {
      assert d == Matched(a[0], b[0]);
      assert Firsts(d.matches) == [a[0]] && Seconds(d.matches) == [b[0]];
    } else {
      assert d.matches == [];
    }
  }

  lemma PartitionSplits<G>(a: seq<G>, b: seq<G>, i: nat, j: nat, x: Alignment<G>, y: Alignment<G>)
    requires i <= |a| && j <= |b|
    requires Partition(a[..i], b[..j], x) && Partition(a[i..], b[j..], y)
    ensures Partition(a, b, Append(x, y))
  {
    PartitionAppend(a[..i], b[..j], x, a[i..], b[j..], y);
    assert a[..i] + a[i..] == a && b[..j] + b[j..] == b;
  }

  /** Every gene of the first list is filed exactly once: as a match, as disjoint or as excess;
      and likewise every gene of the second list. */
  lemma {:induction false} AlignPartitions<G>(a: seq<G>, b: seq<G>, num: G -> int)
    ensures Partition(a, b, Align(a, b, num))
    decreases |a| + |b|
  {
    if a != [] || b != [] {
      var t := Taken(a, b, num);
      AlignUnfolds(a, b, num);
      StepPartitions(a, b, num);
      AlignPartitions(a[t.0..], b[t.1..], num);
      PartitionSplits(a, b, t.0, t.1, Step(a, b, num), Align(a[t.0..], b[t.1..], num));
    }
  }

  /** Every match pairs two genes with the same innovation number. */
  predicate Agree<G>(m: seq<(G, G)>, num: G -> int) {
    forall k :: 0 <= k < |m| ==> num(m[k].0) == num(m[k].1)
  }

  /** A match pairs two genes with the same innovation number. */
  lemma {:induction false} MatchesAgree<G>(a: seq<G>, b: seq<G>, num: G -> int)
    ensures Agree(Align(a, b, num).matches, num)
    decreases |a| + |b|
  {
    if a == [] && b == [] {
    } else if a == [] {
      MatchesAgree(a, b[1..], num);
      assert Align(a, b, num).matches == Align(a, b[1..], num).matches;
    } else if b == [] {
      MatchesAgree(a[1..], b, num);
      assert Align(a, b, num).matches == Align(a[1..], b, num).matches;
    } else if num(a[0]) == num(b[0]) {
      MatchesAgree(a[1..], b[1..], num);
      assert Align(a, b, num).matches == [(a[0], b[0])] + Align(a[1..], b[1..], num).matches;
    } else if num(b[0]) > num(a[0]) {
      MatchesAgree(a[1..], b, num);
      assert Align(a, b, num).matches == Align(a[1..], b, num).matches;
    } else {
      MatchesAgree(a, b[1..], num);
      assert Align(a, b, num).matches == Align(a, b[1..], num).matches;
    }
  }

  /** Exchanging the two lists exchanges the two sides of the result: the classification does
      not depend on which genome is the first. */
  lemma {:induction false} AlignSwaps<G>(a: seq<G>, b: seq<G>, num: G -> int)
    ensures Align(b, a, num) == Swapped(Align(a, b, num))
    decreases |a| + |b|
  {
    if a == [] && b == [] {
    } else if a == [] {
      AlignSwaps(a, b[1..], num);
      SwappedAppend(SecondExcess(b[0]), Align(a, b[1..], num));
    } else if b == [] {
      AlignSwaps(a[1..], b, num);
      SwappedAppend(FirstExcess(a[0]), Align(a[1..], b, num));
    } else if num(a[0]) == num(b[0]) {
      AlignSwaps(a[1..], b[1..], num);
      SwappedAppend(Matched(a[0], b[0]), Align(a[1..], b[1..], num));
    } else if num(b[0]) > num(a[0]) {
      AlignSwaps(a[1..], b, num);
      SwappedAppend(FirstDisjoint(a[0]), Align(a[1..], b, num));
    } else {
      AlignSwaps(a, b[1..], num);
      SwappedAppend(SecondDisjoint(b[0]), Align(a, b[1..], num));
    }
  }

  /** A list walked against itself matches every gene with itself and leaves nothing over. */
  lemma {:induction false} AlignSelf<G>(a: seq<G>, num: G -> int)
    ensures var d := Align(a, a, num);
      d.first == Unmatched([], []) && d.second == Unmatched([], []) &&
      |d.matches| == |a| && forall k :: 0 <= k < |a| ==> d.matches[k] == (a[k], a[k])
  {
    if a != [] {
      AlignSelf(a[1..], num);
      var rest := Align(a[1..], a[1..], num);
      assert Align(a, a, num) == Append(Matched(a[0], a[0]), rest);
      assert Align(a, a, num).matches == [(a[0], a[0])] + rest.matches;
    }
  }

  lemma SwappedAppend<G>(x: Alignment<G>, y: Alignment<G>)
    ensures Swapped(Append(x, y)) == Append(Swapped(x), Swapped(y))
  {
    assert Swapped(Append(x, y)).matches == Swapped(x).matches + Swapped(y).matches;
  }

  lemma AscendingTail<G>(s: seq<G>, num: G -> int)
    requires Ascending(s, num) && s != []
    ensures Ascending(s[1..], num)
    ensures forall g :: g in s[1..] ==> num(g) > num(s[0])
    ensures forall g :: g in s ==> num(g) >= num(s[0])
  {
    forall g | g in s[1..] ensures num(g) > num(s[0]) {
      var k :| 0 <= k < |s[1..]| && s[1..][k] == g;
      assert s[k + 1] == g;
    }
  }

  lemma AscendingSuffix<G>(s: seq<G>, i: nat, num: G -> int)
    requires Ascending(s, num) && i <= |s|
    ensures Ascending(s[i..], num)
  {
    forall p, q | 0 <= p < q < |s[i..]| ensures num(s[i..][p]) < num(s[i..][q]) {
      assert s[i..][p] == s[i + p] && s[i..][q] == s[i + q];
    }
  }

  /** A second-list gene the next turn consumes comes before every first-list gene left. */
  lemma ConsumedBelow<G>(a: seq<G>, b: seq<G>, num: G -> int)
    requires Ascending(a, num) && (a != [] || b != [])
    ensures var t := Taken(a, b, num);
      forall g, k :: g in a[t.0..] && 0 <= k < t.1 ==> num(b[k]) < num(g)
  {
    var t := Taken(a, b, num);
    if a != [] && t.1 == 1 {
      AscendingTail(a, num);
      if num(a[0]) == num(b[0]) {
        assert t.0 == 1 && a[t.0..] == a[1..];
      } else {
        assert t.0 == 0 && a[t.0..] == a && num(b[0]) < num(a[0]);
      }
    }
  }

  /** Every gene of `e` comes after every gene of `b`. */
  ghost predicate After<G>(e: seq<G>, b: seq<G>, num: G -> int) {
    forall g, k :: g in e && 0 <= k < |b| ==> num(g) > num(b[k])
  }

  /** Every gene of `e` has a number that `b` lacks, and `b` goes on past it. */
  ghost predicate Inside<G>(e: seq<G>, b: seq<G>, num: G -> int) {
    forall g :: g in e ==>
      (forall k :: 0 <= k < |b| ==> num(b[k]) != num(g)) && exists k :: 0 <= k < |b| && num(b[k]) > num(g)
  }

  /** On lists in innovation order, an excess gene of the first list comes after every gene of
      the second list. */
  lemma {:induction false} ExcessFollows<G>(a: seq<G>, b: seq<G>, num: G -> int)
    requires Ascending(a, num) && Ascending(b, num)
    ensures After(Align(a, b, num).first.excess, b, num)
    decreases |a| + |b|
  {
    if a != [] || b != [] {
      var t := Taken(a, b, num);
      var a', b' := a[t.0..], b[t.1..];
      var rest := Align(a', b', num);
      AlignUnfolds(a, b, num);
      AscendingSuffix(a, t.0, num);
      AscendingSuffix(b, t.1, num);
      ExcessFollows(a', b', num);
      AlignPartitions(a', b', num);
      var e := Align(a, b, num).first.excess;
      assert e == Step(a, b, num).first.excess + rest.first.excess;
      ConsumedBelow(a, b, num);
      forall g, k | g in e && 0 <= k < |b| ensures num(g) > num(b[k]) {
        if g in rest.first.excess {
          assert g in multiset(a');
          if k < t.1 {
          } else {
            assert b[k] == b'[k - t.1];
          }
        }
      }
    }
  }

  lemma InsideExtends<G>(g: G, b: seq<G>, i: nat, num: G -> int)
    requires i <= |b| && Inside([g], b[i..], num)
    requires forall k :: 0 <= k < i ==> num(b[k]) != num(g)
    ensures Inside([g], b, num)
  {
    assert g in [g];
    var k' :| 0 <= k' < |b[i..]| && num(b[i..][k']) > num(g);
    assert b[k' + i] == b[i..][k'];
    forall k | 0 <= k < |b| ensures num(b[k]) != num(g) {
      if k >= i { assert b[k] == b[i..][k - i]; }
    }
  }

  lemma InsideEach<G>(e: seq<G>, b: seq<G>, num: G -> int)
    requires forall g :: g in e ==> Inside([g], b, num)
    ensures Inside(e, b, num)
  {
    forall g | g in e
      ensures (forall k :: 0 <= k < |b| ==> num(b[k]) != num(g)) && exists k :: 0 <= k < |b| && num(b[k]) > num(g)
    {
      assert Inside([g], b, num);
      assert g in [g];
    }
  }

  /** On lists in innovation order, a disjoint gene of the first list has a number the second
      list lacks, and the second list goes on past it. */
  lemma {:induction false} DisjointFallsInside<G>(a: seq<G>, b: seq<G>, num: G -> int)
    requires Ascending(a, num) && Ascending(b, num)
    ensures Inside(Align(a, b, num).first.disjoint, b, num)
    decreases |a| + |b|
  {
    if a != [] || b != [] {
      var t := Taken(a, b, num);
      AlignUnfolds(a, b, num);
      AscendingSuffix(a, t.0, num);
      AscendingSuffix(b, t.1, num);
      DisjointFallsInside(a[t.0..], b[t.1..], num);
      AlignPartitions(a[t.0..], b[t.1..], num);
      DisjointStep(a, b, num, Align(a[t.0..], b[t.1..], num).first.disjoint);
    }
  }

  lemma DisjointStep<G>(a: seq<G>, b: seq<G>, num: G -> int, rest: seq<G>)
    requires Ascending(a, num) && Ascending(b, num) && (a != [] || b != [])
    requires var t := Taken(a, b, num);
      Inside(rest, b[t.1..], num) && multiset(rest) <= multiset(a[t.0..])
    ensures Inside(Step(a, b, num).first.disjoint + rest, b, num)
  {
    RestInside(a, b, num, rest);
    HeadInside(a, b, num);
    InsideConcat(Step(a, b, num).first.disjoint, rest, b, num);
  }

  lemma RestInside<G>(a: seq<G>, b: seq<G>, num: G -> int, rest: seq<G>)
    requires Ascending(a, num) && (a != [] || b != [])
    requires var t := Taken(a, b, num);
      Inside(rest, b[t.1..], num) && multiset(rest) <= multiset(a[t.0..])
    ensures Inside(rest, b, num)
  {
    var t := Taken(a, b, num);
    ConsumedBelow(a, b, num);
    forall g | g in rest ensures Inside([g], b, num) {
      assert g in multiset(a[t.0..]);
      InsideExtends(g, b, t.1, num);
    }
    InsideEach(rest, b, num);
  }

  lemma HeadInside<G>(a: seq<G>, b: seq<G>, num: G -> int)
    requires Ascending(b, num) && (a != [] || b != [])
    ensures Inside(Step(a, b, num).first.disjoint, b, num)
  {
    var head := Step(a, b, num).first.disjoint;
    StepDisjoint(a, b, num);
    if head != [] {
      BeforeIsInside(a[0], b, num);
    } else {
      InsideEach(head, b, num);
    }
  }

  /** The next turn files a first-list gene as disjoint exactly when the second list's current
      gene has the greater number. */
  lemma StepDisjoint<G>(a: seq<G>, b: seq<G>, num: G -> int)
    requires a != [] || b != []
    ensures Step(a, b, num).first.disjoint ==
      if a != [] && b != [] && num(b[0]) > num(a[0]) then [a[0]] else []
  {
    if a != [] && b != [] && num(a[0]) != num(b[0]) && num(b[0]) > num(a[0]) {
      assert Step(a, b, num) == FirstDisjoint(a[0]);
    }
  }

  lemma BeforeIsInside<G>(g: G, b: seq<G>, num: G -> int)
    requires Ascending(b, num) && b != [] && num(b[0]) > num(g)
    ensures Inside([g], b, num)
  {
    forall h | h in [g]
      ensures (forall k :: 0 <= k < |b| ==> num(b[k]) != num(h)) && exists k :: 0 <= k < |b| && num(b[k]) > num(h)
    {
      assert h == g;
      forall k | 0 < k < |b| ensures num(b[k]) > num(b[0]) { }
    }
  }

  lemma InsideConcat<G>(x: seq<G>, y: seq<G>, b: seq<G>, num: G -> int)
    requires Inside(x, b, num) && Inside(y, b, num)
    ensures Inside(x + y, b, num)
  {
    forall g | g in x + y
      ensures (forall k :: 0 <= k < |b| ==> num(b[k]) != num(g)) && exists k :: 0 <= k < |b| && num(b[k]) > num(g)
    {
      if g in x { assert g in x; } else { assert g in y; }
    }
  }

  /** On lists in innovation order, a first-list gene is matched exactly when the second list
      holds its innovation number; otherwise it is disjoint or excess. */
  lemma MatchedIffShared<G>(a: seq<G>, b: seq<G>, num: G -> int, g: G)
    requires Ascending(a, num) && Ascending(b, num) && g in a
    ensures g in Firsts(Align(a, b, num).matches) <==> num(g) in Numbers(b, num)
  {
    var d := Align(a, b, num);
    AlignPartitions(a, b, num);
    MatchesAgree(a, b, num);
    if g in Firsts(d.matches) {
      var k :| 0 <= k < |d.matches| && Firsts(d.matches)[k] == g;
      assert Seconds(d.matches)[k] == d.matches[k].1;
      assert d.matches[k].1 in multiset(b);
      var j :| 0 <= j < |b| && b[j] == d.matches[k].1;
      assert num(g) == num(b[j]);
    } else {
      assert g in multiset(a);
      ExcessFollows(a, b, num);
      DisjointFallsInside(a, b, num);
      forall j | 0 <= j < |b| ensures num(b[j]) != num(g) {
        if g in d.first.excess {
          assert num(g) > num(b[j]);
        } else {
          assert g in d.first.disjoint;
        }
      }
    }
  }

  // ---------------------------------------------------------------- the repository's table

  function Identity(n: int): int { n }

  /** Row sizes of the repository's `TestDifferenceAnalysis` table. */
  predicate Sizes(d: Alignment<int>, matches: nat, disjoint1: nat, disjoint2: nat, excess1: nat, excess2: nat) {
    |d.matches| == matches && |d.first.disjoint| == disjoint1 && |d.second.disjoint| == disjoint2 &&
    |d.first.excess| == excess1 && |d.second.excess| == excess2
  }

  // The rows of the repository's `TestDifferenceAnalysis` table, on the link-gene numbers that
  // result: both genomes keep the two default links 0 and 1, and every listed id is shifted past
  // them. The unordered row {0, 2, 1} gives the same numbers as {0, 1, 2}, since `LinkGenes`
  // lists the genes in innovation order.

  lemma TableRowOne()
    ensures Sizes(Align([0, 1, 2, 3], [0, 1, 2, 4], Identity), 3, 1, 0, 0, 1)
  {
  }

  lemma TableRowTwo()
    ensures Sizes(Align([0, 1, 2, 3, 4], [0, 1, 2, 3, 4], Identity), 5, 0, 0, 0, 0)
  {
  }

  lemma TableRowFour()
    ensures Sizes(Align([0, 1, 2, 4], [0, 1, 2, 3, 4], Identity), 4, 0, 1, 0, 0)
  {
  }

  lemma TableRowFive()
    ensures Sizes(Align([0, 1, 2, 3, 4], [0, 1, 2, 3], Identity), 4, 0, 0, 1, 0)
  {
  }

  lemma TableRowSix()
    ensures Sizes(Align([0, 1, 2, 3, 4, 6], [0, 1, 4, 6], Identity), 4, 2, 0, 0, 0)
  {
  }
}
