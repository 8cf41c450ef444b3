/**
 * DotNetExtensions/ListExtensions.cs and NEATSpacesLibrary/Extensions/ListExtensions.cs (the two
 * files hold the same utilities): Fisher-Yates shuffle, random single element, random take,
 * roulette-wheel selection and MaxBy. Random draws are parameters (see MathExtensions).
 */
module ListExtensions {
  import opened Wrappers
  import opened MathExtensions

  // ---------------------------------------------------------------- Shuffle

  function Swap<T>(s: seq<T>, i: nat, j: nat): (r: seq<T>)
    requires i < |s| && j < |s|
    ensures |r| == |s| && multiset(r) == multiset(s)
    ensures r[i] == s[j] && r[j] == s[i]
    ensures forall k :: 0 <= k < |s| && k != i && k != j ==> r[k] == s[k]
  {
    s[i := s[j]][j := s[i]]
  }

  /** The partner index step `i` of the shuffle swaps with: `RandomInteger(i + 1, Count)`. */
  function PartnerIndex(i: nat, count: nat, u: real): (j: nat)
    requires IsDraw(u) && i + 1 < count
    ensures i < j < count
  {
    RandomInteger(i + 1, count, u).value
  }

  /** The list after the first `k` steps of the shuffle loop. Every step swaps position `i`
      with a later position, so the contents never change, only their order. */
  function ShuffleSteps<T>(s: seq<T>, draws: seq<real>, k: nat): (r: seq<T>)
    requires AllDraws(draws) && k <= |draws| && k < |s|
    ensures |r| == |s| && multiset(r) == multiset(s)
    decreases k
  {
    if k == 0 then s
    else Swap(ShuffleSteps(s, draws, k - 1), k - 1, PartnerIndex(k - 1, |s|, draws[k - 1]))
  }

  /** What `Shuffle` leaves in a non-empty list: all `Count - 1` steps done. */
  function Shuffled<T>(s: seq<T>, draws: seq<real>): (r: seq<T>)
    requires AllDraws(draws) && 0 < |s| <= |draws| + 1
  {
    ShuffleSteps(s, draws, |s| - 1)
  }

  /** `Shuffle`: the in-place Fisher-Yates loop. `Enumerable.Range(0, Count - 1)` throws on an
      empty list, so `ok` is false exactly then and nothing is touched. */
  method Shuffle<T>(a: array<T>, draws: seq<real>) returns (ok: bool)
    requires AllDraws(draws) && a.Length <= |draws| + 1
    modifies a
    ensures ok <==> a.Length > 0
    ensures ok ==> a[..] == Shuffled(old(a[..]), draws)
    ensures !ok ==> a[..] == old(a[..])
    ensures multiset(a[..]) == multiset(old(a[..]))
  {
    if a.Length == 0 {
      return false;
    }
    ok := true;
    var i := 0;
    while i < a.Length - 1
      invariant 0 <= i <= a.Length - 1
      invariant a[..] == ShuffleSteps(old(a[..]), draws, i)
    {
      var j := PartnerIndex(i, a.Length, draws[i]);
      a[i], a[j] := a[j], a[i];
      i := i + 1;
    }
  }

  /** After shuffling the indices 0 .. m-1, every index still appears exactly once. */
  lemma {:induction false} ShuffledIndicesArePermutation(m: nat, draws: seq<real>)
    requires AllDraws(draws) && 0 < m <= |draws| + 1
    ensures |Shuffled(Range(m), draws)| == m
    ensures forall k :: 0 <= k < m ==> 0 <= Shuffled(Range(m), draws)[k] < m
    ensures forall k, l :: 0 <= k < l < m ==> Shuffled(Range(m), draws)[k] != Shuffled(Range(m), draws)[l]
  {
    var r := Shuffled(Range(m), draws);
    assert multiset(r) == multiset(Range(m));
    forall k | 0 <= k < m ensures 0 <= r[k] < m {
      assert r[k] in multiset(r);
      RangeBound(m, r[k]);
    }
    forall k, l | 0 <= k < l < m ensures r[k] != r[l] {
      if r[k] == r[l] {
        TwoPositionsCount(r, k, l);
        RangeOnce(m, r[k]);
        assert false;
      }
    }
  }

  /** The shuffled index array of `RandomTake`: a permutation of 0 .. m-1. */
  function ShuffledIndices(m: nat, draws: seq<real>): (r: seq<int>)
    requires AllDraws(draws) && 0 < m <= |draws| + 1
    ensures |r| == m && forall k :: 0 <= k < m ==> 0 <= r[k] < m
    ensures forall k, l :: 0 <= k < l < m ==> r[k] != r[l]
  {
    ShuffledIndicesArePermutation(m, draws);
    Shuffled(Range(m), draws)
  }

  function Range(m: nat): (r: seq<int>)
    ensures |r| == m && forall k :: 0 <= k < m ==> r[k] == k
  {
    seq(m, k => k)
  }

  lemma {:induction false} RangeBound(m: nat, x: int)
    requires x in multiset(Range(m))
    ensures 0 <= x < m
  {
    assert x in Range(m);
  }

  lemma {:induction false} RangeOnce(m: nat, x: int)
    ensures multiset(Range(m))[x] <= 1
  {
    if m > 0 {
      RangeOnce(m - 1, x);
      assert Range(m) == Range(m - 1) + [m - 1];
      if x == m - 1 {
        assert x !in Range(m - 1);
      }
    }
  }

  lemma TwoPositionsCount<T>(s: seq<T>, k: nat, l: nat)
    requires k < l < |s| && s[k] == s[l]
    ensures multiset(s)[s[k]] >= 2
  {
    assert s == s[..k] + [s[k]] + s[k+1..l] + [s[l]] + s[l+1..];
  }

  // ---------------------------------------------------------------- RandomSingle, RandomTake

  /** `RandomSingle`: `default(T)` for an empty list, otherwise the element at a random index. */
  function RandomSingle<T>(s: seq<T>, u: real): (r: Option<T>)
    requires IsDraw(u)
    ensures r.None? <==> |s| == 0
    ensures r.Some? ==> r.value in s
  {
    if |s| == 0 then None else Some(s[RandomIntegerBelow(|s|, u).value])
  }

  function Clamp(n: int, m: nat): (r: nat)
    ensures r <= m && (n <= 0 ==> r == 0) && (0 <= n <= m ==> r == n) && (n >= m ==> r == m)
  {
    if n <= 0 then 0 else if n >= m then m else n
  }

  /** `RandomTake(n)`: shuffle the index array 0 .. Count-1, take its first `n` entries and
      look them up. The shuffle throws on an empty list, so an empty list is a failure. */
  method RandomTake<T>(s: seq<T>, n: int, draws: seq<real>) returns (r: Result<seq<T>>)
    requires AllDraws(draws) && |s| <= |draws| + 1
    ensures r.Failure? <==> |s| == 0
    ensures r.Success? ==> |r.value| == Clamp(n, |s|)
    ensures r.Success? ==> forall k :: 0 <= k < |r.value| ==> r.value[k] == s[ShuffledIndices(|s|, draws)[k]]
  {
    var indexArray := new int[|s|](k => k);
    assert indexArray[..] == Range(|s|);
    var ok := Shuffle(indexArray, draws);
    if !ok {
      return Failure("ArgumentOutOfRangeException");
    }
    assert indexArray[..] == ShuffledIndices(|s|, draws);
    var taken := indexArray[..Clamp(n, |s|)];
    r := Success(seq(|taken|, k requires 0 <= k < |taken| => s[taken[k]]));
  }

  // ---------------------------------------------------------------- Roulette wheel

  /** `OrderByDescending(tuple => tuple.Item2)`: a stable sort of (item, weight) pairs by
      weight, highest first (insertion puts an earlier item ahead of equal-weight ones). */
  function SortByWeightDescending<T>(s: seq<(T, real)>): (r: seq<(T, real)>)
    ensures multiset(r) == multiset(s) && |r| == |s|
    ensures Descending(r)
  {
    if s == [] then []
    else
      assert s == [s[0]] + s[1..];
      InsertDescending(s[0], SortByWeightDescending(s[1..]))
  }

  /** Each weight is at least the next one. */
  predicate Descending<T>(s: seq<(T, real)>) {
    forall i :: 0 <= i < |s| - 1 ==> s[i].1 >= s[i + 1].1
  }

  function InsertDescending<T>(x: (T, real), s: seq<(T, real)>): (r: seq<(T, real)>)
    requires Descending(s)
    ensures multiset(r) == multiset(s) + multiset{x} && |r| == |s| + 1
    ensures Descending(r)
    ensures r[0] == x || (s != [] && r[0] == s[0])
  {
    if s == [] || x.1 >= s[0].1 then [x] + s
    else
      var t := InsertDescending(x, s[1..]);
      assert s == [s[0]] + s[1..];
      assert multiset([s[0]] + t) == multiset{s[0]} + multiset(t);
      DescendingCons(s[0], t);
      [s[0]] + t
  }

  /** A head at least as heavy as a descending tail's first entry keeps the list descending. */
  lemma DescendingCons<T>(h: (T, real), t: seq<(T, real)>)
    requires Descending(t) && (t != [] ==> h.1 >= t[0].1)
    ensures Descending([h] + t)
  {
    forall i | 0 <= i < |t|
      ensures ([h] + t)[i].1 >= ([h] + t)[i + 1].1
    {
      if i > 0 {
        assert ([h] + t)[i] == t[i - 1];
      }
    }
  }

  /** In a descending ranking every earlier weight is at least every later one. */
  lemma {:induction false} DescendingAllPairs<T>(s: seq<(T, real)>, i: nat, j: nat)
    requires Descending(s) && i < j < |s|
    ensures s[i].1 >= s[j].1
  {
    if i + 1 < j {
      DescendingAllPairs(s, i, j - 1);
    }
  }

  /** Total of the positive weights of a ranked list: what `total` holds after the loop. */
  function PositiveTotal<T>(s: seq<(T, real)>): (t: real)
    ensures t >= 0.0
  {
    if s == [] then 0.0
    else
      var p := PositiveTotal(s[..|s| - 1]);
      if s[|s| - 1].1 <= 0.0 then p else p + s[|s| - 1].1
  }

  /** The wheel the loop builds: one entry per positive weight, holding the item and the
      running total up to and including it. */
  function Wheel<T>(s: seq<(T, real)>): (w: seq<(T, real)>)
  {
    if s == [] then []
    else
      var p := Wheel(s[..|s| - 1]);
      if s[|s| - 1].1 <= 0.0 then p else p + [(s[|s| - 1].0, s[|s| - 1].1 + PositiveTotal(s[..|s| - 1]))]
  }

  /** The positive-weight entries of a ranked list, in order. */
  function Positives<T>(s: seq<(T, real)>): (p: seq<(T, real)>)
    ensures forall k :: 0 <= k < |p| ==> p[k].1 > 0.0
  {
    if s == [] then []
    else
      var p := Positives(s[..|s| - 1]);
      if s[|s| - 1].1 <= 0.0 then p else p + [s[|s| - 1]]
  }

  function SegmentStart<T>(w: seq<(T, real)>, k: nat): real
    requires k < |w|
  {
    if k == 0 then 0.0 else w[k - 1].1
  }

  /** The wheel is a partition of (0, total]: entry `k` is the `k`-th positive-weight item and
      spans exactly its weight, the segments follow one another, and the last ends at the total.
      So a uniform selection in [0, total) picks each item with probability weight / total. */
  lemma WheelShape<T>(s: seq<(T, real)>)
    ensures |Wheel(s)| == |Positives(s)|
    ensures forall k :: 0 <= k < |Wheel(s)| ==>
      Wheel(s)[k].0 == Positives(s)[k].0 && Wheel(s)[k].1 - SegmentStart(Wheel(s), k) == Positives(s)[k].1
    ensures |Wheel(s)| == 0 <==> PositiveTotal(s) == 0.0
    ensures |Wheel(s)| > 0 ==> Wheel(s)[|Wheel(s)| - 1].1 == PositiveTotal(s)
  {
    WheelTotals(s);
    WheelEntries(s);
  }

  /** The wheel has one entry per positive weight, and the last ends at the total. */
  lemma {:induction false} WheelTotals<T>(s: seq<(T, real)>)
    ensures |Wheel(s)| == |Positives(s)|
    ensures |Wheel(s)| == 0 <==> PositiveTotal(s) == 0.0
    ensures |Wheel(s)| > 0 ==> Wheel(s)[|Wheel(s)| - 1].1 == PositiveTotal(s)
  {
    if s != [] {
      WheelTotals(s[..|s| - 1]);
    }
  }

  /** Entry `k` of `w` holds item `k` of `p` and spans exactly its weight. */
  ghost predicate Spans<T>(w: seq<(T, real)>, p: seq<(T, real)>) {
    |w| == |p| && forall k :: 0 <= k < |w| ==> w[k].0 == p[k].0 && w[k].1 - SegmentStart(w, k) == p[k].1
  }

  /** Entry `k` of the wheel is the `k`-th positive-weight item and spans its weight. */
  lemma {:induction false} WheelEntries<T>(s: seq<(T, real)>)
    ensures Spans(Wheel(s), Positives(s))
  {
    if s != [] {
      var init, last := s[..|s| - 1], s[|s| - 1];
      WheelEntries(init);
      WheelTotals(init);
      if last.1 > 0.0 {
        AppendEntry(Wheel(init), Positives(init), last.0, last.1, PositiveTotal(init), Wheel(s), Positives(s));
      }
    }
  }

  /** Appending an item of weight `weight` to a wheel that ends at `total` keeps each entry
      spanning its weight. */
  lemma AppendEntry<T>(w: seq<(T, real)>, p: seq<(T, real)>, x: T, weight: real, total: real,
                       w': seq<(T, real)>, p': seq<(T, real)>)
    requires Spans(w, p) && (if |w| == 0 then total == 0.0 else w[|w| - 1].1 == total)
    requires w' == w + [(x, weight + total)] && p' == p + [(x, weight)]
    ensures Spans(w', p')
  {
    forall k | 0 <= k < |w'|
      ensures w'[k].0 == p'[k].0 && w'[k].1 - SegmentStart(w', k) == p'[k].1
    {
      if k < |w| {
        assert w'[k] == w[k] && p'[k] == p[k] && SegmentStart(w', k) == SegmentStart(w, k);
      }
    }
  }

  /** The running totals only grow: segment `k` starts at or after every earlier one. */
  lemma {:induction false} WheelIncreasing<T>(s: seq<(T, real)>, i: nat, j: nat)
    requires i < j < |Wheel(s)|
    ensures Wheel(s)[i].1 < Wheel(s)[j].1
  {
    var w := Wheel(s);
    forall k | 0 < k < |w|
      ensures w[k - 1].1 < w[k].1
    {
      WheelStep(s, k);
    }
    StepsIncreasing(w, i, j);
  }

  /** Each wheel entry ends strictly after the one before it, by the width of its weight. */
  lemma WheelStep<T>(s: seq<(T, real)>, k: nat)
    requires 0 < k < |Wheel(s)|
    ensures Wheel(s)[k - 1].1 < Wheel(s)[k].1
  {
    WheelShape(s);
    assert SegmentStart(Wheel(s), k) == Wheel(s)[k - 1].1;
    assert Positives(s)[k].1 > 0.0;
  }

  /** Running totals that grow at every step grow between any two positions. */
  lemma {:induction false} StepsIncreasing<T>(w: seq<(T, real)>, i: nat, j: nat)
    requires forall k :: 0 < k < |w| ==> w[k - 1].1 < w[k].1
    requires i < j < |w|
    ensures w[i].1 < w[j].1
  {
    if i + 1 < j {
      StepsIncreasing(w, i, j - 1);
    }
    assert w[j - 1].1 < w[j].1;
  }

  /** The wheel-building loop over the ranked pairs. */
  method BuildWheel<T>(ranked: seq<(T, real)>) returns (wheel: seq<(T, real)>, total: real)
    ensures wheel == Wheel(ranked) && total == PositiveTotal(ranked)
  {
    wheel, total := [], 0.0;
    var i := 0;
    while i < |ranked|
      invariant 0 <= i <= |ranked|
      invariant wheel == Wheel(ranked[..i]) && total == PositiveTotal(ranked[..i])
    {
      assert ranked[..i + 1][..i] == ranked[..i];
      var tuple := ranked[i];
      if tuple.1 > 0.0 {
        wheel := wheel + [(tuple.0, tuple.1 + total)];
        total := total + tuple.1;
      }
      i := i + 1;
    }
    assert ranked[..i] == ranked;
  }

  /** The entry a selection lands on: the first whose running total reaches it. */
  predicate LandsOn<T>(w: seq<(T, real)>, selection: real, i: int) {
    0 <= i < |w| && selection <= w[i].1 && forall j :: 0 <= j < i ==> w[j].1 < selection
  }

  /** The item a selection picks from a wheel: that of the first entry whose running total
      reaches the selection, or none when the selection is beyond the wheel. */
  function Landing<T>(w: seq<(T, real)>, selection: real): Option<T> {
    if w == [] then None
    else if selection <= w[0].1 then Some(w[0].0)
    else Landing(w[1..], selection)
  }

  lemma {:induction false} LandsOnIsLanding<T>(w: seq<(T, real)>, selection: real, i: int)
    requires LandsOn(w, selection, i)
    ensures Landing(w, selection) == Some(w[i].0)
  {
    if i > 0 {
      assert w[0].1 < selection;
      LandsOnIsLanding(w[1..], selection, i - 1);
    }
  }

  /** One spin: scan forward while the running total is below the selection. The scan never
      runs off the wheel because the selection is below the last running total. */
  method Spin<T>(wheel: seq<(T, real)>, selection: real) returns (i: nat)
    requires |wheel| > 0 && selection <= wheel[|wheel| - 1].1
    ensures LandsOn(wheel, selection, i)
  {
    i := 0;
    while wheel[i].1 < selection
      invariant i < |wheel|
      invariant forall j :: 0 <= j < i ==> wheel[j].1 < selection
      decreases |wheel| - i
    {
      i := i + 1;
    }
  }

  /** On a built wheel a selection picks the item of entry `k` when it falls in that entry's
      segment (SegmentStart, end]; with WheelShape, the segment's width is the item's weight. */
  lemma {:induction false} LandingInSegment<T>(s: seq<(T, real)>, selection: real, k: nat)
    requires k < |Wheel(s)|
    requires SegmentStart(Wheel(s), k) < selection <= Wheel(s)[k].1
    ensures Landing(Wheel(s), selection) == Some(Wheel(s)[k].0)
  {
    var w := Wheel(s);
    forall j | 0 <= j < k ensures w[j].1 < selection {
      if j < k - 1 { WheelIncreasing(s, j, k - 1); }
    }
    assert LandsOn(w, selection, k);
    LandsOnIsLanding(w, selection, k);
  }

  /** The ranked wheel `RouletteWheelTake` spins for these items and weights. */
  function RankedWheel<T>(items: seq<T>, weight: T -> real): seq<(T, real)> {
    Wheel(SortByWeightDescending(Weighed(items, weight)))
  }

  /** The total the wheel is scaled to. */
  function RankedTotal<T>(items: seq<T>, weight: T -> real): real {
    PositiveTotal(SortByWeightDescending(Weighed(items, weight)))
  }

  /** Spin `k` yielded the item that selection `draws[k] * total` lands on. */
  ghost predicate SpinsLandAt<T>(r: seq<Option<T>>, wheel: seq<(T, real)>, total: real, draws: seq<real>) {
    |r| <= |draws| && forall k :: 0 <= k < |r| ==> r[k].Some? && r[k] == Landing(wheel, draws[k] * total)
  }

  lemma SpinLandsAt<T>(r: seq<Option<T>>, wheel: seq<(T, real)>, total: real, draws: seq<real>, k: nat)
    requires SpinsLandAt(r, wheel, total, draws) && k < |r|
    ensures r[k].Some? && r[k] == Landing(wheel, draws[k] * total)
  {
  }

  /** The spins of `RouletteWheelTake` on a non-empty wheel whose last running total is `total`. */
  method SpinAll<T>(wheel: seq<(T, real)>, total: real, n: nat, draws: seq<real>) returns (r: seq<Option<T>>)
    requires AllDraws(draws) && n <= |draws|
    requires |wheel| > 0 && wheel[|wheel| - 1].1 == total && total >= 0.0
    ensures |r| == n && SpinsLandAt(r, wheel, total, draws)
  {
    r := [];
    var spin := 0;
    while spin < n
      invariant 0 <= spin <= n && |r| == spin
      invariant SpinsLandAt(r, wheel, total, draws)
    {
      var selection := draws[spin] * total;
      ScaledDrawBelow(draws[spin], total);
      var i := Spin(wheel, selection);
      LandsOnIsLanding(wheel, selection, i);
      var r' := r + [Some(wheel[i].0)];
      forall k | 0 <= k < |r'| ensures r'[k].Some? && r'[k] == Landing(wheel, draws[k] * total) {
        if k < spin {
          assert r'[k] == r[k];
          assert k < |r|;
          assert r[k] == Landing(wheel, draws[k] * total);
        } else {
          assert k == spin && selection == draws[k] * total;
          assert r'[k] == Some(wheel[i].0);
        }
      }
      r := r';
      spin := spin + 1;
    }
  }

  /** `RouletteWheelTake(n)`: rank the items by weight, build the wheel, then spin `n` times,
      each spin picking the item the selection `draw * total` lands on. With no positive
      weight the sequence is a single `default(T)`; otherwise a negative count makes
      `Enumerable.Range` throw. */
  method RouletteWheelTake<T>(items: seq<T>, weight: T -> real, n: int, draws: seq<real>)
    returns (r: Result<seq<Option<T>>>)
    requires AllDraws(draws) && n <= |draws|
    ensures |RankedWheel(items, weight)| == 0 ==> r == Success([None])
    ensures |RankedWheel(items, weight)| > 0 && n < 0 ==> r == Failure("ArgumentOutOfRangeException")
    ensures |RankedWheel(items, weight)| > 0 && n >= 0 ==>
      r.Success? && |r.value| == n && SpinsLandAt(r.value, RankedWheel(items, weight), RankedTotal(items, weight), draws)
  {
    var ranked := SortByWeightDescending(Weighed(items, weight));
    var wheel, total := BuildWheel(ranked);
    WheelShape(ranked);
    if |wheel| == 0 {
      return Success([None]);
    }
    if n < 0 {
      return Failure("ArgumentOutOfRangeException");
    }
    assert wheel == RankedWheel(items, weight);
    assert total == RankedTotal(items, weight);
    var spins := SpinAll(wheel, total, n, draws);
    r := Success(spins);
  }

  function Weighed<T>(items: seq<T>, weight: T -> real): (r: seq<(T, real)>)
    ensures |r| == |items| && forall k :: 0 <= k < |r| ==> r[k] == (items[k], weight(items[k]))
  {
    seq(|items|, k requires 0 <= k < |items| => (items[k], weight(items[k])))
  }

  lemma ScaledDrawBelow(u: real, t: real)
    requires IsDraw(u) && t >= 0.0
    ensures u * t <= t
  {
  }

  /** `RouletteWheelSingle`: the first element of a one-spin `RouletteWheelTake`. */
  method RouletteWheelSingle<T>(items: seq<T>, weight: T -> real, u: real) returns (r: Option<T>)
    requires IsDraw(u)
    ensures r == FirstLanding(RankedWheel(items, weight), RankedTotal(items, weight), u)
    ensures r.None? <==> |RankedWheel(items, weight)| == 0
  {
    var draws := [u];
    assert AllDraws(draws);
    var spins := RouletteWheelTake(items, weight, 1, draws);
    FirstSpin(spins.value, RankedWheel(items, weight), RankedTotal(items, weight), u);
    r := spins.value[0];
  }

  /** Where one spin with draw `u` lands: nowhere on an empty wheel. */
  function FirstLanding<T>(wheel: seq<(T, real)>, total: real, u: real): Option<T> {
    if |wheel| == 0 then None else Landing(wheel, u * total)
  }

  lemma FirstSpin<T>(spins: seq<Option<T>>, wheel: seq<(T, real)>, total: real, u: real)
    requires |wheel| == 0 ==> spins == [None]
    requires |wheel| > 0 ==> |spins| == 1 && SpinsLandAt(spins, wheel, total, [u])
    ensures |spins| > 0 && spins[0] == FirstLanding(wheel, total, u)
    ensures spins[0].None? <==> |wheel| == 0
  {
    if |wheel| > 0 {
      SpinLandsAt(spins, wheel, total, [u], 0);
    }
  }

  // ---------------------------------------------------------------- MaxBy

  /** Position `k` holds a maximal key and every later key is strictly smaller: with the
      source's `CompareTo(maxKey) >= 0` the LAST maximal element wins. */
  predicate IsLastMax<T>(s: seq<T>, key: T -> real, k: int) {
    0 <= k < |s| &&
    (forall j :: 0 <= j < |s| ==> key(s[j]) <= key(s[k])) &&
    (forall j :: k < j < |s| ==> key(s[j]) < key(s[k]))
  }

  /** `MaxBy`: `default(T)` for an empty sequence, otherwise its last maximal element. */
  method MaxBy<T>(s: seq<T>, key: T -> real) returns (r: Option<T>)
    ensures r.None? <==> |s| == 0
    ensures r.Some? ==> exists k :: IsLastMax(s, key, k) && r.value == s[k]
  {
    if |s| == 0 {
      return None;
    }
    var maxIndex := 0;
    var maxKey := key(s[0]);
    var i := 1;
    while i < |s|
      invariant 1 <= i <= |s| && 0 <= maxIndex < i && maxKey == key(s[maxIndex])
      invariant forall j :: 0 <= j < i ==> key(s[j]) <= maxKey
      invariant forall j :: maxIndex < j < i ==> key(s[j]) < maxKey
    {
      var currKey := key(s[i]);
      if currKey >= maxKey {
        maxKey := currKey;
        maxIndex := i;
      }
      i := i + 1;
    }
    assert IsLastMax(s, key, maxIndex);
    r := Some(s[maxIndex]);
  }

  /** There is only one last maximal position, so MaxBy's answer is determined. */
  lemma LastMaxUnique<T>(s: seq<T>, key: T -> real, k: int, l: int)
    requires IsLastMax(s, key, k) && IsLastMax(s, key, l)
    ensures k == l
  {
    assert key(s[k]) <= key(s[l]) && key(s[l]) <= key(s[k]);
  }
}
