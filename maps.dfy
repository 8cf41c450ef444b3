/**
 * NEATSpacesLibrary/NEATSpaces/Map.cs: the MapNode value type and the Map grid with its
 * collision map, indexers, neighbour function and checkpoint rule.
 *
 * MapNode's coordinates are C# `int`s: subtraction wraps around and `Math.Abs(int.MinValue)`
 * throws, both written out here. The A* search of `DistanceBetween` is QuickGraph's and enters
 * as a distance oracle.
 */
module Maps {
  import opened Wrappers
  import opened MathExtensions
  import opened Text

  const MinInt32: int := -0x8000_0000
  const MaxInt32: int := 0x7fff_ffff

  type Int32 = x: int | MinInt32 <= x <= MaxInt32

  /** Two's-complement wrap-around of an unchecked C# `int` operation. */
  function Wrap32(v: int): (r: Int32)
    ensures MinInt32 <= v <= MaxInt32 ==> r == v
  {
    (v - MinInt32) % 0x1_0000_0000 + MinInt32
  }

  datatype MapNode = MapNode(x: Int32, y: Int32)

  /** `operator -`: component-wise, with C#'s unchecked wrap-around. */
  function Minus(a: MapNode, b: MapNode): (r: MapNode)
    ensures MinInt32 <= a.x - b.x <= MaxInt32 && MinInt32 <= a.y - b.y <= MaxInt32 ==>
      r.x == a.x - b.x && r.y == a.y - b.y
  {
    MapNode(Wrap32(a.x - b.x), Wrap32(a.y - b.y))
  }

  /** `operator ==`: both coordinates agree. */
  predicate Same(a: MapNode, b: MapNode) { a.x == b.x && a.y == b.y }

  /** What an `object` reference handed to `Equals` or `CompareTo` can be. */
  datatype Boxed = BoxedNode(node: MapNode) | BoxedOther

  /** `Equals(object)`: false for an object of another type; a null reference throws. */
  function EqualsObject(a: MapNode, obj: Option<Boxed>): (r: Result<bool>)
    ensures r.Failure? <==> obj.None?
    ensures r.Success? ==> (r.value <==> obj.value.BoxedNode? && obj.value.node == a)
  {
    match obj
    case None => Failure("NullReferenceException")
    case Some(BoxedOther) => Success(false)
    case Some(BoxedNode(b)) => Success(Same(a, b))
  }

  /** `CompareTo`: 0 for an equal node and 1 for anything else, so it is only an equality test:
      it never orders two distinct nodes (1 both ways). */
  function CompareTo(a: MapNode, obj: Option<Boxed>): (r: Result<int>)
    ensures r.Failure? <==> obj.None?
    ensures r.Success? ==> (r.value == 0 <==> obj.value == BoxedNode(a)) && (r.value == 0 || r.value == 1)
  {
    match EqualsObject(a, obj)
    case Failure(e) => Failure(e)
    case Success(eq) => Success(if eq then 0 else 1)
  }

  lemma CompareToIsSymmetric(a: MapNode, b: MapNode)
    ensures CompareTo(a, Some(BoxedNode(b))) == CompareTo(b, Some(BoxedNode(a)))
    ensures a != b ==> CompareTo(a, Some(BoxedNode(b))) == Success(1)
  {
  }

  /** `Magnitude`: |X| + |Y| in `int` arithmetic. `Math.Abs` throws `OverflowException` on
      `int.MinValue`, and the sum wraps around before it becomes a `double`. */
  function Magnitude(a: MapNode): (r: Result<int>)
    ensures r.Failure? <==> a.x == MinInt32 || a.y == MinInt32
    ensures r.Success? && Abs(a.x) + Abs(a.y) <= MaxInt32 ==> r.value == Abs(a.x) + Abs(a.y)
  {
    if a.x == MinInt32 || a.y == MinInt32 then Failure("OverflowException")
    else Success(Wrap32(Abs(a.x) + Abs(a.y)))
  }

  /** `ToString()`: "X,Y". `GetHashCode` hashes this text. */
  function NodeText(a: MapNode): string {
    IntToString(a.x) + "," + IntToString(a.y)
  }

  function ParseNode(s: string): Option<MapNode> {
    var k := IndexOf(s, ',');
    if k == |s| then None
    else
      match (ParseInt(s[..k]), ParseInt(s[k + 1..]))
      case (Some(x), Some(y)) =>
        if MinInt32 <= x <= MaxInt32 && MinInt32 <= y <= MaxInt32 then Some(MapNode(x, y)) else None
      case _ => None
  }

  /** The text of a node determines the node: two nodes with the same text (and so the same
      hash) are equal, which is what `GetHashCode` needs to agree with `Equals`. */
  lemma {:induction false} NodeTextRoundTrip(a: MapNode)
    ensures ParseNode(NodeText(a)) == Some(a)
  {
    var xs, ys := IntToString(a.x), IntToString(a.y);
    IndexOfAfterPrefix(xs, ',', ys);
    var s := NodeText(a);
    assert s[..|xs|] == xs && s[|xs| + 1..] == ys;
    IntRoundTrip(a.x);
    IntRoundTrip(a.y);
  }

  lemma NodeTextInjective(a: MapNode, b: MapNode)
    requires NodeText(a) == NodeText(b)
    ensures a == b
  {
    NodeTextRoundTrip(a);
    NodeTextRoundTrip(b);
  }

  /** `MapConstants`: the map every experiment uses. */
  const MapSize: nat := 30
  const MandatoryCheckPointLevel: int := 3

  /** `new Map(width, height, ...)` with the source's `int` dimensions: a negative one makes
      the array allocation throw; otherwise the map of `Map`'s constructor. */
  method NewMap(width: int, height: int, start: MapNode, end: MapNode, checkpoints: seq<MapNode>,
                mandatoryCheckPointLevel: int) returns (r: Result<Map>)
    requires width <= MaxInt32 && height <= MaxInt32
    ensures r.Failure? <==> width < 0 || height < 0
    ensures r.Failure? ==> r.error == "OverflowException"
    ensures r.Success? ==> var m := r.value;
      && fresh(m) && fresh(m.collisionMap) && m.Valid()
      && m.width == width && m.height == height && m.start == start && m.end == end
      && m.checkpoints == checkpoints && m.mandatoryCheckPointLevel == mandatoryCheckPointLevel
      && forall x, y :: 0 <= x < width && 0 <= y < height ==> !m.collisionMap[x, y]
  {
    if width < 0 || height < 0 {
      return Failure("OverflowException");
    }
    var m := new Map(width, height, start, end, checkpoints, mandatoryCheckPointLevel);
    r := Success(m);
  }

  /** A grid of `width` x `height` tiles, a tile being a wall when its collision entry is set. */
  class Map {
    const width: nat
    const height: nat
    const start: MapNode
    const end: MapNode
    const checkpoints: seq<MapNode>
    const mandatoryCheckPointLevel: int
    var collisionMap: array2<bool>

    ghost predicate Valid()
      reads this
    {
      collisionMap.Length0 == width && collisionMap.Length1 == height && width <= MaxInt32 && height <= MaxInt32
    }

    /** A new map has no walls. */
    constructor (width: nat, height: nat, start: MapNode, end: MapNode, checkpoints: seq<MapNode>,
                 mandatoryCheckPointLevel: int)
      requires width <= MaxInt32 && height <= MaxInt32
      ensures Valid() && fresh(collisionMap)
      ensures this.width == width && this.height == height && this.start == start && this.end == end
      ensures this.checkpoints == checkpoints && this.mandatoryCheckPointLevel == mandatoryCheckPointLevel
      ensures forall x, y :: 0 <= x < width && 0 <= y < height ==> !collisionMap[x, y]
    {
      this.width := width;
      this.height := height;
      this.start := start;
      this.end := end;
      this.checkpoints := checkpoints;
      this.mandatoryCheckPointLevel := mandatoryCheckPointLevel;
      collisionMap := new bool[width, height]((_, _) => false);
    }

    predicate InBounds(x: int, y: int) {
      0 <= x < width && 0 <= y < height
    }

    /** The `[x, y]` getter; outside the grid the array access throws. */
    function Get(x: int, y: int): (r: Result<bool>)
      requires Valid()
      reads this, collisionMap
      ensures r.Failure? <==> !InBounds(x, y)
      ensures r.Success? ==> r.value == collisionMap[x, y]
    {
      if InBounds(x, y) then Success(collisionMap[x, y]) else Failure("IndexOutOfRangeException")
    }

    /** The `[x, y]` setter: one tile changes, every other stays. */
    method Set(x: int, y: int, value: bool) returns (ok: bool)
      requires Valid()
      modifies collisionMap
      ensures Valid() && ok == InBounds(x, y)
      ensures forall i, j :: 0 <= i < width && 0 <= j < height ==>
        collisionMap[i, j] == if ok && i == x && j == y then value else old(collisionMap[i, j])
    {
      ok := InBounds(x, y);
      if ok {
        collisionMap[x, y] := value;
      }
    }

    /** The tile the linear index `i` names: column `i % width`, row `i / width`, with C#'s
        truncating operators. A zero width divides by zero; a negative or too large index
        falls outside the array. */
    function LinearCell(i: int): (r: Result<(int, int)>)
      requires Valid()
      reads this
      ensures r.Failure? <==> width == 0 || i < 0 || i >= width * height
      ensures r.Success? ==> InBounds(r.value.0, r.value.1)
    {
      if width == 0 then Failure("DivideByZeroException")
      else
        var x, y := CSharpRem(i, width), CSharpQuot(i, width);
        LinearBounds(i, width, height);
        if InBounds(x, y) then Success((x, y)) else Failure("IndexOutOfRangeException")
    }

    /** The `[i]` getter. */
    function GetLinear(i: int): (r: Result<bool>)
      requires Valid()
      reads this, collisionMap
      ensures r.Failure? <==> width == 0 || i < 0 || i >= width * height
    {
      match LinearCell(i)
      case Failure(e) => Failure(e)
      case Success(cell) => Get(cell.0, cell.1)
    }

    /** Tile (x, y) has linear index `y * width + x`, so the linear indexer reaches every tile
        exactly once. */
    lemma {:induction false} LinearCellOfTile(x: int, y: int)
      requires Valid() && InBounds(x, y)
      ensures 0 <= y * width + x < width * height
      ensures LinearCell(y * width + x) == Success((x, y))
    {
      var i := y * width + x;
      MulMono(width, y + 1, height);
      assert width * (y + 1) == width * y + width;
      EuclideanUnique(i, width, y, x);
    }

    /** The four tiles the graph's neighbour function lists for a tile, in its order: left,
        right, up, down, each only when it stays inside the grid. */
    method Neighbours(current: MapNode) returns (neighbours: seq<MapNode>, any: bool)
      requires Valid()
      ensures any <==> |neighbours| > 0
      ensures forall n :: n in neighbours <==> IsStep(current, n)
    {
      neighbours := [];
      if current.x > 0 {
        neighbours := neighbours + [MapNode(current.x - 1, current.y)];
      }
      if current.x < width - 1 {
        neighbours := neighbours + [MapNode(current.x + 1, current.y)];
      }
      if current.y > 0 {
        neighbours := neighbours + [MapNode(current.x, current.y - 1)];
      }
      if current.y < height - 1 {
        neighbours := neighbours + [MapNode(current.x, current.y + 1)];
      }
      any := |neighbours| > 0;
    }

    /** `n` is one step left, right, up or down from `c` and the step respects the guards. */
    predicate IsStep(c: MapNode, n: MapNode) {
      (c.x > 0 && n == MapNode(c.x - 1, c.y)) ||
      (c.x < width - 1 && n.y == c.y && n.x == c.x + 1) ||
      (c.y > 0 && n == MapNode(c.x, c.y - 1)) ||
      (c.y < height - 1 && n.x == c.x && n.y == c.y + 1)
    }

    /** The edges the neighbour function yields: the listed neighbours that are not walls. The
        filter runs lazily over the collision map; a tile outside the grid throws there. */
    function AdjacentEdges(current: MapNode, neighbours: seq<MapNode>): (r: Result<seq<MapNode>>)
      requires Valid()
      reads this, collisionMap
      ensures r.Failure? <==> exists k :: 0 <= k < |neighbours| && !InBounds(neighbours[k].x, neighbours[k].y)
      ensures r.Success? ==> forall n :: n in r.value <==> n in neighbours && !collisionMap[n.x, n.y]
    {
      if neighbours == [] then Success([])
      else
        var n := neighbours[0];
        match AdjacentEdges(current, neighbours[1..])
        case Failure(e) => Failure(e)
        case Success(rest) =>
          if !InBounds(n.x, n.y) then Failure("IndexOutOfRangeException")
          else if collisionMap[n.x, n.y] then Success(rest)
          else Success([n] + rest)
    }

    /** From a tile of the grid every listed neighbour is a tile of the grid one unit away, so
        the A* edge cost `(target - source).Magnitude` is 1 for every edge. */
    lemma StepsStayInGrid(c: MapNode, n: MapNode)
      requires Valid() && InBounds(c.x, c.y) && IsStep(c, n)
      ensures InBounds(n.x, n.y)
      ensures Magnitude(Minus(n, c)) == Success(1)
    {
    }

    /** `Length`: the number of tiles. */
    function Length(): (r: nat)
      requires Valid()
      reads this, collisionMap
      ensures r == width * height
    {
      collisionMap.Length0 * collisionMap.Length1
    }

    /** `Copy`: a new map with the same settings and a cloned collision map. */
    method Copy() returns (result: Map)
      requires Valid()
      ensures fresh(result) && fresh(result.collisionMap) && result.Valid()
      ensures result.width == width && result.height == height && result.start == start && result.end == end
      ensures result.checkpoints == checkpoints && result.mandatoryCheckPointLevel == mandatoryCheckPointLevel
      ensures forall x, y :: 0 <= x < width && 0 <= y < height ==> result.collisionMap[x, y] == collisionMap[x, y]
    {
      result := new Map(width, height, start, end, checkpoints, mandatoryCheckPointLevel);
      var cells := collisionMap;
      result.collisionMap := new bool[width, height]((x, y) reads cells
        requires 0 <= x < cells.Length0 && 0 <= y < cells.Length1 => cells[x, y]);
    }

    /** `DistanceFromStartToEnd`: zero when the end cannot be reached from the start, or when
        fewer than `mandatoryCheckPointLevel` checkpoints lie on some start-to-end route; the
        start-to-end distance otherwise. `distance` stands for the A* search. */
    function DistanceFromStartToEnd(distance: (MapNode, MapNode) -> Option<real>): (r: real)
      ensures distance(start, end).None? ==> r == 0.0
      ensures distance(start, end).Some? && ReachableCheckpoints(checkpoints, distance) < mandatoryCheckPointLevel ==> r == 0.0
      ensures distance(start, end).Some? && ReachableCheckpoints(checkpoints, distance) >= mandatoryCheckPointLevel ==>
        r == distance(start, end).value
    {
      var d := distance(start, end);
      if d.None? then 0.0
      else if ReachableCheckpoints(checkpoints, distance) < mandatoryCheckPointLevel then 0.0
      else d.value
    }

    /** The checkpoints reachable from the start and from which the end is reachable. */
    function ReachableCheckpoints(cps: seq<MapNode>, distance: (MapNode, MapNode) -> Option<real>): (n: nat)
      ensures n <= |cps|
    {
      if cps == [] then 0
      else
        var c := cps[|cps| - 1];
        ReachableCheckpoints(cps[..|cps| - 1], distance) +
          if distance(start, c).Some? && distance(c, end).Some? then 1 else 0
    }
  }

  /** The truncating quotient and remainder of `i` by `w` name a tile of a `w` x `h` grid
      exactly when `0 <= i < w * h`. */
  lemma {:induction false} LinearBounds(i: int, w: nat, h: nat)
    requires w > 0
    ensures var x, y := CSharpRem(i, w), CSharpQuot(i, w);
      (0 <= x < w && 0 <= y < h) <==> 0 <= i < w * h
  {
    var x, y := CSharpRem(i, w), CSharpQuot(i, w);
    assert i == w * y + x;
    if i < 0 {
      assert x <= 0;
      if x == 0 && y >= 0 {
        MulMono(w, 0, y);
        assert false;
      }
    } else {
      assert 0 <= x < w;
      if y < 0 {
        MulMono(w, y, -1);
        assert false;
      }
      if y < h {
        MulMono(w, y + 1, h);
        MulPred(w, y + 1);
      } else {
        MulMono(w, h, y);
      }
    }
  }

  lemma {:induction false} MulMono(a: nat, b: int, c: int)
    requires b <= c
    ensures a * b <= a * c
  {
    MulSub(a, c, b);
    assert a * (c - b) >= 0;
  }

  /** `MapConstants.CreateMap`: 30 x 30 tiles from (0, 0) to (29, 29) through four
      checkpoints, at least three of which must be on a route. */
  method CreateMap() returns (m: Map)
    ensures fresh(m) && m.Valid() && m.width == MapSize && m.height == MapSize
    ensures m.start == MapNode(0, 0) && m.end == MapNode(29, 29)
    ensures m.checkpoints == [MapNode(6, 24), MapNode(12, 18), MapNode(18, 12), MapNode(24, 6)]
    ensures m.mandatoryCheckPointLevel == MandatoryCheckPointLevel
  {
    m := new Map(MapSize, MapSize, MapNode(0, 0), MapNode(29, 29),
                 [MapNode(6, 24), MapNode(12, 18), MapNode(18, 12), MapNode(24, 6)], MandatoryCheckPointLevel);
  }
}
