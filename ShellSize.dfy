/**
 * How many cubelets a cube of a given size has: the surface shell of an
 * n x n x n grid holds n^3 - (n - 2)^3 positions (every position for n = 1),
 * so InitializeCubelets of Model/Cube.cs creates that many cubelets and no
 * move changes the count.
 */
module ShellSize {
  import opened Geometry
  import opened Cubelets
  import opened Shell

  /** The doubled grid coordinates -n2, -n2 + 2, ..., n2. */
  function Grid(n2: int): set<int>
  {
    set c | -n2 <= c <= n2 && OnGrid(n2, c)
  }

  /** The points (a, b, z) for z in zs. */
  function Row(a: int, b: int, zs: set<int>): set<Point>
  {
    set z | z in zs :: Point(a, b, z)
  }

  /** The points (a, y, z) for y in ys and z in zs. */
  function Slab(a: int, ys: set<int>, zs: set<int>): set<Point>
  {
    set y, z | y in ys && z in zs :: Point(a, y, z)
  }

  /** The points (x, y, z) for x in xs, y in ys and z in zs. */
  function Box(xs: set<int>, ys: set<int>, zs: set<int>): set<Point>
  {
    set x, y, z | x in xs && y in ys && z in zs :: Point(x, y, z)
  }

  /** The positions of the cubelets. */
  function Positions(s: seq<CubeletValue>): set<Point>
  {
    set i | 0 <= i < |s| :: s[i].position
  }

  lemma RowMember(p: Point, a: int, b: int, zs: set<int>)
    ensures p in Row(a, b, zs) <==> p.x == a && p.y == b && p.z in zs
  {
    if p.x == a && p.y == b && p.z in zs {
      assert p == Point(a, b, p.z);
    }
  }

  lemma SlabMember(p: Point, a: int, ys: set<int>, zs: set<int>)
    ensures p in Slab(a, ys, zs) <==> p.x == a && p.y in ys && p.z in zs
  {
    if p.x == a && p.y in ys && p.z in zs {
      assert p == Point(a, p.y, p.z);
    }
  }

  lemma BoxMember(p: Point, xs: set<int>, ys: set<int>, zs: set<int>)
    ensures p in Box(xs, ys, zs) <==> p.x in xs && p.y in ys && p.z in zs
  {
    if p.x in xs && p.y in ys && p.z in zs {
      assert p == Point(p.x, p.y, p.z);
    }
  }

  /** Some member of a non-empty set. */
  lemma Pick(s: set<int>) returns (v: int)
    requires |s| > 0
    ensures v in s
  {
    if forall c :: c !in s {
      assert false;
    }
    v :| v in s;
  }

  /** One more row of k adds k. */
  lemma MulSucc(n: int, m: int, k: int)
    requires n == m + 1
    ensures n * k == m * k + k
  {
  }

  /** A grid of n2 + 1 coordinates: n for a cube of size n. */
  lemma {:induction false} GridSize(n2: int)
    requires n2 >= -1
    ensures |Grid(n2)| == n2 + 1
    decreases n2
  {
    if n2 == -1 {
      assert Grid(n2) == {};
    } else if n2 == 0 {
      assert Grid(n2) == {0};
    } else {
      GridSize(n2 - 2);
      forall c
        ensures c in Grid(n2) <==> c in Grid(n2 - 2) + {-n2, n2}
      {
        OnGridStep(n2, c);
      }
      assert Grid(n2) == Grid(n2 - 2) + {-n2, n2};
      assert -n2 !in Grid(n2 - 2) && n2 !in Grid(n2 - 2);
    }
  }

  /** Going out one grid step adds the two new extreme coordinates. */
  lemma OnGridStep(n2: int, c: int)
    requires n2 >= 1
    ensures OnGrid(n2, c) <==> c == -n2 || c == n2 || OnGrid(n2 - 2, c)
  {
    assert (n2 - c) % 2 == (n2 - 2 - c) % 2;
  }

  lemma {:induction false} RowSize(a: int, b: int, zs: set<int>)
    ensures |Row(a, b, zs)| == |zs|
    decreases |zs|
  {
    if |zs| > 0 {
      var z := Pick(zs);
      var rest := zs - {z};
      RowSize(a, b, rest);
      forall p
        ensures p in Row(a, b, zs) <==> p in Row(a, b, rest) + {Point(a, b, z)}
      {
        RowMember(p, a, b, zs);
        RowMember(p, a, b, rest);
      }
      assert Row(a, b, zs) == Row(a, b, rest) + {Point(a, b, z)};
    }
  }

  lemma {:induction false} SlabSize(a: int, ys: set<int>, zs: set<int>)
    ensures |Slab(a, ys, zs)| == |ys| * |zs|
    decreases |ys|
  {
    if |ys| > 0 {
      var y := Pick(ys);
      var rest := ys - {y};
      SlabSize(a, rest, zs);
      RowSize(a, y, zs);
      forall p
        ensures p in Slab(a, ys, zs) <==> p in Slab(a, rest, zs) + Row(a, y, zs)
        ensures !(p in Slab(a, rest, zs) && p in Row(a, y, zs))
      {
        SlabMember(p, a, ys, zs);
        SlabMember(p, a, rest, zs);
        RowMember(p, a, y, zs);
      }
      assert Slab(a, ys, zs) == Slab(a, rest, zs) + Row(a, y, zs);
      assert Slab(a, rest, zs) !! Row(a, y, zs);
      MulSucc(|ys|, |rest|, |zs|);
    }
  }

  lemma {:induction false} BoxSize(xs: set<int>, ys: set<int>, zs: set<int>)
    ensures |Box(xs, ys, zs)| == |xs| * (|ys| * |zs|)
    decreases |xs|
  {
    if |xs| > 0 {
      var x := Pick(xs);
      var rest := xs - {x};
      BoxSize(rest, ys, zs);
      SlabSize(x, ys, zs);
      forall p
        ensures p in Box(xs, ys, zs) <==> p in Box(rest, ys, zs) + Slab(x, ys, zs)
        ensures !(p in Box(rest, ys, zs) && p in Slab(x, ys, zs))
      {
        BoxMember(p, xs, ys, zs);
        BoxMember(p, rest, ys, zs);
        SlabMember(p, x, ys, zs);
      }
      assert Box(xs, ys, zs) == Box(rest, ys, zs) + Slab(x, ys, zs);
      assert Box(rest, ys, zs) !! Slab(x, ys, zs);
      MulSucc(|xs|, |rest|, |ys| * |zs|);
    }
  }

  /** The shell is the grid cube without the grid cube two steps smaller inside it. */
  lemma ShellIsBoxWithoutInside(size: int, p: Point)
    requires size >= 1
    ensures OnShell(size, p) <==>
      p in Box(Grid(size - 1), Grid(size - 1), Grid(size - 1)) - Box(Grid(size - 3), Grid(size - 3), Grid(size - 3))
  {
    var g, h := Grid(size - 1), Grid(size - 3);
    if p in Box(g, g, g) {
      assert p.x in g && p.y in g && p.z in g;
    }
    if p in Box(h, h, h) {
      assert p.x in h && p.y in h && p.z in h;
    }
    if OnShell(size, p) {
      assert p.x in g && p.y in g && p.z in g;
      assert p in Box(g, g, g);
    }
    if OnGrid(size - 1, p.x) && OnGrid(size - 1, p.y) && OnGrid(size - 1, p.z) && !OnShell(size, p) {
      assert p.x in h && p.y in h && p.z in h;
      assert p in Box(h, h, h);
    }
  }

  /** Taking away a subset takes away its size. */
  lemma DifferenceSize(a: set<Point>, b: set<Point>)
    requires b <= a
    ensures |a - b| == |a| - |b|
  {
    assert a == (a - b) + b;
    assert (a - b) !! b;
  }

  /** The inner grid cube lies inside the outer one. */
  lemma InsideInBox(size: int)
    ensures Box(Grid(size - 3), Grid(size - 3), Grid(size - 3)) <= Box(Grid(size - 1), Grid(size - 1), Grid(size - 1))
  {
    var g, h := Grid(size - 1), Grid(size - 3);
    forall p | p in Box(h, h, h)
      ensures p in Box(g, g, g)
    {
      assert p.x in h && p.y in h && p.z in h;
      assert p.x in g && p.y in g && p.z in g;
    }
  }

  /** A grid cube of n coordinates a side has n^3 points. */
  lemma CubeSize(n2: int)
    requires n2 >= -1
    ensures |Box(Grid(n2), Grid(n2), Grid(n2))| == (n2 + 1) * (n2 + 1) * (n2 + 1)
  {
    var g := Grid(n2);
    GridSize(n2);
    BoxSize(g, g, g);
  }

  /** The number of positions on the surface shell of a cube of the given size. */
  lemma ShellPositions(size: int)
    requires size >= 1
    ensures |Box(Grid(size - 1), Grid(size - 1), Grid(size - 1)) - Box(Grid(size - 3), Grid(size - 3), Grid(size - 3))|
      == size * size * size - (if size >= 2 then (size - 2) * (size - 2) * (size - 2) else 0)
  {
    InsideInBox(size);
    DifferenceSize(Box(Grid(size - 1), Grid(size - 1), Grid(size - 1)), Box(Grid(size - 3), Grid(size - 3), Grid(size - 3)));
    CubeSize(size - 1);
    if size >= 2 {
      CubeSize(size - 3);
    } else {
      assert Grid(size - 3) == {};
      assert Box(Grid(size - 3), Grid(size - 3), Grid(size - 3)) == {};
    }
  }

  /** Cubelets at distinct positions have as many positions as cubelets. */
  lemma {:induction false} PositionsOfDistinct(s: seq<CubeletValue>)
    requires DistinctPositions(s)
    ensures |Positions(s)| == |s|
  {
    if |s| > 0 {
      var init := s[..|s| - 1];
      PositionsOfDistinct(init);
      assert Positions(s) == Positions(init) + {s[|s| - 1].position};
      assert s[|s| - 1].position !in Positions(init);
    }
  }

  /**
   * A cube's cubelets fill its surface shell, one per position, so a cube
   * of size n has n^3 - (n - 2)^3 cubelets (one for n = 1).
   */
  lemma ShellStateSize(s: seq<CubeletValue>, size: int)
    requires IsShellState(s, size) && size >= 1
    ensures |s| == size * size * size - (if size >= 2 then (size - 2) * (size - 2) * (size - 2) else 0)
  {
    var shell := Box(Grid(size - 1), Grid(size - 1), Grid(size - 1)) - Box(Grid(size - 3), Grid(size - 3), Grid(size - 3));
    forall p
      ensures p in Positions(s) <==> p in shell
    {
      ShellIsBoxWithoutInside(size, p);
    }
    assert Positions(s) == shell;
    PositionsOfDistinct(s);
    ShellPositions(size);
  }
}
