/**
 * What InitializeCubelets of Model/Cube.cs builds, stated on values: the
 * triple loop visits the grid positions in lexicographic order and keeps
 * those on the surface shell, each painted with its initial colours.
 */
module Building {
  import opened Vocabulary
  import opened Geometry
  import opened Cubelets
  import opened Shell

  /** p comes before q in the order x, then y, then z. */
  predicate Before(p: Point, q: Point)
  {
    p.x < q.x || (p.x == q.x && (p.y < q.y || (p.y == q.y && p.z < q.z)))
  }

  /** The new cubelet at p, as the loop body paints it. */
  function Painted(p: Point, n2: int): CubeletValue
  {
    CubeletValue(p, InitialColors(p, n2))
  }

  /**
   * vs is what the loops have built when they reach q: every shell
   * position before q, once each, in order, painted.
   */
  ghost predicate BuiltBefore(vs: seq<CubeletValue>, size: int, q: Point)
  {
    (forall i :: 0 <= i < |vs| ==> OnShell(size, vs[i].position) && Before(vs[i].position, q)) &&
    (forall i :: 0 <= i < |vs| ==> vs[i].faceColors == InitialColors(vs[i].position, size - 1)) &&
    DistinctPositions(vs) &&
    forall p :: OnShell(size, p) && Before(p, q) ==> Occupied(vs, p)
  }

  /** Nothing is built before the first corner. */
  lemma BuildStart(size: int)
    ensures BuiltBefore([], size, Point(-(size - 1), -(size - 1), -(size - 1)))
  {
  }

  /** Two grid coordinates less than one step apart are equal. */
  lemma SameGridStep(n2: int, c: int, d: int)
    requires OnGrid(n2, c) && OnGrid(n2, d) && c <= d < c + 2
    ensures c == d
  {
  }

  /** Between q and the next grid position along z there is no other grid position. */
  lemma NothingBetween(size: int, p: Point, q: Point)
    requires OnShell(size, p) && OnGrid(size - 1, q.z)
    requires Before(p, Point(q.x, q.y, q.z + 2)) && !Before(p, q)
    ensures p == q
  {
    SameGridStep(size - 1, q.z, p.z);
  }

  /** A step over a position off the surface keeps nothing. */
  lemma BuildSkip(vs: seq<CubeletValue>, size: int, q: Point)
    requires OnGrid(size - 1, q.z) && !OnShell(size, q)
    requires BuiltBefore(vs, size, q)
    ensures BuiltBefore(vs, size, Point(q.x, q.y, q.z + 2))
  {
    forall p | OnShell(size, p) && Before(p, Point(q.x, q.y, q.z + 2))
      ensures Occupied(vs, p)
    {
      if !Before(p, q) {
        NothingBetween(size, p, q);
      }
    }
  }

  /** A step over a surface position appends the painted cubelet. */
  lemma BuildKeep(vs: seq<CubeletValue>, size: int, x: int, y: int, z: int)
    requires OnShell(size, Point(x, y, z))
    requires BuiltBefore(vs, size, Point(x, y, z))
    ensures BuiltBefore(vs + [Painted(Point(x, y, z), size - 1)], size, Point(x, y, z + 2))
  {
    var q := Point(x, y, z);
    var ws := vs + [Painted(q, size - 1)];
    var next := Point(x, y, z + 2);
    assert forall i :: 0 <= i < |vs| ==> ws[i] == vs[i];
    forall i | 0 <= i < |ws|
      ensures OnShell(size, ws[i].position) && Before(ws[i].position, next)
      ensures ws[i].faceColors == InitialColors(ws[i].position, size - 1)
    {
    }
    forall i, j | 0 <= i < j < |ws|
      ensures ws[i].position != ws[j].position
    {
      if j == |vs| {
        assert Before(ws[i].position, q);
      }
    }
    forall p | OnShell(size, p) && Before(p, next)
      ensures Occupied(ws, p)
    {
      if Before(p, q) {
        var i :| 0 <= i < |vs| && vs[i].position == p;
        assert ws[i].position == p;
      } else {
        NothingBetween(size, p, q);
        assert ws[|vs|].position == p;
      }
    }
  }

  /** The innermost loop is done: the next row starts. */
  lemma RowDone(vs: seq<CubeletValue>, size: int, x: int, y: int, z: int)
    requires OnGrid(size - 1, y) && z > size - 1
    requires BuiltBefore(vs, size, Point(x, y, z))
    ensures BuiltBefore(vs, size, Point(x, y + 2, -(size - 1)))
  {
  }

  /** The middle loop is done: the next slab starts. */
  lemma SlabDone(vs: seq<CubeletValue>, size: int, x: int, y: int)
    requires OnGrid(size - 1, x) && y > size - 1
    requires BuiltBefore(vs, size, Point(x, y, -(size - 1)))
    ensures BuiltBefore(vs, size, Point(x + 2, -(size - 1), -(size - 1)))
  {
  }

  /** The outer loop is done: the whole shell is built, painted. */
  lemma BuildDone(vs: seq<CubeletValue>, size: int, q: Point)
    requires q.x > size - 1 && BuiltBefore(vs, size, q)
    ensures IsFresh(vs, size)
  {
  }
}
