/**
 * The surface shell a cube's cubelets occupy, and why moves keep them on
 * it: a move permutes the positions of its ring (Model/Cube.cs,
 * PerformMove and GetMoveParameters).
 */
module Shell {
  import opened Vocabulary
  import opened Geometry
  import opened Moves
  import opened Cubelets
  import opened Rotation

  /** Some cubelet sits at p. */
  predicate Occupied(s: seq<CubeletValue>, p: Point)
  {
    exists i :: 0 <= i < |s| && s[i].position == p
  }

  /** No two cubelets share a position. */
  predicate DistinctPositions(s: seq<CubeletValue>)
  {
    forall i, j :: 0 <= i < j < |s| ==> s[i].position != s[j].position
  }

  /**
   * The cubelets occupy the surface shell of a cube of the given size
   * exactly: each on the shell, one per position, none missing.
   */
  ghost predicate IsShellState(s: seq<CubeletValue>, size: int)
  {
    (forall i :: 0 <= i < |s| ==> OnShell(size, s[i].position)) &&
    DistinctPositions(s) &&
    forall p :: OnShell(size, p) ==> Occupied(s, p)
  }

  /** A cubelet is in the ring after the move exactly when it was before. */
  lemma ApplyMoveKeepsRing(m: Move, s: seq<CubeletValue>, i: int)
    requires WellFormed(s) && 0 <= i < |s|
    ensures InRing(m, ApplyMove(m, s)[i].position) <==> InRing(m, s[i].position)
  {
    if InRing(m, s[i].position) {
      InRingAfterTurn(m, s[i]);
    }
  }

  /** A move keeps every cubelet on the shell. */
  lemma ApplyMoveKeepsOnShell(m: Move, s: seq<CubeletValue>, size: int)
    requires WellFormed(s)
    requires forall i :: 0 <= i < |s| ==> OnShell(size, s[i].position)
    ensures forall i :: 0 <= i < |s| ==> OnShell(size, ApplyMove(m, s)[i].position)
  {
    var t := ApplyMove(m, s);
    forall i | 0 <= i < |t|
      ensures OnShell(size, t[i].position)
    {
      if InRing(m, s[i].position) {
        RotateKeepsShell(m.face, size, s[i].position, m.times, m.inverted);
      }
    }
  }

  /** A move keeps the positions distinct: the ring is turned as one rigid body. */
  lemma ApplyMoveKeepsDistinct(m: Move, s: seq<CubeletValue>)
    requires WellFormed(s) && DistinctPositions(s)
    ensures DistinctPositions(ApplyMove(m, s))
  {
    var t := ApplyMove(m, s);
    forall i, j | 0 <= i < j < |t|
      ensures t[i].position != t[j].position
    {
      ApplyMoveKeepsRing(m, s, i);
      ApplyMoveKeepsRing(m, s, j);
      if InRing(m, s[i].position) && InRing(m, s[j].position) {
        RotateUndone(m.face, s[i].position, m.times, m.inverted);
        RotateUndone(m.face, s[j].position, m.times, m.inverted);
      }
    }
  }

  /** After a move every shell position is still occupied. */
  lemma ApplyMoveKeepsComplete(m: Move, s: seq<CubeletValue>, size: int)
    requires WellFormed(s)
    requires forall p :: OnShell(size, p) ==> Occupied(s, p)
    ensures forall p :: OnShell(size, p) ==> Occupied(ApplyMove(m, s), p)
  {
    var t := ApplyMove(m, s);
    forall p | OnShell(size, p)
      ensures Occupied(t, p)
    {
      if InRing(m, p) {
        var q := Rotate(m.face, p, m.times, !m.inverted);
        RotateKeepsShell(m.face, size, p, m.times, !m.inverted);
        RotateKeepsAxisCoordinate(m.face, m.face, p, m.times, !m.inverted);
        assert InRing(m, q);
        var i :| 0 <= i < |s| && s[i].position == q;
        RotateUndone(m.face, p, m.times, !m.inverted);
        assert t[i].position == p;
      } else {
        var i :| 0 <= i < |s| && s[i].position == p;
        assert t[i].position == p;
      }
    }
  }

  /** A move keeps the cubelets on the shell, one per position. */
  lemma ApplyMoveKeepsShell(m: Move, s: seq<CubeletValue>, size: int)
    requires WellFormed(s) && IsShellState(s, size)
    ensures IsShellState(ApplyMove(m, s), size)
  {
    ApplyMoveKeepsOnShell(m, s, size);
    ApplyMoveKeepsDistinct(m, s);
    ApplyMoveKeepsComplete(m, s, size);
  }

  /** A corner of the shell on the outer layer of face f. */
  function OuterCorner(f: Face, size: int): (p: Point)
    requires size >= 1
    ensures OnShell(size, p) && AxisCoordinate(f, p) == size - 1
  {
    var n2 := size - 1;
    match f
    case Up => Point(n2, n2, n2)
    case Front => Point(n2, n2, n2)
    case Right => Point(n2, n2, n2)
    case Down => Point(-n2, -n2, -n2)
    case Back => Point(-n2, -n2, -n2)
    case Left => Point(-n2, -n2, -n2)
  }

  /**
   * The single-layer selector names the coordinate 1.0, so a face turn
   * selects exactly the outer layer of the face on a 3x3x3 cube and on no
   * other size.
   */
  lemma FaceTurnIsOuterLayerOnlyForSizeThree(f: Face, size: int)
    requires size >= 1
    ensures (forall p :: OnShell(size, p) ==> (InRing(FaceTurn(f), p) <==> AxisCoordinate(f, p) == size - 1))
        <==> size == 3
  {
    if size != 3 {
      var p := OuterCorner(f, size);
      assert !InRing(FaceTurn(f), p);
    }
  }

  /** On an even-sized cube every coordinate is odd, so it is never 0 or 1.0 (doubled: 2). */
  lemma EvenSizeCoordinates(size: int, c: int)
    requires size % 2 == 0 && OnGrid(size - 1, c)
    ensures c != 0 && c != 2 && -c != 0 && -c != 2
  {
  }

  /**
   * On an even-sized cube, face, slice and wide turns select no cubelet
   * and change nothing; only whole-cube turns move anything.
   */
  lemma EvenSizeOnlyWholeCubeTurnsMove(m: Move, s: seq<CubeletValue>, size: int)
    requires WellFormed(s) && IsShellState(s, size)
    requires size % 2 == 0 && m.whichLayers != AllLayers
    ensures ApplyMove(m, s) == s
  {
    forall i | 0 <= i < |s|
      ensures !InRing(m, s[i].position)
    {
      var p := s[i].position;
      EvenSizeCoordinates(size, p.x);
      EvenSizeCoordinates(size, p.y);
      EvenSizeCoordinates(size, p.z);
    }
  }

  /**
   * The colours a cubelet at p is painted with when the cube is built: the
   * home colour on every face whose coordinate is extreme on that side,
   * None on the others.
   */
  function InitialColors(p: Point, n2: int): (colors: map<Face, Color>)
    ensures HasAllFaces(colors)
    ensures forall f :: f in colors && (colors[f] != Color.None <==> AxisCoordinate(f, p) == n2)
  {
    AllFacesComplete();
    map f | f in AllFaces :: if AxisCoordinate(f, p) == n2 then HomeColor(f) else Color.None
  }

  /** A colouring that shows the home colour exactly on the extreme faces of p is InitialColors. */
  lemma InitialColorsByFace(colors: map<Face, Color>, p: Point, n2: int)
    requires HasAllFaces(colors)
    requires colors[Left] == (if p.x == -n2 then Orange else Color.None)
    requires colors[Right] == (if p.x == n2 then Red else Color.None)
    requires colors[Back] == (if p.y == -n2 then Blue else Color.None)
    requires colors[Front] == (if p.y == n2 then Green else Color.None)
    requires colors[Down] == (if p.z == -n2 then Yellow else Color.None)
    requires colors[Up] == (if p.z == n2 then White else Color.None)
    ensures colors == InitialColors(p, n2)
  {
    var want := InitialColors(p, n2);
    AllFacesComplete();
    forall f | f in colors
      ensures colors[f] == want[f]
    {
      match f
      case Up =>
      case Front =>
      case Right =>
      case Down =>
      case Back =>
      case Left =>
    }
  }

  /** The cubelets of a cube as built: the whole shell, painted with the initial colours. */
  ghost predicate IsFresh(s: seq<CubeletValue>, size: int)
  {
    IsShellState(s, size) &&
    forall i :: 0 <= i < |s| ==> s[i].faceColors == InitialColors(s[i].position, size - 1)
  }
}
