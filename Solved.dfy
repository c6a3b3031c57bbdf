/**
 * The Solved property of Model/Cube.cs and its six per-face helpers: each
 * face is solved when every cubelet on the face's outer layer shows, on
 * that face, the colour of the face's centre cubelet.
 */
module Solving {
  import opened Wrappers
  import opened Vocabulary
  import opened Geometry
  import opened Moves
  import opened Cubelets
  import opened Rotation
  import opened Shell

  /**
   * The position of the centre cubelet of face d, n2 out along the face's
   * axis: (0, 0, n) for Up, (0, n, 0) for Front and so on.
   */
  function Centre(d: Face, n2: int): (p: Point)
    ensures AxisCoordinate(d, p) == n2
  {
    match d
    case Up => Point(0, 0, n2)
    case Front => Point(0, n2, 0)
    case Right => Point(n2, 0, 0)
    case Down => Point(0, 0, -n2)
    case Back => Point(0, -n2, 0)
    case Left => Point(-n2, 0, 0)
  }

  /** On an odd size the centres lie on the shell. */
  lemma CentreOnShell(d: Face, size: int)
    requires size >= 1 && size % 2 == 1
    ensures OnShell(size, Centre(d, size - 1))
  {
    var n2 := size - 1;
    assert OnGrid(n2, 0) && OnGrid(n2, n2) && OnGrid(n2, -n2);
  }

  /** How many cubelets sit at p. */
  function CountAt(s: seq<CubeletValue>, p: Point): nat
  {
    if |s| == 0 then 0 else Indicator(s[0].position == p) + CountAt(s[1..], p)
  }

  lemma {:induction false} CountAtAbsent(s: seq<CubeletValue>, p: Point)
    requires forall i :: 0 <= i < |s| ==> s[i].position != p
    ensures CountAt(s, p) == 0
  {
    if |s| > 0 {
      CountAtAbsent(s[1..], p);
    }
  }

  lemma {:induction false} CountAtPositive(s: seq<CubeletValue>, p: Point)
    requires CountAt(s, p) > 0
    ensures Occupied(s, p)
  {
    if s[0].position != p {
      CountAtPositive(s[1..], p);
      var i :| 0 <= i < |s[1..]| && s[1..][i].position == p;
      assert s[i + 1].position == p;
    }
  }

  lemma {:induction false} CountAtOccupied(s: seq<CubeletValue>, p: Point)
    requires Occupied(s, p)
    ensures CountAt(s, p) > 0
  {
    if s[0].position != p {
      var i :| 0 <= i < |s| && s[i].position == p;
      assert s[1..][i - 1].position == p;
      CountAtOccupied(s[1..], p);
    }
  }

  lemma {:induction false} CountAtDistinct(s: seq<CubeletValue>, p: Point)
    requires DistinctPositions(s)
    ensures CountAt(s, p) <= 1
  {
    if |s| > 0 {
      if s[0].position == p {
        CountAtAbsent(s[1..], p);
      } else {
        CountAtDistinct(s[1..], p);
      }
    }
  }

  /** The index of the first cubelet at p. */
  function IndexAt(s: seq<CubeletValue>, p: Point): (i: nat)
    requires Occupied(s, p)
    ensures i < |s| && s[i].position == p
  {
    if s[0].position == p then 0
    else
      assert Occupied(s[1..], p) by {
        var i :| 0 <= i < |s| && s[i].position == p;
        assert s[1..][i - 1].position == p;
      }
      1 + IndexAt(s[1..], p)
  }

  /**
   * Enumerable.Single on the cubelet at p: that cubelet when exactly one
   * sits there, InvalidOperationException otherwise.
   */
  function Single(s: seq<CubeletValue>, p: Point): (r: Result<CubeletValue>)
    ensures r.Ok? <==> CountAt(s, p) == 1
    ensures r.Ok? ==> r.value in s && r.value.position == p
    ensures r.Err? ==> r.error == InvalidOperation
  {
    if CountAt(s, p) == 1 then
      CountAtPositive(s, p);
      Ok(s[IndexAt(s, p)])
    else
      Err(InvalidOperation)
  }

  /**
   * One of FrontFaceSolved ... LeftFaceSolved: the centre of face d is the
   * cubelet at n on the face's axis; the face is solved when every cubelet
   * on the face's outer layer shows the centre's colour on d.
   */
  function FaceSolved(s: seq<CubeletValue>, d: Face, n2: int): (r: Result<bool>)
    requires WellFormed(s)
  {
    match Single(s, Centre(d, n2))
    case Err(e) => Err(e)
    case Ok(centre) =>
      Ok(forall i :: 0 <= i < |s| && AxisCoordinate(d, s[i].position) == n2 ==>
           s[i].faceColors[d] == centre.faceColors[d])
  }

  /** The faces in the order Solved asks them. */
  const FaceOrder: seq<Face> := [Front, Up, Right, Back, Down, Left]

  /** The faces asked one after another, stopping at the first unsolved face or failure. */
  function SolvedFaces(s: seq<CubeletValue>, n2: int, faces: seq<Face>): Result<bool>
    requires WellFormed(s)
  {
    if |faces| == 0 then Ok(true)
    else
      match FaceSolved(s, faces[0], n2)
      case Err(e) => Err(e)
      case Ok(solved) => if solved then SolvedFaces(s, n2, faces[1..]) else Ok(false)
  }

  /** Cube.Solved: n = size / 2 - 0.5, in doubled coordinates size - 1. */
  function Solved(s: seq<CubeletValue>, size: int): Result<bool>
    requires WellFormed(s)
  {
    SolvedFaces(s, size - 1, FaceOrder)
  }

  /** Every cubelet on the outer layer of face d shows the same colour on d. */
  predicate Uniform(s: seq<CubeletValue>, d: Face, n2: int)
    requires WellFormed(s)
  {
    forall i, j ::
      (0 <= i < |s| && 0 <= j < |s| &&
       AxisCoordinate(d, s[i].position) == n2 && AxisCoordinate(d, s[j].position) == n2) ==>
      s[i].faceColors[d] == s[j].faceColors[d]
  }

  /** Every face is uniform. */
  predicate AllUniform(s: seq<CubeletValue>, n2: int)
    requires WellFormed(s)
  {
    forall d :: Uniform(s, d, n2)
  }

  /** On an odd-sized cube whose cubelets fill the shell, each face has exactly one centre cubelet. */
  lemma CentreUnique(s: seq<CubeletValue>, size: int, d: Face)
    requires IsShellState(s, size) && size >= 1 && size % 2 == 1
    ensures CountAt(s, Centre(d, size - 1)) == 1
  {
    var p := Centre(d, size - 1);
    CentreOnShell(d, size);
    CountAtOccupied(s, p);
    CountAtDistinct(s, p);
  }

  /** On a full odd-sized cube, a face is solved exactly when its outer layer shows one colour. */
  lemma FaceSolvedOnShell(s: seq<CubeletValue>, size: int, d: Face)
    requires WellFormed(s) && IsShellState(s, size) && size >= 1 && size % 2 == 1
    ensures FaceSolved(s, d, size - 1) == Ok(Uniform(s, d, size - 1))
  {
    CentreUnique(s, size, d);
    FaceSolvedWithCentre(s, d, size - 1);
  }

  /** With exactly one centre cubelet, a face is solved exactly when its outer layer shows one colour. */
  lemma FaceSolvedWithCentre(s: seq<CubeletValue>, d: Face, n2: int)
    requires WellFormed(s) && CountAt(s, Centre(d, n2)) == 1
    ensures FaceSolved(s, d, n2) == Ok(Uniform(s, d, n2))
  {
    var centre := Single(s, Centre(d, n2)).value;
    var k :| 0 <= k < |s| && s[k] == centre;
    UniformAgainstOne(s, d, n2, k);
  }

  /** A layer shows one colour exactly when it shows the colour of any one of its cubelets. */
  lemma UniformAgainstOne(s: seq<CubeletValue>, d: Face, n2: int, k: int)
    requires WellFormed(s) && 0 <= k < |s| && AxisCoordinate(d, s[k].position) == n2
    ensures Uniform(s, d, n2) <==>
      forall i :: 0 <= i < |s| && AxisCoordinate(d, s[i].position) == n2 ==>
        s[i].faceColors[d] == s[k].faceColors[d]
  {
  }

  /** When every face answers, the chain answers whether all of them are solved. */
  lemma {:induction false} SolvedFacesAnswer(s: seq<CubeletValue>, n2: int, faces: seq<Face>)
    requires WellFormed(s)
    requires forall k :: 0 <= k < |faces| ==> FaceSolved(s, faces[k], n2).Ok?
    ensures SolvedFaces(s, n2, faces) ==
      Ok(forall k :: 0 <= k < |faces| ==> FaceSolved(s, faces[k], n2).value)
  {
    if |faces| > 0 {
      SolvedFacesAnswer(s, n2, faces[1..]);
      assert forall k :: 1 <= k < |faces| ==> faces[1..][k - 1] == faces[k];
    }
  }

  /** Asking the six faces in Solved's order asks every face. */
  lemma FaceOrderCoversAll(s: seq<CubeletValue>, n2: int)
    requires WellFormed(s)
    requires forall d :: FaceSolved(s, d, n2) == Ok(Uniform(s, d, n2))
    ensures AllUniform(s, n2) <==>
      forall k :: 0 <= k < |FaceOrder| ==> FaceSolved(s, FaceOrder[k], n2).value
  {
    if forall k :: 0 <= k < |FaceOrder| ==> FaceSolved(s, FaceOrder[k], n2).value {
      forall d
        ensures Uniform(s, d, n2)
      {
        match d
        case Front => assert FaceOrder[0] == d;
        case Up => assert FaceOrder[1] == d;
        case Right => assert FaceOrder[2] == d;
        case Back => assert FaceOrder[3] == d;
        case Down => assert FaceOrder[4] == d;
        case Left => assert FaceOrder[5] == d;
      }
    }
  }

  /**
   * On a full odd-sized cube, Solved answers (it does not throw) and is
   * true exactly when every face's outer layer shows one colour.
   */
  lemma SolvedOnShell(s: seq<CubeletValue>, size: int)
    requires WellFormed(s) && IsShellState(s, size) && size >= 1 && size % 2 == 1
    ensures Solved(s, size) == Ok(AllUniform(s, size - 1))
  {
    var n2 := size - 1;
    forall d
      ensures FaceSolved(s, d, n2) == Ok(Uniform(s, d, n2))
    {
      FaceSolvedOnShell(s, size, d);
    }
    EveryFaceAnswers(s, n2);
  }

  /** When every face answers whether it is uniform, Solved answers whether all are. */
  lemma EveryFaceAnswers(s: seq<CubeletValue>, n2: int)
    requires WellFormed(s)
    requires forall d :: FaceSolved(s, d, n2) == Ok(Uniform(s, d, n2))
    ensures Solved(s, n2 + 1) == Ok(AllUniform(s, n2))
  {
    SolvedFacesAnswer(s, n2, FaceOrder);
    FaceOrderCoversAll(s, n2);
  }

  /**
   * On an even-sized cube no cubelet sits at a face centre, so Single
   * throws and Solved fails with InvalidOperationException.
   */
  lemma EvenSizeSolvedFails(s: seq<CubeletValue>, size: int)
    requires WellFormed(s) && size % 2 == 0
    requires forall i :: 0 <= i < |s| ==> OnShell(size, s[i].position)
    ensures Solved(s, size) == Err(InvalidOperation)
  {
    var p := Centre(Front, size - 1);
    forall i | 0 <= i < |s|
      ensures s[i].position != p
    {
      EvenSizeCoordinates(size, s[i].position.x);
    }
    CountAtAbsent(s, p);
  }

  /** A cube as built is solved when its size is odd. */
  lemma FreshCubeSolved(s: seq<CubeletValue>, size: int)
    requires IsFresh(s, size) && size >= 1 && size % 2 == 1
    ensures WellFormed(s)
    ensures Solved(s, size) == Ok(true)
  {
    var n2 := size - 1;
    SolvedOnShell(s, size);
    forall d
      ensures Uniform(s, d, n2)
    {
      forall i, j |
        (0 <= i < |s| && 0 <= j < |s| &&
         AxisCoordinate(d, s[i].position) == n2 && AxisCoordinate(d, s[j].position) == n2)
        ensures s[i].faceColors[d] == s[j].faceColors[d]
      {
        assert s[i].faceColors[d] == HomeColor(d);
      }
    }
  }

  /**
   * After a whole-cube quarter turn, face d shows what face g showed
   * before, where g is the face the turn carries onto d.
   */
  lemma QuarterTurnUniform(m: Move, s: seq<CubeletValue>, n2: int, d: Face)
    requires m.times == 1 && m.whichLayers == AllLayers && WellFormed(s)
    ensures Uniform(ApplyMove(m, s), d, n2) <==>
      Uniform(s, FaceOf(QuarterTurn(m.face, Axis(d), !m.inverted)), n2)
  {
    var t := ApplyMove(m, s);
    var g := FaceOf(QuarterTurn(m.face, Axis(d), !m.inverted));
    forall i | 0 <= i < |s|
      ensures AxisCoordinate(d, t[i].position) == AxisCoordinate(g, s[i].position)
      ensures t[i].faceColors[d] == s[i].faceColors[g]
    {
      TurnQuarter(m, s[i]);
      QuarterTurnAdjoint(m.face, d, s[i].position, m.inverted);
      ShiftFollowsQuarterTurn(s[i].faceColors, m.face, m.inverted, d);
    }
  }

  /** A whole-cube quarter turn only relabels the faces, so every face stays uniform or not. */
  lemma QuarterTurnKeepsAllUniform(m: Move, s: seq<CubeletValue>, n2: int)
    requires m.times == 1 && m.whichLayers == AllLayers && WellFormed(s)
    ensures AllUniform(ApplyMove(m, s), n2) <==> AllUniform(s, n2)
  {
    var t := ApplyMove(m, s);
    forall d
      ensures Uniform(t, d, n2) <==> Uniform(s, FaceOf(QuarterTurn(m.face, Axis(d), !m.inverted)), n2)
    {
      QuarterTurnUniform(m, s, n2, d);
    }
    if AllUniform(t, n2) {
      forall g
        ensures Uniform(s, g, n2)
      {
        var d := FaceOf(QuarterTurn(m.face, Axis(g), m.inverted));
        QuarterTurnOfAxisUndone(m.face, g, m.inverted);
        assert Uniform(t, d, n2);
      }
    }
  }

  /**
   * Turning the whole cube (x, y, z and their inverses and doubles) never
   * changes whether it is solved.
   */
  lemma WholeCubeTurnKeepsSolved(m: Move, s: seq<CubeletValue>, size: int)
    requires WellFormed(s) && IsShellState(s, size) && size >= 1 && size % 2 == 1
    requires m.whichLayers == AllLayers
    ensures Solved(ApplyMove(m, s), size) == Solved(s, size)
  {
    var n2 := size - 1;
    var q := m.(times := 1);
    SolvedOnShell(s, size);
    if m.times == 0 {
      ApplyMoveNone(m, s);
    } else if m.times == 1 {
      ApplyMoveKeepsShell(m, s, size);
      SolvedOnShell(ApplyMove(m, s), size);
      QuarterTurnKeepsAllUniform(m, s, n2);
    } else {
      var s1 := ApplyMove(q, s);
      ApplyMoveHalf(m, s);
      ApplyMoveKeepsShell(q, s, size);
      ApplyMoveKeepsShell(q, s1, size);
      SolvedOnShell(ApplyMove(q, s1), size);
      QuarterTurnKeepsAllUniform(q, s, n2);
      QuarterTurnKeepsAllUniform(q, s1, n2);
    }
  }
}
