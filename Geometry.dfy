/**
 * Exact integer geometry of cubelet positions.
 *
 * A position is stored in DOUBLED coordinates (twice the coordinate the
 * program computes with), so that the half-integer coordinates of an
 * even-sized cube are integers. The floating-point rotation and rounding of
 * Model/Cube.cs become an exact quarter turn here.
 */
module Geometry {
  import opened Vocabulary

  /** A point (or vector) in doubled coordinates. */
  datatype Point = Point(x: int, y: int, z: int)

  function Add(a: Point, b: Point): Point { Point(a.x + b.x, a.y + b.y, a.z + b.z) }

  function Neg(a: Point): Point { Point(-a.x, -a.y, -a.z) }

  function Scale(k: int, a: Point): Point { Point(k * a.x, k * a.y, k * a.z) }

  function Dot(a: Point, b: Point): int { a.x * b.x + a.y * b.y + a.z * b.z }

  function Cross(a: Point, b: Point): Point
  {
    Point(a.y * b.z - a.z * b.y, a.z * b.x - a.x * b.z, a.x * b.y - a.y * b.x)
  }

  /**
   * The rotation axis of each face's turn; it is also the outward normal of
   * that face.
   */
  function Axis(f: Face): Point
  {
    match f
    case Up => Point(0, 0, 1)
    case Front => Point(0, 1, 0)
    case Right => Point(1, 0, 0)
    case Down => Point(0, 0, -1)
    case Back => Point(0, -1, 0)
    case Left => Point(-1, 0, 0)
  }

  /**
   * The coordinate a face's layers are selected by: Z, Y or X for Up, Front
   * or Right, and the negated coordinate for Down, Back or Left.
   */
  function AxisCoordinate(f: Face, p: Point): int
  {
    match f
    case Up => p.z
    case Front => p.y
    case Right => p.x
    case Down => -p.z
    case Back => -p.y
    case Left => -p.x
  }

  /** The layer coordinate of a face is the projection on its axis. */
  lemma AxisCoordinateIsProjection(f: Face, p: Point)
    ensures AxisCoordinate(f, p) == Dot(Axis(f), p)
  {
  }

  /**
   * A quarter turn about the axis of face f, +90 degrees or -90 degrees
   * when inverted, written out as the signed permutation of coordinates it
   * is (QuarterTurnIsAxisAngleRotation gives the vector form).
   */
  function QuarterTurn(f: Face, v: Point, inverted: bool): Point
  {
    match f
    case Up => if inverted then Point(v.y, -v.x, v.z) else Point(-v.y, v.x, v.z)
    case Down => if inverted then Point(-v.y, v.x, v.z) else Point(v.y, -v.x, v.z)
    case Front => if inverted then Point(-v.z, v.y, v.x) else Point(v.z, v.y, -v.x)
    case Back => if inverted then Point(v.z, v.y, -v.x) else Point(-v.z, v.y, v.x)
    case Right => if inverted then Point(v.x, v.z, -v.y) else Point(v.x, -v.z, v.y)
    case Left => if inverted then Point(v.x, -v.z, v.y) else Point(v.x, v.z, -v.y)
  }

  /**
   * The quarter turn is the rotation by +90 degrees about the unit axis a,
   * a x v + (a . v) a, or by -90 degrees, -a x v + (a . v) a.
   */
  lemma QuarterTurnIsAxisAngleRotation(f: Face, v: Point, inverted: bool)
    ensures var a := Axis(f); var c := Cross(a, v);
      QuarterTurn(f, v, inverted) == Add(if inverted then Neg(c) else c, Scale(Dot(a, v), a))
  {
    if inverted {
      match f
      case Up =>
      case Front =>
      case Right =>
      case Down =>
      case Back =>
      case Left =>
    } else {
      match f
      case Up =>
      case Front =>
      case Right =>
      case Down =>
      case Back =>
      case Left =>
    }
  }

  /** A turn by times * 90 degrees about the axis of f, negative when inverted. */
  function Rotate(f: Face, v: Point, times: nat, inverted: bool): Point
  {
    if times == 0 then v else QuarterTurn(f, Rotate(f, v, times - 1, inverted), inverted)
  }

  /** The face whose outward normal is the given unit vector. */
  function FaceOf(a: Point): Face
  {
    if a == Point(0, 0, 1) then Up
    else if a == Point(0, 1, 0) then Front
    else if a == Point(1, 0, 0) then Right
    else if a == Point(0, 0, -1) then Down
    else if a == Point(0, -1, 0) then Back
    else Left
  }

  lemma FaceOfAxis(f: Face)
    ensures FaceOf(Axis(f)) == f
  {
  }

  /** An opposite turn undoes a quarter turn. */
  lemma QuarterTurnUndone(f: Face, v: Point, inverted: bool)
    ensures QuarterTurn(f, QuarterTurn(f, v, inverted), !inverted) == v
  {
  }

  /** A quarter turn keeps the coordinate along its own axis and the opposite one. */
  lemma QuarterTurnKeepsAxisCoordinate(f: Face, g: Face, v: Point, inverted: bool)
    requires g == f || g == Opposite(f)
    ensures AxisCoordinate(g, QuarterTurn(f, v, inverted)) == AxisCoordinate(g, v)
  {
  }

  /**
   * A quarter turn is orthogonal: the coordinate of the turned v along the
   * axis of face d is the coordinate of v along the axis that the opposite
   * turn carries Axis(d) to.
   */
  lemma QuarterTurnAdjoint(f: Face, d: Face, v: Point, inverted: bool)
    ensures AxisCoordinate(d, QuarterTurn(f, v, inverted))
         == AxisCoordinate(FaceOf(QuarterTurn(f, Axis(d), !inverted)), v)
  {
    match f
    case Up => match d { case Up => case Front => case Right => case Down => case Back => case Left => }
    case Front => match d { case Up => case Front => case Right => case Down => case Back => case Left => }
    case Right => match d { case Up => case Front => case Right => case Down => case Back => case Left => }
    case Down => match d { case Up => case Front => case Right => case Down => case Back => case Left => }
    case Back => match d { case Up => case Front => case Right => case Down => case Back => case Left => }
    case Left => match d { case Up => case Front => case Right => case Down => case Back => case Left => }
  }

  /**
   * A quarter turn carries the axis of a face onto the axis of a face, and
   * the opposite turn carries it back.
   */
  lemma QuarterTurnOfAxisUndone(f: Face, g: Face, inverted: bool)
    ensures Axis(FaceOf(QuarterTurn(f, Axis(g), inverted))) == QuarterTurn(f, Axis(g), inverted)
    ensures FaceOf(QuarterTurn(f, Axis(FaceOf(QuarterTurn(f, Axis(g), inverted))), !inverted)) == g
  {
    match f
    case Up => match g { case Up => case Front => case Right => case Down => case Back => case Left => }
    case Front => match g { case Up => case Front => case Right => case Down => case Back => case Left => }
    case Right => match g { case Up => case Front => case Right => case Down => case Back => case Left => }
    case Down => match g { case Up => case Front => case Right => case Down => case Back => case Left => }
    case Back => match g { case Up => case Front => case Right => case Down => case Back => case Left => }
    case Left => match g { case Up => case Front => case Right => case Down => case Back => case Left => }
  }

  /** Four quarter turns in the same direction are the identity. */
  lemma QuarterTurnOrderFour(f: Face, v: Point, inverted: bool)
    ensures Rotate(f, v, 4, inverted) == v
  {
    var v1 := QuarterTurn(f, v, inverted);
    var v2 := QuarterTurn(f, v1, inverted);
    var v3 := QuarterTurn(f, v2, inverted);
    assert Rotate(f, v, 1, inverted) == v1;
    assert Rotate(f, v, 2, inverted) == v2;
    assert Rotate(f, v, 3, inverted) == v3;
  }

  /** Turning by i quarter turns and then by j more is turning by i + j. */
  lemma {:induction false} RotateAdds(f: Face, v: Point, i: nat, j: nat, inverted: bool)
    ensures Rotate(f, Rotate(f, v, i, inverted), j, inverted) == Rotate(f, v, i + j, inverted)
  {
    if j > 0 {
      RotateAdds(f, v, i, j - 1, inverted);
    }
  }

  /** Turning by 4k quarter turns in one direction is the identity. */
  lemma {:induction false} RotateFullTurns(f: Face, v: Point, k: nat, inverted: bool)
    ensures Rotate(f, v, 4 * k, inverted) == v
  {
    if k > 0 {
      RotateFullTurns(f, v, k - 1, inverted);
      RotateAdds(f, v, 4 * (k - 1), 4, inverted);
      QuarterTurnOrderFour(f, Rotate(f, v, 4 * (k - 1), inverted), inverted);
    }
  }

  /** A turn by `times` in the opposite direction undoes a turn by `times`. */
  lemma {:induction false} RotateUndone(f: Face, v: Point, times: nat, inverted: bool)
    ensures Rotate(f, Rotate(f, v, times, inverted), times, !inverted) == v
  {
    if times > 0 {
      var w := Rotate(f, v, times - 1, inverted);
      RotateAdds(f, QuarterTurn(f, w, inverted), 1, times - 1, !inverted);
      QuarterTurnUndone(f, w, inverted);
      RotateUndone(f, v, times - 1, inverted);
    }
  }

  /** A turn keeps the coordinate along its own axis and the opposite one. */
  lemma {:induction false} RotateKeepsAxisCoordinate(f: Face, g: Face, v: Point, times: nat, inverted: bool)
    requires g == f || g == Opposite(f)
    ensures AxisCoordinate(g, Rotate(f, v, times, inverted)) == AxisCoordinate(g, v)
  {
    if times > 0 {
      RotateKeepsAxisCoordinate(f, g, v, times - 1, inverted);
      QuarterTurnKeepsAxisCoordinate(f, g, Rotate(f, v, times - 1, inverted), inverted);
    }
  }

  /** c is one of the doubled coordinates -n2, -n2 + 2, ..., n2. */
  predicate OnGrid(n2: int, c: int)
  {
    -n2 <= c <= n2 && (n2 - c) % 2 == 0
  }

  /**
   * p is a position of the surface shell of a cube of the given size: every
   * coordinate is on the grid and at least one is extreme.
   */
  predicate OnShell(size: int, p: Point)
  {
    var n2 := size - 1;
    OnGrid(n2, p.x) && OnGrid(n2, p.y) && OnGrid(n2, p.z) &&
    (p.x == n2 || p.x == -n2 || p.y == n2 || p.y == -n2 || p.z == n2 || p.z == -n2)
  }

  lemma OnGridNegated(n2: int, c: int)
    ensures OnGrid(n2, -c) <==> OnGrid(n2, c)
  {
    assert (n2 - c) - (n2 - (-c)) == -2 * c;
  }

  /** A quarter turn maps the shell onto itself. */
  lemma QuarterTurnKeepsShell(f: Face, size: int, p: Point, inverted: bool)
    requires OnShell(size, p)
    ensures OnShell(size, QuarterTurn(f, p, inverted))
  {
    var n2 := size - 1;
    OnGridNegated(n2, p.x);
    OnGridNegated(n2, p.y);
    OnGridNegated(n2, p.z);
  }

  lemma {:induction false} RotateKeepsShell(f: Face, size: int, p: Point, times: nat, inverted: bool)
    requires OnShell(size, p)
    ensures OnShell(size, Rotate(f, p, times, inverted))
  {
    if times > 0 {
      RotateKeepsShell(f, size, p, times - 1, inverted);
      QuarterTurnKeepsShell(f, size, Rotate(f, p, times - 1, inverted), inverted);
    }
  }
}
