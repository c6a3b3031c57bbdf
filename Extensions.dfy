/**
 * The layer filters of Model/Extensions.cs: each keeps, in order, the
 * cubelets whose coordinate on one axis equals a given layer coordinate
 * (negated for the Back, Down and Left faces).
 */
module Extensions {
  import opened Vocabulary
  import opened Geometry
  import opened Cubelets

  /** a is b with some elements left out, the rest in their order. */
  predicate IsSubsequence(a: seq<CubeletValue>, b: seq<CubeletValue>)
    decreases |b|
  {
    if |a| == 0 then true
    else if |b| == 0 then false
    else (a[0] == b[0] && IsSubsequence(a[1..], b[1..])) || IsSubsequence(a, b[1..])
  }

  /**
   * The cubelets whose coordinate along the axis of face f (negated for
   * Down, Back and Left) is l, in the order of the input.
   */
  function Where(cubelets: seq<CubeletValue>, f: Face, l: int): (r: seq<CubeletValue>)
    ensures forall c :: c in r <==> c in cubelets && AxisCoordinate(f, c.position) == l
    ensures IsSubsequence(r, cubelets)
  {
    if |cubelets| == 0 then []
    else
      var rest := Where(cubelets[1..], f, l);
      assert forall c :: c in cubelets <==> c == cubelets[0] || c in cubelets[1..];
      if AxisCoordinate(f, cubelets[0].position) == l then [cubelets[0]] + rest else rest
  }

  /** Filtering keeps the order: it distributes over concatenation. */
  lemma {:induction false} WhereAppend(a: seq<CubeletValue>, b: seq<CubeletValue>, f: Face, l: int)
    ensures Where(a + b, f, l) == Where(a, f, l) + Where(b, f, l)
  {
    if |a| > 0 {
      assert (a + b)[1..] == a[1..] + b;
      WhereAppend(a[1..], b, f, l);
    } else {
      assert a + b == b;
    }
  }

  /** The filter for the opposite face is the filter for the negated layer. */
  lemma {:induction false} WhereOpposite(cubelets: seq<CubeletValue>, f: Face, l: int)
    ensures Where(cubelets, Opposite(f), l) == Where(cubelets, f, -l)
  {
    if |cubelets| > 0 {
      WhereOpposite(cubelets[1..], f, l);
      match f
      case Up =>
      case Front =>
      case Right =>
      case Down =>
      case Back =>
      case Left =>
    }
  }

  function FrontFace(cubelets: seq<CubeletValue>, whichLayer: int): (r: seq<CubeletValue>)
    ensures forall c :: c in r <==> c in cubelets && c.position.y == whichLayer
    ensures IsSubsequence(r, cubelets)
  {
    Where(cubelets, Front, whichLayer)
  }

  function UpFace(cubelets: seq<CubeletValue>, whichLayer: int): (r: seq<CubeletValue>)
    ensures forall c :: c in r <==> c in cubelets && c.position.z == whichLayer
    ensures IsSubsequence(r, cubelets)
  {
    Where(cubelets, Up, whichLayer)
  }

  function RightFace(cubelets: seq<CubeletValue>, whichLayer: int): (r: seq<CubeletValue>)
    ensures forall c :: c in r <==> c in cubelets && c.position.x == whichLayer
    ensures IsSubsequence(r, cubelets)
  {
    Where(cubelets, Right, whichLayer)
  }

  function BackFace(cubelets: seq<CubeletValue>, whichLayer: int): (r: seq<CubeletValue>)
    ensures forall c :: c in r <==> c in cubelets && c.position.y == -whichLayer
    ensures IsSubsequence(r, cubelets)
  {
    Where(cubelets, Back, whichLayer)
  }

  function DownFace(cubelets: seq<CubeletValue>, whichLayer: int): (r: seq<CubeletValue>)
    ensures forall c :: c in r <==> c in cubelets && c.position.z == -whichLayer
    ensures IsSubsequence(r, cubelets)
  {
    Where(cubelets, Down, whichLayer)
  }

  function LeftFace(cubelets: seq<CubeletValue>, whichLayer: int): (r: seq<CubeletValue>)
    ensures forall c :: c in r <==> c in cubelets && c.position.x == -whichLayer
    ensures IsSubsequence(r, cubelets)
  {
    Where(cubelets, Left, whichLayer)
  }

  /** BackFace, DownFace and LeftFace are FrontFace, UpFace and RightFace of the negated layer. */
  lemma OppositeFaces(cubelets: seq<CubeletValue>, whichLayer: int)
    ensures BackFace(cubelets, whichLayer) == FrontFace(cubelets, -whichLayer)
    ensures DownFace(cubelets, whichLayer) == UpFace(cubelets, -whichLayer)
    ensures LeftFace(cubelets, whichLayer) == RightFace(cubelets, -whichLayer)
  {
    WhereOpposite(cubelets, Front, whichLayer);
    WhereOpposite(cubelets, Up, whichLayer);
    WhereOpposite(cubelets, Right, whichLayer);
  }
}
