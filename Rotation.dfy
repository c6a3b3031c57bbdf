/**
 * What PerformMove does to the cubelets (Model/Cube.cs, PerformMove and
 * GetMoveParameters), stated on snapshots: which cubelets form the ring,
 * how their colours are shifted and how their positions are turned.
 */
module Rotation {
  import opened Vocabulary
  import opened Geometry
  import opened Moves
  import opened Cubelets

  /**
   * The faces whose colours a turn of face f passes round, in the order of
   * the source's colorRotationSequence: the four faces around f.
   */
  function RotationSequence(f: Face): (rot: seq<Face>)
    ensures |rot| == 4
    ensures forall i, j :: 0 <= i < j < 4 ==> rot[i] != rot[j]
    ensures forall g :: g in rot <==> g != f && g != Opposite(f)
  {
    match f
    case Up => [Front, Right, Back, Left]
    case Front => [Up, Left, Down, Right]
    case Right => [Up, Front, Down, Back]
    case Down => [Front, Left, Back, Right]
    case Back => [Up, Right, Down, Left]
    case Left => [Up, Back, Down, Front]
  }

  /** rot lists four distinct keys of colors. */
  predicate IsCycleOf(rot: seq<Face>, colors: map<Face, Color>)
  {
    |rot| == 4 &&
    rot[0] != rot[1] && rot[0] != rot[2] && rot[0] != rot[3] &&
    rot[1] != rot[2] && rot[1] != rot[3] && rot[2] != rot[3] &&
    rot[0] in colors && rot[1] in colors && rot[2] in colors && rot[3] in colors
  }

  /** g is none of the four faces of rot. */
  predicate Untouched(rot: seq<Face>, g: Face)
    requires |rot| == 4
  {
    g != rot[0] && g != rot[1] && g != rot[2] && g != rot[3]
  }

  /**
   * The index along rot a face takes its colour from: the next one, or the
   * previous one when inverted, wrapping round.
   */
  function Next(j: int, inverted: bool): int
  {
    if inverted then (if j == 0 then 3 else j - 1) else (if j == 3 then 0 else j + 1)
  }

  /** Next is the step by one, or by minus one, modulo 4. */
  lemma NextIsModular(j: int, inverted: bool)
    requires 0 <= j < 4
    ensures Next(j, inverted) == (j + (if inverted then 3 else 1)) % 4
    ensures 0 <= Next(j, inverted) < 4 && Next(Next(j, inverted), !inverted) == j
  {
  }

  /**
   * One pass of the colour shift: each face of rot takes the colour of the
   * next face of rot (of the previous one when inverted); every other face
   * keeps its colour.
   */
  function ShiftOnce(colors: map<Face, Color>, rot: seq<Face>, inverted: bool): (r: map<Face, Color>)
    requires IsCycleOf(rot, colors)
    ensures r.Keys == colors.Keys
    ensures forall j {:trigger r[rot[j]]} :: 0 <= j < 4 ==> r[rot[j]] == colors[rot[Next(j, inverted)]]
    ensures forall g :: g in colors && Untouched(rot, g) ==> r[g] == colors[g]
  {
    map g | g in colors ::
      if g == rot[0] then colors[rot[Next(0, inverted)]]
      else if g == rot[1] then colors[rot[Next(1, inverted)]]
      else if g == rot[2] then colors[rot[Next(2, inverted)]]
      else if g == rot[3] then colors[rot[Next(3, inverted)]]
      else colors[g]
  }

  /** The colour shift repeated times times. */
  function ShiftTimes(colors: map<Face, Color>, rot: seq<Face>, inverted: bool, times: nat): (r: map<Face, Color>)
    requires IsCycleOf(rot, colors)
    ensures IsCycleOf(rot, r)
  {
    if times == 0 then colors
    else
      var before := ShiftTimes(colors, rot, inverted, times - 1);
      ShiftOnce(before, rot, inverted)
  }

  /**
   * The colour loop of PerformMove on one cubelet: times passes of the
   * shift, each one ShiftPass.
   */
  method ShiftColors(colors: map<Face, Color>, rot: seq<Face>, inverted: bool, times: nat)
      returns (r: map<Face, Color>)
    requires IsCycleOf(rot, colors)
    ensures r == ShiftTimes(colors, rot, inverted, times)
  {
    r := colors;
    for k := 0 to times
      invariant r == ShiftTimes(colors, rot, inverted, k)
    {
      assert IsCycleOf(rot, r);
      r := ShiftPass(r, rot, inverted);
    }
  }

  /**
   * One pass of the colour loop: save the colour at one end of the
   * sequence, move every colour one place towards that end and put the
   * saved colour at the other end.
   */
  method ShiftPass(colors: map<Face, Color>, rot: seq<Face>, inverted: bool) returns (r: map<Face, Color>)
    requires IsCycleOf(rot, colors)
    ensures r == ShiftOnce(colors, rot, inverted)
  {
    r := colors;
    if inverted {
      var j := |rot| - 1;
      var first := r[rot[j]];
      while j > 0
        invariant 0 <= j <= 3
        invariant r.Keys == colors.Keys
        invariant forall i {:trigger r[rot[i]]} :: j < i < 4 ==> r[rot[i]] == colors[rot[i - 1]]
        invariant forall i {:trigger r[rot[i]]} :: 0 <= i <= j ==> r[rot[i]] == colors[rot[i]]
        invariant forall g :: g in colors && Untouched(rot, g) ==> r[g] == colors[g]
      {
        r := r[rot[j] := r[rot[j - 1]]];
        j := j - 1;
      }
      r := r[rot[j] := first];
    } else {
      var j := 0;
      var first := r[rot[j]];
      while j < |rot| - 1
        invariant 0 <= j <= 3
        invariant r.Keys == colors.Keys
        invariant forall i {:trigger r[rot[i]]} :: 0 <= i < j ==> r[rot[i]] == colors[rot[i + 1]]
        invariant forall i {:trigger r[rot[i]]} :: j <= i < 4 ==> r[rot[i]] == colors[rot[i]]
        invariant forall g :: g in colors && Untouched(rot, g) ==> r[g] == colors[g]
      {
        r := r[rot[j] := r[rot[j + 1]]];
        j := j + 1;
      }
      r := r[rot[j] := first];
    }
    ghost var expected := ShiftOnce(colors, rot, inverted);
    assert r[rot[0]] == expected[rot[0]];
    assert r[rot[1]] == expected[rot[1]];
    assert r[rot[2]] == expected[rot[2]];
    assert r[rot[3]] == expected[rot[3]];
  }

  /** The shift the other way undoes one pass. */
  lemma ShiftOnceUndone(colors: map<Face, Color>, rot: seq<Face>, inverted: bool)
    requires IsCycleOf(rot, colors)
    ensures ShiftOnce(ShiftOnce(colors, rot, inverted), rot, !inverted) == colors
  {
    var once := ShiftOnce(colors, rot, inverted);
    var back := ShiftOnce(once, rot, !inverted);
    forall j | 0 <= j < 4
      ensures back[rot[j]] == colors[rot[j]]
    {
      var k := Next(j, !inverted);
      assert back[rot[j]] == once[rot[k]];
      assert Next(k, inverted) == j;
    }
    assert forall g :: g in colors ==> back[g] == colors[g];
  }

  /** The repeated shift, peeled from the inside. */
  lemma {:induction false} ShiftTimesInside(colors: map<Face, Color>, rot: seq<Face>, inverted: bool, times: nat)
    requires IsCycleOf(rot, colors)
    ensures IsCycleOf(rot, ShiftOnce(colors, rot, inverted))
    ensures ShiftTimes(colors, rot, inverted, times + 1) == ShiftTimes(ShiftOnce(colors, rot, inverted), rot, inverted, times)
  {
    if times > 0 {
      ShiftTimesInside(colors, rot, inverted, times - 1);
    }
  }

  /** times shifts the other way undo times shifts. */
  lemma {:induction false} ShiftTimesUndone(colors: map<Face, Color>, rot: seq<Face>, inverted: bool, times: nat)
    requires IsCycleOf(rot, colors)
    ensures ShiftTimes(ShiftTimes(colors, rot, inverted, times), rot, !inverted, times) == colors
  {
    if times > 0 {
      var shifted := ShiftOnce(colors, rot, inverted);
      ShiftTimesInside(colors, rot, inverted, times - 1);
      var y := ShiftTimes(shifted, rot, inverted, times - 1);
      assert ShiftTimes(colors, rot, inverted, times) == y;
      ShiftTimesUndone(shifted, rot, inverted, times - 1);
      ShiftOnceUndone(colors, rot, inverted);
      assert IsCycleOf(rot, y);
      assert ShiftTimes(y, rot, !inverted, times - 1) == shifted;
      assert ShiftTimes(y, rot, !inverted, times) == ShiftOnce(shifted, rot, !inverted);
    }
  }

  /** The shift repeated four times, written out. */
  lemma ShiftTimesFour(colors: map<Face, Color>, rot: seq<Face>, inverted: bool)
    requires IsCycleOf(rot, colors)
    ensures ShiftTimes(colors, rot, inverted, 4) ==
      ShiftOnce(ShiftOnce(ShiftOnce(ShiftOnce(colors, rot, inverted), rot, inverted), rot, inverted), rot, inverted)
  {
    assert ShiftTimes(colors, rot, inverted, 1) == ShiftOnce(colors, rot, inverted);
    assert ShiftTimes(colors, rot, inverted, 2) == ShiftOnce(ShiftTimes(colors, rot, inverted, 1), rot, inverted);
    assert ShiftTimes(colors, rot, inverted, 3) == ShiftOnce(ShiftTimes(colors, rot, inverted, 2), rot, inverted);
  }

  /** Four passes give every colour back. */
  lemma ShiftOrderFour(colors: map<Face, Color>, rot: seq<Face>, inverted: bool)
    requires IsCycleOf(rot, colors)
    ensures ShiftTimes(colors, rot, inverted, 4) == colors
  {
    var c1 := ShiftOnce(colors, rot, inverted);
    var c2 := ShiftOnce(c1, rot, inverted);
    var c3 := ShiftOnce(c2, rot, inverted);
    var c4 := ShiftOnce(c3, rot, inverted);
    ShiftTimesFour(colors, rot, inverted);
    if inverted {
      assert c4[rot[0]] == c3[rot[3]] == c2[rot[2]] == c1[rot[1]] == colors[rot[0]];
      assert c4[rot[1]] == c3[rot[0]] == c2[rot[3]] == c1[rot[2]] == colors[rot[1]];
      assert c4[rot[2]] == c3[rot[1]] == c2[rot[0]] == c1[rot[3]] == colors[rot[2]];
      assert c4[rot[3]] == c3[rot[2]] == c2[rot[1]] == c1[rot[0]] == colors[rot[3]];
    } else {
      assert c4[rot[0]] == c3[rot[1]] == c2[rot[2]] == c1[rot[3]] == colors[rot[0]];
      assert c4[rot[1]] == c3[rot[2]] == c2[rot[3]] == c1[rot[0]] == colors[rot[1]];
      assert c4[rot[2]] == c3[rot[3]] == c2[rot[0]] == c1[rot[1]] == colors[rot[2]];
      assert c4[rot[3]] == c3[rot[0]] == c2[rot[1]] == c1[rot[2]] == colors[rot[3]];
    }
    forall g | g in colors
      ensures c4[g] == colors[g]
    {
      if Untouched(rot, g) {
        assert c4[g] == c3[g] == c2[g] == c1[g];
      }
    }
  }

  /** The repeated shift keeps the keys and touches only the faces of rot. */
  lemma {:induction false} ShiftTimesKeepsKeys(colors: map<Face, Color>, rot: seq<Face>, inverted: bool, times: nat)
    requires IsCycleOf(rot, colors)
    ensures ShiftTimes(colors, rot, inverted, times).Keys == colors.Keys
    ensures forall g :: g in colors && Untouched(rot, g) ==> ShiftTimes(colors, rot, inverted, times)[g] == colors[g]
  {
    if times > 0 {
      ShiftTimesKeepsKeys(colors, rot, inverted, times - 1);
    }
  }

  /** The rotation sequence of any face is a cycle of keys of a full dictionary. */
  lemma RotationSequenceIsCycle(f: Face, colors: map<Face, Color>)
    requires HasAllFaces(colors)
    ensures IsCycleOf(RotationSequence(f), colors)
    ensures forall g :: Untouched(RotationSequence(f), g) <==> g == f || g == Opposite(f)
  {
    AllFacesComplete();
    var rot := RotationSequence(f);
    assert rot[0] in rot && rot[1] in rot && rot[2] in rot && rot[3] in rot;
    forall g
      ensures Untouched(rot, g) <==> g == f || g == Opposite(f)
    {
      if !Untouched(rot, g) {
        assert g in rot;
      } else {
        assert g !in rot;
      }
    }
  }

  /** The tally split into the faces on the axis of f and those on its rotation sequence. */
  lemma TallyAround(colors: map<Face, Color>, f: Face, c: Color)
    requires HasAllFaces(colors)
    ensures var rot := RotationSequence(f);
      Tally(colors, c) == Indicator(colors[f] == c) + Indicator(colors[Opposite(f)] == c) +
        Indicator(colors[rot[0]] == c) + Indicator(colors[rot[1]] == c) +
        Indicator(colors[rot[2]] == c) + Indicator(colors[rot[3]] == c)
  {
    match f
    case Up =>
    case Front =>
    case Right =>
    case Down =>
    case Back =>
    case Left =>
  }

  /**
   * One pass only moves colours between faces: every colour shows on as
   * many faces as before.
   */
  lemma ShiftOnceKeepsTally(colors: map<Face, Color>, f: Face, inverted: bool, c: Color)
    requires HasAllFaces(colors)
    ensures IsCycleOf(RotationSequence(f), colors)
    ensures HasAllFaces(ShiftOnce(colors, RotationSequence(f), inverted))
    ensures Tally(ShiftOnce(colors, RotationSequence(f), inverted), c) == Tally(colors, c)
  {
    RotationSequenceIsCycle(f, colors);
    var rot := RotationSequence(f);
    var r := ShiftOnce(colors, rot, inverted);
    TallyAround(colors, f, c);
    TallyAround(r, f, c);
    assert r[f] == colors[f] && r[Opposite(f)] == colors[Opposite(f)];
    assert r[rot[0]] == colors[rot[Next(0, inverted)]];
    assert r[rot[1]] == colors[rot[Next(1, inverted)]];
    assert r[rot[2]] == colors[rot[Next(2, inverted)]];
    assert r[rot[3]] == colors[rot[Next(3, inverted)]];
  }

  lemma {:induction false} ShiftTimesKeepsTally(colors: map<Face, Color>, f: Face, inverted: bool, times: nat, c: Color)
    requires HasAllFaces(colors)
    ensures IsCycleOf(RotationSequence(f), colors)
    ensures HasAllFaces(ShiftTimes(colors, RotationSequence(f), inverted, times))
    ensures Tally(ShiftTimes(colors, RotationSequence(f), inverted, times), c) == Tally(colors, c)
  {
    RotationSequenceIsCycle(f, colors);
    if times > 0 {
      ShiftTimesKeepsTally(colors, f, inverted, times - 1, c);
      ShiftOnceKeepsTally(ShiftTimes(colors, RotationSequence(f), inverted, times - 1), f, inverted, c);
    }
  }

  /**
   * The colour shift agrees with the geometry: after one pass, face d shows
   * the colour of the face that the quarter turn carries onto d.
   */
  lemma ShiftFollowsQuarterTurn(colors: map<Face, Color>, f: Face, inverted: bool, d: Face)
    requires HasAllFaces(colors)
    ensures IsCycleOf(RotationSequence(f), colors)
    ensures ShiftOnce(colors, RotationSequence(f), inverted)[d]
         == colors[FaceOf(QuarterTurn(f, Axis(d), !inverted))]
  {
    RotationSequenceIsCycle(f, colors);
    var rot := RotationSequence(f);
    var r := ShiftOnce(colors, rot, inverted);
    assert r[rot[0]] == colors[rot[Next(0, inverted)]];
    assert r[rot[1]] == colors[rot[Next(1, inverted)]];
    assert r[rot[2]] == colors[rot[Next(2, inverted)]];
    assert r[rot[3]] == colors[rot[Next(3, inverted)]];
    assert r[f] == colors[f] && r[Opposite(f)] == colors[Opposite(f)];
    match f
    case Up =>
    case Front =>
    case Right =>
    case Down =>
    case Back =>
    case Left =>
  }

  /**
   * A ring cubelet after the move: its position turned times quarter turns
   * about the axis of the move's face, its colours shifted times times
   * along the face's rotation sequence.
   */
  function Turn(m: Move, c: CubeletValue): (r: CubeletValue)
    requires HasAllFaces(c.faceColors)
    ensures HasAllFaces(r.faceColors)
  {
    RotationSequenceIsCycle(m.face, c.faceColors);
    ShiftTimesKeepsKeys(c.faceColors, RotationSequence(m.face), m.inverted, m.times);
    CubeletValue(Rotate(m.face, c.position, m.times, m.inverted),
                 ShiftTimes(c.faceColors, RotationSequence(m.face), m.inverted, m.times))
  }

  /**
   * Turning a cubelet keeps its colours (as a multiset), its layer along
   * the move's axis, and the colours on the move's face and the opposite
   * face.
   */
  lemma TurnKeeps(m: Move, c: CubeletValue)
    requires HasAllFaces(c.faceColors)
    ensures forall k :: Tally(Turn(m, c).faceColors, k) == Tally(c.faceColors, k)
    ensures AxisCoordinate(m.face, Turn(m, c).position) == AxisCoordinate(m.face, c.position)
    ensures Turn(m, c).faceColors[m.face] == c.faceColors[m.face]
    ensures Turn(m, c).faceColors[Opposite(m.face)] == c.faceColors[Opposite(m.face)]
  {
    RotationSequenceIsCycle(m.face, c.faceColors);
    ShiftTimesKeepsKeys(c.faceColors, RotationSequence(m.face), m.inverted, m.times);
    RotateKeepsAxisCoordinate(m.face, m.face, c.position, m.times, m.inverted);
    forall k
      ensures Tally(ShiftTimes(c.faceColors, RotationSequence(m.face), m.inverted, m.times), k) == Tally(c.faceColors, k)
    {
      ShiftTimesKeepsTally(c.faceColors, m.face, m.inverted, m.times, k);
    }
  }

  /**
   * p is in the ring of m: every position for a whole-cube move, otherwise
   * those whose coordinate along the face's axis (negated for Down, Back
   * and Left) is one of the move's layer coordinates.
   */
  predicate InRing(m: Move, p: Point)
  {
    m.whichLayers == AllLayers || AxisCoordinate(m.face, p) in LayerCoordinates(m.whichLayers)
  }

  /** Every cubelet has the six faces as keys. */
  predicate WellFormed(s: seq<CubeletValue>)
  {
    forall i :: 0 <= i < |s| ==> HasAllFaces(s[i].faceColors)
  }

  /**
   * The cubelets after PerformMove: ring cubelets turned, every other
   * cubelet as it was, in the same order.
   */
  function ApplyMove(m: Move, s: seq<CubeletValue>): (r: seq<CubeletValue>)
    requires WellFormed(s)
    ensures |r| == |s| && WellFormed(r)
    ensures forall i :: 0 <= i < |s| && !InRing(m, s[i].position) ==> r[i] == s[i]
  {
    seq(|s|, i requires 0 <= i < |s| => if InRing(m, s[i].position) then Turn(m, s[i]) else s[i])
  }

  /**
   * A move keeps every cubelet's colours (as a multiset), its layer along
   * the move's axis, and the colours it shows on the move's face and the
   * opposite face.
   */
  lemma ApplyMoveKeeps(m: Move, s: seq<CubeletValue>)
    requires WellFormed(s)
    ensures forall i :: 0 <= i < |s| ==>
      AxisCoordinate(m.face, ApplyMove(m, s)[i].position) == AxisCoordinate(m.face, s[i].position) &&
      ApplyMove(m, s)[i].faceColors[m.face] == s[i].faceColors[m.face] &&
      ApplyMove(m, s)[i].faceColors[Opposite(m.face)] == s[i].faceColors[Opposite(m.face)] &&
      forall k :: Tally(ApplyMove(m, s)[i].faceColors, k) == Tally(s[i].faceColors, k)
  {
    forall i | 0 <= i < |s| && InRing(m, s[i].position)
    {
      TurnKeeps(m, s[i]);
    }
  }

  /** A move turns the cubelets it selects and nothing else; its inverse selects the same ones. */
  lemma InRingAfterTurn(m: Move, c: CubeletValue)
    requires HasAllFaces(c.faceColors)
    ensures InRing(m, Turn(m, c).position) <==> InRing(m, c.position)
    ensures InRing(Invert(m), c.position) <==> InRing(m, c.position)
  {
    RotateKeepsAxisCoordinate(m.face, m.face, c.position, m.times, m.inverted);
    assert Turn(m, c).position == Rotate(m.face, c.position, m.times, m.inverted);
  }

  /** Turning the other way by the same amount gives the cubelet back. */
  lemma TurnUndone(m: Move, c: CubeletValue)
    requires HasAllFaces(c.faceColors)
    ensures Turn(Invert(m), Turn(m, c)) == c
  {
    RotationSequenceIsCycle(m.face, c.faceColors);
    RotateUndone(m.face, c.position, m.times, m.inverted);
    ShiftTimesUndone(c.faceColors, RotationSequence(m.face), m.inverted, m.times);
  }

  /** A move followed by its Invert restores every cubelet. */
  lemma ApplyMoveUndone(m: Move, s: seq<CubeletValue>)
    requires WellFormed(s)
    ensures ApplyMove(Invert(m), ApplyMove(m, s)) == s
  {
    var t := ApplyMove(m, s);
    var u := ApplyMove(Invert(m), t);
    forall i | 0 <= i < |s|
      ensures u[i] == s[i]
    {
      if InRing(m, s[i].position) {
        InRingAfterTurn(m, s[i]);
        InRingAfterTurn(Invert(m), t[i]);
        TurnUndone(m, s[i]);
      } else {
        InRingAfterTurn(Invert(m), t[i]);
      }
    }
  }

  /** A quarter-turn move is one quarter turn of the position and one pass of the colour shift. */
  lemma TurnQuarter(m: Move, c: CubeletValue)
    requires m.times == 1 && HasAllFaces(c.faceColors)
    ensures IsCycleOf(RotationSequence(m.face), c.faceColors)
    ensures Turn(m, c).position == QuarterTurn(m.face, c.position, m.inverted)
    ensures Turn(m, c).faceColors == ShiftOnce(c.faceColors, RotationSequence(m.face), m.inverted)
  {
    RotationSequenceIsCycle(m.face, c.faceColors);
    assert Rotate(m.face, c.position, 1, m.inverted) == QuarterTurn(m.face, c.position, m.inverted);
    assert ShiftTimes(c.faceColors, RotationSequence(m.face), m.inverted, 1)
        == ShiftOnce(ShiftTimes(c.faceColors, RotationSequence(m.face), m.inverted, 0), RotationSequence(m.face), m.inverted);
  }

  /** Four quarter turns bring a cubelet back. */
  lemma TurnOrderFour(m: Move, c: CubeletValue)
    requires m.times == 1 && HasAllFaces(c.faceColors)
    ensures Turn(m, Turn(m, Turn(m, Turn(m, c)))) == c
  {
    var f, inv, rot := m.face, m.inverted, RotationSequence(m.face);
    var c1 := Turn(m, c);
    var c2 := Turn(m, c1);
    var c3 := Turn(m, c2);
    var c4 := Turn(m, c3);
    TurnQuarter(m, c);
    TurnQuarter(m, c1);
    TurnQuarter(m, c2);
    TurnQuarter(m, c3);
    assert c4.position == c.position by {
      assert Rotate(f, c.position, 1, inv) == c1.position;
      assert Rotate(f, c.position, 2, inv) == c2.position;
      assert Rotate(f, c.position, 3, inv) == c3.position;
      assert Rotate(f, c.position, 4, inv) == c4.position;
      QuarterTurnOrderFour(f, c.position, inv);
    }
    assert c4.faceColors == c.faceColors by {
      assert ShiftTimes(c.faceColors, rot, inv, 1) == c1.faceColors;
      assert ShiftTimes(c.faceColors, rot, inv, 2) == c2.faceColors;
      assert ShiftTimes(c.faceColors, rot, inv, 3) == c3.faceColors;
      assert ShiftTimes(c.faceColors, rot, inv, 4) == c4.faceColors;
      ShiftOrderFour(c.faceColors, rot, inv);
    }
  }

  /** A half-turn move is the same quarter-turn move made twice. */
  lemma TurnHalf(m: Move, c: CubeletValue)
    requires m.times == 2 && HasAllFaces(c.faceColors)
    ensures Turn(m, c) == Turn(m.(times := 1), Turn(m.(times := 1), c))
  {
    var q := m.(times := 1);
    var rot := RotationSequence(m.face);
    var c1 := Turn(q, c);
    TurnQuarter(q, c);
    TurnQuarter(q, c1);
    assert Rotate(m.face, c.position, 1, m.inverted) == c1.position;
    assert ShiftTimes(c.faceColors, rot, m.inverted, 1) == c1.faceColors;
  }

  /** A move with no turns leaves a cubelet as it is. */
  lemma TurnNone(m: Move, c: CubeletValue)
    requires m.times == 0 && HasAllFaces(c.faceColors)
    ensures Turn(m, c) == c
  {
    RotationSequenceIsCycle(m.face, c.faceColors);
  }

  /** A half-turn move on the cube is the quarter-turn move made twice. */
  lemma ApplyMoveHalf(m: Move, s: seq<CubeletValue>)
    requires m.times == 2 && WellFormed(s)
    ensures ApplyMove(m, s) == ApplyMove(m.(times := 1), ApplyMove(m.(times := 1), s))
  {
    var q := m.(times := 1);
    var s1 := ApplyMove(q, s);
    var s2 := ApplyMove(q, s1);
    forall i | 0 <= i < |s|
      ensures ApplyMove(m, s)[i] == s2[i]
    {
      if InRing(m, s[i].position) {
        InRingAfterTurn(q, s[i]);
        TurnHalf(m, s[i]);
      }
    }
  }

  /** A move with no turns changes nothing. */
  lemma ApplyMoveNone(m: Move, s: seq<CubeletValue>)
    requires m.times == 0 && WellFormed(s)
    ensures ApplyMove(m, s) == s
  {
    forall i | 0 <= i < |s|
      ensures ApplyMove(m, s)[i] == s[i]
    {
      if InRing(m, s[i].position) {
        TurnNone(m, s[i]);
      }
    }
  }

  /** Four identical quarter turns restore every position and colour. */
  lemma ApplyMoveOrderFour(m: Move, s: seq<CubeletValue>)
    requires m.times == 1 && WellFormed(s)
    ensures ApplyMove(m, ApplyMove(m, ApplyMove(m, ApplyMove(m, s)))) == s
  {
    var s1 := ApplyMove(m, s);
    var s2 := ApplyMove(m, s1);
    var s3 := ApplyMove(m, s2);
    var s4 := ApplyMove(m, s3);
    forall i | 0 <= i < |s|
      ensures s4[i] == s[i]
    {
      if InRing(m, s[i].position) {
        InRingAfterTurn(m, s[i]);
        InRingAfterTurn(m, s1[i]);
        InRingAfterTurn(m, s2[i]);
        TurnOrderFour(m, s[i]);
      }
    }
  }
}
