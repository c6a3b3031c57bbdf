/**
 * The cube of Model/Cube.cs: a list of cubelet objects whose positions and
 * colours moves update in place, and a stack of the moves made so far.
 */
module Cubes {
  import opened Wrappers
  import opened Vocabulary
  import opened Geometry
  import opened Moves
  import opened Cubelets
  import opened Rotation
  import opened Shell
  import opened Building
  import opened History
  import Solving
  import Text
  import Sequences
  import ShellSize

  /** The snapshot of each cubelet, in order. */
  function Values(cs: seq<Cubelet>): (vs: seq<CubeletValue>)
    reads cs
    ensures |vs| == |cs| && forall i :: 0 <= i < |cs| ==> vs[i] == cs[i].Value()
  {
    if |cs| == 0 then [] else [cs[0].Value()] + Values(cs[1..])
  }

  /** The cubelets show the values, one for one. */
  predicate Shows(cs: seq<Cubelet>, vs: seq<CubeletValue>)
    reads cs
  {
    |cs| == |vs| && forall i :: 0 <= i < |cs| ==> cs[i].Value() == vs[i]
  }

  lemma ShowsAppend(cs: seq<Cubelet>, vs: seq<CubeletValue>, c: Cubelet, v: CubeletValue)
    requires Shows(cs, vs) && c.Value() == v
    ensures Shows(cs + [c], vs + [v])
  {
  }

  /**
   * Whatever moves were made on a cube as built, Solved answers on an odd
   * size, by whether every face is uniform, and fails on an even size.
   */
  lemma SolvedAfterMoves(s: seq<CubeletValue>, ms: seq<Move>, origin: seq<CubeletValue>, size: int)
    requires WellFormed(origin) && IsFresh(origin, size) && s == ApplyAll(ms, origin)
    ensures WellFormed(s)
    ensures size >= 1 && size % 2 == 1 ==> Solving.Solved(s, size) == Ok(Solving.AllUniform(s, size - 1))
    ensures size % 2 == 0 ==> Solving.Solved(s, size) == Err(InvalidOperation)
  {
    ApplyAllKeepsShell(ms, origin, size);
    if size >= 1 && size % 2 == 1 {
      Solving.SolvedOnShell(s, size);
    } else if size % 2 == 0 {
      Solving.EvenSizeSolvedFails(s, size);
    }
  }

  /** Cube.Solved on the values of a cube: the answer SolvedAfterMoves describes. */
  function SolvedAnswer(s: seq<CubeletValue>, ghost ms: seq<Move>, ghost origin: seq<CubeletValue>, size: int): (r: Result<bool>)
    requires WellFormed(origin) && IsFresh(origin, size) && s == ApplyAll(ms, origin)
    ensures WellFormed(s)
    ensures size >= 1 && size % 2 == 1 ==> r == Ok(Solving.AllUniform(s, size - 1))
    ensures size % 2 == 0 ==> r == Err(InvalidOperation)
  {
    SolvedAfterMoves(s, ms, origin, size);
    Solving.Solved(s, size)
  }

  /**
   * A cube as built: n³ − (n − 2)³ cubelets, and Solved is true on an odd
   * size and InvalidOperationException on an even one.
   */
  lemma FreshAnswer(s: seq<CubeletValue>, size: int)
    requires IsFresh(s, size)
    ensures WellFormed(s) && IsShellState(s, size)
    ensures size >= 1 ==> |s| == size * size * size - (if size >= 2 then (size - 2) * (size - 2) * (size - 2) else 0)
    ensures size >= 1 && size % 2 == 1 ==> Solving.Solved(s, size) == Ok(true)
    ensures size % 2 == 0 ==> Solving.Solved(s, size) == Err(InvalidOperation)
  {
    assert WellFormed(s);
    if size >= 1 {
      ShellSize.ShellStateSize(s, size);
    }
    if size >= 1 && size % 2 == 1 {
      Solving.FreshCubeSolved(s, size);
    } else if size % 2 == 0 {
      Solving.EvenSizeSolvedFails(s, size);
    }
  }

  /** No cubelet object appears twice. */
  predicate Distinct(cs: seq<Cubelet>)
  {
    forall i, j :: 0 <= i < j < |cs| ==> cs[i] != cs[j]
  }

  /** Cubelets at different positions are different objects. */
  lemma DistinctByPosition(cs: seq<Cubelet>)
    requires DistinctPositions(Values(cs))
    ensures Distinct(cs)
  {
    var vs := Values(cs);
    forall i, j | 0 <= i < j < |cs|
      ensures cs[i] != cs[j]
    {
      assert vs[i].position != vs[j].position;
    }
  }

  /** Cubelets showing a cube as built are distinct objects, and their snapshot is that cube. */
  lemma ShowsFresh(cs: seq<Cubelet>, vs: seq<CubeletValue>, size: int)
    requires Shows(cs, vs) && IsFresh(vs, size)
    ensures Values(cs) == vs && Distinct(cs)
  {
    assert Values(cs) == vs;
    DistinctByPosition(cs);
  }

  /**
   * The cubelets of cs in the ring of move m, in order: those whose
   * position's coordinate along the face's axis is one of the move's layer
   * coordinates, or all of them for a whole-cube move.
   */
  function Ring(cs: seq<Cubelet>, m: Move): (ring: seq<Cubelet>)
    reads cs
    ensures forall k :: 0 <= k < |ring| ==> ring[k] in cs && InRing(m, ring[k].Position)
    ensures forall i :: 0 <= i < |cs| && InRing(m, cs[i].Position) ==> cs[i] in ring
    ensures Distinct(cs) ==> Distinct(ring)
  {
    if |cs| == 0 then []
    else
      var rest := Ring(cs[1..], m);
      assert forall i :: 1 <= i < |cs| ==> cs[i] == cs[1..][i - 1];
      assert Distinct(cs) ==> cs[0] !in cs[1..];
      if InRing(m, cs[0].Position) then [cs[0]] + rest else rest
  }

  /** The stack after one more move of RunMoves. */
  lemma PushPrefix(m0: seq<Move>, moves: seq<Move>, k: int, memorize: bool, before: seq<Move>, after: seq<Move>)
    requires 0 <= k < |moves|
    requires before == m0 + (if memorize then moves[..k] else [])
    requires after == before + (if memorize then [moves[k]] else [])
    ensures after == m0 + (if memorize then moves[..k + 1] else [])
  {
    Sequences.TakeSnoc(moves, k);
  }

  /** The stack after one more pass of Cube.Undo's loop. */
  lemma PopPrefix(m0: seq<Move>, i: int, before: seq<Move>, after: seq<Move>)
    requires 0 <= i < |m0| && before == m0[..|m0| - i] && after == before[..|before| - 1]
    ensures after == m0[..|m0| - (i + 1)]
  {
  }

  /** How many moves Cube.Undo(moves) pops off a stack of the given depth. */
  function UndoCount(moves: int, depth: nat): (k: nat)
    ensures k <= depth
  {
    if moves <= 0 then 0 else if moves <= depth then moves else depth
  }

  /** UndoTop for the states a cube passes through. */
  lemma Undone(ms: seq<Move>, k: nat, origin: seq<CubeletValue>, t: seq<CubeletValue>, u: seq<CubeletValue>)
    requires WellFormed(origin) && k <= |ms|
    requires t == ApplyAll(ms, origin) && u == ApplyAll(ms[..|ms| - k], origin)
    ensures u == UndoAll(ms[|ms| - k..], t)
  {
    UndoTop(ms, k, origin);
  }

  class Cube {
    var Size: int
    var Cubelets: seq<Cubelet>
    /** The stack of moves made by Run; the top is the last element. */
    var Memory: seq<Move>
    /** The cubelets as the constructor built them. */
    ghost var Origin: seq<CubeletValue>

    /** The snapshot of every cubelet. */
    function State(): (s: seq<CubeletValue>)
      reads this, Cubelets
      ensures |s| == |Cubelets|
    {
      Values(Cubelets)
    }

    /** The parts of the invariant that moves do not touch. */
    ghost predicate Consistent()
      reads this
    {
      Distinct(Cubelets) && WellFormed(Origin) && IsFresh(Origin, Size)
    }

    /** The cubelets are the built cube with the remembered moves made on it. */
    ghost predicate Valid()
      reads this, Cubelets
    {
      Consistent() && State() == ApplyAll(Memory, Origin)
    }

    /** A new cube of the given size: solved, with an empty history. */
    constructor(size: int)
      ensures Valid() && Size == size && Memory == []
      ensures IsFresh(State(), size) && IsShellState(State(), size)
      ensures size >= 1 && size % 2 == 1 ==> Solving.Solved(State(), size) == Ok(true)
      ensures size % 2 == 0 ==> Solving.Solved(State(), size) == Err(InvalidOperation)
      ensures size >= 1 ==>
        |Cubelets| == size * size * size - (if size >= 2 then (size - 2) * (size - 2) * (size - 2) else 0)
    {
      // FreshAnswer states all the constructor needs about these two.
      hide Solving.Solved, IsShellState;
      new;
      InitializeMemory();
      InitializeCubelets(size);
      ghost var built := State();
      FreshAnswer(built, size);
      Origin := built;
      assert State() == built;
    }

    method InitializeMemory()
      modifies this
      ensures Memory == [] && Size == old(Size) && Cubelets == old(Cubelets) && Origin == old(Origin)
    {
      Memory := [];
    }

    /**
     * The painting in the body of the construction loop: the home colour on
     * every face whose coordinate is extreme, set one face after another.
     */
    static method Paint(cubelet: Cubelet, n2: int)
      requires cubelet.FaceColors == Unpainted
      modifies cubelet
      ensures cubelet.Position == old(cubelet.Position)
      ensures cubelet.FaceColors == InitialColors(cubelet.Position, n2)
    {
      var p := cubelet.Position;
      if p.x == -n2 {
        cubelet.FaceColors := cubelet.FaceColors[Left := Orange];
      }
      if p.x == n2 {
        cubelet.FaceColors := cubelet.FaceColors[Right := Red];
      }
      if p.y == -n2 {
        cubelet.FaceColors := cubelet.FaceColors[Back := Blue];
      }
      if p.y == n2 {
        cubelet.FaceColors := cubelet.FaceColors[Front := Green];
      }
      if p.z == -n2 {
        cubelet.FaceColors := cubelet.FaceColors[Down := Yellow];
      }
      if p.z == n2 {
        cubelet.FaceColors := cubelet.FaceColors[Up := White];
      }
      AllFacesComplete();
      InitialColorsByFace(cubelet.FaceColors, p, n2);
    }

    /** A new cubelet at p, painted. */
    static method NewPainted(p: Point, n2: int) returns (cubelet: Cubelet)
      ensures fresh(cubelet) && cubelet.Value() == Painted(p, n2)
    {
      cubelet := new Cubelet();
      cubelet.Position := p;
      Paint(cubelet, n2);
    }

    /** Sets the size and builds the painted cubelets of the surface shell. */
    method InitializeCubelets(size: int)
      modifies this
      ensures Size == size && Memory == old(Memory)
      ensures Distinct(Cubelets) && WellFormed(State()) && IsFresh(State(), size)
    {
      Size := size;
      Cubelets := BuildCubelets(size);
    }

    /**
     * The innermost loop of the construction: z from -n2 to n2 in steps of
     * 2 (doubled coordinates), keeping a new painted cubelet at every
     * position on the surface.
     */
    static method BuildRow(size: int, x: int, y: int, built: seq<Cubelet>, ghost before: seq<CubeletValue>)
      returns (cs: seq<Cubelet>, ghost vs: seq<CubeletValue>)
      requires OnGrid(size - 1, x) && OnGrid(size - 1, y)
      requires Shows(built, before) && BuiltBefore(before, size, Point(x, y, -(size - 1)))
      ensures Shows(cs, vs) && BuiltBefore(vs, size, Point(x, y + 2, -(size - 1)))
    {
      var n2 := size - 1;
      cs, vs := built, before;
      var z := -n2;
      while z <= n2
        invariant -n2 <= z && (n2 - z) % 2 == 0
        invariant Shows(cs, vs) && BuiltBefore(vs, size, Point(x, y, z))
      {
        cs, vs := BuildAt(size, x, y, z, cs, vs);
        z := z + 2;
      }
      RowDone(vs, size, x, y, z);
    }

    /** The body of the innermost loop: a new painted cubelet when (x, y, z) is on the surface. */
    static method BuildAt(size: int, x: int, y: int, z: int, built: seq<Cubelet>, ghost before: seq<CubeletValue>)
      returns (cs: seq<Cubelet>, ghost vs: seq<CubeletValue>)
      requires OnGrid(size - 1, x) && OnGrid(size - 1, y) && OnGrid(size - 1, z)
      requires Shows(built, before) && BuiltBefore(before, size, Point(x, y, z))
      ensures Shows(cs, vs) && BuiltBefore(vs, size, Point(x, y, z + 2))
    {
      var n2 := size - 1;
      cs, vs := built, before;
      if x == -n2 || x == n2 || y == -n2 || y == n2 || z == -n2 || z == n2 {
        BuildKeep(before, size, x, y, z);
        var cubelet := NewPainted(Point(x, y, z), size - 1);
        ShowsAppend(built, before, cubelet, Painted(Point(x, y, z), size - 1));
        cs := built + [cubelet];
        vs := before + [Painted(Point(x, y, z), size - 1)];
      } else {
        BuildSkip(before, size, Point(x, y, z));
      }
    }

    /** The middle loop of the construction: y from -n2 to n2 in steps of 2. */
    static method BuildSlab(size: int, x: int, built: seq<Cubelet>, ghost before: seq<CubeletValue>)
      returns (cs: seq<Cubelet>, ghost vs: seq<CubeletValue>)
      requires OnGrid(size - 1, x)
      requires Shows(built, before) && BuiltBefore(before, size, Point(x, -(size - 1), -(size - 1)))
      ensures Shows(cs, vs) && BuiltBefore(vs, size, Point(x + 2, -(size - 1), -(size - 1)))
    {
      var n2 := size - 1;
      cs, vs := built, before;
      var y := -n2;
      while y <= n2
        invariant -n2 <= y && (n2 - y) % 2 == 0
        invariant Shows(cs, vs) && BuiltBefore(vs, size, Point(x, y, -(size - 1)))
      {
        cs, vs := BuildRow(size, x, y, cs, vs);
        y := y + 2;
      }
      SlabDone(vs, size, x, y);
    }

    /**
     * The outer loop of the construction: x from -n2 to n2 in steps of 2;
     * the result is the whole surface shell, painted, in lexicographic order.
     */
    static method BuildCubelets(size: int) returns (cs: seq<Cubelet>)
      ensures Distinct(cs) && IsFresh(Values(cs), size)
    {
      var n2 := size - 1;
      cs := [];
      ghost var vs: seq<CubeletValue> := [];
      BuildStart(size);
      var x := -n2;
      while x <= n2
        invariant -n2 <= x && (n2 - x) % 2 == 0
        invariant Shows(cs, vs) && BuiltBefore(vs, size, Point(x, -(size - 1), -(size - 1)))
      {
        cs, vs := BuildSlab(size, x, cs, vs);
        x := x + 2;
      }
      BuildDone(vs, size, Point(x, -(size - 1), -(size - 1)));
      ShowsFresh(cs, vs, size);
    }

    /**
     * Cube.Solved: asks the six faces in turn; InvalidOperationException
     * when a face has no single centre cubelet.
     */
    function Solved(): (r: Result<bool>)
      reads this, Cubelets
      requires Valid()
      ensures Size >= 1 && Size % 2 == 1 ==> r == Ok(Solving.AllUniform(State(), Size - 1))
      ensures Size % 2 == 0 ==> r == Err(InvalidOperation)
    {
      SolvedAnswer(State(), Memory, Origin, Size)
    }

    /**
     * The ring of the move (its cubelets, in list order) and the cycle of
     * faces its colours move round.
     */
    method GetMoveParameters(move: Move) returns (ring: seq<Cubelet>, rotation: seq<Face>)
      ensures forall k :: 0 <= k < |ring| ==> ring[k] in Cubelets && InRing(move, ring[k].Position)
      ensures forall j :: 0 <= j < |Cubelets| && InRing(move, Cubelets[j].Position) ==> Cubelets[j] in ring
      ensures Distinct(Cubelets) ==> Distinct(ring)
      ensures |rotation| == 4 && forall g :: g in rotation <==> g != move.face && g != Opposite(move.face)
      ensures rotation == RotationSequence(move.face)
    {
      ring := Ring(Cubelets, move);
      rotation := RotationSequence(move.face);
    }

    /**
     * Turns every cubelet of the move's ring: its colours go times passes
     * round the rotation sequence and its position times quarter turns
     * about the face's axis.
     */
    method PerformMove(move: Move)
      requires Distinct(Cubelets) && WellFormed(State())
      modifies Cubelets
      ensures unchanged(this)
      ensures State() == ApplyMove(move, old(State()))
    {
      var ring, rotation := GetMoveParameters(move);
      TurnRing(Cubelets, ring, move, rotation, State());
    }

    /**
     * PerformMove's loop: turns every cubelet of the ring in turn; the ring
     * holds exactly the cubelets whose positions the move selects.
     */
    static method TurnRing(cs: seq<Cubelet>, ring: seq<Cubelet>, move: Move, rotation: seq<Face>,
                           ghost s0: seq<CubeletValue>)
      requires Shows(cs, s0) && WellFormed(s0) && Distinct(cs) && Distinct(ring)
      requires forall j :: 0 <= j < |cs| ==> (cs[j] in ring <==> InRing(move, s0[j].position))
      requires forall k :: 0 <= k < |ring| ==> ring[k] in cs
      requires rotation == RotationSequence(move.face)
      modifies cs
      ensures Shows(cs, ApplyMove(move, s0))
    {
      var i := 0;
      while i < |ring|
        invariant 0 <= i <= |ring|
        invariant forall j :: 0 <= j < |cs| ==>
          cs[j].Value() == (if cs[j] in ring[..i] then Turn(move, s0[j]) else s0[j])
      {
        var cubelet := ring[i];
        ghost var j0 :| 0 <= j0 < |cs| && cs[j0] == cubelet;
        assert cubelet !in ring[..i];
        TurnCubelet(cubelet, move, rotation);
        assert ring[..i + 1] == ring[..i] + [cubelet];
        forall j | 0 <= j < |cs|
          ensures cs[j].Value() == (if cs[j] in ring[..i + 1] then Turn(move, s0[j]) else s0[j])
        {
          if j != j0 {
            assert cs[j] != cubelet;
          }
        }
        i := i + 1;
      }
      assert ring[..i] == ring;
    }

    /**
     * The body of PerformMove's loop for one ring cubelet: times passes of
     * the colour shift, then the position turned times quarter turns.
     */
    static method TurnCubelet(cubelet: Cubelet, move: Move, rotation: seq<Face>)
      requires HasAllFaces(cubelet.FaceColors) && rotation == RotationSequence(move.face)
      modifies cubelet
      ensures cubelet.Value() == Turn(move, old(cubelet.Value()))
    {
      RotationSequenceIsCycle(move.face, cubelet.FaceColors);
      cubelet.FaceColors := ShiftColors(cubelet.FaceColors, rotation, move.inverted, move.times);
      cubelet.Position := Rotate(move.face, cubelet.Position, move.times, move.inverted);
    }

    /** One move of RunMoves: made, and pushed on the stack when memorize is set. */
    method RunMove(move: Move, memorize: bool)
      requires Consistent() && WellFormed(State())
      modifies this, Cubelets
      ensures Consistent()
      ensures Size == old(Size) && Cubelets == old(Cubelets) && Origin == old(Origin)
      ensures State() == ApplyMove(move, old(State()))
      ensures Memory == old(Memory) + (if memorize then [move] else [])
    {
      PerformMove(move);
      if memorize {
        Memory := Memory + [move];
      }
    }

    /** Makes the moves in order, pushing each on the stack when memorize is set. */
    method RunMoves(moves: seq<Move>, memorize: bool)
      requires Consistent() && WellFormed(State())
      modifies this, Cubelets
      ensures Consistent()
      ensures Size == old(Size) && Cubelets == old(Cubelets) && Origin == old(Origin)
      ensures State() == ApplyAll(moves, old(State()))
      ensures Memory == old(Memory) + (if memorize then moves else [])
      ensures !memorize ==> Memory == old(Memory)
    {
      ghost var s0, m0, size0, cs0, origin0 := State(), Memory, Size, Cubelets, Origin;
      var k := 0;
      while k < |moves|
        invariant 0 <= k <= |moves|
        invariant Consistent() && WellFormed(State())
        invariant Size == size0 && Cubelets == cs0 && Origin == origin0
        invariant State() == ApplyAll(moves[..k], s0)
        invariant Memory == m0 + (if memorize then moves[..k] else [])
      {
        ghost var t, pushed := State(), Memory;
        RunMove(moves[k], memorize);
        ApplyAllPrefix(moves, k, s0, t, State());
        PushPrefix(m0, moves, k, memorize, pushed, Memory);
        k := k + 1;
      }
      assert moves[..k] == moves;
    }

    /**
     * The parsing loop of Cube.Run: Move.Parse on every token in order,
     * stopping at the first that is not a move.
     */
    static method ParseMoves(split: seq<string>) returns (r: Result<seq<Move>>)
      ensures r == ParseAll(split)
    {
      ghost var rs := ParseEach(split);
      var moves: seq<Move> := [];
      var i := 0;
      while i < |split|
        invariant 0 <= i <= |split|
        invariant Gather(rs[..i]) == Ok(moves)
      {
        var parsed := Parse(Some(split[i]));
        assert rs[i] == parsed;
        match parsed
        case Err(e) =>
          assert !Gather(rs).Ok?;
          return Err(e);
        case Ok(m) =>
          GatherExtend(rs, i, moves, m);
          moves := moves + [m];
        i := i + 1;
      }
      assert rs[..i] == rs;
      return Ok(moves);
    }

    /**
     * Cube.Run on a move sequence: fails on a null sequence; otherwise
     * splits it at white space, parses every token (failing, with nothing
     * changed, on the first that is not a move) and makes the moves,
     * pushing each on the stack.
     */
    method Run(sequence: Option<string>) returns (outcome: Outcome)
      requires Valid()
      modifies this, Cubelets
      ensures Valid() && Size == old(Size)
      ensures sequence.None? ==> outcome == Fail(ArgumentNull)
      ensures sequence.Some? && ParseAll(Text.Tokens(sequence.value)).Err? ==>
        outcome == Fail(ArgumentOutOfRange)
      ensures outcome.Fail? ==> Memory == old(Memory) && State() == old(State())
      ensures sequence.Some? && ParseAll(Text.Tokens(sequence.value)).Ok? ==>
        var moves := ParseAll(Text.Tokens(sequence.value)).value;
        outcome == Pass && Memory == old(Memory) + moves && State() == ApplyAll(moves, old(State()))
    {
      // The proof needs only the contracts of Tokens and ParseAll.
      hide Text.Tokens, ParseAll;
      if sequence.None? {
        return Fail(ArgumentNull);
      }
      var parsed := ParseMoves(Text.Tokens(sequence.value));
      match parsed
      case Err(e) =>
        assert e == ArgumentOutOfRange;
        return Fail(e);
      case Ok(moves) =>
        RunRemembered(moves);
        return Pass;
    }

    /** The moves of a parsed sequence made and pushed, keeping the cube valid. */
    method RunRemembered(moves: seq<Move>)
      requires Valid()
      modifies this, Cubelets
      ensures Valid() && Size == old(Size)
      ensures Memory == old(Memory) + moves && State() == ApplyAll(moves, old(State()))
    {
      ghost var m0 := Memory;
      RunMoves(moves, true);
      ApplyAllAppend(m0, moves, Origin);
    }

    /** One pass of Cube.Undo's loop: pops the top move and runs its inverse, not remembering it. */
    method UndoOne()
      requires Valid() && |Memory| > 0
      modifies this, Cubelets
      ensures Valid() && Size == old(Size) && Cubelets == old(Cubelets) && Origin == old(Origin)
      ensures Memory == old(Memory)[..|old(Memory)| - 1]
    {
      var top := Memory[|Memory| - 1];
      ghost var cs, rest := Cubelets, Memory;
      ghost var t := Values(cs);
      Memory := Memory[..|Memory| - 1];
      assert Values(cs) == t;
      RunMoves([Invert(top)], false);
      UndoLastStep(rest, Origin, t, State());
    }

    /** Cube.Undo(): undoes the last move. */
    method UndoLast() returns (outcome: Outcome)
      requires Valid()
      modifies this, Cubelets
      ensures Valid() && Size == old(Size)
      ensures |old(Memory)| == 0 ==> outcome == Fail(InvalidOperation) && Memory == [] && State() == old(State())
      ensures |old(Memory)| > 0 ==>
        outcome == Pass && Memory == old(Memory)[..|old(Memory)| - 1] &&
        State() == ApplyMove(Invert(old(Memory)[|old(Memory)| - 1]), old(State()))
    {
      outcome := Undo(1);
    }

    /**
     * Cube.Undo(moves): pops the top move and runs its inverse, without
     * remembering it, the given number of times; popping an empty stack
     * fails after everything before it was undone.
     */
    method Undo(moves: int) returns (outcome: Outcome)
      requires Valid()
      modifies this, Cubelets
      ensures Valid() && Size == old(Size)
      ensures var undone := UndoCount(moves, |old(Memory)|);
        Memory == old(Memory)[..|old(Memory)| - undone] &&
        State() == UndoAll(old(Memory)[|old(Memory)| - undone..], old(State()))
      ensures outcome == if moves > |old(Memory)| then Fail(InvalidOperation) else Pass
    {
      ghost var m0, s0 := Memory, State();
      outcome := PopMoves(moves);
      Undone(m0, UndoCount(moves, |m0|), Origin, s0, State());
    }

    /** The loop of Cube.Undo(moves), proved against the history: it keeps the invariant. */
    method PopMoves(moves: int) returns (outcome: Outcome)
      requires Valid()
      modifies this, Cubelets
      ensures Valid() && Size == old(Size) && Origin == old(Origin)
      ensures Memory == old(Memory)[..|old(Memory)| - UndoCount(moves, |old(Memory)|)]
      ensures outcome == if moves > |old(Memory)| then Fail(InvalidOperation) else Pass
    {
      ghost var m0 := Memory;
      var i := 0;
      while i < moves
        invariant 0 <= i <= |m0| && i <= (if moves <= 0 then 0 else moves)
        invariant Valid() && Size == old(Size) && Cubelets == old(Cubelets) && Origin == old(Origin)
        invariant Memory == m0[..|m0| - i]
      {
        if |Memory| == 0 {
          assert i == UndoCount(moves, |m0|) && moves > |m0|;
          return Fail(InvalidOperation);
        }
        ghost var before := Memory;
        UndoOne();
        PopPrefix(m0, i, before, Memory);
        i := i + 1;
      }
      assert i == UndoCount(moves, |m0|) && moves <= |m0|;
      return Pass;
    }
  }
}
