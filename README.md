# Rubik move engine

This is a Dafny model of the move engine of the Rubik cube program (the `Rubik.Model`
namespace). It covers the following parts:

- **`Move`:** a turn of one face's layers, given by a face, a layer selector, a
  quarter-turn count and a direction. The model covers its normalising constructor and
  the 54 named factories. It also covers the `Invert`, `TimesTwo`, `Double` and `All`
  transforms, the notation table, `TryParse`/`Parse` and `ToString`.
- **`Cubelet`:** a mutable record holding a position and a face-to-colour dictionary.
- **The layer filters of `Extensions`.**
- **`Cube`:**
  - The constructor builds the surface shell of an n×n×n cube, painted in the six home
    colours.
  - `PerformMove` selects a ring of cubelets with `GetMoveParameters`. It then cycles
    each ring cubelet's colours around the turn axis and rotates its position.
  - `Run` parses a white-space-separated move sequence and performs it, remembering the
    moves on a stack.
  - `Undo` pops moves and performs their inverses.
  - `Solved` checks every face against the colour of its centre cubelet.

`Cube` and `Cubelet` are classes whose methods update fields in place. Their methods are
proved against a value-level specification:

- `CubeletValue` is a snapshot of one cubelet.
- `Rotation.ApplyMove` gives the effect of one move on the snapshots.
- `History.ApplyAll` and `History.UndoAll` give the effect of move lists.
- `Solving.Solved` gives the answer of the `Solved` property.

The class invariant `Cube.Valid` states that the cubelets are the freshly built cube
with the remembered moves applied, in order. On the specification the model proves:

- a move and its inverse cancel;
- a quarter turn has order four;
- moves keep the cubelets on the shell, one per position, so a cube of size n always
  has n³ − (n − 2)³ cubelets (one for n = 1);
- undoing the top k remembered moves restores the earlier state;
- the notation table is exactly the grammar of the notation;
- parsing and printing are inverse on the printable moves;
- `Solved` answers whether every face is one colour, on odd sizes, and fails on even
  sizes;
- whole-cube turns keep `Solved`.

Positions are kept in doubled integer coordinates (twice the program's coordinate). A
cube of size n then has coordinates -(n-1), -(n-3), …, n-1, and the half-integer
coordinates of even sizes are exact. The program's layer selectors are coordinate
literals: `Layer1` holds 1.0, `Layer0` holds 0.0 and `DoubleLayer` holds both. The model
keeps them literal: a single-layer face turn selects the cubelets whose coordinate along
the face's axis is exactly 1.0. That is the outer layer only on a 3×3×3 cube
(`Shell.FaceTurnIsOuterLayerOnlyForSizeThree`). On an even size no coordinate is 0 or
1.0, so only whole-cube turns move anything (`Shell.EvenSizeOnlyWholeCubeTurnsMove`).
The name `Layer1` suggests the outer layer, but the code selects the literal coordinate
1.0, and so does the model.

The exceptions the core raises become `Err`/`Fail` values:

- `ArgumentNullException` from `Run(null)`.
- `ArgumentOutOfRangeException` from `Parse`.
- `InvalidOperationException` from `Single` on a missing centre and from popping an
  empty move stack.

## Model

| member | source | states |
|---|---|---|
| Moves.ReducedTimes | Model/Move.cs:19 | the normalised count lies in -1..2 and is congruent to the requested count modulo 4 (C#'s truncating % modelled by Remainder4) |
| Moves.Remainder4 | Model/Move.cs:19 | C#'s truncating remainder: congruent to a modulo 4, in 0..3 for a ≥ 0 and in -3..0 for a < 0 |
| Moves.NewMove | Model/Move.cs:13-31 | the constructor keeps face and layers, its signed quarter turns equal the requested ones modulo 4, and it flips the direction only when the count was reduced to -1 |
| Moves.NewMovePeriodic | Model/Move.cs:17-31 | turn counts that differ by a multiple of four build the same move |
| Moves.FaceTurn | Model/Move.cs:170-258 | Front(), Up(), Right(), Back(), Down(), Left() are one uninverted quarter turn of the Layer1 selector |
| Moves.FrontHalfTurn | Model/Move.cs:175-178 | Front2() is an uninverted half turn of Layer1 built by the constructor |
| Moves.SliceTurn | Model/Move.cs:260-303 | M(), E(), S() are one uninverted quarter turn of Layer0 about the Left, Down and Front axes |
| Moves.Invert | Model/Move.cs:440-447 | Invert flips only the direction, negating the signed quarter-turn count |
| Moves.InvertInvolutive | Model/Move.cs:440-447 | inverting twice gives the move back |
| Moves.TimesTwo | Model/Move.cs:449-453 | TimesTwo sets the count to 2 and keeps face, layers and direction |
| Moves.Double | Model/Move.cs:455-459 | Double selects DoubleLayer and keeps face, count and direction |
| Moves.All | Model/Move.cs:461-465 | All selects AllLayers and keeps face, count and direction |
| Moves.DictionaryIsNotation | Model/Move.cs:85-141 | the 54-entry table maps exactly the tokens letter+suffix of the notation grammar, each to the move the grammar gives it, and nothing else |
| Moves.DictionaryOnOtherLengths | Model/Move.cs:85-141 | no token of the table is empty or longer than two characters |
| Moves.TryParse | Model/Move.cs:148-168 | null fails, and otherwise the result is the grammar's move for the trimmed string, or nothing |
| Moves.Parse | Model/Move.cs:68-74 | Parse succeeds exactly when TryParse finds a move and returns it, and otherwise throws ArgumentOutOfRangeException |
| Moves.TryParseOfToken | Model/Move.cs:148-168 | a string without white space is looked up unchanged |
| Moves.ParseRejectsLongStrings | Model/Move.cs:68-74 | a string of more than two non-white-space characters is rejected with ArgumentOutOfRangeException |
| Moves.ToString | Model/Move.cs:58-66 | the printed form has one to three characters |
| Moves.DenotationOfToString | Model/Move.cs:58-66 | the printed form of a face or wide quarter turn or uninverted half turn is a grammar token that denotes that move |
| Moves.ParseToString | Model/Move.cs:58-66 | parsing the printed form of such a move gives the move back |
| Moves.ToStringParse | Model/Move.cs:58-66 | printing a parsed face or wide token (U D F B L R u d f b l r with any suffix) gives the token back |
| Moves.ToStringOfDenotation | Model/Move.cs:58-66 | a face or wide token's move prints as the token |
| Moves.ToStringForgetsLayers | Model/Move.cs:58-66 | printing does not show Layer0 or AllLayers: M prints as L and X as R |
| Text.Trim | Model/Move.cs:156 | the trimmed string starts and ends with non-white-space and is the input itself when the input has no white space |
| Text.TrimIsInfix | Model/Move.cs:156 | the trimmed string is the input with only white space removed at each end |
| Text.Split | Model/Cube.cs:135 | Split() cuts at every white-space character: one more piece than white-space characters, no piece with white space, and the pieces together are the input without its white space |
| Text.SplitJoins | Model/Cube.cs:135 | the pieces of Split(), joined in order by the input's own white-space characters (one between each two consecutive pieces), give the input back |
| Text.NonEmpty | Model/Cube.cs:136 | the filter keeps only non-empty pieces, every non-empty piece, and changes no text |
| Text.Tokens | Model/Cube.cs:135-137 | the tokens of a sequence are non-empty, hold no white space, and together are the sequence without its white space |
| Text.SplitUnique | Model/Cube.cs:135 | any cut of a string into white-space-free pieces that, joined by white-space characters, give the string back is the one Split() makes: the cut points and the order of the pieces are determined |
| Text.SplitAtSeparator | Model/Cube.cs:135 | splitting a + c + b at a white-space c gives the pieces of a followed by the pieces of b |
| Text.NonEmptyOne | Model/Cube.cs:136 | the filter keeps a single piece exactly when it is non-empty |
| Text.NonEmptyAppend | Model/Cube.cs:136 | the filter keeps the order of the pieces: filtering a + b is filtering a followed by filtering b |
| Text.TokensOfWord | Model/Cube.cs:135-137 | a non-empty string without white space is exactly one token, itself |
| Text.TokensAtSeparator | Model/Cube.cs:135-137 | a white-space character separates tokens: the tokens of a + c + b are those of a followed by those of b, in order |
| Vocabulary.HomeColorsDistinct | Model/Cube.cs:293-304 | the six faces are painted six different colours |
| Geometry.QuarterTurnIsAxisAngleRotation | Model/Cube.cs:209-212 | the exact quarter turn is the rotation by ±90 degrees about the face's axis: a×v + (a·v)a, with the cross product negated when inverted |
| Geometry.AxisCoordinateIsProjection | Model/Cube.cs:224-254 | the coordinate each face's filter reads (negated for Down, Back, Left) is the projection onto the face's axis vector |
| Geometry.RotateUndone | Model/Cube.cs:209-212 | rotating by a number of quarter turns and back the same number restores the position |
| Geometry.RotateFullTurns | Model/Cube.cs:209-212 | a multiple of four quarter turns restores the position |
| Geometry.RotateAdds | Model/Cube.cs:209-212 | rotations about one axis in one direction compose by adding their counts |
| Geometry.RotateKeepsAxisCoordinate | Model/Cube.cs:209-212 | a rotation keeps the coordinate along its own axis, so a turned layer stays that layer |
| Geometry.RotateKeepsShell | Model/Cube.cs:209-212 | a rotated position on the surface shell stays on it |
| Cubelets.Cubelet.constructor | Model/Cubelet.cs:12-23 | a new cubelet has all six faces as keys, every one None |
| Rotation.RotationSequence | Model/Cube.cs:221-257 | each face's colour cycle lists four different faces: exactly those other than the face and its opposite |
| Rotation.ShiftOnce | Model/Cube.cs:192-207 | one pass moves to each cycle face the colour of the next face (previous when inverted) and keeps the other two faces |
| Rotation.ShiftPass | Model/Cube.cs:192-207 | the in-place pass with its saved first colour computes ShiftOnce |
| Rotation.ShiftColors | Model/Cube.cs:191-207 | the repeated pass computes ShiftTimes |
| Rotation.ShiftOnceUndone | Model/Cube.cs:192-207 | a pass in one direction and a pass in the other restore the colours |
| Rotation.ShiftTimesUndone | Model/Cube.cs:191-207 | k passes one way and k the other restore the colours |
| Rotation.ShiftOrderFour | Model/Cube.cs:191-207 | four passes restore the colours |
| Rotation.ShiftTimesKeepsKeys | Model/Cube.cs:191-207 | the passes keep the dictionary's keys and the colours of the face and its opposite |
| Rotation.ShiftTimesKeepsTally | Model/Cube.cs:191-207 | the passes permute the colours: every colour shows on as many faces as before |
| Rotation.ShiftFollowsQuarterTurn | Model/Cube.cs:186-213 | after one pass, face d shows the colour of the face that the position rotation carries onto d, so colours turn with the cubelet |
| Rotation.Turn | Model/Cube.cs:186-213 | turning a cubelet keeps all six faces as keys |
| Rotation.TurnKeeps | Model/Cube.cs:186-213 | a turn keeps the colour multiset, the layer along the axis and the colours on the axis faces |
| Rotation.ApplyMove | Model/Cube.cs:175-214 | a move changes only the cubelets of its ring and keeps the count of cubelets |
| Rotation.ApplyMoveKeeps | Model/Cube.cs:175-214 | after a move every cubelet is in the same layer along the axis, shows the same colours on the axis faces and the same colour multiset |
| Rotation.InRingAfterTurn | Model/Cube.cs:216-264 | a turned cubelet stays in the ring, and a move and its inverse select the same ring |
| Rotation.TurnUndone | Model/Cube.cs:186-213 | the inverse move's turn restores a cubelet |
| Rotation.ApplyMoveUndone | Model/Cube.cs:175-214 | performing a move and then its inverse restores every cubelet |
| Rotation.TurnOrderFour | Model/Cube.cs:186-213 | four quarter turns restore a cubelet |
| Rotation.ApplyMoveOrderFour | Model/Cube.cs:175-214 | performing a quarter turn four times restores the cube |
| Rotation.ApplyMoveHalf | Model/Cube.cs:175-214 | a half turn is the quarter turn performed twice |
| Rotation.ApplyMoveNone | Model/Cube.cs:175-214 | a move of count 0 changes nothing |
| Shell.ApplyMoveKeepsShell | Model/Cube.cs:175-214 | a move keeps the cubelets on the surface shell, one per position, with none missing |
| Shell.ApplyMoveKeepsDistinct | Model/Cube.cs:175-214 | a move keeps the positions distinct |
| Shell.ApplyMoveKeepsComplete | Model/Cube.cs:175-214 | after a move every shell position is still occupied |
| Shell.FaceTurnIsOuterLayerOnlyForSizeThree | Model/Move.cs:467-470 | the Layer1 selector picks exactly the outer layer of the face on every shell position iff the size is 3 |
| Shell.EvenSizeOnlyWholeCubeTurnsMove | Model/Cube.cs:216-264 | on an even-sized cube every move other than a whole-cube turn changes nothing |
| Shell.InitialColors | Model/Cube.cs:293-304 | a built cubelet has all six faces, coloured exactly on the faces where its coordinate is extreme |
| Shell.InitialColorsByFace | Model/Cube.cs:293-304 | the six conditional assignments (Left orange … Up white) give InitialColors |
| ShellSize.ShellStateSize | Model/Cube.cs:276-307 | a state on the shell of a size-n cube, one cubelet per position, has exactly n³ − (n − 2)³ cubelets (n³ for n = 1), the number InitializeCubelets creates |
| ShellSize.ShellPositions | Model/Cube.cs:282-287 | the grid points the construction loops keep (some coordinate at ±(n − 1)) number n³ − (n − 2)³ |
| ShellSize.ShellIsBoxWithoutInside | Model/Cube.cs:282-287 | a point is on the shell iff it is on the n-point grid cube and not on the (n − 2)-point grid cube inside it |
| ShellSize.GridSize | Model/Cube.cs:282-284 | the coordinate loop from -(n − 1) to n − 1 in steps of 2 (doubled) visits n coordinates |
| ShellSize.BoxSize | Model/Cube.cs:284-286 | the triple loop over three coordinate sets visits the product of their sizes of points |
| Extensions.Where | Model/Extensions.cs:11-39 | the filter keeps, in order, exactly the cubelets whose coordinate along the face's axis is the layer |
| Extensions.WhereAppend | Model/Extensions.cs:11-39 | filtering distributes over concatenation, so it keeps the order |
| Extensions.WhereOpposite | Model/Extensions.cs:11-39 | the filter of the opposite face is the filter of the negated layer |
| Extensions.FrontFace | Model/Extensions.cs:11-14 | keeps, in order, exactly the cubelets with Y equal to the layer |
| Extensions.UpFace | Model/Extensions.cs:16-19 | keeps, in order, exactly the cubelets with Z equal to the layer |
| Extensions.RightFace | Model/Extensions.cs:21-24 | keeps, in order, exactly the cubelets with X equal to the layer |
| Extensions.BackFace | Model/Extensions.cs:26-29 | keeps, in order, exactly the cubelets with Y equal to the negated layer |
| Extensions.DownFace | Model/Extensions.cs:31-34 | keeps, in order, exactly the cubelets with Z equal to the negated layer |
| Extensions.LeftFace | Model/Extensions.cs:36-39 | keeps, in order, exactly the cubelets with X equal to the negated layer |
| Extensions.OppositeFaces | Model/Extensions.cs:26-39 | BackFace, DownFace, LeftFace are FrontFace, UpFace, RightFace of the negated layer |
| Solving.Single | Model/Cube.cs:116-121 | Single succeeds exactly when one cubelet sits at the point, and returns it; otherwise it throws InvalidOperationException |
| Solving.CentreUnique | Model/Cube.cs:116-121 | on an odd-sized shell each face's centre position holds exactly one cubelet |
| Solving.FaceSolvedOnShell | Model/Cube.cs:46-128 | on an odd-sized shell each face check returns whether every cubelet of the face's outer layer shows one colour on that face |
| Solving.SolvedFacesAnswer | Model/Cube.cs:35-42 | when no face check throws, the short-circuit conjunction answers whether all checks hold |
| Solving.SolvedOnShell | Model/Cube.cs:29-44 | on an odd-sized shell Solved answers whether all six faces are each one colour |
| Solving.EvenSizeSolvedFails | Model/Cube.cs:29-44 | on an even-sized cube Solved throws InvalidOperationException: there is no centre cubelet at coordinate n |
| Solving.FreshCubeSolved | Model/Cube.cs:276-307 | a freshly built odd-sized cube is solved |
| Solving.QuarterTurnUniform | Model/Cube.cs:175-214 | after a whole-cube quarter turn, face d is one colour iff the face the turn carried onto d was before |
| Solving.QuarterTurnKeepsAllUniform | Model/Cube.cs:29-44 | a whole-cube quarter turn keeps "every face is one colour" in both directions |
| Solving.WholeCubeTurnKeepsSolved | Model/Cube.cs:29-44 | a whole-cube turn (X, Y, Z with any suffix) does not change Solved's answer |
| History.ApplyAllAppend | Model/Cube.cs:159-167 | running a + b is running a, then b |
| History.UndoAllApplyAll | Model/Cube.cs:151-157 | undoing a whole move list from the top restores the state before it |
| History.UndoTop | Model/Cube.cs:151-157 | undoing the top k moves of a history gives the state after the first |ms| - k moves |
| History.ApplyAllKeepsShell | Model/Cube.cs:159-167 | any move list keeps the cubelets on the shell, one per position |
| History.Gather | Model/Cube.cs:139-141 | collecting parse results succeeds iff every token parsed, in token order, and otherwise reports an error of some token |
| History.ParseAll | Model/Cube.cs:139-141 | a successful parse has one move per token, and a failure is ArgumentOutOfRangeException |
| History.ParseAllMeans | Model/Cube.cs:139-141 | the token list parses iff every token parses, and then the k-th move is the k-th token's move |
| History.ParseAllPrinted | Model/Cube.cs:130-144 | the printed forms of printable moves parse back to the same moves |
| Building.BuildKeep | Model/Cube.cs:287-306 | a grid point on the shell, painted and appended, extends the built prefix by one step |
| Building.BuildSkip | Model/Cube.cs:287 | a grid point off the shell is skipped and the built prefix stays complete |
| Building.RowDone | Model/Cube.cs:286 | finishing the z loop leaves the prefix complete up to the next row |
| Building.SlabDone | Model/Cube.cs:285 | finishing the y loop leaves the prefix complete up to the next slab |
| Building.BuildDone | Model/Cube.cs:284-307 | when the x loop ends the built cubelets are the whole shell, one per position, with their initial colours |
| Cubes.Ring | Model/Cube.cs:224-263 | the ring holds exactly the cube's cubelets that the move's layer selector accepts, without repeats |
| Cubes.SolvedAnswer | Model/Cube.cs:29-44 | on any state reachable from a built cube, Solved is "every face one colour" for odd sizes and InvalidOperationException for even sizes |
| Cubes.FreshAnswer | Model/Cube.cs:11-15 | a built cube is on the shell with n³ − (n − 2)³ cubelets for n ≥ 1, solved for odd sizes, and Solved throws for even sizes |
| Cubes.Undone | Model/Cube.cs:151-157 | popping k moves of the history and undoing them leads to the state after the remaining ones |
| Cubes.Cube.constructor | Model/Cube.cs:11-15 | a new cube has an empty history and the freshly painted shell with n³ − (n − 2)³ cubelets for n ≥ 1 (from ShellSize.ShellStateSize), is solved for odd sizes, and Solved throws for even sizes |
| Cubes.Cube.InitializeMemory | Model/Cube.cs:271-274 | the history becomes empty and nothing else changes |
| Cubes.Cube.InitializeCubelets | Model/Cube.cs:276-308 | sets Size and builds the shell, one distinct cubelet per position, painted with its initial colours |
| Cubes.Cube.Paint | Model/Cube.cs:293-304 | painting an unpainted cubelet gives it InitialColors and keeps its position |
| Cubes.Cube.NewPainted | Model/Cube.cs:289-304 | a new cubelet at the position with its initial colours |
| Cubes.Cube.BuildCubelets | Model/Cube.cs:280-307 | the triple loop builds distinct cubelets whose snapshots are the freshly painted shell |
| Cubes.Cube.BuildSlab | Model/Cube.cs:285-307 | the y loop extends the complete prefix by one x slab |
| Cubes.Cube.BuildRow | Model/Cube.cs:286-307 | the z loop extends the complete prefix by one row |
| Cubes.Cube.BuildAt | Model/Cube.cs:287-306 | the loop body extends the complete prefix by one grid point |
| Cubes.Cube.Solved | Model/Cube.cs:29-44 | Solved is "every face is one colour" for odd sizes and throws InvalidOperationException for even sizes |
| Cubes.Cube.GetMoveParameters | Model/Cube.cs:216-264 | the ring is exactly the selected cubelets, without repeats, and the colour cycle is the move face's sequence of the four side faces |
| Cubes.Cube.PerformMove | Model/Cube.cs:175-214 | the cubelets' new snapshots are ApplyMove of the old ones |
| Cubes.Cube.TurnRing | Model/Cube.cs:186-213 | turning every ring cubelet in place gives ApplyMove on the snapshots |
| Cubes.Cube.TurnCubelet | Model/Cube.cs:188-212 | one ring cubelet's new snapshot is its Turn |
| Cubes.Cube.RunMove | Model/Cube.cs:161-166 | performs the move and pushes it only when remembering |
| Cubes.Cube.RunMoves | Model/Cube.cs:159-167 | the state becomes ApplyAll of the moves and the moves are pushed in order only when remembering |
| Cubes.Cube.ParseMoves | Model/Cube.cs:139-141 | the parse loop computes ParseAll of the tokens |
| Cubes.Cube.Run | Model/Cube.cs:130-144 | null throws ArgumentNullException and a bad token ArgumentOutOfRangeException, both before any move; otherwise all moves are performed and pushed in order |
| Cubes.Cube.RunRemembered | Model/Cube.cs:143 | performs the moves and pushes them, keeping the invariant |
| Cubes.Cube.UndoOne | Model/Cube.cs:155 | pops the top move and performs its inverse, keeping the invariant |
| Cubes.Cube.UndoLast | Model/Cube.cs:146-149 | Undo() undoes the top move, or throws InvalidOperationException on an empty history and changes nothing |
| Cubes.Cube.Undo | Model/Cube.cs:151-157 | pops min(moves, depth) moves, undoing them from the top, and throws InvalidOperationException iff more moves were asked for than remembered |
| Cubes.Cube.PopMoves | Model/Cube.cs:153-156 | the undo loop leaves the history's bottom part and fails iff the stack ran empty |

## Left out

- Floating-point positions and `Math.Round`: positions are exact doubled integers. A quarter turn of a grid point is exact, so the rounding in `PerformMove` is modelled as the identity.
- The WPF `Vector3D` axis out-parameter of `GetMoveParameters` is not returned. The rotation uses the face's axis directly (`Geometry.Axis`), and `Geometry.QuarterTurnIsAxisAngleRotation` ties it to the axis-angle formula.
- `Move` objects are mutable, and `Invert`, `TimesTwo`, `Double` and `All` change their argument and return it. Here moves are values, so aliasing between moves is not modelled. Every table entry builds a new move, so the core never shares one.
- The public setter of `Move.Inverted` is not modelled apart from `Invert`.
- A null `Move` (the `ArgumentNullException` of `Invert`) cannot be represented. A null sequence passed to `Run` is modelled with `Option`.
- The layer collections are compared by reference in the program. Here they are four tags with their coordinate sets.
- The lazily cached dictionary is a pure function of the token.
- `Faces.None` and the `default` branch of `GetMoveParameters`, which throws: the face type has only the six faces, so that branch cannot be reached.
- Moves.NewMove: does not model 32-bit overflow of `times + 1`, because the core only ever passes the counts 1 and 2.
- `Stack<Move>` is a sequence whose last element is the top. `Collection<Cubelet>` is a sequence of cubelet references that no operation resizes after construction. The ring array is a sequence.
- `Cube.Run(string)` splits into `ParseMoves` (the parse loop) and `RunRemembered`. `Undo(int)` splits into `PopMoves` (its loop) and `UndoOne` (one iteration). The construction loops split into `BuildSlab`, `BuildRow` and `BuildAt`.
- The UI, the view models and the unit tests of the repository are not part of this model.
