/**
 * Move values, their normalisation, the factory and transform functions,
 * the 54-token notation table, parsing and printing (Model/Move.cs).
 */
module Moves {
  import opened Vocabulary
  import opened Wrappers
  import Text

  /**
   * The four shared layer-selector collections. The program compares them
   * by reference; here they are four distinct tags.
   */
  datatype Layers = AllLayers | Layer0 | Layer1 | DoubleLayer

  /**
   * The layer coordinates each collection holds, in doubled units:
   * Layer0 holds 0.0, Layer1 holds 1.0, DoubleLayer holds 1.0 and 0.0, and
   * AllLayers holds nothing (it is recognised by identity instead).
   */
  function LayerCoordinates(l: Layers): set<int>
  {
    match l
    case AllLayers => {}
    case Layer0 => {0}
    case Layer1 => {2}
    case DoubleLayer => {2, 0}
  }

  /** The normalised turn count: a move turns by 0, 1 or 2 quarter turns. */
  type TurnCount = t: int | 0 <= t <= 2

  /** A move: the face whose axis it turns about, the layers, the count and the direction. */
  datatype Move = Move(face: Face, whichLayers: Layers, times: TurnCount, inverted: bool)

  /** The signed number of quarter turns a move performs. */
  function NetQuarterTurns(m: Move): int
  {
    if m.inverted then -(m.times as int) else m.times
  }

  /** C#'s a % 4 on int, which truncates toward zero. */
  function Remainder4(a: int): (r: int)
    ensures (a - r) % 4 == 0
    ensures a >= 0 ==> 0 <= r < 4
    ensures a < 0 ==> -4 < r <= 0
  {
    if a >= 0 then a % 4 else -((-a) % 4)
  }

  /**
   * ((times + 1) % 4 + 4) % 4 - 1: the representative of times modulo 4 in
   * the window -1, 0, 1, 2.
   */
  function ReducedTimes(times: int): (r: int)
    ensures -1 <= r <= 2
    ensures (r - times) % 4 == 0
  {
    Remainder4(Remainder4(times + 1) + 4) - 1
  }

  /** Two numbers of the window -1..2 that are congruent modulo 4 are equal. */
  lemma CongruentInWindow(a: int, b: int)
    requires -1 <= a <= 2 && -1 <= b <= 2
    requires (a - b) % 4 == 0
    ensures a == b
  {
  }

  /**
   * The private constructor: it folds any turn count into a count of 0, 1
   * or 2 with a direction, so that the signed number of quarter turns is
   * the requested one modulo 4; only a reduced count of -1 flips the
   * direction.
   */
  function NewMove(face: Face, whichLayers: Layers, times: int, inverted: bool): (m: Move)
    ensures m.face == face && m.whichLayers == whichLayers
    ensures (NetQuarterTurns(m) - (if inverted then -times else times)) % 4 == 0
    ensures m.times != 1 ==> m.inverted == inverted
  {
    var t := ReducedTimes(times);
    if t < 0 then Move(face, whichLayers, -t, !inverted) else Move(face, whichLayers, t, inverted)
  }

  /** Turn counts that differ by a multiple of four build the same move. */
  lemma NewMovePeriodic(face: Face, whichLayers: Layers, times: int, k: int, inverted: bool)
    ensures NewMove(face, whichLayers, times + 4 * k, inverted) == NewMove(face, whichLayers, times, inverted)
  {
    var r1 := ReducedTimes(times + 4 * k);
    var r2 := ReducedTimes(times);
    var q1 := (r1 - (times + 4 * k)) / 4;
    var q2 := (r2 - times) / 4;
    assert r1 - (times + 4 * k) == 4 * q1;
    assert r2 - times == 4 * q2;
    assert r1 - r2 == 4 * (q1 - q2 + k);
    CongruentInWindow(r1, r2);
  }

  /** Front(), Up(), Right(), Back(), Down(), Left(): one outer-layer quarter turn. */
  function FaceTurn(f: Face): (m: Move)
    ensures m == Move(f, Layer1, 1, false)
  {
    NewMove(f, Layer1, 1, false)
  }

  /** Front2(): the one half turn built by the constructor rather than by TimesTwo. */
  function FrontHalfTurn(): (m: Move)
    ensures m == Move(Front, Layer1, 2, false)
  {
    NewMove(Front, Layer1, 2, false)
  }

  /** M(), E(), S(): a quarter turn of the middle slice about the Left, Down or Front axis. */
  function SliceTurn(f: Face): (m: Move)
    ensures m == Move(f, Layer0, 1, false)
  {
    NewMove(f, Layer0, 1, false)
  }

  /** Invert: the same move in the opposite direction. */
  function Invert(m: Move): (r: Move)
    ensures r.face == m.face && r.whichLayers == m.whichLayers && r.times == m.times
    ensures r.inverted != m.inverted
    ensures NetQuarterTurns(r) == -NetQuarterTurns(m)
  {
    m.(inverted := !m.inverted)
  }

  lemma InvertInvolutive(m: Move)
    ensures Invert(Invert(m)) == m
  {
  }

  /** TimesTwo: the same move as a half turn. */
  function TimesTwo(m: Move): (r: Move)
    ensures r.face == m.face && r.whichLayers == m.whichLayers && r.inverted == m.inverted
    ensures r.times == 2
  {
    m.(times := 2)
  }

  /** Double: the same move on the outer and the middle layer together. */
  function Double(m: Move): (r: Move)
    ensures r.face == m.face && r.times == m.times && r.inverted == m.inverted
    ensures r.whichLayers == DoubleLayer
  {
    m.(whichLayers := DoubleLayer)
  }

  /** All: the same move applied to every layer, a whole-cube turn. */
  function All(m: Move): (r: Move)
    ensures r.face == m.face && r.times == m.times && r.inverted == m.inverted
    ensures r.whichLayers == AllLayers
  {
    m.(whichLayers := AllLayers)
  }

  /**
   * The notation table (MovesDictionary.TryGetValue): each of the 54 tokens
   * with the move its factory builds, and None for every other string.
   */
  function MovesDictionary(token: string): Option<Move>
  {
    match token
    case "F" => Some(FaceTurn(Front))
    case "F2" => Some(FrontHalfTurn())
    case "F'" => Some(Invert(FaceTurn(Front)))
    case "U" => Some(FaceTurn(Up))
    case "U2" => Some(TimesTwo(FaceTurn(Up)))
    case "U'" => Some(Invert(FaceTurn(Up)))
    case "R" => Some(FaceTurn(Right))
    case "R2" => Some(TimesTwo(FaceTurn(Right)))
    case "R'" => Some(Invert(FaceTurn(Right)))
    case "B" => Some(FaceTurn(Back))
    case "B2" => Some(TimesTwo(FaceTurn(Back)))
    case "B'" => Some(Invert(FaceTurn(Back)))
    case "D" => Some(FaceTurn(Down))
    case "D2" => Some(TimesTwo(FaceTurn(Down)))
    case "D'" => Some(Invert(FaceTurn(Down)))
    case "L" => Some(FaceTurn(Left))
    case "L2" => Some(TimesTwo(FaceTurn(Left)))
    case "L'" => Some(Invert(FaceTurn(Left)))
    case "M" => Some(SliceTurn(Left))
    case "M2" => Some(TimesTwo(SliceTurn(Left)))
    case "M'" => Some(Invert(SliceTurn(Left)))
    case "E" => Some(SliceTurn(Down))
    case "E2" => Some(TimesTwo(SliceTurn(Down)))
    case "E'" => Some(Invert(SliceTurn(Down)))
    case "S" => Some(SliceTurn(Front))
    case "S2" => Some(TimesTwo(SliceTurn(Front)))
    case "S'" => Some(Invert(SliceTurn(Front)))
    case "f" => Some(Double(FaceTurn(Front)))
    case "f2" => Some(TimesTwo(Double(FaceTurn(Front))))
    case "f'" => Some(Invert(Double(FaceTurn(Front))))
    case "u" => Some(Double(FaceTurn(Up)))
    case "u2" => Some(TimesTwo(Double(FaceTurn(Up))))
    case "u'" => Some(Invert(Double(FaceTurn(Up))))
    case "r" => Some(Double(FaceTurn(Right)))
    case "r2" => Some(TimesTwo(Double(FaceTurn(Right))))
    case "r'" => Some(Invert(Double(FaceTurn(Right))))
    case "b" => Some(Double(FaceTurn(Back)))
    case "b2" => Some(TimesTwo(Double(FaceTurn(Back))))
    case "b'" => Some(Invert(Double(FaceTurn(Back))))
    case "d" => Some(Double(FaceTurn(Down)))
    case "d2" => Some(TimesTwo(Double(FaceTurn(Down))))
    case "d'" => Some(Invert(Double(FaceTurn(Down))))
    case "l" => Some(Double(FaceTurn(Left)))
    case "l2" => Some(TimesTwo(Double(FaceTurn(Left))))
    case "l'" => Some(Invert(Double(FaceTurn(Left))))
    case "X" => Some(All(FaceTurn(Right)))
    case "X2" => Some(TimesTwo(All(FaceTurn(Right))))
    case "X'" => Some(Invert(All(FaceTurn(Right))))
    case "Y" => Some(All(FaceTurn(Up)))
    case "Y2" => Some(TimesTwo(All(FaceTurn(Up))))
    case "Y'" => Some(Invert(All(FaceTurn(Up))))
    case "Z" => Some(All(FaceTurn(Front)))
    case "Z2" => Some(TimesTwo(All(FaceTurn(Front))))
    case "Z'" => Some(Invert(All(FaceTurn(Front))))
    case _ => Option.None
  }

  /**
   * The notation grammar's letters: U D F B L R turn one outer layer,
   * u d f b l r the outer and middle layers, M E S the middle slice about
   * the Left, Down and Front axes, X Y Z the whole cube about the Right, Up
   * and Front axes.
   */
  function LetterMeaning(c: char): Option<(Face, Layers)>
  {
    match c
    case 'U' => Some((Up, Layer1))
    case 'D' => Some((Down, Layer1))
    case 'F' => Some((Front, Layer1))
    case 'B' => Some((Back, Layer1))
    case 'L' => Some((Left, Layer1))
    case 'R' => Some((Right, Layer1))
    case 'u' => Some((Up, DoubleLayer))
    case 'd' => Some((Down, DoubleLayer))
    case 'f' => Some((Front, DoubleLayer))
    case 'b' => Some((Back, DoubleLayer))
    case 'l' => Some((Left, DoubleLayer))
    case 'r' => Some((Right, DoubleLayer))
    case 'M' => Some((Left, Layer0))
    case 'E' => Some((Down, Layer0))
    case 'S' => Some((Front, Layer0))
    case 'X' => Some((Right, AllLayers))
    case 'Y' => Some((Up, AllLayers))
    case 'Z' => Some((Front, AllLayers))
    case _ => Option.None
  }

  /** The grammar's suffixes: none is a quarter turn, 2 a half turn, ' an inverted quarter turn. */
  function SuffixMeaning(s: string): Option<(TurnCount, bool)>
  {
    if s == "" then Some((1, false))
    else if s == "2" then Some((2, false))
    else if s == "'" then Some((1, true))
    else Option.None
  }

  /** The move a token denotes under the notation grammar, if any. */
  function Denotation(token: string): Option<Move>
  {
    if |token| == 0 then Option.None
    else
      match (LetterMeaning(token[0]), SuffixMeaning(token[1..]))
      case (Some((f, l)), Some((t, inv))) => Some(Move(f, l, t, inv))
      case _ => Option.None
  }

  /** The table on one-character strings that start with a letter of the grammar. */
  lemma DictionaryOnLetters(c: char)
    requires LetterMeaning(c).Some?
    ensures MovesDictionary([c]) == Denotation([c])
  {
    assert [c][1..] == "";
    match c
    case 'U' =>
    case 'D' =>
    case 'F' =>
    case 'B' =>
    case 'L' =>
    case 'R' =>
    case 'u' =>
    case 'd' =>
    case 'f' =>
    case 'b' =>
    case 'l' =>
    case 'r' =>
    case 'M' =>
    case 'E' =>
    case 'S' =>
    case 'X' =>
    case 'Y' =>
    case 'Z' =>
  }

  /** The table on a letter of the grammar followed by 2. */
  lemma DictionaryOnHalfTurns(c: char)
    requires LetterMeaning(c).Some?
    ensures MovesDictionary([c, '2']) == Denotation([c, '2'])
  {
    assert [c, '2'][1..] == "2";
    match c
    case 'U' =>
    case 'D' =>
    case 'F' =>
    case 'B' =>
    case 'L' =>
    case 'R' =>
    case 'u' =>
    case 'd' =>
    case 'f' =>
    case 'b' =>
    case 'l' =>
    case 'r' =>
    case 'M' =>
    case 'E' =>
    case 'S' =>
    case 'X' =>
    case 'Y' =>
    case 'Z' =>
  }

  /** The table on a letter of the grammar followed by an apostrophe. */
  lemma DictionaryOnInverted(c: char)
    requires LetterMeaning(c).Some?
    ensures MovesDictionary([c, '\'']) == Denotation([c, '\''])
  {
    assert [c, '\''][1..] == "'";
    match c
    case 'U' =>
    case 'D' =>
    case 'F' =>
    case 'B' =>
    case 'L' =>
    case 'R' =>
    case 'u' =>
    case 'd' =>
    case 'f' =>
    case 'b' =>
    case 'l' =>
    case 'r' =>
    case 'M' =>
    case 'E' =>
    case 'S' =>
    case 'X' =>
    case 'Y' =>
    case 'Z' =>
  }

  /** The table has no one- or two-character token that starts with a character outside the grammar. */
  lemma DictionaryOffLetters(token: string)
    requires 1 <= |token| <= 2 && LetterMeaning(token[0]).None?
    ensures MovesDictionary(token).None?
  {
  }

  /** The table on two-character strings. */
  lemma DictionaryOnSuffixed(c: char, d: char)
    ensures MovesDictionary([c, d]) == Denotation([c, d])
  {
    assert [c, d][1..] == [d];
    if LetterMeaning(c).None? {
      DictionaryOffLetters([c, d]);
    } else if d == '2' {
      DictionaryOnHalfTurns(c);
    } else if d == '\'' {
      DictionaryOnInverted(c);
    }
  }

  /**
   * The notation table holds exactly the tokens of the grammar, and each
   * token's factory builds the move the grammar gives it.
   */
  lemma DictionaryIsNotation(token: string)
    ensures MovesDictionary(token) == Denotation(token)
  {
    if |token| == 1 {
      assert token == [token[0]];
      if LetterMeaning(token[0]).None? {
        DictionaryOffLetters(token);
      } else {
        DictionaryOnLetters(token[0]);
      }
    } else if |token| == 2 {
      assert token == [token[0], token[1]];
      DictionaryOnSuffixed(token[0], token[1]);
    } else {
      DictionaryOnOtherLengths(token);
    }
  }

  /** Neither the table nor the grammar has a token that is empty or longer than two characters. */
  lemma DictionaryOnOtherLengths(token: string)
    requires |token| == 0 || |token| > 2
    ensures MovesDictionary(token).None? && Denotation(token).None?
  {
    if |token| > 2 {
      assert |token[1..]| > 1;
    }
  }

  /**
   * TryParse: null and the empty string fail; otherwise the trimmed token
   * is looked up in the table. The result is the move the grammar gives the
   * trimmed token, and nothing when it is not a token of the grammar.
   */
  function TryParse(move: Option<string>): (parsed: Option<Move>)
    ensures parsed == (if move.None? then Option.None else Denotation(Text.Trim(move.value)))
  {
    if move.None? || |move.value| == 0 then Option.None
    else
      var token := Text.Trim(move.value);
      DictionaryIsNotation(token);
      MovesDictionary(token)
  }

  /** Parse: the move TryParse finds, or ArgumentOutOfRangeException exactly when it finds none. */
  function Parse(move: Option<string>): (r: Result<Move>)
    ensures r.Err? <==> TryParse(move).None?
    ensures r.Err? ==> r.error == ArgumentOutOfRange
    ensures r.Ok? ==> TryParse(move) == Some(r.value)
  {
    match TryParse(move)
    case Some(m) => Ok(m)
    case None => Err(ArgumentOutOfRange)
  }

  /** A token without white space is looked up as it stands. */
  lemma TryParseOfToken(token: string)
    requires Text.NoWhiteSpace(token)
    ensures TryParse(Some(token)) == Denotation(token)
  {
  }

  /** No token of the grammar is longer than two characters. */
  lemma ParseRejectsLongStrings(s: string)
    requires Text.NoWhiteSpace(s) && |s| > 2
    ensures Parse(Some(s)) == Err(ArgumentOutOfRange)
  {
    TryParseOfToken(s);
    assert SuffixMeaning(s[1..]).None? by {
      assert |s[1..]| >= 2;
    }
  }

  /** The first letter of the face's name, Face.ToString()[0]. */
  function Initial(f: Face): char
  {
    match f
    case Up => 'U'
    case Front => 'F'
    case Right => 'R'
    case Down => 'D'
    case Back => 'B'
    case Left => 'L'
  }

  /** ToLowerInvariant on a capital Latin letter. */
  function ToLower(c: char): char
  {
    if 'A' <= c <= 'Z' then (c as int + 32) as char else c
  }

  /**
   * Move.ToString(): the face initial, in lower case for a double-layer
   * move, then an apostrophe when inverted, then 2 for a half turn.
   */
  function ToString(m: Move): (s: string)
    ensures 1 <= |s| <= 3
  {
    var initial := if m.whichLayers == DoubleLayer then ToLower(Initial(m.face)) else Initial(m.face);
    [initial] + (if m.inverted then "'" else "") + (if m.times == 2 then "2" else "")
  }

  /** The printed form of a face or wide turn the notation can express denotes that move. */
  lemma DenotationOfToString(m: Move)
    requires m.whichLayers == Layer1 || m.whichLayers == DoubleLayer
    requires m.times != 0 && !(m.inverted && m.times == 2)
    ensures Denotation(ToString(m)) == Some(m)
  {
    var s := ToString(m);
    assert LetterMeaning(s[0]) == Some((m.face, m.whichLayers)) by {
      match m.face
      case Up =>
      case Front =>
      case Right =>
      case Down =>
      case Back =>
      case Left =>
    }
    assert SuffixMeaning(s[1..]) == Some((m.times, m.inverted)) by {
      assert s[1..] == (if m.inverted then "'" else if m.times == 2 then "2" else "");
    }
  }

  /**
   * Parsing the printed form of a face or wide turn that the notation can
   * express (a quarter turn either way or an uninverted half turn) gives
   * the move back.
   */
  lemma ParseToString(m: Move)
    requires m.whichLayers == Layer1 || m.whichLayers == DoubleLayer
    requires m.times != 0 && !(m.inverted && m.times == 2)
    ensures TryParse(Some(ToString(m))) == Some(m)
  {
    var s := ToString(m);
    assert Text.NoWhiteSpace(s);
    TryParseOfToken(s);
    DenotationOfToString(m);
  }

  /** Printing a parsed face or wide token (U..L, u..l with any suffix) gives the token back. */
  lemma ToStringParse(token: string)
    requires Denotation(token).Some?
    requires token[0] in "UDFBLRudfblr"
    ensures TryParse(Some(token)).Some? && ToString(TryParse(Some(token)).value) == token
  {
    assert Text.NoWhiteSpace(token) by {
      assert token == [token[0]] + token[1..];
    }
    TryParseOfToken(token);
    ToStringOfDenotation(token);
  }

  /** A face or wide token prints as itself. */
  lemma ToStringOfDenotation(token: string)
    requires Denotation(token).Some?
    requires token[0] in "UDFBLRudfblr"
    ensures ToString(Denotation(token).value) == token
  {
    assert token == [token[0]] + token[1..];
  }

  /**
   * Printing does not show the layers of a slice or whole-cube move: M
   * prints as L and X as R, which parse back as the face turns.
   */
  lemma ToStringForgetsLayers(m: Move)
    ensures ToString(m.(whichLayers := Layer0)) == ToString(m.(whichLayers := Layer1))
    ensures ToString(m.(whichLayers := AllLayers)) == ToString(m.(whichLayers := Layer1))
  {
  }
}
