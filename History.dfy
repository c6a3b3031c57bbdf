/**
 * The cube's move history (the Memory stack of Model/Cube.cs) at the level
 * of values: running a list of moves, undoing the most recent ones, and
 * parsing a whitespace-separated move sequence.
 */
module History {
  import opened Wrappers
  import opened Moves
  import opened Cubelets
  import opened Rotation
  import opened Shell
  import Text
  import Sequences

  /** The cubelets after the moves, in order, starting from s. */
  function ApplyAll(ms: seq<Move>, s: seq<CubeletValue>): (r: seq<CubeletValue>)
    requires WellFormed(s)
    ensures |r| == |s| && WellFormed(r)
  {
    if |ms| == 0 then s else ApplyMove(ms[|ms| - 1], ApplyAll(ms[..|ms| - 1], s))
  }

  /** Popping the moves off the top of the stack (the end of ms) and running the inverse of each. */
  function UndoAll(ms: seq<Move>, s: seq<CubeletValue>): (r: seq<CubeletValue>)
    requires WellFormed(s)
    ensures |r| == |s| && WellFormed(r)
  {
    if |ms| == 0 then s else UndoAll(ms[..|ms| - 1], ApplyMove(Invert(ms[|ms| - 1]), s))
  }

  /** On the prefixes of one move list: u, the state after the next move, is the state after one more prefix move. */
  lemma ApplyAllPrefix(ms: seq<Move>, k: int, s: seq<CubeletValue>, t: seq<CubeletValue>, u: seq<CubeletValue>)
    requires 0 <= k < |ms| && WellFormed(s) && t == ApplyAll(ms[..k], s)
    requires WellFormed(t) && u == ApplyMove(ms[k], t)
    ensures u == ApplyAll(ms[..k + 1], s)
  {
    Sequences.TakeSnoc(ms, k);
    ApplyAllStep(ms[..k + 1], ms[..k], ms[k], s);
  }

  /** The last move of a list is made last. */
  lemma ApplyAllStep(p: seq<Move>, q: seq<Move>, m: Move, s: seq<CubeletValue>)
    requires p == q + [m] && WellFormed(s)
    ensures ApplyAll(p, s) == ApplyMove(m, ApplyAll(q, s))
  {
    assert p[..|p| - 1] == q;
  }

  /** Running a then b is running a + b. */
  lemma {:induction false} ApplyAllAppend(a: seq<Move>, b: seq<Move>, s: seq<CubeletValue>)
    requires WellFormed(s)
    ensures ApplyAll(a + b, s) == ApplyAll(b, ApplyAll(a, s))
  {
    if |b| == 0 {
      assert a + b == a;
    } else {
      assert (a + b)[..|a + b| - 1] == a + b[..|b| - 1];
      assert (a + b)[|a + b| - 1] == b[|b| - 1];
      ApplyAllAppend(a, b[..|b| - 1], s);
    }
  }

  /** Running the inverse of the top move returns to the state before it. */
  lemma UndoLastStep(ms: seq<Move>, s: seq<CubeletValue>, t: seq<CubeletValue>, u: seq<CubeletValue>)
    requires |ms| > 0 && WellFormed(s) && t == ApplyAll(ms, s)
    requires u == ApplyAll([Invert(ms[|ms| - 1])], t)
    ensures u == ApplyAll(ms[..|ms| - 1], s)
  {
    assert [Invert(ms[|ms| - 1])][..0] == [];
    ApplyMoveUndone(ms[|ms| - 1], ApplyAll(ms[..|ms| - 1], s));
  }

  /** Undoing a history restores the state it started from. */
  lemma {:induction false} UndoAllApplyAll(ms: seq<Move>, s: seq<CubeletValue>)
    requires WellFormed(s)
    ensures UndoAll(ms, ApplyAll(ms, s)) == s
  {
    if |ms| > 0 {
      var init, last := ms[..|ms| - 1], ms[|ms| - 1];
      ApplyMoveUndone(last, ApplyAll(init, s));
      UndoAllApplyAll(init, s);
    }
  }

  /** Undoing the top k moves of a history leaves the state after the others. */
  lemma {:induction false} UndoTop(ms: seq<Move>, k: nat, s: seq<CubeletValue>)
    requires WellFormed(s) && k <= |ms|
    ensures UndoAll(ms[|ms| - k..], ApplyAll(ms, s)) == ApplyAll(ms[..|ms| - k], s)
  {
    var rest, top := ms[..|ms| - k], ms[|ms| - k..];
    assert ms == rest + top;
    ApplyAllAppend(rest, top, s);
    UndoAllApplyAll(top, ApplyAll(rest, s));
  }

  /** Moves keep the cubelets on the shell, one per position. */
  lemma {:induction false} ApplyAllKeepsShell(ms: seq<Move>, s: seq<CubeletValue>, size: int)
    requires WellFormed(s) && IsShellState(s, size)
    ensures IsShellState(ApplyAll(ms, s), size)
  {
    if |ms| > 0 {
      ApplyAllKeepsShell(ms[..|ms| - 1], s, size);
      ApplyMoveKeepsShell(ms[|ms| - 1], ApplyAll(ms[..|ms| - 1], s), size);
    }
  }

  /** Move.Parse on each token. */
  function ParseEach(tokens: seq<string>): seq<Result<Move>>
  {
    seq(|tokens|, k requires 0 <= k < |tokens| => Parse(Some(tokens[k])))
  }

  /** The values when every result is Ok, otherwise the first error. */
  function Gather(rs: seq<Result<Move>>): (r: Result<seq<Move>>)
    ensures r.Ok? <==> forall k :: 0 <= k < |rs| ==> rs[k].Ok?
    ensures r.Ok? ==> |r.value| == |rs| && forall k :: 0 <= k < |rs| ==> rs[k] == Ok(r.value[k])
    ensures r.Err? ==> exists k :: 0 <= k < |rs| && rs[k] == Err(r.error)
  {
    if |rs| == 0 then Ok([])
    else
      assert forall k :: 1 <= k < |rs| ==> rs[1..][k - 1] == rs[k];
      match rs[0]
      case Err(e) => Err(e)
      case Ok(m) =>
        match Gather(rs[1..])
        case Err(e) => Err(e)
        case Ok(ms) => Ok([m] + ms)
  }

  /** Gathering one more Ok result appends its value. */
  lemma GatherExtend(rs: seq<Result<Move>>, i: int, ms: seq<Move>, m: Move)
    requires 0 <= i < |rs| && Gather(rs[..i]) == Ok(ms) && rs[i] == Ok(m)
    ensures Gather(rs[..i + 1]) == Ok(ms + [m])
  {
    var qs := rs[..i + 1];
    var want := ms + [m];
    assert forall k :: 0 <= k < |qs| ==> qs[k] == Ok(want[k]) by {
      forall k | 0 <= k < |qs|
        ensures qs[k] == Ok(want[k])
      {
        if k < i {
          assert qs[k] == rs[..i][k];
        }
      }
    }
    var r := Gather(qs);
    assert r.Ok?;
    assert |r.value| == |want|;
    forall k | 0 <= k < |qs|
      ensures r.value[k] == want[k]
    {
      assert qs[k] == Ok(r.value[k]);
    }
    assert r.value == want;
  }

  /**
   * Move.Parse on every token in order: the moves when every token is a
   * move, otherwise the error of the first token that is not.
   */
  function ParseAll(tokens: seq<string>): (r: Result<seq<Move>>)
    ensures r.Ok? ==> |r.value| == |tokens|
    ensures r.Err? ==> r.error == ArgumentOutOfRange
  {
    var rs := ParseEach(tokens);
    assert forall k :: 0 <= k < |tokens| ==> rs[k] == Parse(Some(tokens[k]));
    Gather(rs)
  }

  /**
   * ParseAll succeeds exactly when every token parses, and then the k-th
   * move is the k-th token parsed.
   */
  lemma ParseAllMeans(tokens: seq<string>)
    ensures ParseAll(tokens).Ok? <==> forall k :: 0 <= k < |tokens| ==> Parse(Some(tokens[k])).Ok?
    ensures ParseAll(tokens).Ok? ==>
      forall k :: 0 <= k < |tokens| ==> Parse(Some(tokens[k])) == Ok(ParseAll(tokens).value[k])
  {
    var rs := ParseEach(tokens);
    assert forall k :: 0 <= k < |tokens| ==> rs[k] == Parse(Some(tokens[k]));
    assert ParseAll(tokens) == Gather(rs);
  }

  /** Moves that can be printed: one or two layers, turned once or twice, not an inverted half turn. */
  predicate Printable(m: Move)
  {
    (m.whichLayers == Layer1 || m.whichLayers == DoubleLayer) && m.times != 0 && !(m.inverted && m.times == 2)
  }

  /** The printed form of each move. */
  function Printed(ms: seq<Move>): (r: seq<string>)
    ensures |r| == |ms|
    ensures forall k :: 0 <= k < |ms| ==> r[k] == ToString(ms[k])
  {
    seq(|ms|, k requires 0 <= k < |ms| => ToString(ms[k]))
  }

  /** Parsing the printed forms of printable moves gives the moves back. */
  lemma ParseAllPrinted(ms: seq<Move>)
    requires forall k :: 0 <= k < |ms| ==> Printable(ms[k])
    ensures ParseAll(Printed(ms)) == Ok(ms)
  {
    var tokens := Printed(ms);
    forall k | 0 <= k < |ms|
      ensures Parse(Some(tokens[k])) == Ok(ms[k])
    {
      ParseToString(ms[k]);
    }
    ParseAllMeans(tokens);
    var r := ParseAll(tokens);
    assert r.Ok?;
    assert |r.value| == |ms|;
    assert forall k :: 0 <= k < |ms| ==> r.value[k] == ms[k];
    assert r.value == ms;
  }
}
