/**
 * The .NET string services the notation relies on: char.IsWhiteSpace,
 * String.Trim() and String.Split() with no separator, which cuts at every
 * white-space character.
 */
module Text {
  import Sequences

  /**
   * char.IsWhiteSpace: the Unicode space, line and paragraph separators,
   * U+0009 to U+000D and U+0085.
   */
  predicate IsWhiteSpace(c: char)
  {
    c == ' ' || ('\t' <= c <= '\r') || c == '\U{0085}' || c == '\U{00A0}' || c == '\U{1680}' ||
    ('\U{2000}' <= c <= '\U{200A}') || c == '\U{2028}' || c == '\U{2029}' || c == '\U{202F}' ||
    c == '\U{205F}' || c == '\U{3000}'
  }

  predicate NoWhiteSpace(s: string)
  {
    forall k :: 0 <= k < |s| ==> !IsWhiteSpace(s[k])
  }

  predicate AllWhiteSpace(s: string)
  {
    forall k :: 0 <= k < |s| ==> IsWhiteSpace(s[k])
  }

  /** s with its leading white space removed. */
  function TrimStart(s: string): (r: string)
    ensures |r| <= |s| && r == s[|s| - |r|..]
    ensures AllWhiteSpace(s[..|s| - |r|])
    ensures r == [] || !IsWhiteSpace(r[0])
  {
    if |s| > 0 && IsWhiteSpace(s[0]) then TrimStart(s[1..]) else s
  }

  /** s with its trailing white space removed. */
  function TrimEnd(s: string): (r: string)
    ensures |r| <= |s| && r == s[..|r|]
    ensures AllWhiteSpace(s[|r|..])
    ensures r == [] || !IsWhiteSpace(r[|r| - 1])
  {
    if |s| > 0 && IsWhiteSpace(s[|s| - 1]) then TrimEnd(s[..|s| - 1]) else s
  }

  /**
   * String.Trim(): the part of s between its leading and its trailing white
   * space.
   */
  function Trim(s: string): (r: string)
    ensures |r| <= |s|
    ensures r == [] || (!IsWhiteSpace(r[0]) && !IsWhiteSpace(r[|r| - 1]))
    ensures NoWhiteSpace(s) ==> r == s
  {
    TrimKeepsWords(s);
    TrimEnd(TrimStart(s))
  }

  /** Trimming cuts only white space, at both ends: s is r with white space around it. */
  lemma TrimIsInfix(s: string, i: int, r: string)
    requires r == Trim(s) && i == |s| - |TrimStart(s)|
    ensures 0 <= i <= |s| - |r| && s[i..i + |r|] == r
    ensures AllWhiteSpace(s[..i]) && AllWhiteSpace(s[i + |r|..])
  {
    var t := TrimStart(s);
    assert s[i..] == t;
    assert s[i..i + |r|] == t[..|r|];
    assert s[i + |r|..] == t[|r|..];
  }

  /** A string without white space is its own trimming. */
  lemma TrimKeepsWords(s: string)
    ensures NoWhiteSpace(s) ==> TrimEnd(TrimStart(s)) == s
  {
    if NoWhiteSpace(s) && |s| > 0 {
      assert !IsWhiteSpace(s[0]);
      assert !IsWhiteSpace(s[|s| - 1]);
    }
  }

  /** The white-space characters of s, in order. */
  function Separators(s: string): string
  {
    if |s| == 0 then "" else (if IsWhiteSpace(s[0]) then [s[0]] else "") + Separators(s[1..])
  }

  /** s with every white-space character deleted. */
  function WithoutWhiteSpace(s: string): string
  {
    if |s| == 0 then "" else (if IsWhiteSpace(s[0]) then "" else [s[0]]) + WithoutWhiteSpace(s[1..])
  }

  /** The pieces joined together with nothing between them. */
  function Concat(pieces: seq<string>): string
  {
    if |pieces| == 0 then "" else pieces[0] + Concat(pieces[1..])
  }

  /** The pieces joined with the k-th separator between piece k and piece k + 1. */
  function JoinWith(pieces: seq<string>, seps: string): string
    requires |pieces| == |seps| + 1
  {
    if |seps| == 0 then pieces[0] else pieces[0] + [seps[0]] + JoinWith(pieces[1..], seps[1..])
  }

  /** Putting a character in front of the first piece puts it in front of the joined string. */
  lemma JoinWithCons(c: char, pieces: seq<string>, seps: string)
    requires |pieces| == |seps| + 1
    ensures JoinWith([[c] + pieces[0]] + pieces[1..], seps) == [c] + JoinWith(pieces, seps)
  {
    var q := [[c] + pieces[0]] + pieces[1..];
    assert q[1..] == pieces[1..];
  }

  /**
   * String.Split() with no separator: the pieces between white-space
   * characters, one more than there are white-space characters, so
   * adjacent separators give empty pieces.
   */
  function Split(s: string): (r: seq<string>)
    ensures |r| == |Separators(s)| + 1
    ensures forall k :: 0 <= k < |r| ==> NoWhiteSpace(r[k])
    ensures Concat(r) == WithoutWhiteSpace(s)
  {
    if |s| == 0 then [""]
    else
      var rest := Split(s[1..]);
      if IsWhiteSpace(s[0]) then
        assert Concat([""] + rest) == Concat(rest) by {
          assert ([""] + rest)[1..] == rest;
        }
        assert Separators(s) == [s[0]] + Separators(s[1..]);
        [""] + rest
      else
        var r := [[s[0]] + rest[0]] + rest[1..];
        assert Concat(r) == [s[0]] + Concat(rest) by {
          assert r[1..] == rest[1..];
        }
        assert Separators(s) == Separators(s[1..]);
        r
  }

  /**
   * The pieces of Split(), joined in order by the white-space characters
   * of s, one between each two consecutive pieces, give s back.
   */
  lemma {:induction false} SplitJoins(s: string)
    ensures AllWhiteSpace(Separators(s))
    ensures JoinWith(Split(s), Separators(s)) == s
  {
    if |s| > 0 {
      var rest := Split(s[1..]);
      var seps := Separators(s[1..]);
      SplitJoins(s[1..]);
      assert s == [s[0]] + s[1..];
      if IsWhiteSpace(s[0]) {
        assert Split(s) == [""] + rest;
        assert Separators(s) == [s[0]] + seps;
        assert ([""] + rest)[1..] == rest;
        assert ([s[0]] + seps)[1..] == seps;
      } else {
        assert Split(s) == [[s[0]] + rest[0]] + rest[1..];
        assert Separators(s) == seps;
        JoinWithCons(s[0], rest, seps);
      }
    }
  }

  /** A piece without white space splits into itself. */
  lemma {:induction false} SplitWord(w: string)
    requires NoWhiteSpace(w)
    ensures Split(w) == [w]
  {
    if |w| > 0 {
      SplitWord(w[1..]);
      assert w == [w[0]] + w[1..];
    }
  }

  /** A white-space character cuts a string into the pieces of its two sides. */
  lemma {:induction false} SplitAtSeparator(a: string, c: char, b: string)
    requires IsWhiteSpace(c)
    ensures Split(a + [c] + b) == Split(a) + Split(b)
  {
    if |a| == 0 {
      assert a + [c] + b == [c] + b;
      SplitCons(c, b);
    } else {
      var t := a[1..] + [c] + b;
      SplitAtSeparator(a[1..], c, b);
      SplitStep(a[0], t, Split(a[1..]), Split(b));
      SplitCons(a[0], a[1..]);
      Sequences.HeadTail(a, c, b);
    }
  }

  /** The step of SplitAtSeparator: one more character in front of the left side. */
  lemma SplitStep(x: char, t: string, left: seq<string>, right: seq<string>)
    requires |left| > 0 && Split(t) == left + right
    ensures Split([x] + t) ==
      (if IsWhiteSpace(x) then [""] + left else [[x] + left[0]] + left[1..]) + right
  {
    SplitCons(x, t);
    Sequences.ExtendFirst(Split(t), left, right, if IsWhiteSpace(x) then "" else [x]);
  }

  /** Split() of a string given by its first character and the rest. */
  lemma SplitCons(x: char, t: string)
    ensures Split([x] + t) ==
      if IsWhiteSpace(x) then [""] + Split(t) else [[x] + Split(t)[0]] + Split(t)[1..]
  {
    assert ([x] + t)[1..] == t;
  }

  /**
   * Split() is the only way to cut s into pieces without white space that,
   * joined by white-space characters, give s back.
   */
  lemma {:induction false} SplitUnique(s: string, pieces: seq<string>, seps: string)
    requires |pieces| == |seps| + 1 && AllWhiteSpace(seps)
    requires forall k :: 0 <= k < |pieces| ==> NoWhiteSpace(pieces[k])
    requires JoinWith(pieces, seps) == s
    ensures Split(s) == pieces
    decreases |seps|
  {
    SplitWord(pieces[0]);
    if |seps| > 0 {
      var tail := JoinWith(pieces[1..], seps[1..]);
      SplitUnique(tail, pieces[1..], seps[1..]);
      SplitAtSeparator(pieces[0], seps[0], tail);
      assert pieces == [pieces[0]] + pieces[1..];
    }
  }

  /** The non-empty pieces, in order (LINQ Where(x => !string.IsNullOrEmpty(x))). */
  function NonEmpty(pieces: seq<string>): (r: seq<string>)
    ensures |r| <= |pieces|
    ensures forall k :: 0 <= k < |r| ==> |r[k]| > 0 && r[k] in pieces
    ensures forall p :: p in pieces && |p| > 0 ==> p in r
    ensures Concat(r) == Concat(pieces)
  {
    if |pieces| == 0 then []
    else
      var rest := NonEmpty(pieces[1..]);
      assert pieces == [pieces[0]] + pieces[1..];
      assert forall p :: p in pieces[1..] ==> p in pieces;
      assert forall p :: p in pieces ==> p == pieces[0] || p in pieces[1..];
      assert Concat(pieces) == pieces[0] + Concat(pieces[1..]);
      if |pieces[0]| == 0 then
        assert pieces[0] + Concat(pieces[1..]) == Concat(pieces[1..]);
        rest
      else
        assert ([pieces[0]] + rest)[1..] == rest;
        [pieces[0]] + rest
  }

  /** The filter keeps a single piece exactly when it is non-empty. */
  lemma NonEmptyOne(p: string)
    ensures NonEmpty([p]) == if |p| > 0 then [p] else []
  {
    assert [p][1..] == [];
  }

  /** The filter keeps the order: it distributes over concatenation. */
  lemma {:induction false} NonEmptyAppend(a: seq<string>, b: seq<string>)
    ensures NonEmpty(a + b) == NonEmpty(a) + NonEmpty(b)
  {
    if |a| == 0 {
      assert a + b == b;
    } else {
      assert (a + b)[1..] == a[1..] + b;
      assert (a + b)[0] == a[0];
      NonEmptyAppend(a[1..], b);
    }
  }

  /**
   * The tokens of a move sequence: the non-empty pieces of Split(). Each is
   * non-empty and free of white space, and together they spell the sequence
   * without its white space.
   */
  function Tokens(s: string): (r: seq<string>)
    ensures forall k :: 0 <= k < |r| ==> |r[k]| > 0 && NoWhiteSpace(r[k])
    ensures Concat(r) == WithoutWhiteSpace(s)
  {
    NonEmpty(Split(s))
  }

  /** A non-empty word without white space is one token. */
  lemma TokensOfWord(w: string)
    requires NoWhiteSpace(w) && |w| > 0
    ensures Tokens(w) == [w]
  {
    SplitWord(w);
    NonEmptyOne(w);
  }

  /** A white-space character separates the tokens of its two sides, which keep their order. */
  lemma TokensAtSeparator(a: string, c: char, b: string)
    requires IsWhiteSpace(c)
    ensures Tokens(a + [c] + b) == Tokens(a) + Tokens(b)
  {
    SplitAtSeparator(a, c, b);
    NonEmptyAppend(Split(a), Split(b));
  }
}
