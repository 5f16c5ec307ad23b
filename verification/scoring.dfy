/**
 * The two-part Mastermind scoring of `checkChoice` (server/src/server.c):
 * well-placed symbols, then the palette-wide sum of per-symbol minima minus
 * the well-placed ones, so that a symbol is never counted twice.
 */
module Scoring {
  import opened Config

  /** Occurrences of `c` in `s`. */
  function Count(s: seq<char>, c: char): (n: nat)
    ensures n <= |s|
  {
    if |s| == 0 then 0
    else
      assert s == s[..|s| - 1] + [s[|s| - 1]];
      Count(s[..|s| - 1], c) + (if s[|s| - 1] == c then 1 else 0)
  }

  /** The symbols at the positions where `a` and `b` agree, in position order. */
  function Matches(a: seq<char>, b: seq<char>): (m: seq<char>)
    requires |a| == |b|
    ensures |m| <= |a|
    ensures |m| == |a| <==> a == b
  {
    if |a| == 0 then []
    else
      var k := |a| - 1;
      assert a == a[..k] + [a[k]] && b == b[..k] + [b[k]];
      Matches(a[..k], b[..k]) + (if a[k] == b[k] then [a[k]] else [])
  }

  /** Well-placed symbols: positions where guess and secret agree. */
  function ExactCount(a: seq<char>, b: seq<char>): nat
    requires |a| == |b|
  {
    |Matches(a, b)|
  }

  function Min(x: nat, y: nat): nat {
    if x < y then x else y
  }

  /** Symbols `a` and `b` have in common as multisets, summed over `palette`. */
  function CommonTotal(palette: seq<char>, a: seq<char>, b: seq<char>): nat {
    if |palette| == 0 then 0
    else
      var p := palette[|palette| - 1];
      CommonTotal(palette[..|palette| - 1], a, b) + Min(Count(a, p), Count(b, p))
  }

  /**
   * The feedback for `guess` against `secret`: exact matches, and the
   * palette-wide common total minus the exact matches.
   */
  function Score(secret: seq<char>, guess: seq<char>): Feedback
    requires |secret| == |guess|
  {
    var exact := ExactCount(secret, guess);
    Feedback(exact, CommonTotal(ScoringColors, secret, guess) - exact)
  }

  /**
   * What `checkChoice` leaves in a result row that held `row` before: it adds
   * the exact matches to the first cell, adds the common total to the second
   * and then subtracts the (already increased) first cell from it.
   */
  function AddScore(row: Feedback, secret: seq<char>, guess: seq<char>): (r: Feedback)
    requires |secret| == |guess|
    ensures row == Feedback(0, 0) ==> r == Score(secret, guess)
    ensures r.place - row.place == Score(secret, guess).place
  {
    var exact := ExactCount(secret, guess);
    var place := row.place + exact;
    Feedback(place, row.color + CommonTotal(ScoringColors, secret, guess) - place)
  }

  /** The count of a symbol is its multiplicity in the code taken as a multiset. */
  lemma {:induction false} CountIsMultiplicity(s: seq<char>, c: char)
    ensures Count(s, c) == multiset(s)[c]
  {
    if |s| > 0 {
      var k := |s| - 1;
      assert s == s[..k] + [s[k]];
      CountIsMultiplicity(s[..k], c);
    }
  }

  /** The well-placed symbols, as a multiset, are part of both codes. */
  lemma {:induction false} MatchesSubMultiset(a: seq<char>, b: seq<char>)
    requires |a| == |b|
    ensures multiset(Matches(a, b)) <= multiset(a) && multiset(Matches(a, b)) <= multiset(b)
  {
    if |a| > 0 {
      var k := |a| - 1;
      assert a == a[..k] + [a[k]] && b == b[..k] + [b[k]];
      MatchesSubMultiset(a[..k], b[..k]);
    }
  }

  /* ---------- facts about counting over a palette ---------- */

  predicate Distinct(palette: seq<char>) {
    forall i, j :: 0 <= i < j < |palette| ==> palette[i] != palette[j]
  }

  /** Total number of occurrences in `s` of the symbols of `palette`. */
  function SumCounts(palette: seq<char>, s: seq<char>): nat {
    if |palette| == 0 then 0
    else SumCounts(palette[..|palette| - 1], s) + Count(s, palette[|palette| - 1])
  }

  lemma {:induction false} CountOfDistinct(palette: seq<char>, x: char)
    requires Distinct(palette) && x in palette
    ensures Count(palette, x) == 1
  {
    var k := |palette| - 1;
    var init := palette[..k];
    assert palette == init + [palette[k]];
    if palette[k] == x {
      assert x !in init;
      CountIsMultiplicity(init, x);
    } else {
      assert x in init;
      CountOfDistinct(init, x);
    }
  }

  lemma {:induction false} SumCountsSnoc(palette: seq<char>, s: seq<char>, x: char)
    ensures SumCounts(palette, s + [x]) == SumCounts(palette, s) + Count(palette, x)
  {
    if |palette| > 0 {
      var k := |palette| - 1;
      SumCountsSnoc(palette[..k], s, x);
      assert (s + [x])[..|s|] == s;
    }
  }

  /** Over a palette without repeats, the per-symbol counts of `s` add up to its length. */
  lemma {:induction false} SumCountsIsLength(palette: seq<char>, s: seq<char>)
    requires Distinct(palette)
    requires forall i :: 0 <= i < |s| ==> s[i] in palette
    ensures SumCounts(palette, s) == |s|
  {
    if |s| == 0 {
      SumCountsOfEmpty(palette, s);
    } else {
      var k := |s| - 1;
      assert s == s[..k] + [s[k]];
      SumCountsIsLength(palette, s[..k]);
      SumCountsSnoc(palette, s[..k], s[k]);
      CountOfDistinct(palette, s[k]);
    }
  }

  lemma {:induction false} SumCountsOfEmpty(palette: seq<char>, s: seq<char>)
    requires |s| == 0
    ensures SumCounts(palette, s) == 0
  {
    if |palette| > 0 {
      SumCountsOfEmpty(palette[..|palette| - 1], s);
    }
  }

  /** The common total never exceeds what one side holds of the palette. */
  lemma {:induction false} CommonTotalBelowCounts(palette: seq<char>, a: seq<char>, b: seq<char>)
    ensures CommonTotal(palette, a, b) <= SumCounts(palette, a)
  {
    if |palette| > 0 {
      CommonTotalBelowCounts(palette[..|palette| - 1], a, b);
    }
  }

  /** Every exact match is also a common symbol, so it is inside the common total. */
  lemma {:induction false} MatchesBelowCommonTotal(palette: seq<char>, a: seq<char>, b: seq<char>)
    requires |a| == |b|
    ensures SumCounts(palette, Matches(a, b)) <= CommonTotal(palette, a, b)
  {
    if |palette| > 0 {
      var p := palette[|palette| - 1];
      MatchesBelowCommonTotal(palette[..|palette| - 1], a, b);
      var m := Matches(a, b);
      MatchesSubMultiset(a, b);
      CountIsMultiplicity(m, p);
      CountIsMultiplicity(a, p);
      CountIsMultiplicity(b, p);
      assert multiset(m)[p] <= multiset(a)[p] && multiset(m)[p] <= multiset(b)[p];
    }
  }

  lemma {:induction false} CommonTotalOfSelf(palette: seq<char>, a: seq<char>)
    ensures CommonTotal(palette, a, a) == SumCounts(palette, a)
  {
    if |palette| > 0 {
      CommonTotalOfSelf(palette[..|palette| - 1], a);
    }
  }

  lemma {:induction false} CommonTotalSymmetric(palette: seq<char>, a: seq<char>, b: seq<char>)
    ensures CommonTotal(palette, a, b) == CommonTotal(palette, b, a)
  {
    if |palette| > 0 {
      CommonTotalSymmetric(palette[..|palette| - 1], a, b);
    }
  }

  lemma {:induction false} CommonTotalAppend(u: seq<char>, v: seq<char>, a: seq<char>, b: seq<char>)
    ensures CommonTotal(u + v, a, b) == CommonTotal(u, a, b) + CommonTotal(v, a, b)
  {
    if |v| > 0 {
      var k := |v| - 1;
      assert (u + v)[..|u + v| - 1] == u + v[..k];
      CommonTotalAppend(u, v[..k], a, b);
    } else {
      assert u + v == u;
    }
  }

  lemma {:induction false} MatchesSymmetric(a: seq<char>, b: seq<char>)
    requires |a| == |b|
    ensures Matches(a, b) == Matches(b, a)
  {
    if |a| > 0 {
      var k := |a| - 1;
      MatchesSymmetric(a[..k], b[..k]);
    }
  }

  /* ---------- the properties of the scoring ---------- */

  /**
   * Whatever the guess, when the secret is over the palette:
   * 0 <= exact <= width, color >= 0 and exact + color <= width.
   */
  lemma ScoreBounds(secret: seq<char>, guess: seq<char>)
    requires |secret| == |guess|
    requires OverPalette(secret)
    ensures 0 <= Score(secret, guess).place <= |secret|
    ensures 0 <= Score(secret, guess).color
    ensures Score(secret, guess).place + Score(secret, guess).color <= |secret|
  {
    var m := Matches(secret, guess);
    MatchesSubMultiset(secret, guess);
    assert Distinct(ScoringColors);
    forall i | 0 <= i < |m| ensures m[i] in ScoringColors {
      assert m[i] in multiset(m);
      assert m[i] in multiset(secret);
      assert m[i] in secret;
    }
    SumCountsIsLength(ScoringColors, m);
    MatchesBelowCommonTotal(ScoringColors, secret, guess);
    CommonTotalBelowCounts(ScoringColors, secret, guess);
    SumCountsIsLength(ScoringColors, secret);
  }

  /** A guess equal to the secret scores (width, 0). */
  lemma ScoreOfSecret(code: seq<char>)
    requires OverPalette(code)
    ensures Score(code, code) == Feedback(|code|, 0)
  {
    assert Distinct(ScoringColors);
    CommonTotalOfSelf(ScoringColors, code);
    SumCountsIsLength(ScoringColors, code);
  }

  /** A guess sharing no symbol with the secret scores (0, 0). */
  lemma ScoreOfDisjoint(secret: seq<char>, guess: seq<char>)
    requires |secret| == |guess|
    requires forall i, j :: 0 <= i < |secret| && 0 <= j < |guess| ==> secret[i] != guess[j]
    ensures Score(secret, guess) == Feedback(0, 0)
  {
    MatchesOfDisjoint(secret, guess);
    DisjointCommonTotal(ScoringColors, secret, guess);
  }

  lemma {:induction false} MatchesOfDisjoint(a: seq<char>, b: seq<char>)
    requires |a| == |b|
    requires forall i, j :: 0 <= i < |a| && 0 <= j < |b| ==> a[i] != b[j]
    ensures Matches(a, b) == []
  {
    if |a| > 0 {
      var k := |a| - 1;
      assert a[k] != b[k];
      MatchesOfDisjoint(a[..k], b[..k]);
    }
  }

  lemma {:induction false} DisjointCommonTotal(palette: seq<char>, a: seq<char>, b: seq<char>)
    requires forall i, j :: 0 <= i < |a| && 0 <= j < |b| ==> a[i] != b[j]
    ensures CommonTotal(palette, a, b) == 0
  {
    if |palette| > 0 {
      var p := palette[|palette| - 1];
      DisjointCommonTotal(palette[..|palette| - 1], a, b);
      if Count(a, p) > 0 {
        CountIsMultiplicity(a, p);
        CountIsMultiplicity(b, p);
        assert p in multiset(a);
        assert p !in b;
        assert Count(b, p) == 0;
      }
    }
  }

  /** Exchanging the roles of secret and guess leaves the feedback unchanged. */
  lemma ScoreSymmetric(a: seq<char>, b: seq<char>)
    requires |a| == |b|
    ensures Score(a, b) == Score(b, a)
  {
    MatchesSymmetric(a, b);
    CommonTotalSymmetric(ScoringColors, a, b);
  }

  /**
   * The scoring table lists the palette as "RBGCYM" while the generator uses
   * "RGBCYM"; the common total is the same over either ordering.
   */
  lemma PaletteOrderIrrelevant(a: seq<char>, b: seq<char>)
    ensures CommonTotal(ScoringColors, a, b) == CommonTotal(Colors, a, b)
  {
    assert ScoringColors == "R" + "BG" + "CYM";
    assert Colors == "R" + "GB" + "CYM";
    CommonTotalAppend("R" + "BG", "CYM", a, b);
    CommonTotalAppend("R", "BG", a, b);
    CommonTotalAppend("R" + "GB", "CYM", a, b);
    CommonTotalAppend("R", "GB", a, b);
    assert "BG"[..1] == "B" && "GB"[..1] == "G";
    assert "B"[..0] == [] && "G"[..0] == [];
  }

  /**
   * One pass of the inner loop of `checkChoice`: every palette slot whose
   * symbol equals the secret's (resp. the guess's) symbol is incremented.
   */
  method TallyPosition(inSecret: seq<nat>, inGuess: seq<nat>, x: char, y: char)
    returns (outSecret: seq<nat>, outGuess: seq<nat>)
    requires |inSecret| == 6 && |inGuess| == 6
    ensures |outSecret| == 6 && |outGuess| == 6
    ensures forall k :: 0 <= k < 6 ==>
      outSecret[k] == inSecret[k] + (if x == ScoringColors[k] then 1 else 0)
    ensures forall k :: 0 <= k < 6 ==>
      outGuess[k] == inGuess[k] + (if y == ScoringColors[k] then 1 else 0)
  {
    outSecret, outGuess := inSecret, inGuess;
    var j := 0;
    while j < 6
      invariant 0 <= j <= 6
      invariant |outSecret| == 6 && |outGuess| == 6
      invariant forall k :: 0 <= k < j ==>
        outSecret[k] == inSecret[k] + (if x == ScoringColors[k] then 1 else 0)
      invariant forall k :: j <= k < 6 ==> outSecret[k] == inSecret[k]
      invariant forall k :: 0 <= k < j ==>
        outGuess[k] == inGuess[k] + (if y == ScoringColors[k] then 1 else 0)
      invariant forall k :: j <= k < 6 ==> outGuess[k] == inGuess[k]
    {
      if x == ScoringColors[j] {
        outSecret := outSecret[j := outSecret[j] + 1];
      }
      if y == ScoringColors[j] {
        outGuess := outGuess[j := outGuess[j] + 1];
      }
      j := j + 1;
    }
  }

  lemma CountExtend(s: seq<char>, i: nat, c: char)
    requires i < |s|
    ensures Count(s[..i + 1], c) == Count(s[..i], c) + (if s[i] == c then 1 else 0)
  {
    assert s[..i + 1][..i] == s[..i];
  }

  /** One more position tallied: the tallies count the symbols of one more prefix cell. */
  lemma TallyStep(tally: seq<nat>, s: seq<char>, i: nat, next: seq<nat>)
    requires i < |s| && |tally| == 6 && |next| == 6
    requires forall j :: 0 <= j < 6 ==> tally[j] == Count(s[..i], ScoringColors[j])
    requires forall j :: 0 <= j < 6 ==> next[j] == tally[j] + (if s[i] == ScoringColors[j] then 1 else 0)
    ensures forall j :: 0 <= j < 6 ==> next[j] == Count(s[..i + 1], ScoringColors[j])
  {
    forall j | 0 <= j < 6
      ensures next[j] == Count(s[..i + 1], ScoringColors[j])
    {
      CountExtend(s, i, ScoringColors[j]);
    }
  }

  /** Tallying cell `i` of secret and guess extends both tallies from the prefix before `i` to the prefix through `i`. */
  method TallyCell(inSecret: seq<nat>, inGuess: seq<nat>, secret: seq<char>, guess: seq<char>, i: nat)
    returns (outSecret: seq<nat>, outGuess: seq<nat>)
    requires i < |secret| && i < |guess| && |inSecret| == 6 && |inGuess| == 6
    requires forall j :: 0 <= j < 6 ==> inSecret[j] == Count(secret[..i], ScoringColors[j])
    requires forall j :: 0 <= j < 6 ==> inGuess[j] == Count(guess[..i], ScoringColors[j])
    ensures |outSecret| == 6 && |outGuess| == 6
    ensures forall j :: 0 <= j < 6 ==> outSecret[j] == Count(secret[..i + 1], ScoringColors[j])
    ensures forall j :: 0 <= j < 6 ==> outGuess[j] == Count(guess[..i + 1], ScoringColors[j])
  {
    outSecret, outGuess := TallyPosition(inSecret, inGuess, secret[i], guess[i]);
    TallyStep(inSecret, secret, i, outSecret);
    TallyStep(inGuess, guess, i, outGuess);
  }

  lemma ExactExtend(a: seq<char>, b: seq<char>, i: nat)
    requires |a| == |b| && i < |a|
    ensures ExactCount(a[..i + 1], b[..i + 1]) == ExactCount(a[..i], b[..i]) + (if a[i] == b[i] then 1 else 0)
  {
    assert a[..i + 1][..i] == a[..i] && b[..i + 1][..i] == b[..i];
  }

  /** The second loop of `checkChoice`: the sum over the palette of the smaller tally. */
  method SumMinima(inSecret: seq<nat>, inGuess: seq<nat>, secret: seq<char>, guess: seq<char>)
    returns (total: nat)
    requires |inSecret| == 6 && |inGuess| == 6
    requires forall j :: 0 <= j < 6 ==> inSecret[j] == Count(secret, ScoringColors[j])
    requires forall j :: 0 <= j < 6 ==> inGuess[j] == Count(guess, ScoringColors[j])
    ensures total == CommonTotal(ScoringColors, secret, guess)
  {
    total := 0;
    var c := 0;
    while c < 6
      invariant 0 <= c <= 6
      invariant total == CommonTotal(ScoringColors[..c], secret, guess)
    {
      assert ScoringColors[..c + 1][..c] == ScoringColors[..c];
      total := total + Min(inSecret[c], inGuess[c]);
      c := c + 1;
    }
    assert ScoringColors[..6] == ScoringColors;
  }

  /**
   * The first loop of `checkChoice`: per-symbol tallies of secret and guess
   * over the scoring palette, and the exact matches added to `place`.
   */
  method TallyBoard(secret: seq<char>, guess: seq<char>, place0: int)
    returns (inSecret: seq<nat>, inGuess: seq<nat>, place: int)
    requires |secret| == BoardWidth && |guess| == BoardWidth
    ensures |inSecret| == 6 && |inGuess| == 6
    ensures forall j :: 0 <= j < 6 ==> inSecret[j] == Count(secret, ScoringColors[j])
    ensures forall j :: 0 <= j < 6 ==> inGuess[j] == Count(guess, ScoringColors[j])
    ensures place == place0 + ExactCount(secret, guess)
  {
    inSecret := [0, 0, 0, 0, 0, 0];
    inGuess := [0, 0, 0, 0, 0, 0];
    place := place0;
    var i := 0;
    while i < BoardWidth
      invariant 0 <= i <= BoardWidth
      invariant |inSecret| == 6 && |inGuess| == 6
      invariant forall j :: 0 <= j < 6 ==> inSecret[j] == Count(secret[..i], ScoringColors[j])
      invariant forall j :: 0 <= j < 6 ==> inGuess[j] == Count(guess[..i], ScoringColors[j])
      invariant place == place0 + ExactCount(secret[..i], guess[..i])
    {
      inSecret, inGuess := TallyCell(inSecret, inGuess, secret, guess, i);
      ExactExtend(secret, guess, i);
      if guess[i] == secret[i] {
        place := place + 1;
      }
      i := i + 1;
    }
    assert secret[..BoardWidth] == secret && guess[..BoardWidth] == guess;
  }

  /**
   * `checkChoice`'s update of one result row: exact matches added to the
   * first cell, the sum of minima added to the second, then the first cell
   * subtracted from the second.
   */
  method TallyScore(secret: seq<char>, guess: seq<char>, row: Feedback) returns (r: Feedback)
    requires |secret| == BoardWidth && |guess| == BoardWidth
    ensures r == AddScore(row, secret, guess)
  {
    var inSecret, inGuess, place := TallyBoard(secret, guess, row.place);
    var total := SumMinima(inSecret, inGuess, secret, guess);
    var color := row.color + total;
    r := Feedback(place, color - place);
  }

}
