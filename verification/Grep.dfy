/** The regular expression matcher of user/grep.c, against the language of a pattern.  A pointer into
    the text is the text and an index. */
module Grep {
  /** What a pattern consists of: `x*` before all else, and `$` only at the end. */
  datatype Token = One(c: char) | Star(c: char) | End

  function Tokens(re: string): (ts: seq<Token>) {
    if re == [] then []
    else if |re| >= 2 && re[1] == '*' then [Star(re[0])] + Tokens(re[2..])
    else if re == "$" then [End]
    else [One(re[0])] + Tokens(re[1..])
  }

  predicate CharFits(c: char, x: char) {
    c == '.' || c == x
  }

  /** The stretch of text from `a` to `b` is one the token stands for. */
  ghost predicate Fits(t: Token, text: string, a: nat, b: nat) {
    a <= b <= |text| &&
    match t
    case One(c) => b == a + 1 && CharFits(c, text[a])
    case Star(c) => forall i | a <= i < b :: CharFits(c, text[i])
    case End => a == b == |text|
  }

  /** From `a` on the text has one stretch for each token, cut at `cuts`. */
  ghost predicate Splits(ts: seq<Token>, cuts: seq<nat>, text: string, a: nat) {
    |cuts| == |ts| + 1 && cuts[0] == a && forall i | 0 <= i < |ts| :: Fits(ts[i], text, cuts[i], cuts[i + 1])
  }

  /** The text from `a` on begins with a string of the pattern's language. */
  ghost predicate Here(re: string, text: string, a: nat) {
    exists cuts :: Splits(Tokens(re), cuts, text, a)
  }

  /** Some suffix of the text, or the whole text for a pattern anchored by `^`, begins with a match. */
  ghost predicate Matches(re: string, text: string) {
    if re != [] && re[0] == '^' then Here(re[1..], text, 0)
    else exists a: nat :: a <= |text| && Here(re, text, a)
  }

  // ---------- taking the first token off ----------

  lemma HereToken(re: string, t: Token, re': string, text: string, a: nat)
    requires Tokens(re) == [t] + Tokens(re')
    ensures Here(re, text, a) <==> exists b: nat :: Fits(t, text, a, b) && Here(re', text, b)
  {
    hide Fits;
    var ts := Tokens(re');
    if Here(re, text, a) {
      var cuts :| Splits(Tokens(re), cuts, text, a);
      var rest := cuts[1..];
      assert Fits(Tokens(re)[0], text, cuts[0], cuts[0 + 1]);
      forall i | 0 <= i < |ts| ensures Fits(ts[i], text, rest[i], rest[i + 1]) {
        assert Fits(Tokens(re)[i + 1], text, cuts[i + 1], cuts[i + 1 + 1]);
      }
      assert Splits(ts, rest, text, cuts[1]);
    }
    if b: nat :| Fits(t, text, a, b) && Here(re', text, b) {
      var rest :| Splits(ts, rest, text, b);
      var cuts := [a] + rest;
      forall i | 0 <= i < |Tokens(re)| ensures Fits(Tokens(re)[i], text, cuts[i], cuts[i + 1]) {
        if i > 0 {
          assert Fits(ts[i - 1], text, rest[i - 1], rest[i - 1 + 1]);
        }
      }
      assert Splits(Tokens(re), cuts, text, a);
    }
  }

  lemma HereNothing(text: string, a: nat)
    ensures Here([], text, a)
  {
    assert Splits(Tokens([]), [a], text, a);
  }

  lemma HereEnd(text: string, a: nat)
    requires a <= |text|
    ensures Here("$", text, a) <==> a == |text|
  {
    assert Tokens("$") == [End] + Tokens([]);
    HereToken("$", End, [], text, a);
    HereNothing(text, |text|);
    assert a == |text| ==> Fits(End, text, a, |text|);
  }

  lemma HereOne(re: string, text: string, a: nat)
    requires re != [] && !(|re| >= 2 && re[1] == '*') && re != "$" && a <= |text|
    ensures Here(re, text, a) <==> a < |text| && CharFits(re[0], text[a]) && Here(re[1..], text, a + 1)
  {
    HereToken(re, One(re[0]), re[1..], text, a);
    assert a < |text| && CharFits(re[0], text[a]) ==> Fits(One(re[0]), text, a, a + 1);
  }

  /** `c*` takes some number of characters, each of which is `c`. */
  lemma HereStar(c: char, re: string, text: string, a: nat)
    ensures Here([c, '*'] + re, text, a) <==> exists b: nat :: Fits(Star(c), text, a, b) && Here(re, text, b)
  {
    var all := [c, '*'] + re;
    assert all[2..] == re && Tokens(all) == [Star(c)] + Tokens(re);
    HereToken(all, Star(c), re, text, a);
  }

  // ---------- the program ----------

  /** Searches for the pattern at the beginning of the text. */
  method MatchHere(re: string, text: string, a: nat) returns (found: bool)
    requires a <= |text|
    ensures found <==> Here(re, text, a)
    decreases |re|, 0
  {
    if re == [] {
      HereNothing(text, a);
      return true;
    }
    if |re| >= 2 && re[1] == '*' {
      assert re == [re[0], '*'] + re[2..];
      found := MatchStar(re[0], re[2..], text, a);
      return;
    }
    if re == "$" {
      HereEnd(text, a);
      return a == |text|;
    }
    HereOne(re, text, a);
    if a < |text| && (re[0] == '.' || re[0] == text[a]) {
      found := MatchHere(re[1..], text, a + 1);
      return;
    }
    return false;
  }

  /** Searches for `c*re` at the beginning of the text. */
  method MatchStar(c: char, re: string, text: string, a: nat) returns (found: bool)
    requires a <= |text|
    ensures found <==> Here([c, '*'] + re, text, a)
    decreases |re|, 1
  {
    HereStar(c, re, text, a);
    var b := a;
    while true
      invariant a <= b <= |text| && Fits(Star(c), text, a, b)
      invariant forall j: nat | a <= j < b :: !Here(re, text, j)
      decreases |text| - b
    {
      found := MatchHere(re, text, b);
      if found {
        return;
      }
      if b == |text| || !(text[b] == c || c == '.') {
        break;
      }
      b := b + 1;
    }
    return false;
  }

  /** Searches for the pattern anywhere in the text. */
  method Match(re: string, text: string) returns (found: bool)
    ensures found <==> Matches(re, text)
  {
    if re != [] && re[0] == '^' {
      found := MatchHere(re[1..], text, 0);
      return;
    }
    var a := 0;
    while true
      invariant a <= |text|
      invariant forall j: nat | j < a :: !Here(re, text, j)
      decreases |text| - a
    {
      found := MatchHere(re, text, a);
      if found {
        return;
      }
      if a == |text| {
        break;
      }
      a := a + 1;
    }
    return false;
  }
}
