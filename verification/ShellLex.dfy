/** What the tokens of a line are, told by the places they take. */
module ShellLex {
  import opened ShellSpec

  /** The characters from a up to b are exactly token t. */
  ghost predicate Spans(s: seq<char>, t: Tok, a: int, b: int) {
    && 0 <= a < b <= |s|
    && match t
       case Word(q, eq) => q == a && eq == b && WordAt(s, a, b)
       case Sym(c) =>
         if c == '+' then b == a + 2 && s[a] == '>' && s[a + 1] == '>'
         else b == a + 1 && s[a] == c && IsSymbol(c) && (c == '>' && b < |s| ==> s[b] != '>')
  }

  datatype Place = Place(a: nat, b: nat)

  ghost predicate Blank(s: seq<char>, a: int, b: int) { 0 <= a <= b <= |s| && forall k :: a <= k < b ==> IsSpace(s[k]) }

  /** From i on the line is white space but for the tokens, each in its place, one after the other. */
  ghost predicate Lexes(s: seq<char>, i: int, ts: seq<Tok>, places: seq<Place>)
    decreases |ts|
  {
    && |places| == |ts|
    && if ts == [] then Blank(s, i, |s|)
       else Blank(s, i, places[0].a) && Spans(s, ts[0], places[0].a, places[0].b) && Lexes(s, places[0].b, ts[1..], places[1..])
  }

  /** The tokens of the line are found that way: nothing is left out but white space, "<", "|", "&", ";"
      and the parentheses are tokens of their own wherever they stand, ">>" is one token and a single ">"
      another, and all between them are words. */
  lemma {:induction false} TokensLex(s: seq<char>, i: nat) returns (places: seq<Place>)
    requires i <= |s| && Text(s)
    ensures Lexes(s, i, Tokens(s, i), places)
    decreases |s| - i
  {
    var j := SkipSpace(s, i);
    if j == |s| {
      places := [];
    } else {
      var e := TokEnd(s, j);
      var rest := TokensLex(s, e);
      places := [Place(j, e)] + rest;
      assert places[1..] == rest;
      var t, ts := TokAt(s, j), Tokens(s, i);
      assert ts == [t] + Tokens(s, e) && ts[1..] == Tokens(s, e);
      TokSpans(s, j);
    }
  }

  lemma TokSpans(s: seq<char>, j: nat)
    requires j < |s| && Text(s) && !IsSpace(s[j])
    ensures Spans(s, TokAt(s, j), j, TokEnd(s, j))
  {
    hide SkipWord;
  }

  /** And there is only one way to find them. */
  lemma {:induction false} LexOnly(s: seq<char>, i: nat, ts: seq<Tok>, places: seq<Place>)
    requires i <= |s| && Text(s) && Lexes(s, i, ts, places)
    ensures ts == Tokens(s, i)
    decreases |ts|
  {
    if ts == [] {
      SkipBlank(s, i, |s|);
    } else {
      var a, b := places[0].a, places[0].b;
      SpanIsTok(s, ts[0], a, b);
      SkipBlank(s, i, a);
      LexOnly(s, b, ts[1..], places[1..]);
      assert ts == [ts[0]] + ts[1..];
    }
  }

  lemma {:induction false} SkipBlank(s: seq<char>, i: nat, a: nat)
    requires Blank(s, i, a) && (a < |s| ==> !IsSpace(s[a]))
    ensures SkipSpace(s, i) == a
    decreases a - i
  {
    if i < a { SkipBlank(s, i + 1, a); }
  }

  lemma SpanIsTok(s: seq<char>, t: Tok, a: nat, b: nat)
    requires Text(s) && Spans(s, t, a, b)
    ensures !IsSpace(s[a]) && TokAt(s, a) == t && TokEnd(s, a) == b
  {
    if t.Word? { WordEnd(s, a, b); }
  }

  lemma {:induction false} WordEnd(s: seq<char>, a: nat, b: nat)
    requires Text(s) && a <= b <= |s| && (forall k :: a <= k < b ==> IsWordChar(s[k])) && (b < |s| ==> !IsWordChar(s[b]))
    ensures SkipWord(s, a) == b
    decreases b - a
  {
    if a < b { WordEnd(s, a + 1, b); }
  }
}
