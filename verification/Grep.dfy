/** The regular expression matcher of grep.c against what its patterns mean.

    Pattern and text are the characters before the terminating NUL. */
module Grep {

  datatype Unit =
    | Lit(c: char)      // one c
    | Any               // one character
    | Star(c: char)     // any number of c's
    | AnyStar           // any number of characters
    | End               // the end of the text

  /** The units a pattern stands for: x*, a trailing $, a dot, a literal. */
  function Units(re: string): (us: seq<Unit>)
    ensures us == [] <==> re == []
    decreases |re|
  {
    if re == [] then []
    else if |re| >= 2 && re[1] == '*' then [if re[0] == '.' then AnyStar else Star(re[0])] + Units(re[2..])
    else if re == "$" then [End]
    else [if re[0] == '.' then Any else Lit(re[0])] + Units(re[1..])
  }

  /** Word w, ending where the text ends iff atEnd, matches the single unit u. */
  ghost predicate Accepts(u: Unit, w: string, atEnd: bool) {
    match u
    case Lit(c) => w == [c]
    case Any => |w| == 1
    case Star(c) => forall i :: 0 <= i < |w| ==> w[i] == c
    case AnyStar => true
    case End => w == [] && atEnd
  }

  ghost function Join(ws: seq<string>): string {
    if ws == [] then [] else ws[0] + Join(ws[1..])
  }

  ghost predicate Splits(us: seq<Unit>, ws: seq<string>, w: string, atEnd: bool) {
    && |ws| == |us| && Join(ws) == w
    && forall i :: 0 <= i < |us| ==> Accepts(us[i], ws[i], atEnd)
  }

  /** w is a concatenation of words, one for each unit in turn. */
  ghost predicate InLanguage(us: seq<Unit>, w: string, atEnd: bool) {
    exists ws :: Splits(us, ws, w, atEnd)
  }

  /** Some prefix of the text is in the language of the units. */
  ghost predicate PrefixMatches(us: seq<Unit>, text: string) {
    exists k :: 0 <= k <= |text| && InLanguage(us, text[..k], k == |text|)
  }

  /** What grep promises of a pattern: a match somewhere, or only at the start after ^. */
  ghost predicate Meaning(re: string, text: string) {
    if re != [] && re[0] == '^' then PrefixMatches(Units(re[1..]), text)
    else exists i :: 0 <= i <= |text| && PrefixMatches(Units(re), text[i..])
  }

  // ---------------------------------------------------------------- the language, unit by unit

  lemma LanguageCons(u: Unit, us: seq<Unit>, a: string, b: string, atEnd: bool)
    requires Accepts(u, a, atEnd) && InLanguage(us, b, atEnd)
    ensures InLanguage([u] + us, a + b, atEnd)
  {
    var ws :| Splits(us, ws, b, atEnd);
    assert ([a] + ws)[1..] == ws;
    assert Splits([u] + us, [a] + ws, a + b, atEnd);
  }

  lemma LanguageUncons(u: Unit, us: seq<Unit>, w: string, atEnd: bool) returns (j: nat)
    requires InLanguage([u] + us, w, atEnd)
    ensures j <= |w| && Accepts(u, w[..j], atEnd) && InLanguage(us, w[j..], atEnd)
  {
    var ws :| Splits([u] + us, ws, w, atEnd);
    j := |ws[0]|;
    assert Join(ws) == ws[0] + Join(ws[1..]);
    assert w[..j] == ws[0] && w[j..] == Join(ws[1..]);
    forall i | 0 <= i < |us| ensures Accepts(us[i], ws[1..][i], atEnd) {
      assert ([u] + us)[i + 1] == us[i];
    }
    assert Splits(us, ws[1..], w[j..], atEnd);
  }

  lemma EmptyPatternMatches(text: string)
    ensures PrefixMatches([], text)
  {
    assert Splits([], [], text[..0], 0 == |text|);
  }

  /** A unit followed by the rest: some split point works. */
  lemma PrefixSplit(u: Unit, us: seq<Unit>, text: string, j: nat)
    requires !u.End? && j <= |text| && Accepts(u, text[..j], true) && PrefixMatches(us, text[j..])
    ensures PrefixMatches([u] + us, text)
  {
    var k :| 0 <= k <= |text| - j && InLanguage(us, text[j..][..k], k == |text[j..]|);
    LanguageCons(u, us, text[..j], text[j..][..k], k == |text[j..]|);
    assert text[..j] + text[j..][..k] == text[..j + k];
  }

  lemma PrefixUnsplit(u: Unit, us: seq<Unit>, text: string) returns (j: nat)
    requires !u.End? && PrefixMatches([u] + us, text)
    ensures j <= |text| && Accepts(u, text[..j], true) && PrefixMatches(us, text[j..])
  {
    var k :| 0 <= k <= |text| && InLanguage([u] + us, text[..k], k == |text|);
    j := LanguageUncons(u, us, text[..k], k == |text|);
    assert text[..k][..j] == text[..j] && text[..k][j..] == text[j..][..k - j];
    assert InLanguage(us, text[j..][..k - j], k - j == |text[j..]|);
  }

  lemma EndMatches(text: string)
    ensures PrefixMatches([End], text) <==> text == []
  {
    if text == [] {
      assert Splits([End], [""], text[..0], 0 == |text|);
    }
    if PrefixMatches([End], text) {
      var k :| 0 <= k <= |text| && InLanguage([End], text[..k], k == |text|);
      var ws :| Splits([End], ws, text[..k], k == |text|);
      assert Join(ws) == ws[0] + Join(ws[1..]);
      assert Accepts([End][0], ws[0], k == |text|);
    }
  }

  // ---------------------------------------------------------------- the matcher

  method Match(re: string, text: string) returns (found: bool)
    ensures found <==> Meaning(re, text)
  {
    if re != [] && re[0] == '^' {
      found := MatchHere(re[1..], text);
      return;
    }
    var i := 0;
    while true
      invariant 0 <= i <= |text|
      invariant forall k :: 0 <= k < i ==> !PrefixMatches(Units(re), text[k..])
      decreases |text| - i
    {
      found := MatchHere(re, text[i..]);
      if found {
        return true;
      }
      if i == |text| {
        break;
      }
      i := i + 1;
    }
    return false;
  }

  method MatchHere(re: string, text: string) returns (found: bool)
    ensures found <==> PrefixMatches(Units(re), text)
    decreases |re|, 0
  {
    if re == [] {
      EmptyPatternMatches(text);
      return true;
    }
    if |re| >= 2 && re[1] == '*' {
      found := MatchStar(re[0], re[2..], text);
      return;
    }
    if re[0] == '$' && |re| == 1 {
      EndMatches(text);
      return text == [];
    }
    ghost var u := if re[0] == '.' then Any else Lit(re[0]);
    if text != [] && (re[0] == '.' || re[0] == text[0]) {
      found := MatchHere(re[1..], text[1..]);
      LiteralStep(u, Units(re[1..]), text);
      return;
    }
    LiteralStep(u, Units(re[1..]), text);
    return false;
  }

  lemma LiteralStep(u: Unit, us: seq<Unit>, text: string)
    requires u.Lit? || u.Any?
    ensures PrefixMatches([u] + us, text) <==>
      text != [] && (u.Any? || text[0] == u.c) && PrefixMatches(us, text[1..])
  {
    if PrefixMatches([u] + us, text) {
      var j := PrefixUnsplit(u, us, text);
      assert j == 1;
    }
    if text != [] && (u.Any? || text[0] == u.c) && PrefixMatches(us, text[1..]) {
      PrefixSplit(u, us, text, 1);
    }
  }

  function StarUnit(c: char): Unit { if c == '.' then AnyStar else Star(c) }

  /** matchstar tries the shortest repetition first; it misses no match. */
  method MatchStar(c: char, re: string, text: string) returns (found: bool)
    ensures found <==> PrefixMatches([StarUnit(c)] + Units(re), text)
    decreases |re|, 1
  {
    ghost var u := StarUnit(c);
    var i := 0;
    while true
      invariant 0 <= i <= |text| && Accepts(u, text[..i], true)
      invariant forall k :: 0 <= k < i ==> !PrefixMatches(Units(re), text[k..])
      decreases |text| - i
    {
      found := MatchHere(re, text[i..]);
      if found {
        PrefixSplit(u, Units(re), text, i);
        return true;
      }
      if i == |text| || !(text[i] == c || c == '.') {
        break;
      }
      i := i + 1;
    }
    StarStops(c, Units(re), text, i);
    return false;
  }

  /** No match of the rest lies beyond the run of characters that the star can take. */
  lemma StarStops(c: char, us: seq<Unit>, text: string, i: nat)
    requires i == |text| || (i < |text| && text[i] != c && c != '.')
    ensures PrefixMatches([StarUnit(c)] + us, text) ==>
      exists k :: 0 <= k <= i && k <= |text| && PrefixMatches(us, text[k..])
  {
    if PrefixMatches([StarUnit(c)] + us, text) {
      var j := PrefixUnsplit(StarUnit(c), us, text);
    }
  }

  // ---------------------------------------------------------------- what patterns find

  /** A pattern of literal characters and dots. */
  predicate Wild(re: string) { forall k :: 0 <= k < |re| ==> re[k] != '*' && re[k] != '$' }

  /** The pattern fits the text at i, character by character, a dot any one. */
  predicate FitsAt(re: string, text: string, i: int) {
    0 <= i && i + |re| <= |text| && forall k :: 0 <= k < |re| ==> re[k] == '.' || re[k] == text[i + k]
  }

  lemma {:induction false} WildHere(re: string, text: string)
    requires Wild(re)
    ensures PrefixMatches(Units(re), text) <==> FitsAt(re, text, 0)
    ensures PrefixMatches(Units(re + "$"), text) <==> FitsAt(re, text, 0) && |re| == |text|
    decreases |re|
  {
    hide PrefixMatches;
    if re == [] {
      EmptyPatternMatches(text);
      EndMatches(text);
      assert re + "$" == "$" && Units("$") == [End];
    } else {
      var u := if re[0] == '.' then Any else Lit(re[0]);
      var rest := re[1..];
      assert (re + "$")[1..] == rest + "$" && re + "$" != "$" && (re + "$")[1] != '*';
      assert Units(re) == [u] + Units(rest) && Units(re + "$") == [u] + Units(rest + "$");
      LiteralStep(u, Units(rest), text);
      LiteralStep(u, Units(rest + "$"), text);
      if text != [] {
        WildHere(rest, text[1..]);
        FitsNext(re, text);
      }
    }
  }

  lemma FitsNext(re: string, text: string)
    requires re != [] && text != []
    ensures FitsAt(re, text, 0) <==> (re[0] == '.' || re[0] == text[0]) && FitsAt(re[1..], text[1..], 0)
  {
    if FitsAt(re[1..], text[1..], 0) && (re[0] == '.' || re[0] == text[0]) {
      forall k | 0 <= k < |re| ensures re[k] == '.' || re[k] == text[k] { if k > 0 { assert re[1..][k - 1] == re[k] && text[1..][k - 1] == text[k]; } }
    }
    if FitsAt(re, text, 0) {
      forall k | 0 <= k < |re| - 1 ensures re[1..][k] == '.' || re[1..][k] == text[1..][k] { assert re[k + 1] == '.' || re[k + 1] == text[0 + (k + 1)]; }
    }
  }

  lemma FitsSlice(re: string, text: string, i: nat)
    requires i <= |text|
    ensures FitsAt(re, text[i..], 0) <==> FitsAt(re, text, i)
  {
  }

  /** Of literals and dots: the pattern is found exactly if it fits somewhere in the text, after ^ at its
      beginning, before $ at its end, and between the two on the whole of it. */
  lemma WildMeaning(re: string, text: string)
    requires Wild(re) && (re == [] || re[0] != '^')
    ensures Meaning(re, text) <==> exists i :: FitsAt(re, text, i)
    ensures Meaning("^" + re, text) <==> FitsAt(re, text, 0)
    ensures Meaning(re + "$", text) <==> FitsAt(re, text, |text| - |re|)
    ensures Meaning("^" + re + "$", text) <==> FitsAt(re, text, 0) && |re| == |text|
  {
    hide PrefixMatches, Units;
    assert ("^" + re)[1..] == re && ("^" + re + "$")[1..] == re + "$";
    forall i | 0 <= i <= |text| ensures PrefixMatches(Units(re), text[i..]) <==> FitsAt(re, text, i) {
      WildHere(re, text[i..]);
      FitsSlice(re, text, i);
    }
    forall i | 0 <= i <= |text| ensures PrefixMatches(Units(re + "$"), text[i..]) <==> FitsAt(re, text, i) && i + |re| == |text| {
      WildHere(re, text[i..]);
      FitsSlice(re, text, i);
    }
    assert text[0..] == text;
  }

  /** A star takes any number of its character, a dot any characters, before the rest. */
  lemma StarMeaning(c: char, re: string, text: string)
    ensures PrefixMatches(Units([c, '*'] + re), text) <==>
      exists n :: 0 <= n <= |text| && (c == '.' || forall k :: 0 <= k < n ==> text[k] == c) && PrefixMatches(Units(re), text[n..])
  {
    hide PrefixMatches;
    var p, u, us := [c, '*'] + re, StarUnit(c), Units(re);
    assert p[2..] == re && Units(p) == [u] + us;
    if PrefixMatches([u] + us, text) {
      var j := PrefixUnsplit(u, us, text);
      assert c == '.' || forall k :: 0 <= k < j ==> text[..j][k] == c;
      assert c == '.' || forall k :: 0 <= k < j ==> text[k] == c;
    }
    if exists n :: 0 <= n <= |text| && (c == '.' || forall k :: 0 <= k < n ==> text[k] == c) && PrefixMatches(us, text[n..]) {
      var n :| 0 <= n <= |text| && (c == '.' || forall k :: 0 <= k < n ==> text[k] == c) && PrefixMatches(us, text[n..]);
      PrefixSplit(u, us, text, n);
    }
  }
}
