/** Printing a command tree and parsing the line gives the tree back. */
module ShellRoundTrip {
  import opened ShellSpec
  import ShellCode

  /** A command tree with its words spelled out. */
  datatype Tree =
    | TExec(argv: seq<string>)
    | TRedir(cmd: Tree, file: string, input: bool)
    | TPipe(left: Tree, right: Tree)
    | TList(left: Tree, right: Tree)
    | TBack(cmd: Tree)

  predicate WordOk(w: string) { w != "" && forall k :: 0 <= k < |w| ==> IsWordChar(w[k]) }

  /** Words are words, and no simple command has more than 9. */
  predicate TreeOk(t: Tree) {
    match t
    case TExec(argv) => |argv| < MAXARGS && forall k :: 0 <= k < |argv| ==> WordOk(argv[k])
    case TRedir(c, f, _) => TreeOk(c) && WordOk(f)
    case TPipe(l, r) => TreeOk(l) && TreeOk(r)
    case TList(l, r) => TreeOk(l) && TreeOk(r)
    case TBack(c) => TreeOk(c)
  }

  // ---------------------------------------------------------------- the printer

  datatype PTok = PWord(w: string) | PSym(c: char)

  function PWords(ws: seq<string>): (r: seq<PTok>)
    ensures |r| == |ws| && forall k :: 0 <= k < |ws| ==> r[k] == PWord(ws[k])
  {
    seq(|ws|, k requires 0 <= k < |ws| => PWord(ws[k]))
  }

  function RToks(f: string, input: bool): seq<PTok> { [PSym(if input then '<' else '>'), PWord(f)] }

  predicate Composite(t: Tree) { t.TPipe? || t.TList? || t.TBack? }

  /** The tokens of a command of several parts.  Parentheses go only where the grammar needs them: "|"
      and ";" associate to the right, "&" binds tighter than ";" and "|" tighter than "&". */
  function Parts(t: Tree): seq<PTok>
    requires Composite(t)
    decreases t, 0
  {
    match t
    case TPipe(l, r) => ExecToks(l) + [PSym('|')] + PipeToks(r)
    case TList(l, r) => BackToks(l) + [PSym(';')] + Toks(r)
    case TBack(c) => BackToks(c) + [PSym('&')]
  }

  /** A simple command with its redirections, anything else in parentheses. */
  function ExecToks(t: Tree): seq<PTok>
    decreases t, 1
  {
    match t
    case TExec(argv) => PWords(argv)
    case TRedir(c, f, input) => ExecToks(c) + RToks(f, input)
    case _ => [PSym('(')] + Parts(t) + [PSym(')')]
  }

  function PipeToks(t: Tree): seq<PTok>
    decreases t, 2
  {
    if t.TPipe? then Parts(t) else ExecToks(t)
  }

  function BackToks(t: Tree): seq<PTok>
    decreases t, 3
  {
    if t.TBack? then Parts(t) else PipeToks(t)
  }

  /** The tokens of a whole line. */
  function Toks(t: Tree): seq<PTok>
    decreases t, 4
  {
    if t.TList? then Parts(t) else BackToks(t)
  }

  function Spell(p: PTok): string { if p.PWord? then p.w else [p.c] }

  /** How a token is to look: what white space goes before it, and whether ">" is to be ">>". */
  datatype Look = Look(gap: string, append: bool)

  function SpellAs(p: PTok, append: bool): string { if p == PSym('>') && append then ">>" else Spell(p) }

  function Render(ps: seq<PTok>, looks: seq<Look>, tail: string): string
    requires |looks| == |ps|
  {
    if ps == [] then tail else looks[0].gap + SpellAs(ps[0], looks[0].append) + Render(ps[1..], looks[1..], tail)
  }

  ghost predicate Spaces(g: string) { forall k :: 0 <= k < |g| ==> IsSpace(g[k]) }

  /** Without white space between them the two would be read as something else. */
  predicate Touchy(p: PTok, append: bool, q: PTok) { (p.PWord? && q.PWord?) || (p == PSym('>') && !append && q == PSym('>')) }

  /** Any white space, none included, but where two tokens would run together. */
  ghost predicate GoodLooks(ps: seq<PTok>, looks: seq<Look>, tail: string) {
    && |looks| == |ps| && Spaces(tail) && (forall k :: 0 <= k < |ps| ==> Spaces(looks[k].gap))
    && forall k :: 0 < k < |ps| ==> (Touchy(ps[k - 1], looks[k - 1].append, ps[k]) ==> looks[k].gap != "")
  }

  /** The plainest look. */
  function Plain(n: nat): seq<Look> { seq(n, _ => Look(" ", false)) }

  function Print(t: Tree): string { Render(Toks(t), Plain(|Toks(t)|), "") }

  // ---------------------------------------------------------------- reading a tree off the line

  function Word(s: seq<char>, t: Tok): string { if t.Word? && t.q <= t.eq <= |s| then s[t.q..t.eq] else "" }

  function Words(s: seq<char>, ts: seq<Tok>): (r: seq<string>)
    ensures |r| == |ts| && forall k :: 0 <= k < |ts| ==> r[k] == Word(s, ts[k])
  {
    seq(|ts|, k requires 0 <= k < |ts| => Word(s, ts[k]))
  }

  function Show(s: seq<char>, c: Cmd): Tree {
    match c
    case Exec(argv) => TExec(Words(s, argv))
    case Redir(d, f, input) => TRedir(Show(s, d), Word(s, f), input)
    case Pipe(l, r) => TPipe(Show(s, l), Show(s, r))
    case List(l, r) => TList(Show(s, l), Show(s, r))
    case Back(d) => TBack(Show(s, d))
  }

  predicate MatchTok(s: seq<char>, t: Tok, p: PTok) {
    match p
    case PWord(w) => t.Word? && Word(s, t) == w
    case PSym(c) => t == Sym(c) || (c == '>' && t == Sym('+'))
  }

  ghost predicate Matches(s: seq<char>, ts: seq<Tok>, ps: seq<PTok>) {
    |ts| == |ps| && forall k :: 0 <= k < |ts| ==> MatchTok(s, ts[k], ps[k])
  }

  lemma MatchesSplit(s: seq<char>, ts: seq<Tok>, a: seq<PTok>, b: seq<PTok>)
    requires Matches(s, ts, a + b)
    ensures |a| <= |ts| && Matches(s, ts[..|a|], a) && Matches(s, ts[|a|..], b) && ts == ts[..|a|] + ts[|a|..]
  {
    hide MatchTok;
    var p := a + b;
    forall k | 0 <= k < |a| ensures MatchTok(s, ts[..|a|][k], a[k]) { assert p[k] == a[k]; }
    forall k | 0 <= k < |b| ensures MatchTok(s, ts[|a|..][k], b[k]) { assert p[|a| + k] == b[k] && ts[|a|..][k] == ts[|a| + k]; }
  }

  // ---------------------------------------------------------------- lexing what was printed

  predicate PTokOk(p: PTok) {
    match p
    case PWord(w) => WordOk(w)
    case PSym(c) => IsSymbol(c)
  }

  ghost predicate AllPrintable(ps: seq<PTok>) { forall k :: 0 <= k < |ps| ==> PTokOk(ps[k]) }

  lemma PrintableSum(a: seq<PTok>, c: char, b: seq<PTok>)
    requires AllPrintable(a) && IsSymbol(c) && AllPrintable(b)
    ensures AllPrintable(a + [PSym(c)] + b) && AllPrintable(a + [PSym(c)]) && AllPrintable([PSym('(')] + a + [PSym(')')])
  {
    hide IsSymbol, WordOk;
    assert IsSymbol('(') && IsSymbol(')') by { Parens(); }
  }

  lemma Parens()
    ensures IsSymbol('(') && IsSymbol(')') && IsSymbol('<') && IsSymbol('>') && IsSymbol('|') && IsSymbol(';') && IsSymbol('&')
  {
  }

  lemma {:induction false} PartsOk(t: Tree)
    requires TreeOk(t) && Composite(t)
    ensures AllPrintable(Parts(t))
    decreases t, 0
  {
    hide AllPrintable, ExecToks, PipeToks, BackToks, Toks, IsSymbol;
    Parens();
    match t
    case TPipe(l, r) => ExecOk(l); PipeOk(r); PrintableSum(ExecToks(l), '|', PipeToks(r));
    case TList(l, r) => BackOk(l); ToksOk(r); PrintableSum(BackToks(l), ';', Toks(r));
    case TBack(c) => BackOk(c); PrintableSum(BackToks(c), '&', BackToks(c));
  }

  lemma {:induction false} ExecOk(t: Tree)
    requires TreeOk(t)
    ensures AllPrintable(ExecToks(t))
    decreases t, 1
  {
    hide Parts, IsSymbol;
    Parens();
    match t
    case TExec(argv) =>
    case TRedir(c, f, input) => ExecOk(c);
    case _ => PartsOk(t); PrintableSum(Parts(t), '&', Parts(t));
  }

  lemma {:induction false} PipeOk(t: Tree)
    requires TreeOk(t)
    ensures AllPrintable(PipeToks(t))
    decreases t, 2
  {
    hide AllPrintable, Parts, ExecToks;
    if t.TPipe? { PartsOk(t); } else { ExecOk(t); }
  }

  lemma {:induction false} BackOk(t: Tree)
    requires TreeOk(t)
    ensures AllPrintable(BackToks(t))
    decreases t, 3
  {
    hide AllPrintable, Parts, PipeToks;
    if t.TBack? { PartsOk(t); } else { PipeOk(t); }
  }

  lemma {:induction false} ToksOk(t: Tree)
    requires TreeOk(t)
    ensures AllPrintable(Toks(t))
    decreases t, 4
  {
    hide AllPrintable, Parts, BackToks;
    if t.TList? { PartsOk(t); } else { BackOk(t); }
  }

  lemma TokensSkip(s: seq<char>, i: nat)
    requires i < |s| && IsSpace(s[i])
    ensures Tokens(s, i) == Tokens(s, i + 1)
  {
  }

  lemma {:induction false} TokensGap(s: seq<char>, i: nat, g: string)
    requires i + |g| <= |s| && s[i..i + |g|] == g && Spaces(g)
    ensures Tokens(s, i) == Tokens(s, i + |g|)
    decreases |g|
  {
    hide Tokens;
    if g != "" {
      assert s[i] == g[0];
      TokensSkip(s, i);
      assert s[i + 1..i + |g|] == s[i..i + |g|][1..];
      TokensGap(s, i + 1, g[1..]);
    }
  }

  lemma WordSkipped(s: seq<char>, i: nat, j: nat)
    requires i <= j <= |s| && (j < |s| ==> IsSpace(s[j]) || IsSymbol(s[j])) && forall k :: i <= k < j ==> IsWordChar(s[k])
    ensures SkipWord(s, i) == j
    decreases j - i
  {
    if i < j { WordSkipped(s, i + 1, j); }
  }

  /** What may come behind a token for it to be read as it is. */
  predicate Closed(p: PTok, append: bool, rest: string) {
    rest == "" || if p.PWord? then IsSpace(rest[0]) || IsSymbol(rest[0]) else p == PSym('>') && !append ==> rest[0] != '>'
  }

  lemma ClosedAt(ps: seq<PTok>, looks: seq<Look>, tail: string)
    requires ps != [] && GoodLooks(ps, looks, tail) && AllPrintable(ps)
    ensures Closed(ps[0], looks[0].append, Render(ps[1..], looks[1..], tail))
  {
    if |ps| > 1 {
      var g, w := looks[1].gap, SpellAs(ps[1], looks[1].append);
      assert PTokOk(ps[1]) && Spaces(g);
      SpellNonempty(ps[1]);
      var r := Render(ps[1..], looks[1..], tail);
      assert r == g + w + Render(ps[1..][1..], looks[1..][1..], tail);
      assert r[0] == if g != "" then g[0] else w[0];
    }
  }

  lemma LooksParts(ps: seq<PTok>, looks: seq<Look>, tail: string)
    requires GoodLooks(ps, looks, tail) && AllPrintable(ps)
    ensures |looks| == |ps| && Spaces(tail)
    ensures ps != [] ==> Spaces(looks[0].gap) && PTokOk(ps[0]) && AllPrintable(ps[1..]) && GoodLooks(ps[1..], looks[1..], tail)
  {
    hide Touchy, PTokOk, Spaces;
  }

  /** A line in any look has the tokens that were to be printed. */
  lemma {:induction false} LexRender(s: seq<char>, i: nat, ps: seq<PTok>, looks: seq<Look>, tail: string)
    requires |looks| == |ps| && i <= |s| && s[i..] == Render(ps, looks, tail) && AllPrintable(ps) && GoodLooks(ps, looks, tail)
    ensures Matches(s, Tokens(s, i), ps)
    decreases |ps|
  {
    hide SkipSpace, SkipWord, Tokens, TokAt, TokEnd, MatchTok, PTokOk, SpellAs, Touchy, Closed, Matches,
      GoodLooks, AllPrintable, Spaces;
    LooksParts(ps, looks, tail);
    if ps == [] {
      assert s[i..i + |tail|] == tail;
      TokensGap(s, i, tail);
      TokensNone(s, |s|);
      MatchesNone(s, ps);
    } else {
      var g, w, rest := looks[0].gap, SpellAs(ps[0], looks[0].append), Render(ps[1..], looks[1..], tail);
      var j := i + |g|;
      var e := j + |w|;
      SpelledAt(s, i, g, w, rest);
      TokensGap(s, i, g);
      ClosedAt(ps, looks, tail);
      LexOne(s, j, ps[0], looks[0].append, rest);
      TokensOne(s, j);
      LexRender(s, e, ps[1..], looks[1..], tail);
      MatchesCons(s, TokAt(s, j), Tokens(s, e), ps);
    }
  }

  lemma TokensNone(s: seq<char>, i: nat)
    requires i == |s|
    ensures Tokens(s, i) == []
  {
  }

  lemma TokensOne(s: seq<char>, i: nat)
    requires i < |s| && SkipSpace(s, i) == i
    ensures !IsSpace(s[i]) && Tokens(s, i) == [TokAt(s, i)] + Tokens(s, TokEnd(s, i))
  {
  }

  lemma SpellNonempty(p: PTok)
    requires PTokOk(p)
    ensures Spell(p) != "" && forall append :: SpellAs(p, append) != ""
  {
  }

  lemma MatchesNone(s: seq<char>, ps: seq<PTok>)
    requires ps == []
    ensures Matches(s, [], ps)
  {
  }

  lemma MatchesCons(s: seq<char>, t: Tok, ts: seq<Tok>, ps: seq<PTok>)
    requires ps != [] && MatchTok(s, t, ps[0]) && Matches(s, ts, ps[1..])
    ensures Matches(s, [t] + ts, ps)
  {
    hide MatchTok;
    var all := [t] + ts;
    forall k | 0 <= k < |all| ensures MatchTok(s, all[k], ps[k]) {
      if k > 0 { assert all[k] == ts[k - 1] && ps[k] == ps[1..][k - 1]; }
    }
  }

  lemma SpelledAt(s: seq<char>, i: nat, g: string, w: string, rest: string)
    requires i <= |s| && s[i..] == g + w + rest
    ensures i + |g| + |w| <= |s| && s[i..i + |g|] == g && s[i + |g|..i + |g| + |w|] == w && s[i + |g| + |w|..] == rest
  {
    var x := s[i..];
    assert x[..|g|] == g && x[|g|..|g| + |w|] == w && x[|g| + |w|..] == rest;
  }

  lemma LexWord(s: seq<char>, i: nat, w: string, rest: string)
    requires WordOk(w) && i + |w| <= |s| && s[i..i + |w|] == w && s[i + |w|..] == rest
    requires rest != "" ==> IsSpace(rest[0]) || IsSymbol(rest[0])
    ensures i < |s| && !IsSpace(s[i]) && TokAt(s, i) == Tok.Word(i, i + |w|) && TokEnd(s, i) == i + |w|
  {
    hide SkipWord;
    var e := i + |w|;
    forall k | i <= k < e ensures IsWordChar(s[k]) { assert s[k] == w[k - i]; }
    assert e < |s| ==> s[e] == rest[0];
    WordSkipped(s, i, e);
  }

  lemma LexSym(s: seq<char>, i: nat, c: char, append: bool, rest: string)
    requires IsSymbol(c) && var w := SpellAs(PSym(c), append); i + |w| <= |s| && s[i..i + |w|] == w && s[i + |w|..] == rest
    requires Closed(PSym(c), append, rest)
    ensures i < |s| && !IsSpace(s[i]) && TokEnd(s, i) == i + |SpellAs(PSym(c), append)|
    ensures TokAt(s, i) == Sym(if c == '>' && append then '+' else c)
  {
    hide SkipWord;
    var w := SpellAs(PSym(c), append);
    var e := i + |w|;
    assert s[i] == w[0] && (|w| > 1 ==> s[i + 1] == w[1]) && (e < |s| ==> s[e] == rest[0]);
  }

  lemma LexOne(s: seq<char>, i: nat, p: PTok, append: bool, rest: string)
    requires PTokOk(p) && i + |SpellAs(p, append)| <= |s| && s[i..i + |SpellAs(p, append)|] == SpellAs(p, append)
    requires s[i + |SpellAs(p, append)|..] == rest && Closed(p, append, rest)
    ensures SkipSpace(s, i) == i && i < |s| && !IsSpace(s[i]) && MatchTok(s, TokAt(s, i), p) && TokEnd(s, i) == i + |SpellAs(p, append)|
  {
    hide TokAt, TokEnd, WordOk, IsSymbol;
    match p
    case PWord(w) => LexWord(s, i, w, rest);
    case PSym(c) => LexSym(s, i, c, append, rest);
  }

  // ---------------------------------------------------------------- parsing what was lexed

  datatype TR = TR(file: string, input: bool)

  /** The redirections around a command, the first innermost, and the command inside. */
  function RedirsOf(t: Tree): seq<TR> { if t.TRedir? then RedirsOf(t.cmd) + [TR(t.file, t.input)] else [] }
  function BaseOf(t: Tree): (b: Tree)
    ensures !b.TRedir? && (TreeOk(t) ==> TreeOk(b)) && (t.TRedir? ==> b < t)
  {
    if t.TRedir? then BaseOf(t.cmd) else t
  }

  function TWrap(t: Tree, rs: seq<TR>): Tree {
    if rs == [] then t else TRedir(TWrap(t, rs[..|rs| - 1]), rs[|rs| - 1].file, rs[|rs| - 1].input)
  }

  function TRToks(rs: seq<TR>): seq<PTok> {
    if rs == [] then [] else TRToks(rs[..|rs| - 1]) + RToks(rs[|rs| - 1].file, rs[|rs| - 1].input)
  }

  lemma {:induction false} ChainWraps(t: Tree)
    ensures t == TWrap(BaseOf(t), RedirsOf(t))
  {
    if t.TRedir? {
      ChainWraps(t.cmd);
      var rs := RedirsOf(t);
      assert rs[..|rs| - 1] == RedirsOf(t.cmd);
    }
  }

  lemma TRToksLast(rs: seq<TR>, r: TR)
    ensures TRToks(rs + [r]) == TRToks(rs) + RToks(r.file, r.input)
  {
    var all := rs + [r];
    assert all[..|all| - 1] == rs && all[|all| - 1] == r;
  }

  lemma {:induction false} ChainToks(t: Tree)
    ensures ExecToks(t) == ExecToks(BaseOf(t)) + TRToks(RedirsOf(t))
  {
    hide TRToks, Parts;
    if t.TRedir? {
      ChainToks(t.cmd);
      var last, more := RToks(t.file, t.input), TRToks(RedirsOf(t.cmd));
      TRToksLast(RedirsOf(t.cmd), TR(t.file, t.input));
      assert ExecToks(BaseOf(t)) + more + last == ExecToks(BaseOf(t)) + (more + last);
    } else {
      NoRedirs(RedirsOf(t));
      assert ExecToks(t) + [] == ExecToks(t);
    }
  }

  ghost predicate MatchR(s: seq<char>, r: R, t: TR) { Word(s, r.file) == t.file && r.input == t.input }

  ghost predicate MatchRs(s: seq<char>, rs: seq<R>, ts: seq<TR>) {
    |rs| == |ts| && forall k :: 0 <= k < |rs| ==> MatchR(s, rs[k], ts[k])
  }

  /** Redirections parse back, up to something that is none. */
  lemma {:induction false} RedirsBack(s: seq<char>, ts: seq<Tok>, trs: seq<TR>, rest: seq<Tok>)
    requires Matches(s, ts, TRToks(trs)) && !Next(rest, "<>+")
    ensures ParseRedirs(ts + rest).Found? && ParseRedirs(ts + rest).rest == rest && MatchRs(s, ParseRedirs(ts + rest).rs, trs)
    decreases |trs|
  {
    hide MatchTok, Word, TRToks;
    if trs == [] {
      assert TRToks(trs) == [] by { NoRedirs(trs); }
      assert ts + rest == rest;
    } else {
      FirstRedir(s, ts, trs);
      RedirsBack(s, ts[2..], trs[1..], rest);
      var all := ts + rest;
      assert all[0] == ts[0] && all[1] == ts[1] && all[2..] == ts[2..] + rest;
      var sub := ParseRedirs(all[2..]);
      var rs := [R(all[1], all[0].c == '<')] + sub.rs;
      assert ParseRedirs(all).rs == rs;
      forall k | 0 <= k < |rs| ensures MatchR(s, rs[k], trs[k]) {
        if k > 0 { assert rs[k] == sub.rs[k - 1] && trs[k] == trs[1..][k - 1]; }
      }
    }
  }

  lemma NoRedirs(trs: seq<TR>)
    requires trs == []
    ensures TRToks(trs) == []
  {
  }

  lemma {:induction false} TRToksFirst(trs: seq<TR>)
    requires trs != []
    ensures TRToks(trs) == RToks(trs[0].file, trs[0].input) + TRToks(trs[1..])
    decreases |trs|
  {
    var front, last := trs[..|trs| - 1], trs[|trs| - 1];
    if |trs| == 1 {
      assert TRToks(front) == [] && TRToks(trs[1..]) == [];
    } else {
      TRToksFirst(front);
      assert trs[1..][..|trs| - 2] == front[1..];
    }
  }

  lemma {:induction false} FirstRedir(s: seq<char>, ts: seq<Tok>, trs: seq<TR>)
    requires Matches(s, ts, TRToks(trs)) && trs != []
    ensures |ts| >= 2 && ts[0].Sym? && (if trs[0].input then ts[0].c == '<' else ts[0].c == '>' || ts[0].c == '+') && ts[1].Word? && Word(s, ts[1]) == trs[0].file
    ensures Matches(s, ts[2..], TRToks(trs[1..]))
  {
    TRToksFirst(trs);
    MatchesSplit(s, ts, RToks(trs[0].file, trs[0].input), TRToks(trs[1..]));
    assert MatchTok(s, ts[0], TRToks(trs)[0]) && MatchTok(s, ts[1], TRToks(trs)[1]);
  }

  /** Wrapping and reading off commute. */
  lemma {:induction false} ShowWrap(s: seq<char>, c: Cmd, rs: seq<R>, t: Tree, trs: seq<TR>)
    requires Show(s, c) == t && MatchRs(s, rs, trs)
    ensures Show(s, Wrap(c, rs)) == TWrap(t, trs)
    decreases |rs|
  {
    if rs != [] {
      var c' := Redir(c, rs[0].file, rs[0].input);
      assert MatchR(s, rs[0], trs[0]);
      assert MatchRs(s, rs[1..], trs[1..]) by {
        forall k | 0 <= k < |rs| - 1 ensures MatchR(s, rs[1..][k], trs[1..][k]) { assert MatchR(s, rs[k + 1], trs[k + 1]); }
      }
      ShowWrap(s, c', rs[1..], TRedir(t, trs[0].file, trs[0].input), trs[1..]);
      TWrapFirst(t, trs);
    }
  }

  lemma {:induction false} TWrapFirst(t: Tree, trs: seq<TR>)
    requires trs != []
    ensures TWrap(t, trs) == TWrap(TRedir(t, trs[0].file, trs[0].input), trs[1..])
    decreases |trs|
  {
    if |trs| == 1 {
      assert TWrap(t, trs[..0]) == t && trs[1..] == [];
    } else {
      var front := trs[..|trs| - 1];
      TWrapFirst(t, front);
      assert trs[1..][..|trs| - 2] == front[1..];
    }
  }

  /** Nothing that could belong to a simple command follows. */
  predicate Delimited(rest: seq<Tok>) { rest == [] || Next(rest, "|)&;") }

  predicate AllWords(ts: seq<Tok>) { forall k :: 0 <= k < |ts| ==> ts[k].Word? }

  /** The words of a simple command, then its redirections, parse back. */
  lemma {:induction false} ArgsBack(s: seq<char>, args: seq<Tok>, ws: seq<Tok>, lr: seq<Tok>, trs: seq<TR>, rest: seq<Tok>)
    requires AllWords(ws) && ws != [] && |args| + |ws| < MAXARGS && Matches(s, lr, TRToks(trs)) && Delimited(rest)
    ensures ParseRedirs(lr + rest).Found?
    ensures ParseArgs(args, [], ws + lr + rest) == Ok(Wrap(Exec(args + ws), ParseRedirs(lr + rest).rs), rest)
    ensures MatchRs(s, ParseRedirs(lr + rest).rs, trs)
    decreases |ws|
  {
    hide Wrap, Matches, MatchRs, TRToks, ParseArgs, ParseRedirs;
    var all, w, more := ws + lr + rest, ws[0], ws[1..];
    assert all[0] == w && all[1..] == more + lr + rest;
    RedirsBack(s, lr, trs, rest);
    if more == [] {
      assert all[1..] == lr + rest && args + [w] == args + ws;
      OneArg(args, all);
      ArgsDone(args + [w], ParseRedirs(lr + rest).rs, rest);
    } else {
      assert all[1..][0] == more[0];
      WordNoRedir(all[1..]);
      OneArg(args, all);
      ArgsBack(s, args + [w], more, lr, trs, rest);
      assert args + [w] + more == args + ws;
    }
  }

  lemma WordNoRedir(ts: seq<Tok>)
    requires ts != [] && ts[0].Word?
    ensures ParseRedirs(ts) == Found([], ts)
  {
  }

  lemma OneArg(args: seq<Tok>, ts: seq<Tok>)
    requires ts != [] && ts[0].Word? && |args| + 1 < MAXARGS && ParseRedirs(ts[1..]).Found?
    ensures ParseArgs(args, [], ts) == ParseArgs(args + [ts[0]], ParseRedirs(ts[1..]).rs, ParseRedirs(ts[1..]).rest)
  {
    hide ParseRedirs;
    assert [] + ParseRedirs(ts[1..]).rs == ParseRedirs(ts[1..]).rs;
  }

  lemma ArgsDone(args: seq<Tok>, rs: seq<R>, rest: seq<Tok>)
    requires Delimited(rest)
    ensures ParseArgs(args, rs, rest) == Ok(Wrap(Exec(args), rs), rest)
  {
  }

  lemma WordsMatch(s: seq<char>, ts: seq<Tok>, argv: seq<string>)
    requires Matches(s, ts, PWords(argv))
    ensures AllWords(ts) && Show(s, Exec(ts)) == TExec(argv)
  {
    forall k | 0 <= k < |ts| ensures ts[k].Word? && Word(s, ts[k]) == argv[k] { assert MatchTok(s, ts[k], PWords(argv)[k]); }
    assert Words(s, ts) == argv;
  }

  /** A simple command with redirections parses back. */
  lemma SimpleBack(s: seq<char>, lw: seq<Tok>, argv: seq<string>, lr: seq<Tok>, trs: seq<TR>, rest: seq<Tok>)
    requires Matches(s, lw, PWords(argv)) && |argv| < MAXARGS && Matches(s, lr, TRToks(trs)) && Delimited(rest)
    ensures var r := ParseExec(lw + lr + rest); r.Ok? && r.rest == rest && Show(s, r.cmd) == TWrap(TExec(argv), trs)
  {
    hide Wrap, TWrap, Show, MatchRs, TRToks, MatchTok, ParseArgs;
    WordsMatch(s, lw, argv);
    RedirsBack(s, lr, trs, rest);
    var all := lw + lr + rest;
    if lw == [] {
      assert all == lr + rest;
      NotBlock(s, lr, trs, rest);
      ArgsDone([], ParseRedirs(all).rs, rest);
      ShowWrap(s, Exec([]), ParseRedirs(all).rs, TExec(argv), trs);
    } else {
      assert all[0] == lw[0] && lw[0].Word?;
      assert ParseRedirs(all) == Found([], all);
      ArgsBack(s, [], lw, lr, trs, rest);
      assert [] + lw == lw;
      ShowWrap(s, Exec(lw), ParseRedirs(lr + rest).rs, TExec(argv), trs);
    }
  }

  lemma NotBlock(s: seq<char>, lr: seq<Tok>, trs: seq<TR>, rest: seq<Tok>)
    requires Matches(s, lr, TRToks(trs)) && Delimited(rest)
    ensures !Next(lr + rest, "(")
  {
    hide MatchTok, TRToks;
    if trs == [] { NoRedirs(trs); assert lr + rest == rest; } else { FirstRedir(s, lr, trs); }
  }

  /** A line in parentheses, with redirections, parses back if the line does. */
  lemma BlockBack(s: seq<char>, lt: seq<Tok>, t: Tree, lr: seq<Tok>, trs: seq<TR>, rest: seq<Tok>)
    requires Matches(s, lr, TRToks(trs)) && !Next(rest, "<>+")
    requires var r := ParseLine(lt + ([Sym(')')] + lr + rest)); r.Ok? && r.rest == [Sym(')')] + lr + rest && Show(s, r.cmd) == t
    ensures var r := ParseExec([Sym('(')] + lt + [Sym(')')] + lr + rest); r.Ok? && r.rest == rest && Show(s, r.cmd) == TWrap(t, trs)
  {
    hide Wrap, TWrap, Show, MatchRs, TRToks, MatchTok, ParseLine;
    var tail := [Sym(')')] + lr + rest;
    var all := [Sym('(')] + lt + [Sym(')')] + lr + rest;
    assert all[0] == Sym('(') && all[1..] == lt + tail && tail[0] == Sym(')') && tail[1..] == lr + rest;
    RedirsBack(s, lr, trs, rest);
    ShowWrap(s, ParseLine(lt + tail).cmd, ParseRedirs(lr + rest).rs, t, trs);
  }

  /** What ends a line: the end of the input, or the parenthesis that closes it. */
  predicate Ends(rest: seq<Tok>) { rest == [] || Next(rest, ")") }

  ghost predicate ParsesTo(s: seq<char>, r: Result, t: Tree, rest: seq<Tok>) { r.Ok? && r.rest == rest && Show(s, r.cmd) == t }

  /** The tokens between the parentheses of a grouped command. */
  lemma GroupMatch(s: seq<char>, ts: seq<Tok>, t: Tree)
    requires Composite(t) && Matches(s, ts, ExecToks(t))
    ensures |ts| >= 2 && Matches(s, ts[1..|ts| - 1], Parts(t)) && ts == [Sym('(')] + ts[1..|ts| - 1] + [Sym(')')]
  {
    hide Parts, MatchTok;
    var mid := Parts(t);
    MatchesSplit(s, ts, [PSym('(')] + mid, [PSym(')')]);
    var n := 1 + |mid|;
    MatchesSplit(s, ts[..n], [PSym('(')], mid);
    OneSymbol(s, ts[..n][..1], '(');
    OneSymbol(s, ts[n..], ')');
    assert ts[..n][1..] == ts[1..|ts| - 1];
  }

  lemma OneSymbol(s: seq<char>, ts: seq<Tok>, c: char)
    requires Matches(s, ts, [PSym(c)]) && c != '>'
    ensures ts == [Sym(c)]
  {
    assert MatchTok(s, ts[0], [PSym(c)][0]);
  }

  /** A parenthesized command with redirections parses back if its line does. */
  lemma GroupBack(s: seq<char>, ts: seq<Tok>, t: Tree, lr: seq<Tok>, trs: seq<TR>, rest: seq<Tok>)
    requires Composite(t) && Matches(s, ts, ExecToks(t)) && Matches(s, lr, TRToks(trs)) && !Next(rest, "<>+") && |ts| >= 2
    requires forall r :: Ends(r) ==> ParsesTo(s, ParseLine(ts[1..|ts| - 1] + r), t, r)
    ensures ParsesTo(s, ParseExec(ts + lr + rest), TWrap(t, trs), rest)
  {
    hide Show, TRToks, MatchTok, ParseLine, ParseExec, TWrap, ExecToks;
    GroupMatch(s, ts, t);
    var lt, tail := ts[1..|ts| - 1], [Sym(')')] + lr + rest;
    assert Ends(tail);
    assert ParsesTo(s, ParseLine(lt + tail), t, tail);
    BlockBack(s, lt, t, lr, trs, rest);
    assert [Sym('(')] + lt + [Sym(')')] + lr + rest == ts + lr + rest;
  }

  /** Two parts with a symbol between. */
  lemma PairMatch(s: seq<char>, ts: seq<Tok>, l: seq<PTok>, c: char, r: seq<PTok>) returns (a: seq<Tok>, b: seq<Tok>)
    requires Matches(s, ts, l + [PSym(c)] + r) && c != '>'
    ensures Matches(s, a, l) && Matches(s, b, r) && ts == a + [Sym(c)] + b
  {
    hide MatchTok;
    var n := |l|;
    MatchesSplit(s, ts, l + [PSym(c)], r);
    MatchesSplit(s, ts[..n + 1], l, [PSym(c)]);
    a, b := ts[..n + 1][..n], ts[n + 1..];
    var mid := ts[..n + 1][n..];
    OneSymbol(s, mid, c);
    assert ts == a + mid + b;
  }

  // ---------------------------------------------------------------- level by level

  /** The order of the induction: a command in parentheses comes after its parts without. */
  function RankPipe(t: Tree): nat { if t.TPipe? then 2 else 6 }
  function RankBack(t: Tree): nat { if t.TBack? || t.TPipe? then 3 else 7 }
  function RankLine(t: Tree): nat { if Composite(t) then 4 else 8 }

  lemma {:induction false} ExecBack(s: seq<char>, ts: seq<Tok>, t: Tree, rest: seq<Tok>)
    requires TreeOk(t) && Matches(s, ts, ExecToks(t)) && Delimited(rest)
    ensures ParsesTo(s, ParseExec(ts + rest), t, rest)
    decreases t, 5
  {
    hide Show, Matches, MatchTok, ParseLine, ParseExec, TWrap, Parts, TRToks, Toks, ExecToks;
    var b, trs := BaseOf(t), RedirsOf(t);
    ChainWraps(t);
    ChainToks(t);
    MatchesSplit(s, ts, ExecToks(b), TRToks(trs));
    var n := |ExecToks(b)|;
    var lb, lr := ts[..n], ts[n..];
    assert lb + lr + rest == ts + rest;
    if b.TExec? {
      WordToks(b);
      SimpleBack(s, lb, b.argv, lr, trs, rest);
    } else {
      GroupMatch(s, lb, b);
      var mid := lb[1..|lb| - 1];
      forall r | Ends(r) ensures ParsesTo(s, ParseLine(mid + r), b, r) {
        PartsToks(b);
        LineBack(s, mid, b, r);
      }
      GroupBack(s, lb, b, lr, trs, rest);
    }
  }

  lemma WordToks(b: Tree)
    requires b.TExec?
    ensures ExecToks(b) == PWords(b.argv)
  {
  }

  lemma PartsToks(t: Tree)
    requires Composite(t)
    ensures Toks(t) == Parts(t)
  {
    hide Parts, ExecToks;
    if t.TPipe? { assert PipeToks(t) == Parts(t); }
    if !t.TList? { assert BackToks(t) == Parts(t); }
  }

  lemma {:induction false} PipeBack(s: seq<char>, ts: seq<Tok>, t: Tree, rest: seq<Tok>)
    requires TreeOk(t) && Matches(s, ts, PipeToks(t)) && Delimited(rest) && !Next(rest, "|")
    ensures ParsesTo(s, ParsePipe(ts + rest), t, rest)
    decreases t, RankPipe(t)
  {
    hide Matches, MatchTok, ParseExec, ExecToks;
    if t.TPipe? {
      hide Show;
      var a, b := PairMatch(s, ts, ExecToks(t.left), '|', PipeToks(t.right));
      var tail := [Sym('|')] + b + rest;
      ExecBack(s, a, t.left, tail);
      PipeBack(s, b, t.right, rest);
      assert a + tail == ts + rest && tail[0] == Sym('|') && tail[1..] == b + rest;
    } else {
      ExecBack(s, ts, t, rest);
    }
  }

  /** A command followed by any number of "&". */
  lemma {:induction false} BackBack(s: seq<char>, ts: seq<Tok>, t: Tree, rest: seq<Tok>) returns (c: Cmd)
    requires TreeOk(t) && Matches(s, ts, BackToks(t)) && Delimited(rest) && !Next(rest, "|")
    ensures Show(s, c) == t && ParsePipe(ts + rest).Ok?
    ensures Backs(ParsePipe(ts + rest).cmd, ParsePipe(ts + rest).rest) == Backs(c, rest)
    decreases t, RankBack(t)
  {
    hide Matches, MatchTok, ParsePipe, PipeToks, ParseExec;
    if t.TBack? {
      MatchesSplit(s, ts, BackToks(t.cmd), [PSym('&')]);
      var n := |BackToks(t.cmd)|;
      OneSymbol(s, ts[n..], '&');
      var tail := [Sym('&')] + rest;
      var d := BackBack(s, ts[..n], t.cmd, tail);
      assert ts[..n] + tail == ts + rest && tail[1..] == rest;
      c := Back(d);
    } else {
      PipeBack(s, ts, t, rest);
      c := ParsePipe(ts + rest).cmd;
    }
  }

  lemma {:induction false} LineBack(s: seq<char>, ts: seq<Tok>, t: Tree, rest: seq<Tok>)
    requires TreeOk(t) && Matches(s, ts, Toks(t)) && Ends(rest)
    ensures ParsesTo(s, ParseLine(ts + rest), t, rest)
    decreases t, RankLine(t)
  {
    hide Matches, MatchTok, ParsePipe, BackToks, ParseExec;
    if t.TList? {
      var a, b := PairMatch(s, ts, BackToks(t.left), ';', Toks(t.right));
      var tail := [Sym(';')] + b + rest;
      var c := BackBack(s, a, t.left, tail);
      LineBack(s, b, t.right, rest);
      assert a + tail == ts + rest && tail[0] == Sym(';') && tail[1..] == b + rest;
      assert Backs(c, tail) == Ok(c, tail);
    } else {
      var c := BackBack(s, ts, t, rest);
      assert Backs(c, rest) == Ok(c, rest);
    }
  }

  /** Every command tree with at most 9 words in each simple command, printed in any look and parsed,
      comes back: with ">" or ">>" for each output redirection, and with white space left out wherever
      two tokens do not run together. */
  lemma RoundTrip(t: Tree, looks: seq<Look>, tail: string)
    requires TreeOk(t) && GoodLooks(Toks(t), looks, tail)
    ensures var s := Render(Toks(t), looks, tail); Parse(s).Ok? && Show(s, Parse(s).cmd) == t
  {
    hide Show, Matches, ParseLine, Toks, Render, Tokens, PTokOk;
    var s, ps := Render(Toks(t), looks, tail), Toks(t);
    ToksOk(t);
    assert s[0..] == s;
    LexRender(s, 0, ps, looks, tail);
    LineBack(s, Tokens(s, 0), t, []);
    assert Tokens(s, 0) + [] == Tokens(s, 0);
  }

  // ---------------------------------------------------------------- the other direction

  lemma WordIsOk(s: seq<char>, w: Tok)
    requires ShellCode.GoodWord(s, w)
    ensures WordOk(Word(s, w))
  {
  }

  lemma {:induction false} ShowOk(s: seq<char>, c: Cmd)
    requires ShellCode.Good(s, c)
    ensures TreeOk(Show(s, c))
  {
    hide WordOk, Word, ShellCode.GoodWord;
    match c
    case Exec(argv) => forall k | 0 <= k < |argv| ensures WordOk(Words(s, argv)[k]) { WordIsOk(s, argv[k]); }
    case Redir(d, f, _) => ShowOk(s, d); WordIsOk(s, f);
    case Pipe(l, r) => ShowOk(s, l); ShowOk(s, r);
    case List(l, r) => ShowOk(s, l); ShowOk(s, r);
    case Back(d) => ShowOk(s, d);
  }

  /** The trees that the parser yields are exactly those that the printer covers: every line that
      parses yields such a tree, and that tree is what its printed form yields. */
  lemma ParsedIsPrintable(s: seq<char>)
    requires Text(s) && Parse(s).Ok?
    ensures var t := Show(s, Parse(s).cmd);
      TreeOk(t) && Parse(Print(t)).Ok? && Show(Print(t), Parse(Print(t)).cmd) == t
  {
    hide Show, TreeOk, Parse, Render, Toks;
    ShellCode.ParseGood(s);
    ShowOk(s, Parse(s).cmd);
    RoundTrip(Show(s, Parse(s).cmd), Plain(|Toks(Show(s, Parse(s).cmd))|), "");
  }
}
