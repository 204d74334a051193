/** The language of the shell (sh.c): tokens of the command line, and what the recursive descent
    makes of them. */
module ShellSpec {

  const MAXARGS: int := 10

  // ---------------------------------------------------------------- characters and tokens

  predicate IsSpace(c: char) { c == ' ' || c == '\t' || c == '\r' || c == '\n' || c == 11 as char }
  predicate IsSymbol(c: char) { c == '<' || c == '|' || c == '>' || c == '&' || c == ';' || c == '(' || c == ')' }
  predicate IsWordChar(c: char) { !IsSpace(c) && !IsSymbol(c) && c != 0 as char }

  /** A C string: no NUL inside. */
  predicate Text(s: seq<char>) { forall k :: 0 <= k < |s| ==> s[k] != 0 as char }

  function SkipSpace(s: seq<char>, i: nat): (r: nat)
    requires i <= |s|
    ensures i <= r <= |s| && (r < |s| ==> !IsSpace(s[r])) && forall k :: i <= k < r ==> IsSpace(s[k])
    decreases |s| - i
  {
    if i < |s| && IsSpace(s[i]) then SkipSpace(s, i + 1) else i
  }

  function SkipWord(s: seq<char>, i: nat): (r: nat)
    requires i <= |s|
    ensures i <= r <= |s| && (r < |s| ==> IsSpace(s[r]) || IsSymbol(s[r]))
    ensures forall k :: i <= k < r ==> !IsSpace(s[k]) && !IsSymbol(s[k])
    decreases |s| - i
  {
    if i < |s| && !IsSpace(s[i]) && !IsSymbol(s[i]) then SkipWord(s, i + 1) else i
  }

  /** A word is the range of the line from q to eq; '+' stands for ">>". */
  datatype Tok = Word(q: nat, eq: nat) | Sym(c: char)

  /** The token at i, which is no space. */
  function TokAt(s: seq<char>, i: nat): Tok
    requires i < |s|
  {
    if !IsSymbol(s[i]) then Word(i, SkipWord(s, i))
    else if s[i] == '>' && i + 1 < |s| && s[i + 1] == '>' then Sym('+')
    else Sym(s[i])
  }

  function TokEnd(s: seq<char>, i: nat): (r: nat)
    requires i < |s| && !IsSpace(s[i])
    ensures i < r <= |s|
  {
    if !IsSymbol(s[i]) then SkipWord(s, i)
    else if s[i] == '>' && i + 1 < |s| && s[i + 1] == '>' then i + 2
    else i + 1
  }

  /** The tokens of the line from i on. */
  function Tokens(s: seq<char>, i: nat): (ts: seq<Tok>)
    requires i <= |s|
    decreases |s| - i
  {
    var j := SkipSpace(s, i);
    if j == |s| then [] else [TokAt(s, j)] + Tokens(s, TokEnd(s, j))
  }

  /** A word of the line: characters of a word, up to where none follows. */
  ghost predicate WordAt(s: seq<char>, q: int, eq: int) {
    && 0 <= q < eq <= |s| && (forall k :: q <= k < eq ==> IsWordChar(s[k]))
    && (eq < |s| ==> !IsWordChar(s[eq]))
  }

  ghost predicate TokOk(s: seq<char>, t: Tok) { t.Word? ==> WordAt(s, t.q, t.eq) }

  lemma {:induction false} TokensOk(s: seq<char>, i: nat)
    requires i <= |s| && Text(s)
    ensures forall k :: 0 <= k < |Tokens(s, i)| ==> TokOk(s, Tokens(s, i)[k])
    decreases |s| - i
  {
    hide SkipWord, SkipSpace;
    var j := SkipSpace(s, i);
    if j < |s| { TokensOk(s, TokEnd(s, j)); }
  }

  // ---------------------------------------------------------------- the parser, on tokens

  datatype Cmd =
    | Exec(argv: seq<Tok>)
    | Redir(cmd: Cmd, file: Tok, input: bool)      // input: "<" to descriptor 0, else ">" or ">>" to 1
    | Pipe(left: Cmd, right: Cmd)
    | List(left: Cmd, right: Cmd)
    | Back(cmd: Cmd)

  datatype Result = Ok(cmd: Cmd, rest: seq<Tok>) | Err

  datatype R = R(file: Tok, input: bool)
  datatype Redirs = Found(rs: seq<R>, rest: seq<Tok>) | Missing

  /** The next token is one of the given symbols. */
  predicate Next(ts: seq<Tok>, cs: string) { ts != [] && ts[0].Sym? && ts[0].c in cs }

  function ParseRedirs(ts: seq<Tok>): (r: Redirs)
    ensures r.Found? ==> |r.rest| <= |ts|
  {
    if !Next(ts, "<>+") then Found([], ts)
    else if |ts| < 2 || !ts[1].Word? then Missing
    else match ParseRedirs(ts[2..])
         case Found(rs, rest) => Found([R(ts[1], ts[0].c == '<')] + rs, rest)
         case Missing => Missing
  }

  /** The command with redirections around it, the first innermost. */
  function Wrap(c: Cmd, rs: seq<R>): Cmd
    decreases |rs|
  {
    if rs == [] then c else Wrap(Redir(c, rs[0].file, rs[0].input), rs[1..])
  }

  /** The rest of a simple command that has the words args and the redirections rs. */
  function ParseArgs(args: seq<Tok>, rs: seq<R>, ts: seq<Tok>): (r: Result)
    ensures r.Ok? ==> |r.rest| <= |ts|
    decreases |ts|
  {
    if ts == [] || Next(ts, "|)&;") then Ok(Wrap(Exec(args), rs), ts)
    else if !ts[0].Word? || |args| + 1 >= MAXARGS then Err
    else match ParseRedirs(ts[1..])
         case Found(more, rest) => ParseArgs(args + [ts[0]], rs + more, rest)
         case Missing => Err
  }

  function ParseExec(ts: seq<Tok>): (r: Result)
    ensures r.Ok? ==> |r.rest| <= |ts|
    decreases |ts|, 1
  {
    if Next(ts, "(") then ParseBlock(ts)
    else match ParseRedirs(ts)
         case Found(rs, rest) => ParseArgs([], rs, rest)
         case Missing => Err
  }

  function ParseBlock(ts: seq<Tok>): (r: Result)
    requires Next(ts, "(")
    ensures r.Ok? ==> |r.rest| <= |ts|
    decreases |ts|, 0
  {
    match ParseLine(ts[1..])
    case Err => Err
    case Ok(c, rest) =>
      if !Next(rest, ")") then Err
      else match ParseRedirs(rest[1..])
           case Found(rs, rest') => Ok(Wrap(c, rs), rest')
           case Missing => Err
  }

  function ParsePipe(ts: seq<Tok>): (r: Result)
    ensures r.Ok? ==> |r.rest| <= |ts|
    decreases |ts|, 2
  {
    match ParseExec(ts)
    case Err => Err
    case Ok(c, rest) =>
      if !Next(rest, "|") then Ok(c, rest)
      else match ParsePipe(rest[1..])
           case Err => Err
           case Ok(d, rest') => Ok(Pipe(c, d), rest')
  }

  function Backs(c: Cmd, ts: seq<Tok>): (r: Result)
    ensures r.Ok? && |r.rest| <= |ts|
    decreases |ts|
  {
    if Next(ts, "&") then Backs(Back(c), ts[1..]) else Ok(c, ts)
  }

  function ParseLine(ts: seq<Tok>): (r: Result)
    ensures r.Ok? ==> |r.rest| <= |ts|
    decreases |ts|, 3
  {
    match ParsePipe(ts)
    case Err => Err
    case Ok(c, rest) =>
      var b := Backs(c, rest);
      if !Next(b.rest, ";") then b
      else match ParseLine(b.rest[1..])
           case Err => Err
           case Ok(d, rest') => Ok(List(b.cmd, d), rest')
  }

  /** parsecmd: the whole line must be used up. */
  function Parse(s: seq<char>): Result {
    match ParseLine(Tokens(s, 0))
    case Err => Err
    case Ok(c, rest) => if rest == [] then Ok(c, rest) else Err
  }
}
