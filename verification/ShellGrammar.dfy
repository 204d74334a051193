/** The grammar of the shell's command lines, and that the recursive descent decides it: a line parses
    to a command exactly if the grammar derives the command from its tokens. */
module ShellGrammar {
  import opened ShellSpec

  // ---------------------------------------------------------------- the grammar

  /** "<", ">" or ">>" and a file. */
  ghost predicate IsRedir(op: Tok, file: Tok, r: R) {
    op.Sym? && (op.c == '<' || op.c == '>' || op.c == '+') && file.Word? && r.file == file && (r.input <==> op.c == '<')
  }

  ghost predicate IsRedirs(ts: seq<Tok>, rs: seq<R>)
    decreases |ts|
  {
    if ts == [] then rs == []
    else |ts| >= 2 && rs != [] && IsRedir(ts[0], ts[1], rs[0]) && IsRedirs(ts[2..], rs[1..])
  }

  /** Words and redirections in any order. */
  ghost predicate IsSimple(ts: seq<Tok>, args: seq<Tok>, rs: seq<R>)
    decreases |ts|
  {
    if ts == [] then args == [] && rs == []
    else if ts[0].Word? then args != [] && args[0] == ts[0] && IsSimple(ts[1..], args[1..], rs)
    else |ts| >= 2 && rs != [] && IsRedir(ts[0], ts[1], rs[0]) && IsSimple(ts[2..], args, rs[1..])
  }

  /** A line in parentheses, which ends before token k, and redirections. */
  ghost predicate IsBlock(ts: seq<Tok>, k: int, d: Cmd, rs: seq<R>)
    decreases |ts|, 0
  {
    0 < k < |ts| && ts[0] == Sym('(') && ts[k] == Sym(')') && IsLine(ts[1..k], d) && IsRedirs(ts[k + 1..], rs)
  }

  /** At most nine words with redirections, or a line in parentheses with redirections; the first
      redirection is innermost. */
  ghost predicate IsExec(ts: seq<Tok>, c: Cmd)
    decreases |ts|, 1
  {
    || (exists args, rs :: IsSimple(ts, args, rs) && |args| < 10 && c == Wrap(Exec(args), rs))
    || exists k, d, rs :: IsBlock(ts, k, d, rs) && c == Wrap(d, rs)
  }

  ghost predicate IsPipe(ts: seq<Tok>, c: Cmd)
    decreases |ts|, 2
  {
    || IsExec(ts, c)
    || exists k :: 0 <= k < |ts| && ts[k] == Sym('|') && c.Pipe? && IsExec(ts[..k], c.left) && IsPipe(ts[k + 1..], c.right)
  }

  ghost predicate IsBack(ts: seq<Tok>, c: Cmd)
    decreases |ts|, 3
  {
    || IsPipe(ts, c)
    || (ts != [] && ts[|ts| - 1] == Sym('&') && c.Back? && IsBack(ts[..|ts| - 1], c.cmd))
  }

  ghost predicate IsLine(ts: seq<Tok>, c: Cmd)
    decreases |ts|, 4
  {
    || IsBack(ts, c)
    || exists k :: 0 <= k < |ts| && ts[k] == Sym(';') && c.List? && IsBack(ts[..k], c.left) && IsLine(ts[k + 1..], c.right)
  }

  // ---------------------------------------------------------------- what parses is in the grammar

  lemma {:induction false} RedirsSound(ts: seq<Tok>) returns (n: nat)
    requires ParseRedirs(ts).Found?
    ensures n <= |ts| && ParseRedirs(ts).rest == ts[n..] && IsRedirs(ts[..n], ParseRedirs(ts).rs)
    decreases |ts|
  {
    if Next(ts, "<>+") {
      var m := RedirsSound(ts[2..]);
      n := m + 2;
      var rs := ParseRedirs(ts).rs;
      assert rs[1..] == ParseRedirs(ts[2..]).rs && ts[..n][2..] == ts[2..][..m] && ts[n..] == ts[2..][m..];
    } else {
      n := 0;
    }
  }

  lemma SimpleWord(ts: seq<Tok>, args: seq<Tok>, rs: seq<R>)
    requires IsSimple(ts, args, rs) && ts != [] && ts[0].Word?
    ensures args != [] && args[0] == ts[0] && IsSimple(ts[1..], args[1..], rs)
  {
  }

  lemma SimpleEmpty(ts: seq<Tok>, args: seq<Tok>, rs: seq<R>)
    requires IsSimple(ts, args, rs) && ts == []
    ensures args == [] && rs == []
  {
  }

  lemma SimpleRedir(ts: seq<Tok>, args: seq<Tok>, rs: seq<R>)
    requires IsSimple(ts, args, rs) && ts != [] && !ts[0].Word?
    ensures |ts| >= 2 && rs != [] && IsRedir(ts[0], ts[1], rs[0]) && IsSimple(ts[2..], args, rs[1..])
  {
  }

  lemma SimpleMore(w: Tok, ts: seq<Tok>, args: seq<Tok>, rs: seq<R>)
    requires IsSimple(ts, args, rs)
    ensures w.Word? ==> IsSimple([w] + ts, [w] + args, rs)
  {
    assert ([w] + ts)[1..] == ts && ([w] + args)[1..] == args;
  }

  lemma SimpleMoreRedir(op: Tok, file: Tok, r: R, ts: seq<Tok>, args: seq<Tok>, rs: seq<R>)
    requires IsSimple(ts, args, rs) && IsRedir(op, file, r)
    ensures IsSimple([op, file] + ts, args, [r] + rs)
  {
    assert ([op, file] + ts)[2..] == ts && ([r] + rs)[1..] == rs;
  }

  lemma {:induction false} SimpleCat(a: seq<Tok>, args: seq<Tok>, rs: seq<R>, b: seq<Tok>, more: seq<Tok>, rest: seq<R>)
    requires IsSimple(a, args, rs) && IsSimple(b, more, rest)
    ensures IsSimple(a + b, args + more, rs + rest)
    decreases |a|
  {
    hide IsSimple, IsRedir;
    if a == [] {
      SimpleEmpty(a, args, rs);
      assert a + b == b && args + more == more && rs + rest == rest;
    } else if a[0].Word? {
      SimpleWord(a, args, rs);
      SimpleCat(a[1..], args[1..], rs, b, more, rest);
      SimpleMore(a[0], a[1..] + b, args[1..] + more, rs + rest);
      assert a + b == [a[0]] + (a[1..] + b) && args + more == [args[0]] + (args[1..] + more);
    } else {
      SimpleRedir(a, args, rs);
      SimpleCat(a[2..], args, rs[1..], b, more, rest);
      SimpleMoreRedir(a[0], a[1], rs[0], a[2..] + b, args + more, rs[1..] + rest);
      assert a + b == [a[0], a[1]] + (a[2..] + b) && rs + rest == [rs[0]] + (rs[1..] + rest);
    }
  }

  lemma {:induction false} RedirsSimple(ts: seq<Tok>, rs: seq<R>)
    requires IsRedirs(ts, rs)
    ensures IsSimple(ts, [], rs)
    decreases |ts|
  {
    if ts != [] { RedirsSimple(ts[2..], rs[1..]); }
  }

  lemma SimpleIsExec(ts: seq<Tok>, args: seq<Tok>, rs: seq<R>)
    requires IsSimple(ts, args, rs) && |args| < 10
    ensures IsExec(ts, Wrap(Exec(args), rs))
  {
    hide IsSimple, IsBlock, Wrap;
  }

  lemma WordSimple(w: Tok, ts: seq<Tok>, rs: seq<R>)
    requires w.Word? && IsRedirs(ts, rs)
    ensures IsSimple([w] + ts, [w], rs)
  {
    hide IsRedirs, IsSimple;
    RedirsSimple(ts, rs);
    SimpleMore(w, ts, [], rs);
    assert [w] + [] == [w];
  }

  /** parseexec goes on with a word and the redirections behind it. */
  lemma ArgsNext(args: seq<Tok>, rs: seq<R>, ts: seq<Tok>)
    requires !(ts == [] || Next(ts, "|)&;")) && ParseArgs(args, rs, ts).Ok?
    ensures ts[0].Word? && |args| < 9 && ParseRedirs(ts[1..]).Found?
    ensures var r := ParseRedirs(ts[1..]); ParseArgs(args, rs, ts) == ParseArgs(args + [ts[0]], rs + r.rs, r.rest)
  {
    hide Wrap, ParseRedirs;
  }

  lemma Slices(pre: seq<Tok>, ts: seq<Tok>, m: nat, l: nat)
    requires m + 1 + l <= |ts|
    ensures var rest := ts[1..][m..]; var one := [ts[0]] + ts[1..][..m];
      l <= |rest| && pre + ts[..m + 1 + l] == (pre + one) + rest[..l] && ts[m + 1 + l..] == rest[l..]
  {
    assert ts[1..][m..] == ts[m + 1..];
    assert ts[..m + 1 + l] == ([ts[0]] + ts[1..][..m]) + ts[m + 1..][..l];
  }

  /** pre holds the tokens of the words args and redirections rs that were read before. */
  lemma {:induction false} ArgsSound(pre: seq<Tok>, args: seq<Tok>, rs: seq<R>, ts: seq<Tok>) returns (n: nat)
    requires IsSimple(pre, args, rs) && |args| < 10 && ParseArgs(args, rs, ts).Ok?
    ensures n <= |ts| && ParseArgs(args, rs, ts).rest == ts[n..] && IsExec(pre + ts[..n], ParseArgs(args, rs, ts).cmd)
    decreases |ts|
  {
    hide IsExec, IsSimple, IsRedirs, ParseRedirs, Wrap;
    if ts == [] || Next(ts, "|)&;") {
      n := 0;
      assert pre + ts[..0] == pre;
      SimpleIsExec(pre, args, rs);
    } else {
      ArgsNext(args, rs, ts);
      hide ParseArgs;
      var r := ParseRedirs(ts[1..]);
      var m := RedirsSound(ts[1..]);
      var one := [ts[0]] + ts[1..][..m];
      WordSimple(ts[0], ts[1..][..m], r.rs);
      SimpleCat(pre, args, rs, one, [ts[0]], r.rs);
      var l := ArgsSound(pre + one, args + [ts[0]], rs + r.rs, r.rest);
      n := m + 1 + l;
      Slices(pre, ts, m, l);
    }
  }

  lemma {:induction false} ExecSound(ts: seq<Tok>) returns (n: nat)
    requires ParseExec(ts).Ok?
    ensures n <= |ts| && ParseExec(ts).rest == ts[n..] && IsExec(ts[..n], ParseExec(ts).cmd)
    decreases |ts|, 1
  {
    hide IsLine, ParseLine, IsSimple, IsRedirs, ParseRedirs, ParseArgs, IsExec;
    if Next(ts, "(") {
      var r := ParseLine(ts[1..]);
      var m := LineSound(ts[1..]);
      var q := ParseRedirs(r.rest[1..]);
      var l := RedirsSound(r.rest[1..]);
      n := m + 2 + l;
      assert r.rest == ts[m + 1..] && r.rest[1..] == ts[m + 2..] && ts[n..] == r.rest[1..][l..];
      BlockIsExec(ts, m, l, r.cmd, q.rs);
    } else {
      var m := RedirsSound(ts);
      RedirsSimple(ts[..m], ParseRedirs(ts).rs);
      var l := ArgsSound(ts[..m], [], ParseRedirs(ts).rs, ParseRedirs(ts).rest);
      n := m + l;
      assert ts[..n] == ts[..m] + ts[m..][..l] && ts[n..] == ts[m..][l..];
    }
  }

  lemma BlockIsExec(ts: seq<Tok>, m: nat, l: nat, d: Cmd, rs: seq<R>)
    requires m + 2 + l <= |ts| && ts[0] == Sym('(') && ts[m + 1] == Sym(')') && IsLine(ts[1..][..m], d) && IsRedirs(ts[m + 2..][..l], rs)
    ensures IsExec(ts[..m + 2 + l], Wrap(d, rs))
  {
    hide IsLine, IsSimple, IsRedirs, Wrap;
    var a := ts[..m + 2 + l];
    assert a[1..m + 1] == ts[1..][..m] && a[m + 2..] == ts[m + 2..][..l];
    assert IsBlock(a, m + 1, d, rs);
  }

  lemma Join(ts: seq<Tok>, m: nat, l: nat)
    requires m + l <= |ts|
    ensures ts[..m + l] == ts[..m] + ts[m..][..l] && ts[m + l..] == ts[m..][l..]
  {
  }

  lemma Split(ts: seq<Tok>, m: nat, l: nat)
    requires m + 1 + l <= |ts|
    ensures var a, rest := ts[..m + 1 + l], ts[m..][1..];
      a[..m] == ts[..m] && a[m] == ts[m..][0] && a[m + 1..] == rest[..l] && ts[m + 1 + l..] == rest[l..]
  {
  }

  lemma {:induction false} PipeSound(ts: seq<Tok>) returns (n: nat)
    requires ParsePipe(ts).Ok?
    ensures n <= |ts| && ParsePipe(ts).rest == ts[n..] && IsPipe(ts[..n], ParsePipe(ts).cmd)
    decreases |ts|, 2
  {
    hide ParseExec, IsExec;
    var r := ParseExec(ts);
    var m := ExecSound(ts);
    n := m;
    if Next(r.rest, "|") {
      var l := PipeSound(r.rest[1..]);
      n := m + 1 + l;
      Split(ts, m, l);
    }
  }

  lemma {:induction false} BacksSound(pre: seq<Tok>, c: Cmd, ts: seq<Tok>) returns (n: nat)
    requires IsBack(pre, c)
    ensures n <= |ts| && Backs(c, ts).rest == ts[n..] && IsBack(pre + ts[..n], Backs(c, ts).cmd)
    decreases |ts|
  {
    hide IsPipe;
    if Next(ts, "&") {
      var one := pre + [ts[0]];
      assert one[..|one| - 1] == pre;
      var m := BacksSound(one, Back(c), ts[1..]);
      n := m + 1;
      assert pre + ts[..n] == one + ts[1..][..m] && ts[n..] == ts[1..][m..];
    } else {
      n := 0;
      assert pre + ts[..0] == pre;
    }
  }

  lemma {:induction false} LineSound(ts: seq<Tok>) returns (n: nat)
    requires ParseLine(ts).Ok?
    ensures n <= |ts| && ParseLine(ts).rest == ts[n..] && IsLine(ts[..n], ParseLine(ts).cmd)
    decreases |ts|, 3
  {
    hide ParsePipe, IsPipe, Backs, IsBack;
    var r := ParsePipe(ts);
    var m := PipeSound(ts);
    assert IsBack(ts[..m], r.cmd) by { PipeIsBack(ts[..m], r.cmd); }
    var b := Backs(r.cmd, r.rest);
    var l := BacksSound(ts[..m], r.cmd, r.rest);
    Join(ts, m, l);
    n := m + l;
    if Next(b.rest, ";") {
      var j := LineSound(b.rest[1..]);
      var k := n;
      n := k + 1 + j;
      Split(ts, k, j);
    }
  }

  lemma PipeIsBack(ts: seq<Tok>, c: Cmd)
    requires IsPipe(ts, c)
    ensures IsBack(ts, c)
  {
    hide IsPipe;
  }

  // ---------------------------------------------------------------- what is in the grammar parses

  lemma {:induction false} RedirsFound(ts: seq<Tok>, rs: seq<R>, rest: seq<Tok>)
    requires IsRedirs(ts, rs) && !Next(rest, "<>+")
    ensures ParseRedirs(ts + rest) == Found(rs, rest)
    decreases |ts|
  {
    if ts == [] {
      assert ts + rest == rest;
    } else {
      RedirsFound(ts[2..], rs[1..], rest);
      assert (ts + rest)[2..] == ts[2..] + rest && rs == [rs[0]] + rs[1..];
    }
  }

  /** The redirections up to the next word, and what follows them. */
  lemma {:induction false} SimpleFront(ts: seq<Tok>, args: seq<Tok>, rs: seq<R>, rest: seq<Tok>) returns (n: nat, m: nat)
    requires IsSimple(ts, args, rs) && !Next(rest, "<>+")
    ensures n <= |ts| && m <= |rs| && IsSimple(ts[n..], args, rs[m..]) && (n < |ts| ==> ts[n].Word?)
    ensures ParseRedirs(ts + rest) == Found(rs[..m], ts[n..] + rest)
    decreases |ts|
  {
    hide IsSimple;
    if ts == [] || ts[0].Word? {
      n, m := 0, 0;
      assert ts[0..] == ts && rs[0..] == rs;
      assert ts == [] ==> ts + rest == rest;
    } else {
      SimpleRedir(ts, args, rs);
      var k, l := SimpleFront(ts[2..], args, rs[1..], rest);
      n, m := k + 2, l + 1;
      assert (ts + rest)[2..] == ts[2..] + rest && ts[n..] == ts[2..][k..] && rs[m..] == rs[1..][l..] && rs[..m] == [rs[0]] + rs[1..][..l];
    }
  }

  lemma ArgsEnd(args: seq<Tok>, rs: seq<R>, ts: seq<Tok>)
    requires ts == [] || Next(ts, "|)&;")
    ensures ParseArgs(args, rs, ts) == Ok(Wrap(Exec(args), rs), ts)
  {
    hide Wrap;
  }

  lemma ArgsGoOn(args: seq<Tok>, rs: seq<R>, ts: seq<Tok>, more: seq<R>, rest: seq<Tok>)
    requires ts != [] && ts[0].Word? && |args| < 9 && ParseRedirs(ts[1..]) == Found(more, rest)
    ensures |rest| < |ts| && ParseArgs(args, rs, ts) == ParseArgs(args + [ts[0]], rs + more, rest)
  {
    hide Wrap, ParseRedirs;
  }

  lemma {:induction false} ArgsFound(args: seq<Tok>, rs: seq<R>, ts: seq<Tok>, more: seq<Tok>, qs: seq<R>, rest: seq<Tok>)
    requires IsSimple(ts, more, qs) && (ts != [] ==> ts[0].Word?) && |args| + |more| < 10 && (rest == [] || Next(rest, "|)&;"))
    ensures ParseArgs(args, rs, ts + rest) == Ok(Wrap(Exec(args + more), rs + qs), rest)
    decreases |ts|
  {
    hide Wrap, ParseRedirs, ParseArgs, IsSimple;
    if ts == [] {
      SimpleEmpty(ts, more, qs);
      ArgsEnd(args, rs, rest);
      assert ts + rest == rest && args + more == args && rs + qs == rs;
    } else {
      SimpleWord(ts, more, qs);
      var n, m := SimpleFront(ts[1..], more[1..], qs, rest);
      var tail := ts[1..][n..];
      assert (ts + rest)[1..] == ts[1..] + rest;
      ArgsGoOn(args, rs, ts + rest, qs[..m], tail + rest);
      ArgsFound(args + [ts[0]], rs + qs[..m], tail, more[1..], qs[m..], rest);
      assert args + [ts[0]] + more[1..] == args + more && rs + qs[..m] + qs[m..] == rs + qs;
    }
  }

  lemma SimpleExecFound(ts: seq<Tok>, args: seq<Tok>, rs: seq<R>, rest: seq<Tok>)
    requires IsSimple(ts, args, rs) && |args| < 10 && (rest == [] || Next(rest, "|)&;"))
    ensures ParseExec(ts + rest) == Ok(Wrap(Exec(args), rs), rest)
  {
    hide Wrap, ParseRedirs, ParseArgs, IsSimple, ParseLine;
    var n, m := SimpleFront(ts, args, rs, rest);
    ArgsFound([], rs[..m], ts[n..], args, rs[m..], rest);
    assert [] + args == args && rs[..m] + rs[m..] == rs;
    SimpleFirst(ts, args, rs, rest);
  }

  lemma {:induction false} ExecFound(ts: seq<Tok>, c: Cmd, rest: seq<Tok>)
    requires IsExec(ts, c) && (rest == [] || Next(rest, "|)&;"))
    ensures ParseExec(ts + rest) == Ok(c, rest)
    decreases |ts|, 1
  {
    hide IsLine, IsSimple, IsRedirs, ParseExec, Wrap;
    if exists args, rs :: IsSimple(ts, args, rs) && |args| < 10 && c == Wrap(Exec(args), rs) {
      var args, rs :| IsSimple(ts, args, rs) && |args| < 10 && c == Wrap(Exec(args), rs);
      SimpleExecFound(ts, args, rs, rest);
    } else {
      var k, d, rs :| IsBlock(ts, k, d, rs) && c == Wrap(d, rs);
      LineFound(ts[1..k], d, ts[k..] + rest);
      BlockExecFound(ts, k, d, rs, rest);
    }
  }

  lemma BlockExecFound(ts: seq<Tok>, k: int, d: Cmd, rs: seq<R>, rest: seq<Tok>)
    requires IsBlock(ts, k, d, rs) && ParseLine(ts[1..k] + (ts[k..] + rest)) == Ok(d, ts[k..] + rest) && (rest == [] || Next(rest, "|)&;"))
    ensures ParseExec(ts + rest) == Ok(Wrap(d, rs), rest)
  {
    hide IsLine, ParseLine, ParseRedirs, IsRedirs, Wrap;
    var tail := ts[k..] + rest;
    assert (ts + rest)[1..] == ts[1..k] + tail && tail[0] == Sym(')') && tail[1..] == ts[k + 1..] + rest;
    RedirsFound(ts[k + 1..], rs, rest);
  }

  lemma SimpleFirst(ts: seq<Tok>, args: seq<Tok>, rs: seq<R>, rest: seq<Tok>)
    requires IsSimple(ts, args, rs) && (rest == [] || Next(rest, "|)&;"))
    ensures !Next(ts + rest, "(")
  {
    if ts == [] { assert ts + rest == rest; }
  }

  lemma {:induction false} PipeFound(ts: seq<Tok>, c: Cmd, rest: seq<Tok>)
    requires IsPipe(ts, c) && (rest == [] || Next(rest, ")&;"))
    ensures ParsePipe(ts + rest) == Ok(c, rest)
    decreases |ts|, 2
  {
    hide IsExec, ParseExec;
    if IsExec(ts, c) {
      ExecFound(ts, c, rest);
    } else {
      var k :| 0 <= k < |ts| && ts[k] == Sym('|') && c.Pipe? && IsExec(ts[..k], c.left) && IsPipe(ts[k + 1..], c.right);
      var tail := ts[k..] + rest;
      assert ts + rest == ts[..k] + tail && tail[0] == Sym('|') && tail[1..] == ts[k + 1..] + rest;
      ExecFound(ts[..k], c.left, tail);
      PipeFound(ts[k + 1..], c.right, rest);
    }
  }

  lemma {:induction false} BackFound(ts: seq<Tok>, c: Cmd, rest: seq<Tok>)
    requires IsBack(ts, c) && (rest == [] || Next(rest, ")&;"))
    ensures ParsePipe(ts + rest).Ok? && Backs(ParsePipe(ts + rest).cmd, ParsePipe(ts + rest).rest) == Backs(c, rest)
    decreases |ts|, 3
  {
    hide IsPipe, ParsePipe;
    if IsPipe(ts, c) {
      PipeFound(ts, c, rest);
    } else {
      var n := |ts| - 1;
      var tail := [ts[n]] + rest;
      assert ts + rest == ts[..n] + tail && tail[1..] == rest;
      BackFound(ts[..n], c.cmd, tail);
    }
  }

  lemma NoBack(c: Cmd, rest: seq<Tok>)
    ensures !Next(rest, "&") ==> Backs(c, rest) == Ok(c, rest)
  {
  }

  lemma LineEnd(all: seq<Tok>, b: Cmd, tail: seq<Tok>)
    requires ParsePipe(all).Ok? && Backs(ParsePipe(all).cmd, ParsePipe(all).rest) == Ok(b, tail)
    ensures !Next(tail, ";") ==> ParseLine(all) == Ok(b, tail)
    ensures Next(tail, ";") && ParseLine(tail[1..]).Ok? ==> ParseLine(all) == Ok(List(b, ParseLine(tail[1..]).cmd), ParseLine(tail[1..]).rest)
  {
    hide ParsePipe, Backs;
  }

  /** A line is a command, or one up to the ";" at k and a line behind it. */
  lemma LineCases(ts: seq<Tok>, c: Cmd) returns (k: nat)
    requires IsLine(ts, c)
    ensures k <= |ts|
    ensures if k == |ts| then IsBack(ts, c)
            else ts[k] == Sym(';') && c.List? && IsBack(ts[..k], c.left) && IsLine(ts[k + 1..], c.right)
  {
    hide IsBack;
    if IsBack(ts, c) {
      k := |ts|;
    } else {
      k :| 0 <= k < |ts| && ts[k] == Sym(';') && c.List? && IsBack(ts[..k], c.left) && IsLine(ts[k + 1..], c.right);
    }
  }

  lemma Regrouped(ts: seq<Tok>, k: nat, rest: seq<Tok>)
    requires k < |ts|
    ensures var tail := ts[k..] + rest; ts + rest == ts[..k] + tail && tail[0] == ts[k] && tail[1..] == ts[k + 1..] + rest
  {
  }

  lemma {:induction false} LineFound(ts: seq<Tok>, c: Cmd, rest: seq<Tok>)
    requires IsLine(ts, c) && (rest == [] || Next(rest, ")"))
    ensures ParseLine(ts + rest) == Ok(c, rest)
    decreases |ts|, 4
  {
    hide IsLine, IsBack, ParsePipe, Backs, ParseLine;
    var k := LineCases(ts, c);
    if k == |ts| {
      BackFound(ts, c, rest);
      NoBack(c, rest);
      LineEnd(ts + rest, c, rest);
    } else {
      var tail := ts[k..] + rest;
      Regrouped(ts, k, rest);
      BackFound(ts[..k], c.left, tail);
      NoBack(c.left, tail);
      LineFound(ts[k + 1..], c.right, rest);
      LineEnd(ts + rest, c.left, tail);
    }
  }

  /** A line parses to a command exactly if the grammar derives it from the line's tokens.  So it is an
      error exactly if the grammar derives nothing. */
  lemma ParseIff(s: seq<char>, c: Cmd)
    ensures Parse(s) == Ok(c, []) <==> IsLine(Tokens(s, 0), c)
  {
    hide IsLine, ParseLine, Tokens;
    var ts := Tokens(s, 0);
    if Parse(s) == Ok(c, []) {
      var n := LineSound(ts);
      assert n == |ts| && ts[..n] == ts;
    }
    if IsLine(ts, c) {
      LineFound(ts, c, []);
      assert ts + [] == ts;
    }
  }
}
