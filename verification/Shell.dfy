/** The shell's parser on its cursor, and nulterminate on its buffer. */
module ShellCode {
  import opened ShellSpec

  const NUL: char := 0 as char

  // ---------------------------------------------------------------- words of a command

  ghost predicate GoodWord(s: seq<char>, t: Tok) { t.Word? && WordAt(s, t.q, t.eq) }

  /** All words and file names of the command are words of the line, and no simple command has more
      than argv has room for. */
  ghost predicate Good(s: seq<char>, c: Cmd) {
    match c
    case Exec(argv) => |argv| < MAXARGS && forall k :: 0 <= k < |argv| ==> GoodWord(s, argv[k])
    case Redir(d, f, _) => Good(s, d) && GoodWord(s, f)
    case Pipe(l, r) => Good(s, l) && Good(s, r)
    case List(l, r) => Good(s, l) && Good(s, r)
    case Back(d) => Good(s, d)
  }

  ghost predicate AllOk(s: seq<char>, ts: seq<Tok>) { forall k :: 0 <= k < |ts| ==> TokOk(s, ts[k]) }

  lemma {:induction false} RedirsGood(s: seq<char>, ts: seq<Tok>)
    requires AllOk(s, ts) && ParseRedirs(ts).Found?
    ensures AllOk(s, ParseRedirs(ts).rest) && forall k :: 0 <= k < |ParseRedirs(ts).rs| ==> GoodWord(s, ParseRedirs(ts).rs[k].file)
    decreases |ts|
  {
    hide WordAt;
    if Next(ts, "<>+") {
      RedirsGood(s, ts[2..]);
      var sub, rs := ParseRedirs(ts[2..]).rs, ParseRedirs(ts).rs;
      assert TokOk(s, ts[1]) && rs == [R(ts[1], ts[0].c == '<')] + sub;
      forall k | 0 <= k < |rs| ensures GoodWord(s, rs[k].file) { if k > 0 { assert rs[k] == sub[k - 1]; } }
    }
  }

  lemma {:induction false} WrapGood(s: seq<char>, c: Cmd, rs: seq<R>)
    requires Good(s, c) && forall k :: 0 <= k < |rs| ==> GoodWord(s, rs[k].file)
    ensures Good(s, Wrap(c, rs))
    decreases |rs|
  {
    hide GoodWord;
    if rs != [] { WrapGood(s, Redir(c, rs[0].file, rs[0].input), rs[1..]); }
  }

  lemma {:induction false} ArgsGood(s: seq<char>, args: seq<Tok>, rs: seq<R>, ts: seq<Tok>)
    requires AllOk(s, ts) && Good(s, Exec(args)) && (forall k :: 0 <= k < |rs| ==> GoodWord(s, rs[k].file)) && ParseArgs(args, rs, ts).Ok?
    ensures Good(s, ParseArgs(args, rs, ts).cmd) && AllOk(s, ParseArgs(args, rs, ts).rest)
    decreases |ts|
  {
    hide WordAt;
    if ts == [] || Next(ts, "|)&;") {
      WrapGood(s, Exec(args), rs);
    } else {
      assert TokOk(s, ts[0]);
      RedirsGood(s, ts[1..]);
      ArgsGood(s, args + [ts[0]], rs + ParseRedirs(ts[1..]).rs, ParseRedirs(ts[1..]).rest);
    }
  }

  lemma {:induction false} ExecGood(s: seq<char>, ts: seq<Tok>)
    requires AllOk(s, ts) && ParseExec(ts).Ok?
    ensures Good(s, ParseExec(ts).cmd) && AllOk(s, ParseExec(ts).rest)
    decreases |ts|, 1
  {
    hide WordAt;
    if Next(ts, "(") {
      LineGood(s, ts[1..]);
      var r := ParseLine(ts[1..]);
      RedirsGood(s, r.rest[1..]);
      WrapGood(s, r.cmd, ParseRedirs(r.rest[1..]).rs);
    } else {
      RedirsGood(s, ts);
      ArgsGood(s, [], ParseRedirs(ts).rs, ParseRedirs(ts).rest);
    }
  }

  lemma {:induction false} PipeGood(s: seq<char>, ts: seq<Tok>)
    requires AllOk(s, ts) && ParsePipe(ts).Ok?
    ensures Good(s, ParsePipe(ts).cmd) && AllOk(s, ParsePipe(ts).rest)
    decreases |ts|, 2
  {
    hide ParseExec, TokOk;
    ExecGood(s, ts);
    var r := ParseExec(ts);
    if Next(r.rest, "|") { PipeGood(s, r.rest[1..]); }
  }

  lemma {:induction false} BacksGood(s: seq<char>, c: Cmd, ts: seq<Tok>)
    requires AllOk(s, ts) && Good(s, c)
    ensures Good(s, Backs(c, ts).cmd) && AllOk(s, Backs(c, ts).rest)
    decreases |ts|
  {
    hide TokOk;
    if Next(ts, "&") { BacksGood(s, Back(c), ts[1..]); }
  }

  lemma {:induction false} LineGood(s: seq<char>, ts: seq<Tok>)
    requires AllOk(s, ts) && ParseLine(ts).Ok?
    ensures Good(s, ParseLine(ts).cmd) && AllOk(s, ParseLine(ts).rest)
    decreases |ts|, 3
  {
    hide ParsePipe, Backs, TokOk;
    PipeGood(s, ts);
    var r := ParsePipe(ts);
    BacksGood(s, r.cmd, r.rest);
    var b := Backs(r.cmd, r.rest);
    if Next(b.rest, ";") { LineGood(s, b.rest[1..]); }
  }

  /** Whatever parses, its words and file names are words of the line, at most 9 to a simple command. */
  lemma ParseGood(s: seq<char>)
    requires Text(s) && Parse(s).Ok?
    ensures Good(s, Parse(s).cmd)
  {
    hide ParseLine, Tokens;
    TokensOk(s, 0);
    LineGood(s, Tokens(s, 0));
  }

  // ---------------------------------------------------------------- nulterminate

  /** Where nulterminate stores a NUL. */
  ghost function Stops(c: Cmd): set<int> {
    match c
    case Exec(argv) => set k | 0 <= k < |argv| && argv[k].Word? :: argv[k].eq
    case Redir(d, f, _) => Stops(d) + if f.Word? then {f.eq} else {}
    case Pipe(l, r) => Stops(l) + Stops(r)
    case List(l, r) => Stops(l) + Stops(r)
    case Back(d) => Stops(d)
  }

  /** The words and file names of a command. */
  ghost function WordsOf(c: Cmd): set<Tok> {
    match c
    case Exec(argv) => set k | 0 <= k < |argv| :: argv[k]
    case Redir(d, f, _) => WordsOf(d) + {f}
    case Pipe(l, r) => WordsOf(l) + WordsOf(r)
    case List(l, r) => WordsOf(l) + WordsOf(r)
    case Back(d) => WordsOf(d)
  }

  /** The line and its NUL, with more NULs stored at the given places. */
  ghost predicate Marked(s: seq<char>, b: seq<char>, marks: set<int>) {
    |b| == |s| + 1 && forall k :: 0 <= k < |b| ==> b[k] == if k in marks || k == |s| then NUL else s[k]
  }

  lemma {:induction false} StopsOutside(s: seq<char>, c: Cmd, e: int)
    requires Good(s, c) && e in Stops(c)
    ensures 0 <= e <= |s| && (e < |s| ==> !IsWordChar(s[e]))
  {
    match c
    case Exec(argv) =>
      var k :| 0 <= k < |argv| && argv[k].Word? && argv[k].eq == e;
      assert GoodWord(s, argv[k]);
    case Redir(d, f, _) => if e in Stops(d) { StopsOutside(s, d, e); }
    case Pipe(l, r) => if e in Stops(l) { StopsOutside(s, l, e); } else { StopsOutside(s, r, e); }
    case List(l, r) => if e in Stops(l) { StopsOutside(s, l, e); } else { StopsOutside(s, r, e); }
    case Back(d) => StopsOutside(s, d, e);
  }

  lemma {:induction false} WordsGood(s: seq<char>, c: Cmd, w: Tok)
    requires Good(s, c) && w in WordsOf(c)
    ensures GoodWord(s, w) && w.eq in Stops(c)
  {
    hide GoodWord;
    match c
    case Exec(argv) =>
      var k :| 0 <= k < |argv| && argv[k] == w;
      assert GoodWord(s, argv[k]);
      assert w.Word? by { GoodIsWord(s, w); }
    case Redir(d, f, _) => if w in WordsOf(d) { WordsGood(s, d, w); } else { GoodIsWord(s, w); }
    case Pipe(l, r) => if w in WordsOf(l) { WordsGood(s, l, w); } else { WordsGood(s, r, w); }
    case List(l, r) => if w in WordsOf(l) { WordsGood(s, l, w); } else { WordsGood(s, r, w); }
    case Back(d) => WordsGood(s, d, w);
  }

  lemma GoodIsWord(s: seq<char>, w: Tok)
    requires GoodWord(s, w)
    ensures w.Word?
  {
  }

  /** The bytes from q up to the first NUL, which is at eq. */
  ghost predicate StringAt(b: seq<char>, q: int, eq: int, w: seq<char>) {
    0 <= q <= eq < |b| && b[q..eq] == w && b[eq] == NUL && forall k :: q <= k < eq ==> b[k] != NUL
  }

  /** After nulterminate every word and file name of the command is a string of its own, equal to its
      token: no NUL lands inside a word. */
  lemma Terminated(s: seq<char>, b: seq<char>, w: Tok)
    requires Text(s) && Parse(s).Ok? && Marked(s, b, Stops(Parse(s).cmd)) && w in WordsOf(Parse(s).cmd)
    ensures w.Word? && w.q < w.eq <= |s| && StringAt(b, w.q, w.eq, s[w.q..w.eq])
  {
    hide Parse, Stops, WordsOf, Good, IsWordChar;
    var c := Parse(s).cmd;
    ParseGood(s);
    WordsGood(s, c, w);
    forall k | w.q <= k < w.eq ensures b[k] == s[k] && b[k] != NUL {
      if k in Stops(c) { StopsOutside(s, c, k); }
    }
    assert b[w.q..w.eq] == s[w.q..w.eq];
  }

  /** nulterminate, on the buffer. */
  method NulTerminate(buf: array<char>, c: Cmd, ghost s: seq<char>, ghost marks: set<int>)
    requires Good(s, c) && Marked(s, buf[..], marks)
    modifies buf
    ensures Marked(s, buf[..], marks + Stops(c))
    decreases c
  {
    hide GoodWord;
    match c
    case Exec(argv) => NulArgs(buf, argv, s, marks);
    case Redir(d, f, _) =>
      NulTerminate(buf, d, s, marks);
      assert f.Word? && f.eq <= |s| by { WordEnds(s, f); }
      buf[f.eq] := NUL;
    case Pipe(l, r) =>
      NulTerminate(buf, l, s, marks);
      NulTerminate(buf, r, s, marks + Stops(l));
      assert marks + Stops(l) + Stops(r) == marks + (Stops(l) + Stops(r));
    case List(l, r) =>
      NulTerminate(buf, l, s, marks);
      NulTerminate(buf, r, s, marks + Stops(l));
      assert marks + Stops(l) + Stops(r) == marks + (Stops(l) + Stops(r));
    case Back(d) => NulTerminate(buf, d, s, marks);
  }

  lemma WordEnds(s: seq<char>, w: Tok)
    requires GoodWord(s, w)
    ensures w.Word? && w.eq <= |s|
  {
  }

  method NulArgs(buf: array<char>, argv: seq<Tok>, ghost s: seq<char>, ghost marks: set<int>)
    requires Good(s, Exec(argv)) && Marked(s, buf[..], marks)
    modifies buf
    ensures Marked(s, buf[..], marks + Stops(Exec(argv)))
  {
    hide GoodWord, Stops;
    var i := 0;
    StopsNone(argv);
    while i < |argv|
      invariant 0 <= i <= |argv| && Marked(s, buf[..], marks + Stops(Exec(argv[..i])))
    {
      assert argv[i].Word? && argv[i].eq <= |s| by { WordEnds(s, argv[i]); }
      StopsMore(argv, i);
      buf[argv[i].eq] := NUL;
      i := i + 1;
    }
    assert argv[..|argv|] == argv;
  }

  lemma StopsNone(argv: seq<Tok>)
    ensures Stops(Exec(argv[..0])) == {}
  {
  }

  lemma StopsMore(argv: seq<Tok>, i: int)
    requires 0 <= i < |argv| && argv[i].Word?
    ensures Stops(Exec(argv[..i + 1])) == Stops(Exec(argv[..i])) + {argv[i].eq}
  {
    var a, b := argv[..i], argv[..i + 1];
    assert forall k :: 0 <= k < i ==> b[k] == a[k];
    assert b[i] == argv[i];
    forall e ensures e in Stops(Exec(b)) <==> e in Stops(Exec(a)) || e == argv[i].eq {
      if e in Stops(Exec(a)) {
        var k :| 0 <= k < |a| && a[k].Word? && a[k].eq == e;
        assert b[k].Word? && b[k].eq == e;
      }
    }
  }
}
