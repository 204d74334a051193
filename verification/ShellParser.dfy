/** gettoken, peek and the parse functions of sh.c, which share a cursor into the line. */
module ShellParser {
  import opened ShellSpec
  import opened ShellCode
  import opened ShellLex
  import opened ShellGrammar

  datatype Option<T> = None | Some(value: T)

  /** What a parse function may have found, against the parser on tokens. */
  ghost predicate Agrees(o: Option<Cmd>, r: Result, rest: seq<Tok>) {
    if o.None? then r.Err? else r.Ok? && r.cmd == o.value && r.rest == rest
  }

  class Parser {
    const s: seq<char>
    var ps: nat

    ghost predicate Ready()
      reads this
    {
      Text(s) && ps <= |s|
    }

    ghost function Left(): seq<Tok>
      reads this
      requires Ready()
    {
      Tokens(s, ps)
    }

    constructor (line: seq<char>)
      requires Text(line)
      ensures Ready() && s == line && ps == 0
    {
      s, ps := line, 0;
    }

    function Char(i: nat): char { if i < |s| then s[i] else NUL }

    method SkipSpaces()
      requires Ready()
      modifies this`ps
      ensures Ready() && ps == SkipSpace(s, old(ps)) && Left() == old(Left()) && Blank(s, old(ps), ps)
    {
      while ps < |s| && IsSpace(s[ps])
        invariant Ready() && Blank(s, old(ps), ps) && SkipSpace(s, ps) == SkipSpace(s, old(ps)) && Tokens(s, ps) == Tokens(s, old(ps))
      {
        ps := ps + 1;
      }
    }

    /** Is the next character one of toks? */
    method Peek(toks: string) returns (b: bool)
      requires Ready()
      modifies this`ps
      ensures Ready() && Left() == old(Left())
      ensures b <==> ps < |s| && !IsSpace(s[ps]) && s[ps] in toks
      ensures (Left() == [] <==> ps == |s|) && (ps < |s| ==> !IsSpace(s[ps]))
    {
      SkipSpaces();
      b := Char(ps) != NUL && Char(ps) in toks;
    }

    /** The next token, NUL at the end, 'a' for a word: the characters from q to eq, which only white space
        separates from where the cursor was and is. */
    method GetToken() returns (tok: char, q: nat, eq: nat)
      requires Ready()
      modifies this`ps
      ensures Ready()
      ensures old(Left()) == [] ==> tok == NUL && Left() == []
      ensures old(Left()) != [] ==> tok != NUL && Left() == old(Left())[1..]
      ensures old(Left()) != [] ==> old(Left())[0] == if tok == 'a' then Word(q, eq) else Sym(tok)
      ensures if old(Left()) == [] then Blank(s, old(ps), |s|)
              else Blank(s, old(ps), q) && Spans(s, if tok == 'a' then Word(q, eq) else Sym(tok), q, eq) && Blank(s, eq, ps)
    {
      hide SkipSpace;
      SkipSpaces();
      ghost var start := ps;
      q := ps;
      tok := Char(ps);
      if ps == |s| {
      } else if tok == '>' {
        ps := ps + 1;
        if Char(ps) == '>' {
          tok := '+';
          ps := ps + 1;
        }
      } else if IsSymbol(tok) {
        ps := ps + 1;
      } else {
        tok := 'a';
        TakeWord();
      }
      eq := ps;
      if start < |s| {
        OneToken(s, start);
        TokSpans(s, start);
      }
      SkipSpaces();
    }

    method TakeWord()
      requires Ready()
      modifies this`ps
      ensures Ready() && ps == SkipWord(s, old(ps))
    {
      while ps < |s| && !IsSpace(s[ps]) && !IsSymbol(s[ps])
        invariant Ready() && SkipWord(s, ps) == SkipWord(s, old(ps))
      {
        ps := ps + 1;
      }
    }

    /** parsecmd, before it terminates the words. */
    method ParseCmd() returns (o: Option<Cmd>)
      requires Ready() && ps == 0
      modifies this`ps
      ensures Ready() && (o.None? <==> Parse(s).Err?) && (o.Some? ==> Parse(s) == Ok(o.value, []))
      ensures forall c :: o == Some(c) <==> IsLine(Tokens(s, 0), c)
    {
      hide Tokens, ParseLine, IsLine;
      forall c ensures Parse(s) == Ok(c, []) <==> IsLine(Tokens(s, 0), c) { ParseIff(s, c); }
      o := Line();
      if o.Some? {
        var _ := Peek("");
        if ps != |s| { o := None; }
      }
    }

    method Line() returns (o: Option<Cmd>)
      requires Ready()
      modifies this`ps
      ensures Ready() && (o.Some? ==> |Left()| <= |old(Left())|) && Agrees(o, ParseLine(old(Left())), Left())
      decreases |Left()|, 3
    {
      hide Tokens, ParsePipe;
      o := PipeLine();
      if o.None? { return; }
      ghost var c0, t0 := o.value, Left();
      var amp := PeekSym('&');
      while amp
        invariant Ready() && o.Some? && |Left()| <= |t0| && Backs(o.value, Left()) == Backs(c0, t0)
        invariant amp <==> Next(Left(), "&")
        decreases |Left()|
      {
        var _, _, _ := GetToken();
        o := Some(Back(o.value));
        amp := PeekSym('&');
      }
      var semi := PeekSym(';');
      if semi {
        var _, _, _ := GetToken();
        var r := Line();
        if r.None? { return None; }
        o := Some(List(o.value, r.value));
      }
    }

    method PipeLine() returns (o: Option<Cmd>)
      requires Ready()
      modifies this`ps
      ensures Ready() && (o.Some? ==> |Left()| <= |old(Left())|) && Agrees(o, ParsePipe(old(Left())), Left())
      decreases |Left()|, 2
    {
      hide Tokens, ParseExec;
      o := Simple();
      if o.None? { return; }
      var bar := PeekSym('|');
      if bar {
        var _, _, _ := GetToken();
        var r := PipeLine();
        if r.None? { return None; }
        o := Some(Pipe(o.value, r.value));
      }
    }

    /** peek for one symbol. */
    method PeekSym(c: char) returns (b: bool)
      requires Ready() && IsSymbol(c) && c != '<' && c != '>'
      modifies this`ps
      ensures Ready() && Left() == old(Left()) && (b <==> Next(Left(), [c]))
    {
      hide SkipSpace, SkipWord;
      b := Peek([c]);
      if ps < |s| { OneToken(s, ps); }
    }

    /** peek for "<>". */
    method PeekRedir() returns (b: bool)
      requires Ready()
      modifies this`ps
      ensures Ready() && Left() == old(Left()) && (b <==> Next(Left(), "<>+"))
    {
      hide SkipSpace, SkipWord;
      b := Peek("<>");
      if ps < |s| { OneToken(s, ps); }
    }

    /** peek for "|)&;". */
    method PeekStop() returns (b: bool)
      requires Ready()
      modifies this`ps
      ensures Ready() && Left() == old(Left()) && (b <==> Next(Left(), "|)&;"))
    {
      hide SkipSpace, SkipWord;
      b := Peek("|)&;");
      if ps < |s| { OneToken(s, ps); }
    }

    /** parseredirs: the redirections found, in order. */
    method RedirList() returns (o: Option<seq<R>>)
      requires Ready()
      modifies this`ps
      ensures Ready() && (o.Some? ==> |Left()| <= |old(Left())|)
      ensures if o.None? then ParseRedirs(old(Left())).Missing? else ParseRedirs(old(Left())) == Found(o.value, Left())
    {
      hide Tokens;
      ghost var t0 := Left();
      var rs: seq<R> := [];
      var more := PeekRedir();
      PrependNone(ParseRedirs(t0));
      while more
        invariant Ready() && |Left()| <= |t0| && ParseRedirs(t0) == Prepend(rs, ParseRedirs(Left())) && (more <==> Next(Left(), "<>+"))
        decreases |Left()|
      {
        ghost var left := Left();
        var tok, _, _ := GetToken();
        var w, q, eq := GetToken();
        if w != 'a' { return None; }
        PrependMore(rs, R(Word(q, eq), tok == '<'), left, Left());
        rs := rs + [R(Word(q, eq), tok == '<')];
        more := PeekRedir();
      }
      o := Some(rs);
    }

    /** parseexec, with parseblock for a command in parentheses. */
    method Simple() returns (o: Option<Cmd>)
      requires Ready()
      modifies this`ps
      ensures Ready() && (o.Some? ==> |Left()| <= |old(Left())|) && Agrees(o, ParseExec(old(Left())), Left())
      decreases |Left()|, 1
    {
      hide Tokens, ParseArgs, ParseLine, ParseRedirs;
      var open := PeekSym('(');
      if open {
        var _, _, _ := GetToken();
        var c := Line();
        if c.None? { return None; }
        var close := PeekSym(')');
        if !close { return None; }
        var _, _, _ := GetToken();
        var rs := RedirList();
        if rs.None? { return None; }
        return Some(Wrap(c.value, rs.value));
      }
      var rs := RedirList();
      if rs.None? { return None; }
      o := Args(rs.value);
    }

    /** The words of a simple command, with redirections among them. */
    method Args(first: seq<R>) returns (o: Option<Cmd>)
      requires Ready()
      modifies this`ps
      ensures Ready() && (o.Some? ==> |Left()| <= |old(Left())|) && Agrees(o, ParseArgs([], first, old(Left())), Left())
    {
      hide Tokens, ParseRedirs, Wrap;
      ghost var t0 := Left();
      var args: seq<Tok>, rs := [], first;
      var stop := PeekStop();
      while !stop
        invariant Ready() && |Left()| <= |t0| && ParseArgs(args, rs, Left()) == ParseArgs([], first, t0)
        invariant stop <==> Next(Left(), "|)&;")
        decreases |Left()|
      {
        ghost var left := Left();
        var tok, q, eq := GetToken();
        if tok == NUL { break; }
        if tok != 'a' { return None; }
        var w := Word(q, eq);
        if |args| + 1 >= MAXARGS { return None; }
        args := args + [w];
        var more := RedirList();
        if more.None? { return None; }
        rs := rs + more.value;
        stop := PeekStop();
      }
      o := Some(Wrap(Exec(args), rs));
    }
  }

  lemma OneToken(s: seq<char>, i: nat)
    requires i < |s| && !IsSpace(s[i])
    ensures Tokens(s, i) == [TokAt(s, i)] + Tokens(s, TokEnd(s, i))
  {
    assert SkipSpace(s, i) == i;
  }

  function Prepend(rs: seq<R>, r: Redirs): Redirs {
    if r.Missing? then r else Found(rs + r.rs, r.rest)
  }

  lemma PrependNone(r: Redirs)
    ensures Prepend([], r) == r
  {
    assert r.Found? ==> [] + r.rs == r.rs;
  }

  lemma PrependMore(rs: seq<R>, r: R, ts: seq<Tok>, rest: seq<Tok>)
    requires Next(ts, "<>+") && |ts| >= 2 && ts[1] == r.file && r.file.Word? && r.input == (ts[0].c == '<') && rest == ts[2..]
    ensures Prepend(rs, ParseRedirs(ts)) == Prepend(rs + [r], ParseRedirs(rest))
  {
    var sub := ParseRedirs(rest);
    if sub.Found? { assert rs + ([r] + sub.rs) == rs + [r] + sub.rs; }
  }
}
