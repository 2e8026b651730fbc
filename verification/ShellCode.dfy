/**
 gettoken(), peek(), the parse functions and nulterminate() (user/sh.c), with their loops, on a line
 in a buffer.
 */
module ShellCode {
  import opened ShellModel
  import opened ShellGrammar

  // peek() has already moved over the white space.
  lemma AfterPeek(s: string, p: nat)
    requires p <= |s|
    ensures var q := Skip(s, p); Skip(s, q) == q && GetToken(s, q) == GetToken(s, p)
    ensures forall toks: string :: Peek(s, Skip(s, p), toks) == Peek(s, p, toks)
    ensures forall toks: string :: Peek(s, p, toks) ==> GetToken(s, p).0 != End
  {
  }

  method SkipSpace(s: string, p: nat) returns (r: nat)
    requires p <= |s|
    ensures r == Skip(s, p)
  {
    r := p;
    while r < |s| && IsSpace(s[r])
      invariant p <= r <= |s| && Skip(s, r) == Skip(s, p)
    {
      r := r + 1;
    }
  }

  // gettoken()
  method NextToken(s: string, p: nat) returns (tok: Token, r: nat)
    requires p <= |s|
    ensures (tok, r) == GetToken(s, p)
  {
    var q := SkipSpace(s, p);
    r := q;
    if r == |s| {
      tok := End;
    } else if IsSymbol(s[r]) {
      tok := Sym(s[r]);
      r := r + 1;
      if tok == Sym('>') && r < |s| && s[r] == '>' {
        tok := More;
        r := r + 1;
      }
    } else {
      while r < |s| && !IsSpace(s[r]) && !IsSymbol(s[r])
        invariant q <= r <= |s| && WordEnd(s, r) == WordEnd(s, q)
      {
        r := r + 1;
      }
      tok := Word(Span(q, r));
    }
    r := SkipSpace(s, r);
  }

  // peek()
  method PeekFor(s: string, p: nat, toks: string) returns (b: bool, r: nat)
    requires p <= |s|
    ensures b == Peek(s, p, toks) && r == Skip(s, p)
  {
    r := SkipSpace(s, p);
    b := r < |s| && s[r] in toks;
  }

  // From p to q the line has the tokens of a simple command.
  ghost predicate IsSimple(s: string, p: nat, items: seq<Item>, q: nat) {
    Lexes(s, p, ItemsTokens(items), q) && q <= |s| && Closes(Tok(s, q)) && |Words(items)| < MAXARGS
  }

  lemma SimpleGoal(s: string, p: nat)
    requires p <= |s|
    ensures var rs := Redirs(s, p, []); var r := if rs.Panic? then Panic else Args(s, rs.pos, [], rs.value);
            forall items: seq<Item>, q: nat :: IsSimple(s, p, items, q) ==>
              r.Ok? && r.pos == q && Text(s, r.value) == ElemTree(Simple(items))
  {
    hide Redirs, Args, Lexes, ElemTree, Text, Closes, GetToken, Skip, Peek, ParseBlock;
    Peeks(s, p);
    forall items: seq<Item>, q: nat | IsSimple(s, p, items, q)
      ensures ParseExec(s, p).Ok? && ParseExec(s, p).pos == q && Tok(s, p) != Sym('(')
      ensures Text(s, ParseExec(s, p).value) == ElemTree(Simple(items))
    {
      StartsPlain(s, p, items, q);
      var v := SimpleParses(s, p, items, q);
    }
  }

  // parseredirs()
  method ParseRedirs(s: string, p: nat, rs: seq<Redirection>) returns (r: Result<seq<Redirection>>)
    requires p <= |s|
    ensures r == Redirs(s, p, rs)
  {
    hide GetToken, Peek, Skip;
    var out, q := rs, p;
    while true
      invariant q <= |s| && Redirs(s, q, out) == Redirs(s, p, rs)
      decreases |s| - q
    {
      AfterPeek(s, q);
      var more, op, file;
      more, q := PeekFor(s, q, "<>");
      if !more { return Ok(out, q); }
      op, q := NextToken(s, q);
      file, q := NextToken(s, q);
      if !file.Word? { return Panic; }
      out := out + [Redirection(file.span, KindOf(op))];
    }
  }

  // parseexec() without a block: the words and the redirections before, among and after them.
  method ParseArgs(s: string, p: nat) returns (r: Result<Cmd<Span>>)
    requires p <= |s|
    ensures forall items: seq<Item>, q: nat :: IsSimple(s, p, items, q) ==>
              r.Ok? && r.pos == q && Text(s, r.value) == ElemTree(Simple(items))
    ensures var rs := Redirs(s, p, []); r == if rs.Panic? then Panic else Args(s, rs.pos, [], rs.value)
  {
    hide GetToken, Peek, Skip, Redirs, Wrap;
    SimpleGoal(s, p);
    var rs := ParseRedirs(s, p, []);
    if rs.Panic? { return Panic; }
    ghost var goal := Args(s, rs.pos, [], rs.value);
    var args: seq<Span> := [];
    var q := rs.pos;
    while true
      invariant q <= |s| && rs.Ok? && Args(s, q, args, rs.value) == goal
      decreases |s| - q
    {
      AfterPeek(s, q);
      var stop, tok;
      stop, q := PeekFor(s, q, "|)&;");
      if stop { return Ok(Wrap(Exec(args), rs.value), q); }
      tok, q := NextToken(s, q);
      if tok == End { return Ok(Wrap(Exec(args), rs.value), q); }
      if !tok.Word? { return Panic; }
      args := args + [tok.span];
      if |args| >= MAXARGS { return Panic; }
      rs := ParseRedirs(s, q, rs.value);
      if rs.Panic? { return Panic; }
      q := rs.pos;
    }
  }

  lemma BlockAfterPeek(s: string, p: nat)
    requires p <= |s|
    ensures ParseBlock(s, Skip(s, p)) == ParseBlock(s, p)
    ensures Redirs(s, Skip(s, p), []) == Redirs(s, p, [])
  {
    AfterPeek(s, p);
    hide GetToken, Peek, Skip, ParseLine;
  }

  // parseline()
  method Line(s: string, p: nat) returns (r: Result<Cmd<Span>>)
    requires p <= |s|
    ensures r == ParseLine(s, p)
    decreases |s| - p, 3
  {
    hide GetToken, Peek, Skip, ParsePipe;
    r := PipeLine(s, p);
    if r.Panic? { return; }
    var cmd, q := r.value, r.pos;
    ghost var goal := Backs(s, q, cmd);
    while true
      invariant p <= q <= |s| && Backs(s, q, cmd) == goal
      decreases |s| - q
    {
      AfterPeek(s, q);
      var amp;
      amp, q := PeekFor(s, q, "&");
      if !amp { break; }
      var tok;
      tok, q := NextToken(s, q);
      cmd := Back(cmd);
    }
    AfterPeek(s, q);
    var semi;
    semi, q := PeekFor(s, q, ";");
    if semi {
      var tok;
      tok, q := NextToken(s, q);
      var rest := Line(s, q);
      if rest.Panic? { return Panic; }
      return Ok(List(cmd, rest.value), rest.pos);
    }
    return Ok(cmd, q);
  }

  // parsepipe()
  method PipeLine(s: string, p: nat) returns (r: Result<Cmd<Span>>)
    requires p <= |s|
    ensures r == ParsePipe(s, p)
    decreases |s| - p, 2
  {
    hide GetToken, Peek, Skip, ParseExec;
    r := Command(s, p);
    if r.Panic? { return; }
    AfterPeek(s, r.pos);
    var bar, q := PeekFor(s, r.pos, "|");
    if bar {
      var tok;
      tok, q := NextToken(s, q);
      var rest := PipeLine(s, q);
      if rest.Panic? { return Panic; }
      return Ok(Pipe(r.value, rest.value), rest.pos);
    }
    return Ok(r.value, q);
  }

  // parseexec()
  method Command(s: string, p: nat) returns (r: Result<Cmd<Span>>)
    requires p <= |s|
    ensures r == ParseExec(s, p)
    decreases |s| - p, 1
  {
    hide GetToken, Peek, Skip, Redirs, Args, ParseBlock;
    BlockAfterPeek(s, p);
    AfterPeek(s, p);
    var open, q := PeekFor(s, p, "(");
    if open {
      r := Block(s, q);
    } else {
      r := ParseArgs(s, q);
    }
  }

  // parseblock()
  method Block(s: string, p: nat) returns (r: Result<Cmd<Span>>)
    requires p <= |s|
    ensures r == ParseBlock(s, p)
    decreases |s| - p, 0
  {
    hide GetToken, Peek, Skip, Redirs, ParseLine, Wrap;
    AfterPeek(s, p);
    var open, q := PeekFor(s, p, "(");
    if !open { return Panic; }
    var tok;
    tok, q := NextToken(s, q);
    r := Line(s, q);
    if r.Panic? { return; }
    AfterPeek(s, r.pos);
    var close;
    close, q := PeekFor(s, r.pos, ")");
    if !close { return Panic; }
    tok, q := NextToken(s, q);
    var rs := ParseRedirs(s, q, []);
    if rs.Panic? { return Panic; }
    return Ok(Wrap(r.value, rs.value), rs.pos);
  }

  // nulterminate()
  method NulTerminate(buf: array<char>, c: Cmd<Span>)
    requires forall e :: e in Ends(c) ==> e < buf.Length
    modifies buf
    ensures forall i: nat :: i < buf.Length ==> buf[i] == if i in Ends(c) then '\0' else old(buf[i])
    decreases c
  {
    match c
    case Exec(args) =>
      var k := 0;
      while k < |args|
        invariant k <= |args|
        invariant forall i: nat :: i < buf.Length ==>
                    buf[i] == if exists j :: 0 <= j < k && args[j].eq == i then '\0' else old(buf[i])
      {
        assert args[k].eq in Ends(c);
        buf[args[k].eq] := '\0';
        k := k + 1;
      }
    case Redir(d, file, _) =>
      assert Ends(c) == Ends(d) + {file.eq};
      NulTerminate(buf, d);
      buf[file.eq] := '\0';
    case Pipe(l, r) =>
      assert Ends(c) == Ends(l) + Ends(r);
      NulTerminate(buf, l);
      NulTerminate(buf, r);
    case List(l, r) =>
      assert Ends(c) == Ends(l) + Ends(r);
      NulTerminate(buf, l);
      NulTerminate(buf, r);
    case Back(d) =>
      assert Ends(c) == Ends(d);
      NulTerminate(buf, d);
  }

  // parsecmd() of the line in buf: the tree's pointers read as the words of the line.
  method ParseCommand(buf: array<char>) returns (r: Result<Cmd<Span>>)
    requires buf.Length > 0 && buf[buf.Length - 1] == '\0'
    requires forall i :: 0 <= i < buf.Length - 1 ==> buf[i] != '\0'
    modifies buf
    ensures r == ParseCmd(old(buf[..buf.Length - 1]))
    ensures r.Ok? <==> InGrammar(old(buf[..buf.Length - 1]))
    ensures r.Ok? ==> IsTreeOf(r.value, old(buf[..buf.Length - 1]))
    ensures r.Panic? ==> buf[..] == old(buf[..])
    ensures r.Ok? ==> forall w: Span :: HasSpan(r.value, w) ==>
              w.q <= w.eq < buf.Length && CString(buf[..], w.q) == old(buf[w.q..w.eq])
  {
    hide InGrammar, IsTreeOf, ParseLine, Ends, HasSpan, AllWords, CString, Skip;
    ghost var before := buf[..];
    var s := buf[..buf.Length - 1];
    ParsesExactly(s);
    r := Line(s, 0);
    if r.Panic? { return; }
    var q := SkipSpace(s, r.pos);
    if q != |s| { return Panic; }
    r := Ok(r.value, |s|);
    LineWords(s, 0);
    forall e | e in Ends(r.value) ensures e < buf.Length { EndsAreEnds(s, r.value, e); }
    NulTerminate(buf, r.value);
    forall w: Span | HasSpan(r.value, w)
      ensures w.q <= w.eq < buf.Length && CString(buf[..], w.q) == before[w.q..w.eq]
    {
      ReadsAsWord(buf[..], s, r.value, w);
      assert before[w.q..w.eq] == s[w.q..w.eq];
    }
  }
}
