/**
 The shell's parser (user/sh.c) as functions from a line and a position in it to a command tree
 over spans of the line.
 */
module ShellModel {
  // A command over words of type W: spans of the line, or their text.
  datatype Cmd<W> =
    | Exec(args: seq<W>)
    | Redir(cmd: Cmd<W>, file: W, kind: Kind)
    | Pipe(left: Cmd<W>, right: Cmd<W>)
    | List(left: Cmd<W>, right: Cmd<W>)
    | Back(cmd: Cmd<W>)

  // < reads, > truncates and >> appends.
  datatype Kind = Input | Output | Append

  datatype Span = Span(q: nat, eq: nat)

  datatype Token = End | Sym(c: char) | More | Word(span: Span)

  // Panic is the shell's panic() and exit.
  datatype Result<T> = Ok(value: T, pos: nat) | Panic

  const MAXARGS: nat := 10

  predicate IsSpace(c: char) {
    c == ' ' || c == '\t' || c == '\r' || c == '\n' || c == '\U{0B}'
  }

  predicate IsSymbol(c: char) {
    c == '<' || c == '|' || c == '>' || c == '&' || c == ';' || c == '(' || c == ')'
  }

  predicate WordChar(c: char) {
    !IsSpace(c) && !IsSymbol(c)
  }

  // ---------- tokens ----------

  function Skip(s: string, p: nat): (r: nat)
    requires p <= |s|
    ensures p <= r <= |s| && (r < |s| ==> !IsSpace(s[r])) && forall i :: p <= i < r ==> IsSpace(s[i])
    decreases |s| - p
  {
    if p < |s| && IsSpace(s[p]) then Skip(s, p + 1) else p
  }

  function WordEnd(s: string, p: nat): (r: nat)
    requires p <= |s|
    ensures p <= r <= |s| && (r < |s| ==> !WordChar(s[r])) && forall i :: p <= i < r ==> WordChar(s[i])
    decreases |s| - p
  {
    if p < |s| && WordChar(s[p]) then WordEnd(s, p + 1) else p
  }

  // The token at q, which is not white space, and where it ends.
  function TokenAt(s: string, q: nat): (r: (Token, nat))
    requires q <= |s| && (q < |s| ==> !IsSpace(s[q]))
    ensures q <= r.1 <= |s| && (r.0 == End <==> q == |s|) && (q < |s| ==> q < r.1)
    ensures r.0.Word? ==> r.0.span == Span(q, r.1) && IsWord(s, r.0.span)
  {
    if q == |s| then (End, q)
    else if s[q] == '>' && q + 1 < |s| && s[q + 1] == '>' then (More, q + 2)
    else if IsSymbol(s[q]) then (Sym(s[q]), q + 1)
    else (Word(Span(q, WordEnd(s, q))), WordEnd(s, q))
  }

  // gettoken(): the next token and the position after it and the white space behind it.
  function GetToken(s: string, p: nat): (r: (Token, nat))
    requires p <= |s|
    ensures p <= r.1 <= |s| && (r.0 != End ==> p < r.1) && (r.0.Word? ==> IsWord(s, r.0.span))
  {
    var t := TokenAt(s, Skip(s, p));
    (t.0, Skip(s, t.1))
  }

  // peek(): is the next character one of toks; the position moves over white space.
  predicate Peek(s: string, p: nat, toks: string)
    requires p <= |s|
  {
    Skip(s, p) < |s| && s[Skip(s, p)] in toks
  }

  // A run of word characters that nothing extends to the right.
  predicate IsWord(s: string, w: Span) {
    w.q < w.eq <= |s| && (forall i :: w.q <= i < w.eq ==> WordChar(s[i])) && (w.eq < |s| ==> !WordChar(s[w.eq]))
  }

  ghost predicate AllWords(s: string, c: Cmd<Span>) {
    match c
    case Exec(args) => forall i :: 0 <= i < |args| ==> IsWord(s, args[i])
    case Redir(d, file, _) => AllWords(s, d) && IsWord(s, file)
    case Pipe(l, r) => AllWords(s, l) && AllWords(s, r)
    case List(l, r) => AllWords(s, l) && AllWords(s, r)
    case Back(d) => AllWords(s, d)
  }

  // ---------- commands ----------

  datatype Redirection = Redirection(file: Span, kind: Kind)

  function KindOf(t: Token): Kind {
    if t == Sym('<') then Input else if t == More then Append else Output
  }

  ghost predicate WordFiles(s: string, rs: seq<Redirection>) {
    forall i :: 0 <= i < |rs| ==> IsWord(s, rs[i].file)
  }

  // parseredirs(): the redirections found at p, after those in rs.
  function Redirs(s: string, p: nat, rs: seq<Redirection>): (r: Result<seq<Redirection>>)
    requires p <= |s|
    ensures r.Ok? ==> p <= r.pos <= |s| && (WordFiles(s, rs) ==> WordFiles(s, r.value))
    decreases |s| - p
  {
    if !Peek(s, p, "<>") then Ok(rs, Skip(s, p))
    else
      var op := GetToken(s, p);
      var f := GetToken(s, op.1);
      if !f.0.Word? then Panic
      else Redirs(s, f.1, rs + [Redirection(f.0.span, KindOf(op.0))])
  }

  function Wrap(c: Cmd<Span>, rs: seq<Redirection>): (r: Cmd<Span>) {
    if rs == [] then c
    else Redir(Wrap(c, rs[..|rs| - 1]), rs[|rs| - 1].file, rs[|rs| - 1].kind)
  }

  lemma {:induction false} WrapWords(s: string, c: Cmd<Span>, rs: seq<Redirection>)
    requires AllWords(s, c) && WordFiles(s, rs)
    ensures AllWords(s, Wrap(c, rs))
  {
    if rs != [] { WrapWords(s, c, rs[..|rs| - 1]); }
  }

  // The loop of parseexec().
  function Args(s: string, p: nat, args: seq<Span>, rs: seq<Redirection>): (r: Result<Cmd<Span>>)
    requires p <= |s|
    ensures r.Ok? ==> p <= r.pos <= |s|
    decreases |s| - p
  {
    if Peek(s, p, "|)&;") then Ok(Wrap(Exec(args), rs), Skip(s, p))
    else
      var t := GetToken(s, p);
      if t.0 == End then Ok(Wrap(Exec(args), rs), t.1)
      else if !t.0.Word? || |args| + 1 >= MAXARGS then Panic
      else
        var q := Redirs(s, t.1, rs);
        if q.Panic? then Panic else Args(s, q.pos, args + [t.0.span], q.value)
  }

  // The "&" loop of parseline().
  function Backs(s: string, p: nat, c: Cmd<Span>): (r: (Cmd<Span>, nat))
    requires p <= |s|
    ensures p <= r.1 <= |s|
    decreases |s| - p
  {
    if Peek(s, p, "&") then Backs(s, GetToken(s, p).1, Back(c)) else (c, Skip(s, p))
  }

  function ParseLine(s: string, p: nat): (r: Result<Cmd<Span>>)
    requires p <= |s|
    ensures r.Ok? ==> p <= r.pos <= |s|
    decreases |s| - p, 3
  {
    var c := ParsePipe(s, p);
    if c.Panic? then Panic
    else
      var b := Backs(s, c.pos, c.value);
      if !Peek(s, b.1, ";") then Ok(b.0, Skip(s, b.1))
      else
        var d := ParseLine(s, GetToken(s, b.1).1);
        if d.Panic? then Panic else Ok(List(b.0, d.value), d.pos)
  }

  function ParsePipe(s: string, p: nat): (r: Result<Cmd<Span>>)
    requires p <= |s|
    ensures r.Ok? ==> p <= r.pos <= |s|
    decreases |s| - p, 2
  {
    var c := ParseExec(s, p);
    if c.Panic? then Panic
    else if !Peek(s, c.pos, "|") then Ok(c.value, Skip(s, c.pos))
    else
      var d := ParsePipe(s, GetToken(s, c.pos).1);
      if d.Panic? then Panic else Ok(Pipe(c.value, d.value), d.pos)
  }

  function ParseExec(s: string, p: nat): (r: Result<Cmd<Span>>)
    requires p <= |s|
    ensures r.Ok? ==> p <= r.pos <= |s|
    decreases |s| - p, 1
  {
    if Peek(s, p, "(") then ParseBlock(s, p)
    else
      var rs := Redirs(s, p, []);
      if rs.Panic? then Panic else Args(s, rs.pos, [], rs.value)
  }

  function ParseBlock(s: string, p: nat): (r: Result<Cmd<Span>>)
    requires p <= |s|
    ensures r.Ok? ==> p <= r.pos <= |s|
    decreases |s| - p, 0
  {
    if !Peek(s, p, "(") then Panic
    else
      var c := ParseLine(s, GetToken(s, p).1);
      if c.Panic? || !Peek(s, c.pos, ")") then Panic
      else
        var rs := Redirs(s, GetToken(s, c.pos).1, []);
        if rs.Panic? then Panic else Ok(Wrap(c.value, rs.value), rs.pos)
  }

  // parsecmd() before nulterminate(): it always ends, with a tree or with a panic.
  function ParseCmd(s: string): (r: Result<Cmd<Span>>)
    ensures r.Ok? ==> r.pos == |s|
  {
    var c := ParseLine(s, 0);
    if c.Panic? || Skip(s, c.pos) != |s| then Panic else Ok(c.value, |s|)
  }

  // ---------- every span of the tree is a word of the line ----------

  lemma {:induction false} ArgsWords(s: string, p: nat, args: seq<Span>, rs: seq<Redirection>)
    requires p <= |s| && AllWords(s, Exec(args)) && WordFiles(s, rs)
    ensures Args(s, p, args, rs).Ok? ==> AllWords(s, Args(s, p, args, rs).value)
    decreases |s| - p
  {
    WrapWords(s, Exec(args), rs);
    var t := GetToken(s, p);
    if !Peek(s, p, "|)&;") && t.0.Word? && |args| + 1 < MAXARGS {
      var q := Redirs(s, t.1, rs);
      if q.Ok? { ArgsWords(s, q.pos, args + [t.0.span], q.value); }
    }
  }

  lemma {:induction false} BacksWords(s: string, p: nat, c: Cmd<Span>)
    requires p <= |s| && AllWords(s, c)
    ensures AllWords(s, Backs(s, p, c).0)
    decreases |s| - p
  {
    if Peek(s, p, "&") { BacksWords(s, GetToken(s, p).1, Back(c)); }
  }

  lemma {:induction false} LineWords(s: string, p: nat)
    requires p <= |s|
    ensures ParseLine(s, p).Ok? ==> AllWords(s, ParseLine(s, p).value)
    decreases |s| - p, 3
  {
    PipeWords(s, p);
    var c := ParsePipe(s, p);
    if c.Ok? {
      BacksWords(s, c.pos, c.value);
      var b := Backs(s, c.pos, c.value);
      if Peek(s, b.1, ";") { LineWords(s, GetToken(s, b.1).1); }
    }
  }

  lemma {:induction false} PipeWords(s: string, p: nat)
    requires p <= |s|
    ensures ParsePipe(s, p).Ok? ==> AllWords(s, ParsePipe(s, p).value)
    decreases |s| - p, 2
  {
    ExecWords(s, p);
    var c := ParseExec(s, p);
    if c.Ok? && Peek(s, c.pos, "|") { PipeWords(s, GetToken(s, c.pos).1); }
  }

  lemma {:induction false} ExecWords(s: string, p: nat)
    requires p <= |s|
    ensures ParseExec(s, p).Ok? ==> AllWords(s, ParseExec(s, p).value)
    decreases |s| - p, 1
  {
    if Peek(s, p, "(") {
      BlockWords(s, p);
    } else {
      var rs := Redirs(s, p, []);
      if rs.Ok? { ArgsWords(s, rs.pos, [], rs.value); }
    }
  }

  lemma {:induction false} BlockWords(s: string, p: nat)
    requires p <= |s|
    ensures ParseBlock(s, p).Ok? ==> AllWords(s, ParseBlock(s, p).value)
    decreases |s| - p, 0
  {
    if Peek(s, p, "(") {
      LineWords(s, GetToken(s, p).1);
      var c := ParseLine(s, GetToken(s, p).1);
      if c.Ok? && Peek(s, c.pos, ")") {
        var rs := Redirs(s, GetToken(s, c.pos).1, []);
        if rs.Ok? { WrapWords(s, c.value, rs.value); }
      }
    }
  }

  // ---------- nulterminate() ----------

  // The ends of the spans in c.
  ghost function Ends(c: Cmd<Span>): set<nat> {
    match c
    case Exec(args) => set i | 0 <= i < |args| :: args[i].eq
    case Redir(d, file, _) => Ends(d) + {file.eq}
    case Pipe(l, r) => Ends(l) + Ends(r)
    case List(l, r) => Ends(l) + Ends(r)
    case Back(d) => Ends(d)
  }

  predicate HasSpan(c: Cmd<Span>, w: Span) {
    match c
    case Exec(args) => w in args
    case Redir(d, file, _) => w == file || HasSpan(d, w)
    case Pipe(l, r) => HasSpan(l, w) || HasSpan(r, w)
    case List(l, r) => HasSpan(l, w) || HasSpan(r, w)
    case Back(d) => HasSpan(d, w)
  }

  // The line with its terminator, and NULs written at the ends of words.
  ghost predicate Terminated(buf: string, s: string, ends: set<nat>) {
    && |buf| == |s| + 1
    && forall i: nat :: i <= |s| ==> buf[i] == if i in ends || i == |s| then '\0' else s[i]
  }

  // What a C string function reads from q.
  function CString(buf: string, q: nat): (r: string)
    requires q <= |buf|
    decreases |buf| - q
  {
    if q == |buf| || buf[q] == '\0' then "" else [buf[q]] + CString(buf, q + 1)
  }

  lemma {:induction false} EndsAreEnds(s: string, c: Cmd<Span>, e: nat)
    requires AllWords(s, c) && e in Ends(c)
    ensures e <= |s| && (e < |s| ==> !WordChar(s[e]))
    decreases c
  {
    match c
    case Exec(args) =>
    case Redir(d, file, _) => if e in Ends(d) { EndsAreEnds(s, d, e); }
    case Pipe(l, r) => if e in Ends(l) { EndsAreEnds(s, l, e); } else { EndsAreEnds(s, r, e); }
    case List(l, r) => if e in Ends(l) { EndsAreEnds(s, l, e); } else { EndsAreEnds(s, r, e); }
    case Back(d) => EndsAreEnds(s, d, e);
  }

  lemma {:induction false} SpanEnds(s: string, c: Cmd<Span>, w: Span)
    requires AllWords(s, c) && HasSpan(c, w)
    ensures w.eq in Ends(c) && IsWord(s, w)
    decreases c
  {
    match c
    case Exec(args) =>
    case Redir(d, file, _) => if HasSpan(d, w) { SpanEnds(s, d, w); }
    case Pipe(l, r) => if HasSpan(l, w) { SpanEnds(s, l, w); } else { SpanEnds(s, r, w); }
    case List(l, r) => if HasSpan(l, w) { SpanEnds(s, l, w); } else { SpanEnds(s, r, w); }
    case Back(d) => SpanEnds(s, d, w);
  }

  lemma {:induction false} ReadsTo(buf: string, q: nat, e: nat)
    requires q <= e < |buf| && buf[e] == '\0' && forall i :: q <= i < e ==> buf[i] != '\0'
    ensures CString(buf, q) == buf[q..e]
    decreases e - q
  {
    if q < e {
      ReadsTo(buf, q + 1, e);
      assert buf[q..e] == [buf[q]] + buf[q + 1..e];
    }
  }

  // After nulterminate() every pointer in the tree reads as exactly the word that was scanned: no
  // word's end lies inside another word.
  lemma ReadsAsWord(buf: string, s: string, c: Cmd<Span>, w: Span)
    requires AllWords(s, c) && Terminated(buf, s, Ends(c)) && HasSpan(c, w)
    requires forall i :: 0 <= i < |s| ==> s[i] != '\0'
    ensures w.q <= w.eq <= |s| < |buf| && CString(buf, w.q) == s[w.q..w.eq]
  {
    hide Ends, AllWords, HasSpan, CString;
    SpanEnds(s, c, w);
    forall e: nat | e in Ends(c) ensures e <= |s| && (e < |s| ==> !WordChar(s[e])) { EndsAreEnds(s, c, e); }
    ReadsTo(buf, w.q, w.eq);
    assert buf[w.q..w.eq] == s[w.q..w.eq];
  }
}
