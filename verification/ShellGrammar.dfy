/**
 The grammar of the shell's lines, and the tree of each line of it.  The parser of user/sh.c
 accepts exactly the lines of the grammar, however they are spaced, and gives each its tree.
 */
module ShellGrammar {
  import opened ShellModel

  // ---------- concrete syntax ----------

  // A symbol, the symbol >>, or a word.
  datatype Lexeme = Mark(c: char) | Marks | Name(w: string)

  // A word of a simple command, or a redirection before, among or after the words.
  datatype Item = Arg(w: string) | Red(k: Kind, file: string)

  datatype Elem = Simple(items: seq<Item>) | Block(line: Line, redirs: seq<Item>)

  datatype Pipeline = Only(elem: Elem) | Into(elem: Elem, next: Pipeline)

  // A pipeline with any number of & behind it, and what comes after a semicolon.
  datatype Line = Last(pipe: Pipeline, amps: nat) | Then(pipe: Pipeline, amps: nat, next: Line)

  function Op(k: Kind): Lexeme {
    match k
    case Input => Mark('<')
    case Output => Mark('>')
    case Append => Marks
  }

  function ItemsTokens(items: seq<Item>): seq<Lexeme> {
    if items == [] then []
    else (if items[0].Arg? then [Name(items[0].w)] else [Op(items[0].k), Name(items[0].file)]) + ItemsTokens(items[1..])
  }

  function Amps(n: nat): seq<Lexeme> {
    if n == 0 then [] else [Mark('&')] + Amps(n - 1)
  }

  function ElemTokens(e: Elem): seq<Lexeme> {
    match e
    case Simple(items) => ItemsTokens(items)
    case Block(line, redirs) => [Mark('(')] + (LineTokens(line) + ([Mark(')')] + ItemsTokens(redirs)))
  }

  function PipeTokens(p: Pipeline): seq<Lexeme> {
    match p
    case Only(e) => ElemTokens(e)
    case Into(e, next) => ElemTokens(e) + ([Mark('|')] + PipeTokens(next))
  }

  function LineTokens(l: Line): seq<Lexeme> {
    match l
    case Last(p, amps) => PipeTokens(p) + Amps(amps)
    case Then(p, amps, next) => PipeTokens(p) + (Amps(amps) + ([Mark(';')] + LineTokens(next)))
  }

  // ---------- trees ----------

  function Words(items: seq<Item>): seq<string> {
    if items == [] then [] else (if items[0].Arg? then [items[0].w] else []) + Words(items[1..])
  }

  function Reds(items: seq<Item>): (r: seq<Item>)
    ensures forall i :: 0 <= i < |r| ==> r[i].Red?
  {
    if items == [] then [] else (if items[0].Red? then [items[0]] else []) + Reds(items[1..])
  }

  // The first redirection is the innermost.
  function Wrapped(c: Cmd<string>, rs: seq<Item>): Cmd<string>
    requires forall i :: 0 <= i < |rs| ==> rs[i].Red?
  {
    if rs == [] then c else Redir(Wrapped(c, rs[..|rs| - 1]), rs[|rs| - 1].file, rs[|rs| - 1].k)
  }

  function Backed(c: Cmd<string>, n: nat): Cmd<string>
    decreases n
  {
    if n == 0 then c else Backed(Back(c), n - 1)
  }

  function ElemTree(e: Elem): Cmd<string> {
    match e
    case Simple(items) => Wrapped(Exec(Words(items)), Reds(items))
    case Block(line, redirs) => Wrapped(LineTree(line), Reds(redirs))
  }

  // | binds tighter than & and ; and groups to the right.
  function PipeTree(p: Pipeline): Cmd<string> {
    match p
    case Only(e) => ElemTree(e)
    case Into(e, next) => Pipe(ElemTree(e), PipeTree(next))
  }

  function LineTree(l: Line): Cmd<string> {
    match l
    case Last(p, amps) => Backed(PipeTree(p), amps)
    case Then(p, amps, next) => List(Backed(PipeTree(p), amps), LineTree(next))
  }

  ghost predicate LegalWord(w: string) {
    |w| > 0 && forall i :: 0 <= i < |w| ==> WordChar(w[i])
  }

  ghost predicate LegalItems(items: seq<Item>) {
    forall i :: 0 <= i < |items| ==> LegalWord(if items[i].Arg? then items[i].w else items[i].file)
  }

  ghost predicate LegalElem(e: Elem) {
    match e
    case Simple(items) => LegalItems(items) && |Words(items)| < MAXARGS
    case Block(line, redirs) =>
      LegalLine(line) && LegalItems(redirs) && forall i :: 0 <= i < |redirs| ==> redirs[i].Red?
  }

  ghost predicate LegalPipe(p: Pipeline) {
    LegalElem(p.elem) && (p.Into? ==> LegalPipe(p.next))
  }

  ghost predicate LegalLine(l: Line) {
    LegalPipe(l.pipe) && (l.Then? ==> LegalLine(l.next))
  }

  // ---------- the text of a tree over spans ----------

  function WordText(s: string, w: Span): string {
    if w.q <= w.eq <= |s| then s[w.q..w.eq] else ""
  }

  function WordTexts(s: string, args: seq<Span>): (r: seq<string>)
    ensures |r| == |args|
  {
    if args == [] then [] else WordTexts(s, args[..|args| - 1]) + [WordText(s, args[|args| - 1])]
  }

  function RedTexts(s: string, rs: seq<Redirection>): (r: seq<Item>)
    ensures |r| == |rs| && forall i :: 0 <= i < |r| ==> r[i].Red?
  {
    if rs == [] then []
    else RedTexts(s, rs[..|rs| - 1]) + [Red(rs[|rs| - 1].kind, WordText(s, rs[|rs| - 1].file))]
  }

  // A tree over spans, with the text of each.
  function Text(s: string, c: Cmd<Span>): Cmd<string> {
    match c
    case Exec(args) => Exec(WordTexts(s, args))
    case Redir(d, file, k) => Redir(Text(s, d), WordText(s, file), k)
    case Pipe(l, r) => Pipe(Text(s, l), Text(s, r))
    case List(l, r) => List(Text(s, l), Text(s, r))
    case Back(d) => Back(Text(s, d))
  }

  lemma {:induction false} WrapText(s: string, c: Cmd<Span>, rs: seq<Redirection>)
    ensures Text(s, Wrap(c, rs)) == Wrapped(Text(s, c), RedTexts(s, rs))
  {
    if rs != [] {
      WrapText(s, c, rs[..|rs| - 1]);
      assert RedTexts(s, rs)[..|rs| - 1] == RedTexts(s, rs[..|rs| - 1]);
    }
  }

  lemma PushTexts(s: string, args: seq<Span>, w: Span, rs: seq<Redirection>, r: Redirection)
    ensures WordTexts(s, args + [w]) == WordTexts(s, args) + [WordText(s, w)]
    ensures RedTexts(s, rs + [r]) == RedTexts(s, rs) + [Red(r.kind, WordText(s, r.file))]
  {
    assert (args + [w])[..|args|] == args && (rs + [r])[..|rs|] == rs;
  }

  // ---------- the tokens of a line ----------

  ghost predicate Matches(s: string, t: Token, x: Lexeme) {
    match x
    case Mark(c) => t == Sym(c)
    case Marks => t == More
    case Name(w) => t.Word? && WordText(s, t.span) == w
  }

  function Tok(s: string, p: nat): Token
    requires p <= |s|
  {
    GetToken(s, p).0
  }

  // From p on, gettoken() gives xs and then stands at q.
  ghost predicate Lexes(s: string, p: nat, xs: seq<Lexeme>, q: nat)
    decreases |xs|
  {
    p <= |s|
    && if xs == [] then q == Skip(s, p)
       else Matches(s, Tok(s, p), xs[0]) && Lexes(s, GetToken(s, p).1, xs[1..], q)
  }

  lemma Settled(s: string, p: nat)
    requires p <= |s|
    ensures Skip(s, Skip(s, p)) == Skip(s, p) && GetToken(s, Skip(s, p)) == GetToken(s, p)
    ensures Skip(s, GetToken(s, p).1) == GetToken(s, p).1
  {
  }

  lemma Peeks(s: string, p: nat)
    requires p <= |s|
    ensures Peek(s, p, "(") <==> Tok(s, p) == Sym('(')
    ensures Peek(s, p, ")") <==> Tok(s, p) == Sym(')')
    ensures Peek(s, p, "|") <==> Tok(s, p) == Sym('|')
    ensures Peek(s, p, "&") <==> Tok(s, p) == Sym('&')
    ensures Peek(s, p, ";") <==> Tok(s, p) == Sym(';')
    ensures Peek(s, p, "<>") <==> Tok(s, p) == Sym('<') || Tok(s, p) == Sym('>') || Tok(s, p) == More
    ensures Peek(s, p, "|)&;") <==>
              Tok(s, p) == Sym('|') || Tok(s, p) == Sym(')') || Tok(s, p) == Sym('&') || Tok(s, p) == Sym(';')
    ensures Tok(s, p) == End ==> GetToken(s, p).1 == Skip(s, p)
  {
  }

  lemma {:induction false} LexEnd(s: string, p: nat, xs: seq<Lexeme>, q: nat)
    requires Lexes(s, p, xs, q)
    ensures p <= q <= |s| && Skip(s, q) == q && (xs != [] ==> p < q)
    decreases |xs|
  {
    hide Skip, GetToken;
    Settled(s, p);
    if xs != [] { LexEnd(s, GetToken(s, p).1, xs[1..], q); }
  }

  lemma SettledLex(s: string, p: nat, xs: seq<Lexeme>, q: nat)
    requires p <= |s|
    ensures Lexes(s, Skip(s, p), xs, q) == Lexes(s, p, xs, q)
  {
    hide Skip, GetToken;
    Settled(s, p);
  }

  lemma {:induction false} LexSplit(s: string, p: nat, xs: seq<Lexeme>, ys: seq<Lexeme>, q: nat) returns (m: nat)
    requires Lexes(s, p, xs + ys, q)
    ensures Lexes(s, p, xs, m) && Lexes(s, m, ys, q)
    decreases |xs|
  {
    hide Skip, GetToken;
    if xs == [] {
      m := Skip(s, p);
      assert xs + ys == ys;
      SettledLex(s, p, ys, q);
    } else {
      assert (xs + ys)[1..] == xs[1..] + ys;
      m := LexSplit(s, GetToken(s, p).1, xs[1..], ys, q);
    }
  }

  lemma {:induction false} LexJoin(s: string, p: nat, xs: seq<Lexeme>, m: nat, ys: seq<Lexeme>, q: nat)
    requires Lexes(s, p, xs, m) && Lexes(s, m, ys, q)
    ensures Lexes(s, p, xs + ys, q)
    decreases |xs|
  {
    hide Skip, GetToken;
    if xs == [] {
      assert xs + ys == ys;
      SettledLex(s, p, ys, q);
    } else {
      assert (xs + ys)[1..] == xs[1..] + ys;
      LexJoin(s, GetToken(s, p).1, xs[1..], m, ys, q);
    }
  }

  // One token, and the rest.
  lemma LexOne(s: string, p: nat, x: Lexeme, ys: seq<Lexeme>, q: nat)
    ensures Lexes(s, p, [x] + ys, q) <==> p <= |s| && Matches(s, Tok(s, p), x) && Lexes(s, GetToken(s, p).1, ys, q)
  {
    hide Skip, GetToken;
    assert ([x] + ys)[1..] == ys;
  }

  // ---------- redirections and words ----------

  predicate IsRed(t: Token) {
    t == Sym('<') || t == Sym('>') || t == More
  }

  // What may stand behind a simple command or a block.
  predicate Closes(t: Token) {
    t == End || t == Sym(')') || t == Sym('&') || t == Sym(';') || t == Sym('|')
  }

  function Lead(items: seq<Item>): (n: nat)
    ensures n <= |items| && (forall i :: 0 <= i < n ==> items[i].Red?) && (n < |items| ==> items[n].Arg?)
  {
    if items == [] || items[0].Arg? then 0 else 1 + Lead(items[1..])
  }

  // One turn of parseredirs().
  lemma RedirsTurn(s: string, p: nat, rs: seq<Redirection>)
    requires p <= |s| && IsRed(Tok(s, p)) && Tok(s, GetToken(s, p).1).Word?
    ensures var f := GetToken(s, GetToken(s, p).1);
            Redirs(s, p, rs) == Redirs(s, f.1, rs + [Redirection(f.0.span, KindOf(Tok(s, p)))])
  {
    Peeks(s, p);
    hide Skip, GetToken, Peek;
  }

  lemma RedirsStop(s: string, p: nat, rs: seq<Redirection>)
    requires p <= |s| && !IsRed(Tok(s, p))
    ensures Redirs(s, p, rs) == Ok(rs, Skip(s, p))
  {
    Peeks(s, p);
    hide Skip, GetToken, Peek;
  }

  lemma OpIs(s: string, t: Token, k: Kind)
    ensures Matches(s, t, Op(k)) <==> IsRed(t) && KindOf(t) == k
  {
  }

  // The tokens of a redirection and what follows it.
  lemma RedTokens(s: string, p: nat, items: seq<Item>, q: nat)
    requires items != [] && items[0].Red?
    ensures Lexes(s, p, ItemsTokens(items), q) <==>
      && p <= |s| && IsRed(Tok(s, p)) && KindOf(Tok(s, p)) == items[0].k
      && var f := GetToken(s, GetToken(s, p).1);
         f.0.Word? && WordText(s, f.0.span) == items[0].file && Lexes(s, f.1, ItemsTokens(items[1..]), q)
  {
    hide Skip, GetToken, Lexes, Op;
    var rest := ItemsTokens(items[1..]);
    assert ItemsTokens(items) == [Op(items[0].k)] + ([Name(items[0].file)] + rest);
    LexOne(s, p, Op(items[0].k), [Name(items[0].file)] + rest, q);
    if p <= |s| {
      OpIs(s, Tok(s, p), items[0].k);
      LexOne(s, GetToken(s, p).1, Name(items[0].file), rest, q);
    }
  }

  // The tokens of a word and what follows it.
  lemma ArgTokens(s: string, p: nat, items: seq<Item>, q: nat)
    requires items != [] && items[0].Arg?
    ensures Lexes(s, p, ItemsTokens(items), q) <==>
      && p <= |s| && Tok(s, p).Word? && WordText(s, Tok(s, p).span) == items[0].w
      && Lexes(s, GetToken(s, p).1, ItemsTokens(items[1..]), q)
  {
    hide Skip, GetToken, Lexes;
    LexOne(s, p, Name(items[0].w), ItemsTokens(items[1..]), q);
  }

  lemma NoTokens(s: string, p: nat, q: nat)
    ensures Lexes(s, p, ItemsTokens([]), q) <==> p <= |s| && q == Skip(s, p)
  {
  }

  // parseredirs() takes the redirections in front of the next word.
  lemma {:induction false} RedirsParse(s: string, p: nat, items: seq<Item>, q: nat, rs: seq<Redirection>)
    returns (v: seq<Redirection>, m: nat)
    requires Lexes(s, p, ItemsTokens(items), q) && q <= |s| && !IsRed(Tok(s, q))
    ensures Redirs(s, p, rs) == Ok(v, m) && RedTexts(s, v) == RedTexts(s, rs) + items[..Lead(items)]
    ensures Lexes(s, m, ItemsTokens(items[Lead(items)..]), q)
    decreases |items|
  {
    hide Skip, GetToken, Lexes, Redirs, ItemsTokens, RedTexts;
    if items == [] {
      NoTokens(s, p, q);
      Settled(s, p);
      RedirsStop(s, p, rs);
      v, m := rs, q;
      NoTokens(s, q, q);
      assert RedTexts(s, rs) + items[..0] == RedTexts(s, rs);
    } else if items[0].Arg? {
      ArgTokens(s, p, items, q);
      RedirsStop(s, p, rs);
      v, m := rs, Skip(s, p);
      SettledLex(s, p, ItemsTokens(items), q);
      assert RedTexts(s, rs) + items[..0] == RedTexts(s, rs) && items[0..] == items;
    } else {
      RedTokens(s, p, items, q);
      RedirsTurn(s, p, rs);
      var f := GetToken(s, GetToken(s, p).1);
      var r := Redirection(f.0.span, KindOf(Tok(s, p)));
      PushTexts(s, [], f.0.span, rs, r);
      v, m := RedirsParse(s, f.1, items[1..], q, rs + [r]);
      var n := Lead(items[1..]);
      assert items[..n + 1] == [items[0]] + items[1..][..n] && items[1..][n..] == items[n + 1..];
      Assoc(RedTexts(s, rs), [items[0]], items[1..][..n]);
    }
  }

  lemma RedFirst(items: seq<Item>)
    requires items != [] && items[0].Red?
    ensures Words(items) == Words(items[1..]) && Reds(items) == [items[0]] + Reds(items[1..])
  {
  }

  lemma {:induction false} LeadSplit(items: seq<Item>)
    ensures Words(items) == Words(items[Lead(items)..])
    ensures Reds(items) == items[..Lead(items)] + Reds(items[Lead(items)..])
  {
    hide Words, Reds;
    if items != [] && items[0].Red? {
      LeadSplit(items[1..]);
      RedFirst(items);
      var n := Lead(items[1..]);
      assert items[1..][n..] == items[n + 1..] && items[..n + 1] == [items[0]] + items[1..][..n];
      Assoc([items[0]], items[1..][..n], Reds(items[n + 1..]));
    } else {
      assert items[0..] == items && items[..0] + Reds(items) == Reds(items);
    }
  }

  lemma WordSplit(items: seq<Item>)
    requires items != [] && items[0].Arg?
    ensures var rest, n := items[1..], Lead(items[1..]);
            Words(items) == [items[0].w] + Words(rest[n..]) && Reds(items) == rest[..n] + Reds(rest[n..])
  {
    LeadSplit(items[1..]);
  }

  lemma NoItems()
    ensures Words([]) == [] && Reds([]) == []
  {
  }

  lemma Assoc<T>(a: seq<T>, b: seq<T>, c: seq<T>)
    ensures (a + b) + c == a + (b + c)
  {
  }

  lemma ArgsStop(s: string, p: nat, args: seq<Span>, rs: seq<Redirection>)
    requires p <= |s| && Closes(Tok(s, p))
    ensures Args(s, p, args, rs) == Ok(Wrap(Exec(args), rs), Skip(s, p))
  {
    Peeks(s, p);
    hide Skip, GetToken, Peek, Redirs, Wrap;
  }

  lemma ArgsTurn(s: string, p: nat, args: seq<Span>, rs: seq<Redirection>, v: seq<Redirection>, m: nat)
    requires p <= |s| && Tok(s, p).Word? && |args| + 1 < MAXARGS && Redirs(s, GetToken(s, p).1, rs) == Ok(v, m)
    ensures m <= |s| && Args(s, p, args, rs) == Args(s, m, args + [Tok(s, p).span], v)
  {
    Peeks(s, p);
    hide Skip, GetToken, Peek, Redirs, Wrap;
  }

  // The rest of a simple command, from one of its words on.
  lemma {:induction false} ArgsParse(s: string, p: nat, items: seq<Item>, q: nat, args: seq<Span>, rs: seq<Redirection>)
    returns (v: Cmd<Span>)
    requires Lexes(s, p, ItemsTokens(items), q) && q <= |s| && Closes(Tok(s, q)) && (items == [] || items[0].Arg?)
    requires |args| + |Words(items)| < MAXARGS
    ensures Args(s, p, args, rs) == Ok(v, q)
    ensures Text(s, v) == Wrapped(Exec(WordTexts(s, args) + Words(items)), RedTexts(s, rs) + Reds(items))
    decreases |items|
  {
    hide Skip, GetToken, Lexes, Redirs, ItemsTokens, RedTexts, WordTexts, Wrap, Wrapped, Args, Words, Reds, Lead;
    if items == [] {
      NoTokens(s, p, q);
      Settled(s, p);
      ArgsStop(s, p, args, rs);
      v := Wrap(Exec(args), rs);
      WrapText(s, Exec(args), rs);
      NoItems();
      assert WordTexts(s, args) + [] == WordTexts(s, args) && RedTexts(s, rs) + [] == RedTexts(s, rs);
    } else {
      ArgTokens(s, p, items, q);
      var rest, n, w := items[1..], Lead(items[1..]), Tok(s, p).span;
      var u, m := RedirsParse(s, GetToken(s, p).1, rest, q, rs);
      WordSplit(items);
      ArgsTurn(s, p, args, rs, u, m);
      v := ArgsParse(s, m, rest[n..], q, args + [w], u);
      PushTexts(s, args, w, [], Redirection(w, Input));
      Assoc(WordTexts(s, args), [items[0].w], Words(rest[n..]));
      Assoc(RedTexts(s, rs), rest[..n], Reds(rest[n..]));
    }
  }

  lemma ExecIsArgs(s: string, p: nat, v: seq<Redirection>, m: nat)
    requires p <= |s| && Tok(s, p) != Sym('(') && Redirs(s, p, []) == Ok(v, m)
    ensures m <= |s| && ParseExec(s, p) == Args(s, m, [], v)
  {
    Peeks(s, p);
    hide Skip, GetToken, Peek, Redirs, Args, ParseBlock;
  }

  // A simple command: its words in order, and its redirections in order around them.
  lemma SimpleParses(s: string, p: nat, items: seq<Item>, q: nat) returns (v: Cmd<Span>)
    requires Lexes(s, p, ItemsTokens(items), q) && q <= |s| && Closes(Tok(s, q)) && |Words(items)| < MAXARGS
    ensures ParseExec(s, p) == Ok(v, q) && Text(s, v) == ElemTree(Simple(items))
  {
    hide Skip, GetToken, Lexes, Redirs, ItemsTokens, RedTexts, WordTexts, Wrap, Wrapped, Args, ParseExec;
    StartsPlain(s, p, items, q);
    var u, m := RedirsParse(s, p, items, q, []);
    LeadSplit(items);
    var n := Lead(items);
    ExecIsArgs(s, p, u, m);
    v := ArgsParse(s, m, items[n..], q, [], u);
    NoTexts(s);
    assert [] + Words(items[n..]) == Words(items) && [] + items[..n] + Reds(items[n..]) == Reds(items);
  }

  lemma NoTexts(s: string)
    ensures WordTexts(s, []) == [] && RedTexts(s, []) == []
  {
  }

  lemma StartsPlain(s: string, p: nat, items: seq<Item>, q: nat)
    requires Lexes(s, p, ItemsTokens(items), q) && q <= |s| && Closes(Tok(s, q))
    ensures p <= |s| && Tok(s, p) != Sym('(')
  {
    hide Skip, GetToken, Lexes, ItemsTokens;
    if items == [] {
      NoTokens(s, p, q);
      Settled(s, p);
    } else if items[0].Arg? {
      ArgTokens(s, p, items, q);
    } else {
      RedTokens(s, p, items, q);
    }
  }

  // ---------- every line of the grammar parses to its tree ----------

  lemma {:induction false} AllReds(rs: seq<Item>)
    requires forall i :: 0 <= i < |rs| ==> rs[i].Red?
    ensures Reds(rs) == rs && Lead(rs) == |rs|
  {
    if rs != [] { AllReds(rs[1..]); }
  }

  lemma BlockStep(s: string, p: nat, c: Cmd<Span>, e: nat, rs: seq<Redirection>, q: nat)
    requires p <= |s| && Tok(s, p) == Sym('(') && ParseLine(s, GetToken(s, p).1) == Ok(c, e) && e <= |s|
    requires Tok(s, e) == Sym(')') && Redirs(s, GetToken(s, e).1, []) == Ok(rs, q)
    ensures ParseExec(s, p) == Ok(Wrap(c, rs), q)
  {
    Peeks(s, p);
    Peeks(s, e);
    hide Skip, GetToken, Peek, Redirs, Args, ParseLine, Wrap;
  }

  lemma PipeStep(s: string, p: nat, c: Cmd<Span>, m: nat)
    requires p <= |s| && ParseExec(s, p) == Ok(c, m) && m <= |s|
    ensures Tok(s, m) != Sym('|') ==> ParsePipe(s, p) == Ok(c, Skip(s, m))
    ensures Tok(s, m) == Sym('|') ==>
              var d := ParsePipe(s, GetToken(s, m).1);
              ParsePipe(s, p) == if d.Panic? then Panic else Ok(Pipe(c, d.value), d.pos)
  {
    Peeks(s, m);
    hide Skip, GetToken, Peek, ParseExec;
  }

  lemma LineStep(s: string, p: nat, c: Cmd<Span>, m: nat)
    requires p <= |s| && ParsePipe(s, p) == Ok(c, m) && m <= |s|
    ensures var b := Backs(s, m, c);
            && b.1 <= |s|
            && (Tok(s, b.1) != Sym(';') ==> ParseLine(s, p) == Ok(b.0, Skip(s, b.1)))
            && (Tok(s, b.1) == Sym(';') ==>
                  var d := ParseLine(s, GetToken(s, b.1).1);
                  ParseLine(s, p) == if d.Panic? then Panic else Ok(List(b.0, d.value), d.pos))
  {
    Peeks(s, Backs(s, m, c).1);
    hide Skip, GetToken, Peek, ParsePipe, Backs;
  }

  lemma BacksStep(s: string, p: nat, c: Cmd<Span>)
    requires p <= |s|
    ensures Backs(s, p, c) == if Tok(s, p) == Sym('&') then Backs(s, GetToken(s, p).1, Back(c)) else (c, Skip(s, p))
  {
    Peeks(s, p);
    hide Skip, GetToken, Peek;
  }

  lemma {:induction false} BacksParse(s: string, p: nat, n: nat, q: nat, c: Cmd<Span>) returns (v: Cmd<Span>)
    requires Lexes(s, p, Amps(n), q) && q <= |s| && Tok(s, q) != Sym('&')
    ensures p <= |s| && Backs(s, p, c) == (v, q) && Text(s, v) == Backed(Text(s, c), n)
    decreases n
  {
    hide Skip, GetToken, Backs;
    BacksStep(s, p, c);
    Settled(s, p);
    if n == 0 {
      v := c;
    } else {
      LexOne(s, p, Mark('&'), Amps(n - 1), q);
      v := BacksParse(s, GetToken(s, p).1, n - 1, q, Back(c));
    }
  }

  lemma {:induction false} ElemParses(s: string, p: nat, e: Elem, q: nat) returns (v: Cmd<Span>)
    requires LegalElem(e) && Lexes(s, p, ElemTokens(e), q) && q <= |s| && Closes(Tok(s, q))
    ensures ParseExec(s, p) == Ok(v, q) && Text(s, v) == ElemTree(e)
    decreases e
  {
    hide Skip, GetToken, Lexes, ItemsTokens, LineTokens, ParseExec, ParseLine, Wrap, Wrapped, Redirs, LineTree;
    match e
    case Simple(items) => v := SimpleParses(s, p, items, q);
    case Block(line, redirs) =>
      var close := [Mark(')')] + ItemsTokens(redirs);
      LexOne(s, p, Mark('('), LineTokens(line) + close, q);
      var m := LexSplit(s, GetToken(s, p).1, LineTokens(line), close, q);
      LexOne(s, m, Mark(')'), ItemsTokens(redirs), q);
      var c := LineParses(s, GetToken(s, p).1, line, m);
      var rs, k := RedirsParse(s, GetToken(s, m).1, redirs, q, []);
      AllReds(redirs);
      NoTokens(s, k, q);
      NoTexts(s);
      assert redirs[|redirs|..] == [] && [] + redirs[..|redirs|] == redirs;
      BlockEnds(s, GetToken(s, m).1, rs, k, q);
      BlockStep(s, p, c, m, rs, q);
      v := Wrap(c, rs);
      WrapText(s, c, rs);
  }

  // parseredirs() leaves no white space behind.
  lemma {:induction false} BlockEnds(s: string, p: nat, rs: seq<Redirection>, k: nat, q: nat)
    requires p <= |s| && Redirs(s, p, []) == Ok(rs, k) && k <= |s| && q == Skip(s, k)
    ensures q == k
  {
    RedirsSettle(s, p, []);
  }

  lemma {:induction false} RedirsSettle(s: string, p: nat, rs: seq<Redirection>)
    requires p <= |s|
    ensures var r := Redirs(s, p, rs); r.Ok? ==> Skip(s, r.pos) == r.pos
    decreases |s| - p
  {
    Settled(s, p);
    hide Skip, GetToken;
    if Peek(s, p, "<>") && Tok(s, GetToken(s, p).1).Word? {
      var f := GetToken(s, GetToken(s, p).1);
      RedirsSettle(s, f.1, rs + [Redirection(f.0.span, KindOf(Tok(s, p)))]);
    }
  }

  lemma {:induction false} PipeParses(s: string, p: nat, l: Pipeline, q: nat) returns (v: Cmd<Span>)
    requires LegalPipe(l) && Lexes(s, p, PipeTokens(l), q) && q <= |s| && Closes(Tok(s, q)) && Tok(s, q) != Sym('|')
    ensures ParsePipe(s, p) == Ok(v, q) && Text(s, v) == PipeTree(l)
    decreases l
  {
    hide Skip, GetToken, Lexes, ElemTokens, ParseExec, ParsePipe, ElemTree, LegalElem;
    match l
    case Only(e) =>
      v := ElemParses(s, p, e, q);
      LexEnd(s, p, ElemTokens(e), q);
      PipeStep(s, p, v, q);
    case Into(e, next) =>
      var m := LexSplit(s, p, ElemTokens(e), [Mark('|')] + PipeTokens(next), q);
      LexOne(s, m, Mark('|'), PipeTokens(next), q);
      var a := ElemParses(s, p, e, m);
      var b := PipeParses(s, GetToken(s, m).1, next, q);
      LexEnd(s, p, ElemTokens(e), m);
      PipeStep(s, p, a, m);
      v := Pipe(a, b);
  }

  lemma {:induction false} LineParses(s: string, p: nat, l: Line, q: nat) returns (v: Cmd<Span>)
    requires LegalLine(l) && Lexes(s, p, LineTokens(l), q) && q <= |s| && (Tok(s, q) == End || Tok(s, q) == Sym(')'))
    ensures ParseLine(s, p) == Ok(v, q) && Text(s, v) == LineTree(l)
    decreases l
  {
    hide Skip, GetToken, Lexes, PipeTokens, Amps, ParsePipe, ParseLine, PipeTree, LegalPipe, Backs;
    var after := if l.Then? then [Mark(';')] + LineTokens(l.next) else [];
    assert LineTokens(l) == PipeTokens(l.pipe) + (Amps(l.amps) + after);
    var m := LexSplit(s, p, PipeTokens(l.pipe), Amps(l.amps) + after, q);
    var n := LexSplit(s, m, Amps(l.amps), after, q);
    LexEnd(s, p, PipeTokens(l.pipe), m);
    LexEnd(s, m, Amps(l.amps), n);
    AfterLine(s, n, l, q);
    AfterPipe(s, m, l.amps, n);
    var a := PipeParses(s, p, l.pipe, m);
    var b := BacksParse(s, m, l.amps, n, a);
    LineStep(s, p, a, m);
    if l.Last? {
      v := b;
    } else {
      LexOne(s, n, Mark(';'), LineTokens(l.next), q);
      var d := LineParses(s, GetToken(s, n).1, l.next, q);
      v := List(b, d);
    }
  }

  // What follows a pipeline and its &s.
  lemma AfterLine(s: string, n: nat, l: Line, q: nat)
    requires n <= |s| && q <= |s| && Skip(s, n) == n && (Tok(s, q) == End || Tok(s, q) == Sym(')'))
    requires Lexes(s, n, if l.Then? then [Mark(';')] + LineTokens(l.next) else [], q)
    ensures if l.Then? then Tok(s, n) == Sym(';') else n == q
  {
    hide Skip, GetToken;
    if l.Then? { LexOne(s, n, Mark(';'), LineTokens(l.next), q); }
  }

  lemma AfterPipe(s: string, m: nat, amps: nat, n: nat)
    requires m <= |s| && n <= |s| && Skip(s, m) == m && Lexes(s, m, Amps(amps), n)
    requires Tok(s, n) == End || Tok(s, n) == Sym(')') || Tok(s, n) == Sym(';')
    ensures Closes(Tok(s, m)) && Tok(s, m) != Sym('|')
  {
    hide Skip, GetToken;
    if amps > 0 { LexOne(s, m, Mark('&'), Amps(amps - 1), n); }
  }

  // ---------- every line that parses is in the grammar ----------

  lemma WordLegal(s: string, w: Span)
    requires IsWord(s, w)
    ensures LegalWord(WordText(s, w))
  {
  }

  lemma FirstTokens(items: seq<Item>)
    requires items != []
    ensures ItemsTokens(items) == ItemsTokens([items[0]]) + ItemsTokens(items[1..])
  {
    assert [items[0]][1..] == [];
  }

  lemma {:induction false} TokensOfBoth(a: seq<Item>, b: seq<Item>)
    ensures ItemsTokens(a + b) == ItemsTokens(a) + ItemsTokens(b)
  {
    if a == [] {
      assert a + b == b;
    } else {
      TokensOfBoth(a[1..], b);
      assert (a + b)[1..] == a[1..] + b && (a + b)[0] == a[0];
      Assoc(ItemsTokens([a[0]]), ItemsTokens(a[1..]), ItemsTokens(b));
      FirstTokens(a);
      FirstTokens(a + b);
      hide ItemsTokens;
    }
  }

  lemma {:induction false} RedsThen(reds: seq<Item>, rest: seq<Item>)
    requires forall i :: 0 <= i < |reds| ==> reds[i].Red?
    ensures Words(reds + rest) == Words(rest) && Reds(reds + rest) == reds + Reds(rest)
  {
    hide Words, Reds;
    if reds == [] {
      assert reds + rest == rest && reds + Reds(rest) == Reds(rest);
    } else {
      RedsThen(reds[1..], rest);
      assert (reds + rest)[0] == reds[0] && (reds + rest)[1..] == reds[1..] + rest;
      RedFirst(reds + rest);
      Assoc([reds[0]], reds[1..], Reds(rest));
      assert [reds[0]] + reds[1..] == reds;
    }
  }

  lemma {:induction false} RedirsRead(s: string, p: nat, rs: seq<Redirection>) returns (items: seq<Item>)
    requires p <= |s| && Redirs(s, p, rs).Ok?
    ensures LegalItems(items) && forall i :: 0 <= i < |items| ==> items[i].Red?
    ensures var r := Redirs(s, p, rs);
            Lexes(s, p, ItemsTokens(items), r.pos) && RedTexts(s, r.value) == RedTexts(s, rs) + items
    decreases |s| - p
  {
    hide Skip, GetToken, Lexes, ItemsTokens, RedTexts, Peek;
    Peeks(s, p);
    if Peek(s, p, "<>") {
      var f := GetToken(s, GetToken(s, p).1);
      var r := Redirection(f.0.span, KindOf(Tok(s, p)));
      var rest := RedirsRead(s, f.1, rs + [r]);
      items := [Red(r.kind, WordText(s, f.0.span))] + rest;
      WordLegal(s, f.0.span);
      RedTokens(s, p, items, Redirs(s, p, rs).pos);
      PushTexts(s, [], f.0.span, rs, r);
      Assoc(RedTexts(s, rs), [items[0]], rest);
    } else {
      items := [];
      NoTokens(s, p, Skip(s, p));
      assert RedTexts(s, rs) + [] == RedTexts(s, rs);
    }
  }

  lemma {:induction false} ArgsRead(s: string, p: nat, args: seq<Span>, rs: seq<Redirection>) returns (items: seq<Item>)
    requires p <= |s| && Args(s, p, args, rs).Ok? && |args| < MAXARGS
    ensures LegalItems(items) && |args| + |Words(items)| < MAXARGS
    ensures var r := Args(s, p, args, rs);
            && Lexes(s, p, ItemsTokens(items), r.pos)
            && Text(s, r.value) == Wrapped(Exec(WordTexts(s, args) + Words(items)), RedTexts(s, rs) + Reds(items))
    decreases |s| - p
  {
    hide Skip, GetToken, Lexes, ItemsTokens, RedTexts, Peek, WordTexts, Wrap, Wrapped, Redirs, Words, Reds;
    Peeks(s, p);
    if Closes(Tok(s, p)) {
      items := [];
      NoTokens(s, p, Skip(s, p));
      NoItems();
      WrapText(s, Exec(args), rs);
      assert WordTexts(s, args) + [] == WordTexts(s, args) && RedTexts(s, rs) + [] == RedTexts(s, rs);
    } else {
      var w, m := Tok(s, p).span, GetToken(s, p).1;
      var q := Redirs(s, m, rs);
      var reds := RedirsRead(s, m, rs);
      var rest := ArgsRead(s, q.pos, args + [w], q.value);
      items := [Arg(WordText(s, w))] + (reds + rest);
      WordLegal(s, w);
      TokensOfBoth(reds, rest);
      LexJoin(s, m, ItemsTokens(reds), q.pos, ItemsTokens(rest), Args(s, p, args, rs).pos);
      ArgTokens(s, p, items, Args(s, p, args, rs).pos);
      ItemFirst(items);
      RedsThen(reds, rest);
      PushTexts(s, args, w, [], Redirection(w, Input));
      Assoc(WordTexts(s, args), [items[0].w], Words(rest));
      Assoc(RedTexts(s, rs), reds, Reds(rest));
    }
  }

  lemma ItemFirst(items: seq<Item>)
    requires items != [] && items[0].Arg?
    ensures Words(items) == [items[0].w] + Words(items[1..]) && Reds(items) == Reds(items[1..])
  {
  }

  lemma SimpleReads(s: string, p: nat) returns (items: seq<Item>)
    requires p <= |s| && Tok(s, p) != Sym('(') && ParseExec(s, p).Ok?
    ensures LegalElem(Simple(items)) && Lexes(s, p, ItemsTokens(items), ParseExec(s, p).pos)
    ensures Text(s, ParseExec(s, p).value) == ElemTree(Simple(items))
  {
    hide Skip, GetToken, Lexes, ItemsTokens, RedTexts, Peek, WordTexts, Wrapped, Redirs, Args, Words, Reds, ParseBlock;
    Peeks(s, p);
    var q := Redirs(s, p, []);
    var reds := RedirsRead(s, p, []);
    var rest := ArgsRead(s, q.pos, [], q.value);
    items := reds + rest;
    TokensOfBoth(reds, rest);
    LexJoin(s, p, ItemsTokens(reds), q.pos, ItemsTokens(rest), ParseExec(s, p).pos);
    RedsThen(reds, rest);
    NoTexts(s);
    assert [] + Words(rest) == Words(rest) && [] + reds == reds;
  }

  lemma {:induction false} ElemReads(s: string, p: nat) returns (e: Elem)
    requires p <= |s| && ParseExec(s, p).Ok?
    ensures LegalElem(e) && Lexes(s, p, ElemTokens(e), ParseExec(s, p).pos)
    ensures Text(s, ParseExec(s, p).value) == ElemTree(e)
    decreases |s| - p, 1
  {
    hide Skip, GetToken, Lexes, ItemsTokens, LineTokens, Peek, Wrap, Wrapped, Redirs, Args, ParseLine, LineTree, Words;
    Peeks(s, p);
    if Tok(s, p) != Sym('(') {
      var items := SimpleReads(s, p);
      e := Simple(items);
    } else {
      var r := ParseExec(s, p);
      var m := GetToken(s, p).1;
      var c := ParseLine(s, m);
      Peeks(s, c.pos);
      var n := GetToken(s, c.pos).1;
      var line := LineReads(s, m);
      var reds := RedirsRead(s, n, []);
      e := Block(line, reds);
      LexOne(s, c.pos, Mark(')'), ItemsTokens(reds), r.pos);
      LexJoin(s, m, LineTokens(line), c.pos, [Mark(')')] + ItemsTokens(reds), r.pos);
      LexOne(s, p, Mark('('), LineTokens(line) + ([Mark(')')] + ItemsTokens(reds)), r.pos);
      AllReds(reds);
      NoTexts(s);
      assert [] + reds == reds;
      WrapText(s, c.value, Redirs(s, n, []).value);
    }
  }

  lemma {:induction false} PipeReads(s: string, p: nat) returns (l: Pipeline)
    requires p <= |s| && ParsePipe(s, p).Ok?
    ensures LegalPipe(l) && Lexes(s, p, PipeTokens(l), ParsePipe(s, p).pos)
    ensures Text(s, ParsePipe(s, p).value) == PipeTree(l)
    decreases |s| - p, 2
  {
    hide Skip, GetToken, Lexes, ElemTokens, Peek, ParseExec, ElemTree, LegalElem;
    var c := ParseExec(s, p);
    var e := ElemReads(s, p);
    Peeks(s, c.pos);
    if Tok(s, c.pos) != Sym('|') {
      l := Only(e);
      LexEnd(s, p, ElemTokens(e), c.pos);
    } else {
      var m := GetToken(s, c.pos).1;
      var next := PipeReads(s, m);
      l := Into(e, next);
      var q := ParsePipe(s, p).pos;
      LexOne(s, c.pos, Mark('|'), PipeTokens(next), q);
      LexJoin(s, p, ElemTokens(e), c.pos, [Mark('|')] + PipeTokens(next), q);
    }
  }

  lemma {:induction false} BacksRead(s: string, p: nat, c: Cmd<Span>) returns (n: nat)
    requires p <= |s|
    ensures var b := Backs(s, p, c); Lexes(s, p, Amps(n), b.1) && Text(s, b.0) == Backed(Text(s, c), n)
    decreases |s| - p
  {
    hide Skip, GetToken, Backs;
    BacksStep(s, p, c);
    if Tok(s, p) == Sym('&') {
      var k := BacksRead(s, GetToken(s, p).1, Back(c));
      n := k + 1;
      LexOne(s, p, Mark('&'), Amps(k), Backs(s, p, c).1);
    } else {
      n := 0;
    }
  }

  lemma {:induction false} LineReads(s: string, p: nat) returns (l: Line)
    requires p <= |s| && ParseLine(s, p).Ok?
    ensures LegalLine(l) && Lexes(s, p, LineTokens(l), ParseLine(s, p).pos)
    ensures Text(s, ParseLine(s, p).value) == LineTree(l)
    decreases |s| - p, 3
  {
    hide Skip, GetToken, Lexes, PipeTokens, Amps, Peek, ParsePipe, PipeTree, LegalPipe, Backs, Backed;
    var c := ParsePipe(s, p);
    var b := Backs(s, c.pos, c.value);
    var q := ParseLine(s, p).pos;
    var pipe := PipeReads(s, p);
    var n := BacksRead(s, c.pos, c.value);
    Peeks(s, b.1);
    if Tok(s, b.1) != Sym(';') {
      l := Last(pipe, n);
      LexEnd(s, c.pos, Amps(n), b.1);
      LexJoin(s, p, PipeTokens(pipe), c.pos, Amps(n), q);
    } else {
      var next := LineReads(s, GetToken(s, b.1).1);
      l := Then(pipe, n, next);
      LexOne(s, b.1, Mark(';'), LineTokens(next), q);
      LexJoin(s, c.pos, Amps(n), b.1, [Mark(';')] + LineTokens(next), q);
      LexJoin(s, p, PipeTokens(pipe), c.pos, Amps(n) + ([Mark(';')] + LineTokens(next)), q);
    }
  }

  // ---------- the parser and the grammar agree ----------

  // gettoken() reads s as the line l.
  ghost predicate Spells(s: string, l: Line) {
    LegalLine(l) && Lexes(s, 0, LineTokens(l), |s|)
  }

  lemma ParsesLine(s: string, l: Line)
    requires Spells(s, l)
    ensures ParseCmd(s).Ok? && Text(s, ParseCmd(s).value) == LineTree(l)
  {
    hide ParseLine, Lexes, LineTokens, LineTree, Text, LegalLine;
    var v := LineParses(s, 0, l, |s|);
  }

  lemma ReadsLine(s: string) returns (l: Line)
    requires ParseCmd(s).Ok?
    ensures Spells(s, l)
  {
    hide Skip, ParseLine, Lexes, LineTokens, LineTree, Text, LegalLine;
    l := LineReads(s, 0);
    LexEnd(s, 0, LineTokens(l), ParseLine(s, 0).pos);
  }

  ghost predicate InGrammar(s: string) {
    exists l: Line :: Spells(s, l)
  }

  // c has the tree of the line s, however s is read as one.
  ghost predicate IsTreeOf(c: Cmd<Span>, s: string) {
    forall l: Line :: Spells(s, l) ==> Text(s, c) == LineTree(l)
  }

  // parsecmd() accepts a line just if it is in the grammar, and then gives its tree.
  lemma ParsesExactly(s: string)
    ensures ParseCmd(s).Ok? <==> InGrammar(s)
    ensures ParseCmd(s).Ok? ==> IsTreeOf(ParseCmd(s).value, s)
  {
    hide ParseCmd, Spells, Text, LineTree;
    if ParseCmd(s).Ok? { var l := ReadsLine(s); }
    forall l: Line | Spells(s, l) ensures ParseCmd(s).Ok? && Text(s, ParseCmd(s).value) == LineTree(l) {
      ParsesLine(s, l);
    }
  }
}
