/**
 The text of a line: its tokens with white space between them.  However a line of the grammar is
 spaced it parses to its tree, and every tree has such a line (user/sh.c).
 */
module ShellRoundTrip {
  import opened ShellModel
  import opened ShellGrammar

  // ---------- text ----------

  // A token and the white space behind it.
  datatype Spaced = Spaced(x: Lexeme, gap: string)

  function LexText(x: Lexeme): string {
    match x
    case Mark(c) => [c]
    case Marks => ">>"
    case Name(w) => w
  }

  function Spell(xs: seq<Spaced>): string {
    if xs == [] then "" else LexText(xs[0].x) + xs[0].gap + Spell(xs[1..])
  }

  function Lexemes(xs: seq<Spaced>): seq<Lexeme> {
    if xs == [] then [] else [xs[0].x] + Lexemes(xs[1..])
  }

  ghost predicate Blank(gap: string) {
    forall i :: 0 <= i < |gap| ==> IsSpace(gap[i])
  }

  ghost predicate LegalLexeme(x: Lexeme) {
    match x
    case Mark(c) => IsSymbol(c)
    case Marks => true
    case Name(w) => LegalWord(w)
  }

  // Without white space between them, two tokens do not run together.
  predicate Apart(x: Lexeme, y: Lexeme) {
    !(x.Name? && y.Name?) && !(x == Mark('>') && (y == Mark('>') || y == Marks))
  }

  ghost predicate WellSpaced(xs: seq<Spaced>) {
    xs != [] ==>
      && Blank(xs[0].gap) && LegalLexeme(xs[0].x)
      && (|xs| > 1 && xs[0].gap == "" ==> Apart(xs[0].x, xs[1].x))
      && WellSpaced(xs[1..])
  }

  lemma {:induction false} SkipsTo(s: string, p: nat, q: nat)
    requires p <= q <= |s| && (forall i :: p <= i < q ==> IsSpace(s[i])) && (q < |s| ==> !IsSpace(s[q]))
    ensures Skip(s, p) == q
    decreases q - p
  {
    if p < q { SkipsTo(s, p + 1, q); }
  }

  lemma {:induction false} EndsAt(s: string, p: nat, q: nat)
    requires p <= q <= |s| && (forall i :: p <= i < q ==> WordChar(s[i])) && (q < |s| ==> !WordChar(s[q]))
    ensures WordEnd(s, p) == q
    decreases q - p
  {
    if p < q { EndsAt(s, p + 1, q); }
  }

  // What the text of tokens starts with.
  lemma SpellStarts(xs: seq<Spaced>)
    requires WellSpaced(xs) && xs != []
    ensures Spell(xs) != "" && Spell(xs)[0] == LexText(xs[0].x)[0] && !IsSpace(Spell(xs)[0])
    ensures WordChar(Spell(xs)[0]) <==> xs[0].x.Name?
    ensures Spell(xs)[0] == '>' <==> xs[0].x == Mark('>') || xs[0].x == Marks
  {
  }

  // The token at p, when x is there and what follows does not run into it.
  lemma TokenIs(s: string, p: nat, x: Lexeme, q: nat)
    requires p <= q <= |s| && s[p..q] == LexText(x) && LegalLexeme(x)
    requires q < |s| && x.Name? ==> !WordChar(s[q])
    requires q < |s| && x == Mark('>') ==> s[q] != '>'
    ensures p < q && !IsSpace(s[p]) && TokenAt(s, p).1 == q && Matches(s, TokenAt(s, p).0, x)
  {
    assert forall i :: p <= i < q ==> s[i] == s[p..q][i - p];
    if x.Name? { EndsAt(s, p, q); }
  }

  lemma Parts(s: string, p: nat, a: string, b: string, c: string)
    requires p <= |s| && s[p..] == a + b + c
    ensures var q := p + |a|; var r := q + |b|; r <= |s| && s[p..q] == a && s[q..r] == b && s[r..] == c
  {
    var t := s[p..];
    assert t[..|a|] == a && t[|a|..|a| + |b|] == b && t[|a| + |b|..] == c;
  }

  // gettoken() on the text of tokens gives the tokens.
  lemma {:induction false} SpellLexes(s: string, p: nat, xs: seq<Spaced>)
    requires p <= |s| && s[p..] == Spell(xs) && WellSpaced(xs)
    ensures Lexes(s, p, Lexemes(xs), |s|)
    decreases |xs|
  {
    hide Skip, TokenAt, Matches, LexText;
    if xs == [] {
      SkipsTo(s, p, p);
    } else {
      var x, gap, rest := xs[0].x, xs[0].gap, Spell(xs[1..]);
      var q := p + |LexText(x)|;
      var r := q + |gap|;
      Parts(s, p, LexText(x), gap, rest);
      AfterGap(s, q, r, gap, xs[1..]);
      TokenIs(s, p, x, q);
      SkipsTo(s, p, p);
      assert GetToken(s, p) == (TokenAt(s, p).0, r);
      SpellLexes(s, r, xs[1..]);
      LexOne(s, p, x, Lexemes(xs[1..]), |s|);
    }
  }

  lemma AfterGap(s: string, q: nat, r: nat, gap: string, ys: seq<Spaced>)
    requires q <= r <= |s| && s[q..r] == gap && Blank(gap) && s[r..] == Spell(ys) && WellSpaced(ys)
    ensures Skip(s, q) == r
    ensures q < |s| && gap != "" ==> IsSpace(s[q])
    ensures q < |s| && gap == "" ==>
              && ys != [] && (WordChar(s[q]) <==> ys[0].x.Name?)
              && (s[q] == '>' <==> ys[0].x == Mark('>') || ys[0].x == Marks)
  {
    assert forall i :: q <= i < r ==> s[i] == s[q..r][i - q];
    if ys != [] {
      SpellStarts(ys);
      assert s[r] == s[r..][0];
    }
    SkipsTo(s, q, r);
  }

  // However a line of the grammar is spaced, it parses to its tree.
  lemma SpacingIsFree(l: Line, lead: string, xs: seq<Spaced>)
    requires LegalLine(l) && Lexemes(xs) == LineTokens(l) && Blank(lead) && WellSpaced(xs)
    ensures var s := lead + Spell(xs); ParseCmd(s).Ok? && Text(s, ParseCmd(s).value) == LineTree(l)
  {
    hide LegalLine, LineTokens, LineTree, Lexes, Text, Lexemes, ParseCmd;
    var s := lead + Spell(xs);
    assert s[|lead|..] == Spell(xs) && s[0..|lead|] == lead;
    AfterGap(s, 0, |lead|, lead, xs);
    SpellLexes(s, |lead|, xs);
    SettledLex(s, 0, Lexemes(xs), |s|);
    ParsesLine(s, l);
  }

  // ---------- a line for every tree ----------

  function ArgItems(args: seq<string>): seq<Item> {
    if args == [] then [] else [Arg(args[0])] + ArgItems(args[1..])
  }

  function InBlock(l: Line, rs: seq<Item>): Pipeline {
    Only(Block(l, rs))
  }

  // A line for c, with every command inside another in parentheses.
  function LineOf(c: Cmd<string>): Line {
    match c
    case Exec(args) => Last(Only(Simple(ArgItems(args))), 0)
    case Redir(d, file, k) => Last(InBlock(LineOf(d), [Red(k, file)]), 0)
    case Pipe(l, r) => Last(Into(Block(LineOf(l), []), InBlock(LineOf(r), [])), 0)
    case List(l, r) => Then(InBlock(LineOf(l), []), 0, Last(InBlock(LineOf(r), []), 0))
    case Back(d) => Last(InBlock(LineOf(d), []), 1)
  }

  ghost predicate Legal(c: Cmd<string>) {
    match c
    case Exec(args) => |args| < MAXARGS && forall i :: 0 <= i < |args| ==> LegalWord(args[i])
    case Redir(d, file, _) => Legal(d) && LegalWord(file)
    case Pipe(l, r) => Legal(l) && Legal(r)
    case List(l, r) => Legal(l) && Legal(r)
    case Back(d) => Legal(d)
  }

  lemma {:induction false} ArgItemsAre(args: seq<string>)
    requires forall i :: 0 <= i < |args| ==> LegalWord(args[i])
    ensures LegalItems(ArgItems(args)) && Words(ArgItems(args)) == args && Reds(ArgItems(args)) == []
  {
    if args != [] {
      ArgItemsAre(args[1..]);
      assert ArgItems(args)[1..] == ArgItems(args[1..]);
    }
  }

  lemma SimpleTree(items: seq<Item>)
    requires LegalItems(items) && |Words(items)| < MAXARGS && Reds(items) == []
    ensures LegalPipe(Only(Simple(items))) && PipeTree(Only(Simple(items))) == Exec(Words(items))
  {
  }

  lemma BlockTree(l: Line, rs: seq<Item>)
    requires LegalLine(l) && LegalItems(rs) && forall i :: 0 <= i < |rs| ==> rs[i].Red?
    ensures LegalElem(Block(l, rs)) && ElemTree(Block(l, rs)) == Wrapped(LineTree(l), rs)
    ensures LegalPipe(InBlock(l, rs)) && PipeTree(InBlock(l, rs)) == Wrapped(LineTree(l), rs)
  {
    AllReds(rs);
  }

  lemma {:induction false} LineOfTree(c: Cmd<string>)
    requires Legal(c)
    ensures LegalLine(LineOf(c)) && LineTree(LineOf(c)) == c
    decreases c
  {
    match c
    case Exec(args) =>
      ArgItemsAre(args);
      SimpleTree(ArgItems(args));
    case Redir(d, file, k) =>
      LineOfTree(d);
      BlockTree(LineOf(d), [Red(k, file)]);
      assert [Red(k, file)][..0] == [];
    case Pipe(l, r) =>
      LineOfTree(l);
      LineOfTree(r);
      BlockTree(LineOf(l), []);
      BlockTree(LineOf(r), []);
    case List(l, r) =>
      LineOfTree(l);
      LineOfTree(r);
      BlockTree(LineOf(l), []);
      BlockTree(LineOf(r), []);
    case Back(d) =>
      LineOfTree(d);
      BlockTree(LineOf(d), []);
  }

  // A blank behind every token.
  function Spread(xs: seq<Lexeme>): seq<Spaced> {
    if xs == [] then [] else [Spaced(xs[0], " ")] + Spread(xs[1..])
  }

  function Show(c: Cmd<string>): string {
    Spell(Spread(LineTokens(LineOf(c))))
  }

  ghost predicate AllLegal(xs: seq<Lexeme>) {
    forall i :: 0 <= i < |xs| ==> LegalLexeme(xs[i])
  }

  lemma {:induction false} SpreadIs(xs: seq<Lexeme>)
    requires AllLegal(xs)
    ensures Lexemes(Spread(xs)) == xs && WellSpaced(Spread(xs))
  {
    if xs != [] {
      SpreadIs(xs[1..]);
      assert Spread(xs)[1..] == Spread(xs[1..]);
    }
  }

  lemma {:induction false} ItemsLegal(items: seq<Item>)
    requires LegalItems(items)
    ensures AllLegal(ItemsTokens(items))
  {
    if items != [] { ItemsLegal(items[1..]); }
  }

  lemma {:induction false} AmpsLegal(n: nat)
    ensures AllLegal(Amps(n))
  {
    if n > 0 { AmpsLegal(n - 1); }
  }

  lemma {:induction false} ElemLegal(e: Elem)
    requires LegalElem(e)
    ensures AllLegal(ElemTokens(e))
    decreases e
  {
    match e
    case Simple(items) => ItemsLegal(items);
    case Block(line, redirs) =>
      TokensLegal(line);
      ItemsLegal(redirs);
  }

  lemma {:induction false} PipeLegal(p: Pipeline)
    requires LegalPipe(p)
    ensures AllLegal(PipeTokens(p))
    decreases p
  {
    ElemLegal(p.elem);
    if p.Into? { PipeLegal(p.next); }
  }

  lemma {:induction false} TokensLegal(l: Line)
    requires LegalLine(l)
    ensures AllLegal(LineTokens(l))
    decreases l
  {
    PipeLegal(l.pipe);
    AmpsLegal(l.amps);
    if l.Then? { TokensLegal(l.next); }
  }

  // The shell parses the text of every command tree to that tree.
  lemma RoundTrip(c: Cmd<string>)
    requires Legal(c)
    ensures ParseCmd(Show(c)).Ok? && Text(Show(c), ParseCmd(Show(c)).value) == c
  {
    hide LegalLine, LineTokens, LineTree, Text, ParseCmd, LineOf, Spell;
    var l := LineOf(c);
    LineOfTree(c);
    TokensLegal(l);
    SpreadIs(LineTokens(l));
    SpacingIsFree(l, "", Spread(LineTokens(l)));
    assert "" + Show(c) == Show(c);
  }
}
