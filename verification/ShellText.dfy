/** What the shell's parser does with text: every spelling of a command gives the command back, as far as its
    nodes fit in the arena, and after NUL termination every token of the line reads back as a C string. */
module ShellText {
  import opened Common
  import opened Shell
  import opened ShellLex
  import opened ShellGrammar

  // ---- every command has a text ------------------------------------------------------------

  predicate Legal(t: Tree) {
    match t
    case TExec(args) => |args| < MAXARGS && forall i :: 0 <= i < |args| ==> LegalWord(args[i])
    case TRedir(d, f, _) => Legal(d) && LegalWord(f)
    case TPipe(l, r) => Legal(l) && Legal(r)
    case TList(l, r) => Legal(l) && Legal(r)
    case TBack(d) => Legal(d)
  }

  predicate Compound(t: Tree) {
    t.TPipe? || t.TList? || t.TBack?
  }

  /** A command as a line, with parentheses where the grammar needs them. */
  function AsLine(t: Tree): Line
    decreases t, if Compound(t) then 2 else 6
  {
    if t.TList? then AsBacked(t.left, 0).(rest := Some(AsLine(t.right))) else AsBacked(t, 0)
  }

  function AsBacked(t: Tree, n: nat): Line
    decreases t, if t.TBack? || t.TPipe? then 1 else 5
  {
    if t.TBack? then AsBacked(t.cmd, n + 1) else Line(AsPipe(t), n, None)
  }

  function AsPipe(t: Tree): PipeLine
    decreases t, if t.TPipe? then 0 else 4
  {
    if t.TPipe? then PipeLine(AsSimple(t.left), Some(AsPipe(t.right))) else PipeLine(AsSimple(t), None)
  }

  function AsSimple(t: Tree): Simple
    decreases t, 3
  {
    match t
    case TExec(args) => Plain(AsItems(args))
    case TRedir(c, f, out) => Behind(AsSimple(c), Redirect(f, out))
    case _ => Block(AsLine(t), [])
  }

  function AsItems(ws: seq<string>): (items: seq<Item>)
    ensures |items| == |ws| && forall k :: 0 <= k < |ws| ==> items[k] == Arg(ws[k])
  {
    seq(|ws|, k requires 0 <= k < |ws| => Arg(ws[k]))
  }

  function Behind(x: Simple, r: Redirect): Simple {
    match x
    case Plain(items) => Plain(items + [To(r)])
    case Block(body, rs) => Block(body, rs + [r])
  }

  lemma {:induction false} WordsOnly(ws: seq<string>)
    ensures ArgsOf(AsItems(ws)) == ws && RedirectsOf(AsItems(ws)) == []
    decreases |ws|
  {
    if ws != [] {
      WordsOnly(ws[1..]);
      assert AsItems(ws)[1..] == AsItems(ws[1..]);
    }
  }

  lemma {:induction false} LastTo(items: seq<Item>, r: Redirect)
    ensures ArgsOf(items + [To(r)]) == ArgsOf(items) && RedirectsOf(items + [To(r)]) == RedirectsOf(items) + [r]
    decreases |items|
  {
    if items == [] {
      assert [To(r)][1..] == [];
    } else {
      LastTo(items[1..], r);
      assert (items + [To(r)])[1..] == items[1..] + [To(r)];
    }
  }

  lemma BehindIs(x: Simple, r: Redirect)
    requires LegalSimple(x) && LegalWord(r.file)
    ensures LegalSimple(Behind(x, r)) && SimpleTree(Behind(x, r)) == TRedir(SimpleTree(x), r.file, r.out)
  {
    match x
    case Plain(items) =>
      LastTo(items, r);
      WrappedLast(TExec(ArgsOf(items)), RedirectsOf(items), r);
    case Block(body, rs) =>
      WrappedLast(LineTree(body), rs, r);
  }

  lemma {:induction false} AsLineMeans(t: Tree)
    requires Legal(t)
    ensures LegalLine(AsLine(t)) && LineTree(AsLine(t)) == t
    decreases t, if Compound(t) then 2 else 6
  {
    if t.TList? {
      AsBackedMeans(t.left, 0);
      AsLineMeans(t.right);
    } else {
      AsBackedMeans(t, 0);
    }
  }

  lemma {:induction false} AsBackedMeans(t: Tree, n: nat)
    requires Legal(t)
    ensures var l := AsBacked(t, n); LegalLine(l) && l.rest.None? && Backed(PipeTree(l.pipe), l.ands) == Backed(t, n)
    decreases t, if t.TBack? || t.TPipe? then 1 else 5
  {
    if t.TBack? { AsBackedMeans(t.cmd, n + 1); } else { AsPipeMeans(t); }
  }

  lemma {:induction false} AsPipeMeans(t: Tree)
    requires Legal(t)
    ensures LegalPipe(AsPipe(t)) && PipeTree(AsPipe(t)) == t
    decreases t, if t.TPipe? then 0 else 4
  {
    if t.TPipe? {
      AsSimpleMeans(t.left);
      AsPipeMeans(t.right);
    } else {
      AsSimpleMeans(t);
    }
  }

  lemma {:induction false} AsSimpleMeans(t: Tree)
    requires Legal(t)
    ensures LegalSimple(AsSimple(t)) && SimpleTree(AsSimple(t)) == t
    decreases t, 3
  {
    match t
    case TExec(args) =>
      WordsOnly(args);
    case TRedir(c, f, out) =>
      AsSimpleMeans(c);
      BehindIs(AsSimple(c), Redirect(f, out));
    case _ =>
      AsLineMeans(t);
  }

  // ---- printing ----------------------------------------------------------------------------

  /** Lexemes with one blank where they would run together, and nowhere else. */
  function Tight(ls: seq<Lexeme>, before: char): seq<Piece> {
    if ls == [] then []
    else
      var gap := if before == ls[0].kind && (before == 'a' || before == '>') then " " else "";
      [Piece(gap, Plainly(ls[0]))] + Tight(ls[1..], ls[0].kind)
  }

  function Plainly(l: Lexeme): string {
    if l.kind == 'a' then l.word else [l.kind]
  }

  function Print(t: Tree): string {
    Write(Tight(LineLex(AsLine(t)), NUL), "")
  }

  predicate LegalLex(ls: seq<Lexeme>) {
    forall k :: 0 <= k < |ls| ==>
      if ls[k].kind == 'a' then LegalWord(ls[k].word) else ls[k].word == "" && Special(ls[k].kind)
  }

  lemma {:induction false} TightSpells(ls: seq<Lexeme>, before: char, end: string)
    requires LegalLex(ls) && Blanks(end)
    ensures Spells(Tight(ls, before), end, ls)
    decreases |ls|
  {
    if ls != [] {
      TightSpells(ls[1..], ls[0].kind, end);
      assert Tight(ls, before)[1..] == Tight(ls[1..], ls[0].kind);
    }
  }

  lemma {:induction false} RedirectsLegal(rs: seq<Redirect>)
    requires LegalRedirects(rs)
    ensures LegalLex(RedirectsLex(rs))
    decreases |rs|
  {
    if rs != [] { RedirectsLegal(rs[1..]); }
  }

  lemma {:induction false} ItemsLegal(items: seq<Item>)
    requires LegalItems(items)
    ensures LegalLex(ItemsLex(items))
    decreases |items|
  {
    if items != [] {
      assert LegalItem(items[0]);
      ItemsLegal(items[1..]);
    }
  }

  lemma {:induction false} SimpleLegal(x: Simple)
    requires LegalSimple(x)
    ensures LegalLex(SimpleLex(x))
    decreases x
  {
    match x
    case Plain(items) => ItemsLegal(items);
    case Block(body, rs) =>
      LineLegal(body);
      RedirectsLegal(rs);
  }

  lemma {:induction false} PipeLegal(p: PipeLine)
    requires LegalPipe(p)
    ensures LegalLex(PipeLex(p))
    decreases p
  {
    SimpleLegal(p.first);
    if p.rest.Some? { PipeLegal(p.rest.value); }
  }

  lemma {:induction false} AndsLegal(n: nat)
    ensures LegalLex(Ands(n))
  {
    if n > 0 { AndsLegal(n - 1); }
  }

  lemma {:induction false} LineLegal(l: Line)
    requires LegalLine(l)
    ensures LegalLex(LineLex(l))
    decreases l
  {
    PipeLegal(l.pipe);
    AndsLegal(l.ands);
    if l.rest.Some? { LineLegal(l.rest.value); }
  }

  lemma {:induction false} NoNuls(ps: seq<Piece>, end: string, ls: seq<Lexeme>)
    requires Spells(ps, end, ls)
    ensures NUL !in Write(ps, end)
    decreases |ps|
  {
    if ps != [] { NoNuls(ps[1..], end, ls[1..]); }
  }

  // ---- what fits in the arena --------------------------------------------------------------

  /** What malloc1 hands out for a command. */
  function Bytes(t: Tree): nat {
    match t
    case TExec(_) => EXECSIZE
    case TRedir(d, _, _) => Bytes(d) + REDIRSIZE
    case TPipe(l, r) => Bytes(l) + Bytes(r) + PAIRSIZE
    case TList(l, r) => Bytes(l) + Bytes(r) + PAIRSIZE
    case TBack(d) => Bytes(d) + BACKSIZE
  }

  lemma {:induction false} TextSize(s: string, c: Cmd)
    ensures Bytes(Text(s, c)) == Size(c)
  {
    match c
    case Exec(_) =>
    case Redir(d, _, _) => TextSize(s, d);
    case Pipe(l, r) => TextSize(s, l); TextSize(s, r);
    case List(l, r) => TextSize(s, l); TextSize(s, r);
    case Back(d) => TextSize(s, d);
  }

  /** parsecmd on a line, in its fresh process. */
  function ParsedCmd(s: string): Outcome {
    Within(ParseCmd(s), 0)
  }

  /** parsecmd gives t and uses up the line if the nodes of t fit in the arena, and ends in malloc1's exit
      otherwise. */
  predicate Gives(s: string, t: Tree) {
    var o := ParsedCmd(s);
    if Bytes(t) <= MAXN then o.Done? && o.p.Ok? && o.p.pos == |s| && Text(s, o.p.cmd) == t else o == Exhausted
  }

  /** Every spelling of a sentence, whatever blanks stand between, before and behind its lexemes, gives what
      the sentence means. */
  lemma SpelledTrip(l: Line, ps: seq<Piece>, end: string)
    requires LegalLine(l) && Spells(ps, end, LineLex(l))
    ensures Gives(Write(ps, end), LineTree(l))
  {
    var s := Write(ps, end);
    NoNuls(ps, end, LineLex(l));
    LexWritten(ps, end, LineLex(l));
    Sentence(s, l);
    TextSize(s, ParseCmd(s).cmd);
  }

  /** Printing a command and parsing the text, with any blanks behind it, gives the command back. */
  lemma {:induction false} RoundTrip(t: Tree, end: string)
    requires Legal(t) && Blanks(end)
    ensures Gives(Print(t) + end, t)
  {
    var ls := LineLex(AsLine(t));
    AsLineMeans(t);
    LineLegal(AsLine(t));
    TightSpells(ls, NUL, end);
    SpelledTrip(AsLine(t), Tight(ls, NUL), end);
    EndMoved(Tight(ls, NUL), end);
  }

  lemma {:induction false} EndMoved(ps: seq<Piece>, end: string)
    ensures Write(ps, end) == Write(ps, "") + end
    decreases |ps|
  {
    if ps != [] { EndMoved(ps[1..], end); }
  }

  /** n semicolons: n + 1 empty commands. */
  function Semicolons(n: nat): Tree {
    if n == 0 then TExec([]) else TList(TExec([]), Semicolons(n - 1))
  }

  lemma {:induction false} SemicolonsPrint(n: nat)
    ensures Legal(Semicolons(n)) && LineLex(AsLine(Semicolons(n))) == seq(n, _ => Symbol(';'))
    ensures Bytes(Semicolons(n)) == EXECSIZE + n * (EXECSIZE + PAIRSIZE)
  {
    WordsOnly([]);
    if n > 0 {
      SemicolonsPrint(n - 1);
      assert seq(n, _ => Symbol(';')) == [Symbol(';')] + seq(n - 1, _ => Symbol(';'));
    }
  }

  lemma {:induction false} TightSemicolons(n: nat, before: char)
    ensures Write(Tight(seq(n, _ => Symbol(';')), before), "") == seq(n, _ => ';')
  {
    if n > 0 {
      TightSemicolons(n - 1, ';');
      assert seq(n, _ => Symbol(';'))[1..] == seq(n - 1, _ => Symbol(';'));
      assert seq(n, _ => ';') == [';'] + seq(n - 1, _ => ';');
    }
  }

  /** A line of semicolons is parsed if and only if there are at most 51 of them. */
  lemma SemicolonLimit(n: nat)
    ensures ParsedCmd(seq(n, _ => ';')).Done? <==> n <= 51
  {
    SemicolonsPrint(n);
    TightSemicolons(n, NUL);
    RoundTrip(Semicolons(n), "");
    assert Print(Semicolons(n)) + "" == seq(n, _ => ';');
  }

  // ---- how many words a command may have ---------------------------------------------------

  function WordsLex(ws: seq<string>): seq<Lexeme> {
    if ws == [] then [] else [Lexeme('a', ws[0])] + WordsLex(ws[1..])
  }

  lemma {:induction false} WordsAre(ws: seq<string>)
    ensures |WordsLex(ws)| == |ws| && forall k :: 0 <= k < |ws| ==> WordsLex(ws)[k] == Lexeme('a', ws[k])
    decreases |ws|
  {
    if ws != [] { WordsAre(ws[1..]); }
  }

  lemma {:induction false} ItemsOfWords(ws: seq<string>)
    ensures ItemsLex(AsItems(ws)) == WordsLex(ws)
    decreases |ws|
  {
    if ws != [] {
      ItemsOfWords(ws[1..]);
      assert AsItems(ws)[1..] == AsItems(ws[1..]);
    }
  }

  /** A sentence without symbols is nothing but words. */
  lemma {:induction false} OnlyItems(items: seq<Item>)
    requires forall k :: 0 <= k < |ItemsLex(items)| ==> ItemsLex(items)[k].kind == 'a'
    ensures |ArgsOf(items)| == |ItemsLex(items)|
    decreases |items|
  {
    if items != [] {
      var ls, rest := ItemsLex(items), ItemsLex(items[1..]);
      assert ls == ItemLex(items[0]) + rest;
      assert ls[0] == ItemLex(items[0])[0];
      forall k | 0 <= k < |rest| ensures rest[k].kind == 'a' { assert rest[k] == ls[|ItemLex(items[0])| + k]; }
      OnlyItems(items[1..]);
    }
  }

  lemma OnlyWords(l: Line, ls: seq<Lexeme>)
    requires LegalLine(l) && ls == LineLex(l) && forall k :: 0 <= k < |ls| ==> ls[k].kind == 'a'
    ensures |ls| < MAXARGS
  {
    var x, rest := SimpleLex(l.pipe.first), PipeRest(l.pipe, Ands(l.ands) + LineRest(l, []));
    LineParts(l, []);
    PipeParts(l.pipe, Ands(l.ands) + LineRest(l, []));
    assert LineLex(l) + [] == LineLex(l);
    assert ls == x + rest;
    forall k | 0 <= k < |x| ensures x[k].kind == 'a' { assert ls[k] == x[k]; }
    RestIsSymbol(l);
    NoRest(ls, x, rest);
    if l.pipe.first.Block? { BlockStarts(l.pipe.first); }
    assert x == ItemsLex(l.pipe.first.items);
    OnlyItems(l.pipe.first.items);
    assert LegalPipe(l.pipe) && LegalSimple(Plain(l.pipe.first.items));
  }

  lemma NoRest(ls: seq<Lexeme>, x: seq<Lexeme>, rest: seq<Lexeme>)
    requires ls == x + rest && (forall k :: 0 <= k < |ls| ==> ls[k].kind == 'a')
    requires rest != [] ==> rest[0].kind != 'a'
    ensures rest == []
  {
    if rest != [] { KindAt(ls, x, rest, 0); }
  }

  lemma KindAt(ls: seq<Lexeme>, x: seq<Lexeme>, rest: seq<Lexeme>, k: nat)
    requires ls == x + rest && (forall k :: 0 <= k < |ls| ==> ls[k].kind == 'a') && k < |rest|
    ensures rest[k].kind == 'a'
  {
    assert rest[k] == ls[|x| + k];
  }

  lemma BlockStarts(x: Simple)
    requires x.Block?
    ensures SimpleLex(x) != [] && SimpleLex(x)[0].kind != 'a'
  {
  }

  /** What follows the first command of a line starts with a symbol. */
  lemma RestIsSymbol(l: Line)
    ensures var rest := PipeRest(l.pipe, Ands(l.ands) + LineRest(l, [])); rest != [] ==> rest[0].kind != 'a'
  {
  }

  lemma WordsLine(ws: seq<string>) returns (l: Line)
    requires (forall k :: 0 <= k < |ws| ==> LegalWord(ws[k])) && |ws| < MAXARGS
    ensures LegalLine(l) && LineLex(l) == WordsLex(ws)
  {
    l := Line(PipeLine(Plain(AsItems(ws)), None), 0, None);
    ItemsOfWords(ws);
    WordsOnly(ws);
    PipeParts(l.pipe, []);
    LineParts(l, []);
    assert Ands(0) + [] == [] && PipeLex(l.pipe) + [] == PipeLex(l.pipe) && LineLex(l) + [] == LineLex(l);
  }

  /** A line of words, however spelled, is parsed if and only if there are at most nine of them. */
  lemma WordLimit(ws: seq<string>, ps: seq<Piece>, end: string)
    requires (forall k :: 0 <= k < |ws| ==> LegalWord(ws[k])) && Spells(ps, end, WordsLex(ws))
    ensures ParseCmd(Write(ps, end)).Ok? <==> |ws| <= 9
  {
    var s := Write(ps, end);
    NoNuls(ps, end, WordsLex(ws));
    LexWritten(ps, end, WordsLex(ws));
    WordsAre(ws);
    if |ws| <= 9 {
      var l := WordsLine(ws);
      Sentence(s, l);
    }
    if ParseCmd(s).Ok? {
      var l := FromCmd(s);
      OnlyWords(l, WordsLex(ws));
    }
  }

  // ---- NUL termination ---------------------------------------------------------------------

  /** The tokens of a command. */
  function Toks(c: Cmd): set<Tok> {
    match c
    case Exec(argv) => set t <- argv
    case Redir(d, f, _) => Toks(d) + {f}
    case Pipe(l, r) => Toks(l) + Toks(r)
    case List(l, r) => Toks(l) + Toks(r)
    case Back(d) => Toks(d)
  }

  lemma {:induction false} ToksAreWords(s: string, c: Cmd, t: Tok)
    requires Words(s, c) && t in Toks(c)
    ensures WordTok(s, t)
  {
    match c
    case Exec(argv) =>
    case Redir(d, f, _) => if t != f { ToksAreWords(s, d, t); }
    case Pipe(l, r) => if t in Toks(l) { ToksAreWords(s, l, t); } else { ToksAreWords(s, r, t); }
    case List(l, r) => if t in Toks(l) { ToksAreWords(s, l, t); } else { ToksAreWords(s, r, t); }
    case Back(d) => ToksAreWords(s, d, t);
  }

  /** b with a NUL behind each token of ts. */
  function Cut(b: seq<char>, ts: set<Tok>): (r: seq<char>)
    ensures |r| == |b|
  {
    seq(|b|, k requires 0 <= k < |b| => if exists t <- ts :: t.eq == k then NUL else b[k])
  }

  predicate Fits(n: nat, c: Cmd) {
    forall t <- Toks(c) :: t.eq < n
  }

  lemma CutTwice(b: seq<char>, ts: set<Tok>, us: set<Tok>)
    ensures Cut(Cut(b, ts), us) == Cut(b, ts + us)
  {
    forall k | 0 <= k < |b| ensures Cut(Cut(b, ts), us)[k] == Cut(b, ts + us)[k] {
      if t :| t in ts && t.eq == k { assert t in ts + us; }
      else if t :| t in us && t.eq == k { assert t in ts + us; }
    }
  }

  lemma CutOne(b: seq<char>, t: Tok)
    requires t.eq < |b|
    ensures Cut(b, {t}) == b[t.eq := NUL]
  {
    assert t in {t};
  }

  /** nulterminate as coded: it writes into the line's buffer, and nowhere else in it. */
  method NulTerminate(buf: array<char>, c: Cmd)
    requires Fits(buf.Length, c)
    modifies buf
    ensures buf[..] == Cut(old(buf[..]), Toks(c))
    decreases c
  {
    ghost var b := buf[..];
    match c
    case Exec(argv) =>
      TerminateArgs(buf, argv);
    case Redir(d, f, _) =>
      NulTerminate(buf, d);
      CutTwice(b, Toks(d), {f});
      CutOne(buf[..], f);
      buf[f.eq] := NUL;
    case Pipe(l, r) =>
      NulTerminate(buf, l);
      NulTerminate(buf, r);
      CutTwice(b, Toks(l), Toks(r));
    case List(l, r) =>
      NulTerminate(buf, l);
      NulTerminate(buf, r);
      CutTwice(b, Toks(l), Toks(r));
    case Back(d) =>
      NulTerminate(buf, d);
  }

  method TerminateArgs(buf: array<char>, argv: seq<Tok>)
    requires Fits(buf.Length, Exec(argv))
    modifies buf
    ensures buf[..] == Cut(old(buf[..]), Toks(Exec(argv)))
  {
    ghost var b := buf[..];
    assert argv[..0] == [] && Cut(b, Toks(Exec([]))) == b;
    for i := 0 to |argv|
      invariant buf[..] == Cut(b, Toks(Exec(argv[..i])))
    {
      assert argv[i] in Toks(Exec(argv));
      CutOne(buf[..], argv[i]);
      CutTwice(b, Toks(Exec(argv[..i])), {argv[i]});
      assert Toks(Exec(argv[..i + 1])) == Toks(Exec(argv[..i])) + {argv[i]};
      buf[argv[i].eq] := NUL;
    }
    assert argv[..|argv|] == argv;
  }

  /** The C string at b[i]. */
  function CString(b: seq<char>, i: nat): string
    requires i < |b| && b[|b| - 1] == NUL
    decreases |b| - i
  {
    if b[i] == NUL then "" else [b[i]] + CString(b, i + 1)
  }

  lemma {:induction false} CStringUpTo(b: seq<char>, i: nat, e: nat)
    requires i <= e < |b| && b[|b| - 1] == NUL && b[e] == NUL && forall k :: i <= k < e ==> b[k] != NUL
    ensures CString(b, i) == b[i..e]
    decreases e - i
  {
    if i < e { CStringUpTo(b, i + 1, e); }
  }

  /** In the terminated line of any parsed command every token reads back as itself: no other token's
      terminator falls inside it. */
  lemma ReadsBack(s: string, c: Cmd, t: Tok)
    requires NUL !in s && Words(s, c) && t in Toks(c)
    ensures var b := Cut(s + [NUL], Toks(c)); b[|b| - 1] == NUL && WordTok(s, t) && CString(b, t.q) == Spell(s, t)
  {
    var b := Cut(s + [NUL], Toks(c));
    ToksAreWords(s, c, t);
    forall k | t.q <= k < t.eq ensures b[k] == s[k] {
      forall u <- Toks(c) ensures u.eq != k { ToksAreWords(s, c, u); }
    }
    CStringUpTo(b, t.q, t.eq);
    assert b[t.q..t.eq] == s[t.q..t.eq];
  }

  /** parsecmd: on success the command covers the whole line and each of its words is a C string in
      the buffer; after an error or with the arena used up the buffer is as it was. */
  method ParseCommand(buf: array<char>, ghost s: string) returns (o: Outcome)
    requires NUL !in s && buf[..] == s + [NUL]
    modifies buf
    ensures o == ParsedCmd(s)
    ensures o.Exhausted? || o.p.Err? ==> buf[..] == s + [NUL]
    ensures o.Done? && o.p.Ok? ==> buf[..] == Cut(s + [NUL], Toks(o.p.cmd))
    ensures o.Done? && o.p.Ok? ==> forall t <- Toks(o.p.cmd) :: TokenReads(buf[..], s, t)
  {
    var n := buf.Length - 1;
    var line := buf[..n];
    assert line == s;
    o := LineLoop(line, 0, 0);
    if o.Exhausted? || o.p.Err? { return; }
    var end := SkipLoop(line, o.p.pos);
    if end != n { return Done(Err(Syntax, Size(o.p.cmd)), o.used); }
    o := Done(o.p.(pos := n), o.used);
    var cmd := o.p.cmd;
    CmdWords(s);
    forall t <- Toks(cmd) ensures t.eq < buf.Length { ToksAreWords(s, cmd, t); }
    NulTerminate(buf, cmd);
    forall t <- Toks(cmd) ensures TokenReads(buf[..], s, t) { ReadsBack(s, cmd, t); }
  }

  /** Token t of line s is the C string at its place in buffer b. */
  predicate TokenReads(b: seq<char>, s: string, t: Tok) {
    b != [] && b[|b| - 1] == NUL && t.q < |b| && WordTok(s, t) && CString(b, t.q) == Spell(s, t)
  }
}
