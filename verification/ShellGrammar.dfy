/** The language of the shell's parser: a grammar over lexemes, what its sentences mean, and that the
    recursive descent accepts exactly these and gives their meaning. */
module ShellGrammar {
  import opened Common
  import opened Shell
  import opened ShellLex

  /** A command with its words spelled out. */
  datatype Tree =
    | TExec(args: seq<string>)
    | TRedir(cmd: Tree, file: string, out: bool)
    | TPipe(left: Tree, right: Tree)
    | TList(left: Tree, right: Tree)
    | TBack(cmd: Tree)

  function Spell(s: string, t: Tok): string {
    if t.q <= t.eq <= |s| then s[t.q..t.eq] else ""
  }

  function Spelled(s: string, ts: seq<Tok>): (r: seq<string>)
    ensures |r| == |ts| && forall i :: 0 <= i < |ts| ==> r[i] == Spell(s, ts[i])
  {
    if ts == [] then [] else Spelled(s, ts[..|ts| - 1]) + [Spell(s, ts[|ts| - 1])]
  }

  /** The tree a parsed command of line s stands for. */
  function Text(s: string, c: Cmd): Tree
  {
    match c
    case Exec(argv) => TExec(Spelled(s, argv))
    case Redir(d, f, out) => TRedir(Text(s, d), Spell(s, f), out)
    case Pipe(l, r) => TPipe(Text(s, l), Text(s, r))
    case List(l, r) => TList(Text(s, l), Text(s, r))
    case Back(d) => TBack(Text(s, d))
  }

  // ---- the grammar -------------------------------------------------------------------------

  datatype Redirect = Redirect(file: string, out: bool)

  datatype Item = Arg(word: string) | To(redirect: Redirect)

  /** Words and redirections in any order, or a line in parentheses with redirections behind it. */
  datatype Simple = Plain(items: seq<Item>) | Block(body: Line, redirects: seq<Redirect>)

  datatype PipeLine = PipeLine(first: Simple, rest: Option<PipeLine>)

  /** A pipeline, any number of `&`, and perhaps `;` and another line. */
  datatype Line = Line(pipe: PipeLine, ands: nat, rest: Option<Line>)

  function ArgsOf(items: seq<Item>): seq<string> {
    if items == [] then []
    else if items[0].Arg? then [items[0].word] + ArgsOf(items[1..]) else ArgsOf(items[1..])
  }

  function RedirectsOf(items: seq<Item>): seq<Redirect> {
    if items == [] then []
    else if items[0].To? then [items[0].redirect] + RedirectsOf(items[1..]) else RedirectsOf(items[1..])
  }

  predicate LegalItem(x: Item) {
    LegalWord(if x.Arg? then x.word else x.redirect.file)
  }

  predicate LegalRedirects(rs: seq<Redirect>) {
    forall k :: 0 <= k < |rs| ==> LegalWord(rs[k].file)
  }

  predicate LegalSimple(x: Simple) {
    match x
    case Plain(items) => |ArgsOf(items)| < MAXARGS && forall k :: 0 <= k < |items| ==> LegalItem(items[k])
    case Block(body, rs) => LegalLine(body) && LegalRedirects(rs)
  }

  predicate LegalPipe(p: PipeLine) {
    LegalSimple(p.first) && (p.rest.Some? ==> LegalPipe(p.rest.value))
  }

  predicate LegalLine(l: Line) {
    LegalPipe(l.pipe) && (l.rest.Some? ==> LegalLine(l.rest.value))
  }

  // ---- its sentences -----------------------------------------------------------------------

  function RedirectLex(r: Redirect): seq<Lexeme> {
    [Symbol(if r.out then '>' else '<'), Lexeme('a', r.file)]
  }

  function RedirectsLex(rs: seq<Redirect>): seq<Lexeme> {
    if rs == [] then [] else RedirectLex(rs[0]) + RedirectsLex(rs[1..])
  }

  function ItemLex(x: Item): seq<Lexeme> {
    if x.Arg? then [Lexeme('a', x.word)] else RedirectLex(x.redirect)
  }

  function ItemsLex(items: seq<Item>): seq<Lexeme> {
    if items == [] then [] else ItemLex(items[0]) + ItemsLex(items[1..])
  }

  function SimpleLex(x: Simple): seq<Lexeme> {
    match x
    case Plain(items) => ItemsLex(items)
    case Block(body, rs) => [Symbol('(')] + (LineLex(body) + ([Symbol(')')] + RedirectsLex(rs)))
  }

  function PipeLex(p: PipeLine): seq<Lexeme> {
    SimpleLex(p.first) + if p.rest.Some? then [Symbol('|')] + PipeLex(p.rest.value) else []
  }

  function Ands(n: nat): seq<Lexeme> {
    if n == 0 then [] else [Symbol('&')] + Ands(n - 1)
  }

  function LineLex(l: Line): seq<Lexeme> {
    PipeLex(l.pipe) + (Ands(l.ands) + if l.rest.Some? then [Symbol(';')] + LineLex(l.rest.value) else [])
  }

  // ---- their meaning -----------------------------------------------------------------------

  /** Redirections wrap the command, the first one innermost. */
  function Wrapped(t: Tree, rs: seq<Redirect>): Tree
    decreases |rs|
  {
    if rs == [] then t else Wrapped(TRedir(t, rs[0].file, rs[0].out), rs[1..])
  }

  function Backed(t: Tree, n: nat): Tree
    decreases n
  {
    if n == 0 then t else Backed(TBack(t), n - 1)
  }

  function SimpleTree(x: Simple): Tree {
    match x
    case Plain(items) => Wrapped(TExec(ArgsOf(items)), RedirectsOf(items))
    case Block(body, rs) => Wrapped(LineTree(body), rs)
  }

  function PipeTree(p: PipeLine): Tree {
    var t := SimpleTree(p.first);
    if p.rest.Some? then TPipe(t, PipeTree(p.rest.value)) else t
  }

  function LineTree(l: Line): Tree {
    var t := Backed(PipeTree(l.pipe), l.ands);
    if l.rest.Some? then TList(t, LineTree(l.rest.value)) else t
  }

  // ---- every sentence is read --------------------------------------------------------------

  /** What follows is none of the lexemes that the parser would go on with. */
  predicate Stops(rest: seq<Lexeme>, toks: string) {
    rest == [] || rest[0].kind in toks
  }

  function FilesOf(s: string, rs: seq<Rd>): (r: seq<Redirect>)
    ensures |r| == |rs|
  {
    if rs == [] then [] else FilesOf(s, rs[..|rs| - 1]) + [FileOf(s, rs[|rs| - 1])]
  }

  function FileOf(s: string, r: Rd): Redirect {
    Redirect(Spell(s, r.file), r.out)
  }

  lemma MoreFiles(s: string, rs: seq<Rd>, r: Rd)
    ensures FilesOf(s, rs + [r]) == FilesOf(s, rs) + [FileOf(s, r)]
  {
    assert (rs + [r])[..|rs|] == rs;
  }

  lemma MoreSpelled(s: string, ts: seq<Tok>, t: Tok)
    ensures Spelled(s, ts + [t]) == Spelled(s, ts) + [Spell(s, t)]
  {
    assert (ts + [t])[..|ts|] == ts;
  }

  lemma {:induction false} WrappedLast(t: Tree, rs: seq<Redirect>, r: Redirect)
    ensures Wrapped(t, rs + [r]) == TRedir(Wrapped(t, rs), r.file, r.out)
    decreases |rs|
  {
    if rs != [] {
      assert (rs + [r])[1..] == rs[1..] + [r];
      WrappedLast(TRedir(t, rs[0].file, rs[0].out), rs[1..], r);
    }
  }

  lemma {:induction false} WrapText(s: string, c: Cmd, rs: seq<Rd>)
    ensures Text(s, Wrap(c, rs)) == Wrapped(Text(s, c), FilesOf(s, rs))
    decreases |rs|
  {
    if rs != [] {
      var rs0, r := rs[..|rs| - 1], rs[|rs| - 1];
      WrapText(s, c, rs0);
      WrappedLast(Text(s, c), FilesOf(s, rs0), FileOf(s, r));
    }
  }

  /** The next lexeme is a word. */
  lemma WordNext(s: string, i: nat, w: string, rest: seq<Lexeme>) returns (t: Token)
    requires i <= |s| && Lex(s, i) == [Lexeme('a', w)] + rest
    ensures t == GetToken(s, i) && t.kind == 'a' && Spell(s, Tok(t.q, t.eq)) == w && Lex(s, t.next) == rest
  {
    t := GetToken(s, i);
    Next(s, i);
    assert t.kind == 'a' || !IsSymbol('a');
  }

  /** The next lexeme is a symbol. */
  lemma SymbolNext(s: string, i: nat, c: char, rest: seq<Lexeme>) returns (t: Token)
    requires i <= |s| && Lex(s, i) == [Symbol(c)] + rest && IsSymbol(c)
    ensures t == GetToken(s, i) && Lex(s, t.next) == rest && t.kind != NUL && (t.kind == '<' <==> c == '<')
  {
    t := GetToken(s, i);
    Next(s, i);
  }

  lemma RedirectStep(s: string, i: nat, rs: seq<Rd>, r: Redirect, rest: seq<Lexeme>) returns (x: Rd, j: nat)
    requires i <= |s| && Lex(s, i) == RedirectLex(r) + rest
    ensures j <= |s| && Lex(s, j) == rest && ParseRedirs(s, rs, i) == ParseRedirs(s, rs + [x], j)
    ensures FilesOf(s, rs + [x]) == FilesOf(s, rs) + [r]
  {
    var c := if r.out then '>' else '<';
    assert RedirectLex(r) + rest == [Symbol(c)] + ([Lexeme('a', r.file)] + rest);
    Peeks(s, i, "<>");
    var t := SymbolNext(s, i, c, [Lexeme('a', r.file)] + rest);
    var f := WordNext(s, t.next, r.file, rest);
    x, j := Rd(Tok(f.q, f.eq), t.kind != '<'), f.next;
    MoreFiles(s, rs, x);
  }

  lemma ArgStep(s: string, i: nat, args: seq<Tok>, rs: seq<Rd>, w: string, rest: seq<Lexeme>)
    returns (x: Tok, j: nat)
    requires i <= |s| && Lex(s, i) == [Lexeme('a', w)] + rest && |args| + 1 < MAXARGS
    ensures j <= |s| && Lex(s, j) == rest && ExecTail(s, args, rs, i) == ExecTail(s, args + [x], rs, j)
    ensures Spelled(s, args + [x]) == Spelled(s, args) + [w]
  {
    Peeks(s, i, "<>");
    Skipped(s, i);
    var k := SkipSpace(s, i);
    Peeks(s, k, "|)&;");
    var t := WordNext(s, k, w, rest);
    x, j := Tok(t.q, t.eq), t.next;
    MoreSpelled(s, args, x);
  }

  /** Nothing more for parseexec. */
  lemma TailEnds(s: string, i: nat, args: seq<Tok>, rs: seq<Rd>) returns (j: nat)
    requires i <= |s| && Stops(Lex(s, i), "|)&;")
    ensures j <= |s| && Lex(s, j) == Lex(s, i) && ExecTail(s, args, rs, i) == Ok(Wrap(Exec(args), rs), j)
  {
    Peeks(s, i, "<>");
    Skipped(s, i);
    var k := SkipSpace(s, i);
    Peeks(s, k, "|)&;");
    Skipped(s, k);
    Lexed(s, k);
    j := if Peek(s, k, "|)&;") then SkipSpace(s, k) else GetToken(s, k).next;
    Lexed(s, j);
    if !Peek(s, k, "|)&;") {
      Skipped(s, GetToken(s, k).eq);
    }
  }

  lemma {:induction false} ReadItems(s: string, i: nat, args: seq<Tok>, rs: seq<Rd>, items: seq<Item>,
                                     rest: seq<Lexeme>) returns (c: Cmd, j: nat)
    requires i <= |s| && Lex(s, i) == ItemsLex(items) + rest && Stops(rest, "|)&;")
    requires |args| + |ArgsOf(items)| < MAXARGS
    ensures j <= |s| && Lex(s, j) == rest && ExecTail(s, args, rs, i) == Ok(c, j)
    ensures Text(s, c)
      == Wrapped(TExec(Spelled(s, args) + ArgsOf(items)), FilesOf(s, rs) + RedirectsOf(items))
    decreases |items|
  {
    if items == [] {
      j := TailEnds(s, i, args, rs);
      c := Wrap(Exec(args), rs);
      WrapText(s, Exec(args), rs);
      assert Spelled(s, args) + ArgsOf(items) == Spelled(s, args);
      assert FilesOf(s, rs) + RedirectsOf(items) == FilesOf(s, rs);
    } else {
      var x, more := items[0], ItemsLex(items[1..]) + rest;
      ItemsNext(items, rest);
      if x.Arg? {
        var t, k := ArgStep(s, i, args, rs, x.word, more);
        c, j := ReadItems(s, k, args + [t], rs, items[1..], rest);
        Regroup(Spelled(s, args), [x.word], ArgsOf(items[1..]));
      } else {
        var r, k := RedirectStep(s, i, rs, x.redirect, more);
        c, j := ReadItems(s, k, args, rs + [r], items[1..], rest);
        Regroup(FilesOf(s, rs), [x.redirect], RedirectsOf(items[1..]));
      }
    }
  }

  lemma ItemsNext(items: seq<Item>, rest: seq<Lexeme>)
    requires items != []
    ensures ItemsLex(items) + rest == ItemLex(items[0]) + (ItemsLex(items[1..]) + rest)
  {
    Regroup(ItemLex(items[0]), ItemsLex(items[1..]), rest);
  }

  lemma Regroup<T>(a: seq<T>, b: seq<T>, c: seq<T>)
    ensures (a + b) + c == a + (b + c)
  {
  }

  lemma HeadMoved<T>(a: seq<T>, b: seq<T>)
    requires b != []
    ensures (a + [b[0]]) + b[1..] == a + b
  {
  }

  lemma RedirectsEnd(s: string, i: nat, rs: seq<Rd>) returns (j: nat)
    requires i <= |s| && Stops(Lex(s, i), "|)&;")
    ensures j <= |s| && Lex(s, j) == Lex(s, i) && ParseRedirs(s, rs, i) == ROk(rs, j)
  {
    Peeks(s, i, "<>");
    Skipped(s, i);
    j := SkipSpace(s, i);
  }

  lemma {:induction false} ReadRedirects(s: string, i: nat, rs: seq<Rd>, all: seq<Redirect>, rest: seq<Lexeme>)
    returns (xs: seq<Rd>, j: nat)
    requires i <= |s| && Lex(s, i) == RedirectsLex(all) + rest && Stops(rest, "|)&;")
    ensures j <= |s| && Lex(s, j) == rest && ParseRedirs(s, rs, i) == ROk(xs, j)
    ensures FilesOf(s, xs) == FilesOf(s, rs) + all
    decreases |all|
  {
    if all == [] {
      assert RedirectsLex(all) + rest == rest && FilesOf(s, rs) + all == FilesOf(s, rs);
      j := RedirectsEnd(s, i, rs);
      xs := rs;
    } else {
      var more := RedirectsLex(all[1..]) + rest;
      Regroup(RedirectLex(all[0]), RedirectsLex(all[1..]), rest);
      var r, k := RedirectStep(s, i, rs, all[0], more);
      xs, j := ReadRedirects(s, k, rs + [r], all[1..], rest);
      HeadMoved(FilesOf(s, rs), all);
    }
  }

  lemma {:induction false} ReadSimple(s: string, i: nat, x: Simple, rest: seq<Lexeme>) returns (c: Cmd, j: nat)
    requires i <= |s| && LegalSimple(x) && Lex(s, i) == SimpleLex(x) + rest && Stops(rest, "|)&;")
    ensures j <= |s| && Lex(s, j) == rest && ParseExec(s, i) == Ok(c, j) && Text(s, c) == SimpleTree(x)
    decreases x
  {
    Peeks(s, i, "(");
    match x
    case Plain(items) =>
      NotParen(items, rest);
      c, j := ReadItems(s, i, [], [], items, rest);
      assert Spelled(s, []) + ArgsOf(items) == ArgsOf(items);
      assert FilesOf(s, []) + RedirectsOf(items) == RedirectsOf(items);
    case Block(body, rs) =>
      var behind := RedirectsLex(rs) + rest;
      var inner := LineLex(body) + ([Symbol(')')] + behind);
      BlockSplit(body, rs, rest);
      var t := SymbolNext(s, i, '(', inner);
      var d, k := ReadLine(s, t.next, body, [Symbol(')')] + behind);
      Peeks(s, k, ")");
      var u := SymbolNext(s, k, ')', behind);
      var xs;
      xs, j := ReadRedirects(s, u.next, [], rs, rest);
      c := Wrap(d, xs);
      WrapText(s, d, xs);
      assert FilesOf(s, []) + rs == rs;
  }

  lemma BlockSplit(body: Line, rs: seq<Redirect>, rest: seq<Lexeme>)
    ensures SimpleLex(Block(body, rs)) + rest
      == [Symbol('(')] + (LineLex(body) + ([Symbol(')')] + (RedirectsLex(rs) + rest)))
  {
  }

  lemma NotParen(items: seq<Item>, rest: seq<Lexeme>)
    requires Stops(rest, "|)&;")
    ensures ItemsLex(items) + rest != [] ==> (ItemsLex(items) + rest)[0].kind != '('
  {
    if items != [] {
      assert (ItemsLex(items) + rest)[0] == ItemLex(items[0])[0];
    } else {
      assert ItemsLex(items) + rest == rest;
    }
  }

  lemma {:induction false} ReadPipe(s: string, i: nat, p: PipeLine, rest: seq<Lexeme>) returns (c: Cmd, j: nat)
    requires i <= |s| && LegalPipe(p) && Lex(s, i) == PipeLex(p) + rest && Stops(rest, ")&;")
    ensures j <= |s| && Lex(s, j) == rest && ParsePipe(s, i) == Ok(c, j) && Text(s, c) == PipeTree(p)
    decreases p
  {
    PipeParts(p, rest);
    c, j := ReadSimple(s, i, p.first, PipeRest(p, rest));
    if p.rest.Some? {
      var k := PipeMore(s, i, c, j, PipeLex(p.rest.value) + rest);
      var r;
      r, j := ReadPipe(s, k, p.rest.value, rest);
      Piped(s, i, c, r, k, j, p);
      c := Pipe(c, r);
    } else {
      j := PipeAlone(s, i, c, j);
    }
  }

  lemma Piped(s: string, i: nat, c: Cmd, r: Cmd, k: nat, j: nat, p: PipeLine)
    requires i <= |s| && k <= |s| && ParsePipe(s, k) == Ok(r, j) && p.rest.Some?
    requires ParsePipe(s, i) == Join(c, ParsePipe(s, k), true)
    requires Text(s, c) == SimpleTree(p.first) && Text(s, r) == PipeTree(p.rest.value)
    ensures ParsePipe(s, i) == Ok(Pipe(c, r), j) && Text(s, Pipe(c, r)) == PipeTree(p)
  {
  }

  function PipeRest(p: PipeLine, rest: seq<Lexeme>): seq<Lexeme> {
    if p.rest.Some? then [Symbol('|')] + (PipeLex(p.rest.value) + rest) else rest
  }

  lemma PipeParts(p: PipeLine, rest: seq<Lexeme>)
    ensures PipeLex(p) + rest == SimpleLex(p.first) + PipeRest(p, rest)
  {
  }

  lemma PipeMore(s: string, i: nat, c: Cmd, k: nat, more: seq<Lexeme>) returns (j: nat)
    requires i <= k <= |s| && ParseExec(s, i) == Ok(c, k) && Lex(s, k) == [Symbol('|')] + more
    ensures i <= j <= |s| && Lex(s, j) == more && ParsePipe(s, i) == Join(c, ParsePipe(s, j), true)
  {
    Peeks(s, k, "|");
    var t := SymbolNext(s, k, '|', more);
    j := t.next;
  }

  lemma PipeAlone(s: string, i: nat, c: Cmd, k: nat) returns (j: nat)
    requires i <= k <= |s| && ParseExec(s, i) == Ok(c, k) && Stops(Lex(s, k), ")&;")
    ensures i <= j <= |s| && Lex(s, j) == Lex(s, k) && ParsePipe(s, i) == Ok(c, j)
  {
    Peeks(s, k, "|");
    Skipped(s, k);
    j := SkipSpace(s, k);
  }

  lemma {:induction false} ReadAnds(s: string, i: nat, c: Cmd, n: nat, rest: seq<Lexeme>) returns (d: Cmd, j: nat)
    requires i <= |s| && Lex(s, i) == Ands(n) + rest && Stops(rest, ");")
    ensures j <= |s| && Lex(s, j) == rest && Backs(s, c, i) == Ok(d, j) && Text(s, d) == Backed(Text(s, c), n)
    decreases n
  {
    if n == 0 {
      NoAnds(rest);
      j := AndsEnd(s, i, c);
      d := c;
    } else {
      var m := n - 1;
      AndsNext(n, m, rest);
      var k := AndStep(s, i, c, Ands(m) + rest);
      d, j := ReadAnds(s, k, Back(c), m, rest);
      BackedNext(Text(s, c), n, m);
    }
  }

  lemma NoAnds(rest: seq<Lexeme>)
    ensures Ands(0) + rest == rest
  {
  }

  lemma AndsNext(n: nat, m: nat, rest: seq<Lexeme>)
    requires n == m + 1
    ensures Ands(n) + rest == [Symbol('&')] + (Ands(m) + rest)
  {
    Regroup([Symbol('&')], Ands(m), rest);
  }

  lemma BackedNext(t: Tree, n: nat, m: nat)
    requires n == m + 1
    ensures Backed(t, n) == Backed(TBack(t), m)
  {
  }

  lemma AndStep(s: string, i: nat, c: Cmd, more: seq<Lexeme>) returns (j: nat)
    requires i <= |s| && Lex(s, i) == [Symbol('&')] + more
    ensures i <= j <= |s| && Lex(s, j) == more && Backs(s, c, i) == Backs(s, Back(c), j)
  {
    Peeks(s, i, "&");
    var t := SymbolNext(s, i, '&', more);
    j := t.next;
  }

  lemma AndsEnd(s: string, i: nat, c: Cmd) returns (j: nat)
    requires i <= |s| && Stops(Lex(s, i), ");")
    ensures i <= j <= |s| && Lex(s, j) == Lex(s, i) && Backs(s, c, i) == Ok(c, j)
  {
    Peeks(s, i, "&");
    Skipped(s, i);
    j := SkipSpace(s, i);
  }

  lemma {:induction false} ReadLine(s: string, i: nat, l: Line, rest: seq<Lexeme>) returns (c: Cmd, j: nat)
    requires i <= |s| && LegalLine(l) && Lex(s, i) == LineLex(l) + rest && Stops(rest, ")")
    ensures j <= |s| && Lex(s, j) == rest && ParseLine(s, i) == Ok(c, j) && Text(s, c) == LineTree(l)
    decreases l, 1
  {
    LineParts(l, rest);
    var d, k := ReadBacked(s, i, l, rest);
    if l.rest.Some? {
      var more := LineMore(s, i, d, k, LineLex(l.rest.value) + rest);
      var r;
      r, j := ReadLine(s, more, l.rest.value, rest);
      c := List(d, r);
      Listed(s, i, d, r, more, j, l);
    } else {
      j := LineAlone(s, i, d, k);
      c := d;
    }
  }

  lemma Listed(s: string, i: nat, d: Cmd, r: Cmd, more: nat, j: nat, l: Line)
    requires i <= |s| && more <= |s| && ParseLine(s, more) == Ok(r, j) && l.rest.Some?
    requires ParseLine(s, i) == Join(d, ParseLine(s, more), false)
    requires Text(s, d) == Backed(PipeTree(l.pipe), l.ands) && Text(s, r) == LineTree(l.rest.value)
    ensures ParseLine(s, i) == Ok(List(d, r), j) && Text(s, List(d, r)) == LineTree(l)
  {
  }

  /** parseline has read a pipeline and the `&` behind it, up to k. */
  ghost predicate BackedTo(s: string, i: nat, d: Cmd, k: nat) {
    && i <= k <= |s| && ParsePipe(s, i).Ok?
    && Backs(s, ParsePipe(s, i).cmd, ParsePipe(s, i).pos) == Ok(d, k)
  }

  lemma ReadBacked(s: string, i: nat, l: Line, rest: seq<Lexeme>) returns (d: Cmd, k: nat)
    requires i <= |s| && LegalLine(l) && Stops(rest, ")")
    requires Lex(s, i) == PipeLex(l.pipe) + (Ands(l.ands) + LineRest(l, rest))
    ensures BackedTo(s, i, d, k) && Lex(s, k) == LineRest(l, rest) && Text(s, d) == Backed(PipeTree(l.pipe), l.ands)
    decreases l, 0
  {
    var more := LineRest(l, rest);
    AndsStop(l.ands, more);
    var p, h := ReadPipe(s, i, l.pipe, Ands(l.ands) + more);
    d, k := ReadAnds(s, h, p, l.ands, more);
  }

  function LineRest(l: Line, rest: seq<Lexeme>): seq<Lexeme> {
    if l.rest.Some? then [Symbol(';')] + (LineLex(l.rest.value) + rest) else rest
  }

  lemma LineParts(l: Line, rest: seq<Lexeme>)
    ensures LineLex(l) + rest == PipeLex(l.pipe) + (Ands(l.ands) + LineRest(l, rest))
  {
  }

  lemma LineMore(s: string, i: nat, d: Cmd, k: nat, more: seq<Lexeme>) returns (j: nat)
    requires BackedTo(s, i, d, k) && Lex(s, k) == [Symbol(';')] + more
    ensures i <= j <= |s| && Lex(s, j) == more && ParseLine(s, i) == Join(d, ParseLine(s, j), false)
  {
    Peeks(s, k, ";");
    var t := SymbolNext(s, k, ';', more);
    j := t.next;
  }

  lemma LineAlone(s: string, i: nat, d: Cmd, k: nat) returns (j: nat)
    requires BackedTo(s, i, d, k) && Stops(Lex(s, k), ")")
    ensures i <= j <= |s| && Lex(s, j) == Lex(s, k) && ParseLine(s, i) == Ok(d, j)
  {
    Peeks(s, k, ";");
    Skipped(s, k);
    j := SkipSpace(s, k);
  }

  lemma AndsStop(n: nat, rest: seq<Lexeme>)
    requires Stops(rest, ");")
    ensures Stops(Ands(n) + rest, ")&;")
  {
    if n == 0 { assert Ands(n) + rest == rest; }
  }

  /** The grammar's sentences are parsed, to what they mean. */
  lemma Sentence(s: string, l: Line)
    requires NUL !in s && LegalLine(l) && Lex(s, 0) == LineLex(l)
    ensures ParseCmd(s).Ok? && Text(s, ParseCmd(s).cmd) == LineTree(l)
  {
    assert LineLex(l) + [] == LineLex(l);
    var c, j := ReadLine(s, 0, l, []);
    NoneLeft(s, j);
  }

  lemma NoneLeft(s: string, j: nat)
    requires NUL !in s && j <= |s|
    ensures Lex(s, j) == [] <==> SkipSpace(s, j) == |s|
  {
    Lexed(s, j);
    assert forall k :: 0 <= k < |s| ==> s[k] in s && s[k] != NUL;
  }

  // ---- nothing else is accepted ------------------------------------------------------------

  lemma {:induction false} FromRedirects(s: string, i: nat, rs: seq<Rd>) returns (all: seq<Redirect>)
    requires NUL !in s && i <= |s| && ParseRedirs(s, rs, i).ROk?
    ensures Lex(s, i) == RedirectsLex(all) + Lex(s, ParseRedirs(s, rs, i).pos) && LegalRedirects(all)
    decreases |s| - i
  {
    Peeks(s, i, "<>");
    Skipped(s, i);
    if Peek(s, i, "<>") {
      var r, x, j := FirstRedirect(s, i, rs);
      var more := FromRedirects(s, j, rs + [x]);
      all := [r] + more;
      Regroup(RedirectLex(r), RedirectsLex(more), Lex(s, ParseRedirs(s, rs, i).pos));
    } else {
      all := [];
      assert RedirectsLex([]) + Lex(s, i) == Lex(s, i);
    }
  }

  lemma FirstRedirect(s: string, i: nat, rs: seq<Rd>) returns (r: Redirect, x: Rd, j: nat)
    requires NUL !in s && i <= |s| && ParseRedirs(s, rs, i).ROk? && Peek(s, i, "<>")
    ensures i < j <= |s| && ParseRedirs(s, rs, i) == ParseRedirs(s, rs + [x], j)
    ensures Lex(s, i) == RedirectLex(r) + Lex(s, j) && LegalWord(r.file)
  {
    var t := GetToken(s, i);
    var f := GetToken(s, t.next);
    r, x, j := Redirect(s[f.q..f.eq], t.kind != '<'), Rd(Tok(f.q, f.eq), t.kind != '<'), f.next;
    ArrowHere(s, i);
    Lexed(s, t.next);
    WordIsLegal(s, t.next);
  }

  lemma ArrowHere(s: string, i: nat)
    requires i <= |s| && Peek(s, i, "<>")
    ensures var t := GetToken(s, i);
      i < t.next && Lex(s, i) == [Symbol(if t.kind != '<' then '>' else '<')] + Lex(s, t.next)
  {
    Peeks(s, i, "<>");
    Lexed(s, i);
  }

  function Tos(all: seq<Redirect>): (items: seq<Item>)
    ensures |items| == |all| && forall k :: 0 <= k < |all| ==> items[k] == To(all[k])
  {
    seq(|all|, k requires 0 <= k < |all| => To(all[k]))
  }

  lemma {:induction false} TosThen(all: seq<Redirect>, items: seq<Item>)
    ensures ItemsLex(Tos(all) + items) == RedirectsLex(all) + ItemsLex(items)
    ensures ArgsOf(Tos(all) + items) == ArgsOf(items)
    decreases |all|
  {
    if all == [] {
      assert Tos(all) + items == items && RedirectsLex(all) + ItemsLex(items) == ItemsLex(items);
    } else {
      TosThen(all[1..], items);
      assert (Tos(all) + items)[1..] == Tos(all[1..]) + items && (Tos(all) + items)[0] == To(all[0]);
      Regroup(RedirectLex(all[0]), RedirectsLex(all[1..]), ItemsLex(items));
    }
  }

  predicate LegalItems(items: seq<Item>) {
    forall k :: 0 <= k < |items| ==> LegalItem(items[k])
  }

  lemma {:induction false} FromTail(s: string, i: nat, args: seq<Tok>, rs: seq<Rd>) returns (items: seq<Item>)
    requires NUL !in s && i <= |s| && ExecTail(s, args, rs, i).Ok? && |args| < MAXARGS
    ensures Lex(s, i) == ItemsLex(items) + Lex(s, ExecTail(s, args, rs, i).pos) && LegalItems(items)
    ensures |args| + |ArgsOf(items)| < MAXARGS
    decreases |s| - i
  {
    var more := ParseRedirs(s, rs, i);
    var all := FromRedirects(s, i, rs);
    var k := more.pos;
    var rest: seq<Item>;
    if TailGoesOn(s, k) {
      var w, x, j := FirstArg(s, k, args, more.rs);
      var items' := FromTail(s, j, args + [x], more.rs);
      rest := [Arg(w)] + items';
      Regroup([Lexeme('a', w)], ItemsLex(items'), Lex(s, ExecTail(s, args, rs, i).pos));
    } else {
      TailStops(s, k, args, more.rs);
      rest := [];
      assert ItemsLex(rest) + Lex(s, k) == Lex(s, k);
    }
    items := Tos(all) + rest;
    TosThen(all, rest);
    Regroup(RedirectsLex(all), ItemsLex(rest), Lex(s, ExecTail(s, args, rs, i).pos));
  }

  /** The loop of parseexec has another argument to read. */
  predicate TailGoesOn(s: string, k: nat)
    requires k <= |s|
  {
    !Peek(s, k, "|)&;") && GetToken(s, k).kind != NUL
  }

  lemma FirstArg(s: string, k: nat, args: seq<Tok>, rs: seq<Rd>) returns (w: string, x: Tok, j: nat)
    requires NUL !in s && k <= |s| && TailGoesOn(s, k) && ParseArgs(s, args, rs, k).Ok?
    ensures k < j <= |s| && ParseArgs(s, args, rs, k) == ExecTail(s, args + [x], rs, j) && |args| + 1 < MAXARGS
    ensures Lex(s, k) == [Lexeme('a', w)] + Lex(s, j) && LegalWord(w)
  {
    var t := GetToken(s, k);
    w, x, j := s[t.q..t.eq], Tok(t.q, t.eq), t.next;
    ArgCases(s, args, rs, k);
    Lexed(s, k);
    WordIsLegal(s, k);
  }

  lemma TailStops(s: string, k: nat, args: seq<Tok>, rs: seq<Rd>)
    requires k <= |s| && !TailGoesOn(s, k)
    ensures ParseArgs(s, args, rs, k).Ok? && Lex(s, ParseArgs(s, args, rs, k).pos) == Lex(s, k)
  {
    ArgCases(s, args, rs, k);
    Skipped(s, k);
    Lexed(s, k);
    Skipped(s, GetToken(s, k).eq);
  }

  lemma {:induction false} FromSimple(s: string, i: nat) returns (x: Simple)
    requires NUL !in s && i <= |s| && ParseExec(s, i).Ok?
    ensures LegalSimple(x) && Lex(s, i) == SimpleLex(x) + Lex(s, ParseExec(s, i).pos)
    decreases |s| - i, 2
  {
    if Peek(s, i, "(") {
      var open := SymbolHere(s, i, '(');
      var body := FromLine(s, open);
      var l := ParseLine(s, open);
      var close := SymbolHere(s, l.pos, ')');
      var rs := FromRedirects(s, close, []);
      x := Block(body, rs);
      BlockSplit(body, rs, Lex(s, ParseExec(s, i).pos));
    } else {
      var items := FromTail(s, i, [], []);
      x := Plain(items);
    }
  }

  /** The symbol that peek saw is the next lexeme. */
  lemma SymbolHere(s: string, i: nat, c: char) returns (j: nat)
    requires i <= |s| && Peek(s, i, [c]) && Special(c) && c != '>'
    ensures i < j <= |s| && j == GetToken(s, i).next && Lex(s, i) == [Symbol(c)] + Lex(s, j)
  {
    BlankIsSpace(c);
    Peeks(s, i, [c]);
    Lexed(s, i);
    j := GetToken(s, i).next;
  }

  lemma {:induction false} FromPipe(s: string, i: nat) returns (p: PipeLine)
    requires NUL !in s && i <= |s| && ParsePipe(s, i).Ok?
    ensures LegalPipe(p) && Lex(s, i) == PipeLex(p) + Lex(s, ParsePipe(s, i).pos)
    decreases |s| - i, 3
  {
    var x := FromSimple(s, i);
    var e := ParseExec(s, i);
    if Peek(s, e.pos, "|") {
      var j := SymbolHere(s, e.pos, '|');
      var rest := FromPipe(s, j);
      p := PipeLine(x, Some(rest));
    } else {
      p := PipeLine(x, None);
      Skipped(s, e.pos);
    }
    PipeParts(p, Lex(s, ParsePipe(s, i).pos));
  }

  lemma {:induction false} FromAnds(s: string, i: nat, c: Cmd) returns (n: nat)
    requires i <= |s|
    ensures Lex(s, i) == Ands(n) + Lex(s, Backs(s, c, i).pos)
    decreases |s| - i
  {
    if Peek(s, i, "&") {
      var j := SymbolHere(s, i, '&');
      var m := FromAnds(s, j, Back(c));
      n := m + 1;
      AndsNext(n, m, Lex(s, Backs(s, c, i).pos));
    } else {
      n := 0;
      NoAnds(Lex(s, i));
      Skipped(s, i);
    }
  }

  lemma {:induction false} FromLine(s: string, i: nat) returns (l: Line)
    requires NUL !in s && i <= |s| && ParseLine(s, i).Ok?
    ensures LegalLine(l) && Lex(s, i) == LineLex(l) + Lex(s, ParseLine(s, i).pos)
    decreases |s| - i, 4
  {
    var pipe := FromPipe(s, i);
    var p := ParsePipe(s, i);
    var n := FromAnds(s, p.pos, p.cmd);
    var b := Backs(s, p.cmd, p.pos);
    if Peek(s, b.pos, ";") {
      var j := SymbolHere(s, b.pos, ';');
      var rest := FromLine(s, j);
      l := Line(pipe, n, Some(rest));
    } else {
      l := Line(pipe, n, None);
      Skipped(s, b.pos);
    }
    LineParts(l, Lex(s, ParseLine(s, i).pos));
  }

  /** Every line that is parsed is a sentence. */
  lemma FromCmd(s: string) returns (l: Line)
    requires NUL !in s && ParseCmd(s).Ok?
    ensures LegalLine(l) && Lex(s, 0) == LineLex(l)
  {
    l := FromLine(s, 0);
    NoneLeft(s, ParseLine(s, 0).pos);
    assert LineLex(l) + [] == LineLex(l);
  }

  /** A line says t: it spells, with whatever blanks, a sentence of the grammar that means t. */
  ghost predicate Says(s: string, t: Tree) {
    exists l: Line, ps: seq<Piece>, end: string ::
      LegalLine(l) && s == Write(ps, end) && Spells(ps, end, LineLex(l)) && LineTree(l) == t
  }

  /** The parser accepts exactly the spellings of the grammar's sentences, and gives their meaning. */
  lemma AcceptsExactly(s: string, t: Tree)
    requires NUL !in s
    ensures Says(s, t) <==> ParseCmd(s).Ok? && Text(s, ParseCmd(s).cmd) == t
  {
    if Says(s, t) {
      var l: Line, ps: seq<Piece>, end: string :|
        LegalLine(l) && s == Write(ps, end) && Spells(ps, end, LineLex(l)) && LineTree(l) == t;
      LexWritten(ps, end, LineLex(l));
      Sentence(s, l);
    }
    if ParseCmd(s).Ok? && Text(s, ParseCmd(s).cmd) == t {
      var l := FromCmd(s);
      Sentence(s, l);
      var ps, end := Written(s);
    }
  }
}
