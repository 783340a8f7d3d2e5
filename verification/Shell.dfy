/** The command parser of user/src/sh/main.c: tokens, recursive descent, and NUL termination. A line
    is a string without NULs; the cursor `*ps` is an index into it and `es` is its length. */
module Shell {

  const MAXARGS: nat := 10
  const NUL: char := '\0'

  // ---- tokens ------------------------------------------------------------------------------

  predicate IsSpace(c: char) {
    c in " \t\r\n\U{0B}"
  }

  predicate IsSymbol(c: char) {
    c in "<|>&;()"
  }

  predicate IsWord(c: char) {
    !IsSpace(c) && !IsSymbol(c) && c != NUL
  }

  /** `*s`, which is NUL at the end of the line. */
  function CharAt(s: string, i: nat): char {
    if i < |s| then s[i] else NUL
  }

  function SkipSpace(s: string, i: nat): (r: nat)
    requires i <= |s|
    ensures i <= r <= |s| && !IsSpace(CharAt(s, r))
    decreases |s| - i
  {
    if i < |s| && IsSpace(s[i]) then SkipSpace(s, i + 1) else i
  }

  function WordEnd(s: string, i: nat): (r: nat)
    requires i <= |s|
    ensures i <= r <= |s| && (r < |s| ==> IsSpace(s[r]) || IsSymbol(s[r]))
    ensures forall k :: i <= k < r ==> !IsSpace(s[k]) && !IsSymbol(s[k])
    ensures i < |s| && !IsSpace(s[i]) && !IsSymbol(s[i]) ==> i < r
    decreases |s| - i
  {
    if i < |s| && !IsSpace(s[i]) && !IsSymbol(s[i]) then WordEnd(s, i + 1) else i
  }

  /** A token: the character gettoken returns ('a' for a word, '+' for `>>`, NUL at the end), the
      range it covers, and the cursor after it and the space behind it. */
  datatype Token = Token(kind: char, q: nat, eq: nat, next: nat)

  function GetToken(s: string, i: nat): (t: Token)
    requires i <= |s|
    ensures i <= t.q <= t.eq <= t.next <= |s|
    ensures t.kind != NUL ==> t.q < t.next
  {
    var q := SkipSpace(s, i);
    var c := CharAt(s, q);
    if c == NUL then Token(NUL, q, q, SkipSpace(s, q))
    else if c == '>' then
      if CharAt(s, q + 1) == '>' then Token('+', q, q + 2, SkipSpace(s, q + 2))
      else Token('>', q, q + 1, SkipSpace(s, q + 1))
    else if IsSymbol(c) then Token(c, q, q + 1, SkipSpace(s, q + 1))
    else Token('a', q, WordEnd(s, q), SkipSpace(s, WordEnd(s, q)))
  }

  predicate Peek(s: string, i: nat, toks: string)
    requires i <= |s|
  {
    var c := CharAt(s, SkipSpace(s, i));
    c != NUL && c in toks
  }

  /** gettoken as coded: two scanning loops and a switch. */
  method GetTokenLoop(s: string, ps: nat) returns (ret: char, q: nat, eq: nat, next: nat)
    requires ps <= |s|
    ensures Token(ret, q, eq, next) == GetToken(s, ps)
  {
    var i := SkipLoop(s, ps);
    q := i;
    ret := CharAt(s, i);
    if ret == NUL {
    } else if ret in "|();&<" {
      i := i + 1;
    } else if ret == '>' {
      i := i + 1;
      if CharAt(s, i) == '>' {
        ret := '+';
        i := i + 1;
      }
    } else {
      ret := 'a';
      while i < |s| && !IsSpace(s[i]) && !IsSymbol(s[i])
        invariant q <= i <= |s| && WordEnd(s, i) == WordEnd(s, q)
      {
        i := i + 1;
      }
    }
    eq := i;
    next := SkipLoop(s, i);
  }

  method SkipLoop(s: string, from: nat) returns (i: nat)
    requires from <= |s|
    ensures i == SkipSpace(s, from)
  {
    i := from;
    while i < |s| && IsSpace(s[i])
      invariant from <= i <= |s| && SkipSpace(s, i) == SkipSpace(s, from)
    {
      i := i + 1;
    }
  }

  // ---- commands ----------------------------------------------------------------------------

  /** A word of the line, by its range. */
  datatype Tok = Tok(q: nat, eq: nat)

  datatype Cmd =
    | Exec(argv: seq<Tok>)
    | Redir(cmd: Cmd, file: Tok, out: bool)     // `<` opens for reading as 0; `>` and `>>` for writing as 1
    | Pipe(left: Cmd, right: Cmd)
    | List(left: Cmd, right: Cmd)
    | Back(cmd: Cmd)

  datatype Rd = Rd(file: Tok, out: bool)

  // sizeof of the nodes on a machine with 8-byte pointers
  const EXECSIZE: nat := 168
  const REDIRSIZE: nat := 40
  const PAIRSIZE: nat := 24       // pipecmd and listcmd
  const BACKSIZE: nat := 16

  /** What malloc1 hands out for the nodes of a command. */
  function Size(c: Cmd): nat {
    match c
    case Exec(_) => EXECSIZE
    case Redir(d, _, _) => Size(d) + REDIRSIZE
    case Pipe(l, r) => Size(l) + Size(r) + PAIRSIZE
    case List(l, r) => Size(l) + Size(r) + PAIRSIZE
    case Back(d) => Size(d) + BACKSIZE
  }

  function Wrap(c: Cmd, rs: seq<Rd>): (r: Cmd)
    ensures Size(r) == Size(c) + REDIRSIZE * |rs|
  {
    if rs == [] then c else Redir(Wrap(c, rs[..|rs| - 1]), rs[|rs| - 1].file, rs[|rs| - 1].out)
  }

  datatype Error = MissingFile | MissingParen | Syntax | TooManyArgs

  /** What the grammar makes of a line; a failure says how much was allocated before it. */
  datatype Parse = Ok(cmd: Cmd, pos: nat) | Err(error: Error, lost: nat)
  datatype Redirs = ROk(rs: seq<Rd>, pos: nat) | RErr(error: Error, lost: nat)

  /** The bytes allocated on the way to a result. */
  function Spent(p: Parse): nat {
    if p.Ok? then Size(p.cmd) else p.lost
  }

  function RedirsSpent(r: Redirs): nat {
    if r.ROk? then REDIRSIZE * |r.rs| else r.lost
  }

  /** Two commands put together by pipecmd or listcmd, once the second is read. */
  function Join(c: Cmd, rest: Parse, pipe: bool): (r: Parse)
    ensures Spent(r) >= Size(c) + Spent(rest)
  {
    if rest.Err? then Err(rest.error, Size(c) + rest.lost)
    else Ok(if pipe then Pipe(c, rest.cmd) else List(c, rest.cmd), rest.pos)
  }

  /** A word of line s: not empty, made of word characters, and ending where the word ends. */
  predicate WordTok(s: string, t: Tok) {
    t.q < t.eq <= |s| && (forall k :: t.q <= k < t.eq ==> !IsSpace(s[k]) && !IsSymbol(s[k]))
    && (t.eq < |s| ==> IsSpace(s[t.eq]) || IsSymbol(s[t.eq]))
  }

  predicate Words(s: string, c: Cmd) {
    match c
    case Exec(argv) => |argv| < MAXARGS && forall i :: 0 <= i < |argv| ==> WordTok(s, argv[i])
    case Redir(d, f, _) => Words(s, d) && WordTok(s, f)
    case Pipe(l, r) => Words(s, l) && Words(s, r)
    case List(l, r) => Words(s, l) && Words(s, r)
    case Back(d) => Words(s, d)
  }

  predicate Files(s: string, rs: seq<Rd>) {
    forall i :: 0 <= i < |rs| ==> WordTok(s, rs[i].file)
  }

  /** parseredirs: the redirections at the cursor, added to those already seen. */
  function ParseRedirs(s: string, rs: seq<Rd>, i: nat): (r: Redirs)
    requires i <= |s|
    ensures r.ROk? ==> i <= r.pos <= |s|
    ensures RedirsSpent(r) >= REDIRSIZE * |rs|
    decreases |s| - i
  {
    if !Peek(s, i, "<>") then ROk(rs, SkipSpace(s, i))
    else
      var t := GetToken(s, i);
      var f := GetToken(s, t.next);
      if f.kind != 'a' then RErr(MissingFile, REDIRSIZE * |rs|)
      else
        ParseRedirs(s, rs + [Rd(Tok(f.q, f.eq), t.kind != '<')], f.next)
  }

  function ParseLine(s: string, i: nat): (r: Parse)
    requires i <= |s|
    ensures r.Ok? ==> i <= r.pos <= |s|
    decreases |s| - i, 4
  {
    var p := ParsePipe(s, i);
    if p.Err? then p
    else
      var b := Backs(s, p.cmd, p.pos);
      if !Peek(s, b.pos, ";") then b.(pos := SkipSpace(s, b.pos))
      else
        var rest := ParseLine(s, GetToken(s, b.pos).next);
        Join(b.cmd, rest, false)
  }

  /** The `&` loop of parseline. */
  function Backs(s: string, c: Cmd, i: nat): (r: Parse)
    requires i <= |s|
    ensures r.Ok? && i <= r.pos <= |s| && Size(r.cmd) >= Size(c)
    decreases |s| - i
  {
    if Peek(s, i, "&") then Backs(s, Back(c), GetToken(s, i).next) else Ok(c, SkipSpace(s, i))
  }

  function ParsePipe(s: string, i: nat): (r: Parse)
    requires i <= |s|
    ensures r.Ok? ==> i <= r.pos <= |s|
    decreases |s| - i, 3
  {
    var e := ParseExec(s, i);
    if e.Err? then e
    else if !Peek(s, e.pos, "|") then e.(pos := SkipSpace(s, e.pos))
    else
      var rest := ParsePipe(s, GetToken(s, e.pos).next);
      Join(e.cmd, rest, true)
  }

  function ParseBlock(s: string, i: nat): (r: Parse)
    requires i <= |s| && Peek(s, i, "(")
    ensures r.Ok? ==> i <= r.pos <= |s|
    decreases |s| - i, 1
  {
    var l := ParseLine(s, GetToken(s, i).next);
    if l.Err? then l
    else if !Peek(s, l.pos, ")") then Err(MissingParen, Size(l.cmd))
    else BlockTail(s, l.cmd, [], GetToken(s, l.pos).next)
  }

  function Behind(c: Cmd, more: Redirs): (r: Parse)
    ensures Spent(r) == Size(c) + RedirsSpent(more)
  {
    if more.RErr? then Err(more.error, Size(c) + more.lost) else Ok(Wrap(c, more.rs), more.pos)
  }

  /** The redirections behind a block. */
  function BlockTail(s: string, c: Cmd, rs: seq<Rd>, i: nat): (r: Parse)
    requires i <= |s|
    ensures r.Ok? ==> i <= r.pos <= |s|
    ensures Spent(r) >= Size(c) + REDIRSIZE * |rs|
  {
    Behind(c, ParseRedirs(s, rs, i))
  }

  function ParseExec(s: string, i: nat): (r: Parse)
    requires i <= |s|
    ensures r.Ok? ==> i <= r.pos <= |s|
    decreases |s| - i, 2
  {
    if Peek(s, i, "(") then ParseBlock(s, i) else ExecTail(s, [], [], i)
  }

  /** parseexec from one of its calls of parseredirs on: those redirections, then the argument loop. */
  function ExecTail(s: string, args: seq<Tok>, rs: seq<Rd>, i: nat): (r: Parse)
    requires i <= |s|
    ensures r.Ok? ==> i <= r.pos <= |s|
    ensures Spent(r) >= EXECSIZE + REDIRSIZE * |rs|
    decreases |s| - i, 1
  {
    var more := ParseRedirs(s, rs, i);
    if more.RErr? then Err(more.error, EXECSIZE + more.lost) else ParseArgs(s, args, more.rs, more.pos)
  }

  /** The argument loop of parseexec. */
  function ParseArgs(s: string, args: seq<Tok>, rs: seq<Rd>, i: nat): (r: Parse)
    requires i <= |s|
    ensures r.Ok? ==> i <= r.pos <= |s|
    ensures Spent(r) >= EXECSIZE + REDIRSIZE * |rs|
    decreases |s| - i, 0
  {
    if Peek(s, i, "|)&;") then Ok(Wrap(Exec(args), rs), SkipSpace(s, i))
    else
      var t := GetToken(s, i);
      if t.kind == NUL then Ok(Wrap(Exec(args), rs), t.next)
      else if t.kind != 'a' then Err(Syntax, EXECSIZE + REDIRSIZE * |rs|)
      else if |args| + 1 >= MAXARGS then Err(TooManyArgs, EXECSIZE + REDIRSIZE * |rs|)
      else
        ExecTail(s, args + [Tok(t.q, t.eq)], rs, t.next)
  }

  /** parsecmd before nulterminate: the whole line must be used up. */
  function ParseCmd(s: string): (r: Parse)
    ensures r.Ok? ==> r.pos == |s|
  {
    var l := ParseLine(s, 0);
    if l.Ok? && SkipSpace(s, l.pos) != |s| then Err(Syntax, Size(l.cmd))
    else if l.Ok? then l.(pos := |s|) else l
  }

  // ---- every token of a parsed command is a word of the line --------------------------------

  lemma {:induction false} WrapWords(s: string, c: Cmd, rs: seq<Rd>)
    requires Words(s, c) && Files(s, rs)
    ensures Words(s, Wrap(c, rs))
  {
    if rs != [] { WrapWords(s, c, rs[..|rs| - 1]); }
  }

  lemma GetTokenWord(s: string, i: nat)
    requires i <= |s| && GetToken(s, i).kind == 'a'
    ensures WordTok(s, Tok(GetToken(s, i).q, GetToken(s, i).eq))
  {
  }

  lemma {:induction false} RedirsWords(s: string, rs: seq<Rd>, i: nat)
    requires i <= |s| && Files(s, rs) && ParseRedirs(s, rs, i).ROk?
    ensures Files(s, ParseRedirs(s, rs, i).rs)
    decreases |s| - i
  {
    if Peek(s, i, "<>") {
      var t := GetToken(s, i);
      var f := GetToken(s, t.next);
      GetTokenWord(s, t.next);
      RedirsWords(s, rs + [Rd(Tok(f.q, f.eq), t.kind != '<')], f.next);
    }
  }

  lemma {:induction false} LineWords(s: string, i: nat)
    requires i <= |s| && ParseLine(s, i).Ok?
    ensures Words(s, ParseLine(s, i).cmd)
    decreases |s| - i, 4
  {
    var p := ParsePipe(s, i);
    PipeWords(s, i);
    BacksWords(s, p.cmd, p.pos);
    var b := Backs(s, p.cmd, p.pos);
    if Peek(s, b.pos, ";") { LineWords(s, GetToken(s, b.pos).next); }
  }

  lemma {:induction false} BacksWords(s: string, c: Cmd, i: nat)
    requires i <= |s| && Words(s, c)
    ensures Words(s, Backs(s, c, i).cmd)
    decreases |s| - i
  {
    if Peek(s, i, "&") { BacksWords(s, Back(c), GetToken(s, i).next); }
  }

  lemma {:induction false} PipeWords(s: string, i: nat)
    requires i <= |s| && ParsePipe(s, i).Ok?
    ensures Words(s, ParsePipe(s, i).cmd)
    decreases |s| - i, 3
  {
    ExecWords(s, i);
    var e := ParseExec(s, i);
    if Peek(s, e.pos, "|") { PipeWords(s, GetToken(s, e.pos).next); }
  }

  lemma {:induction false} ExecWords(s: string, i: nat)
    requires i <= |s| && ParseExec(s, i).Ok?
    ensures Words(s, ParseExec(s, i).cmd)
    decreases |s| - i, 2
  {
    if Peek(s, i, "(") {
      var l := ParseLine(s, GetToken(s, i).next);
      LineWords(s, GetToken(s, i).next);
      var close := GetToken(s, l.pos).next;
      RedirsWords(s, [], close);
      WrapWords(s, l.cmd, ParseRedirs(s, [], close).rs);
    } else {
      RedirsWords(s, [], i);
      var more := ParseRedirs(s, [], i);
      ArgsWords(s, [], more.rs, more.pos);
    }
  }

  lemma {:induction false} ArgsWords(s: string, args: seq<Tok>, rs: seq<Rd>, i: nat)
    requires i <= |s| && Words(s, Exec(args)) && Files(s, rs) && ParseArgs(s, args, rs, i).Ok?
    ensures Words(s, ParseArgs(s, args, rs, i).cmd)
    decreases |s| - i
  {
    var t := GetToken(s, i);
    if Peek(s, i, "|)&;") || t.kind == NUL {
      WrapWords(s, Exec(args), rs);
    } else {
      GetTokenWord(s, i);
      RedirsWords(s, rs, t.next);
      var more := ParseRedirs(s, rs, t.next);
      ArgsWords(s, args + [Tok(t.q, t.eq)], more.rs, more.pos);
    }
  }

  /** What the parser accepts is made of words of the line, with fewer than MAXARGS in each argv. */
  lemma {:induction false} CmdWords(s: string)
    requires ParseCmd(s).Ok?
    ensures Words(s, ParseCmd(s).cmd)
  {
    LineWords(s, 0);
  }

  // ---- the arena ---------------------------------------------------------------------------

  const MAXN: nat := 10000

  /** How parsing ends: with what the grammar says and so many bytes in use, or in malloc1's exit. */
  datatype Outcome = Done(p: Parse, used: nat) | Exhausted
  datatype RedirsOutcome = RDone(r: Redirs, used: nat) | RExhausted

  /** The grammar's answer, reached only if everything allocated on the way to it fits. */
  function Within(p: Parse, used: nat): Outcome {
    if used + Spent(p) <= MAXN then Done(p, used + Spent(p)) else Exhausted
  }

  function RedirsWithin(r: Redirs, base: nat): RedirsOutcome {
    if base + RedirsSpent(r) <= MAXN then RDone(r, base + RedirsSpent(r)) else RExhausted
  }

  /** malloc1. A command line is parsed in a fresh child process, so the count starts at zero. */
  method Malloc1(used: nat, sz: nat) returns (ok: bool, now: nat)
    requires used <= MAXN
    ensures ok <==> used + sz <= MAXN
    ensures now == if ok then used + sz else used
  {
    now := used + sz;
    ok := now <= MAXN;
    if !ok { now := used; }
  }

  // ---- the parser as coded, with its loops -------------------------------------------------

  /** parseredirs as coded. The redirections are kept apart from the command they will wrap, whose
      argv may still grow; base is what was in use before the first of them. */
  method RedirsLoop(s: string, rs: seq<Rd>, from: nat, base: nat) returns (o: RedirsOutcome)
    requires from <= |s| && base + REDIRSIZE * |rs| <= MAXN
    ensures o == RedirsWithin(ParseRedirs(s, rs, from), base)
  {
    var all, i, used := rs, from, base + REDIRSIZE * |rs|;
    while Peek(s, i, "<>")
      invariant i <= |s| && ParseRedirs(s, all, i) == ParseRedirs(s, rs, from)
      invariant used == base + REDIRSIZE * |all| <= MAXN
      decreases |s| - i
    {
      var tok, _, _, mid := GetTokenLoop(s, i);
      var kind, q, eq, next := GetTokenLoop(s, mid);
      if kind != 'a' { return RDone(RErr(MissingFile, REDIRSIZE * |all|), used); }
      var ok;
      ok, used := Malloc1(used, REDIRSIZE);
      all := all + [Rd(Tok(q, eq), tok != '<')];
      if !ok { return RExhausted; }
      i := next;
    }
    var end := SkipLoop(s, i);
    return RDone(ROk(all, end), used);
  }

  method LineLoop(s: string, i: nat, used: nat) returns (o: Outcome)
    requires i <= |s| && used <= MAXN
    ensures o == Within(ParseLine(s, i), used)
    decreases |s| - i, 4
  {
    o := PipeLoop(s, i, used);
    LineGrows(s, i);
    if o.Exhausted? || o.p.Err? { return; }
    ghost var p := o.p;
    o := BacksLoop(s, o.p.cmd, o.p.pos, o.used, used);
    if o.Exhausted? { return; }
    var cmd, pos := o.p.cmd, o.p.pos;
    if !Peek(s, pos, ";") { return; }
    var _, _, _, next := GetTokenLoop(s, pos);
    var rest := LineLoop(s, next, o.used);
    o := JoinNode(cmd, rest, ParseLine(s, next), false, used);
  }

  /** The `&` loop of parseline. */
  method BacksLoop(s: string, c: Cmd, from: nat, have: nat, ghost used: nat) returns (o: Outcome)
    requires from <= |s| && have == used + Size(c) <= MAXN
    ensures o == Within(Backs(s, c, from), used)
  {
    var cmd, pos, now := c, from, have;
    while Peek(s, pos, "&")
      invariant from <= pos <= |s| && now == used + Size(cmd) <= MAXN
      invariant Backs(s, cmd, pos) == Backs(s, c, from)
      decreases |s| - pos
    {
      var _, _, _, next := GetTokenLoop(s, pos);
      var ok;
      ok, now := Malloc1(now, BACKSIZE);
      cmd, pos := Back(cmd), next;
      if !ok { return Exhausted; }
    }
    pos := SkipLoop(s, pos);
    return Done(Ok(cmd, pos), now);
  }

  /** The node for two commands, allocated when both have been read. */
  method JoinNode(c: Cmd, rest: Outcome, ghost second: Parse, pipe: bool, ghost used: nat) returns (o: Outcome)
    requires rest == Within(second, used + Size(c))
    ensures o == Within(Join(c, second, pipe), used)
  {
    if rest.Exhausted? { return Exhausted; }
    if rest.p.Err? { return Done(Err(rest.p.error, Size(c) + rest.p.lost), rest.used); }
    var ok, now := Malloc1(rest.used, PAIRSIZE);
    if !ok { return Exhausted; }
    return Done(Ok(if pipe then Pipe(c, rest.p.cmd) else List(c, rest.p.cmd), rest.p.pos), now);
  }

  /** What the rest of a line allocates only adds to what its first command did. */
  lemma LineGrows(s: string, i: nat)
    requires i <= |s|
    ensures Spent(ParseLine(s, i)) >= Spent(ParsePipe(s, i))
    ensures ParsePipe(s, i).Ok? ==>
      var p := ParsePipe(s, i); Spent(ParseLine(s, i)) >= Spent(Backs(s, p.cmd, p.pos))
    ensures ParsePipe(s, i).Ok? ==>
      var p := ParsePipe(s, i); SkipSpace(s, Backs(s, p.cmd, p.pos).pos) == Backs(s, p.cmd, p.pos).pos
  {
    var p := ParsePipe(s, i);
    if p.Ok? { BacksEnd(s, p.cmd, p.pos); }
  }

  lemma {:induction false} BacksEnd(s: string, c: Cmd, i: nat)
    requires i <= |s|
    ensures SkipSpace(s, Backs(s, c, i).pos) == Backs(s, c, i).pos
    decreases |s| - i
  {
    if Peek(s, i, "&") { BacksEnd(s, Back(c), GetToken(s, i).next); }
  }

  method PipeLoop(s: string, i: nat, used: nat) returns (o: Outcome)
    requires i <= |s| && used <= MAXN
    ensures o == Within(ParsePipe(s, i), used)
    decreases |s| - i, 3
  {
    o := ExecLoop(s, i, used);
    PipeGrows(s, i);
    if o.Exhausted? || o.p.Err? { return; }
    var cmd, pos := o.p.cmd, o.p.pos;
    if !Peek(s, pos, "|") {
      pos := SkipLoop(s, pos);
      return Done(Ok(cmd, pos), o.used);
    }
    var _, _, _, next := GetTokenLoop(s, pos);
    var rest := PipeLoop(s, next, o.used);
    o := JoinNode(cmd, rest, ParsePipe(s, next), true, used);
  }

  lemma PipeGrows(s: string, i: nat)
    requires i <= |s|
    ensures Spent(ParsePipe(s, i)) >= Spent(ParseExec(s, i))
  {
  }

  method BlockLoop(s: string, i: nat, used: nat) returns (o: Outcome)
    requires i <= |s| && Peek(s, i, "(") && used <= MAXN
    ensures o == Within(ParseBlock(s, i), used)
    decreases |s| - i, 1
  {
    var _, _, _, open := GetTokenLoop(s, i);
    o := LineLoop(s, open, used);
    if o.Exhausted? {
      BlockGrows(s, i);
      return;
    }
    if o.p.Err? { return; }
    var cmd, pos, now := o.p.cmd, o.p.pos, o.used;
    if !Peek(s, pos, ")") { return Done(Err(MissingParen, Size(cmd)), now); }
    var _, _, _, close := GetTokenLoop(s, pos);
    o := BlockRest(s, cmd, close, now, used);
  }

  lemma BlockGrows(s: string, i: nat)
    requires i <= |s| && Peek(s, i, "(")
    ensures Spent(ParseBlock(s, i)) >= Spent(ParseLine(s, GetToken(s, i).next))
  {
  }

  /** parseblock from its call of parseredirs on. */
  method BlockRest(s: string, cmd: Cmd, close: nat, now: nat, ghost used: nat) returns (o: Outcome)
    requires close <= |s| && now == used + Size(cmd) <= MAXN
    ensures o == Within(BlockTail(s, cmd, [], close), used)
  {
    var rs := RedirsLoop(s, [], close, now);
    o := if rs.RExhausted? then Exhausted else Done(Behind(cmd, rs.r), rs.used);
  }

  method ExecLoop(s: string, i: nat, used: nat) returns (o: Outcome)
    requires i <= |s| && used <= MAXN
    ensures o == Within(ParseExec(s, i), used)
    decreases |s| - i, 2
  {
    if Peek(s, i, "(") {
      o := BlockLoop(s, i, used);
    } else {
      var ok, base := Malloc1(used, EXECSIZE);
      if !ok { return Exhausted; }
      o := ArgsLoop(s, i, base, used);
    }
  }

  /** parseexec's loop, behind its allocation of the node: redirections, then a word, and so on. */
  method ArgsLoop(s: string, i: nat, base: nat, ghost used: nat) returns (o: Outcome)
    requires i <= |s| && base == used + EXECSIZE <= MAXN
    ensures o == Within(ExecTail(s, [], [], i), used)
  {
    var argv: seq<Tok> := [];
    var more := RedirsLoop(s, [], i, base);
    ReadOn(s, i, argv, [], i, more, used);
    while more.RDone? && more.r.ROk? && !Peek(s, more.r.pos, "|)&;")
      invariant |argv| < MAXARGS && Reading(s, i, argv, more, used)
      decreases more.RDone? && more.r.ROk?, if more.RDone? && more.r.ROk? then |s| - more.r.pos else 0
    {
      var tok, q, eq, next := GetTokenLoop(s, more.r.pos);
      ArgCases(s, argv, more.r.rs, more.r.pos);
      if tok == NUL { return Done(Ok(Wrap(Exec(argv), more.r.rs), next), more.used); }
      if tok != 'a' { return Done(Err(Syntax, EXECSIZE + REDIRSIZE * |more.r.rs|), more.used); }
      if |argv| + 1 >= MAXARGS { return Done(Err(TooManyArgs, EXECSIZE + REDIRSIZE * |more.r.rs|), more.used); }
      argv := argv + [Tok(q, eq)];
      var again := RedirsLoop(s, more.r.rs, next, base);
      ReadOn(s, i, argv, more.r.rs, next, again, used);
      more := again;
    }
    if more.RExhausted? { return Exhausted; }
    if more.r.RErr? { return Done(Err(more.r.error, EXECSIZE + more.r.lost), more.used); }
    ArgCases(s, argv, more.r.rs, more.r.pos);
    var end := SkipLoop(s, more.r.pos);
    return Done(Ok(Wrap(Exec(argv), more.r.rs), end), more.used);
  }

  /** The argument loop's cases, spelled out. */
  lemma ArgCases(s: string, args: seq<Tok>, rs: seq<Rd>, i: nat)
    requires i <= |s|
    ensures var t, now := GetToken(s, i), EXECSIZE + REDIRSIZE * |rs|;
      ParseArgs(s, args, rs, i)
      == if Peek(s, i, "|)&;") then Ok(Wrap(Exec(args), rs), SkipSpace(s, i))
         else if t.kind == NUL then Ok(Wrap(Exec(args), rs), t.next)
         else if t.kind != 'a' then Err(Syntax, now)
         else if |args| + 1 >= MAXARGS then Err(TooManyArgs, now)
         else ExecTail(s, args + [Tok(t.q, t.eq)], rs, t.next)
  {
  }

  /** Where parseexec stands after one of its calls of parseredirs. */
  predicate Reading(s: string, i: nat, argv: seq<Tok>, more: RedirsOutcome, used: nat)
    requires i <= |s|
  {
    match more
    case RExhausted => used + Spent(ExecTail(s, [], [], i)) > MAXN
    case RDone(r, now) =>
      now == used + EXECSIZE + RedirsSpent(r) <= MAXN
      && if r.RErr? then ExecTail(s, [], [], i) == Err(r.error, EXECSIZE + r.lost)
         else r.pos <= |s| && ExecTail(s, [], [], i) == ParseArgs(s, argv, r.rs, r.pos)
  }

  lemma ReadOn(s: string, i: nat, argv: seq<Tok>, rs: seq<Rd>, next: nat, more: RedirsOutcome, used: nat)
    requires i <= |s| && next <= |s| && ExecTail(s, [], [], i) == ExecTail(s, argv, rs, next)
    requires more == RedirsWithin(ParseRedirs(s, rs, next), used + EXECSIZE)
    ensures Reading(s, i, argv, more, used)
  {
    if more.RExhausted? { TailSpent(s, argv, rs, next); }
  }

  lemma TailSpent(s: string, argv: seq<Tok>, rs: seq<Rd>, i: nat)
    requires i <= |s|
    ensures Spent(ExecTail(s, argv, rs, i)) >= EXECSIZE + RedirsSpent(ParseRedirs(s, rs, i))
  {
  }
}
