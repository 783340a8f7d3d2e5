/** The shell's lines as sequences of lexemes, however they are spelled. Blanks and symbols are spelled out
    here, apart from the tests that the scanner makes. */
module ShellLex {
  import opened Shell

  predicate Blank(c: char) {
    c == ' ' || c == '\t' || c == '\r' || c == '\n' || c == '\U{0B}'
  }

  predicate Special(c: char) {
    c == '<' || c == '|' || c == '>' || c == '&' || c == ';' || c == '(' || c == ')'
  }

  predicate Blanks(x: string) {
    forall k :: 0 <= k < |x| ==> Blank(x[k])
  }

  predicate LegalWord(w: string) {
    w != "" && forall k :: 0 <= k < |w| ==> !Blank(w[k]) && !Special(w[k]) && w[k] != NUL
  }

  /** A word (kind 'a') or a symbol; `>` and `>>` are the same one. */
  datatype Lexeme = Lexeme(kind: char, word: string)

  function Symbol(c: char): Lexeme {
    Lexeme(c, "")
  }

  function LexemeOf(s: string, t: Token): Lexeme
    requires t.q <= t.eq <= |s|
  {
    if t.kind == 'a' then Lexeme('a', s[t.q..t.eq]) else Symbol(if t.kind == '+' then '>' else t.kind)
  }

  /** The lexemes from a cursor on. */
  function Lex(s: string, i: nat): seq<Lexeme>
    requires i <= |s|
    decreases |s| - i
  {
    var t := GetToken(s, i);
    if t.kind == NUL then [] else [LexemeOf(s, t)] + Lex(s, t.next)
  }

  /** gettoken's switch: the kind of the token at q and where it ends. */
  function Scan(s: string, q: nat): (r: (char, nat))
    requires q <= |s| && !IsSpace(CharAt(s, q))
    ensures q <= r.1 <= |s| && (r.0 != NUL ==> q < r.1)
  {
    var c := CharAt(s, q);
    if c == NUL then (NUL, q)
    else if c == '>' then
      if CharAt(s, q + 1) == '>' then ('+', q + 2) else ('>', q + 1)
    else if IsSymbol(c) then (c, q + 1)
    else ('a', WordEnd(s, q))
  }

  lemma TokenScan(s: string, i: nat)
    requires i <= |s|
    ensures var q := SkipSpace(s, i);
      GetToken(s, i) == Token(Scan(s, q).0, q, Scan(s, q).1, SkipSpace(s, Scan(s, q).1))
  {
  }

  // ---- the scanner over lexemes ------------------------------------------------------------

  lemma Skipped(s: string, i: nat)
    requires i <= |s|
    ensures SkipSpace(s, SkipSpace(s, i)) == SkipSpace(s, i) && GetToken(s, SkipSpace(s, i)) == GetToken(s, i)
    ensures Lex(s, SkipSpace(s, i)) == Lex(s, i)
  {
  }

  /** peek looks at the next lexeme. */
  lemma Peeks(s: string, i: nat, toks: string)
    requires i <= |s| && forall c <- toks :: IsSymbol(c)
    ensures Peek(s, i, toks) <==> Lex(s, i) != [] && Lex(s, i)[0].kind in toks
  {
    var c := CharAt(s, SkipSpace(s, i));
    if c != NUL && !IsSymbol(c) {
      assert !IsSymbol('a');
    }
  }

  lemma Next(s: string, i: nat)
    requires i <= |s| && Lex(s, i) != []
    ensures var t := GetToken(s, i); t.kind != NUL && Lex(s, i)[0] == LexemeOf(s, t) && Lex(s, i)[1..] == Lex(s, t.next)
  {
  }

  lemma Lexed(s: string, i: nat)
    requires i <= |s|
    ensures var t := GetToken(s, i);
      t.next == SkipSpace(s, t.eq) && Lex(s, i) == if t.kind == NUL then [] else [LexemeOf(s, t)] + Lex(s, t.next)
  {
  }

  // ---- spelling ----------------------------------------------------------------------------

  datatype Piece = Piece(gap: string, text: string)

  function Write(ps: seq<Piece>, end: string): string {
    if ps == [] then end else ps[0].gap + ps[0].text + Write(ps[1..], end)
  }

  /** The text of a lexeme, behind any blanks. */
  predicate Writes(p: Piece, l: Lexeme) {
    && Blanks(p.gap)
    && if l.kind == 'a' then LegalWord(l.word) && p.text == l.word
       else l.word == "" && Special(l.kind) && (p.text == [l.kind] || (l.kind == '>' && p.text == ">>"))
  }

  /** What follows does not make the text longer. */
  predicate Ends(text: string, rest: string)
    requires text != ""
  {
    rest == "" || ((Special(text[0]) || Blank(rest[0]) || Special(rest[0])) && (text == ">" ==> rest[0] != '>'))
  }

  /** A line spells lexemes: each with any blanks before it, and any blanks at the end. */
  predicate Spells(ps: seq<Piece>, end: string, ls: seq<Lexeme>) {
    |ps| == |ls|
    && if ps == [] then Blanks(end)
       else Writes(ps[0], ls[0]) && Ends(ps[0].text, Write(ps[1..], end)) && Spells(ps[1..], end, ls[1..])
  }

  lemma BlankIsSpace(c: char)
    ensures Blank(c) <==> IsSpace(c)
    ensures Special(c) <==> IsSymbol(c)
  {
  }

  lemma {:induction false} SkipBlanks(s: string, i: nat, j: nat)
    requires i <= j <= |s| && (forall k :: i <= k < j ==> Blank(s[k])) && (j < |s| ==> !Blank(s[j]))
    ensures SkipSpace(s, i) == j
    decreases j - i
  {
    if i < |s| { BlankIsSpace(s[i]); }
    if i < j { SkipBlanks(s, i + 1, j); }
  }

  lemma {:induction false} ScanWord(s: string, i: nat, j: nat)
    requires i <= j <= |s| && (forall k :: i <= k < j ==> !Blank(s[k]) && !Special(s[k]))
    requires j < |s| ==> Blank(s[j]) || Special(s[j])
    ensures WordEnd(s, i) == j
    decreases j - i
  {
    if i < |s| { BlankIsSpace(s[i]); }
    if i < j { ScanWord(s, i + 1, j); }
  }

  /** r stands in s from d to the end. */
  predicate Suffix(s: string, d: nat, r: string) {
    |s| == d + |r| && forall k :: 0 <= k < |r| ==> s[d + k] == r[k]
  }

  lemma {:induction false} SkipShift(s: string, d: nat, r: string, i: nat, j: nat)
    requires Suffix(s, d, r) && i <= |r| && j == d + i
    ensures SkipSpace(s, j) == d + SkipSpace(r, i)
    decreases |r| - i
  {
    if i < |r| && IsSpace(r[i]) { SkipShift(s, d, r, i + 1, j + 1); }
  }

  lemma {:induction false} WordShift(s: string, d: nat, r: string, i: nat, j: nat)
    requires Suffix(s, d, r) && i <= |r| && j == d + i
    ensures WordEnd(s, j) == d + WordEnd(r, i)
    decreases |r| - i
  {
    if i < |r| && !IsSpace(r[i]) && !IsSymbol(r[i]) { WordShift(s, d, r, i + 1, j + 1); }
  }

  lemma ScanShift(s: string, d: nat, r: string, i: nat, j: nat)
    requires Suffix(s, d, r) && i <= |r| && j == d + i && !IsSpace(CharAt(r, i))
    ensures !IsSpace(CharAt(s, j)) && Scan(s, j) == (Scan(r, i).0, d + Scan(r, i).1)
  {
    assert CharAt(s, j) == CharAt(r, i) && CharAt(s, j + 1) == CharAt(r, i + 1);
    WordShift(s, d, r, i, j);
  }

  lemma TokenShift(s: string, d: nat, r: string, i: nat, j: nat)
    requires Suffix(s, d, r) && i <= |r| && j == d + i
    ensures var t := GetToken(r, i); GetToken(s, j) == Token(t.kind, d + t.q, d + t.eq, d + t.next)
  {
    var q := SkipSpace(r, i);
    TokenScan(r, i);
    TokenScan(s, j);
    SkipShift(s, d, r, i, j);
    ScanShift(s, d, r, q, d + q);
    SkipShift(s, d, r, Scan(r, q).1, d + Scan(r, q).1);
  }

  /** What stands before the cursor does not matter. */
  lemma {:induction false} LexShift(s: string, d: nat, r: string, i: nat, j: nat)
    requires Suffix(s, d, r) && i <= |r| && j == d + i
    ensures Lex(s, j) == Lex(r, i)
    decreases |r| - i
  {
    var t, u := GetToken(r, i), GetToken(s, j);
    TokenShift(s, d, r, i, j);
    Lexed(r, i);
    Lexed(s, j);
    if t.kind != NUL {
      LexemeShift(s, d, r, t, u);
      LexShift(s, d, r, t.next, u.next);
    }
  }

  lemma LexemeShift(s: string, d: nat, r: string, t: Token, u: Token)
    requires Suffix(s, d, r) && t.q <= t.eq <= |r| && u.kind == t.kind && u.q == d + t.q && u.eq == d + t.eq
    ensures u.eq <= |s| && LexemeOf(s, u) == LexemeOf(r, t)
  {
    assert s[u.q..u.eq] == r[t.q..t.eq];
  }

  /** The first piece is the first token. */
  lemma FirstToken(p: Piece, l: Lexeme, rest: string)
    requires Writes(p, l) && Ends(p.text, rest)
    ensures var s, e := p.gap + p.text + rest, |p.gap| + |p.text|;
      GetToken(s, 0) == Token(if p.text == ">>" then '+' else l.kind, |p.gap|, e, SkipSpace(s, e))
      && s[|p.gap|..e] == p.text && l.kind != NUL
  {
    var s, q, e := p.gap + p.text + rest, |p.gap|, |p.gap| + |p.text|;
    assert s[q..e] == p.text;
    assert s[q] == p.text[0];
    forall k | q <= k < e ensures s[k] == p.text[k - q] { assert s[q..e][k - q] == s[k]; }
    SkipBlanks(s, 0, q);
    BlankIsSpace(s[q]);
    assert e < |s| ==> s[e] == rest[0];
    if l.kind == 'a' { ScanWord(s, q, e); }
  }

  /** The lexemes behind the first token. */
  lemma LexRest(s: string, t: Token, rest: string)
    requires GetToken(s, 0) == t && t.kind != NUL && Suffix(s, t.eq, rest)
    ensures Lex(s, 0) == [LexemeOf(s, t)] + Lex(rest, 0)
  {
    Lexed(s, 0);
    Skipped(s, t.eq);
    LexShift(s, t.eq, rest, 0, t.eq);
  }

  /** Every spelling of lexemes is read as those lexemes. */
  lemma {:induction false} LexWritten(ps: seq<Piece>, end: string, ls: seq<Lexeme>)
    requires Spells(ps, end, ls)
    ensures Lex(Write(ps, end), 0) == ls
    decreases |ps|
  {
    var s := Write(ps, end);
    if ps == [] {
      SkipBlanks(s, 0, |s|);
    } else {
      LexWritten(ps[1..], end, ls[1..]);
      FirstLexeme(ps[0], ls[0], Write(ps[1..], end));
      assert ls == [ls[0]] + ls[1..];
    }
  }

  lemma FirstLexeme(p: Piece, l: Lexeme, rest: string)
    requires Writes(p, l) && Ends(p.text, rest)
    ensures Lex(p.gap + p.text + rest, 0) == [l] + Lex(rest, 0)
  {
    var s := p.gap + p.text + rest;
    FirstToken(p, l, rest);
    LexRest(s, GetToken(s, 0), rest);
  }

  /** Every line is a spelling of the lexemes it is read as. */
  lemma {:induction false} Written(s: string) returns (ps: seq<Piece>, end: string)
    requires NUL !in s
    ensures s == Write(ps, end) && Spells(ps, end, Lex(s, 0))
    decreases |s|
  {
    var t := GetToken(s, 0);
    if t.kind == NUL {
      SkippedBlanks(s, 0);
      NoToken(s);
      ps, end := [], s;
    } else {
      var p, rest := Piece(s[..t.q], s[t.q..t.eq]), s[t.eq..];
      TokenText(s);
      var more;
      more, end := Written(rest);
      LexRest(s, t, rest);
      ps := [p] + more;
      Whole(p, more, end, s, t, Lex(rest, 0));
    }
  }

  lemma NoToken(s: string)
    requires NUL !in s && GetToken(s, 0).kind == NUL
    ensures SkipSpace(s, 0) == |s|
  {
    var q := SkipSpace(s, 0);
    assert forall k :: 0 <= k < |s| ==> s[k] in s && s[k] != NUL;
  }

  lemma Whole(p: Piece, more: seq<Piece>, end: string, s: string, t: Token, ls: seq<Lexeme>)
    requires t.q <= t.eq <= |s| && p == Piece(s[..t.q], s[t.q..t.eq]) && Write(more, end) == s[t.eq..]
    requires p.text != "" && Ends(p.text, s[t.eq..]) && Writes(p, LexemeOf(s, t)) && Spells(more, end, ls)
    ensures Write([p] + more, end) == s && Spells([p] + more, end, [LexemeOf(s, t)] + ls)
  {
    assert ([p] + more)[1..] == more && ([LexemeOf(s, t)] + ls)[1..] == ls;
    assert s == s[..t.q] + s[t.q..t.eq] + s[t.eq..];
  }

  lemma {:induction false} SkippedBlanks(s: string, i: nat)
    requires i <= |s|
    ensures forall k :: i <= k < SkipSpace(s, i) ==> Blank(s[k])
    decreases |s| - i
  {
    if i < |s| && IsSpace(s[i]) {
      BlankIsSpace(s[i]);
      SkippedBlanks(s, i + 1);
    }
  }

  lemma WordIsLegal(s: string, i: nat)
    requires NUL !in s && i <= |s| && GetToken(s, i).kind == 'a'
    ensures var t := GetToken(s, i); LegalWord(s[t.q..t.eq])
  {
    var t := GetToken(s, i);
    forall c: char ensures Blank(c) <==> IsSpace(c) { BlankIsSpace(c); }
    forall c: char ensures Special(c) <==> IsSymbol(c) { BlankIsSpace(c); }
    assert forall k :: t.q <= k < t.eq ==> s[k] in s && s[k] != NUL;
  }

  lemma TokenText(s: string)
    requires NUL !in s && GetToken(s, 0).kind != NUL
    ensures var t := GetToken(s, 0);
      0 <= t.q < t.eq <= |s| && Writes(Piece(s[..t.q], s[t.q..t.eq]), LexemeOf(s, t)) && Ends(s[t.q..t.eq], s[t.eq..])
  {
    var t := GetToken(s, 0);
    SkippedBlanks(s, 0);
    forall c: char ensures Blank(c) <==> IsSpace(c) { BlankIsSpace(c); }
    forall c: char ensures Special(c) <==> IsSymbol(c) { BlankIsSpace(c); }
    if t.kind == 'a' {
      assert forall k :: t.q <= k < t.eq ==> s[k] in s && s[k] != NUL;
    }
  }
}
