/** The language of the shell: tokens, command trees, and which trees a line means. */
module ShellGrammar {

  const NUL := 0 as char
  const VT := 11 as char

  predicate IsSpace(c: char) { c == ' ' || c == '\t' || c == '\r' || c == '\n' || c == VT }

  predicate IsSymbol(c: char) { c == '<' || c == '|' || c == '>' || c == '&' || c == ';' || c == '(' || c == ')' }

  predicate IsWord(c: char) { !IsSpace(c) && !IsSymbol(c) }

  /** A place in the line, from q up to but without eq. */
  datatype Span = Span(q: int, eq: int)

  /** A word, or a symbol; '+' stands for >>. */
  datatype Token = Word(at: Span) | Sym(c: char)

  // ---------------------------------------------------------------- tokens

  function SkipSpace(s: string, i: nat): (j: nat)
    requires i <= |s|
    ensures i <= j <= |s| && (j < |s| ==> !IsSpace(s[j]))
    decreases |s| - i
  {
    if i < |s| && IsSpace(s[i]) then SkipSpace(s, i + 1) else i
  }

  function WordEnd(s: string, i: nat): (j: nat)
    requires i <= |s|
    ensures i <= j <= |s| && (j < |s| ==> !IsWord(s[j])) && (forall k :: i <= k < j ==> IsWord(s[k]))
    decreases |s| - i
  {
    if i < |s| && IsWord(s[i]) then WordEnd(s, i + 1) else i
  }

  /** The token at i, and where it ends. */
  function TokenAt(s: string, i: nat): (r: (Token, nat))
    requires i < |s| && !IsSpace(s[i])
    ensures i < r.1 <= |s|
  {
    if s[i] == '>' then if i + 1 < |s| && s[i + 1] == '>' then (Sym('+'), i + 2) else (Sym('>'), i + 1)
    else if IsSymbol(s[i]) then (Sym(s[i]), i + 1)
    else (Word(Span(i, WordEnd(s, i))), WordEnd(s, i))
  }

  /** The tokens of the line from i on. */
  function Lex(s: string, i: nat): seq<Token>
    requires i <= |s|
    decreases |s| - i
  {
    var j := SkipSpace(s, i);
    if j == |s| then [] else [TokenAt(s, j).0] + Lex(s, TokenAt(s, j).1)
  }

  lemma {:induction false} SkipTwice(s: string, i: nat)
    requires i <= |s|
    ensures SkipSpace(s, SkipSpace(s, i)) == SkipSpace(s, i)
    ensures Lex(s, SkipSpace(s, i)) == Lex(s, i)
  {
  }

  /** What a token looks like in the line. */
  function Spelling(s: string, t: Token): string
    requires t.Word? ==> 0 <= t.at.q <= t.at.eq <= |s|
  {
    match t
    case Word(at) => s[at.q..at.eq]
    case Sym(c) => if c == '+' then ">>" else [c]
  }

  function Inked(s: string): string {
    if s == "" then "" else if IsSpace(s[0]) then Inked(s[1..]) else [s[0]] + Inked(s[1..])
  }

  ghost predicate TokensIn(s: string, ts: seq<Token>) {
    forall k :: 0 <= k < |ts| && ts[k].Word? ==> 0 <= ts[k].at.q <= ts[k].at.eq <= |s|
  }

  function Spelled(s: string, ts: seq<Token>): string
    requires TokensIn(s, ts)
  {
    if ts == [] then "" else Spelling(s, ts[0]) + Spelled(s, ts[1..])
  }

  lemma {:induction false} InkedJoin(a: string, b: string)
    ensures Inked(a + b) == Inked(a) + Inked(b)
  {
    if a == "" {
      assert a + b == b;
    } else {
      assert (a + b)[1..] == a[1..] + b && (a + b)[0] == a[0];
      InkedJoin(a[1..], b);
    }
  }

  lemma {:induction false} InkedAll(s: string)
    requires forall k :: 0 <= k < |s| ==> !IsSpace(s[k])
    ensures Inked(s) == s
  {
    if s != "" { InkedAll(s[1..]); }
  }

  lemma {:induction false} InkedSkip(s: string, i: nat)
    requires i <= |s|
    ensures Inked(s[i..]) == Inked(s[SkipSpace(s, i)..])
    decreases |s| - i
  {
    if i < |s| && IsSpace(s[i]) {
      InkedSkip(s, i + 1);
      assert s[i..][1..] == s[i + 1..];
    }
  }

  /** The tokens spell the line, white space aside; nothing is lost, added or moved. */
  lemma {:induction false} LexSpells(s: string, i: nat)
    requires i <= |s|
    ensures TokensIn(s, Lex(s, i)) && Spelled(s, Lex(s, i)) == Inked(s[i..])
    decreases |s| - i
  {
    var j := SkipSpace(s, i);
    InkedSkip(s, i);
    if j < |s| {
      var t, e := TokenAt(s, j).0, TokenAt(s, j).1;
      TokenSpells(s, j);
      assert Lex(s, i) == [t] + Lex(s, e);
      hide TokenAt, Inked, Spelling, Lex, SkipSpace;
      LexSpells(s, e);
      SpelledCons(s, t, Lex(s, e));
    } else {
      assert s[j..] == "";
    }
  }

  lemma {:induction false} SpelledCons(s: string, t: Token, ts: seq<Token>)
    requires TokensIn(s, ts) && (t.Word? ==> 0 <= t.at.q <= t.at.eq <= |s|)
    ensures TokensIn(s, [t] + ts) && Spelled(s, [t] + ts) == Spelling(s, t) + Spelled(s, ts)
  {
    hide Spelling;
    assert ([t] + ts)[1..] == ts;
  }

  lemma {:induction false} TokenSpells(s: string, j: nat)
    requires j < |s| && !IsSpace(s[j])
    ensures var t, e := TokenAt(s, j).0, TokenAt(s, j).1;
            && (t.Word? ==> 0 <= t.at.q <= t.at.eq <= |s|) && Inked(s[j..]) == Spelling(s, t) + Inked(s[e..])
  {
    var t, e := TokenAt(s, j).0, TokenAt(s, j).1;
    assert Spelling(s, t) == s[j..e];
    assert forall k :: 0 <= k < |s[j..e]| ==> !IsSpace(s[j..e][k]);
    hide TokenAt, Spelling, Inked;
    assert s[j..] == s[j..e] + s[e..];
    InkedJoin(s[j..e], s[e..]);
    InkedAll(s[j..e]);
  }

  /** Tokens are as long as they can be: a word ends at white space, a symbol or the end, and > is never followed by >. */
  lemma {:induction false} LongestTokens(s: string, i: nat)
    requires i < |s| && !IsSpace(s[i])
    ensures var t, e := TokenAt(s, i).0, TokenAt(s, i).1;
            && (t.Word? ==> t.at == Span(i, e) && WholeWord(s, t.at)) && (t == Sym('>') && e < |s| ==> s[e] != '>')
            && (t.Word? <==> IsWord(s[i]))
  {
  }

  // ---------------------------------------------------------------- commands

  /** A redirection: its symbol and its file. */
  datatype Redirect = Redirect(c: char, file: Span)

  datatype Cmd =
    | Exec(argv: seq<Span>)
    | Redir(cmd: Cmd, redirect: Redirect)
    | Pipe(left: Cmd, right: Cmd)
    | List(left: Cmd, right: Cmd)
    | Back(cmd: Cmd)

  /** Redirections are put around a command one after the other. */
  function Wrap(c: Cmd, rs: seq<Redirect>): Cmd {
    if rs == [] then c else Redir(Wrap(c, rs[..|rs| - 1]), rs[|rs| - 1])
  }

  function Backs(c: Cmd, n: nat): Cmd {
    if n == 0 then c else Back(Backs(c, n - 1))
  }

  predicate IsRedirect(c: char) { c == '<' || c == '>' || c == '+' }

  // ---------------------------------------------------------------- grammar

  /** The tokens are words and redirections, in this order each. */
  ghost predicate Simple(argv: seq<Span>, rs: seq<Redirect>, ts: seq<Token>)
    decreases |ts|
  {
    if ts == [] then argv == [] && rs == []
    else
      var n := |ts|;
      || (argv != [] && ts[n - 1] == Word(argv[|argv| - 1]) && Simple(argv[..|argv| - 1], rs, ts[..n - 1]))
      || (rs != [] && n >= 2 && IsRedirect(rs[|rs| - 1].c) && ts[n - 2] == Sym(rs[|rs| - 1].c) && ts[n - 1] == Word(rs[|rs| - 1].file)
          && Simple(argv, rs[..|rs| - 1], ts[..n - 2]))
  }

  /** exec ::= (word | redirection)*  |  '(' line ')' redirection* */
  ghost predicate ExecOf(c: Cmd, ts: seq<Token>)
    decreases |ts|, 0
  {
    || (exists argv, rs :: c == Wrap(Exec(argv), rs) && Simple(argv, rs, ts))
    || (exists inner, rs, k :: 1 <= k < |ts| && ts[0] == Sym('(') && ts[k] == Sym(')') && c == Wrap(inner, rs)
                               && LineOf(inner, ts[1..k]) && Simple([], rs, ts[k + 1..]))
  }

  /** pipe ::= exec ['|' pipe] */
  ghost predicate PipeOf(c: Cmd, ts: seq<Token>)
    decreases |ts|, 1
  {
    || ExecOf(c, ts)
    || (c.Pipe? && exists k :: 0 <= k < |ts| && ts[k] == Sym('|') && ExecOf(c.left, ts[..k]) && PipeOf(c.right, ts[k + 1..]))
  }

  ghost predicate AllAmps(ts: seq<Token>) { forall k :: 0 <= k < |ts| ==> ts[k] == Sym('&') }

  /** A pipe and what makes it run in the background. */
  ghost predicate BackOf(c: Cmd, ts: seq<Token>)
    decreases |ts|, 2
  {
    exists p, k :: 0 <= k <= |ts| && PipeOf(p, ts[..k]) && AllAmps(ts[k..]) && c == Backs(p, |ts| - k)
  }

  /** line ::= pipe '&'* [';' line] */
  ghost predicate LineOf(c: Cmd, ts: seq<Token>)
    decreases |ts|, 3
  {
    || BackOf(c, ts)
    || (c.List? && exists k :: 0 <= k < |ts| && ts[k] == Sym(';') && BackOf(c.left, ts[..k]) && LineOf(c.right, ts[k + 1..]))
  }

  // ---------------------------------------------------------------- words of a tree

  /** All words of a tree, those of redirections too. */
  function Words(c: Cmd): set<Span> {
    match c
    case Exec(argv) => set k | 0 <= k < |argv| :: argv[k]
    case Redir(d, r) => Words(d) + {r.file}
    case Pipe(l, r) => Words(l) + Words(r)
    case List(l, r) => Words(l) + Words(r)
    case Back(d) => Words(d)
  }

  /** A longest run of word characters of the line. */
  ghost predicate WholeWord(s: string, w: Span) {
    && 0 <= w.q < w.eq <= |s| && (forall k :: w.q <= k < w.eq ==> IsWord(s[k])) && (w.eq < |s| ==> !IsWord(s[w.eq]))
  }

  ghost predicate TreeOk(s: string, c: Cmd) { forall w :: w in Words(c) ==> WholeWord(s, w) }
}
