/** sh.c's tokenizer, recursive-descent parser and nulterminate(), on the line in its buffer. */
module Shell {
  import opened ShellGrammar
  import opened ShellParser
  import opened ShellComplete

  /** A command and where the parser stopped, or what panic() prints. */
  datatype Outcome = Ok(cmd: Cmd, pos: nat) | Panic(message: string)

  ghost predicate NoNul(s: string) { forall k :: 0 <= k < |s| ==> s[k] != NUL }

  // ---------------------------------------------------------------- tokens of a word

  /** Words of the tokens are whole words of the line. */
  lemma {:induction false} LexWords(s: string, i: nat, w: Span)
    requires i <= |s| && Word(w) in Lex(s, i)
    ensures WholeWord(s, w)
    decreases |s| - i
  {
    var j := SkipSpace(s, i);
    var t := TokenAt(s, j);
    if Word(w) != t.0 {
      assert Word(w) in Lex(s, t.1);
      LexWords(s, t.1, w);
    }
  }

  /** The first token, by the character at which it begins. */
  lemma {:induction false} FirstToken(s: string, i: nat)
    requires i <= |s|
    ensures var ts, j := Lex(s, i), SkipSpace(s, i);
            && Lex(s, j) == ts && (ts == [] <==> j == |s|)
            && (j < |s| ==> ts == [TokenAt(s, j).0] + Lex(s, TokenAt(s, j).1) && ts[1..] == Lex(s, TokenAt(s, j).1))
            && (forall c :: IsSymbol(c) && c != '>' ==> (IsSym(ts, c) <==> j < |s| && s[j] == c))
            && (Redirects(ts) <==> j < |s| && (s[j] == '<' || s[j] == '>'))
  {
    SkipTwice(s, i);
  }

  // ---------------------------------------------------------------- gettoken and peek

  const WHITESPACE: string := [' ', '\t', '\r', '\n', VT]
  const SYMBOLS: string := "<|>&;()"

  /** The loop over white space in gettoken() and peek(). */
  method Skip(s: string, pos: nat) returns (i: nat)
    requires pos <= |s|
    ensures i == SkipSpace(s, pos)
  {
    i := pos;
    while i < |s| && s[i] in WHITESPACE
      invariant pos <= i <= |s| && SkipSpace(s, i) == SkipSpace(s, pos)
    {
      i := i + 1;
    }
  }

  /** The loop over a word in gettoken(). */
  method SkipWord(s: string, pos: nat) returns (i: nat)
    requires pos <= |s|
    ensures i == WordEnd(s, pos)
  {
    i := pos;
    while i < |s| && s[i] !in WHITESPACE && s[i] !in SYMBOLS
      invariant pos <= i <= |s| && WordEnd(s, i) == WordEnd(s, pos)
    {
      i := i + 1;
    }
  }

  /** peek(). */
  method Peek(s: string, pos: nat, toks: string) returns (b: bool, pos': nat)
    requires pos <= |s|
    ensures pos' == SkipSpace(s, pos) && (b <==> pos' < |s| && s[pos'] in toks)
  {
    pos' := Skip(s, pos);
    b := pos' < |s| && s[pos'] in toks;
  }

  /** What gettoken() returns for a token. */
  function Kind(t: Token): char { if t.Word? then 'a' else t.c }

  /** gettoken(): NUL at the end of the line, or the kind of the first token and, for a word, where it is. */
  method GetToken(s: string, pos: nat) returns (ret: char, q: nat, eq: nat, pos': nat)
    requires pos <= |s| && NoNul(s)
    ensures pos <= pos' <= |s| && (ret == NUL <==> Lex(s, pos) == [])
    ensures ret != NUL ==> pos < pos' && Lex(s, pos) != [] && ret == Kind(Lex(s, pos)[0]) && Lex(s, pos') == Lex(s, pos)[1..]
    ensures ret == 'a' <==> Lex(s, pos) != [] && Lex(s, pos)[0].Word?
    ensures ret == 'a' ==> Lex(s, pos)[0] == Word(Span(q, eq))
  {
    FirstToken(s, pos);
    var i := Skip(s, pos);
    q := i;
    if i == |s| {
      return NUL, q, i, i;
    }
    ret := s[i];
    ghost var t := TokenAt(s, i);
    if s[i] == '|' || s[i] == '(' || s[i] == ')' || s[i] == ';' || s[i] == '&' || s[i] == '<' {
      i := i + 1;
    } else if s[i] == '>' {
      i := i + 1;
      if i < |s| && s[i] == '>' {
        ret := '+';
        i := i + 1;
      }
    } else {
      ret := 'a';
      i := SkipWord(s, i);
    }
    eq := i;
    assert i == t.1;
    FirstToken(s, i);
    pos' := Skip(s, i);
  }

  // ---------------------------------------------------------------- the parser

  /** The outcome at pos is what the parser on tokens gives. */
  ghost predicate Agrees(s: string, pos: nat, r: Outcome, p: Result) {
    if r.Ok? then pos <= r.pos <= |s| && p == Parse(r.cmd, Lex(s, r.pos)) else p == Failure
  }

  lemma {:induction false} RedirsPrepend(ts: seq<Token>)
    ensures if !Redirects(ts) then RedirsOf(ts) == Redirs([], ts)
            else if |ts| < 2 || !ts[1].Word? then RedirsOf(ts) == BadRedirs
            else RedirsOf(ts) == Prepend([Redirect(Kind(ts[0]), ts[1].at)], RedirsOf(ts[2..]))
  {
  }

  /** parseredirs(): the redirections that it puts around its command. */
  method ParseRedirs(s: string, pos: nat) returns (ok: bool, rs: seq<Redirect>, pos': nat)
    requires pos <= |s| && NoNul(s)
    ensures pos <= pos' <= |s|
    ensures if ok then RedirsOf(Lex(s, pos)) == Redirs(rs, Lex(s, pos')) else RedirsOf(Lex(s, pos)) == BadRedirs
  {
    hide *;
    ghost var ts := Lex(s, pos);
    rs, pos' := [], pos;
    NoPrepend(RedirsOf(ts));
    while true
      invariant pos <= pos' <= |s| && RedirsOf(ts) == Prepend(rs, RedirsOf(Lex(s, pos')))
      decreases |s| - pos'
    {
      FirstToken(s, pos');
      ghost var us := Lex(s, pos');
      RedirsPrepend(us);
      var more;
      more, pos' := Peek(s, pos', "<>");
      if !more {
        PrependNone(rs, us);
        return true, rs, pos';
      }
      var tok, q0, eq0, p := GetToken(s, pos');
      var word, q, eq, p' := GetToken(s, p);
      if word != 'a' {
        PrependBad(rs);
        return false, rs, pos';
      }
      assert us[1..][1..] == us[2..];
      PrependTwice(rs, [Redirect(tok, Span(q, eq))], RedirsOf(Lex(s, p')));
      rs := rs + [Redirect(tok, Span(q, eq))];
      pos' := p';
    }
  }

  lemma {:induction false} PrependNone(rs: seq<Redirect>, ts: seq<Token>)
    ensures Prepend(rs, Redirs([], ts)) == Redirs(rs, ts)
  {
    assert rs + [] == rs;
  }

  lemma {:induction false} PrependBad(rs: seq<Redirect>)
    ensures Prepend(rs, BadRedirs) == BadRedirs
  {
  }

  lemma {:induction false} StopsAt(s: string, i: nat)
    requires i <= |s|
    ensures Stops(Lex(s, i)) <==> SkipSpace(s, i) == |s| || s[SkipSpace(s, i)] in "|)&;"
  {
    FirstToken(s, i);
  }

  lemma {:induction false} Agree(s: string, pos: nat, r: Outcome, p: Result)
    requires if r.Ok? then pos <= r.pos <= |s| && p == Parse(r.cmd, Lex(s, r.pos)) else p == Failure
    ensures Agrees(s, pos, r, p)
  {
  }

  lemma {:induction false} Agreed(s: string, pos: nat, r: Outcome, p: Result)
    requires Agrees(s, pos, r, p)
    ensures if r.Ok? then pos <= r.pos <= |s| && p == Parse(r.cmd, Lex(s, r.pos)) else p == Failure
  {
  }

  /** The loop of parseexec(). */
  method ParseArgs(s: string, pos: nat, rs0: seq<Redirect>, max: nat) returns (r: Outcome)
    requires pos <= |s| && NoNul(s)
    ensures Agrees(s, pos, r, ArgsOf(Lex(s, pos), [], rs0, max))
  {
    hide *;
    ghost var p := ArgsOf(Lex(s, pos), [], rs0, max);
    var argv: seq<Span>, rs, cur := [], rs0, pos;
    while true
      invariant pos <= cur <= |s| && p == ArgsOf(Lex(s, cur), argv, rs, max)
      decreases |s| - cur
    {
      ghost var ts := Lex(s, cur);
      FirstToken(s, cur);
      StopsAt(s, cur);
      ArgsCase(ts, argv, rs, max);
      var stop;
      stop, cur := Peek(s, cur, "|)&;");
      if stop { break; }
      var tok, q, eq, next := GetToken(s, cur);
      if tok == NUL { break; }
      if tok != 'a' {
        r := Panic("syntax");
        Agree(s, pos, r, p);
        return;
      }
      argv := argv + [Span(q, eq)];
      if |argv| >= max {
        r := Panic("too many args");
        Agree(s, pos, r, p);
        return;
      }
      var ok, more;
      ok, more, cur := ParseRedirs(s, next);
      if !ok {
        r := Panic("missing file for redirection");
        Agree(s, pos, r, p);
        return;
      }
      rs := rs + more;
    }
    r := Ok(Wrap(Exec(argv), rs), cur);
    Agree(s, pos, r, p);
  }

  /** parseblock(). */
  method ParseBlock(s: string, pos: nat, max: nat) returns (r: Outcome)
    requires pos <= |s| && NoNul(s) && IsSym(Lex(s, pos), '(')
    ensures Agrees(s, pos, r, ShellParser.ParseExec(Lex(s, pos), max))
    decreases |s| - pos, 0
  {
    hide *;
    ghost var ts := Lex(s, pos);
    BlockCase(ts, max);
    var t, q, eq, p := GetToken(s, pos);
    r := ParseLine(s, p, max);
    Agreed(s, p, r, ShellParser.ParseLine(ts[1..], max));
    if r.Panic? {
      Agree(s, pos, r, ShellParser.ParseExec(ts, max));
      return;
    }
    FirstToken(s, r.pos);
    CloseSymbol();
    var cmd, close := r.cmd, r.pos;
    var closed, at := Peek(s, close, ")");
    if !closed {
      r := Panic("syntax - missing )");
      Agree(s, pos, r, ShellParser.ParseExec(ts, max));
      return;
    }
    var t2, q2, eq2, p2 := GetToken(s, at);
    var ok, rs, end := ParseRedirs(s, p2);
    r := if ok then Ok(Wrap(cmd, rs), end) else Panic("missing file for redirection");
    Agree(s, pos, r, ShellParser.ParseExec(ts, max));
  }

  lemma {:induction false} CloseSymbol()
    ensures IsSymbol(')') && IsSymbol('(') && IsSymbol('|') && IsSymbol('&') && IsSymbol(';')
  {
  }

  /** parseexec(). */
  method ParseExec(s: string, pos: nat, max: nat) returns (r: Outcome)
    requires pos <= |s| && NoNul(s)
    ensures Agrees(s, pos, r, ShellParser.ParseExec(Lex(s, pos), max))
    decreases |s| - pos, 1
  {
    hide *;
    ghost var ts := Lex(s, pos);
    FirstToken(s, pos);
    CloseSymbol();
    var block, at := Peek(s, pos, "(");
    if block {
      r := ParseBlock(s, at, max);
      Agreed(s, at, r, ShellParser.ParseExec(ts, max));
      Agree(s, pos, r, ShellParser.ParseExec(ts, max));
      return;
    }
    ExecCase(ts, max);
    var ok, rs, p := ParseRedirs(s, at);
    if !ok {
      r := Panic("missing file for redirection");
    } else {
      r := ParseArgs(s, p, rs, max);
      Agreed(s, p, r, ArgsOf(RedirsOf(ts).rest, [], RedirsOf(ts).rs, max));
    }
    Agree(s, pos, r, ShellParser.ParseExec(ts, max));
  }

  /** parsepipe(). */
  method ParsePipe(s: string, pos: nat, max: nat) returns (r: Outcome)
    requires pos <= |s| && NoNul(s)
    ensures Agrees(s, pos, r, ShellParser.ParsePipe(Lex(s, pos), max))
    decreases |s| - pos, 2
  {
    hide *;
    ghost var ts := Lex(s, pos);
    PipeCase(ts, max);
    CloseSymbol();
    r := ParseExec(s, pos, max);
    Agreed(s, pos, r, ShellParser.ParseExec(ts, max));
    if r.Panic? {
      Agree(s, pos, r, ShellParser.ParsePipe(ts, max));
      return;
    }
    FirstToken(s, r.pos);
    var left := r.cmd;
    var more, at := Peek(s, r.pos, "|");
    if more {
      var t, q, eq, p := GetToken(s, at);
      r := ParsePipe(s, p, max);
      Agreed(s, p, r, ShellParser.ParsePipe(Lex(s, p), max));
      if r.Ok? { r := Ok(Pipe(left, r.cmd), r.pos); }
    } else {
      r := Ok(left, at);
    }
    Agree(s, pos, r, ShellParser.ParsePipe(ts, max));
  }

  /** The loop of parseline(). */
  method ParseAmps(s: string, pos: nat, c: Cmd) returns (cmd: Cmd, pos': nat)
    requires pos <= |s| && NoNul(s)
    ensures pos <= pos' <= |s| && SkipAmps(c, Lex(s, pos)) == Parse(cmd, Lex(s, pos'))
  {
    hide *;
    CloseSymbol();
    cmd, pos' := c, pos;
    while true
      invariant pos <= pos' <= |s| && SkipAmps(c, Lex(s, pos)) == SkipAmps(cmd, Lex(s, pos'))
      decreases |s| - pos'
    {
      FirstToken(s, pos');
      AmpsCase(cmd, Lex(s, pos'));
      var more;
      more, pos' := Peek(s, pos', "&");
      if !more { return; }
      var t, q, eq, p := GetToken(s, pos');
      cmd, pos' := Back(cmd), p;
    }
  }

  /** parseline(). */
  method ParseLine(s: string, pos: nat, max: nat) returns (r: Outcome)
    requires pos <= |s| && NoNul(s)
    ensures Agrees(s, pos, r, ShellParser.ParseLine(Lex(s, pos), max))
    decreases |s| - pos, 3
  {
    hide *;
    ghost var ts := Lex(s, pos);
    LineCase(ts, max);
    CloseSymbol();
    r := ParsePipe(s, pos, max);
    Agreed(s, pos, r, ShellParser.ParsePipe(ts, max));
    if r.Panic? {
      Agree(s, pos, r, ShellParser.ParseLine(ts, max));
      return;
    }
    var left, end := ParseAmps(s, r.pos, r.cmd);
    FirstToken(s, end);
    var more, at := Peek(s, end, ";");
    if more {
      var t, q, eq, p := GetToken(s, at);
      r := ParseLine(s, p, max);
      Agreed(s, p, r, ShellParser.ParseLine(Lex(s, p), max));
      if r.Ok? { r := Ok(List(left, r.cmd), r.pos); }
    } else {
      r := Ok(left, at);
    }
    Agree(s, pos, r, ShellParser.ParseLine(ts, max));
  }

  // ---------------------------------------------------------------- words of a tree

  ghost predicate Among(ws: set<Span>, ts: seq<Token>) { forall w :: w in ws ==> Word(w) in ts }

  lemma {:induction false} SimpleWords(argv: seq<Span>, rs: seq<Redirect>, u: seq<Token>)
    requires Simple(argv, rs, u)
    ensures (forall k :: 0 <= k < |argv| ==> Word(argv[k]) in u) && (forall k :: 0 <= k < |rs| ==> Word(rs[k].file) in u)
    decreases |u|
  {
    hide Simple;
    if u == [] {
      SimpleEmpty(argv, rs);
    } else {
      var isWord, v := SimpleEnd(argv, rs, u);
      if isWord { SimpleWords(argv[..|argv| - 1], rs, v); } else { SimpleWords(argv, rs[..|rs| - 1], v); }
    }
  }

  lemma {:induction false} WrapWords(c: Cmd, rs: seq<Redirect>, ts: seq<Token>)
    requires Among(Words(c), ts) && forall k :: 0 <= k < |rs| ==> Word(rs[k].file) in ts
    ensures Among(Words(Wrap(c, rs)), ts)
    decreases |rs|
  {
    if rs != [] { WrapWords(c, rs[..|rs| - 1], ts); }
  }

  lemma {:induction false} AmongMore(ws: set<Span>, ts: seq<Token>, us: seq<Token>)
    requires Among(ws, ts) && forall t :: t in ts ==> t in us
    ensures Among(ws, us)
  {
  }

  lemma {:induction false} ExecWords(c: Cmd, u: seq<Token>)
    requires ExecOf(c, u)
    ensures Among(Words(c), u)
    decreases |u|, 0
  {
    hide ExecOf, LineOf, Simple, Wrap;
    var one, argv, inner, rs, t1, t2 := ExecSplit(c, u);
    if one {
      SimpleWords(argv, rs, u);
      WrapWords(Exec(argv), rs, u);
    } else {
      LineWords(inner, t1);
      AmongMore(Words(inner), t1, u);
      SimpleWords([], rs, t2);
      WrapWords(inner, rs, u);
    }
  }

  lemma {:induction false} PipeWords(c: Cmd, u: seq<Token>)
    requires PipeOf(c, u)
    ensures Among(Words(c), u)
    decreases |u|, 1
  {
    hide ExecOf, PipeOf;
    var one, v, w := PipeSplit(c, u);
    if one {
      ExecWords(c, u);
    } else {
      ExecWords(c.left, v);
      PipeWords(c.right, w);
    }
  }

  lemma {:induction false} BacksWords(c: Cmd, n: nat)
    ensures Words(Backs(c, n)) == Words(c)
  {
    if n > 0 { BacksWords(c, n - 1); }
  }

  /** The words of a tree are words of the line. */
  lemma {:induction false} LineWords(c: Cmd, u: seq<Token>)
    requires LineOf(c, u)
    ensures Among(Words(c), u)
    decreases |u|, 2
  {
    hide LineOf, BackOf, PipeOf;
    var one, v, w := LineSplit(c, u);
    var b, bu := if one then c else c.left, if one then u else v;
    var p, x, amps := BackSplit(b, bu);
    PipeWords(p, x);
    BacksWords(p, |amps|);
    if !one { LineWords(c.right, w); }
  }

  // ---------------------------------------------------------------- nulterminate

  /** Where nulterminate() writes. */
  ghost function Ends(c: Cmd): set<int> {
    set w | w in Words(c) :: w.eq
  }

  ghost predicate Nulled(b: seq<char>, b': seq<char>, at: set<int>) {
    |b'| == |b| && forall k :: 0 <= k < |b| ==> b'[k] == if k in at then NUL else b[k]
  }

  lemma {:induction false} NulledTwice(b: seq<char>, b1: seq<char>, b2: seq<char>, s1: set<int>, s2: set<int>)
    requires Nulled(b, b1, s1) && Nulled(b1, b2, s2)
    ensures Nulled(b, b2, s1 + s2)
  {
  }

  lemma {:induction false} EndsOf(c: Cmd)
    ensures c.Redir? ==> Ends(c) == Ends(c.cmd) + {c.redirect.file.eq}
    ensures c.Pipe? || c.List? ==> Ends(c) == Ends(c.left) + Ends(c.right)
    ensures c.Back? ==> Ends(c) == Ends(c.cmd)
  {
  }

  /** The loop of nulterminate() over argv. */
  method TerminateArgs(argv: seq<Span>, buf: array<char>)
    requires forall k :: 0 <= k < |argv| ==> 0 <= argv[k].eq < buf.Length
    modifies buf
    ensures Nulled(old(buf[..]), buf[..], set k | 0 <= k < |argv| :: argv[k].eq)
  {
    var i := 0;
    while i < |argv|
      invariant 0 <= i <= |argv|
      invariant Nulled(old(buf[..]), buf[..], set k | 0 <= k < i :: argv[k].eq)
    {
      buf[argv[i].eq] := NUL;
      i := i + 1;
    }
  }

  /** nulterminate(): a NUL at the end of every word of the tree, and no other change. */
  method NulTerminate(c: Cmd, buf: array<char>)
    requires forall w :: w in Words(c) ==> 0 <= w.eq < buf.Length
    modifies buf
    ensures Nulled(old(buf[..]), buf[..], Ends(c))
    decreases c
  {
    ghost var b := buf[..];
    EndsOf(c);
    match c
    case Exec(argv) =>
      TerminateArgs(argv, buf);
      ArgvEnds(argv);
    case Redir(d, r) =>
      NulTerminate(d, buf);
      ghost var b1 := buf[..];
      buf[r.file.eq] := NUL;
      NulledTwice(b, b1, buf[..], Ends(d), {r.file.eq});
    case Pipe(l, r) =>
      NulTerminate(l, buf);
      ghost var b1 := buf[..];
      NulTerminate(r, buf);
      NulledTwice(b, b1, buf[..], Ends(l), Ends(r));
    case List(l, r) =>
      NulTerminate(l, buf);
      ghost var b1 := buf[..];
      NulTerminate(r, buf);
      NulledTwice(b, b1, buf[..], Ends(l), Ends(r));
    case Back(d) =>
      NulTerminate(d, buf);
  }

  lemma {:induction false} ArgvEnds(argv: seq<Span>)
    ensures Ends(Exec(argv)) == set k | 0 <= k < |argv| :: argv[k].eq
  {
    forall k | 0 <= k < |argv| ensures argv[k] in Words(Exec(argv)) {
    }
  }

  /** The string at q, up to the next NUL. */
  function CString(b: seq<char>, q: nat): string
    decreases |b| - q
  {
    if q >= |b| || b[q] == NUL then "" else [b[q]] + CString(b, q + 1)
  }

  lemma {:induction false} CStringIs(b: seq<char>, q: nat, eq: nat)
    requires q <= eq < |b| && b[eq] == NUL && forall k :: q <= k < eq ==> b[k] != NUL
    ensures CString(b, q) == b[q..eq]
    decreases eq - q
  {
    if q < eq {
      CStringIs(b, q + 1, eq);
      assert b[q..eq] == [b[q]] + b[q + 1..eq];
    }
  }

  /** After nulterminate() every word of the tree reads back as itself: no NUL lands inside any of them. */
  lemma {:induction false} ReadsBack(s: string, b: seq<char>, b': seq<char>, c: Cmd, w: Span)
    requires NoNul(s) && |b| > |s| && b[..|s|] == s && TreeOk(s, c) && Nulled(b, b', Ends(c)) && w in Words(c)
    ensures 0 <= w.q < w.eq <= |s| && CString(b', w.q) == s[w.q..w.eq]
  {
    assert WholeWord(s, w);
    assert w.eq in Ends(c);
    forall k | w.q <= k < w.eq ensures b'[k] == s[k] {
      assert b[k] == s[k];
      forall v | v in Words(c) ensures v.eq != k {
        assert WholeWord(s, v);
      }
    }
    CStringIs(b', w.q, w.eq);
    assert b'[w.q..w.eq] == s[w.q..w.eq];
  }

  // ---------------------------------------------------------------- parsecmd

  /** strlen(). */
  method Strlen(buf: array<char>) returns (n: nat)
    requires exists k :: 0 <= k < buf.Length && buf[k] == NUL
    ensures n < buf.Length && buf[n] == NUL && NoNul(buf[..n])
  {
    n := 0;
    while buf[n] != NUL
      invariant 0 <= n < buf.Length && NoNul(buf[..n])
      invariant exists k :: n <= k < buf.Length && buf[k] == NUL
      decreases buf.Length - n
    {
      n := n + 1;
    }
  }

  /** The line up to its NUL has a tree in which no command has too many words. */
  ghost predicate Means(s: string, c: Cmd, max: nat) { LineOf(c, Lex(s, 0)) && ArgsFit(c, max) }

  lemma {:induction false} TreeWords(s: string, c: Cmd, max: nat)
    requires Means(s, c, max)
    ensures TreeOk(s, c)
  {
    hide LineOf, Lex, ArgsFit, Words, WholeWord;
    LineWords(c, Lex(s, 0));
    forall w | w in Words(c) ensures WholeWord(s, w) {
      LexWords(s, 0, w);
    }
  }

  /** parsecmd(): it succeeds if and only if the line means something, and then it has the tree that the line means, each of
      whose words is a C string in the buffer. */
  method ParseCmd(buf: array<char>, max: nat) returns (r: Outcome, ghost s: string)
    requires max > 0 && exists k :: 0 <= k < buf.Length && buf[k] == NUL
    modifies buf
    ensures NoNul(s) && |s| < buf.Length && old(buf[..])[..|s|] == s && old(buf[..])[|s|] == NUL
    ensures r.Ok? ==> Means(s, r.cmd, max) && Nulled(old(buf[..]), buf[..], Ends(r.cmd))
    ensures r.Ok? ==> forall w :: w in Words(r.cmd) ==> 0 <= w.q < w.eq <= |s| && CString(buf[..], w.q) == s[w.q..w.eq]
    ensures r.Panic? ==> buf[..] == old(buf[..]) && forall c :: !Means(s, c, max)
  {
    hide Lex, LineOf, ArgsFit, Words, CString, WholeWord;
    var n := Strlen(buf);
    var line := buf[..n];
    s := line;
    r := ParseLine(line, 0, max);
    ghost var ts := Lex(s, 0);
    Agreed(s, 0, r, ShellParser.ParseLine(ts, max));
    if r.Panic? {
      forall c ensures !Means(s, c, max) {
        ParsesIff(ts, c, max);
      }
      return;
    }
    FirstToken(line, r.pos);
    var more, at := Peek(line, r.pos, "");
    if at != n {
      forall c ensures !Means(s, c, max) {
        ParsesIff(ts, c, max);
      }
      r := Panic("syntax");
      return;
    }
    ParsesIff(ts, r.cmd, max);
    TreeWords(s, r.cmd, max);
    EndsFit(s, r.cmd);
    ghost var b := buf[..];
    NulTerminate(r.cmd, buf);
    forall w | w in Words(r.cmd) ensures 0 <= w.q < w.eq <= |s| && CString(buf[..], w.q) == s[w.q..w.eq] {
      ReadsBack(s, b, buf[..], r.cmd, w);
    }
  }

  lemma {:induction false} EndsFit(s: string, c: Cmd)
    requires TreeOk(s, c)
    ensures forall w :: w in Words(c) ==> 0 <= w.eq <= |s|
  {
    hide Words;
    forall w | w in Words(c) ensures 0 <= w.eq <= |s| {
      assert WholeWord(s, w);
    }
  }
}
