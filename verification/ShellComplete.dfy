/** The parser of sh.c finds every tree that the grammar allows, and only one for a line. */
module ShellComplete {
  import opened ShellGrammar
  import opened ShellParser

  /** No command has max words or more. */
  predicate ArgsFit(c: Cmd, max: nat) {
    match c
    case Exec(argv) => |argv| < max
    case Redir(d, _) => ArgsFit(d, max)
    case Pipe(l, r) => ArgsFit(l, max) && ArgsFit(r, max)
    case List(l, r) => ArgsFit(l, max) && ArgsFit(r, max)
    case Back(d) => ArgsFit(d, max)
  }

  lemma {:induction false} WrapFits(c: Cmd, rs: seq<Redirect>, max: nat)
    ensures ArgsFit(Wrap(c, rs), max) <==> ArgsFit(c, max)
    decreases |rs|
  {
    if rs != [] { WrapFits(c, rs[..|rs| - 1], max); }
  }

  lemma {:induction false} BacksFit(c: Cmd, n: nat, max: nat)
    ensures ArgsFit(Backs(c, n), max) <==> ArgsFit(c, max)
  {
    if n > 0 { BacksFit(c, n - 1, max); }
  }

  // ---------------------------------------------------------------- simple commands

  function Prepend(rs: seq<Redirect>, r: Redirs): Redirs {
    if r.BadRedirs? then r else Redirs(rs + r.rs, r.rest)
  }

  lemma {:induction false} RedirsCons(x: Redirect, ts: seq<Token>)
    requires IsRedirect(x.c)
    ensures RedirsOf([Sym(x.c), Word(x.file)] + ts) == Prepend([x], RedirsOf(ts))
  {
    var us := [Sym(x.c), Word(x.file)] + ts;
    assert us[2..] == ts;
  }

  lemma {:induction false} PrependTwice(a: seq<Redirect>, b: seq<Redirect>, r: Redirs)
    ensures Prepend(a, Prepend(b, r)) == Prepend(a + b, r)
  {
    if r.Redirs? { assert a + (b + r.rs) == a + b + r.rs; }
  }

  /** The end of a simple command: a word, or a redirection. */
  lemma {:induction false} SimpleEnd(argv: seq<Span>, rs: seq<Redirect>, u: seq<Token>) returns (isWord: bool, v: seq<Token>)
    requires Simple(argv, rs, u) && u != []
    ensures |v| < |u|
    ensures isWord ==> argv != [] && u == v + [Word(argv[|argv| - 1])] && Simple(argv[..|argv| - 1], rs, v)
    ensures !isWord ==> rs != [] && IsRedirect(rs[|rs| - 1].c) && u == v + [Sym(rs[|rs| - 1].c), Word(rs[|rs| - 1].file)] && Simple(argv, rs[..|rs| - 1], v)
  {
    var n := |u|;
    isWord := argv != [] && u[n - 1] == Word(argv[|argv| - 1]) && Simple(argv[..|argv| - 1], rs, u[..n - 1]);
    v := if isWord then u[..n - 1] else u[..n - 2];
    assert u == u[..n - 1] + [u[n - 1]];
    if !isWord { assert u == u[..n - 2] + [u[n - 2], u[n - 1]]; }
  }

  lemma {:induction false} RedirsAppend(rs: seq<Redirect>, u: seq<Token>, ts: seq<Token>)
    requires Simple([], rs, u)
    ensures RedirsOf(u + ts) == Prepend(rs, RedirsOf(ts))
    decreases |u|
  {
    hide Simple, RedirsOf;
    if u == [] {
      assert rs == [] by { SimpleEmpty([], rs); }
      assert u + ts == ts;
      NoPrepend(RedirsOf(ts));
    } else {
      var isWord, v := SimpleEnd([], rs, u);
      var x, rs' := rs[|rs| - 1], rs[..|rs| - 1];
      var two := [Sym(x.c), Word(x.file)];
      RedirsAppend(rs', v, two + ts);
      assert u + ts == v + (two + ts);
      RedirsCons(x, ts);
      PrependTwice(rs', [x], RedirsOf(ts));
      assert rs' + [x] == rs;
    }
  }

  lemma {:induction false} NoPrepend(r: Redirs)
    ensures Prepend([], r) == r
  {
    if r.Redirs? { assert [] + r.rs == r.rs; }
  }

  lemma {:induction false} SimpleEmpty(argv: seq<Span>, rs: seq<Redirect>)
    requires Simple(argv, rs, [])
    ensures argv == [] && rs == []
  {
  }

  /** parseexec() without parentheses, after some words and redirections. */
  function SimpleFrom(ts: seq<Token>, argv: seq<Span>, rs: seq<Redirect>, max: nat): Result {
    var r := RedirsOf(ts);
    if r.BadRedirs? then Failure else ArgsOf(r.rest, argv, rs + r.rs, max)
  }

  lemma {:induction false} FromWord(w: Span, ts: seq<Token>, argv: seq<Span>, rs: seq<Redirect>, max: nat)
    requires |argv| + 1 < max
    ensures SimpleFrom([Word(w)] + ts, argv, rs, max) == SimpleFrom(ts, argv + [w], rs, max)
  {
    var us := [Word(w)] + ts;
    assert us[1..] == ts;
    assert rs + [] == rs;
  }

  lemma {:induction false} FromRedirect(x: Redirect, ts: seq<Token>, argv: seq<Span>, rs: seq<Redirect>, max: nat)
    requires IsRedirect(x.c)
    ensures SimpleFrom([Sym(x.c), Word(x.file)] + ts, argv, rs, max) == SimpleFrom(ts, argv, rs + [x], max)
  {
    RedirsCons(x, ts);
    var r := RedirsOf(ts);
    if r.Redirs? { assert rs + ([x] + r.rs) == rs + [x] + r.rs; }
    hide RedirsOf, ArgsOf;
  }

  lemma {:induction false} FromSimple(argv: seq<Span>, rs: seq<Redirect>, u: seq<Token>, ts: seq<Token>, max: nat)
    requires Simple(argv, rs, u) && |argv| < max
    ensures SimpleFrom(u + ts, [], [], max) == SimpleFrom(ts, argv, rs, max)
    decreases |u|
  {
    hide Simple, SimpleFrom;
    if u == [] {
      SimpleEmpty(argv, rs);
      assert u + ts == ts;
    } else {
      var isWord, v := SimpleEnd(argv, rs, u);
      if isWord {
        var w, a := argv[|argv| - 1], argv[..|argv| - 1];
        FromSimple(a, rs, v, [Word(w)] + ts, max);
        assert u + ts == v + ([Word(w)] + ts);
        FromWord(w, ts, a, rs, max);
        assert a + [w] == argv;
      } else {
        var x, q := rs[|rs| - 1], rs[..|rs| - 1];
        FromSimple(argv, q, v, [Sym(x.c), Word(x.file)] + ts, max);
        assert u + ts == v + ([Sym(x.c), Word(x.file)] + ts);
        FromRedirect(x, ts, argv, q, max);
        assert q + [x] == rs;
      }
    }
  }

  lemma {:induction false} SimpleFirst(argv: seq<Span>, rs: seq<Redirect>, u: seq<Token>)
    requires Simple(argv, rs, u) && u != []
    ensures u[0] != Sym('(')
    decreases |u|
  {
    hide Simple;
    var isWord, v := SimpleEnd(argv, rs, u);
    if v == [] {
      assert isWord || u[0] == Sym(rs[|rs| - 1].c);
    } else {
      if isWord { SimpleFirst(argv[..|argv| - 1], rs, v); } else { SimpleFirst(argv, rs[..|rs| - 1], v); }
      assert u[0] == v[0];
    }
  }

  // ---------------------------------------------------------------- completeness

  lemma {:induction false} StopsRedirs(ts: seq<Token>)
    requires Stops(ts)
    ensures RedirsOf(ts) == Redirs([], ts)
  {
  }

  lemma {:induction false} SimpleComplete(argv: seq<Span>, rs: seq<Redirect>, u: seq<Token>, ts: seq<Token>, max: nat)
    requires Simple(argv, rs, u) && |argv| < max && Stops(ts)
    ensures ParseExec(u + ts, max) == Parse(Wrap(Exec(argv), rs), ts)
  {
    FromSimple(argv, rs, u, ts, max);
    StopsRedirs(ts);
    if u != [] { SimpleFirst(argv, rs, u); }
    assert !IsSym(u + ts, '(') by { hide Simple; if u == [] { assert u + ts == ts; } else { assert (u + ts)[0] == u[0]; } }
    assert rs + [] == rs;
    hide Simple, RedirsOf;
    var r := RedirsOf(u + ts);
    assert SimpleFrom(u + ts, [], [], max) == if r.BadRedirs? then Failure else ArgsOf(r.rest, [], r.rs, max) by {
      if r.Redirs? { assert [] + r.rs == r.rs; }
    }
  }

  lemma {:induction false} BlockParses(us: seq<Token>, inner: Cmd, mid: seq<Token>, rs: seq<Redirect>, ts: seq<Token>, max: nat)
    requires us != [] && us[0] == Sym('(') && mid != [] && mid[0] == Sym(')')
    requires ParseLine(us[1..], max) == Parse(inner, mid) && RedirsOf(mid[1..]) == Redirs(rs, ts)
    ensures ParseExec(us, max) == Parse(Wrap(inner, rs), ts)
  {
    hide ParseLine, RedirsOf, Wrap;
  }

  lemma {:induction false} PrependStops(rs: seq<Redirect>, ts: seq<Token>)
    requires Stops(ts)
    ensures Prepend(rs, RedirsOf(ts)) == Redirs(rs, ts)
  {
    StopsRedirs(ts);
    assert rs + [] == rs;
  }

  lemma {:induction false} BlockComplete(inner: Cmd, rs: seq<Redirect>, t1: seq<Token>, t2: seq<Token>, ts: seq<Token>, max: nat)
    requires ParseLine(t1 + ([Sym(')')] + (t2 + ts)), max) == Parse(inner, [Sym(')')] + (t2 + ts)) && Simple([], rs, t2) && Stops(ts)
    ensures ParseExec([Sym('(')] + t1 + [Sym(')')] + t2 + ts, max) == Parse(Wrap(inner, rs), ts)
  {
    hide *;
    RedirsAppend(rs, t2, ts);
    PrependStops(rs, ts);
    var us, mid := [Sym('(')] + t1 + [Sym(')')] + t2 + ts, [Sym(')')] + (t2 + ts);
    assert us[1..] == t1 + mid;
    assert mid[1..] == t2 + ts;
    BlockParses(us, inner, mid, rs, ts, max);
  }

  predicate LineStops(ts: seq<Token>) { ts == [] || IsSym(ts, ')') }

  predicate PipeStops(ts: seq<Token>) { ts == [] || IsSym(ts, ')') || IsSym(ts, '&') || IsSym(ts, ';') }

  lemma {:induction false} ExecComplete(c: Cmd, u: seq<Token>, ts: seq<Token>, max: nat)
    requires ExecOf(c, u) && ArgsFit(c, max) && Stops(ts)
    ensures ParseExec(u + ts, max) == Parse(c, ts)
    decreases |u|, 0
  {
    hide *;
    var one, argv, inner, rs, t1, t2 := ExecSplit(c, u);
    if one {
      WrapFits(Exec(argv), rs, max);
      ExecFits(argv, max);
      SimpleComplete(argv, rs, u, ts, max);
    } else {
      WrapFits(inner, rs, max);
      var mid := [Sym(')')] + (t2 + ts);
      ClosesLine(mid);
      LineComplete(inner, t1, mid, max);
      BlockComplete(inner, rs, t1, t2, ts, max);
    }
  }

  lemma {:induction false} ExecSplit(c: Cmd, u: seq<Token>)
      returns (one: bool, argv: seq<Span>, inner: Cmd, rs: seq<Redirect>, t1: seq<Token>, t2: seq<Token>)
    requires ExecOf(c, u)
    ensures one ==> c == Wrap(Exec(argv), rs) && Simple(argv, rs, u)
    ensures !one ==> c == Wrap(inner, rs) && u == [Sym('(')] + t1 + [Sym(')')] + t2 && LineOf(inner, t1) && Simple([], rs, t2) && |t1| < |u|
  {
    hide LineOf, Simple, Wrap;
    one, argv, inner, rs, t1, t2 := true, [], c, [], [], [];
    if a, r :| c == Wrap(Exec(a), r) && Simple(a, r, u) {
      argv, rs := a, r;
    } else {
      var i, r, k :| 1 <= k < |u| && u[0] == Sym('(') && u[k] == Sym(')') && c == Wrap(i, r) && LineOf(i, u[1..k]) && Simple([], r, u[k + 1..]);
      one, inner, rs, t1, t2 := false, i, r, u[1..k], u[k + 1..];
      assert u == [Sym('(')] + t1 + [Sym(')')] + t2;
    }
  }

  lemma {:induction false} ExecFits(argv: seq<Span>, max: nat)
    ensures ArgsFit(Exec(argv), max) <==> |argv| < max
  {
  }

  lemma {:induction false} ClosesLine(ts: seq<Token>)
    requires ts != [] && ts[0] == Sym(')')
    ensures LineStops(ts)
  {
  }

  lemma {:induction false} PipeSplit(c: Cmd, u: seq<Token>) returns (one: bool, v: seq<Token>, w: seq<Token>)
    requires PipeOf(c, u)
    ensures one ==> ExecOf(c, u)
    ensures !one ==> c.Pipe? && u == v + [Sym('|')] + w && ExecOf(c.left, v) && PipeOf(c.right, w) && |v| < |u| && |w| < |u|
  {
    hide ExecOf;
    one, v, w := ExecOf(c, u), [], [];
    if !one {
      var k :| 0 <= k < |u| && u[k] == Sym('|') && ExecOf(c.left, u[..k]) && PipeOf(c.right, u[k + 1..]);
      v, w := u[..k], u[k + 1..];
      assert u == v + [Sym('|')] + w;
    }
  }

  lemma {:induction false} PipeCompletes(c: Cmd, us: seq<Token>, ts: seq<Token>, max: nat)
    requires ParseExec(us, max) == Parse(c, ts) && PipeStops(ts)
    ensures ParsePipe(us, max) == Parse(c, ts)
  {
    hide ParseExec;
  }

  lemma {:induction false} PipeContinues(l: Cmd, r: Cmd, us: seq<Token>, mid: seq<Token>, ts: seq<Token>, max: nat)
    requires ParseExec(us, max) == Parse(l, [Sym('|')] + mid) && ParsePipe(mid, max) == Parse(r, ts) && |mid| < |us|
    ensures ParsePipe(us, max) == Parse(Pipe(l, r), ts)
  {
    hide ParseExec;
    assert ([Sym('|')] + mid)[1..] == mid;
  }

  lemma {:induction false} SymStops(c: char, ts: seq<Token>)
    ensures c == '|' || c == ')' || c == '&' || c == ';' ==> Stops([Sym(c)] + ts)
    ensures c == ')' || c == '&' || c == ';' ==> PipeStops([Sym(c)] + ts)
  {
  }

  lemma {:induction false} MoreStops(ts: seq<Token>)
    ensures LineStops(ts) ==> PipeStops(ts)
    ensures PipeStops(ts) ==> Stops(ts)
  {
  }

  lemma {:induction false} PipeFits(c: Cmd, max: nat)
    requires ArgsFit(c, max)
    ensures c.Pipe? || c.List? ==> ArgsFit(c.left, max) && ArgsFit(c.right, max)
  {
  }

  lemma {:induction false} PipeComplete(c: Cmd, u: seq<Token>, ts: seq<Token>, max: nat)
    requires PipeOf(c, u) && ArgsFit(c, max) && PipeStops(ts)
    ensures ParsePipe(u + ts, max) == Parse(c, ts)
    decreases |u|, 1
  {
    hide *;
    var one, v, w := PipeSplit(c, u);
    MoreStops(ts);
    if one {
      ExecComplete(c, u, ts, max);
      PipeCompletes(c, u + ts, ts, max);
    } else {
      PipeFits(c, max);
      var mid := w + ts;
      SymStops('|', mid);
      ExecComplete(c.left, v, [Sym('|')] + mid, max);
      PipeComplete(c.right, w, ts, max);
      assert u + ts == v + ([Sym('|')] + mid);
      PipeContinues(c.left, c.right, u + ts, mid, ts, max);
    }
  }

  lemma {:induction false} AmpsComplete(p: Cmd, n: nat, amps: seq<Token>, ts: seq<Token>)
    requires AllAmps(amps) && !IsSym(ts, '&')
    ensures SkipAmps(Backs(p, n), amps + ts) == Parse(Backs(p, n + |amps|), ts)
    decreases |amps|
  {
    if amps == [] {
      assert amps + ts == ts;
    } else {
      var us := amps + ts;
      assert us[1..] == amps[1..] + ts && IsSym(us, '&');
      assert Back(Backs(p, n)) == Backs(p, n + 1);
      AmpsComplete(p, n + 1, amps[1..], ts);
    }
  }

  /** What comes before ';' or the end of a line. */
  ghost predicate BackDone(c: Cmd, us: seq<Token>, ts: seq<Token>, max: nat) {
    var p := ParsePipe(us, max);
    p.Parse? && SkipAmps(p.cmd, p.rest) == Parse(c, ts)
  }

  lemma {:induction false} BackSplit(c: Cmd, u: seq<Token>) returns (p: Cmd, v: seq<Token>, amps: seq<Token>)
    requires BackOf(c, u)
    ensures u == v + amps && PipeOf(p, v) && AllAmps(amps) && c == Backs(p, |amps|) && |v| <= |u|
  {
    hide PipeOf;
    var q, k :| 0 <= k <= |u| && PipeOf(q, u[..k]) && AllAmps(u[k..]) && c == Backs(q, |u| - k);
    p, v, amps := q, u[..k], u[k..];
  }

  lemma {:induction false} AmpsStop(amps: seq<Token>, ts: seq<Token>)
    requires AllAmps(amps) && PipeStops(ts)
    ensures PipeStops(amps + ts)
  {
    if amps == [] { assert amps + ts == ts; } else { assert (amps + ts)[0] == Sym('&'); }
  }

  lemma {:induction false} BackComplete(c: Cmd, u: seq<Token>, ts: seq<Token>, max: nat)
    requires BackOf(c, u) && ArgsFit(c, max) && PipeStops(ts) && !IsSym(ts, '&')
    ensures BackDone(c, u + ts, ts, max)
    decreases |u|, 2
  {
    hide *;
    var p, v, amps := BackSplit(c, u);
    BacksFit(p, |amps|, max);
    AmpsStop(amps, ts);
    PipeComplete(p, v, amps + ts, max);
    assert u + ts == v + (amps + ts);
    BacksNone(p);
    AmpsComplete(p, 0, amps, ts);
    BackIsDone(c, u + ts, ts, max, p, amps + ts);
  }

  lemma {:induction false} BackIsDone(c: Cmd, us: seq<Token>, ts: seq<Token>, max: nat, p: Cmd, mid: seq<Token>)
    requires ParsePipe(us, max) == Parse(p, mid) && SkipAmps(p, mid) == Parse(c, ts)
    ensures BackDone(c, us, ts, max)
  {
    hide ParsePipe, SkipAmps;
  }

  lemma {:induction false} LineSplit(c: Cmd, u: seq<Token>) returns (one: bool, v: seq<Token>, w: seq<Token>)
    requires LineOf(c, u)
    ensures one ==> BackOf(c, u)
    ensures !one ==> c.List? && u == v + [Sym(';')] + w && BackOf(c.left, v) && LineOf(c.right, w) && |v| < |u| && |w| < |u|
  {
    hide BackOf;
    one, v, w := BackOf(c, u), [], [];
    if !one {
      var k :| 0 <= k < |u| && u[k] == Sym(';') && BackOf(c.left, u[..k]) && LineOf(c.right, u[k + 1..]);
      v, w := u[..k], u[k + 1..];
      assert u == v + [Sym(';')] + w;
    }
  }

  lemma {:induction false} LineEnds(c: Cmd, us: seq<Token>, ts: seq<Token>, max: nat)
    requires BackDone(c, us, ts, max) && LineStops(ts)
    ensures ParseLine(us, max) == Parse(c, ts)
  {
    hide ParsePipe, SkipAmps;
  }

  lemma {:induction false} LineContinues(l: Cmd, r: Cmd, us: seq<Token>, mid: seq<Token>, ts: seq<Token>, max: nat)
    requires BackDone(l, us, [Sym(';')] + mid, max) && ParseLine(mid, max) == Parse(r, ts) && |mid| < |us|
    ensures ParseLine(us, max) == Parse(List(l, r), ts)
  {
    hide ParsePipe, SkipAmps;
    assert ([Sym(';')] + mid)[1..] == mid;
  }

  lemma {:induction false} NotAmp(ts: seq<Token>)
    ensures LineStops(ts) ==> !IsSym(ts, '&')
    ensures !IsSym([Sym(';')] + ts, '&')
  {
  }

  /** parseline() finds every line of the grammar. */
  lemma {:induction false} LineComplete(c: Cmd, u: seq<Token>, ts: seq<Token>, max: nat)
    requires LineOf(c, u) && ArgsFit(c, max) && LineStops(ts)
    ensures ParseLine(u + ts, max) == Parse(c, ts)
    decreases |u|, 3
  {
    hide *;
    var one, v, w := LineSplit(c, u);
    MoreStops(ts);
    if one {
      NotAmp(ts);
      BackComplete(c, u, ts, max);
      LineEnds(c, u + ts, ts, max);
    } else {
      PipeFits(c, max);
      var mid := w + ts;
      SymStops(';', mid);
      NotAmp(mid);
      BackComplete(c.left, v, [Sym(';')] + mid, max);
      LineComplete(c.right, w, ts, max);
      assert u + ts == v + ([Sym(';')] + mid);
      LineContinues(c.left, c.right, u + ts, mid, ts, max);
    }
  }

  // ---------------------------------------------------------------- not too many words

  lemma {:induction false} ArgsFits(ts: seq<Token>, argv: seq<Span>, rs: seq<Redirect>, max: nat)
    requires ArgsOf(ts, argv, rs, max).Parse? && |argv| < max
    ensures ArgsFit(ArgsOf(ts, argv, rs, max).cmd, max)
    decreases |ts|
  {
    hide *;
    if Stops(ts) {
      ArgsCase(ts, argv, rs, max);
      WrapFits(Exec(argv), rs, max);
      ExecFits(argv, max);
    } else {
      ArgsCase(ts, argv, rs, max);
      ArgsFits(RedirsOf(ts[1..]).rest, argv + [ts[0].at], rs + RedirsOf(ts[1..]).rs, max);
    }
  }

  lemma {:induction false} ExecParseFits(ts: seq<Token>, max: nat)
    requires ParseExec(ts, max).Parse? && max > 0
    ensures ArgsFit(ParseExec(ts, max).cmd, max)
    decreases |ts|, 0
  {
    hide *;
    if IsSym(ts, '(') {
      BlockCase(ts, max);
      LineParseFits(ts[1..], max);
      var r := ParseLine(ts[1..], max);
      WrapFits(r.cmd, RedirsOf(r.rest[1..]).rs, max);
    } else {
      ExecCase(ts, max);
      ArgsFits(RedirsOf(ts).rest, [], RedirsOf(ts).rs, max);
    }
  }

  lemma {:induction false} PairFits(l: Cmd, r: Cmd, max: nat)
    requires ArgsFit(l, max) && ArgsFit(r, max)
    ensures ArgsFit(Pipe(l, r), max) && ArgsFit(List(l, r), max)
  {
  }

  lemma {:induction false} PipeParseFits(ts: seq<Token>, max: nat)
    requires ParsePipe(ts, max).Parse? && max > 0
    ensures ArgsFit(ParsePipe(ts, max).cmd, max)
    decreases |ts|, 1
  {
    hide *;
    PipeCase(ts, max);
    ExecParseFits(ts, max);
    var r := ParseExec(ts, max);
    if IsSym(r.rest, '|') {
      SymFirst(r.rest, '|');
      PipeParseFits(r.rest[1..], max);
      PairFits(r.cmd, ParsePipe(r.rest[1..], max).cmd, max);
    }
  }

  lemma {:induction false} AmpsFit(c: Cmd, ts: seq<Token>, max: nat)
    requires ArgsFit(c, max)
    ensures ArgsFit(SkipAmps(c, ts).cmd, max)
    decreases |ts|
  {
    if IsSym(ts, '&') { AmpsFit(Back(c), ts[1..], max); }
  }

  lemma {:induction false} LineParseFits(ts: seq<Token>, max: nat)
    requires ParseLine(ts, max).Parse? && max > 0
    ensures ArgsFit(ParseLine(ts, max).cmd, max)
    decreases |ts|, 2
  {
    hide *;
    LineCase(ts, max);
    PipeParseFits(ts, max);
    var p := ParsePipe(ts, max);
    AmpsFit(p.cmd, p.rest, max);
    var r := SkipAmps(p.cmd, p.rest);
    if IsSym(r.rest, ';') {
      SymFirst(r.rest, ';');
      LineParseFits(r.rest[1..], max);
      PairFits(r.cmd, ParseLine(r.rest[1..], max).cmd, max);
    }
  }

  /** The parser accepts a line with tree c exactly if the grammar gives c to the line and no command has too many words. */
  lemma {:induction false} ParsesIff(ts: seq<Token>, c: Cmd, max: nat)
    requires max > 0
    ensures ParseLine(ts, max) == Parse(c, []) <==> LineOf(c, ts) && ArgsFit(c, max)
  {
    hide *;
    if ParseLine(ts, max) == Parse(c, []) {
      var u := LineSound(ts, max);
      assert u + [] == u;
      LineParseFits(ts, max);
    }
    if LineOf(c, ts) && ArgsFit(c, max) {
      EndStops();
      LineComplete(c, ts, [], max);
      assert ts + [] == ts;
    }
  }

  lemma {:induction false} EndStops()
    ensures LineStops([])
  {
  }

  /** A line means at most one tree. */
  lemma {:induction false} Unambiguous(ts: seq<Token>, c: Cmd, d: Cmd)
    requires LineOf(c, ts) && LineOf(d, ts)
    ensures c == d
  {
    hide *;
    var max := EnoughArgs(c);
    var max' := EnoughArgs(d);
    var m := if max < max' then max' else max;
    MoreArgs(c, max, m);
    MoreArgs(d, max', m);
    ParsesIff(ts, c, m);
    ParsesIff(ts, d, m);
  }

  lemma {:induction false} MoreArgs(c: Cmd, max: nat, max': nat)
    requires ArgsFit(c, max) && max <= max'
    ensures ArgsFit(c, max')
  {
    match c
    case Exec(_) =>
    case Redir(d, _) => MoreArgs(d, max, max');
    case Pipe(l, r) => MoreArgs(l, max, max'); MoreArgs(r, max, max');
    case List(l, r) => MoreArgs(l, max, max'); MoreArgs(r, max, max');
    case Back(d) => MoreArgs(d, max, max');
  }

  lemma {:induction false} EnoughArgs(c: Cmd) returns (max: nat)
    ensures max > 0 && ArgsFit(c, max)
  {
    match c
    case Exec(argv) => max := |argv| + 1;
    case Redir(d, _) => max := EnoughArgs(d);
    case Pipe(l, r) =>
      var a := EnoughArgs(l);
      var b := EnoughArgs(r);
      max := if a < b then b else a;
      MoreArgs(l, a, max);
      MoreArgs(r, b, max);
    case List(l, r) =>
      var a := EnoughArgs(l);
      var b := EnoughArgs(r);
      max := if a < b then b else a;
      MoreArgs(l, a, max);
      MoreArgs(r, b, max);
    case Back(d) => max := EnoughArgs(d);
  }

}
