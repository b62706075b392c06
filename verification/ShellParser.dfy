/** The parser of sh.c as a function on tokens, and that it finds exactly the trees
    that the grammar allows. */
module ShellParser {
  import opened ShellGrammar

  // ---------------------------------------------------------------- the parser

  datatype Redirs = Redirs(rs: seq<Redirect>, rest: seq<Token>) | BadRedirs

  datatype Result = Parse(cmd: Cmd, rest: seq<Token>) | Failure

  predicate IsSym(ts: seq<Token>, c: char) { ts != [] && ts[0] == Sym(c) }

  /** What ends the words of a command. */
  predicate Stops(ts: seq<Token>) { ts == [] || IsSym(ts, '|') || IsSym(ts, ')') || IsSym(ts, '&') || IsSym(ts, ';') }

  /** parseredirs(). */
  function RedirsOf(ts: seq<Token>): (r: Redirs)
    ensures r.Redirs? ==> |r.rest| <= |ts|
  {
    if Redirects(ts) then
      if |ts| < 2 || !ts[1].Word? then BadRedirs
      else
        var r := RedirsOf(ts[2..]);
        if r.BadRedirs? then BadRedirs else Redirs([Redirect(ts[0].c, ts[1].at)] + r.rs, r.rest)
    else Redirs([], ts)
  }

  /** The loop of parseexec(), with the words and redirections so far; there are at most max - 1 words. */
  function ArgsOf(ts: seq<Token>, argv: seq<Span>, rs: seq<Redirect>, max: nat): (r: Result)
    ensures r.Parse? ==> |r.rest| <= |ts|
    decreases |ts|
  {
    if Stops(ts) then Parse(Wrap(Exec(argv), rs), ts)
    else if !ts[0].Word? || |argv| + 1 >= max then Failure
    else
      var r := RedirsOf(ts[1..]);
      if r.BadRedirs? then Failure else ArgsOf(r.rest, argv + [ts[0].at], rs + r.rs, max)
  }

  /** parseexec() and parseblock(). */
  function ParseExec(ts: seq<Token>, max: nat): (r: Result)
    ensures r.Parse? ==> |r.rest| <= |ts|
    decreases |ts|, 0
  {
    if IsSym(ts, '(') then
      var r := ParseLine(ts[1..], max);
      if r.Failure? || !IsSym(r.rest, ')') then Failure
      else
        var q := RedirsOf(r.rest[1..]);
        if q.BadRedirs? then Failure else Parse(Wrap(r.cmd, q.rs), q.rest)
    else
      var r := RedirsOf(ts);
      if r.BadRedirs? then Failure else ArgsOf(r.rest, [], r.rs, max)
  }

  /** parsepipe(). */
  function ParsePipe(ts: seq<Token>, max: nat): (r: Result)
    ensures r.Parse? ==> |r.rest| <= |ts|
    decreases |ts|, 1
  {
    var r := ParseExec(ts, max);
    if r.Failure? || !IsSym(r.rest, '|') then r
    else
      var q := ParsePipe(r.rest[1..], max);
      if q.Failure? then Failure else Parse(Pipe(r.cmd, q.cmd), q.rest)
  }

  function SkipAmps(c: Cmd, ts: seq<Token>): (r: Result)
    ensures r.Parse? && |r.rest| <= |ts|
    decreases |ts|
  {
    if IsSym(ts, '&') then SkipAmps(Back(c), ts[1..]) else Parse(c, ts)
  }

  /** parseline(). */
  function ParseLine(ts: seq<Token>, max: nat): (r: Result)
    ensures r.Parse? ==> |r.rest| <= |ts|
    decreases |ts|, 2
  {
    var p := ParsePipe(ts, max);
    if p.Failure? then Failure
    else
      var r := SkipAmps(p.cmd, p.rest);
      if !IsSym(r.rest, ';') then r
      else
        var q := ParseLine(r.rest[1..], max);
        if q.Failure? then Failure else Parse(List(r.cmd, q.cmd), q.rest)
  }

  // The parser, case by case.

  lemma {:induction false} RedirsCase(ts: seq<Token>)
    ensures if !Redirects(ts) then RedirsOf(ts) == Redirs([], ts)
            else if |ts| < 2 || !ts[1].Word? || RedirsOf(ts[2..]).BadRedirs? then RedirsOf(ts) == BadRedirs
            else
              && ts[0].Sym? && IsRedirect(ts[0].c)
              && RedirsOf(ts) == Redirs([Redirect(ts[0].c, ts[1].at)] + RedirsOf(ts[2..]).rs, RedirsOf(ts[2..]).rest)
  {
  }

  lemma {:induction false} ArgsCase(ts: seq<Token>, argv: seq<Span>, rs: seq<Redirect>, max: nat)
    ensures if Stops(ts) then ArgsOf(ts, argv, rs, max) == Parse(Wrap(Exec(argv), rs), ts)
            else if ts == [] || !ts[0].Word? || |argv| + 1 >= max || RedirsOf(ts[1..]).BadRedirs? then ArgsOf(ts, argv, rs, max) == Failure
            else ArgsOf(ts, argv, rs, max) == ArgsOf(RedirsOf(ts[1..]).rest, argv + [ts[0].at], rs + RedirsOf(ts[1..]).rs, max)
  {
  }

  lemma {:induction false} BlockCase(ts: seq<Token>, max: nat)
    requires IsSym(ts, '(')
    ensures ts != [] && ts[0] == Sym('(')
    ensures var r := ParseLine(ts[1..], max);
            if r.Failure? || !IsSym(r.rest, ')') then ParseExec(ts, max) == Failure
            else
              && r.rest != [] && r.rest[0] == Sym(')')
              && if RedirsOf(r.rest[1..]).BadRedirs? then ParseExec(ts, max) == Failure
                 else ParseExec(ts, max) == Parse(Wrap(r.cmd, RedirsOf(r.rest[1..]).rs), RedirsOf(r.rest[1..]).rest)
  {
  }

  lemma {:induction false} ExecCase(ts: seq<Token>, max: nat)
    requires !IsSym(ts, '(')
    ensures ParseExec(ts, max) == if RedirsOf(ts).BadRedirs? then Failure else ArgsOf(RedirsOf(ts).rest, [], RedirsOf(ts).rs, max)
  {
  }

  lemma {:induction false} PipeCase(ts: seq<Token>, max: nat)
    ensures var r := ParseExec(ts, max);
            if r.Failure? || !IsSym(r.rest, '|') then ParsePipe(ts, max) == r
            else
              var q := ParsePipe(r.rest[1..], max);
              ParsePipe(ts, max) == if q.Failure? then Failure else Parse(Pipe(r.cmd, q.cmd), q.rest)
  {
  }

  lemma {:induction false} AmpsCase(c: Cmd, ts: seq<Token>)
    ensures SkipAmps(c, ts) == if IsSym(ts, '&') then SkipAmps(Back(c), ts[1..]) else Parse(c, ts)
  {
  }

  lemma {:induction false} LineCase(ts: seq<Token>, max: nat)
    ensures var p := ParsePipe(ts, max);
            if p.Failure? then ParseLine(ts, max) == Failure
            else
              var r := SkipAmps(p.cmd, p.rest);
              if !IsSym(r.rest, ';') then ParseLine(ts, max) == r
              else
                var q := ParseLine(r.rest[1..], max);
                ParseLine(ts, max) == if q.Failure? then Failure else Parse(List(r.cmd, q.cmd), q.rest)
  {
  }

  // ---------------------------------------------------------------- what it finds is in the grammar

  lemma {:induction false} SimpleRedirect(argv: seq<Span>, rs: seq<Redirect>, ts: seq<Token>, r: Redirect)
    requires Simple(argv, rs, ts) && IsRedirect(r.c)
    ensures Simple(argv, rs + [r], ts + [Sym(r.c), Word(r.file)])
  {
    var us, qs := ts + [Sym(r.c), Word(r.file)], rs + [r];
    assert us[..|us| - 2] == ts && qs[..|qs| - 1] == rs;
  }

  lemma {:induction false} SimpleWord(argv: seq<Span>, rs: seq<Redirect>, ts: seq<Token>, w: Span)
    requires Simple(argv, rs, ts)
    ensures Simple(argv + [w], rs, ts + [Word(w)])
  {
    var us, qs := ts + [Word(w)], argv + [w];
    assert us[..|us| - 1] == ts && qs[..|qs| - 1] == argv;
  }

  lemma {:induction false} Concat3(a: seq<Token>, b: seq<Token>, c: seq<Token>)
    ensures a + b + c == a + (b + c)
  {
  }

  /** u, then the token c, then v, then the rest. */
  lemma {:induction false} Join(ts: seq<Token>, u: seq<Token>, mid: seq<Token>, c: Token, v: seq<Token>, rest: seq<Token>)
    requires ts == u + mid && mid != [] && mid[0] == c && mid[1..] == v + rest
    ensures ts == u + [c] + v + rest
  {
    assert mid == [c] + mid[1..];
  }

  predicate Redirects(ts: seq<Token>) { ts != [] && ts[0].Sym? && IsRedirect(ts[0].c) }

  /** parseredirs() extends a simple command by the tokens u that it takes. */
  lemma {:induction false} RedirsSound(ts: seq<Token>, argv: seq<Span>, rs0: seq<Redirect>, ts0: seq<Token>) returns (u: seq<Token>)
    requires Simple(argv, rs0, ts0) && RedirsOf(ts).Redirs?
    ensures ts == u + RedirsOf(ts).rest && Simple(argv, rs0 + RedirsOf(ts).rs, ts0 + u)
    decreases |ts|
  {
    hide *;
    RedirsCase(ts);
    if Redirects(ts) {
      var x, q := Redirect(ts[0].c, ts[1].at), RedirsOf(ts[2..]);
      var two := [Sym(x.c), Word(x.file)];
      SimpleRedirect(argv, rs0, ts0, x);
      var v := RedirsSound(ts[2..], argv, rs0 + [x], ts0 + two);
      u := two + v;
      assert ts == two + ts[2..];
      Concat3(two, v, q.rest);
      Concat3(ts0, two, v);
      assert rs0 + [x] + q.rs == rs0 + ([x] + q.rs);
    } else {
      u := [];
      assert rs0 + [] == rs0 && ts0 + [] == ts0;
    }
  }

  lemma {:induction false} ArgsDone(ts: seq<Token>, argv: seq<Span>, rs: seq<Redirect>, max: nat, ts0: seq<Token>)
    requires Simple(argv, rs, ts0) && Stops(ts)
    ensures ArgsOf(ts, argv, rs, max) == Parse(Wrap(Exec(argv), rs), ts) && ExecOf(Wrap(Exec(argv), rs), ts0)
  {
    hide Simple, Wrap;
  }

  lemma {:induction false} ArgsSound(ts: seq<Token>, argv: seq<Span>, rs: seq<Redirect>, max: nat, ts0: seq<Token>) returns (u: seq<Token>)
    requires Simple(argv, rs, ts0) && ArgsOf(ts, argv, rs, max).Parse?
    ensures ts == u + ArgsOf(ts, argv, rs, max).rest && ExecOf(ArgsOf(ts, argv, rs, max).cmd, ts0 + u)
    decreases |ts|
  {
    hide *;
    if Stops(ts) {
      ArgsDone(ts, argv, rs, max, ts0);
      u := [];
      assert ts0 + [] == ts0;
    } else {
      ArgsCase(ts, argv, rs, max);
      var w, q := ts[0].at, RedirsOf(ts[1..]);
      SimpleWord(argv, rs, ts0, w);
      var v := RedirsSound(ts[1..], argv + [w], rs, ts0 + [Word(w)]);
      var x := ArgsSound(q.rest, argv + [w], rs + q.rs, max, ts0 + [Word(w)] + v);
      u := [Word(w)] + (v + x);
      var rest := ArgsOf(ts, argv, rs, max).rest;
      assert ts == [Word(w)] + ts[1..];
      Concat3(v, x, rest);
      Concat3([Word(w)], v + x, rest);
      Concat3(ts0, [Word(w)], v + x);
      Concat3(ts0 + [Word(w)], v, x);
    }
  }

  lemma {:induction false} BlockIn(inner: Cmd, rs: seq<Redirect>, u: seq<Token>, v: seq<Token>)
    requires LineOf(inner, u) && Simple([], rs, v)
    ensures ExecOf(Wrap(inner, rs), [Sym('(')] + u + [Sym(')')] + v)
  {
    var ts := [Sym('(')] + u + [Sym(')')] + v;
    var k := 1 + |u|;
    assert ts[1..k] == u && ts[k + 1..] == v;
    hide LineOf, Simple;
  }

  lemma {:induction false} SimpleNone()
    ensures Simple([], [], [])
  {
  }

  lemma {:induction false} ExecSound(ts: seq<Token>, max: nat) returns (u: seq<Token>)
    requires ParseExec(ts, max).Parse?
    ensures ts == u + ParseExec(ts, max).rest && ExecOf(ParseExec(ts, max).cmd, u)
    decreases |ts|, 0
  {
    hide *;
    SimpleNone();
    if IsSym(ts, '(') {
      BlockCase(ts, max);
      var r := ParseLine(ts[1..], max);
      var v := LineSound(ts[1..], max);
      var q := RedirsOf(r.rest[1..]);
      var x := RedirsSound(r.rest[1..], [], [], []);
      assert [] + q.rs == q.rs && [] + x == x;
      BlockIn(r.cmd, q.rs, v, x);
      u := [Sym('(')] + v + [Sym(')')] + x;
      assert ts == [Sym('(')] + v + r.rest;
      Join(ts, [Sym('(')] + v, r.rest, Sym(')'), x, q.rest);
    } else {
      ExecCase(ts, max);
      var r := RedirsOf(ts);
      var v := RedirsSound(ts, [], [], []);
      assert [] + r.rs == r.rs && [] + v == v;
      var x := ArgsSound(r.rest, [], r.rs, max, v);
      u := v + x;
      Concat3(v, x, ParseExec(ts, max).rest);
    }
  }

  lemma {:induction false} PipeIn(l: Cmd, r: Cmd, u: seq<Token>, v: seq<Token>)
    requires ExecOf(l, u) && PipeOf(r, v)
    ensures PipeOf(Pipe(l, r), u + [Sym('|')] + v)
  {
    var ts := u + [Sym('|')] + v;
    assert ts[..|u|] == u && ts[|u| + 1..] == v && ts[|u|] == Sym('|');
    hide ExecOf;
  }

  lemma {:induction false} ExecIsPipe(c: Cmd, ts: seq<Token>)
    requires ExecOf(c, ts)
    ensures PipeOf(c, ts)
  {
    hide ExecOf;
  }

  lemma {:induction false} PipeSound(ts: seq<Token>, max: nat) returns (u: seq<Token>)
    requires ParsePipe(ts, max).Parse?
    ensures ts == u + ParsePipe(ts, max).rest && PipeOf(ParsePipe(ts, max).cmd, u)
    decreases |ts|, 1
  {
    hide *;
    PipeCase(ts, max);
    var r := ParseExec(ts, max);
    u := ExecSound(ts, max);
    if IsSym(r.rest, '|') {
      SymFirst(r.rest, '|');
      var q := ParsePipe(r.rest[1..], max);
      var v := PipeSound(r.rest[1..], max);
      PipeIn(r.cmd, q.cmd, u, v);
      Join(ts, u, r.rest, Sym('|'), v, q.rest);
      u := u + [Sym('|')] + v;
    } else {
      ExecIsPipe(r.cmd, u);
    }
  }

  lemma {:induction false} SymFirst(ts: seq<Token>, c: char)
    requires IsSym(ts, c)
    ensures ts != [] && ts[0] == Sym(c)
  {
  }

  lemma {:induction false} AmpsSound(p: Cmd, n: nat, ts: seq<Token>, u0: seq<Token>, k: nat) returns (u: seq<Token>)
    requires k <= |u0| && n == |u0| - k && PipeOf(p, u0[..k]) && AllAmps(u0[k..])
    ensures ts == u + SkipAmps(Backs(p, n), ts).rest && BackOf(SkipAmps(Backs(p, n), ts).cmd, u0 + u)
    decreases |ts|
  {
    hide PipeOf;
    if IsSym(ts, '&') {
      var u1 := u0 + [Sym('&')];
      assert u1[..k] == u0[..k] && u1[k..] == u0[k..] + [Sym('&')];
      assert Back(Backs(p, n)) == Backs(p, n + 1);
      var v := AmpsSound(p, n + 1, ts[1..], u1, k);
      u := [Sym('&')] + v;
      assert ts == [Sym('&')] + ts[1..];
      Concat3([Sym('&')], v, SkipAmps(Backs(p, n), ts).rest);
      Concat3(u0, [Sym('&')], v);
    } else {
      u := [];
      assert u0 + [] == u0;
    }
  }

  lemma {:induction false} ListIn(l: Cmd, r: Cmd, u: seq<Token>, v: seq<Token>)
    requires BackOf(l, u) && LineOf(r, v)
    ensures LineOf(List(l, r), u + [Sym(';')] + v)
  {
    var ts := u + [Sym(';')] + v;
    assert ts[..|u|] == u && ts[|u| + 1..] == v && ts[|u|] == Sym(';');
    hide BackOf;
  }

  lemma {:induction false} BackIsLine(c: Cmd, ts: seq<Token>)
    requires BackOf(c, ts)
    ensures LineOf(c, ts)
  {
    hide BackOf;
  }

  lemma {:induction false} BacksNone(c: Cmd)
    ensures Backs(c, 0) == c && AllAmps([])
  {
  }

  /** What parseline() finds is a line of the grammar. */
  lemma {:induction false} LineSound(ts: seq<Token>, max: nat) returns (u: seq<Token>)
    requires ParseLine(ts, max).Parse?
    ensures ts == u + ParseLine(ts, max).rest && LineOf(ParseLine(ts, max).cmd, u)
    decreases |ts|, 2
  {
    hide *;
    LineCase(ts, max);
    var p := ParsePipe(ts, max);
    var w := PipeSound(ts, max);
    assert w[..|w|] == w && w[|w|..] == [];
    BacksNone(p.cmd);
    var x := AmpsSound(p.cmd, 0, p.rest, w, |w|);
    var r := SkipAmps(p.cmd, p.rest);
    u := w + x;
    Concat3(w, x, r.rest);
    if IsSym(r.rest, ';') {
      SymFirst(r.rest, ';');
      var q := ParseLine(r.rest[1..], max);
      var v := LineSound(r.rest[1..], max);
      ListIn(r.cmd, q.cmd, u, v);
      Join(ts, u, r.rest, Sym(';'), v, q.rest);
      u := u + [Sym(';')] + v;
    } else {
      BackIsLine(r.cmd, u);
    }
  }
}
