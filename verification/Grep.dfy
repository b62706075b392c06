/** grep.c's matcher, from Kernighan and Pike, The Practice of Programming, chapter 9,
    against what a pattern means.  Strings have no NUL; their end stands for it. */
module Grep {

  // ---------------------------------------------------------------- what a pattern means

  /** A character, or a character that may be repeated. */
  datatype Item = One(c: char) | Star(c: char)

  /** The items of a pattern without leading '^', up to a final '$'. */
  function Items(re: string): seq<Item> {
    if re == "" || re == "$" then []
    else if |re| >= 2 && re[1] == '*' then [Star(re[0])] + Items(re[2..])
    else [One(re[0])] + Items(re[1..])
  }

  /** The pattern ends in a '$' that is not followed by '*'. */
  predicate AtEnd(re: string) {
    if re == "" then false
    else if re == "$" then true
    else if |re| >= 2 && re[1] == '*' then AtEnd(re[2..])
    else AtEnd(re[1..])
  }

  predicate Fits(c: char, x: char) { c == '.' || c == x }

  ghost predicate AllFit(c: char, s: string) { forall k :: 0 <= k < |s| ==> Fits(c, s[k]) }

  ghost predicate PieceFits(item: Item, s: string) {
    match item
    case One(c) => |s| == 1 && Fits(c, s[0])
    case Star(c) => AllFit(c, s)
  }

  ghost function Concat(pieces: seq<string>): string {
    if pieces == [] then "" else pieces[0] + Concat(pieces[1..])
  }

  ghost predicate Pieces(items: seq<Item>, pieces: seq<string>) {
    |pieces| == |items| && forall k :: 0 <= k < |items| ==> PieceFits(items[k], pieces[k])
  }

  /** s is a sequence of pieces, one for each item. */
  ghost predicate Denotes(items: seq<Item>, s: string) {
    exists pieces :: Pieces(items, pieces) && Concat(pieces) == s
  }

  /** The pattern matches a part of the text that starts at its beginning. */
  ghost predicate Here(items: seq<Item>, atEnd: bool, text: string) {
    exists j :: 0 <= j <= |text| && (atEnd ==> j == |text|) && Denotes(items, text[..j])
  }

  /** The pattern matches a part of the text: at its beginning if the pattern begins with '^', up to its end if it ends in '$'. */
  ghost predicate Matches(re: string, text: string) {
    var caret := re != "" && re[0] == '^';
    var body := if caret then re[1..] else re;
    exists i, j :: 0 <= i <= j <= |text| && (caret ==> i == 0) && (AtEnd(body) ==> j == |text|) && Denotes(Items(body), text[i..j])
  }

  // ---------------------------------------------------------------- one item at a time

  lemma {:induction false} DenotesNone(s: string)
    ensures Denotes([], s) <==> s == ""
  {
    if s == "" { assert Pieces([], []) && Concat([]) == s; }
  }

  lemma {:induction false} DenotesCons(item: Item, rest: seq<Item>, k: nat, s: string)
    requires k <= |s| && PieceFits(item, s[..k]) && Denotes(rest, s[k..])
    ensures Denotes([item] + rest, s)
  {
    var ps :| Pieces(rest, ps) && Concat(ps) == s[k..];
    var qs := [s[..k]] + ps;
    assert qs[1..] == ps;
    assert Pieces([item] + rest, qs);
    assert Concat(qs) == s[..k] + s[k..] == s;
  }

  lemma {:induction false} DenotesSplit(item: Item, rest: seq<Item>, s: string) returns (k: nat)
    requires Denotes([item] + rest, s)
    ensures k <= |s| && PieceFits(item, s[..k]) && Denotes(rest, s[k..])
  {
    var items := [item] + rest;
    var qs :| Pieces(items, qs) && Concat(qs) == s;
    k := |qs[0]|;
    assert s == qs[0] + Concat(qs[1..]);
    assert s[..k] == qs[0] && s[k..] == Concat(qs[1..]);
    assert PieceFits(items[0], qs[0]);
    forall j | 0 <= j < |rest| ensures PieceFits(rest[j], qs[1..][j]) {
      assert PieceFits(items[j + 1], qs[j + 1]);
    }
    assert Pieces(rest, qs[1..]);
  }

  /** matchhere() at the end of the pattern. */
  lemma {:induction false} HereNone(atEnd: bool, text: string)
    ensures Here([], atEnd, text) <==> !atEnd || text == ""
  {
    assert text[..0] == "";
    DenotesNone(text[..0]);
    forall j | 0 <= j <= |text| && Denotes([], text[..j]) ensures j == 0 {
      DenotesNone(text[..j]);
    }
  }

  lemma {:induction false} HereFrom(item: Item, rest: seq<Item>, atEnd: bool, text: string, k: nat)
    requires k <= |text| && PieceFits(item, text[..k]) && Here(rest, atEnd, text[k..])
    ensures Here([item] + rest, atEnd, text)
  {
    var j :| 0 <= j <= |text[k..]| && (atEnd ==> j == |text[k..]|) && Denotes(rest, text[k..][..j]);
    var s := text[..k + j];
    assert s[..k] == text[..k] && s[k..] == text[k..][..j];
    DenotesCons(item, rest, k, s);
  }

  lemma {:induction false} HereSplit(item: Item, rest: seq<Item>, atEnd: bool, text: string) returns (k: nat)
    requires Here([item] + rest, atEnd, text)
    ensures k <= |text| && PieceFits(item, text[..k]) && Here(rest, atEnd, text[k..])
  {
    var j :| 0 <= j <= |text| && (atEnd ==> j == |text|) && Denotes([item] + rest, text[..j]);
    k := DenotesSplit(item, rest, text[..j]);
    assert text[..j][..k] == text[..k];
    assert text[..j][k..] == text[k..][..j - k];
  }

  /** matchhere() at an ordinary character. */
  lemma {:induction false} HereOne(c: char, rest: seq<Item>, atEnd: bool, text: string)
    ensures Here([One(c)] + rest, atEnd, text) <==> text != "" && Fits(c, text[0]) && Here(rest, atEnd, text[1..])
  {
    if Here([One(c)] + rest, atEnd, text) {
      var k := HereSplit(One(c), rest, atEnd, text);
    }
    if text != "" && Fits(c, text[0]) && Here(rest, atEnd, text[1..]) { HereFrom(One(c), rest, atEnd, text, 1); }
  }

  /** The first k characters fit c and the rest of the pattern matches behind them. */
  ghost predicate Reaches(c: char, rest: seq<Item>, atEnd: bool, text: string, k: nat) {
    k <= |text| && (forall m :: 0 <= m < k ==> Fits(c, text[m])) && Here(rest, atEnd, text[k..])
  }

  /** matchstar(): a starred character matches exactly if it reaches to some place k; a k is returned where it does. */
  lemma {:induction false} HereStar(c: char, rest: seq<Item>, atEnd: bool, text: string) returns (k: nat)
    ensures Here([Star(c)] + rest, atEnd, text) <==> Reaches(c, rest, atEnd, text, k)
    ensures forall j: nat :: Reaches(c, rest, atEnd, text, j) ==> Here([Star(c)] + rest, atEnd, text)
  {
    forall j: nat | Reaches(c, rest, atEnd, text, j) ensures Here([Star(c)] + rest, atEnd, text) {
      assert forall m :: 0 <= m < j ==> text[..j][m] == text[m];
      HereFrom(Star(c), rest, atEnd, text, j);
    }
    if Here([Star(c)] + rest, atEnd, text) {
      k := HereSplit(Star(c), rest, atEnd, text);
      forall m | 0 <= m < k ensures Fits(c, text[m]) {
        assert Fits(c, text[..k][m]);
      }
    } else {
      k := 0;
    }
  }

  // ---------------------------------------------------------------- the matcher

  /** matchhere(): the pattern matches at the beginning of the text. */
  method MatchHere(re: string, text: string) returns (b: bool)
    ensures b <==> Here(Items(re), AtEnd(re), text)
    decreases |re|, 0
  {
    if re == "" {
      HereNone(false, text);
      return true;
    }
    if |re| >= 2 && re[1] == '*' {
      b := MatchStar(re[0], re[2..], text);
      return;
    }
    if re[0] == '$' && |re| == 1 {
      assert re == "$";
      HereNone(true, text);
      return text == "";
    }
    HereOne(re[0], Items(re[1..]), AtEnd(re), text);
    if text != "" && (re[0] == '.' || re[0] == text[0]) {
      b := MatchHere(re[1..], text[1..]);
      return;
    }
    return false;
  }

  /** matchstar(): c*re matches at the beginning of the text. */
  method MatchStar(c: char, re: string, text: string) returns (b: bool)
    ensures b <==> Here([Star(c)] + Items(re), AtEnd(re), text)
    decreases |re|, 1
  {
    var i := 0;
    while true
      invariant 0 <= i <= |text| && AllFit(c, text[..i])
      invariant forall k :: 0 <= k < i ==> !Here(Items(re), AtEnd(re), text[k..])
      decreases |text| - i
    {
      b := MatchHere(re, text[i..]);
      if b {
        HereFrom(Star(c), Items(re), AtEnd(re), text, i);
        return;
      }
      if i < |text| && (text[i] == c || c == '.') {
        i := i + 1;
      } else {
        break;
      }
    }
    ghost var k := HereStar(c, Items(re), AtEnd(re), text);
  }

  lemma {:induction false} MatchesAt(re: string, text: string, i: nat)
    requires i <= |text| && (re == "" || re[0] != '^') && Here(Items(re), AtEnd(re), text[i..])
    ensures Matches(re, text)
  {
    var j :| 0 <= j <= |text[i..]| && (AtEnd(re) ==> j == |text[i..]|) && Denotes(Items(re), text[i..][..j]);
    assert text[i..][..j] == text[i..i + j];
  }

  lemma {:induction false} MatchesSome(re: string, text: string) returns (i: nat)
    requires (re == "" || re[0] != '^') && Matches(re, text)
    ensures i <= |text| && Here(Items(re), AtEnd(re), text[i..])
  {
    var a, j :| 0 <= a <= j <= |text| && (AtEnd(re) ==> j == |text|) && Denotes(Items(re), text[a..j]);
    i := a;
    assert text[i..][..j - i] == text[i..j];
  }

  /** match(): the text has a match of the pattern. */
  method Match(re: string, text: string) returns (b: bool)
    ensures b <==> Matches(re, text)
  {
    if re != "" && re[0] == '^' {
      b := MatchHere(re[1..], text);
      assert forall j :: 0 <= j <= |text| ==> text[0..j] == text[..j];
      return;
    }
    var i := 0;
    while true
      invariant 0 <= i <= |text|
      invariant forall k :: 0 <= k < i ==> !Here(Items(re), AtEnd(re), text[k..])
      decreases |text| - i
    {
      b := MatchHere(re, text[i..]);
      if b {
        MatchesAt(re, text, i);
        return;
      }
      if i == |text| { break; }
      i := i + 1;
    }
    if Matches(re, text) {
      ghost var k := MatchesSome(re, text);
    }
  }
}
