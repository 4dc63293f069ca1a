/** user/sh.c: the tokens of a line, as gettoken finds them one after the other, and what they are. */
module ShellTokens {
  import opened ShellGrammar

  const VT: char := 11 as char

  predicate Space(c: char) { c == ' ' || c == '\t' || c == '\r' || c == '\n' || c == VT }
  predicate Symbol(c: char) { c == '<' || c == '|' || c == '>' || c == '&' || c == ';' || c == '(' || c == ')' }
  predicate Delim(c: char) { Space(c) || Symbol(c) }

  /** The character at i; the line ends with a NUL. */
  function At(line: string, i: nat): char { if i < |line| then line[i] else '\0' }

  // ---- the tokens as gettoken finds them ----

  function SkipSpace(line: string, i: nat): (j: nat)
    requires i <= |line|
    ensures i <= j <= |line| && (j < |line| ==> !Space(line[j]))
    decreases |line| - i
  {
    if i < |line| && Space(line[i]) then SkipSpace(line, i + 1) else i
  }

  function WordEnd(line: string, i: nat): (j: nat)
    requires i <= |line|
    ensures i <= j <= |line| && (j < |line| ==> Delim(line[j])) && forall k :: i <= k < j ==> !Delim(line[k])
    decreases |line| - i
  {
    if i < |line| && !Delim(line[i]) then WordEnd(line, i + 1) else i
  }

  /** The token that starts at i, where there is no space. */
  function TokenAt(line: string, i: nat): (t: Tok)
    requires i < |line| && !Space(line[i])
    ensures t.lo == i < t.hi <= |line|
  {
    if line[i] == '>' then
      if At(line, i + 1) == '>' then Tok('+', i, i + 2) else Tok('>', i, i + 1)
    else if Symbol(line[i]) then Tok(line[i], i, i + 1)
    else Tok('a', i, WordEnd(line, i + 1))
  }

  /** The character a token of this kind starts with, when it is not a word. */
  function FirstChar(k: char): char { if k == '+' then '>' else k }

  function Lex(line: string, i: nat): seq<Tok>
    requires i <= |line|
    decreases |line| - i
  {
    var j := SkipSpace(line, i);
    if j == |line| then [] else [TokenAt(line, j)] + Lex(line, TokenAt(line, j).hi)
  }

  lemma {:induction false} LexSkips(line: string, i: nat)
    requires i <= |line|
    ensures Lex(line, SkipSpace(line, i)) == Lex(line, i) && SkipSpace(line, SkipSpace(line, i)) == SkipSpace(line, i)
    decreases |line| - i
  {
    if i < |line| && Space(line[i]) { LexSkips(line, i + 1); }
  }

  // ---- what the tokens of a line are ----

  /** A word is a longest run of characters that are not delimiters. */
  ghost predicate WordOk(line: string, t: Tok) {
    && t.lo < t.hi <= |line| && (forall k :: t.lo <= k < t.hi ==> !Delim(line[k]))
    && (t.lo == 0 || Delim(line[t.lo - 1])) && (t.hi == |line| || Delim(line[t.hi]))
  }

  /** The text of a token: a word, two greater-than signs, or one symbol; a single '>' is not the first
      of two. */
  ghost predicate IsToken(line: string, t: Tok) {
    && t.lo < t.hi <= |line|
    && if t.kind == 'a' then WordOk(line, t)
       else if t.kind == '+' then line[t.lo..t.hi] == ">>"
       else Symbol(t.kind) && line[t.lo..t.hi] == [t.kind] && (t.kind == '>' ==> t.hi == |line| || line[t.hi] != '>')
  }

  ghost predicate Covered(ts: seq<Tok>, c: nat) {
    exists k :: 0 <= k < |ts| && ts[k].lo <= c < ts[k].hi
  }

  /** ts are the tokens from i on: in order, without overlap, and all else is white space. */
  ghost predicate Tokens(line: string, i: nat, ts: seq<Tok>) {
    && (forall k :: 0 <= k < |ts| ==> IsToken(line, ts[k]) && i <= ts[k].lo)
    && (forall j, k :: 0 <= j < k < |ts| ==> ts[j].hi <= ts[k].lo)
    && (forall c: nat :: i <= c < |line| && !Covered(ts, c) ==> Space(line[c]))
  }

  /** i is not inside a word. */
  predicate Boundary(line: string, i: nat) {
    i <= |line| && (i == 0 || i == |line| || Delim(line[i - 1]) || Delim(line[i]))
  }

  lemma {:induction false} SkipIs(line: string, i: nat, j: nat)
    requires i <= j <= |line|
    ensures SkipSpace(line, i) == j <==> (j < |line| ==> !Space(line[j])) && forall k :: i <= k < j ==> Space(line[k])
    decreases |line| - i
  {
    if i < |line| && Space(line[i]) && i < j { SkipIs(line, i + 1, j); }
  }

  lemma TokenAtIs(line: string, i: nat)
    requires i < |line| && !Space(line[i]) && Boundary(line, i)
    ensures IsToken(line, TokenAt(line, i)) && Boundary(line, TokenAt(line, i).hi)
  {}

  /** gettoken finds the tokens of the line. */
  lemma {:induction false} LexTokens(line: string, i: nat)
    requires Boundary(line, i)
    ensures Tokens(line, i, Lex(line, i))
    decreases |line| - i
  {
    var j, ts := SkipSpace(line, i), Lex(line, i);
    SkipIs(line, i, j);
    if j < |line| {
      assert Boundary(line, j);
      var t := TokenAt(line, j);
      var rest := Lex(line, t.hi);
      TokenAtIs(line, j);
      LexTokens(line, t.hi);
      assert ts == [t] + rest;
      TokensCons(line, i, t, rest);
    }
  }

  lemma CoveredCons(ts: seq<Tok>, c: nat)
    requires ts != []
    ensures Covered(ts, c) <==> ts[0].lo <= c < ts[0].hi || Covered(ts[1..], c)
  {
    var rest := ts[1..];
    if k :| 0 <= k < |rest| && rest[k].lo <= c < rest[k].hi {
      assert ts[k + 1].lo <= c < ts[k + 1].hi;
    }
    if k :| 0 < k < |ts| && ts[k].lo <= c < ts[k].hi {
      assert rest[k - 1].lo <= c < rest[k - 1].hi;
    }
  }

  lemma TokensCons(line: string, i: nat, t: Tok, rest: seq<Tok>)
    requires i <= t.lo && IsToken(line, t) && Tokens(line, t.hi, rest)
    requires forall c :: i <= c < t.lo ==> Space(line[c])
    ensures Tokens(line, i, [t] + rest)
  {
    hide Covered, WordOk;
    var ts := [t] + rest;
    assert ts[1..] == rest;
    forall c: nat | i <= c < |line| && !Covered(ts, c) ensures Space(line[c]) {
      CoveredCons(ts, c);
    }
  }

  lemma TokensTail(line: string, i: nat, ts: seq<Tok>)
    requires Tokens(line, i, ts) && ts != []
    ensures Tokens(line, ts[0].hi, ts[1..])
    ensures forall c :: i <= c < ts[0].lo ==> Space(line[c])
  {
    hide WordOk;
    forall c: nat | i <= c < |line| ensures Covered(ts, c) <==> ts[0].lo <= c < ts[0].hi || Covered(ts[1..], c) {
      CoveredCons(ts, c);
    }
  }

  lemma TokenIs(line: string, t: Tok)
    requires IsToken(line, t)
    ensures !Space(line[t.lo]) && TokenAt(line, t.lo) == t
  {
    assert line[t.lo..t.hi][0] == line[t.lo];
    if t.kind == '+' {
      assert line[t.lo..t.hi][1] == line[t.lo + 1];
    }
  }

  /** The line has only those. */
  lemma {:induction false} OnlyTokens(line: string, i: nat, ts: seq<Tok>)
    requires i <= |line| && Tokens(line, i, ts)
    ensures ts == Lex(line, i)
    decreases |ts|
  {
    if ts == [] {
      SkipIs(line, i, |line|);
    } else {
      TokensTail(line, i, ts);
      TokenIs(line, ts[0]);
      SkipIs(line, i, ts[0].lo);
      OnlyTokens(line, ts[0].hi, ts[1..]);
    }
  }

  /** A list of tokens is the line's tokens exactly when gettoken finds it. */
  lemma LexIs(line: string, ts: seq<Tok>)
    ensures Tokens(line, 0, ts) <==> ts == Lex(line, 0)
  {
    LexTokens(line, 0);
    if Tokens(line, 0, ts) {
      OnlyTokens(line, 0, ts);
    }
  }

  lemma LexWords(line: string, t: Tok)
    requires t in Lex(line, 0) && t.kind == 'a'
    ensures WordOk(line, t)
  {
    hide Lex;
    LexTokens(line, 0);
  }
}
