/** user/sh.c: the tokenizer and the parser over the characters of a line, with their cursor, and the
    NUL-termination of the words in the line buffer. */
module Shell {
  import opened ShellGrammar
  import opened ShellTokens

  // ---- the parser ----

  class Parser {
    const line: string
    var s: nat

    constructor (line: string)
      ensures this.line == line && s == 0
    {
      this.line := line;
      s := 0;
    }

    ghost function Rest(): seq<Tok>
      requires s <= |line|
      reads this
    {
      Lex(line, s)
    }

    ghost predicate Valid()
      reads this
    {
      s <= |line| && forall k :: 0 <= k < |line| ==> line[k] != '\0'
    }

    method SkipSpaces()
      requires Valid()
      modifies this
      ensures Valid() && s == SkipSpace(line, old(s))
    {
      while s < |line| && Space(line[s])
        invariant Valid() && SkipSpace(line, s) == SkipSpace(line, old(s))
      {
        s := s + 1;
      }
    }

    /** peek: the next token starts with one of the symbols. */
    method Peek(toks: string) returns (found: bool)
      requires Valid() && forall c :: c in toks ==> Symbol(c)
      modifies this
      ensures Valid() && Rest() == old(Rest()) && s == SkipSpace(line, old(s))
      ensures found <==> Rest() != [] && FirstChar(Rest()[0].kind) in toks
    {
      LexSkips(line, s);
      SkipSpaces();
      found := s < |line| && line[s] in toks;
    }

    /** gettoken: the next token, or kind NUL at the end of the line. */
    method GetToken() returns (t: Tok)
      requires Valid()
      modifies this
      ensures t.kind == '\0' <==> old(Rest()) == []
      ensures Valid() && if old(Rest()) == [] then Rest() == [] else t == old(Rest())[0] && Rest() == old(Rest())[1..]
    {
      LexSkips(line, s);
      SkipSpaces();
      var q := s;
      if s == |line| {
        return Tok('\0', q, q);
      }
      var kind := line[s];
      if line[s] == '>' {
        s := s + 1;
        if At(line, s) == '>' {
          kind := '+';
          s := s + 1;
        }
      } else if Symbol(line[s]) {
        s := s + 1;
      } else {
        kind := 'a';
        s := s + 1;
        while s < |line| && !Delim(line[s])
          invariant Valid() && q < s && WordEnd(line, s) == WordEnd(line, q + 1)
        {
          s := s + 1;
        }
      }
      t := Tok(kind, q, s);
      assert t == TokenAt(line, q);
      LexSkips(line, s);
      SkipSpaces();
    }

    method ParseRedirs() returns (ok: bool, rs: seq<Redirection>)
      requires Valid()
      modifies this
      ensures Valid() && TakeRedirs(old(Rest())).ok == ok
      ensures ok ==> TakeRedirs(old(Rest())) == Front(true, rs, Rest())
      ensures |Rest()| <= |old(Rest())|
    {
      hide Lex;
      ghost var ts := Rest();
      rs := [];
      var more := Peek("<>");
      while more
        invariant Valid() && |Rest()| <= |ts| && Continues(ts, rs, Rest())
        invariant (more <==> Rest() != [] && IsRedir(Rest()[0].kind))
        decreases |Rest()|
      {
        ghost var now := Rest();
        var op := GetToken();
        var file := GetToken();
        if file.kind != 'a' {
          return false, rs;
        }
        rs := rs + [Redirection(op.kind, file)];
        ContinuesMore(ts, rs[..|rs| - 1], now);
        more := Peek("<>");
      }
      ContinuesEnd(ts, rs, Rest());
      return true, rs;
    }

    /** parseexec without a block. */
    method ParseSimple() returns (ok: bool, cmd: Cmd)
      requires Valid()
      modifies this
      ensures Valid() && (ok <==> Simple([], [], old(Rest())).Ok?)
      ensures (ok ==> Simple([], [], old(Rest())) == Ok(cmd, Rest()))
      ensures |Rest()| <= |old(Rest())|
    {
      hide Lex, TakeRedirs;
      ghost var ts := Rest();
      var args: seq<Tok>, rs := [], [];
      cmd := Exec([]);
      SimpleTake(args, rs, ts);
      ok, rs := ParseRedirs();
      if !ok {
        return;
      }
      assert [] + rs == rs;
      var ends := Peek("|)&;");
      while !ends
        invariant Valid() && |Rest()| <= |ts| && Simple([], [], ts) == Simple(args, rs, Rest())
        invariant (Rest() == [] || !IsRedir(Rest()[0].kind))
        invariant |args| < MAXARGS && (ends <==> Rest() != [] && EndsExec(Rest()))
        decreases |Rest()|
      {
        ghost var now := Rest();
        var t := GetToken();
        if t.kind == '\0' {
          break;
        }
        if t.kind != 'a' {
          return false, cmd;
        }
        if |args| + 1 >= MAXARGS {
          return false, cmd;
        }
        args := args + [t];
        SimpleTake(args, rs, Rest());
        var more: seq<Redirection>;
        ok, more := ParseRedirs();
        if !ok {
          return false, cmd;
        }
        rs := rs + more;
        ends := Peek("|)&;");
      }
      return true, Wrap(Exec(args), rs);
    }

    method ParseExec() returns (ok: bool, cmd: Cmd)
      requires Valid()
      modifies this
      ensures Valid() && Agrees(ShellGrammar.ParseExec(old(Rest())), ok, cmd, Rest()) && |Rest()| <= |old(Rest())|
      decreases |Rest()|, 1
    {
      hide Lex;
      var block := Peek("(");
      if block {
        ok, cmd := ParseBlock();
      } else {
        ok, cmd := ParseSimple();
      }
    }

    method ParseBlock() returns (ok: bool, cmd: Cmd)
      requires Valid() && Starts(Rest(), '(')
      modifies this
      ensures Valid() && Agrees(ShellGrammar.ParseExec(old(Rest())), ok, cmd, Rest()) && |Rest()| <= |old(Rest())|
      decreases |Rest()|, 0
    {
      hide Lex, TakeRedirs;
      var open := GetToken();
      ok, cmd := ParseLine();
      if !ok {
        return;
      }
      ok := Peek(")");
      if !ok {
        return;
      }
      var close := GetToken();
      RedirsTake(cmd, Rest());
      var rs: seq<Redirection>;
      ok, rs := ParseRedirs();
      cmd := Wrap(cmd, rs);
    }

    method ParsePipe() returns (ok: bool, cmd: Cmd)
      requires Valid()
      modifies this
      ensures Valid() && Agrees(ShellGrammar.ParsePipe(old(Rest())), ok, cmd, Rest()) && |Rest()| <= |old(Rest())|
      decreases |Rest()|, 2
    {
      hide Lex;
      ok, cmd := ParseExec();
      if !ok {
        return;
      }
      var bar := Peek("|");
      if bar {
        var t := GetToken();
        var right: Cmd;
        ok, right := ParsePipe();
        cmd := Pipe(cmd, right);
      }
    }

    method ParseLine() returns (ok: bool, cmd: Cmd)
      requires Valid()
      modifies this
      ensures Valid() && Agrees(ShellGrammar.ParseLine(old(Rest())), ok, cmd, Rest()) && |Rest()| <= |old(Rest())|
      decreases |Rest()|, 3
    {
      hide Lex;
      ghost var ts := Rest();
      ok, cmd := ParsePipe();
      if !ok {
        return;
      }
      ghost var r := ShellGrammar.ParsePipe(ts);
      var amp := Peek("&");
      while amp
        invariant Valid() && |Rest()| <= |r.rest| && Backs(r.cmd, r.rest) == Backs(cmd, Rest())
        invariant (amp <==> Starts(Rest(), '&'))
        decreases |Rest()|
      {
        var t := GetToken();
        cmd := Back(cmd);
        amp := Peek("&");
      }
      var semi := Peek(";");
      if semi {
        var t := GetToken();
        var right: Cmd;
        ok, right := ParseLine();
        cmd := List(cmd, right);
      }
    }
  }

  /** After the redirections rs, the rest is `now`. */
  ghost predicate Continues(ts: seq<Tok>, rs: seq<Redirection>, now: seq<Tok>) {
    var f := TakeRedirs(now);
    TakeRedirs(ts) == Front(f.ok, rs + f.rs, f.rest)
  }

  lemma ContinuesMore(ts: seq<Tok>, rs: seq<Redirection>, now: seq<Tok>)
    requires Continues(ts, rs, now) && |now| > 1 && IsRedir(now[0].kind) && now[1].kind == 'a'
    ensures Continues(ts, rs + [Redirection(now[0].kind, now[1])], now[2..])
  {
    var r, f := Redirection(now[0].kind, now[1]), TakeRedirs(now[2..]);
    assert rs + ([r] + f.rs) == rs + [r] + f.rs;
  }

  lemma ContinuesEnd(ts: seq<Tok>, rs: seq<Redirection>, now: seq<Tok>)
    requires Continues(ts, rs, now) && (now == [] || !IsRedir(now[0].kind))
    ensures TakeRedirs(ts) == Front(true, rs, now)
  {
    assert rs + [] == rs;
  }

  /** The outcome of a parsing method is that of the function. */
  ghost predicate Agrees(r: Result, ok: bool, cmd: Cmd, rest: seq<Tok>) {
    if ok then r == Ok(cmd, rest) else r == Err
  }

  // ---- nulterminate ----

  /** Where NULs are written: after each word of the tree. */
  function Ends(c: Cmd): set<nat> { set t | t in Words(c) :: t.hi }

  method NulTerminate(c: Cmd, buf: array<char>)
    requires forall t :: t in Words(c) ==> t.hi < buf.Length
    modifies buf
    ensures forall k: nat :: k < buf.Length ==> buf[k] == if k in Ends(c) then '\0' else old(buf[k])
    decreases c
  {
    match c
    case Exec(args) =>
      for i := 0 to |args|
        invariant forall k: nat :: k < buf.Length ==>
                    buf[k] == if (exists j :: 0 <= j < i && args[j].hi == k) then '\0' else old(buf[k])
      {
        assert args[i] in Words(c);
        buf[args[i].hi] := '\0';
      }
      forall k: nat ensures k in Ends(c) <==> exists j :: 0 <= j < |args| && args[j].hi == k {
        if j :| 0 <= j < |args| && args[j].hi == k { assert args[j] in Words(c); }
      }
    case Redir(d, r) =>
      NulTerminate(d, buf);
      assert r.file in Words(c);
      buf[r.file.hi] := '\0';
    case Pipe(l, r) =>
      NulTerminate(l, buf);
      NulTerminate(r, buf);
    case List(l, r) =>
      NulTerminate(l, buf);
      NulTerminate(r, buf);
    case Back(d) =>
      NulTerminate(d, buf);
  }

  /** The C string at i. */
  function CString(buf: seq<char>, i: nat): string
    requires i <= |buf|
    decreases |buf| - i
  {
    if i == |buf| || buf[i] == '\0' then [] else [buf[i]] + CString(buf, i + 1)
  }

  lemma {:induction false} CStringIs(buf: seq<char>, lo: nat, hi: nat)
    requires lo <= hi < |buf| && (forall k :: lo <= k < hi ==> buf[k] != '\0') && buf[hi] == '\0'
    ensures CString(buf, lo) == buf[lo..hi]
    decreases hi - lo
  {
    if lo < hi { CStringIs(buf, lo + 1, hi); }
  }

  /** NULs land only on delimiters, so every word reads as its own slice of the line. */
  lemma WordsIntact(line: string, c: Cmd, buf: seq<char>, t: Tok)
    requires (forall k :: 0 <= k < |line| ==> line[k] != '\0') && |buf| == |line| + 1
    requires FromLine(Words(c), Lex(line, 0)) && t in Words(c)
    requires forall k: nat :: k < |buf| ==> buf[k] == if k in Ends(c) then '\0' else At(line, k)
    ensures t.lo <= t.hi <= |line| && CString(buf, t.lo) == line[t.lo..t.hi]
  {
    LexWords(line, t);
    forall k: nat | t.lo <= k < t.hi ensures k !in Ends(c) {
      forall u | u in Words(c) ensures u.hi != k {
        LexWords(line, u);
      }
    }
    assert t.hi in Ends(c);
    CStringIs(buf, t.lo, t.hi);
    assert buf[t.lo..t.hi] == line[t.lo..t.hi];
  }

  /** c is a derivation of the line: of its tokens, by the grammar. */
  ghost predicate Derives(line: string, c: Cmd) {
    exists ts :: Tokens(line, 0, ts) && IsLine(ts, c)
  }

  lemma DerivesIff(line: string, c: Cmd)
    ensures Derives(line, c) <==> IsLine(Lex(line, 0), c)
  {
    LexIs(line, Lex(line, 0));
    if ts :| Tokens(line, 0, ts) && IsLine(ts, c) {
      LexIs(line, ts);
    }
  }

  /** The whole of parsecmd: it accepts exactly the lines of the grammar, with their only tree, and
      leaves every word of the tree a C string in the buffer. */
  method ParseCmd(line: string) returns (ok: bool, cmd: Cmd, buf: array<char>)
    requires forall k :: 0 <= k < |line| ==> line[k] != '\0'
    ensures ok <==> exists c :: Derives(line, c)
    ensures ok ==> forall c :: Derives(line, c) <==> c == cmd
    ensures ok ==> buf.Length == |line| + 1 && forall t :: t in Words(cmd) ==>
              t.lo <= t.hi <= |line| && CString(buf[..], t.lo) == line[t.lo..t.hi]
  {
    buf := new char[|line| + 1](i requires i >= 0 => At(line, i));
    var p := new Parser(line);
    ghost var ts := Lex(line, 0);
    ok, cmd := p.ParseLine();
    OnlyLine(line);
    hide Derives, Lex;
    if !ok {
      return;
    }
    ghost var s := p.s;
    var none := p.Peek("");
    LeftOvers(line, s);
    if p.s != |line| {
      ok := false;
      return;
    }
    WordsOfLine(line, cmd);
    forall t | t in Words(cmd) ensures t.hi < buf.Length { LexWords(line, t); }
    NulTerminate(cmd, buf);
    forall t | t in Words(cmd) ensures t.lo <= t.hi <= |line| && CString(buf[..], t.lo) == line[t.lo..t.hi] {
      WordsIntact(line, cmd, buf[..], t);
    }
  }

  lemma WordsOfLine(line: string, c: Cmd)
    requires Derives(line, c)
    ensures FromLine(Words(c), Lex(line, 0))
  {
    DerivesIff(line, c);
    LineWords(Lex(line, 0), c);
  }

  /** A line has a derivation exactly when the parser accepts all of it, and then only that one. */
  lemma OnlyLine(line: string)
    ensures var r := ShellGrammar.ParseLine(Lex(line, 0));
      && ((exists c :: Derives(line, c)) <==> r.Ok? && r.rest == [])
      && (r.Ok? && r.rest == [] ==> forall c :: Derives(line, c) <==> c == r.cmd)
  {
    var r := ShellGrammar.ParseLine(Lex(line, 0));
    forall c ensures Derives(line, c) <==> r == Ok(c, []) {
      DerivesIff(line, c);
      ParserIsGrammar(Lex(line, 0), c);
    }
    hide Derives;
    if r.Ok? && r.rest == [] { assert Derives(line, r.cmd); }
  }

  lemma LeftOvers(line: string, s: nat)
    requires s <= |line|
    ensures SkipSpace(line, s) == |line| <==> Lex(line, s) == []
  {}
}
