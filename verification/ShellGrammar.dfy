/** The command language of user/sh.c over tokens: the recursive-descent parser as functions, and
    the grammar it recognizes, said independently. */
module ShellGrammar {

  const MAXARGS := 10

  /** A token is its kind, which is its character, '+' for ">>" or 'a' for a word, and its place. */
  datatype Tok = Tok(kind: char, lo: nat, hi: nat)

  datatype Redirection = Redirection(op: char, file: Tok)

  datatype Cmd =
    | Exec(args: seq<Tok>)
    | Redir(cmd: Cmd, r: Redirection)
    | Pipe(left: Cmd, right: Cmd)
    | List(left: Cmd, right: Cmd)
    | Back(cmd: Cmd)

  /** A panic in the parser is an error. */
  datatype Result = Ok(cmd: Cmd, rest: seq<Tok>) | Err

  predicate IsRedir(k: char) { k == '<' || k == '>' || k == '+' }

  predicate Starts(ts: seq<Tok>, k: char) { ts != [] && ts[0].kind == k }

  // ---- the parser ----

  /** parseredirs. */
  function Redirs(c: Cmd, ts: seq<Tok>): (r: Result)
    ensures r.Ok? ==> |r.rest| <= |ts|
    decreases |ts|
  {
    if ts != [] && IsRedir(ts[0].kind) then
      if |ts| > 1 && ts[1].kind == 'a' then Redirs(Redir(c, Redirection(ts[0].kind, ts[1])), ts[2..]) else Err
    else Ok(c, ts)
  }

  /** The redirections, in order, around a command. */
  function Wrap(c: Cmd, rs: seq<Redirection>): Cmd
    decreases |rs|
  {
    if rs == [] then c else Redir(Wrap(c, rs[..|rs| - 1]), rs[|rs| - 1])
  }

  predicate EndsExec(ts: seq<Tok>) { ts == [] || ts[0].kind in {'|', ')', '&', ';'} }

  /** parseexec from where `args` and `rs` have been collected; redirections wrap the command, and
      the words go into it. */
  function Simple(args: seq<Tok>, rs: seq<Redirection>, ts: seq<Tok>): (r: Result)
    ensures r.Ok? ==> |r.rest| <= |ts|
    decreases |ts|
  {
    if ts != [] && IsRedir(ts[0].kind) then
      if |ts| > 1 && ts[1].kind == 'a' then Simple(args, rs + [Redirection(ts[0].kind, ts[1])], ts[2..]) else Err
    else if EndsExec(ts) then Ok(Wrap(Exec(args), rs), ts)
    else if ts[0].kind != 'a' || |args| + 1 >= MAXARGS then Err
    else Simple(args + [ts[0]], rs, ts[1..])
  }

  function ParseExec(ts: seq<Tok>): (r: Result)
    ensures r.Ok? ==> |r.rest| <= |ts|
    decreases |ts|, 0
  {
    if Starts(ts, '(') then
      var r := ParseLine(ts[1..]);
      if r.Err? || !Starts(r.rest, ')') then Err else Redirs(r.cmd, r.rest[1..])
    else Simple([], [], ts)
  }

  function ParsePipe(ts: seq<Tok>): (r: Result)
    ensures r.Ok? ==> |r.rest| <= |ts|
    decreases |ts|, 1
  {
    var r := ParseExec(ts);
    if r.Ok? && Starts(r.rest, '|') then
      var q := ParsePipe(r.rest[1..]);
      if q.Err? then Err else Ok(Pipe(r.cmd, q.cmd), q.rest)
    else r
  }

  /** The loop of parseline over '&'. */
  function Backs(c: Cmd, ts: seq<Tok>): (r: (Cmd, seq<Tok>))
    ensures |r.1| <= |ts| && !Starts(r.1, '&')
    decreases |ts|
  {
    if Starts(ts, '&') then Backs(Back(c), ts[1..]) else (c, ts)
  }

  function ParseLine(ts: seq<Tok>): (r: Result)
    ensures r.Ok? ==> |r.rest| <= |ts|
    decreases |ts|, 2
  {
    var r := ParsePipe(ts);
    if r.Err? then Err else
    var (c, rest) := Backs(r.cmd, r.rest);
    if Starts(rest, ';') then
      var q := ParseLine(rest[1..]);
      if q.Err? then Err else Ok(List(c, q.cmd), q.rest)
    else Ok(c, rest)
  }

  // ---- the grammar ----

  /** Words and redirections in any order. */
  ghost predicate IsSimple(ts: seq<Tok>, args: seq<Tok>, rs: seq<Redirection>)
    decreases |ts|
  {
    if ts == [] then args == [] && rs == []
    else if IsRedir(ts[0].kind) then
      |ts| > 1 && ts[1].kind == 'a' && rs != [] && rs[0] == Redirection(ts[0].kind, ts[1])
        && IsSimple(ts[2..], args, rs[1..])
    else ts[0].kind == 'a' && args != [] && args[0] == ts[0] && IsSimple(ts[1..], args[1..], rs)
  }

  /** exec ::= simple | '(' line ')' redirections */
  ghost predicate IsExec(ts: seq<Tok>, c: Cmd)
    decreases |ts|, 0
  {
    || (exists args, rs :: IsSimple(ts, args, rs) && |args| < MAXARGS && c == Wrap(Exec(args), rs))
    || (exists i: nat, d, rs :: BlockAt(ts, i, d, rs) && IsLine(ts[1..i], d) && c == Wrap(d, rs))
  }

  ghost predicate BlockAt(ts: seq<Tok>, i: nat, d: Cmd, rs: seq<Redirection>) {
    0 < i < |ts| && ts[0].kind == '(' && ts[i].kind == ')' && IsSimple(ts[i + 1..], [], rs)
  }

  /** pipe ::= exec | exec '|' pipe */
  ghost predicate IsPipe(ts: seq<Tok>, c: Cmd)
    decreases |ts|, 1
  {
    IsExec(ts, c)
      || (c.Pipe? && exists i: nat :: PipeAt(ts, i) && IsExec(ts[..i], c.left) && IsPipe(ts[i + 1..], c.right))
  }

  predicate PipeAt(ts: seq<Tok>, i: nat) { i < |ts| && ts[i].kind == '|' }

  /** background ::= pipe | background '&' */
  ghost predicate IsBackground(ts: seq<Tok>, c: Cmd)
    decreases |ts|, 2
  {
    IsPipe(ts, c) || (c.Back? && ts != [] && ts[|ts| - 1].kind == '&' && IsBackground(ts[..|ts| - 1], c.cmd))
  }

  /** line ::= background | background ';' line */
  ghost predicate IsLine(ts: seq<Tok>, c: Cmd)
    decreases |ts|, 3
  {
    IsBackground(ts, c)
      || (c.List? && exists i: nat :: ListAt(ts, i) && IsBackground(ts[..i], c.left) && IsLine(ts[i + 1..], c.right))
  }

  predicate ListAt(ts: seq<Tok>, i: nat) { i < |ts| && ts[i].kind == ';' }

  // ---- what the parser accepts is a derivation ----

  lemma {:induction false} WrapCons(c: Cmd, r: Redirection, rs: seq<Redirection>)
    ensures Wrap(Redir(c, r), rs) == Wrap(c, [r] + rs)
    decreases |rs|
  {
    if rs == [] {
      assert [r] + rs == [r];
      assert Wrap(c, [r][..0]) == c;
    } else {
      WrapCons(c, r, rs[..|rs| - 1]);
      assert ([r] + rs)[..|rs|] == [r] + rs[..|rs| - 1];
    }
  }

  /** The tokens before `rest`. */
  function Before(ts: seq<Tok>, rest: seq<Tok>): seq<Tok>
    requires |rest| <= |ts|
  {
    ts[..|ts| - |rest|]
  }

  predicate Suffix(ts: seq<Tok>, rest: seq<Tok>) { |rest| <= |ts| && ts == ts[..|ts| - |rest|] + rest }

  lemma SuffixTail(ts: seq<Tok>, n: nat, rest: seq<Tok>)
    requires n <= |ts| && Suffix(ts[n..], rest)
    ensures Suffix(ts, rest) && Before(ts, rest) == ts[..n] + Before(ts[n..], rest)
    ensures n <= |Before(ts, rest)| && Before(ts, rest)[n..] == Before(ts[n..], rest)
  {
    assert ts == ts[..n] + ts[n..];
  }

  lemma {:induction false} RedirsSound(c: Cmd, ts: seq<Tok>) returns (rs: seq<Redirection>)
    requires Redirs(c, ts).Ok?
    ensures var r := Redirs(c, ts); Suffix(ts, r.rest) && IsSimple(Before(ts, r.rest), [], rs) && r.cmd == Wrap(c, rs)
    decreases |ts|
  {
    if ts != [] && IsRedir(ts[0].kind) {
      var r := Redirection(ts[0].kind, ts[1]);
      var rs' := RedirsSound(Redir(c, r), ts[2..]);
      SuffixTail(ts, 2, Redirs(c, ts).rest);
      rs := [r] + rs';
      WrapCons(c, r, rs');
      assert rs[1..] == rs';
    } else {
      rs := [];
      assert ts[..0] == [];
    }
  }

  /** One turn of parseexec's loop. */
  lemma SimpleTurn(args: seq<Tok>, rs: seq<Redirection>, ts: seq<Tok>)
    requires Simple(args, rs, ts).Ok?
    ensures ts != [] && IsRedir(ts[0].kind) ==> |ts| > 1 && ts[1].kind == 'a'
    ensures ts != [] && IsRedir(ts[0].kind) ==>
              Simple(args, rs, ts) == Simple(args, rs + [Redirection(ts[0].kind, ts[1])], ts[2..])
    ensures EndsExec(ts) ==> Simple(args, rs, ts) == Ok(Wrap(Exec(args), rs), ts)
    ensures !EndsExec(ts) && !IsRedir(ts[0].kind) ==> ts[0].kind == 'a' && |args| + 1 < MAXARGS
    ensures !EndsExec(ts) && !IsRedir(ts[0].kind) ==> Simple(args, rs, ts) == Simple(args + [ts[0]], rs, ts[1..])
  {}

  /** Putting a redirection, or a word, before words and redirections. */
  lemma RedirFirst(ts: seq<Tok>, rest: seq<Tok>, args: seq<Tok>, q: seq<Redirection>)
    requires |ts| > 1 && IsRedir(ts[0].kind) && ts[1].kind == 'a'
    requires Suffix(ts[2..], rest) && IsSimple(Before(ts[2..], rest), args, q)
    ensures Suffix(ts, rest) && IsSimple(Before(ts, rest), args, [Redirection(ts[0].kind, ts[1])] + q)
  {
    hide Before, Suffix;
    SuffixTail(ts, 2, rest);
    assert ts[..2] == [ts[0], ts[1]];
    assert ([Redirection(ts[0].kind, ts[1])] + q)[1..] == q;
  }

  lemma WordFirst(ts: seq<Tok>, rest: seq<Tok>, q: seq<Tok>, rs: seq<Redirection>)
    requires ts != [] && ts[0].kind == 'a' && Suffix(ts[1..], rest) && IsSimple(Before(ts[1..], rest), q, rs)
    ensures Suffix(ts, rest) && IsSimple(Before(ts, rest), [ts[0]] + q, rs)
  {
    hide Before, Suffix;
    SuffixTail(ts, 1, rest);
    assert ([ts[0]] + q)[1..] == q;
  }

  lemma NoneFirst(ts: seq<Tok>)
    ensures Suffix(ts, ts) && IsSimple(Before(ts, ts), [], [])
  {
    assert ts[..0] == [];
  }

  lemma Regroup<T>(a: seq<T>, x: T, b: seq<T>)
    ensures a + ([x] + b) == (a + [x]) + b && a + [] == a
  {}

  lemma {:induction false} SimpleSound(args: seq<Tok>, rs: seq<Redirection>, ts: seq<Tok>)
    returns (args': seq<Tok>, rs': seq<Redirection>)
    requires Simple(args, rs, ts).Ok? && |args| < MAXARGS
    ensures var r := Simple(args, rs, ts);
      && Suffix(ts, r.rest) && IsSimple(Before(ts, r.rest), args', rs') && r.cmd == Wrap(Exec(args + args'), rs + rs')
      && |args + args'| < MAXARGS
    decreases |ts|
  {
    hide Simple, IsSimple, Wrap, Before, Suffix;
    SimpleTurn(args, rs, ts);
    var rest := Simple(args, rs, ts).rest;
    if ts != [] && IsRedir(ts[0].kind) {
      var r := Redirection(ts[0].kind, ts[1]);
      var q: seq<Redirection>;
      args', q := SimpleSound(args, rs + [r], ts[2..]);
      RedirFirst(ts, rest, args', q);
      Regroup(rs, r, q);
      rs' := [r] + q;
    } else if EndsExec(ts) {
      args', rs' := [], [];
      NoneFirst(ts);
      assert args + args' == args && rs + rs' == rs;
    } else {
      var q: seq<Tok>;
      q, rs' := SimpleSound(args + [ts[0]], rs, ts[1..]);
      WordFirst(ts, rest, q, rs');
      Regroup(args, ts[0], q);
      args' := [ts[0]] + q;
    }
  }

  /** parseexec on a block and on anything else. */
  lemma ExecTurn(ts: seq<Tok>)
    requires ParseExec(ts).Ok?
    ensures Starts(ts, '(') ==> ParseLine(ts[1..]).Ok? && Starts(ParseLine(ts[1..]).rest, ')')
    ensures Starts(ts, '(') ==>
              var l := ParseLine(ts[1..]);
              ParseExec(ts) == Redirs(l.cmd, l.rest[1..]) && |l.rest| < |ts|
    ensures !Starts(ts, '(') ==> ParseExec(ts) == Simple([], [], ts)
  {
    hide Redirs, Simple, ParseLine;
  }

  lemma BlockIsExec(b: seq<Tok>, i: nat, d: Cmd, rs: seq<Redirection>)
    requires BlockAt(b, i, d, rs) && IsLine(b[1..i], d)
    ensures IsExec(b, Wrap(d, rs))
  {
    hide BlockAt, IsLine, IsSimple, Wrap;
  }

  lemma SimpleIsExec(b: seq<Tok>, args: seq<Tok>, rs: seq<Redirection>)
    requires IsSimple(b, args, rs) && |args| < MAXARGS
    ensures IsExec(b, Wrap(Exec(args), rs))
  {
    hide BlockAt, IsLine, IsSimple, Wrap;
  }

  lemma {:induction false} ExecSound(ts: seq<Tok>)
    requires ParseExec(ts).Ok?
    ensures var r := ParseExec(ts); Suffix(ts, r.rest) && IsExec(Before(ts, r.rest), r.cmd)
    decreases |ts|, 1
  {
    hide ParseExec, ParseLine, Redirs, Simple, IsExec, IsLine, IsSimple, Wrap, Before, Suffix;
    ExecTurn(ts);
    if Starts(ts, '(') {
      BlockSound(ts);
    } else {
      var args, rs := SimpleSound([], [], ts);
      assert [] + args == args && [] + rs == rs;
      SimpleIsExec(Before(ts, ParseExec(ts).rest), args, rs);
    }
  }

  lemma {:induction false} BlockSound(ts: seq<Tok>)
    requires ParseExec(ts).Ok? && Starts(ts, '(')
    ensures var r := ParseExec(ts); Suffix(ts, r.rest) && IsExec(Before(ts, r.rest), r.cmd)
    decreases |ts|, 0
  {
    hide ParseExec, ParseLine, Redirs, Simple, IsExec, IsLine, IsSimple, Wrap, Before, Suffix;
    ExecTurn(ts);
    LineSound(ts[1..]);
    var l, r := ParseLine(ts[1..]), ParseExec(ts);
    SuffixTail(ts, 1, l.rest);
    var rs := RedirsSound(l.cmd, l.rest[1..]);
    BlockSplit(ts, l.rest, r.rest);
    BlockIsExec(Before(ts, r.rest), |ts| - |l.rest|, l.cmd, rs);
  }

  lemma BlockSplit(ts: seq<Tok>, mid: seq<Tok>, rest: seq<Tok>)
    requires Suffix(ts, mid) && mid != [] && Suffix(mid[1..], rest) && |mid| < |ts|
    ensures var i := |ts| - |mid|; Suffix(ts, rest) && (var b := Before(ts, rest);
      0 < i < |b| && b[0] == ts[0] && b[i] == mid[0] && b[i + 1..] == Before(mid[1..], rest)
        && b[1..i] == Before(ts[1..], mid) && b[..i] == Before(ts, mid))
  {
    var i := |ts| - |mid|;
    assert ts[i..] == mid;
    assert ts[i + 1..] == mid[1..];
    SuffixTail(ts, i + 1, rest);
  }

  lemma {:induction false} PipeSound(ts: seq<Tok>)
    requires ParsePipe(ts).Ok?
    ensures var r := ParsePipe(ts); Suffix(ts, r.rest) && IsPipe(Before(ts, r.rest), r.cmd)
    decreases |ts|, 2
  {
    ExecSound(ts);
    var r := ParseExec(ts);
    if Starts(r.rest, '|') {
      PipeSound(r.rest[1..]);
      var q := ParsePipe(r.rest[1..]);
      MidSplit(ts, r.rest, q.rest);
      assert PipeAt(Before(ts, q.rest), |ts| - |r.rest|);
    }
  }

  lemma MidSplit(ts: seq<Tok>, mid: seq<Tok>, rest: seq<Tok>)
    requires Suffix(ts, mid) && mid != [] && Suffix(mid[1..], rest)
    ensures var i := |ts| - |mid|; Suffix(ts, rest) && (var b := Before(ts, rest);
      i < |b| && b[i] == mid[0] && b[i + 1..] == Before(mid[1..], rest) && b[..i] == Before(ts, mid))
  {
    var i := |ts| - |mid|;
    assert ts[i..] == mid;
    assert ts[i + 1..] == mid[1..];
    SuffixTail(ts, i + 1, rest);
  }

  lemma {:induction false} BacksSound(ts: seq<Tok>, c: Cmd, rest: seq<Tok>)
    requires Suffix(ts, rest) && IsBackground(Before(ts, rest), c)
    ensures var (d, rest') := Backs(c, rest); Suffix(ts, rest') && IsBackground(Before(ts, rest'), d)
    decreases |rest|
  {
    if Starts(rest, '&') {
      var i := |ts| - |rest|;
      assert ts[i..] == rest;
      assert ts[i + 1..] == rest[1..];
      var b := Before(ts, rest[1..]);
      assert b[..|b| - 1] == Before(ts, rest) && b[|b| - 1] == rest[0];
      BacksSound(ts, Back(c), rest[1..]);
    }
  }

  /** parseline: what comes before the list, and whether there is one. */
  lemma LineTurn(ts: seq<Tok>)
    requires ParseLine(ts).Ok?
    ensures ParsePipe(ts).Ok? && |ParsePipe(ts).rest| <= |ts|
    ensures var (c, rest) := Backs(ParsePipe(ts).cmd, ParsePipe(ts).rest);
            if Starts(rest, ';') then
              var q := ParseLine(rest[1..]);
              q.Ok? && ParseLine(ts) == Ok(List(c, q.cmd), q.rest)
            else ParseLine(ts) == Ok(c, rest)
  {
    hide ParsePipe, Backs;
  }

  lemma ListIsLine(b: seq<Tok>, i: nat, l: Cmd, r: Cmd)
    requires ListAt(b, i) && IsBackground(b[..i], l) && IsLine(b[i + 1..], r)
    ensures IsLine(b, List(l, r))
  {
    hide IsBackground;
  }

  lemma BackIsLine(b: seq<Tok>, c: Cmd)
    requires IsBackground(b, c)
    ensures IsLine(b, c)
  {
    hide IsBackground;
  }

  lemma PipeIsBack(b: seq<Tok>, c: Cmd)
    requires IsPipe(b, c)
    ensures IsBackground(b, c)
  {
    hide IsPipe;
  }

  lemma {:induction false} LineSound(ts: seq<Tok>)
    requires ParseLine(ts).Ok?
    ensures var r := ParseLine(ts); Suffix(ts, r.rest) && IsLine(Before(ts, r.rest), r.cmd)
    decreases |ts|, 3
  {
    hide ParseLine, ParsePipe, Backs, IsPipe, IsBackground, IsLine, Before, Suffix;
    LineTurn(ts);
    PipeSound(ts);
    var r := ParsePipe(ts);
    PipeIsBack(Before(ts, r.rest), r.cmd);
    BacksSound(ts, r.cmd, r.rest);
    var (c, rest) := Backs(r.cmd, r.rest);
    if Starts(rest, ';') {
      LineSound(rest[1..]);
      var q := ParseLine(rest[1..]);
      MidSplit(ts, rest, q.rest);
      ListIsLine(Before(ts, q.rest), |ts| - |rest|, c, q.cmd);
    } else {
      BackIsLine(Before(ts, rest), c);
    }
  }

  // ---- and every derivation is found ----

  lemma {:induction false} RedirsComplete(c: Cmd, ts: seq<Tok>, rs: seq<Redirection>, rest: seq<Tok>)
    requires IsSimple(ts, [], rs) && (rest == [] || !IsRedir(rest[0].kind))
    ensures Redirs(c, ts + rest) == Ok(Wrap(c, rs), rest)
    decreases |ts|
  {
    if ts == [] {
      assert ts + rest == rest;
    } else {
      assert (ts + rest)[2..] == ts[2..] + rest;
      RedirsComplete(Redir(c, rs[0]), ts[2..], rs[1..], rest);
      WrapCons(c, rs[0], rs[1..]);
      assert [rs[0]] + rs[1..] == rs;
    }
  }

  lemma {:induction false} SimpleComplete(args: seq<Tok>, rs: seq<Redirection>, ts: seq<Tok>, args': seq<Tok>,
                                          rs': seq<Redirection>, rest: seq<Tok>)
    requires IsSimple(ts, args', rs') && |args + args'| < MAXARGS && EndsExec(rest)
    ensures Simple(args, rs, ts + rest) == Ok(Wrap(Exec(args + args'), rs + rs'), rest)
    decreases |ts|
  {
    if ts == [] {
      assert ts + rest == rest && args + args' == args && rs + rs' == rs;
    } else if IsRedir(ts[0].kind) {
      assert (ts + rest)[2..] == ts[2..] + rest;
      SimpleComplete(args, rs + [rs'[0]], ts[2..], args', rs'[1..], rest);
      assert rs + [rs'[0]] + rs'[1..] == rs + rs';
    } else {
      assert (ts + rest)[1..] == ts[1..] + rest;
      SimpleComplete(args + [ts[0]], rs, ts[1..], args'[1..], rs', rest);
      assert args + [ts[0]] + args'[1..] == args + args';
    }
  }

  lemma SimpleStart(ts: seq<Tok>, args: seq<Tok>, rs: seq<Redirection>, rest: seq<Tok>)
    requires IsSimple(ts, args, rs) && EndsExec(rest)
    ensures !Starts(ts + rest, '(')
  {}

  lemma SimpleExecComplete(ts: seq<Tok>, args: seq<Tok>, rs: seq<Redirection>, rest: seq<Tok>)
    requires IsSimple(ts, args, rs) && |args| < MAXARGS && EndsExec(rest)
    ensures ParseExec(ts + rest) == Ok(Wrap(Exec(args), rs), rest)
  {
    SimpleStart(ts, args, rs, rest);
    assert [] + args == args && [] + rs == rs;
    SimpleComplete([], [], ts, args, rs, rest);
    hide IsSimple, Simple;
  }

  lemma BlockComplete(ts: seq<Tok>, i: nat, d: Cmd, rs: seq<Redirection>, rest: seq<Tok>)
    requires BlockAt(ts, i, d, rs) && EndsExec(rest)
    requires ParseLine(ts[1..i] + ([ts[i]] + (ts[i + 1..] + rest))) == Ok(d, [ts[i]] + (ts[i + 1..] + rest))
    ensures ParseExec(ts + rest) == Ok(Wrap(d, rs), rest)
  {
    var tail := ts[i + 1..] + rest;
    var mid := [ts[i]] + tail;
    assert (ts + rest)[1..] == ts[1..i] + mid;
    assert mid[1..] == tail;
    RedirsComplete(d, ts[i + 1..], rs, rest);
    hide IsSimple, Redirs, ParseLine;
  }

  lemma {:induction false} ExecComplete(ts: seq<Tok>, c: Cmd, rest: seq<Tok>)
    requires IsExec(ts, c) && EndsExec(rest)
    ensures ParseExec(ts + rest) == Ok(c, rest)
    decreases |ts|, 0
  {
    if args, rs :| IsSimple(ts, args, rs) && |args| < MAXARGS && c == Wrap(Exec(args), rs) {
      SimpleExecComplete(ts, args, rs, rest);
    } else {
      var i: nat, d, rs :| BlockAt(ts, i, d, rs) && IsLine(ts[1..i], d) && c == Wrap(d, rs);
      LineComplete(ts[1..i], d, [ts[i]] + (ts[i + 1..] + rest));
      BlockComplete(ts, i, d, rs, rest);
    }
  }

  predicate EndsPipe(ts: seq<Tok>) { ts == [] || ts[0].kind in {')', '&', ';'} }

  lemma {:induction false} PipeComplete(ts: seq<Tok>, c: Cmd, rest: seq<Tok>)
    requires IsPipe(ts, c) && EndsPipe(rest)
    ensures ParsePipe(ts + rest) == Ok(c, rest)
    decreases |ts|, 1
  {
    if IsExec(ts, c) {
      ExecComplete(ts, c, rest);
    } else {
      var i: nat :| PipeAt(ts, i) && IsExec(ts[..i], c.left) && IsPipe(ts[i + 1..], c.right);
      var mid := [ts[i]] + (ts[i + 1..] + rest);
      assert ts + rest == ts[..i] + mid;
      ExecComplete(ts[..i], c.left, mid);
      assert mid[1..] == ts[i + 1..] + rest;
      PipeComplete(ts[i + 1..], c.right, rest);
    }
  }

  lemma {:induction false} BackgroundComplete(ts: seq<Tok>, c: Cmd, rest: seq<Tok>)
    requires IsBackground(ts, c) && EndsPipe(rest)
    ensures var r := ParsePipe(ts + rest); r.Ok? && Backs(r.cmd, r.rest) == Backs(c, rest)
    decreases |ts|, 2
  {
    if IsPipe(ts, c) {
      PipeComplete(ts, c, rest);
    } else {
      var mid := [ts[|ts| - 1]] + rest;
      assert ts + rest == ts[..|ts| - 1] + mid;
      BackgroundComplete(ts[..|ts| - 1], c.cmd, mid);
      assert mid[1..] == rest;
    }
  }

  predicate EndsLine(ts: seq<Tok>) { ts == [] || ts[0].kind == ')' }

  lemma {:induction false} LineComplete(ts: seq<Tok>, c: Cmd, rest: seq<Tok>)
    requires IsLine(ts, c) && EndsLine(rest)
    ensures ParseLine(ts + rest) == Ok(c, rest)
    decreases |ts|, 3
  {
    if IsBackground(ts, c) {
      BackgroundComplete(ts, c, rest);
    } else {
      var i: nat :| ListAt(ts, i) && IsBackground(ts[..i], c.left) && IsLine(ts[i + 1..], c.right);
      var mid := [ts[i]] + (ts[i + 1..] + rest);
      assert ts + rest == ts[..i] + mid;
      BackgroundComplete(ts[..i], c.left, mid);
      assert mid[1..] == ts[i + 1..] + rest;
      LineComplete(ts[i + 1..], c.right, rest);
    }
  }

  /** The parser accepts exactly the lines of the grammar, with their tree. */
  lemma ParserIsGrammar(ts: seq<Tok>, c: Cmd)
    ensures ParseLine(ts) == Ok(c, []) <==> IsLine(ts, c)
  {
    if IsLine(ts, c) {
      LineComplete(ts, c, []);
      assert ts + [] == ts;
    }
    if ParseLine(ts) == Ok(c, []) {
      LineSound(ts);
      assert Before(ts, []) == ts;
    }
  }

  /** So a line has at most one derivation: the grammar is unambiguous. */
  lemma Unambiguous(ts: seq<Tok>, c: Cmd, d: Cmd)
    requires IsLine(ts, c) && IsLine(ts, d)
    ensures c == d
  {
    ParserIsGrammar(ts, c);
    ParserIsGrammar(ts, d);
  }

  /** '|' binds tighter than '&', and '&' tighter than ';', whatever the parts are. */
  lemma Precedence(e: seq<Tok>, c: Cmd, bar: Tok, f: seq<Tok>, d: Cmd, amp: Tok, semi: Tok, l: seq<Tok>, g: Cmd)
    requires IsExec(e, c) && IsExec(f, d) && IsLine(l, g) && bar.kind == '|' && amp.kind == '&' && semi.kind == ';'
    ensures ParseLine(e + [bar] + f + [amp] + [semi] + l) == Ok(List(Back(Pipe(c, d)), g), [])
  {
    var p := e + [bar] + f;
    assert PipeAt(p, |e|) && p[..|e|] == e && p[|e| + 1..] == f;
    assert IsPipe(f, d) && IsPipe(p, Pipe(c, d));
    var b := p + [amp];
    assert b[..|b| - 1] == p;
    assert IsBackground(p, Pipe(c, d)) && IsBackground(b, Back(Pipe(c, d)));
    var w := b + [semi] + l;
    assert ListAt(w, |b|) && w[..|b|] == b && w[|b| + 1..] == l;
    assert IsLine(w, List(Back(Pipe(c, d)), g));
    hide IsLine, ParseLine;
    ParserIsGrammar(w, List(Back(Pipe(c, d)), g));
  }

  // ---- redirections on their own ----

  /** The redirections at the front of ts, and what follows; not ok when a file is missing. */
  datatype Front = Front(ok: bool, rs: seq<Redirection>, rest: seq<Tok>)

  function TakeRedirs(ts: seq<Tok>): (f: Front)
    ensures |f.rest| <= |ts|
    decreases |ts|
  {
    if ts != [] && IsRedir(ts[0].kind) then
      if |ts| > 1 && ts[1].kind == 'a' then
        var f := TakeRedirs(ts[2..]);
        Front(f.ok, [Redirection(ts[0].kind, ts[1])] + f.rs, f.rest)
      else Front(false, [], ts)
    else Front(true, [], ts)
  }

  lemma {:induction false} RedirsTake(c: Cmd, ts: seq<Tok>)
    ensures var f := TakeRedirs(ts); Redirs(c, ts) == if f.ok then Ok(Wrap(c, f.rs), f.rest) else Err
    decreases |ts|
  {
    if |ts| > 1 && IsRedir(ts[0].kind) && ts[1].kind == 'a' {
      var r := Redirection(ts[0].kind, ts[1]);
      RedirsTake(Redir(c, r), ts[2..]);
      WrapCons(c, r, TakeRedirs(ts[2..]).rs);
    }
  }

  lemma {:induction false} SimpleTake(args: seq<Tok>, rs: seq<Redirection>, ts: seq<Tok>)
    ensures var f := TakeRedirs(ts); Simple(args, rs, ts) == (if f.ok then Simple(args, rs + f.rs, f.rest) else Err)
    ensures TakeRedirs(ts).ok ==> TakeRedirs(ts).rest == [] || !IsRedir(TakeRedirs(ts).rest[0].kind)
    decreases |ts|
  {
    if |ts| > 1 && IsRedir(ts[0].kind) && ts[1].kind == 'a' {
      var r := Redirection(ts[0].kind, ts[1]);
      SimpleTake(args, rs + [r], ts[2..]);
      assert rs + [r] + TakeRedirs(ts[2..]).rs == rs + ([r] + TakeRedirs(ts[2..]).rs);
    } else {
      assert rs + [] == rs;
    }
  }

  // ---- the words of a tree are words of the line ----

  function Words(c: Cmd): set<Tok> {
    match c
    case Exec(args) => set t | t in args
    case Redir(d, r) => Words(d) + {r.file}
    case Pipe(l, r) => Words(l) + Words(r)
    case List(l, r) => Words(l) + Words(r)
    case Back(d) => Words(d)
  }

  ghost predicate FromLine(ws: set<Tok>, ts: seq<Tok>) {
    forall t :: t in ws ==> t in ts && t.kind == 'a'
  }

  lemma {:induction false} WrapWords(c: Cmd, rs: seq<Redirection>, ts: seq<Tok>)
    requires FromLine(Words(c), ts) && forall r :: r in rs ==> r.file in ts && r.file.kind == 'a'
    ensures FromLine(Words(Wrap(c, rs)), ts)
    decreases |rs|
  {
    if rs != [] { WrapWords(c, rs[..|rs| - 1], ts); }
  }

  lemma {:induction false} SimpleWords(ts: seq<Tok>, args: seq<Tok>, rs: seq<Redirection>)
    requires IsSimple(ts, args, rs)
    ensures (forall t :: t in args ==> t in ts && t.kind == 'a')
    ensures (forall r :: r in rs ==> r.file in ts && r.file.kind == 'a')
    decreases |ts|
  {
    if ts != [] {
      if IsRedir(ts[0].kind) {
        SimpleWords(ts[2..], args, rs[1..]);
        assert forall r :: r in rs ==> r == rs[0] || r in rs[1..];
      } else {
        SimpleWords(ts[1..], args[1..], rs);
        assert forall t :: t in args ==> t == args[0] || t in args[1..];
      }
    }
  }

  lemma Wider(ws: set<Tok>, ts: seq<Tok>, lo: nat, hi: nat)
    requires lo <= hi <= |ts| && FromLine(ws, ts[lo..hi])
    ensures FromLine(ws, ts)
  {}

  lemma {:induction false} ExecWords(ts: seq<Tok>, c: Cmd)
    requires IsExec(ts, c)
    ensures FromLine(Words(c), ts)
    decreases |ts|, 0
  {
    if args, rs :| IsSimple(ts, args, rs) && |args| < MAXARGS && c == Wrap(Exec(args), rs) {
      SimpleWords(ts, args, rs);
      WrapWords(Exec(args), rs, ts);
    } else {
      var i: nat, d, rs :| BlockAt(ts, i, d, rs) && IsLine(ts[1..i], d) && c == Wrap(d, rs);
      LineWords(ts[1..i], d);
      Wider(Words(d), ts, 1, i);
      SimpleWords(ts[i + 1..], [], rs);
      WrapWords(d, rs, ts);
    }
  }

  lemma {:induction false} PipeWords(ts: seq<Tok>, c: Cmd)
    requires IsPipe(ts, c)
    ensures FromLine(Words(c), ts)
    decreases |ts|, 1
  {
    if IsExec(ts, c) {
      ExecWords(ts, c);
    } else {
      var i: nat :| PipeAt(ts, i) && IsExec(ts[..i], c.left) && IsPipe(ts[i + 1..], c.right);
      ExecWords(ts[..i], c.left);
      PipeWords(ts[i + 1..], c.right);
    }
  }

  lemma {:induction false} BackgroundWords(ts: seq<Tok>, c: Cmd)
    requires IsBackground(ts, c)
    ensures FromLine(Words(c), ts)
    decreases |ts|, 2
  {
    if IsPipe(ts, c) {
      PipeWords(ts, c);
    } else {
      BackgroundWords(ts[..|ts| - 1], c.cmd);
    }
  }

  lemma {:induction false} LineWords(ts: seq<Tok>, c: Cmd)
    requires IsLine(ts, c)
    ensures FromLine(Words(c), ts)
    decreases |ts|, 3
  {
    if IsBackground(ts, c) {
      BackgroundWords(ts, c);
    } else {
      var i: nat :| ListAt(ts, i) && IsBackground(ts[..i], c.left) && IsLine(ts[i + 1..], c.right);
      BackgroundWords(ts[..i], c.left);
      LineWords(ts[i + 1..], c.right);
    }
  }
}
