/** The log's space reservation under any interleaving of file system operations (kernel/log.c).

    One step is one section under log.lock, or the unlocked check at the top of log_write. Each
    operation issues at most MAXOPBLOCKS log_writes. */
module LogOps {
  import opened LogSpec

  datatype Op =
    | Idle
    | Running(used: nat)     // between begin_op and end_op, `used` log_writes done
    | Checked(used: nat)     // inside log_write, past the unlocked checks
    | Ending                 // inside end_op, going to commit
    | Cleared                // inside end_op, past commit's lh.n = 0

  /** `log` is lh.block[0 .. lh.n). */
  datatype State = State(log: seq<int>, outstanding: int, committing: bool, ops: map<nat, Op>)

  /** log_writes an operation may still issue. */
  function Budget(op: Op): nat {
    match op
    case Running(used) => if used <= MAXOPBLOCKS then MAXOPBLOCKS - used else 0
    case Checked(used) => if used <= MAXOPBLOCKS then MAXOPBLOCKS - used else 0
    case _ => 0
  }

  function Active(op: Op): nat {
    if op.Running? || op.Checked? then 1 else 0
  }

  function Committers(op: Op): nat {
    if op.Ending? || op.Cleared? then 1 else 0
  }

  /** Sum of f over the processes p < n. */
  function Sum(ops: map<nat, Op>, f: Op -> nat, n: nat): nat {
    if n == 0 then 0 else Sum(ops, f, n - 1) + if n - 1 in ops then f(ops[n - 1]) else 0
  }

  lemma {:induction false} SumUpdate(ops: map<nat, Op>, f: Op -> nat, n: nat, p: nat, op: Op)
    requires p in ops
    ensures p < n ==> Sum(ops[p := op], f, n) == Sum(ops, f, n) - f(ops[p]) + f(op)
    ensures p < n ==> Sum(ops, f, n) >= f(ops[p])
    ensures p >= n ==> Sum(ops[p := op], f, n) == Sum(ops, f, n)
    decreases n
  {
    if n > 0 {
      SumUpdate(ops, f, n - 1, p, op);
    }
  }

  lemma {:induction false} SumAtLeast(ops: map<nat, Op>, f: Op -> nat, n: nat, p: nat, q: nat)
    requires p in ops && q in ops && p != q && p < n && q < n
    ensures Sum(ops, f, n) >= f(ops[p]) + f(ops[q])
    decreases n
  {
    if p == n - 1 {
      SumUpdate(ops, f, n - 1, q, ops[q]);
    } else if q == n - 1 {
      SumUpdate(ops, f, n - 1, p, ops[p]);
    } else {
      SumAtLeast(ops, f, n - 1, p, q);
    }
  }

  // ---- steps; size is the log's size in blocks, n the number of processes ----

  /** begin_op, when it does not sleep. */
  ghost predicate Begin(s: State, p: nat, t: State) {
    && p in s.ops && s.ops[p].Idle?
    && !s.committing && |s.log| + (s.outstanding + 1) * MAXOPBLOCKS <= LOGSIZE
    && t == s.(outstanding := s.outstanding + 1, ops := s.ops[p := Running(0)])
  }

  /** A log_write about to be checked; an operation issues at most MAXOPBLOCKS of them. */
  ghost predicate Writes(s: State, p: nat) {
    p in s.ops && s.ops[p].Running? && s.ops[p].used < MAXOPBLOCKS
  }

  /** The panics of log_write: too big a transaction, or outside of one. */
  ghost predicate WritePanics(s: State, size: int) {
    |s.log| >= LOGSIZE || |s.log| >= size - 1 || s.outstanding < 1
  }

  ghost predicate Check(s: State, size: int, p: nat, t: State) {
    && Writes(s, p) && !WritePanics(s, size)
    && t == s.(ops := s.ops[p := Checked(s.ops[p].used)])
  }

  /** The locked part of log_write: absorb the block or append it. */
  ghost predicate Append(s: State, p: nat, no: int, t: State) {
    && p in s.ops && s.ops[p].Checked?
    && t == s.(log := if no in s.log then s.log else s.log + [no], ops := s.ops[p := Running(s.ops[p].used + 1)])
  }

  ghost predicate Ends(s: State, p: nat) {
    p in s.ops && s.ops[p].Running?
  }

  /** The panic of end_op. */
  ghost predicate EndPanics(s: State) {
    s.committing
  }

  ghost predicate End(s: State, p: nat, t: State) {
    && Ends(s, p) && !EndPanics(s)
    && if s.outstanding - 1 == 0
       then t == s.(outstanding := 0, committing := true, ops := s.ops[p := Ending])
       else t == s.(outstanding := s.outstanding - 1, ops := s.ops[p := Idle])
  }

  /** commit() is done with the transaction: lh.n = 0. */
  ghost predicate Clear(s: State, p: nat, t: State) {
    p in s.ops && s.ops[p].Ending? && t == s.(log := [], ops := s.ops[p := Cleared])
  }

  ghost predicate Finish(s: State, p: nat, t: State) {
    p in s.ops && s.ops[p].Cleared? && t == s.(committing := false, ops := s.ops[p := Idle])
  }

  ghost predicate StepOf(s: State, size: int, p: nat, no: int, t: State) {
    Begin(s, p, t) || Check(s, size, p, t) || Append(s, p, no, t) || End(s, p, t) || Clear(s, p, t) || Finish(s, p, t)
  }

  ghost predicate Step(s: State, size: int, t: State) {
    exists p: nat, no: int :: StepOf(s, size, p, no, t)
  }

  ghost predicate Init(s: State, n: nat) {
    && s.log == [] && s.outstanding == 0 && !s.committing
    && (forall p: nat :: p in s.ops <==> p < n) && (forall p :: p in s.ops ==> s.ops[p].Idle?)
  }

  ghost predicate Run(size: int, n: nat, ss: seq<State>) {
    && |ss| > 0 && Init(ss[0], n)
    && forall i :: 0 <= i < |ss| - 1 ==> Step(ss[i], size, ss[i + 1])
  }

  // ---- the invariant ----

  ghost predicate Inv(s: State, n: nat) {
    && (forall p: nat :: p in s.ops <==> p < n)
    && (forall p :: p in s.ops && s.ops[p].Running? ==> s.ops[p].used <= MAXOPBLOCKS)
    && (forall p :: p in s.ops && s.ops[p].Checked? ==> s.ops[p].used < MAXOPBLOCKS)
    && s.outstanding == Sum(s.ops, Active, n)
    && |s.log| + Sum(s.ops, Budget, n) <= LOGSIZE
    && Sum(s.ops, Committers, n) == (if s.committing then 1 else 0)
    && (s.committing ==> s.outstanding == 0)
  }

  lemma {:induction false} InitSums(s: State, f: Op -> nat, n: nat)
    requires f(Idle) == 0 && forall p :: p in s.ops ==> s.ops[p].Idle?
    ensures Sum(s.ops, f, n) == 0
    decreases n
  {
    if n > 0 {
      InitSums(s, f, n - 1);
    }
  }

  lemma UpdateSums(ops: map<nat, Op>, n: nat, p: nat, op: Op)
    requires p in ops && p < n
    ensures Sum(ops[p := op], Active, n) == Sum(ops, Active, n) - Active(ops[p]) + Active(op)
    ensures Sum(ops[p := op], Budget, n) == Sum(ops, Budget, n) - Budget(ops[p]) + Budget(op)
    ensures Sum(ops[p := op], Committers, n) == Sum(ops, Committers, n) - Committers(ops[p]) + Committers(op)
    ensures Sum(ops, Active, n) >= Active(ops[p]) && Sum(ops, Budget, n) >= Budget(ops[p])
    ensures Sum(ops, Committers, n) >= Committers(ops[p])
  {
    SumUpdate(ops, Active, n, p, op);
    SumUpdate(ops, Budget, n, p, op);
    SumUpdate(ops, Committers, n, p, op);
  }

  lemma BeginKeeps(s: State, n: nat, p: nat, t: State)
    requires Inv(s, n) && Begin(s, p, t)
    ensures Inv(t, n)
  {
    UpdateSums(s.ops, n, p, t.ops[p]);
    BudgetBound(s.ops, n);
  }

  lemma WriteKeeps(s: State, size: int, n: nat, p: nat, no: int, t: State)
    requires Inv(s, n) && (Check(s, size, p, t) || Append(s, p, no, t))
    ensures Inv(t, n)
  {
    UpdateSums(s.ops, n, p, t.ops[p]);
  }

  lemma EndKeeps(s: State, n: nat, p: nat, t: State)
    requires Inv(s, n) && (End(s, p, t) || Clear(s, p, t) || Finish(s, p, t))
    ensures Inv(t, n)
  {
    UpdateSums(s.ops, n, p, t.ops[p]);
    BudgetBound(t.ops, n);
  }

  lemma StepKeeps(s: State, size: int, n: nat, t: State)
    requires Inv(s, n) && Step(s, size, t)
    ensures Inv(t, n)
  {
    hide Inv, Begin, Check, Append, End, Clear, Finish;
    var p: nat, no: int :| StepOf(s, size, p, no, t);
    if Begin(s, p, t) {
      BeginKeeps(s, n, p, t);
    } else if Check(s, size, p, t) || Append(s, p, no, t) {
      WriteKeeps(s, size, n, p, no, t);
    } else {
      EndKeeps(s, n, p, t);
    }
  }

  lemma {:induction false} BudgetBound(ops: map<nat, Op>, n: nat)
    ensures Sum(ops, Budget, n) <= Sum(ops, Active, n) * MAXOPBLOCKS
    decreases n
  {
    if n > 0 {
      BudgetBound(ops, n - 1);
    }
  }

  lemma {:induction false} RunKeepsInv(size: int, n: nat, ss: seq<State>, i: nat)
    requires Run(size, n, ss) && i < |ss|
    ensures Inv(ss[i], n)
    decreases i
  {
    if i == 0 {
      InitSums(ss[0], Active, n);
      InitSums(ss[0], Budget, n);
      InitSums(ss[0], Committers, n);
    } else {
      RunKeepsInv(size, n, ss, i - 1);
      StepKeeps(ss[i - 1], size, n, ss[i]);
    }
  }

  /** A block is logged at most once, whoever writes it and however often. */
  lemma {:induction false} LoggedOnce(size: int, n: nat, ss: seq<State>, i: nat, j: nat, k: nat)
    requires Run(size, n, ss) && i < |ss| && j < k < |ss[i].log|
    ensures ss[i].log[j] != ss[i].log[k]
    decreases i
  {
    assert i > 0;
    var s, t := ss[i - 1], ss[i];
    var p, no :| StepOf(s, size, p, no, t);
    assert t.log == s.log || t.log == [] || (no !in s.log && t.log == s.log + [no]);
    if k < |s.log| && t.log != [] {
      LoggedOnce(size, n, ss, i - 1, j, k);
    }
  }

  /** commit runs only while no operation is outstanding, and at most one process runs it. */
  lemma CommitAlone(size: int, n: nat, ss: seq<State>, i: nat, p: nat, q: nat)
    requires Run(size, n, ss) && i < |ss| && p in ss[i].ops && q in ss[i].ops && p != q
    requires ss[i].ops[p].Ending? || ss[i].ops[p].Cleared?
    ensures ss[i].committing && ss[i].outstanding == 0 && ss[i].ops[q].Idle?
  {
    RunKeepsInv(size, n, ss, i);
    SumAtLeast(ss[i].ops, Committers, n, p, q);
    SumUpdate(ss[i].ops, Committers, n, p, ss[i].ops[p]);
    SumUpdate(ss[i].ops, Active, n, q, ss[i].ops[q]);
  }

  /** With a log of at least LOGSIZE + 1 blocks, no run reaches a panic of log_write or end_op. */
  lemma NoPanic(size: int, n: nat, ss: seq<State>, i: nat, p: nat)
    requires Run(size, n, ss) && i < |ss| && size >= LOGSIZE + 1
    ensures Writes(ss[i], p) ==> !WritePanics(ss[i], size)
    ensures Ends(ss[i], p) ==> !EndPanics(ss[i])
    ensures p in ss[i].ops && ss[i].ops[p].Checked? ==> |ss[i].log| < LOGSIZE
  {
    RunKeepsInv(size, n, ss, i);
    if p in ss[i].ops {
      SumUpdate(ss[i].ops, Budget, n, p, ss[i].ops[p]);
      SumUpdate(ss[i].ops, Active, n, p, ss[i].ops[p]);
    }
  }

  // ---- a smaller log can run out ----

  /** Three operations running, with k different blocks logged between them. */
  function Filled(k: nat): State
    requires k <= LOGSIZE
  {
    State(seq(k, i => i), 3, false,
          map[0 := Running(Share(k, 0)), 1 := Running(Share(k, 1)), 2 := Running(Share(k, 2))])
  }

  /** How many of k log_writes operation p has done when the three take turns. */
  function Share(k: nat, p: nat): nat
    requires p < 3
  {
    (k + 2 - p) / 3
  }

  lemma RunExtends(size: int, n: nat, ss: seq<State>, t: State)
    requires Run(size, n, ss) && Step(ss[|ss| - 1], size, t)
    ensures Run(size, n, ss + [t])
  {
    var rs := ss + [t];
    forall i | 0 <= i < |rs| - 1
      ensures Step(rs[i], size, rs[i + 1])
    {}
  }

  lemma ThreeBegun(size: int) returns (ss: seq<State>)
    ensures Run(size, 3, ss) && ss[|ss| - 1] == Filled(0)
  {
    var s0 := State([], 0, false, map[0 := Idle, 1 := Idle, 2 := Idle]);
    var s1 := State([], 1, false, map[0 := Running(0), 1 := Idle, 2 := Idle]);
    var s2 := State([], 2, false, map[0 := Running(0), 1 := Running(0), 2 := Idle]);
    assert Begin(s0, 0, s1) && StepOf(s0, size, 0, 0, s1);
    assert Begin(s1, 1, s2) && StepOf(s1, size, 1, 0, s2);
    assert Begin(s2, 2, Filled(0)) && StepOf(s2, size, 2, 0, Filled(0));
    ss := [s0, s1, s2, Filled(0)];
  }

  lemma {:induction false} Fill(size: int, k: nat) returns (ss: seq<State>)
    requires k <= LOGSIZE && k < size
    ensures Run(size, 3, ss) && ss[|ss| - 1] == Filled(k)
    decreases k, 0
  {
    if k == 0 {
      ss := ThreeBegun(size);
    } else {
      ss := Race(size, k - 1, 1);
    }
  }

  /** With at most LOGSIZE blocks, which is what mkfs makes, some run of three operations that
      keep to their budget reaches log_write's panic. */
  lemma SmallLogPanics(size: int) returns (ss: seq<State>, p: nat)
    requires 1 <= size <= LOGSIZE
    ensures Run(size, 3, ss) && Writes(ss[|ss| - 1], p) && WritePanics(ss[|ss| - 1], size)
  {
    ss := Fill(size, size - 1);
    p := (size - 1) % 3;
  }

  ghost predicate PanicsAfter(size: int, n: nat, ss: seq<State>, p: nat) {
    Run(size, n, ss) && Writes(ss[|ss| - 1], p) && WritePanics(ss[|ss| - 1], size)
  }

  ghost predicate CanPanic(size: int) {
    exists n: nat, ss: seq<State>, p: nat :: PanicsAfter(size, n, ss, p)
  }

  /** The reservation of begin_op is enough exactly for logs of more than LOGSIZE blocks. */
  lemma ReservationEnoughIff(size: int)
    requires size >= 1
    ensures !CanPanic(size) <==> size >= LOGSIZE + 1
  {
    if size <= LOGSIZE {
      var ss, p := SmallLogPanics(size);
      assert PanicsAfter(size, 3, ss, p);
    } else {
      forall n: nat, ss: seq<State>, p: nat
        ensures !PanicsAfter(size, n, ss, p)
      {
        if Run(size, n, ss) {
          NoPanic(size, n, ss, |ss| - 1, p);
        }
      }
    }
  }

  // ---- the unlocked checks of log_write, and the buffers ----

  const NBUF: nat := MAXOPBLOCKS * 3

  /** Operations past the checks of log_write that have not appended yet. */
  function Past(op: Op): nat {
    if op.Checked? then 1 else 0
  }

  /** At most three operations run, and so at most three log_writes get past a log with room for one. */
  ghost predicate Raced(s: State, size: int, n: nat) {
    s.outstanding <= 3 && (size >= 1 ==> |s.log| + Sum(s.ops, Past, n) <= size + 1)
  }

  lemma {:induction false} PastActive(ops: map<nat, Op>, n: nat)
    ensures Sum(ops, Past, n) <= Sum(ops, Active, n)
    decreases n
  {
    if n > 0 {
      PastActive(ops, n - 1);
    }
  }

  lemma RaceStep(s: State, size: int, n: nat, t: State)
    requires Inv(s, n) && Raced(s, size, n) && Step(s, size, t) && Inv(t, n)
    ensures Raced(t, size, n)
  {
    var p: nat, no: int :| StepOf(s, size, p, no, t);
    SumUpdate(s.ops, Past, n, p, t.ops[p]);
    PastActive(t.ops, n);
  }

  lemma {:induction false} RunRaced(size: int, n: nat, ss: seq<State>, i: nat)
    requires Run(size, n, ss) && i < |ss|
    ensures Inv(ss[i], n) && Raced(ss[i], size, n)
    decreases i
  {
    RunKeepsInv(size, n, ss, i);
    if i == 0 {
      InitSums(ss[0], Past, n);
    } else {
      RunRaced(size, n, ss, i - 1);
      RaceStep(ss[i - 1], size, n, ss[i]);
    }
  }

  /** From Filled(k), the next m operations have got past the checks, and j of them have appended. */
  function Racing(k: nat, m: nat, j: nat): State {
    State(seq(k + j, i => i), 3, false,
          map[0 := RacingOp(k, m, j, 0), 1 := RacingOp(k, m, j, 1), 2 := RacingOp(k, m, j, 2)])
  }

  function RacingOp(k: nat, m: nat, j: nat, p: nat): Op
    requires p < 3
  {
    if Turn(k, p) < j then Running(Share(k, p) + 1)
    else if Turn(k, p) < m then Checked(Share(k, p))
    else Running(Share(k, p))
  }

  /** How many of the others come before operation p after k log_writes. */
  function Turn(k: nat, p: nat): nat { (p - k) % 3 }

  lemma WhoseTurn(k: nat, m: nat)
    requires m < 3
    ensures Turn(k, (k + m) % 3) == m && (k + m < LOGSIZE ==> Share(k, (k + m) % 3) < MAXOPBLOCKS)
    ensures forall p: nat :: p < 3 && Turn(k, p) == m ==> p == (k + m) % 3
  {
    var r, d := k % 3, k / 3;
    Mod3(r + m, d);
    forall p: nat | p < 3 ensures Turn(k, p) == (p - r) % 3 { Mod3(p - r, -d); }
  }

  lemma Mod3(a: int, b: int)
    ensures (a + 3 * b) % 3 == a % 3
  {}

  lemma RaceEnds(k: nat, m: nat)
    requires k + m <= LOGSIZE && m <= 3
    ensures Racing(k, 0, 0) == Filled(k) && Racing(k, m, m) == Filled(k + m)
  {
    assert forall p: nat :: p < 3 ==> RacingOp(k, m, m, p) == Running(Share(k + m, p));
  }

  lemma RaceCheck(size: int, k: nat, m: nat)
    requires k < size - 1 && k + m < LOGSIZE && m < 3
    ensures Step(Racing(k, m, 0), size, Racing(k, m + 1, 0))
  {
    var s, t, p := Racing(k, m, 0), Racing(k, m + 1, 0), (k + m) % 3;
    hide Turn, Share;
    WhoseTurn(k, m);
    assert s.ops[p] == Running(Share(k, p)) && t.ops == s.ops[p := Checked(Share(k, p))];
    assert Check(s, size, p, t) && StepOf(s, size, p, 0, t);
  }

  lemma RaceLogs(k: nat, m: nat, j: nat)
    ensures var s := Racing(k, m, j); k + j !in s.log && Racing(k, m, j + 1).log == s.log + [k + j]
  {}

  lemma RaceTurns(k: nat, m: nat, j: nat)
    requires j < m <= 3
    ensures var s, t, p := Racing(k, m, j), Racing(k, m, j + 1), (k + j) % 3;
      && p in s.ops && s.ops[p] == Checked(Share(k, p))
      && t == s.(log := t.log, ops := s.ops[p := Running(Share(k, p) + 1)])
  {
    hide Turn, Share;
    WhoseTurn(k, j);
  }

  lemma RaceAppend(size: int, k: nat, m: nat, j: nat)
    requires j < m <= 3
    ensures Step(Racing(k, m, j), size, Racing(k, m, j + 1))
  {
    var s, t, p := Racing(k, m, j), Racing(k, m, j + 1), (k + j) % 3;
    RaceLogs(k, m, j);
    RaceTurns(k, m, j);
    hide Racing;
    assert Append(s, p, k + j, t) && StepOf(s, size, p, k + j, t);
  }

  /** With room for one block, m operations get past the checks, and then all of them append. */
  lemma {:induction false} Race(size: int, k: nat, m: nat) returns (ss: seq<State>)
    requires k < size - 1 && k + m <= LOGSIZE && m <= 3
    ensures Run(size, 3, ss) && ss[|ss| - 1] == Filled(k + m)
    decreases k, 1
  {
    hide Racing, Filled, Run, Step;
    RaceEnds(k, m);
    ss := Fill(size, k);
    for i := 0 to m
      invariant Run(size, 3, ss) && |ss| > 0 && ss[|ss| - 1] == Racing(k, i, 0)
    {
      RaceCheck(size, k, i);
      RunExtends(size, 3, ss, Racing(k, i + 1, 0));
      ss := ss + [Racing(k, i + 1, 0)];
    }
    for j := 0 to m
      invariant Run(size, 3, ss) && |ss| > 0 && ss[|ss| - 1] == Racing(k, m, j)
    {
      RaceAppend(size, k, m, j);
      RunExtends(size, 3, ss, Racing(k, m, j + 1));
      ss := ss + [Racing(k, m, j + 1)];
    }
  }

  /** A run after which more blocks are logged than the log has room for. */
  ghost predicate OverflowsAfter(size: int, n: nat, ss: seq<State>) {
    Run(size, n, ss) && |ss[|ss| - 1].log| >= size
  }

  /** The logged blocks stay within the log exactly when it can take none or at least LOGSIZE: the
      checks of log_write are made without the lock. */
  lemma StaysInLogIff(size: int)
    requires size >= 1
    ensures (forall n: nat, ss: seq<State> :: !OverflowsAfter(size, n, ss)) <==> size == 1 || size >= LOGSIZE + 1
  {
    if 2 <= size <= LOGSIZE {
      var ss := Race(size, size - 2, 2);
      assert OverflowsAfter(size, 3, ss);
    } else {
      forall n: nat, ss: seq<State>
        ensures !OverflowsAfter(size, n, ss)
      {
        if Run(size, n, ss) {
          RunKeepsInv(size, n, ss, |ss| - 1);
          if size == 1 { NothingLogged(n, ss, |ss| - 1); }
        }
      }
    }
  }

  /** With a log of one block, every log_write panics. */
  lemma {:induction false} NothingLogged(n: nat, ss: seq<State>, i: nat)
    requires Run(1, n, ss) && i < |ss|
    ensures ss[i].log == [] && forall p :: p in ss[i].ops ==> !ss[i].ops[p].Checked?
    decreases i
  {
    if i > 0 {
      NothingLogged(n, ss, i - 1);
      var p: nat, no: int :| StepOf(ss[i - 1], 1, p, no, ss[i]);
    }
  }

  /** A run after which commit is about to start with as many blocks logged as there are buffers. */
  ghost predicate FillsBuffersAfter(size: int, n: nat, ss: seq<State>, p: nat) {
    Run(size, n, ss) && p in ss[|ss| - 1].ops && ss[|ss| - 1].ops[p].Ending? && |ss[|ss| - 1].log| >= NBUF
  }

  ghost predicate CanFillBuffers(size: int) {
    exists n: nat, ss: seq<State>, p: nat :: FillsBuffersAfter(size, n, ss, p)
  }

  /** The three operations of a full log end; the last one is to commit. */
  lemma EndAll(size: int, ss: seq<State>) returns (rs: seq<State>)
    requires Run(size, 3, ss) && ss[|ss| - 1] == Filled(LOGSIZE)
    ensures FillsBuffersAfter(size, 3, rs, 2)
  {
    var s := Filled(LOGSIZE);
    var a := s.(outstanding := 2, ops := s.ops[0 := Idle]);
    var b := a.(outstanding := 1, ops := a.ops[1 := Idle]);
    var c := b.(outstanding := 0, committing := true, ops := b.ops[2 := Ending]);
    assert End(s, 0, a) && StepOf(s, size, 0, 0, a);
    assert End(a, 1, b) && StepOf(a, size, 1, 0, b);
    assert End(b, 2, c) && StepOf(b, size, 2, 0, c);
    RunExtends(size, 3, ss, a);
    RunExtends(size, 3, ss + [a], b);
    RunExtends(size, 3, ss + [a] + [b], c);
    rs := ss + [a] + [b] + [c];
  }

  /** Some run gets to commit with NBUF blocks logged, so that Log.Commit panics, exactly when the log
      has at least LOGSIZE - 1 blocks. */
  lemma FillsBuffersIff(size: int)
    requires size >= 1
    ensures CanFillBuffers(size) <==> size >= LOGSIZE - 1
  {
    if size >= LOGSIZE - 1 {
      var ss: seq<State>;
      if size == LOGSIZE - 1 {
        ss := Race(size, LOGSIZE - 3, 3);
      } else if size == LOGSIZE {
        ss := Race(size, LOGSIZE - 2, 2);
      } else {
        ss := Fill(size, LOGSIZE);
      }
      ss := EndAll(size, ss);
    } else {
      forall n: nat, ss: seq<State>, p: nat
        ensures !FillsBuffersAfter(size, n, ss, p)
      {
        if Run(size, n, ss) {
          RunRaced(size, n, ss, |ss| - 1);
        }
      }
    }
  }

  /** So with as many buffers as LOGSIZE, no size of the log keeps every run from a panic. */
  lemma NoSizeIsSafe(size: int)
    requires size >= 1
    ensures CanPanic(size) || CanFillBuffers(size)
  {
    ReservationEnoughIff(size);
    FillsBuffersIff(size);
  }
}
