/** What fork, exit and wait report over whole runs, said by the calls alone: whose pid and which status
    a wait returns, and when it returns without a child. */
module ExitRuns {
  import opened ExitWait

  // ---- the status ----

  /** A pid exits once: what it exited with stays on record. */
  lemma ExitedStep(s: State, p: nat, a: Act, t: State, pid: nat)
    requires Inv(s) && Step(s, p, a, t)
    ensures pid in s.exited ==> pid in t.exited && t.exited[pid] == s.exited[pid]
    ensures a.ExitDone? ==> p < |s.pid| && s.pid[p] in t.exited && t.exited[s.pid[p]] == a.status
    ensures pid in t.exited && pid !in s.exited ==> a.ExitDone? && s.pid[p] == pid && t.exited[pid] == a.status
  {
    hide LocksOk, AllLocal, ParentsOk, LoopsOk, SleepersOk, PidsOk;
    Facts(s, p);
  }

  lemma {:induction false} ExitedStays(ss: seq<State>, ms: seq<Move>, i: nat, j: nat, pid: nat)
    requires Run(ss, ms) && i <= j < |ss| && pid in ss[i].exited
    ensures pid in ss[j].exited && ss[j].exited[pid] == ss[i].exited[pid]
    decreases j
  {
    hide Step, Inv, Start;
    if i < j {
      ExitedStays(ss, ms, i, j - 1, pid);
      RunKeepsInv(ss, ms, j - 1);
      ExitedStep(ss[j - 1], ms[j - 1].p, ms[j - 1].a, ss[j], pid);
    }
  }

  /** A process exits with a status, and later a wait reports its pid: it reports that status. */
  lemma StatusReported(ss: seq<State>, ms: seq<Move>, i: nat, j: nat)
    requires Run(ss, ms) && i < j < |ms| && ms[i].a.ExitDone? && ms[j].a.Reap?
    requires ms[i].p < |ss[i].pid| && ms[j].a.pid == ss[i].pid[ms[i].p]
    ensures ms[j].a.status == ms[i].a.status
  {
    hide Step, Inv, Start;
    RunKeepsInv(ss, ms, i);
    RunKeepsInv(ss, ms, j);
    ExitedStep(ss[i], ms[i].p, ms[i].a, ss[i + 1], ms[j].a.pid);
    ExitedStays(ss, ms, i + 1, j, ms[j].a.pid);
    ReapIsSafe(ss[j], ms[j].p, ms[j].a.pid, ms[j].a.status, ss[j + 1]);
  }

  lemma {:induction false} WhoExited(ss: seq<State>, ms: seq<Move>, j: nat, pid: nat) returns (i: nat)
    requires Run(ss, ms) && j < |ss| && pid in ss[j].exited
    ensures i < j && ms[i].a.ExitDone? && ms[i].p < |ss[i].pid| && ss[i].pid[ms[i].p] == pid
    decreases j
  {
    hide Step, Inv;
    if j == 0 {
      assert false;
    }
    i := j - 1;
    RunKeepsInv(ss, ms, i);
    ExitedStep(ss[i], ms[i].p, ms[i].a, ss[j], pid);
    if pid in ss[i].exited {
      i := WhoExited(ss, ms, i, pid);
    }
  }

  /** What a wait reports is the pid of a process that exited before, and the status it exited with. */
  lemma ReportedExited(ss: seq<State>, ms: seq<Move>, j: nat) returns (i: nat)
    requires Run(ss, ms) && j < |ms| && ms[j].a.Reap?
    ensures i < j && ms[i].a == ExitDone(ms[j].a.status)
    ensures ms[i].p < |ss[i].pid| && ss[i].pid[ms[i].p] == ms[j].a.pid
  {
    hide Step, Inv, Start;
    RunKeepsInv(ss, ms, j);
    ReapIsSafe(ss[j], ms[j].p, ms[j].a.pid, ms[j].a.status, ss[j + 1]);
    i := WhoExited(ss, ms, j, ms[j].a.pid);
    StatusReported(ss, ms, i, j);
  }

  // ---- whose child ----

  /** Move i is the fork of process pid by the process that slot q still has after n moves. */
  ghost predicate ForkedBy(ss: seq<State>, ms: seq<Move>, n: nat, i: nat, q: nat, pid: nat) {
    && i < n < |ss| && i < |ms| && ms[i] == Move(q, ForkDone(pid))
    && q < |ss[i].pid| && q < |ss[n].pid| && ss[i].pid[q] == ss[n].pid[q] != 0
  }

  /** The steps that touch parents, pids or the use of slots. */
  predicate Changes(a: Act) { a.ForkBegin? || a.ForkFail? || a.ForkDone? || a.Reap? || a.ReparentOne? }

  /** The others leave them alone. */
  ghost predicate Keeps(s: State, t: State) {
    && Shape(s) && Shape(t) && |t.st| == |s.st| && t.parent == s.parent && t.pid == s.pid && t.init == s.init
    && t.reaped == s.reaped && forall c :: 0 <= c < |s.st| ==> (t.st[c] == UNUSED <==> s.st[c] == UNUSED)
  }

  lemma OtherSteps(s: State, p: nat, a: Act, t: State)
    requires Inv(s) && Step(s, p, a, t) && !Changes(a)
    ensures Keeps(s, t)
  {
    hide LocksOk, AllLocal, ParentsOk, LoopsOk, SleepersOk, PidsOk, PidAt, LoopAt;
    Facts(s, p);
    if a.ExitDone? { Facts(s, s.pc[p].parent); }
  }

  /** A child of q after a step was its child before, or the step is the fork of it. The process in slot
      q is the same. */
  lemma ChildStep(s: State, p: nat, a: Act, t: State, c: nat, q: nat)
    requires Inv(s) && Step(s, p, a, t) && Inv(t) && c < |t.st| && t.st[c] != UNUSED && t.parent[c] == q && q != t.init
    requires c != t.init
    ensures c < |s.st| == |t.st| == |s.parent| == |s.pid| && q < |s.st| && t.init == s.init && t.pid[q] == s.pid[q] != 0
    ensures (a == ForkDone(t.pid[c]) && p == q) || (s.st[c] != UNUSED && s.parent[c] == q && t.pid[c] == s.pid[c])
  {
    ParentInUse(t, c);
    if Changes(a) {
      ChangeStep(s, p, a, t, c, q);
    } else {
      hide Inv, Step;
      OtherSteps(s, p, a, t);
    }
  }

  lemma ParentInUse(t: State, c: nat)
    requires Inv(t) && c < |t.st| && t.st[c] != UNUSED && c != t.init
    ensures 0 <= t.parent[c] < |t.st| && t.st[t.parent[c]] != UNUSED && t.pid[t.parent[c]] != 0
  {
    hide LocksOk, AllLocal, ParentsOk, LoopsOk, SleepersOk, PidsOk;
    Facts(t, c);
    Facts(t, t.parent[c]);
  }

  lemma ChangeStep(s: State, p: nat, a: Act, t: State, c: nat, q: nat)
    requires Inv(s) && Step(s, p, a, t) && Changes(a) && c < |t.st| && t.st[c] != UNUSED && t.parent[c] == q
    requires q != t.init && q < |t.st| && t.st[q] != UNUSED
    ensures c < |s.st| == |t.st| && q < |s.st| && t.init == s.init && t.pid[q] == s.pid[q]
    ensures (a == ForkDone(t.pid[c]) && p == q) || (s.st[c] != UNUSED && s.parent[c] == q && t.pid[c] == s.pid[c])
  {
    hide LocksOk, AllLocal, ParentsOk, LoopsOk, SleepersOk, PidsOk, LocalOk, ParentAt;
    Facts(s, p);
  }

  lemma {:induction false} ChildWasForked(ss: seq<State>, ms: seq<Move>, n: nat, c: nat, q: nat) returns (i: nat)
    requires Run(ss, ms) && n < |ss| && Shape(ss[n]) && c < |ss[n].st| && ss[n].st[c] != UNUSED
    requires ss[n].parent[c] == q && q != ss[n].init && c != ss[n].init
    ensures ForkedBy(ss, ms, n, i, q, ss[n].pid[c])
    decreases n
  {
    hide Step, Inv;
    if n == 0 {
      assert false;
    }
    i := n - 1;
    RunKeepsInv(ss, ms, i);
    RunKeepsInv(ss, ms, n);
    ChildStep(ss[i], ms[i].p, ms[i].a, ss[n], c, q);
    ShapeOf(ss[i]);
    if ms[i] != Move(q, ForkDone(ss[n].pid[c])) {
      i := ChildWasForked(ss, ms, i, c, q);
    }
  }

  lemma ShapeOf(s: State)
    requires Inv(s)
    ensures Shape(s)
  {}

  lemma ReapedSlot(s: State, p: nat, pid: nat, status: int, t: State) returns (c: nat)
    requires Inv(s) && Step(s, p, Reap(pid, status), t)
    ensures c < |s.st| == |s.parent| == |s.pid| && s.st[c] != UNUSED && s.parent[c] == p && s.pid[c] == pid
    ensures c != s.init
  {
    hide LocksOk, AllLocal, ParentsOk, LoopsOk, SleepersOk, PidsOk;
    c := s.pc[p].k;
    Facts(s, c);
  }

  /** A process other than init waits only for what it forked itself. */
  lemma WaitsForOwn(ss: seq<State>, ms: seq<Move>, j: nat) returns (i: nat)
    requires Run(ss, ms) && j < |ms| && ms[j].a.Reap? && ms[j].p != ss[j].init
    ensures ForkedBy(ss, ms, j, i, ms[j].p, ms[j].a.pid)
  {
    RunKeepsInv(ss, ms, j);
    hide Inv;
    var c := ReapedSlot(ss[j], ms[j].p, ms[j].a.pid, ms[j].a.status, ss[j + 1]);
    ShapeOf(ss[j]);
    i := ChildWasForked(ss, ms, j, c, ms[j].p);
  }

  // ---- pids ----

  /** Some process in use has the pid, or a wait has reported it. */
  ghost predicate Known(s: State, pid: nat) {
    Shape(s) && (pid in s.reaped || exists c :: 0 <= c < |s.st| && s.st[c] != UNUSED && s.pid[c] == pid)
  }

  lemma KnownStep(s: State, p: nat, a: Act, t: State, pid: nat)
    requires Inv(s) && Step(s, p, a, t) && (Known(s, pid) || a == ForkDone(pid))
    ensures Known(t, pid)
  {
    if Changes(a) {
      KnownChange(s, p, a, t, pid);
    } else {
      hide Inv, Step;
      OtherSteps(s, p, a, t);
    }
  }

  lemma KnownChange(s: State, p: nat, a: Act, t: State, pid: nat)
    requires Inv(s) && Step(s, p, a, t) && Changes(a) && (Known(s, pid) || a == ForkDone(pid))
    ensures Known(t, pid)
  {
    hide LocksOk, AllLocal, ParentsOk, LoopsOk, SleepersOk, PidsOk, LocalOk, ParentAt;
    Facts(s, p);
    if a == ForkDone(pid) {
      assert t.st[s.pc[p].child] != UNUSED;
    } else if pid !in s.reaped {
      var c :| 0 <= c < |s.st| && s.st[c] != UNUSED && s.pid[c] == pid;
      assert pid in t.reaped || (t.st[c] != UNUSED && t.pid[c] == pid);
    }
  }

  lemma {:induction false} KnownStays(ss: seq<State>, ms: seq<Move>, i: nat, j: nat, pid: nat)
    requires Run(ss, ms) && i < j < |ss| && ms[i].a == ForkDone(pid)
    ensures Known(ss[j], pid)
    decreases j
  {
    hide Step, Inv, Start, Known;
    if i < j - 1 { KnownStays(ss, ms, i, j - 1, pid); }
    RunKeepsInv(ss, ms, j - 1);
    KnownStep(ss[j - 1], ms[j - 1].p, ms[j - 1].a, ss[j], pid);
  }

  /** A pid that fork is about to return is no process's yet. */
  lemma FreshPid(s: State, p: nat, pid: nat, t: State)
    requires Inv(s) && Step(s, p, ForkDone(pid), t)
    ensures !Known(s, pid)
  {
    Facts(s, p);
    var c := s.pc[p].child;
    assert s.st[c] == UNUSED && s.pid[c] == pid != 0;
    assert PidAt(s.st[c], s.pid[c], s.xstate[c], s.nextpid, s.exited, s.reaped);
    forall d | 0 <= d < |s.st| && s.st[d] != UNUSED ensures s.pid[d] != pid {
      if d < c { assert PidAt(s.st[d], s.pid[d], s.xstate[d], s.nextpid, s.exited, s.reaped); }
    }
  }

  /** Two forks of one run never return the same pid. */
  lemma ForkedOnce(ss: seq<State>, ms: seq<Move>, i: nat, j: nat)
    requires Run(ss, ms) && i < j < |ms| && ms[i].a.ForkDone? && ms[j].a.ForkDone?
    ensures ms[i].a.pid != ms[j].a.pid
  {
    hide Step, Inv, Start, Known;
    KnownStays(ss, ms, i, j, ms[i].a.pid);
    RunKeepsInv(ss, ms, j);
    FreshPid(ss[j], ms[j].p, ms[j].a.pid, ss[j + 1]);
  }

  // ---- waiting in vain ----

  /** A process other than init that has not been killed returns from wait without a child exactly when
      it has none, and sleeps exactly when it has some; none of them is a zombie. */
  lemma ChildlessIff(s: State, p: nat)
    requires Inv(s) && p < |s.pc| && s.pc[p].WaitScan? && s.pc[p].k == |s.pc| && p != s.init
    ensures (exists t :: Step(s, p, WaitReturn(false), t)) <==> forall c :: 0 <= c < |s.parent| ==> s.parent[c] != p
    ensures (exists t :: Step(s, p, WaitSleep, t)) <==> exists c :: 0 <= c < |s.parent| && s.parent[c] == p
    ensures NoZombieOf(s.st, s.parent, p)
  {
    Facts(s, p);
    var kids := s.pc[p].havekids;
    if kids {
      var t := s.(pc := s.pc[p := SwitchingOut(true)], st := s.st[p := SLEEPING], onSelf := s.onSelf[p := true]);
      assert Step(s, p, WaitSleep, t);
    } else {
      var t := s.(pc := s.pc[p := Kernel], lock := s.lock[p := NONE]);
      assert Step(s, p, WaitReturn(false), t);
    }
  }
}
