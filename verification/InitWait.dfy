/** The one process of kernel/proc.c that may sleep in wait over a zombie child: init, when another
    process gives it the child. exit wakes init beforehand, which may be too early. */
module InitWait {
  import opened ExitWait

  predicate InitAsleep(s: State)
    requires Shape(s) && s.init < |s.st|
  {
    s.st[s.init] == SLEEPING && s.onSelf[s.init]
  }

  /** Init will not look at slot c again before it sleeps, or sleeps already. */
  predicate Behind(s: State, c: int)
    requires Shape(s) && s.init < |s.st|
  {
    InitAsleep(s) || (s.pc[s.init].WaitScan? && c < s.pc[s.init].k)
  }

  predicate ZombieOf(s: State, c: int)
    requires Shape(s)
  {
    0 <= c < |s.st| && s.parent[c] == s.init && s.st[c] == ZOMBIE
  }

  /** Init has a zombie child where it does not look. */
  ghost predicate Blind(s: State) {
    Shape(s) && s.init < |s.st| && exists c :: ZombieOf(s, c) && Behind(s, c)
  }

  /** Init sleeps in wait and has a zombie child. */
  ghost predicate Misses(s: State) {
    Shape(s) && s.init < |s.st| && InitAsleep(s) && exists c :: ZombieOf(s, c)
  }

  /** What makes init miss a zombie: one is given to it where it does not look any more, or a process
      becomes one there that was given to init after it had read its parent. */
  ghost predicate Overlooks(s: State, p: nat, a: Act)
    requires Shape(s) && s.init < |s.st|
  {
    && p < |s.pc| && s.pc[p].Reparenting?
    && match a
       case ReparentOne => s.pc[p].k < |s.st| && s.st[s.pc[p].k] == ZOMBIE && Behind(s, s.pc[p].k)
       case ExitDone(_) => s.parent[p] == s.init != s.pc[p].parent && Behind(s, p)
       case _ => false
  }

  lemma InitInTable(s: State)
    requires Inv(s)
    ensures Shape(s) && s.init < |s.st|
  {}

  /** Each zombie child out of sight was one before. */
  ghost predicate NothingNew(s: State, t: State)
    requires Shape(s) && Shape(t) && s.init == t.init < |s.st| == |t.st|
  {
    forall c :: ZombieOf(t, c) && Behind(t, c) ==> ZombieOf(s, c) && Behind(s, c)
  }

  lemma StillFine(s: State, t: State)
    requires Shape(s) && Shape(t) && s.init == t.init < |s.st| == |t.st| && NothingNew(s, t) && !Blind(s)
    ensures !Blind(t)
  {
    hide ZombieOf, Behind;
  }

  lemma ReparentOverlooks(s: State, p: nat, t: State)
    requires Inv(s) && Step(s, p, ReparentOne, t) && !Blind(s) && s.init < |s.st|
    ensures Blind(t) <==> Overlooks(s, p, ReparentOne)
  {
    Facts(s, p);
    hide Inv;
    var k := s.pc[p].k;
    if Overlooks(s, p, ReparentOne) {
      assert ZombieOf(t, k) && Behind(t, k);
    } else {
      hide Blind;
      StillFine(s, t);
    }
  }

  lemma ExitOverlooks(s: State, p: nat, status: int, t: State)
    requires Inv(s) && Step(s, p, ExitDone(status), t) && !Blind(s) && s.init < |s.st|
    ensures Blind(t) <==> Overlooks(s, p, ExitDone(status))
  {
    hide Inv;
    Facts(s, p);
    Facts(s, s.init);
    assert Holds(s.pc[p], p, s.pc[p].parent) && s.lock[s.pc[p].parent] == p != s.init;
    assert s.pc[s.init].WaitScan? ==> s.lock[s.init] == s.init;
    if Overlooks(s, p, ExitDone(status)) {
      assert ZombieOf(t, p) && Behind(t, p);
    } else {
      hide Blind;
      StillFine(s, t);
    }
  }

  predicate IsScan(a: Act) { a.ScanSkip? || a.ScanLive? || a.WaitSleep? || a.WaitBegin? || a.ResumeWait? }
  predicate IsFork(a: Act) { a.ForkBegin? || a.ForkFail? || a.ForkDone? || a.Reap? || a.ReapNoCopy? || a.WaitReturn? }

  lemma ScanSteps(s: State, p: nat, a: Act, t: State)
    requires Inv(s) && Step(s, p, a, t) && s.init < |s.st| && IsScan(a)
    ensures Shape(t) && t.init == s.init && |t.st| == |s.st| && NothingNew(s, t)
  {
    hide Inv;
    Facts(s, p);
  }

  lemma ForkSteps(s: State, p: nat, a: Act, t: State)
    requires Inv(s) && Step(s, p, a, t) && s.init < |s.st| && IsFork(a)
    ensures Shape(t) && t.init == s.init && |t.st| == |s.st| && NothingNew(s, t)
  {
    hide Inv;
    Facts(s, p);
  }

  lemma SwitchSteps(s: State, p: nat, a: Act, t: State)
    requires Inv(s) && Step(s, p, a, t) && s.init < |s.st| && !IsScan(a) && !IsFork(a) && !a.ReparentOne?
    requires !a.ExitDone?
    ensures Shape(t) && t.init == s.init && |t.st| == |s.st| && NothingNew(s, t)
  {
    hide Inv;
    Facts(s, p);
  }

  lemma OtherSteps(s: State, p: nat, a: Act, t: State)
    requires Inv(s) && Step(s, p, a, t) && !Blind(s) && s.init < |s.st| && !a.ReparentOne? && !a.ExitDone?
    ensures !Blind(t)
  {
    InitInTable(s);
    hide Inv, Blind, Step, NothingNew;
    if IsScan(a) {
      ScanSteps(s, p, a, t);
    } else if IsFork(a) {
      ForkSteps(s, p, a, t);
    } else {
      SwitchSteps(s, p, a, t);
    }
    StillFine(s, t);
  }

  /** Exactly those steps make init blind to a zombie; in particular falling asleep never does. */
  lemma OverlooksIff(s: State, p: nat, a: Act, t: State)
    requires Inv(s) && Step(s, p, a, t) && !Blind(s)
    ensures Shape(s) && s.init < |s.st| && (Blind(t) <==> Overlooks(s, p, a))
  {
    InitInTable(s);
    hide Inv, Step, Blind;
    match a
    case ReparentOne => ReparentOverlooks(s, p, t);
    case ExitDone(status) => ExitOverlooks(s, p, status, t);
    case _ => OtherSteps(s, p, a, t);
  }

  lemma MissIsBlind(s: State)
    requires Misses(s)
    ensures Blind(s)
  {
    var c :| ZombieOf(s, c);
    assert Behind(s, c);
  }

  lemma StartSees(s: State)
    requires Start(s)
    ensures !Blind(s)
  {}

  /** Whenever init sleeps over a zombie, or is blind to one, such a step came before, and init was
      blind ever since. */
  lemma {:induction false} MissHasCause(ss: seq<State>, ms: seq<Move>, i: nat) returns (j: nat)
    requires Run(ss, ms) && i < |ss| && (Misses(ss[i]) || Blind(ss[i]))
    ensures j < i && Shape(ss[j]) && ss[j].init < |ss[j].st| && Overlooks(ss[j], ms[j].p, ms[j].a)
    ensures forall k :: j < k <= i ==> Blind(ss[k])
    decreases i
  {
    hide Step, Start, Blind, Misses, Overlooks;
    if Misses(ss[i]) {
      MissIsBlind(ss[i]);
    }
    if i == 0 {
      StartSees(ss[0]);
      assert false;
    }
    j := i - 1;
    RunKeepsInv(ss, ms, j);
    if Blind(ss[j]) {
      j := MissHasCause(ss, ms, i - 1);
    } else {
      OverlooksIff(ss[j], ms[j].p, ms[j].a, ss[i]);
    }
  }

  /** A miss lasts until init is woken: by any wakeup of it or a kill, as by a later exit before it
      reparents, or by a child that exits with init recorded as its parent. */
  lemma MissLasts(s: State, p: nat, a: Act, t: State)
    requires Inv(s) && Misses(s) && Step(s, p, a, t) && !Misses(t)
    ensures (a == Wake && p == s.init) || (a.ExitDone? && s.pc[p] == Reparenting(s.init, |s.st|))
  {
    hide Inv, Step;
    var c: nat :| ZombieOf(s, c);
    if !(a == Wake && p == s.init) && !(a.ExitDone? && p < |s.pc| && s.pc[p] == Reparenting(s.init, |s.st|)) {
      if IsScan(a) {
        ScanStays(s, p, a, t, c);
      } else if IsFork(a) {
        ForkStays(s, p, a, t, c);
      } else if a.ReparentOne? || a.ReparentSkip? || a.ExitDone? {
        ExitStays(s, p, a, t, c);
      } else {
        SwitchStays(s, p, a, t, c);
      }
    }
    StepIn(s, p, a, t);
  }

  lemma StepIn(s: State, p: nat, a: Act, t: State)
    requires Step(s, p, a, t)
    ensures Shape(s) && p < |s.pc|
  {}

  ghost predicate Missing(s: State, c: nat) {
    Shape(s) && s.init < |s.st| && InitAsleep(s) && ZombieOf(s, c)
  }

  lemma ScanStays(s: State, p: nat, a: Act, t: State, c: nat)
    requires Inv(s) && Missing(s, c) && Step(s, p, a, t) && IsScan(a)
    ensures Missing(t, c)
  {
    hide Inv;
    Facts(s, p);
    Facts(s, s.init);
  }

  lemma ForkStays(s: State, p: nat, a: Act, t: State, c: nat)
    requires Inv(s) && Missing(s, c) && Step(s, p, a, t) && IsFork(a)
    ensures Missing(t, c)
  {
    hide Inv;
    Facts(s, p);
    Facts(s, s.init);
    Facts(s, c);
  }

  lemma ExitStays(s: State, p: nat, a: Act, t: State, c: nat)
    requires Inv(s) && Missing(s, c) && Step(s, p, a, t) && (a.ReparentOne? || a.ReparentSkip? || a.ExitDone?)
    requires !(a.ExitDone? && p < |s.pc| && s.pc[p] == Reparenting(s.init, |s.st|))
    ensures Missing(t, c)
  {
    hide Inv;
    Facts(s, p);
    Facts(s, s.init);
  }

  lemma SwitchStays(s: State, p: nat, a: Act, t: State, c: nat)
    requires Inv(s) && Missing(s, c) && Step(s, p, a, t) && !IsScan(a) && !IsFork(a) && !a.ReparentOne?
    requires !a.ReparentSkip? && !a.ExitDone?
    requires !(a == Wake && p == s.init)
    ensures Missing(t, c)
  {
    hide Inv;
    Facts(s, p);
    Facts(s, s.init);
    Facts(s, c);
  }

  // ---- a run in which init misses a zombie ----

  ghost predicate Reached(s: State) {
    exists ss, ms :: Run(ss, ms) && ss[|ms|] == s
  }

  lemma Goes(s: State, p: nat, a: Act, t: State)
    requires Reached(s) && Step(s, p, a, t)
    ensures Reached(t)
  {
    var ss, ms :| Run(ss, ms) && ss[|ms|] == s;
    hide Start, Step;
    var ss', ms' := ss + [t], ms + [Move(p, a)];
    assert ss'[0] == ss[0];
    forall i | 0 <= i < |ms'| ensures Step(ss'[i], ms'[i].p, ms'[i].a, ss'[i + 1]) {
      if i < |ms| { assert Step(ss[i], ms[i].p, ms[i].a, ss[i + 1]); }
    }
    assert Run(ss', ms') && ss'[|ms'|] == t;
  }

  // several steps at once

  lemma Runs(s: State, p: nat)
    requires Reached(s) && Shape(s) && p < |s.pc| && s.pc[p] == Parked(false) && s.st[p] == RUNNABLE
    requires s.lock[p] == NONE && !s.onSelf[p]
    ensures Reached(s.(pc := s.pc[p := Kernel], onCpu := s.onCpu[p := true], st := s.st[p := RUNNING]))
  {
    hide Reached;
    var a := s.(pc := s.pc[p := Resumed(false)], lock := s.lock[p := p], onCpu := s.onCpu[p := true],
                st := s.st[p := RUNNING]);
    var b := s.(pc := s.pc[p := Kernel], onCpu := s.onCpu[p := true], st := s.st[p := RUNNING]);
    Goes(s, p, Schedule, a);
    assert a.lock[p := NONE] == b.lock && a.onSelf[p := false] == b.onSelf && a.pc[p := Kernel] == b.pc;
    Goes(a, p, ResumeOther, b);
  }

  function Forked(s: State, p: nat, c: nat): State
    requires Shape(s) && c < |s.pc|
  {
    s.(pc := s.pc[c := Parked(false)], parent := s.parent[c := p], st := s.st[c := RUNNABLE],
       onSelf := s.onSelf[c := false],
       pid := s.pid[c := s.nextpid], nextpid := s.nextpid + 1)
  }

  lemma Forks(s: State, p: nat, c: nat)
    requires Reached(s) && Shape(s) && p < |s.pc| && c < |s.pc| && p != c && s.pc[p] == Kernel && s.lock[c] == NONE
    requires s.st[c] == UNUSED
    ensures Reached(Forked(s, p, c))
  {
    hide Reached;
    var a := s.(pc := s.pc[p := Forking(c)], lock := s.lock[c := p], pid := s.pid[c := s.nextpid],
                nextpid := s.nextpid + 1);
    Goes(s, p, ForkBegin(c), a);
    assert a.lock[c := NONE] == s.lock && a.pc[p := Kernel][c := Parked(false)] == s.pc[c := Parked(false)];
    Goes(a, p, ForkDone(s.nextpid), Forked(s, p, c));
  }

  /** exit locks the parent and itself. */
  lemma Locks(s: State, p: nat, q: nat)
    requires Reached(s) && Shape(s) && p < |s.pc| && q < |s.pc| && p != q && s.pc[p] == ExitRead && s.parent[p] == q
    requires s.lock[p] == s.lock[q] == NONE
    ensures Reached(s.(pc := s.pc[p := Reparenting(q, 0)], lock := s.lock[q := p][p := p]))
  {
    hide Reached;
    var a := s.(pc := s.pc[p := ExitParent(q)]);
    var b := s.(pc := s.pc[p := ExitSelf(q)], lock := s.lock[q := p]);
    var c := s.(pc := s.pc[p := Reparenting(q, 0)], lock := s.lock[q := p][p := p]);
    Goes(s, p, ExitReadParent, a);
    assert a.pc[p := ExitSelf(q)] == b.pc && b.pc[p := Reparenting(q, 0)] == c.pc;
    Goes(a, p, ExitLockParent, b);
    Goes(b, p, ExitLockSelf, c);
  }

  /** reparent passes the slots up to k, none of them a child. */
  lemma {:induction false} Skips(s: State, p: nat, q: nat, k: nat)
    requires Reached(s) && Shape(s) && p < |s.pc| && s.pc[p] == Reparenting(q, 0) && k <= |s.pc|
    requires forall c :: 0 <= c < k ==> s.parent[c] != p
    ensures Reached(s.(pc := s.pc[p := Reparenting(q, k)]))
  {
    hide Reached;
    if k == 0 {
      assert s.pc[p := Reparenting(q, 0)] == s.pc;
    } else {
      Skips(s, p, q, k - 1);
      var a, b := s.(pc := s.pc[p := Reparenting(q, k - 1)]), s.(pc := s.pc[p := Reparenting(q, k)]);
      assert a.pc[p := Reparenting(q, k)] == b.pc;
      Goes(a, p, ReparentSkip, b);
    }
  }

  // Init, its child, its grandchild and its great-grandchild.

  function Boot(): State {
    State([RUNNABLE, UNUSED, UNUSED, UNUSED], [NONE, NONE, NONE, NONE], [false, false, false, false], [1, 0, 0, 0],
          [0, 0, 0, 0],
          [NONE, NONE, NONE, NONE], [false, false, false, false], [Parked(false), Free, Free, Free], 0, 2, map[], map[])
  }

  /** All four run. */
  function Lives(): State {
    State([RUNNING, RUNNING, RUNNING, RUNNING], [NONE, 0, 1, 2], [false, false, false, false], [1, 2, 3, 4],
          [0, 0, 0, 0],
          [NONE, NONE, NONE, NONE], [true, true, true, true], [Kernel, Kernel, Kernel, Kernel], 0, 5, map[], map[])
  }

  lemma Booted()
    ensures Reached(Boot())
  {
    var s, none := Boot(), [];
    hide Step;
    assert Run([s], none) && [s][|none|] == s;
  }

  function Running(s: State, p: nat): State
    requires Shape(s) && p < |s.pc|
  {
    s.(pc := s.pc[p := Kernel], onCpu := s.onCpu[p := true], st := s.st[p := RUNNING])
  }

  lemma Family()
    ensures Reached(Lives())
  {
    hide Reached, Run, Step;
    Booted();
    Runs(Boot(), 0);
    var a := Running(Boot(), 0);
    Forks(a, 0, 1);
    var b := Forked(a, 0, 1);
    Runs(b, 1);
    var c := Running(b, 1);
    Forks(c, 1, 2);
    var d := Forked(c, 1, 2);
    Runs(d, 2);
    var e := Running(d, 2);
    Forks(e, 2, 3);
    var f := Forked(e, 2, 3);
    Runs(f, 3);
    assert Lives() == Running(f, 3);
  }

  /** The youngest two have begun to exit; waking init was in vain, since it is running. */
  function Exits(): State {
    Lives().(pc := [Kernel, Kernel, ExitRead, ExitRead])
  }

  lemma BothExit()
    requires Reached(Lives())
    ensures Reached(Exits())
  {
    hide Reached;
    var s := Lives();
    var a := s.(pc := s.pc[2 := ExitRead]);
    Goes(s, 2, ExitBegin, a);
    Goes(a, 3, ExitBegin, Exits());
  }

  /** Init has found its child alive and sleeps. */
  function Sleeps(): State {
    Exits().(st := [SLEEPING, RUNNING, RUNNING, RUNNING], onSelf := [true, false, false, false],
             onCpu := [false, true, true, true], pc := [Parked(true), Kernel, ExitRead, ExitRead])
  }

  lemma InitSleeps()
    requires Reached(Exits())
    ensures Reached(Sleeps())
  {
    hide Reached;
    var s := Exits();
    var a := s.(pc := s.pc[0 := WaitScan(0, false)], lock := s.lock[0 := 0]);
    Goes(s, 0, WaitBegin, a);
    var b := a.(pc := a.pc[0 := WaitScan(1, false)]);
    Goes(a, 0, ScanSkip, b);
    var c := b.(pc := b.pc[0 := WaitScan(2, true)]);
    Goes(b, 0, ScanLive, c);
    var d := c.(pc := c.pc[0 := WaitScan(3, true)]);
    Goes(c, 0, ScanSkip, d);
    var e := d.(pc := d.pc[0 := WaitScan(4, true)]);
    Goes(d, 0, ScanSkip, e);
    var f := e.(pc := e.pc[0 := SwitchingOut(true)], st := e.st[0 := SLEEPING], onSelf := e.onSelf[0 := true]);
    Goes(e, 0, WaitSleep, f);
    Goes(f, 0, SwitchDone, Sleeps());
  }

  /** The youngest is a zombie. */
  function Dies(): State {
    Sleeps().(st := [SLEEPING, RUNNING, RUNNING, ZOMBIE], onCpu := [false, true, true, false],
              pc := [Parked(true), Kernel, ExitRead, Dead], exited := map[4 := 0])
  }

  lemma YoungestDies()
    requires Reached(Sleeps())
    ensures Reached(Dies())
  {
    hide Reached;
    var s := Sleeps();
    Locks(s, 3, 2);
    var a := s.(pc := s.pc[3 := Reparenting(2, 0)], lock := s.lock[2 := 3][3 := 3]);
    Skips(a, 3, 2, 4);
    var b := a.(pc := a.pc[3 := Reparenting(2, 4)]);
    var c := b.(pc := b.pc[3 := ZombieOut], lock := b.lock[2 := NONE], st := b.st[3 := ZOMBIE], exited := map[4 := 0]);
    Goes(b, 3, ExitDone(0), c);
    Goes(c, 3, ZombieDone, Dies());
  }

  /** Its parent, with the locks of its own parent and of itself, has given it to init. */
  function Given(): State {
    Dies().(parent := [NONE, 0, 1, 0], lock := [NONE, 2, 2, NONE],
            pc := [Parked(true), Kernel, Reparenting(1, 4), Dead])
  }

  lemma ParentGivesItAway()
    requires Reached(Dies())
    ensures Reached(Given())
  {
    hide Reached;
    var s := Dies();
    Locks(s, 2, 1);
    var a := s.(pc := s.pc[2 := Reparenting(1, 0)], lock := s.lock[1 := 2][2 := 2]);
    Skips(a, 2, 1, 3);
    var b := a.(pc := a.pc[2 := Reparenting(1, 3)]);
    Goes(b, 2, ReparentOne, Given());
  }

  /** It is a zombie too, having woken its own parent, and has released its locks. */
  function Gone(): State {
    Given().(st := [SLEEPING, RUNNING, ZOMBIE, ZOMBIE], onCpu := [false, true, false, false],
             lock := [NONE, NONE, NONE, NONE],
             pc := [Parked(true), Kernel, Dead, Dead], exited := map[4 := 0, 3 := 0])
  }

  lemma ParentDies()
    requires Reached(Given())
    ensures Reached(Gone())
  {
    hide Reached;
    var s := Given();
    var a := s.(pc := s.pc[2 := ZombieOut], lock := s.lock[1 := NONE], st := s.st[2 := ZOMBIE],
                exited := s.exited[3 := 0]);
    Goes(s, 2, ExitDone(0), a);
    Goes(a, 2, ZombieDone, Gone());
  }

  /** Init sleeps over a zombie, off the CPU, with every lock free, so nobody is about to wake it. */
  ghost predicate MissedAfter(ss: seq<State>, ms: seq<Move>) {
    && Run(ss, ms) && Misses(ss[|ms|]) && ss[|ms|].pc[ss[|ms|].init] == Parked(true)
    && forall p :: 0 <= p < |ss[|ms|].lock| ==> ss[|ms|].lock[p] == NONE
  }

  /** There is such a run. */
  lemma InitMayMiss()
    ensures exists ss, ms :: MissedAfter(ss, ms)
  {
    Family();
    BothExit();
    InitSleeps();
    YoungestDies();
    ParentGivesItAway();
    ParentDies();
    assert ZombieOf(Gone(), 3);
    var ss, ms :| Run(ss, ms) && ss[|ms|] == Gone();
    hide Run;
    assert MissedAfter(ss, ms);
  }
}
