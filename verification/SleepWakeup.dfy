/** sleep, wakeup, yield, kill and the scheduler of kernel/proc.c under any interleaving, over any
    number of processes, channels and condition locks. One step is one section under a process
    lock, or one acquire or release. */
module SleepWakeup {

  datatype PState = SLEEPING | RUNNABLE | RUNNING

  /** Where a kernel thread is. In sleep(chan, lk): before taking its own lock, holding both,
      holding only its own, marked SLEEPING, off the CPU, back on one, about to retake lk. */
  datatype Pc =
    | Kernel
    | Called(chan: int, lk: nat) | Both(chan: int, lk: nat) | Own(chan: int, lk: nat) | Marked(chan: int, lk: nat)
    | Parked(chan: int, lk: nat) | Back(chan: int, lk: nat) | Relock(chan: int, lk: nat)
    | YieldMarked | YieldParked | YieldBack
    | Waking(chan: int, lk: nat, k: nat)

  const NONE := -1

  /** plock and clock: the thread that holds each process lock and each condition lock. */
  datatype State = State(st: seq<PState>, chan: seq<int>, plock: seq<int>, clock: seq<int>, pc: seq<Pc>)

  ghost predicate Shape(s: State) {
    |s.st| == |s.chan| == |s.plock| == |s.pc|
  }

  /** Thread p holds no condition lock but lk. */
  ghost predicate HoldsOnly(clock: seq<int>, p: int, lk: int) {
    forall l :: 0 <= l < |clock| && l != lk ==> clock[l] != p
  }

  datatype Act =
    | Acquire(lk: nat) | Release(lk: nat)
    | SleepCall(chan: int, lk: nat) | SleepLock | SleepRelease | SleepMark | Tidy | Retake
    | Yield | YieldDone
    | SwitchOut | Schedule
    | WakeBegin(chan: int, lk: nat) | WakeScan(chan: int, k: nat) | WakeEnd
    | Kill

  /** What thread p does next; SwitchOut is the scheduler's release after swtch, Kill is done to p.
      A sleep with another lock held, or a yield with any, would panic in sched. */
  ghost predicate Step(s: State, p: nat, a: Act, t: State) {
    && Shape(s) && p < |s.pc|
    && match a
       case Acquire(lk) =>
         s.pc[p].Kernel? && lk < |s.clock| && s.clock[lk] == NONE && t == s.(clock := s.clock[lk := p])
       case Release(lk) =>
         s.pc[p].Kernel? && lk < |s.clock| && s.clock[lk] == p && t == s.(clock := s.clock[lk := NONE])
       case SleepCall(ch, lk) =>
         && s.pc[p].Kernel? && lk < |s.clock| && s.clock[lk] == p && HoldsOnly(s.clock, p, lk)
         && t == s.(pc := s.pc[p := Called(ch, lk)])
       case SleepLock =>
         && s.pc[p].Called? && s.plock[p] == NONE
         && t == s.(pc := s.pc[p := Both(s.pc[p].chan, s.pc[p].lk)], plock := s.plock[p := p])
       case SleepRelease =>
         && s.pc[p].Both? && s.pc[p].lk < |s.clock|
         && t == s.(pc := s.pc[p := Own(s.pc[p].chan, s.pc[p].lk)], clock := s.clock[s.pc[p].lk := NONE])
       case SleepMark =>
         && s.pc[p].Own?
         && t == s.(pc := s.pc[p := Marked(s.pc[p].chan, s.pc[p].lk)], st := s.st[p := SLEEPING],
                    chan := s.chan[p := s.pc[p].chan])
       case Tidy =>
         && s.pc[p].Back?
         && t == s.(pc := s.pc[p := Relock(s.pc[p].chan, s.pc[p].lk)], chan := s.chan[p := 0],
                    plock := s.plock[p := NONE])
       case Retake =>
         && s.pc[p].Relock? && s.pc[p].lk < |s.clock| && s.clock[s.pc[p].lk] == NONE
         && t == s.(pc := s.pc[p := Kernel], clock := s.clock[s.pc[p].lk := p])
       case Yield =>
         && s.pc[p].Kernel? && HoldsOnly(s.clock, p, NONE) && s.plock[p] == NONE
         && t == s.(pc := s.pc[p := YieldMarked], st := s.st[p := RUNNABLE], plock := s.plock[p := p])
       case YieldDone =>
         s.pc[p].YieldBack? && t == s.(pc := s.pc[p := Kernel], plock := s.plock[p := NONE])
       case SwitchOut =>
         && (s.pc[p].Marked? || s.pc[p].YieldMarked?)
         && t == s.(pc := s.pc[p := if s.pc[p].Marked? then Parked(s.pc[p].chan, s.pc[p].lk) else YieldParked],
                    plock := s.plock[p := NONE])
       case Schedule =>
         && (s.pc[p].Parked? || s.pc[p].YieldParked?) && s.st[p] == RUNNABLE && s.plock[p] == NONE
         && t == s.(pc := s.pc[p := if s.pc[p].Parked? then Back(s.pc[p].chan, s.pc[p].lk) else YieldBack],
                    st := s.st[p := RUNNING], plock := s.plock[p := p])
       case WakeBegin(ch, lk) =>
         s.pc[p].Kernel? && lk < |s.clock| && s.clock[lk] == p && t == s.(pc := s.pc[p := Waking(ch, lk, 0)])
       case WakeScan(ch, k) =>
         && s.pc[p].Waking? && s.pc[p].chan == ch && s.pc[p].k == k < |s.pc| && s.plock[k] == NONE
         && t == s.(pc := s.pc[p := Waking(ch, s.pc[p].lk, k + 1)],
                    st := s.st[k := if s.st[k] == SLEEPING && s.chan[k] == ch then RUNNABLE else s.st[k]])
       case WakeEnd =>
         s.pc[p].Waking? && s.pc[p].k == |s.pc| && t == s.(pc := s.pc[p := Kernel])
       case Kill =>
         s.plock[p] == NONE && s.st[p] == SLEEPING && t == s.(st := s.st[p := RUNNABLE])
  }

  // ---- the invariant ----

  /** Process p by itself: what it holds and its state, at each position. */
  ghost predicate LocalAt(pc: Pc, st: PState, chan: int, plock: int, clock: seq<int>, p: int) {
    && (plock == p || plock == NONE)
    && (plock == p <==> pc.Both? || pc.Own? || pc.Marked? || pc.Back? || pc.YieldMarked? || pc.YieldBack?)
    && (pc.Called? || pc.Both? ==> pc.lk < |clock| && clock[pc.lk] == p && HoldsOnly(clock, p, pc.lk))
    && (pc.Waking? ==> pc.lk < |clock| && clock[pc.lk] == p)
    && (pc.Own? || pc.Marked? || pc.Parked? || pc.Back? || pc.Relock? ==> pc.lk < |clock| && HoldsOnly(clock, p, NONE))
    && (pc.YieldMarked? || pc.YieldParked? || pc.YieldBack? ==> HoldsOnly(clock, p, NONE))
    && match pc
       case Marked(ch, _) => st == SLEEPING && chan == ch
       case Parked(ch, _) => st == RUNNABLE || (st == SLEEPING && chan == ch)
       case YieldMarked => st == RUNNABLE
       case YieldParked => st == RUNNABLE
       case _ => st == RUNNING
  }

  /** p has called sleep(chan, lk), has let lk go, and has not been woken. */
  predicate Asleep(pc: Pc, st: PState, chan: int, lk: nat) {
    pc == Own(chan, lk) || pc == Marked(chan, lk) || (pc == Parked(chan, lk) && st == SLEEPING)
  }

  /** A wakeup leaves no sleeper of its channel and lock behind. */
  ghost predicate ScanAt(pc: Pc, pcs: seq<Pc>, st: seq<PState>)
    requires |pcs| == |st|
  {
    pc.Waking? ==> pc.k <= |pcs| && forall i :: 0 <= i < pc.k ==> !Asleep(pcs[i], st[i], pc.chan, pc.lk)
  }

  ghost predicate LocalOk(s: State, p: int)
    requires Shape(s) && 0 <= p < |s.pc|
  {
    LocalAt(s.pc[p], s.st[p], s.chan[p], s.plock[p], s.clock, p)
  }

  ghost predicate Inv(s: State) {
    && Shape(s)
    && (forall p :: 0 <= p < |s.pc| ==> LocalOk(s, p))
    && (forall p :: 0 <= p < |s.pc| ==> ScanAt(s.pc[p], s.pc, s.st))
  }

  // ---- every step keeps it ----

  lemma OwnLocal(s: State, p: nat, a: Act, t: State)
    requires Inv(s) && Step(s, p, a, t)
    ensures Shape(t) && |t.pc| == |s.pc| && LocalOk(t, p)
  {
    assert LocalOk(s, p);
  }

  lemma OtherLocal(s: State, p: nat, a: Act, t: State, i: nat)
    requires Inv(s) && Step(s, p, a, t) && i < |s.pc| && i != p
    ensures Shape(t) && |t.pc| == |s.pc| && LocalOk(t, i)
  {
    assert LocalOk(s, i) && LocalOk(s, p);
  }

  /** The condition locks of other threads are as they were. */
  lemma LocalKeeps(s: State, p: nat, a: Act, t: State)
    requires Inv(s) && Step(s, p, a, t)
    ensures Shape(t) && forall i :: 0 <= i < |t.pc| ==> LocalOk(t, i)
  {
    OwnLocal(s, p, a, t);
    hide Inv, Step, LocalOk;
    forall i | 0 <= i < |t.pc| ensures LocalOk(t, i) {
      if i != p { OtherLocal(s, p, a, t, i); }
    }
  }

  /** Only the thread's own SleepRelease step makes a process asleep, and it holds lk until then. */
  lemma FallsAsleep(s: State, p: nat, a: Act, t: State, i: nat, ch: int, lk: nat)
    requires Inv(s) && Step(s, p, a, t) && Shape(t) && i < |t.pc| && Asleep(t.pc[i], t.st[i], ch, lk)
    ensures Asleep(s.pc[i], s.st[i], ch, lk) || (i == p && a == SleepRelease && s.pc[i] == Both(ch, lk))
  {
    assert LocalOk(s, i) && LocalOk(s, p);
  }

  lemma ScanKeeps(s: State, p: nat, a: Act, t: State, w: nat)
    requires Inv(s) && Step(s, p, a, t) && Shape(t) && w < |t.pc|
    ensures ScanAt(t.pc[w], t.pc, t.st)
  {
    assert LocalOk(s, w) && LocalOk(s, p) && ScanAt(s.pc[w], s.pc, s.st);
    if t.pc[w].Waking? {
      var ch, lk, k := t.pc[w].chan, t.pc[w].lk, t.pc[w].k;
      forall i | 0 <= i < k ensures !Asleep(t.pc[i], t.st[i], ch, lk) {
        assert LocalOk(s, i);
        if Asleep(t.pc[i], t.st[i], ch, lk) {
          FallsAsleep(s, p, a, t, i, ch, lk);
        }
      }
    }
  }

  lemma StepKeeps(s: State, p: nat, a: Act, t: State)
    requires Inv(s) && Step(s, p, a, t)
    ensures Inv(t)
  {
    LocalKeeps(s, p, a, t);
    forall w | 0 <= w < |t.pc| ensures ScanAt(t.pc[w], t.pc, t.st) {
      ScanKeeps(s, p, a, t, w);
    }
  }

  // ---- whole runs ----

  datatype Move = Move(p: nat, a: Act)

  ghost predicate Start(s: State) {
    && Shape(s) && (forall l :: 0 <= l < |s.clock| ==> s.clock[l] == NONE)
    && (forall p :: 0 <= p < |s.pc| ==> s.pc[p] == YieldParked && s.st[p] == RUNNABLE && s.plock[p] == NONE)
  }

  ghost predicate Run(ss: seq<State>, ms: seq<Move>) {
    |ss| == |ms| + 1 && Start(ss[0]) && forall i :: 0 <= i < |ms| ==> Step(ss[i], ms[i].p, ms[i].a, ss[i + 1])
  }

  lemma {:induction false} RunKeepsInv(ss: seq<State>, ms: seq<Move>, i: nat)
    requires Run(ss, ms) && i < |ss|
    ensures Inv(ss[i])
  {
    if i == 0 {
      forall p | 0 <= p < |ss[0].pc| ensures LocalOk(ss[0], p) && ScanAt(ss[0].pc[p], ss[0].pc, ss[0].st) {}
    } else {
      hide Inv, Step, Start;
      RunKeepsInv(ss, ms, i - 1);
      StepKeeps(ss[i - 1], ms[i - 1].p, ms[i - 1].a, ss[i]);
    }
  }

  /** p has called sleep(chan, lk) and has not been woken. */
  predicate InSleep(s: State, p: nat, chan: int, lk: nat)
    requires Shape(s) && p < |s.pc|
  {
    s.pc[p] == Called(chan, lk) || s.pc[p] == Both(chan, lk) || Asleep(s.pc[p], s.st[p], chan, lk)
  }

  /** When wakeup(chan) returns, its caller still holds lk and no process that called
      sleep(chan, lk) is still asleep, or on its way to be. */
  lemma NoneLeftAsleep(s: State, w: nat, t: State, p: nat)
    requires Inv(s) && Step(s, w, WakeEnd, t) && p < |t.pc|
    ensures var ch, lk := s.pc[w].chan, s.pc[w].lk;
      && lk < |t.clock| && t.clock[lk] == w && Shape(t) && !InSleep(t, p, ch, lk)
  {
    assert LocalOk(s, w) && LocalOk(s, p) && ScanAt(s.pc[w], s.pc, s.st);
  }

  /** Entering sleep is the only way to be in it. */
  lemma SleepStarts(s: State, q: nat, a: Act, t: State, p: nat, ch: int, lk: nat)
    requires Inv(s) && Step(s, q, a, t) && Shape(t) && p < |t.pc| && InSleep(t, p, ch, lk)
    ensures Shape(s) && p < |s.pc| && (InSleep(s, p, ch, lk) || (q == p && a == SleepCall(ch, lk)))
  {
    assert LocalOk(s, p) && LocalOk(s, q);
  }

  /** No lost wakeup, over any run: a process found SLEEPING in sleep(chan, lk) after a
      wakeup(chan) made under lk has returned, called that sleep after the wakeup returned. */
  lemma {:induction false} NoLostWakeup(ss: seq<State>, ms: seq<Move>, i: nat, j: nat, w: nat, p: nat, ch: int,
                                        lk: nat) returns (k: nat)
    requires Run(ss, ms) && i < j < |ss| && Step(ss[i], w, WakeEnd, ss[i + 1]) && ms[i] == Move(w, WakeEnd)
    requires ss[i].pc[w].chan == ch && ss[i].pc[w].lk == lk
    requires Shape(ss[j]) && p < |ss[j].pc| && InSleep(ss[j], p, ch, lk)
    ensures i < k < j && ms[k] == Move(p, SleepCall(ch, lk))
    decreases j
  {
    hide Start, Step, Inv, InSleep;
    RunKeepsInv(ss, ms, i);
    RunKeepsInv(ss, ms, j - 1);
    assert Step(ss[j - 1], ms[j - 1].p, ms[j - 1].a, ss[j]);
    if j - 1 == i {
      NoneLeftAsleep(ss[i], w, ss[j], p);
      assert false;
    } else {
      SleepStarts(ss[j - 1], ms[j - 1].p, ms[j - 1].a, ss[j], p, ch, lk);
      if ms[j - 1] == Move(p, SleepCall(ch, lk)) {
        k := j - 1;
      } else {
        k := NoLostWakeup(ss, ms, i, j - 1, w, p, ch, lk);
      }
    }
  }

  // ---- what a sleep returns from ----

  /** Where p's latest call of sleep is among the first n moves, or -1. */
  function LastCall(ms: seq<Move>, n: nat, p: nat): (i: int)
    requires n <= |ms|
    ensures -1 <= i < n && (i >= 0 ==> ms[i].p == p && ms[i].a.SleepCall?)
    ensures forall k :: i < k < n && ms[k].p == p ==> !ms[k].a.SleepCall?
  {
    if n == 0 then -1
    else if ms[n - 1].p == p && ms[n - 1].a.SleepCall? then n - 1
    else LastCall(ms, n - 1, p)
  }

  /** Between i and n somebody killed p or woke it on ch. */
  ghost predicate WokenSince(ms: seq<Move>, i: int, n: nat, p: nat, ch: int)
    requires n <= |ms|
  {
    exists k :: 0 <= i < k < n && (ms[k] == Move(p, Kill) || ms[k].a == WakeScan(ch, p))
  }

  predicate Sleeps(pc: Pc) {
    pc.Called? || pc.Both? || pc.Own? || pc.Marked? || pc.Parked? || pc.Back? || pc.Relock?
  }

  predicate Awake(pc: Pc, st: PState) { (pc.Parked? && st == RUNNABLE) || pc.Back? || pc.Relock? }

  ghost predicate SleeperAt(pc: Pc, st: PState, ms: seq<Move>, n: nat, p: nat)
    requires n <= |ms|
  {
    var i := LastCall(ms, n, p);
    Sleeps(pc) ==>
      i >= 0 && ms[i].a == SleepCall(pc.chan, pc.lk) && (Awake(pc, st) ==> WokenSince(ms, i, n, p, pc.chan))
  }

  /** A thread stays in its sleep, or leaves it; it becomes awake in it only by a kill or a wakeup of its
      channel. */
  lemma SleeperStep(s: State, q: nat, a: Act, t: State, p: nat)
    requires Inv(s) && Step(s, q, a, t) && p < |s.pc|
    ensures Shape(t) && p < |t.pc| && (Sleeps(t.pc[p]) ==>
      || (q == p && a == SleepCall(t.pc[p].chan, t.pc[p].lk) && !Awake(t.pc[p], t.st[p]))
      || (&& Sleeps(s.pc[p]) && s.pc[p].chan == t.pc[p].chan && s.pc[p].lk == t.pc[p].lk && !(q == p && a.SleepCall?)
          && (Awake(t.pc[p], t.st[p]) ==>
                Awake(s.pc[p], s.st[p]) || (q == p && a == Kill) || a == WakeScan(s.pc[p].chan, p))))
  {
    assert LocalOk(s, p) && LocalOk(s, q);
  }

  lemma {:induction false} SleeperIs(ss: seq<State>, ms: seq<Move>, n: nat, p: nat)
    requires Run(ss, ms) && n < |ss| && Shape(ss[n]) && p < |ss[n].pc|
    ensures SleeperAt(ss[n].pc[p], ss[n].st[p], ms, n, p)
  {
    if n > 0 {
      hide Step, Inv, WokenSince;
      RunKeepsInv(ss, ms, n - 1);
      var s, m, t := ss[n - 1], ms[n - 1], ss[n];
      SameThreads(s, m.p, m.a, t);
      SleeperIs(ss, ms, n - 1, p);
      SleeperStep(s, m.p, m.a, t, p);
      var i := LastCall(ms, n - 1, p);
      if Awake(t.pc[p], t.st[p]) && i >= 0 {
        WokenStep(ms, i, n, p, t.pc[p].chan);
      }
    }
  }

  lemma SameThreads(s: State, p: nat, a: Act, t: State)
    requires Step(s, p, a, t)
    ensures Shape(s) && p < |s.pc| == |t.pc|
  {}

  lemma WokenStep(ms: seq<Move>, i: nat, n: nat, p: nat, ch: int)
    requires i < n - 1 < |ms|
    ensures WokenSince(ms, i, n - 1, p, ch) || ms[n - 1] == Move(p, Kill) || ms[n - 1].a == WakeScan(ch, p)
            ==> WokenSince(ms, i, n, p, ch)
  {}

  /** sleep(chan, lk) returns with lk held, as it was called, and only if a wakeup of chan or a kill has
      reached the process since the call. */
  lemma SleepReturns(ss: seq<State>, ms: seq<Move>, j: nat)
    requires Run(ss, ms) && j < |ms| && ms[j].a == Retake
    ensures var p := ms[j].p; var i := LastCall(ms, j, p);
      && i >= 0 && ms[i].a.lk < |ss[i].clock| && ss[i].clock[ms[i].a.lk] == p
      && ms[i].a.lk < |ss[j + 1].clock| && ss[j + 1].clock[ms[i].a.lk] == p
      && WokenSince(ms, i, j, p, ms[i].a.chan)
  {
    hide Inv;
    var p, i := ms[j].p, LastCall(ms, j, ms[j].p);
    assert Step(ss[j], p, Retake, ss[j + 1]);
    SleeperIs(ss, ms, j, p);
    assert Step(ss[i], p, ms[i].a, ss[i + 1]);
  }
}
