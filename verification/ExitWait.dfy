/** fork, exit and wait of kernel/proc.c under any interleaving, with the scheduler and wakeups.

    One step is one section under a process lock, or one unlocked read of a parent pointer. A
    lock is held by a process's kernel thread; between swtch and the scheduler's release the
    process that is switching out still counts as its holder. */
module ExitWait {

  datatype PState = UNUSED | SLEEPING | RUNNABLE | RUNNING | ZOMBIE

  /** Where a kernel thread is. `inWait` tells a sleep in wait() from any other sleep or yield. */
  datatype Pc =
    | Free                              // the slot is not in use
    | Kernel                            // running, holding no process lock
    | Forking(child: nat)               // in fork, holding the new slot's lock
    | SwitchingOut(inWait: bool)        // state set, own lock held, about to leave the CPU
    | Parked(inWait: bool)              // off the CPU
    | Resumed(inWait: bool)             // back on a CPU, own lock held
    | WaitScan(k: nat, havekids: bool)  // in wait's scan, own lock held
    | ExitRead                          // in exit, before reading the parent pointer
    | ExitParent(parent: nat)           // about to lock the parent it read
    | ExitSelf(parent: nat)             // holding that, about to lock itself
    | Reparenting(parent: nat, k: nat)  // in reparent, holding both
    | ZombieOut                         // ZOMBIE, own lock held, about to leave the CPU
    | Dead                              // ZOMBIE, off the CPU

  const NONE := -1

  /** The process table, field by field. onSelf: chan is the process itself, a sleep in wait;
      lock: the slot of the holder; onCpu: some CPU has it as c->proc. `exited` records the status
      each pid exited with, `reaped` what the wait that freed it reported. */
  datatype State = State(
    st: seq<PState>, parent: seq<int>, onSelf: seq<bool>, pid: seq<nat>, xstate: seq<int>,
    lock: seq<int>, onCpu: seq<bool>, pc: seq<Pc>,
    init: nat, nextpid: nat, exited: map<nat, int>, reaped: map<nat, int>)

  ghost predicate Shape(s: State) {
    |s.st| == |s.parent| == |s.onSelf| == |s.pid| == |s.xstate| == |s.lock| == |s.onCpu| == |s.pc|
  }

  /** Thread h, at pc, holds the lock of slot i. */
  predicate Holds(pc: Pc, h: int, i: int) {
    match pc
    case Forking(c) => i == c
    case SwitchingOut(_) => i == h
    case Resumed(_) => i == h
    case WaitScan(_, _) => i == h
    case ExitSelf(q) => i == q
    case Reparenting(q, _) => i == h || i == q
    case ZombieOut => i == h
    case _ => false
  }

  // ---- steps ----

  /** What a call reports is part of the step that returns it: ForkDone has the pid that fork returns,
      Reap the pid and the status of a wait. */
  datatype Act =
    | ForkBegin(c: nat) | ForkFail(cleared: bool) | ForkDone(pid: nat)
    | SwitchOut(sleep: bool) | SwitchDone | Schedule | ResumeOther | ResumeWait
    | WaitBegin | ScanSkip | ScanLive | Reap(pid: nat, status: int) | ReapNoCopy | WaitReturn(killed: bool)
    | WaitSleep
    | Wake
    | ExitBegin | ExitReadParent | ExitLockParent | ExitLockSelf | ReparentSkip | ReparentOne
    | ExitDone(status: int) | ZombieDone

  /** What process p does next; Wake is done to it by a wakeup or a kill. */
  ghost predicate Step(s: State, p: nat, a: Act, t: State) {
    && Shape(s) && p < |s.pc|
    && match a
       // allocproc finds an unused slot and takes a pid
       case ForkBegin(c) =>
         && s.pc[p].Kernel? && c < |s.pc| && s.lock[c] == NONE && s.st[c] == UNUSED
         && t == s.(pc := s.pc[p := Forking(c)], lock := s.lock[c := p], pid := s.pid[c := s.nextpid],
                    nextpid := s.nextpid + 1)
       // freeproc clears the pid; allocproc without a trapframe page leaves it
       case ForkFail(cleared) =>
         && s.pc[p].Forking? && s.pc[p].child < |s.pc|
         && t == s.(pc := s.pc[p := Kernel], lock := s.lock[s.pc[p].child := NONE],
                    pid := if cleared then s.pid[s.pc[p].child := 0] else s.pid)
       case ForkDone(pid) =>
         && s.pc[p].Forking? && s.pc[p].child < |s.pc|
         && var c := s.pc[p].child;
         && pid == s.pid[c]
         && t == s.(pc := s.pc[p := Kernel][c := Parked(false)], lock := s.lock[c := NONE], parent := s.parent[c := p],
                    st := s.st[c := RUNNABLE], onSelf := s.onSelf[c := false])
       // yield, or sleep on a channel other than the process itself
       case SwitchOut(sleep) =>
         && s.pc[p].Kernel? && s.lock[p] == NONE
         && t == s.(pc := s.pc[p := SwitchingOut(false)], lock := s.lock[p := p], onSelf := s.onSelf[p := false],
                    st := s.st[p := if sleep then SLEEPING else RUNNABLE])
       // the scheduler: c->proc = 0 and release
       case SwitchDone =>
         && s.pc[p].SwitchingOut?
         && t == s.(pc := s.pc[p := Parked(s.pc[p].inWait)], lock := s.lock[p := NONE], onCpu := s.onCpu[p := false])
       case Schedule =>
         && s.pc[p].Parked? && s.st[p] == RUNNABLE && s.lock[p] == NONE
         && t == s.(pc := s.pc[p := Resumed(s.pc[p].inWait)], lock := s.lock[p := p], onCpu := s.onCpu[p := true],
                    st := s.st[p := RUNNING])
       case ResumeOther =>
         && s.pc[p] == Resumed(false)
         && t == s.(pc := s.pc[p := Kernel], lock := s.lock[p := NONE], onSelf := s.onSelf[p := false])
       case ResumeWait =>
         && s.pc[p] == Resumed(true)
         && t == s.(pc := s.pc[p := WaitScan(0, false)], onSelf := s.onSelf[p := false])
       case WaitBegin =>
         && s.pc[p].Kernel? && s.lock[p] == NONE
         && t == s.(pc := s.pc[p := WaitScan(0, false)], lock := s.lock[p := p])
       case ScanSkip =>
         && s.pc[p].WaitScan? && s.pc[p].k < |s.pc| && s.parent[s.pc[p].k] != p
         && t == s.(pc := s.pc[p := WaitScan(s.pc[p].k + 1, s.pc[p].havekids)])
       case ScanLive =>
         && s.pc[p].WaitScan? && s.pc[p].k < |s.pc| && s.parent[s.pc[p].k] == p
         && s.lock[s.pc[p].k] == NONE && s.st[s.pc[p].k] != ZOMBIE
         && t == s.(pc := s.pc[p := WaitScan(s.pc[p].k + 1, true)])
       // freeproc of a zombie child, and return its pid and status
       case Reap(pid, status) =>
         && s.pc[p].WaitScan? && s.pc[p].k < |s.pc| && s.parent[s.pc[p].k] == p
         && s.lock[s.pc[p].k] == NONE && s.st[s.pc[p].k] == ZOMBIE
         && var c := s.pc[p].k;
         && pid == s.pid[c] && status == s.xstate[c]
         && t == s.(pc := s.pc[p := Kernel][c := Free], lock := s.lock[p := NONE], st := s.st[c := UNUSED],
                    parent := s.parent[c := NONE], onSelf := s.onSelf[c := false], pid := s.pid[c := 0],
                    xstate := s.xstate[c := 0], reaped := s.reaped[pid := status])
       // the status could not be copied out: the zombie stays
       case ReapNoCopy =>
         && s.pc[p].WaitScan? && s.pc[p].k < |s.pc| && s.parent[s.pc[p].k] == p
         && s.lock[s.pc[p].k] == NONE && s.st[s.pc[p].k] == ZOMBIE
         && t == s.(pc := s.pc[p := Kernel], lock := s.lock[p := NONE])
       // no children, or killed
       case WaitReturn(killed) =>
         && s.pc[p].WaitScan? && s.pc[p].k == |s.pc| && (killed || !s.pc[p].havekids)
         && t == s.(pc := s.pc[p := Kernel], lock := s.lock[p := NONE])
       case WaitSleep =>
         && s.pc[p].WaitScan? && s.pc[p].k == |s.pc| && s.pc[p].havekids
         && t == s.(pc := s.pc[p := SwitchingOut(true)], st := s.st[p := SLEEPING], onSelf := s.onSelf[p := true])
       case Wake =>
         && s.lock[p] == NONE && s.st[p] == SLEEPING
         && t == s.(st := s.st[p := RUNNABLE])
       case ExitBegin =>
         && s.pc[p].Kernel? && p != s.init
         && t == s.(pc := s.pc[p := ExitRead])
       case ExitReadParent =>
         && s.pc[p].ExitRead? && s.lock[p] == NONE && 0 <= s.parent[p]
         && t == s.(pc := s.pc[p := ExitParent(s.parent[p])])
       case ExitLockParent =>
         && s.pc[p].ExitParent? && s.pc[p].parent < |s.pc| && s.lock[s.pc[p].parent] == NONE
         && t == s.(pc := s.pc[p := ExitSelf(s.pc[p].parent)], lock := s.lock[s.pc[p].parent := p])
       case ExitLockSelf =>
         && s.pc[p].ExitSelf? && s.lock[p] == NONE
         && t == s.(pc := s.pc[p := Reparenting(s.pc[p].parent, 0)], lock := s.lock[p := p])
       case ReparentSkip =>
         && s.pc[p].Reparenting? && s.pc[p].k < |s.pc| && s.parent[s.pc[p].k] != p
         && t == s.(pc := s.pc[p := Reparenting(s.pc[p].parent, s.pc[p].k + 1)])
       case ReparentOne =>
         && s.pc[p].Reparenting? && s.pc[p].k < |s.pc| && s.parent[s.pc[p].k] == p && s.lock[s.pc[p].k] == NONE
         && t == s.(pc := s.pc[p := Reparenting(s.pc[p].parent, s.pc[p].k + 1)],
                    parent := s.parent[s.pc[p].k := s.init])
       // wakeup1 of the parent, ZOMBIE, release the parent
       case ExitDone(status) =>
         && s.pc[p].Reparenting? && s.pc[p].k == |s.pc| && s.pc[p].parent < |s.pc|
         && var q := s.pc[p].parent;
         && t == s.(pc := s.pc[p := ZombieOut], lock := s.lock[q := NONE], xstate := s.xstate[p := status],
                    st := s.st[q := if s.onSelf[q] && s.st[q] == SLEEPING then RUNNABLE else s.st[q]][p := ZOMBIE],
                    exited := s.exited[s.pid[p] := status])
       case ZombieDone =>
         && s.pc[p].ZombieOut?
         && t == s.(pc := s.pc[p := Dead], lock := s.lock[p := NONE], onCpu := s.onCpu[p := false])
  }

  // ---- the invariant ----

  /** Each lock is held by exactly the thread whose position says so. */
  ghost predicate LocksOk(lock: seq<int>, pc: seq<Pc>) {
    && |lock| == |pc|
    && (forall i :: 0 <= i < |lock| ==> lock[i] == NONE || 0 <= lock[i] < |pc|)
    && (forall h, i :: 0 <= h < |pc| && 0 <= i < |lock| ==> (lock[i] == h <==> Holds(pc[h], h, i)))
  }

  predicate Exiting(pc: Pc) {
    pc.ExitRead? || pc.ExitParent? || pc.ExitSelf? || pc.Reparenting? || pc.ZombieOut? || pc.Dead?
  }

  predicate Asleep(st: PState) { st == SLEEPING || st == RUNNABLE }

  /** Process p by itself: its state and CPU at each position, and the parent that exit read is
      still the parent unless init has become it. */
  predicate LocalAt(n: nat, init: nat, p: int, pc: Pc, st: PState, onSelf: bool, onCpu: bool, parent: int) {
    && (onCpu <==> !pc.Free? && !pc.Parked? && !pc.Dead?)
    && (p == init ==> !Exiting(pc) && !pc.Free?)
    && match pc
       case Free => st == UNUSED
       case SwitchingOut(w) => Asleep(st) && (!w ==> !onSelf)
       case Parked(w) => Asleep(st) && (!w ==> !onSelf)
       case ZombieOut => st == ZOMBIE
       case Dead => st == ZOMBIE
       case WaitScan(k, _) => st == RUNNING && k <= n
       case ExitParent(q) => st == RUNNING && q < n && q != p && (parent == q || parent == init)
       case ExitSelf(q) => st == RUNNING && q < n && q != p && (parent == q || parent == init)
       case Reparenting(q, k) => st == RUNNING && q < n && q != p && (parent == q || parent == init) && k <= n
       case _ => st == RUNNING
  }

  ghost predicate LocalOk(s: State, p: int)
    requires Shape(s) && 0 <= p < |s.pc|
  {
    LocalAt(|s.pc|, s.init, p, s.pc[p], s.st[p], s.onSelf[p], s.onCpu[p], s.parent[p])
  }

  ghost predicate AllLocal(s: State)
    requires Shape(s)
  {
    s.init < |s.pc| && forall p :: 0 <= p < |s.pc| ==> LocalOk(s, p)
  }

  /** Init has no parent; any other process in use has one, neither UNUSED nor ZOMBIE. */
  ghost predicate ParentAt(st: seq<PState>, parent: seq<int>, init: nat, p: int)
    requires |st| == |parent| && 0 <= p < |st|
  {
    && (st[p] == UNUSED || p == init ==> parent[p] == NONE)
    && (st[p] != UNUSED && p != init ==>
          0 <= parent[p] < |st| && parent[p] != p && st[parent[p]] != UNUSED && st[parent[p]] != ZOMBIE)
  }

  ghost predicate ParentsOk(st: seq<PState>, parent: seq<int>, init: nat) {
    |st| == |parent| && forall p :: 0 <= p < |st| ==> ParentAt(st, parent, init, p)
  }

  /** What the position of p, in a loop over the table, says about the other slots: fork's new slot
      is unused and has a pid; reparent has given away the children it has passed; wait has passed no
      zombie child, and says whether it has passed any, except that init may miss children that others
      gave it. */
  ghost predicate LoopAt(pc: Pc, st: seq<PState>, parent: seq<int>, pid: seq<nat>, init: nat, p: int)
    requires |st| == |parent| == |pid|
  {
    match pc
    case Forking(c) => c < |st| && st[c] == UNUSED && pid[c] != 0
    case Reparenting(_, k) => forall c :: 0 <= c < |st| && c < k ==> parent[c] != p
    case WaitScan(k, kids) =>
      p != init ==>
        && (forall c :: 0 <= c < |st| && c < k && parent[c] == p ==> st[c] != ZOMBIE)
        && (kids <==> ChildBelow(parent, k, p))
    case _ => true
  }

  ghost predicate ChildBelow(parent: seq<int>, k: nat, p: int) {
    exists c :: 0 <= c < |parent| && c < k && parent[c] == p
  }

  lemma SameChildren(parent: seq<int>, k: nat, p: int, c: nat, v: int)
    requires c < |parent| && parent[c] != p && v != p
    ensures ChildBelow(parent[c := v], k, p) <==> ChildBelow(parent, k, p)
  {
    var q := parent[c := v];
    if i :| 0 <= i < |parent| && i < k && parent[i] == p { assert q[i] == p; }
    if i :| 0 <= i < |q| && i < k && q[i] == p { assert parent[i] == p; }
  }

  ghost predicate LoopsOk(pc: seq<Pc>, st: seq<PState>, parent: seq<int>, pid: seq<nat>, init: nat) {
    |pc| == |st| == |parent| == |pid| && forall p :: 0 <= p < |pc| ==> LoopAt(pc[p], st, parent, pid, init, p)
  }

  ghost predicate NoZombieOf(st: seq<PState>, parent: seq<int>, p: int)
    requires |st| == |parent|
  {
    forall c :: 0 <= c < |st| && parent[c] == p ==> st[c] != ZOMBIE
  }

  /** A process other than init that sleeps in wait has no zombie child. */
  ghost predicate SleepersOk(st: seq<PState>, onSelf: seq<bool>, parent: seq<int>, init: nat) {
    && |st| == |onSelf| == |parent|
    && (forall p :: 0 <= p < |st| && st[p] == SLEEPING && onSelf[p] && p != init ==> NoZombieOf(st, parent, p))
  }

  /** Pid 0 is no pid. The pids in use are distinct and not yet reported by a wait; those of the
      zombies are the ones that have exited, with the status each zombie holds; a wait only ever
      reported a pid that exited, with its status. */
  ghost predicate PidAt(st: PState, pid: nat, xstate: int, nextpid: nat, exited: map<nat, int>, reaped: map<nat, int>) {
    && (st != UNUSED ==> pid != 0)
    && (pid != 0 ==> pid < nextpid && pid !in reaped && (pid in exited <==> st == ZOMBIE))
    && (st == ZOMBIE ==> pid in exited && exited[pid] == xstate)
  }

  ghost predicate PidsOk(st: seq<PState>, pid: seq<nat>, xstate: seq<int>, nextpid: nat, exited: map<nat, int>,
                         reaped: map<nat, int>) {
    && |st| == |pid| == |xstate|
    && (forall p :: 0 <= p < |st| ==> PidAt(st[p], pid[p], xstate[p], nextpid, exited, reaped))
    && (forall p, q :: 0 <= p < q < |pid| && pid[p] != 0 ==> pid[p] != pid[q])
    && (forall n :: n in exited ==> 0 < n < nextpid)
    && (forall n :: n in reaped ==> n in exited && exited[n] == reaped[n])
    && 0 < nextpid
  }

  ghost predicate Inv(s: State) {
    && Shape(s) && LocksOk(s.lock, s.pc) && AllLocal(s)
    && ParentsOk(s.st, s.parent, s.init) && LoopsOk(s.pc, s.st, s.parent, s.pid, s.init)
    && SleepersOk(s.st, s.onSelf, s.parent, s.init)
    && PidsOk(s.st, s.pid, s.xstate, s.nextpid, s.exited, s.reaped)
  }

  // ---- every step keeps it ----

  ghost predicate SameHolds(a: Pc, b: Pc, h: int, except: int) {
    forall i :: i != except ==> (Holds(a, h, i) <==> Holds(b, h, i))
  }

  /** Thread p moves from one position to another and takes or gives back the lock of slot j. */
  lemma LockMoves(lock: seq<int>, pc: seq<Pc>, p: nat, q: Pc, j: int, v: int)
    requires LocksOk(lock, pc) && p < |pc| && 0 <= j < |lock| && SameHolds(pc[p], q, p, j)
    requires (lock[j] == NONE || lock[j] == p) && (v == NONE || v == p) && (v == p <==> Holds(q, p, j))
    ensures LocksOk(lock[j := v], pc[p := q])
  {
    var lock', pc' := lock[j := v], pc[p := q];
    forall h, i | 0 <= h < |pc'| && 0 <= i < |lock'|
      ensures lock'[i] == h <==> Holds(pc'[h], h, i)
    {
      assert lock[i] == h <==> Holds(pc[h], h, i);
    }
  }

  lemma LocksStay(lock: seq<int>, pc: seq<Pc>, p: nat, q: Pc)
    requires LocksOk(lock, pc) && p < |pc| && SameHolds(pc[p], q, p, NONE)
    ensures LocksOk(lock, pc[p := q])
  {
    var pc' := pc[p := q];
    forall h, i | 0 <= h < |pc'| && 0 <= i < |lock|
      ensures lock[i] == h <==> Holds(pc'[h], h, i)
    {
      assert lock[i] == h <==> Holds(pc[h], h, i);
    }
  }

  ghost predicate SameLocal(s: State, t: State, i: int)
    requires Shape(s) && Shape(t) && |t.pc| == |s.pc| && 0 <= i < |s.pc|
  {
    t.pc[i] == s.pc[i] && t.st[i] == s.st[i] && t.onSelf[i] == s.onSelf[i] && t.onCpu[i] == s.onCpu[i]
      && t.parent[i] == s.parent[i]
  }

  lemma LocalFrame(s: State, t: State, p: int, c: int)
    requires Shape(s) && Shape(t) && |t.pc| == |s.pc| && t.init == s.init && AllLocal(s)
    requires 0 <= p < |s.pc| && 0 <= c < |s.pc| && LocalOk(t, p) && LocalOk(t, c)
    requires forall i :: 0 <= i < |s.pc| && i != p && i != c ==> SameLocal(s, t, i)
    ensures AllLocal(t)
  {
    hide LocalAt;
    forall i | 0 <= i < |t.pc| ensures LocalOk(t, i) {
      assert LocalOk(s, i);
      if i != p && i != c { assert SameLocal(s, t, i); }
    }
  }

  /** A thread moves to a position whose claim about the table holds. */
  lemma LoopsMove(pc: seq<Pc>, st: seq<PState>, parent: seq<int>, pid: seq<nat>, init: nat, p: nat, q: Pc)
    requires LoopsOk(pc, st, parent, pid, init) && p < |pc| && LoopAt(q, st, parent, pid, init, p)
    ensures LoopsOk(pc[p := q], st, parent, pid, init)
  {
    hide LoopAt;
  }

  /** A process in use changes between the states SLEEPING, RUNNABLE and RUNNING. */
  lemma StateMoves(s: State, x: nat, v: PState)
    requires Shape(s) && x < |s.st| && s.st[x] != UNUSED && s.st[x] != ZOMBIE && v != UNUSED && v != ZOMBIE
    requires ParentsOk(s.st, s.parent, s.init) && LoopsOk(s.pc, s.st, s.parent, s.pid, s.init)
    requires SleepersOk(s.st, s.onSelf, s.parent, s.init)
    requires PidsOk(s.st, s.pid, s.xstate, s.nextpid, s.exited, s.reaped)
    requires v == SLEEPING && s.onSelf[x] && x != s.init ==> NoZombieOf(s.st, s.parent, x)
    ensures var st := s.st[x := v];
      && ParentsOk(st, s.parent, s.init) && LoopsOk(s.pc, st, s.parent, s.pid, s.init)
      && SleepersOk(st, s.onSelf, s.parent, s.init) && PidsOk(st, s.pid, s.xstate, s.nextpid, s.exited, s.reaped)
  {
    var st := s.st[x := v];
    forall p | 0 <= p < |st| ensures ParentAt(st, s.parent, s.init, p) {
      assert ParentAt(s.st, s.parent, s.init, p);
    }
    forall p | 0 <= p < |s.pc| ensures LoopAt(s.pc[p], st, s.parent, s.pid, s.init, p) {
      assert LoopAt(s.pc[p], s.st, s.parent, s.pid, s.init, p);
    }
    forall p | 0 <= p < |st| && st[p] == SLEEPING && s.onSelf[p] && p != s.init ensures NoZombieOf(st, s.parent, p) {
      assert NoZombieOf(s.st, s.parent, p);
    }
    PidsMove(s, x, v);
  }

  lemma PidsMove(s: State, x: nat, v: PState)
    requires Shape(s) && x < |s.st| && s.st[x] != UNUSED && s.st[x] != ZOMBIE && v != UNUSED && v != ZOMBIE
    requires PidsOk(s.st, s.pid, s.xstate, s.nextpid, s.exited, s.reaped)
    ensures PidsOk(s.st[x := v], s.pid, s.xstate, s.nextpid, s.exited, s.reaped)
  {
    var st := s.st[x := v];
    forall p | 0 <= p < |st| ensures PidAt(st[p], s.pid[p], s.xstate[p], s.nextpid, s.exited, s.reaped) {
      assert PidAt(s.st[p], s.pid[p], s.xstate[p], s.nextpid, s.exited, s.reaped);
    }
  }

  lemma SelfMoves(st: seq<PState>, onSelf: seq<bool>, parent: seq<int>, init: nat, x: nat, b: bool)
    requires SleepersOk(st, onSelf, parent, init) && x < |st| && (st[x] == SLEEPING ==> !b)
    ensures SleepersOk(st, onSelf[x := b], parent, init)
  {
    hide NoZombieOf;
  }

  /** An unused slot gets the next pid, or none. */
  lemma PidMoves(s: State, c: nat, v: nat, next: nat)
    requires Shape(s) && c < |s.st| && s.st[c] == UNUSED && PidsOk(s.st, s.pid, s.xstate, s.nextpid, s.exited, s.reaped)
    requires (v == 0 && next == s.nextpid) || (v == s.nextpid && next == s.nextpid + 1)
    ensures PidsOk(s.st, s.pid[c := v], s.xstate, next, s.exited, s.reaped)
  {
    var pid := s.pid[c := v];
    forall p | 0 <= p < |s.st| ensures PidAt(s.st[p], pid[p], s.xstate[p], next, s.exited, s.reaped) {
      assert PidAt(s.st[p], s.pid[p], s.xstate[p], s.nextpid, s.exited, s.reaped);
    }
    forall p, q | 0 <= p < q < |pid| && pid[p] != 0 ensures pid[p] != pid[q] {
      assert PidAt(s.st[p], s.pid[p], s.xstate[p], s.nextpid, s.exited, s.reaped);
      assert PidAt(s.st[q], s.pid[q], s.xstate[q], s.nextpid, s.exited, s.reaped);
    }
  }

  /** What the invariant says of one process. */
  lemma Facts(s: State, p: nat)
    requires Inv(s) && p < |s.pc|
    ensures s.init < |s.pc| && LocalOk(s, p) && ParentAt(s.st, s.parent, s.init, p)
    ensures LoopAt(s.pc[p], s.st, s.parent, s.pid, s.init, p)
    ensures PidAt(s.st[p], s.pid[p], s.xstate[p], s.nextpid, s.exited, s.reaped)
    ensures forall i :: 0 <= i < |s.lock| ==> (s.lock[i] == p <==> Holds(s.pc[p], p, i))
  {
    hide LocalAt, ParentAt, LoopAt, PidAt, Holds;
  }

  // ---- fork ----

  lemma LoopsPid(pc: seq<Pc>, st: seq<PState>, parent: seq<int>, pid: seq<nat>, init: nat, c: nat, v: nat)
    requires LoopsOk(pc, st, parent, pid, init) && c < |pid|
    requires v != 0 || forall h :: 0 <= h < |pc| ==> pc[h] != Forking(c)
    ensures LoopsOk(pc, st, parent, pid[c := v], init)
  {
    forall i | 0 <= i < |pc| ensures LoopAt(pc[i], st, parent, pid[c := v], init, i) {
      assert LoopAt(pc[i], st, parent, pid, init, i);
    }
  }

  lemma NoForker(lock: seq<int>, pc: seq<Pc>, c: nat)
    requires LocksOk(lock, pc) && c < |lock| && lock[c] == NONE
    ensures forall h :: 0 <= h < |pc| ==> pc[h] != Forking(c)
  {
    forall h | 0 <= h < |pc| ensures pc[h] != Forking(c) {
      assert lock[c] == h <==> Holds(pc[h], h, c);
    }
  }

  lemma ForkBeginKeeps(s: State, p: nat, c: nat, t: State)
    requires Inv(s) && Step(s, p, ForkBegin(c), t)
    ensures Inv(t)
  {
    hide LocksOk, AllLocal, ParentsOk, LoopsOk, SleepersOk, PidsOk;
    Facts(s, p);
    Facts(s, c);
    LockMoves(s.lock, s.pc, p, Forking(c), c, p);
    LoopsPid(s.pc, s.st, s.parent, s.pid, s.init, c, s.nextpid);
    LoopsMove(s.pc, s.st, s.parent, t.pid, s.init, p, Forking(c));
    PidMoves(s, c, s.nextpid, t.nextpid);
    LocalFrame(s, t, p, p);
  }

  lemma ForkFailKeeps(s: State, p: nat, cleared: bool, t: State)
    requires Inv(s) && Step(s, p, ForkFail(cleared), t)
    ensures Inv(t)
  {
    hide LocksOk, AllLocal, ParentsOk, LoopsOk, SleepersOk, PidsOk;
    Facts(s, p);
    LockMoves(s.lock, s.pc, p, Kernel, s.pc[p].child, NONE);
    NoForker(t.lock, t.pc, s.pc[p].child);
    LoopsMove(s.pc, s.st, s.parent, s.pid, s.init, p, Kernel);
    if cleared {
      LoopsPid(t.pc, s.st, s.parent, s.pid, s.init, s.pc[p].child, 0);
      PidMoves(s, s.pc[p].child, 0, t.nextpid);
    }
    LocalFrame(s, t, p, p);
  }

  /** A new process has no children, and no other fork has its slot. */
  lemma BirthKeeps(st: seq<PState>, parent: seq<int>, pid: seq<nat>, onSelf: seq<bool>, pc: seq<Pc>, init: nat,
                   p: nat, c: nat)
    requires ParentsOk(st, parent, init) && LoopsOk(pc, st, parent, pid, init) && SleepersOk(st, onSelf, parent, init)
    requires p < |st| && c < |st| && p != c && c != init && st[c] == UNUSED && st[p] == RUNNING && pc[p] == Kernel
    requires forall h :: 0 <= h < |pc| ==> pc[h] != Forking(c)
    ensures ParentsOk(st[c := RUNNABLE], parent[c := p], init)
    ensures LoopsOk(pc, st[c := RUNNABLE], parent[c := p], pid, init)
    ensures SleepersOk(st[c := RUNNABLE], onSelf[c := false], parent[c := p], init)
  {
    var st', parent', onSelf' := st[c := RUNNABLE], parent[c := p], onSelf[c := false];
    forall i | 0 <= i < |st'| ensures ParentAt(st', parent', init, i) {
      assert ParentAt(st, parent, init, i);
    }
    forall i | 0 <= i < |pc| ensures LoopAt(pc[i], st', parent', pid, init, i) {
      assert LoopAt(pc[i], st, parent, pid, init, i) && ParentAt(st, parent, init, c);
      if pc[i].WaitScan? { SameChildren(parent, pc[i].k, i, c, p); }
    }
    forall i | 0 <= i < |st'| && st'[i] == SLEEPING && onSelf'[i] && i != init ensures NoZombieOf(st', parent', i) {
      assert NoZombieOf(st, parent, i);
    }
  }

  lemma BirthPids(s: State, c: nat)
    requires Shape(s) && c < |s.st| && s.st[c] == UNUSED && s.pid[c] != 0
    requires PidsOk(s.st, s.pid, s.xstate, s.nextpid, s.exited, s.reaped)
    ensures PidsOk(s.st[c := RUNNABLE], s.pid, s.xstate, s.nextpid, s.exited, s.reaped)
  {
    var st := s.st[c := RUNNABLE];
    forall p | 0 <= p < |st| ensures PidAt(st[p], s.pid[p], s.xstate[p], s.nextpid, s.exited, s.reaped) {
      assert PidAt(s.st[p], s.pid[p], s.xstate[p], s.nextpid, s.exited, s.reaped);
    }
  }

  lemma ForkDoneKeeps(s: State, p: nat, pid: nat, t: State)
    requires Inv(s) && Step(s, p, ForkDone(pid), t)
    ensures Inv(t)
  {
    hide LocksOk, AllLocal, ParentsOk, LoopsOk, SleepersOk, PidsOk;
    var c := s.pc[p].child;
    Facts(s, p);
    Facts(s, c);
    LockMoves(s.lock, s.pc, p, Kernel, c, NONE);
    NoForker(t.lock, s.pc[p := Kernel], c);
    LocksStay(t.lock, s.pc[p := Kernel], c, Parked(false));
    LoopsMove(s.pc, s.st, s.parent, s.pid, s.init, p, Kernel);
    BirthKeeps(s.st, s.parent, s.pid, s.onSelf, s.pc[p := Kernel], s.init, p, c);
    LoopsMove(s.pc[p := Kernel], t.st, t.parent, t.pid, s.init, c, Parked(false));
    BirthPids(s, c);
    LocalFrame(s, t, p, c);
  }

  // ---- the scheduler ----

  lemma SwitchOutKeeps(s: State, p: nat, sleep: bool, t: State)
    requires Inv(s) && Step(s, p, SwitchOut(sleep), t)
    ensures Inv(t)
  {
    hide LocksOk, AllLocal, ParentsOk, LoopsOk, SleepersOk, PidsOk;
    Facts(s, p);
    LockMoves(s.lock, s.pc, p, t.pc[p], p, p);
    LoopsMove(s.pc, s.st, s.parent, s.pid, s.init, p, t.pc[p]);
    SelfMoves(s.st, s.onSelf, s.parent, s.init, p, false);
    StateMoves(s.(pc := t.pc, onSelf := t.onSelf), p, t.st[p]);
    LocalFrame(s, t, p, p);
  }

  lemma SwitchDoneKeeps(s: State, p: nat, t: State)
    requires Inv(s) && Step(s, p, SwitchDone, t)
    ensures Inv(t)
  {
    hide LocksOk, AllLocal, ParentsOk, LoopsOk, SleepersOk, PidsOk;
    Facts(s, p);
    LockMoves(s.lock, s.pc, p, t.pc[p], p, NONE);
    LoopsMove(s.pc, s.st, s.parent, s.pid, s.init, p, t.pc[p]);
    LocalFrame(s, t, p, p);
  }

  lemma ScheduleKeeps(s: State, p: nat, t: State)
    requires Inv(s) && Step(s, p, Schedule, t)
    ensures Inv(t)
  {
    hide LocksOk, AllLocal, ParentsOk, LoopsOk, SleepersOk, PidsOk;
    Facts(s, p);
    LockMoves(s.lock, s.pc, p, t.pc[p], p, p);
    LoopsMove(s.pc, s.st, s.parent, s.pid, s.init, p, t.pc[p]);
    StateMoves(s.(pc := t.pc, onSelf := t.onSelf), p, t.st[p]);
    LocalFrame(s, t, p, p);
  }

  lemma ResumeOtherKeeps(s: State, p: nat, t: State)
    requires Inv(s) && Step(s, p, ResumeOther, t)
    ensures Inv(t)
  {
    hide LocksOk, AllLocal, ParentsOk, LoopsOk, SleepersOk, PidsOk;
    Facts(s, p);
    LockMoves(s.lock, s.pc, p, Kernel, p, NONE);
    LoopsMove(s.pc, s.st, s.parent, s.pid, s.init, p, Kernel);
    SelfMoves(s.st, s.onSelf, s.parent, s.init, p, false);
    LocalFrame(s, t, p, p);
  }

  lemma ResumeWaitKeeps(s: State, p: nat, t: State)
    requires Inv(s) && Step(s, p, ResumeWait, t)
    ensures Inv(t)
  {
    hide LocksOk, AllLocal, ParentsOk, LoopsOk, SleepersOk, PidsOk;
    Facts(s, p);
    LocksStay(s.lock, s.pc, p, WaitScan(0, false));
    LoopsMove(s.pc, s.st, s.parent, s.pid, s.init, p, WaitScan(0, false));
    SelfMoves(s.st, s.onSelf, s.parent, s.init, p, false);
    LocalFrame(s, t, p, p);
  }

  // ---- wait ----

  lemma WaitBeginKeeps(s: State, p: nat, t: State)
    requires Inv(s) && Step(s, p, WaitBegin, t)
    ensures Inv(t)
  {
    hide LocksOk, AllLocal, ParentsOk, LoopsOk, SleepersOk, PidsOk;
    Facts(s, p);
    LockMoves(s.lock, s.pc, p, WaitScan(0, false), p, p);
    LoopsMove(s.pc, s.st, s.parent, s.pid, s.init, p, WaitScan(0, false));
    LocalFrame(s, t, p, p);
  }

  lemma ScanSkipKeeps(s: State, p: nat, t: State)
    requires Inv(s) && Step(s, p, ScanSkip, t)
    ensures Inv(t)
  {
    hide LocksOk, AllLocal, ParentsOk, LoopsOk, SleepersOk, PidsOk;
    Facts(s, p);
    LocksStay(s.lock, s.pc, p, t.pc[p]);
    LoopsMove(s.pc, s.st, s.parent, s.pid, s.init, p, t.pc[p]);
    LocalFrame(s, t, p, p);
  }

  lemma ScanLiveKeeps(s: State, p: nat, t: State)
    requires Inv(s) && Step(s, p, ScanLive, t)
    ensures Inv(t)
  {
    hide LocksOk, AllLocal, ParentsOk, LoopsOk, SleepersOk, PidsOk;
    Facts(s, p);
    LocksStay(s.lock, s.pc, p, t.pc[p]);
    LoopsMove(s.pc, s.st, s.parent, s.pid, s.init, p, t.pc[p]);
    LocalFrame(s, t, p, p);
  }

  lemma ReapNoCopyKeeps(s: State, p: nat, t: State)
    requires Inv(s) && Step(s, p, ReapNoCopy, t)
    ensures Inv(t)
  {
    hide LocksOk, AllLocal, ParentsOk, LoopsOk, SleepersOk, PidsOk;
    Facts(s, p);
    LockMoves(s.lock, s.pc, p, Kernel, p, NONE);
    LoopsMove(s.pc, s.st, s.parent, s.pid, s.init, p, Kernel);
    LocalFrame(s, t, p, p);
  }

  lemma WaitReturnKeeps(s: State, p: nat, killed: bool, t: State)
    requires Inv(s) && Step(s, p, WaitReturn(killed), t)
    ensures Inv(t)
  {
    hide LocksOk, AllLocal, ParentsOk, LoopsOk, SleepersOk, PidsOk;
    Facts(s, p);
    LockMoves(s.lock, s.pc, p, Kernel, p, NONE);
    LoopsMove(s.pc, s.st, s.parent, s.pid, s.init, p, Kernel);
    LocalFrame(s, t, p, p);
  }

  /** A zombie's slot becomes free. */
  lemma DeathKeeps(s: State, pc: seq<Pc>, c: nat)
    requires Shape(s) && c < |s.st| && s.st[c] == ZOMBIE && |pc| == |s.pc|
    requires forall h :: 0 <= h < |pc| && pc[h].WaitScan? ==> s.parent[c] != h
    requires ParentsOk(s.st, s.parent, s.init) && LoopsOk(pc, s.st, s.parent, s.pid, s.init)
    requires SleepersOk(s.st, s.onSelf, s.parent, s.init)
    ensures ParentsOk(s.st[c := UNUSED], s.parent[c := NONE], s.init)
    ensures LoopsOk(pc, s.st[c := UNUSED], s.parent[c := NONE], s.pid[c := 0], s.init)
    ensures SleepersOk(s.st[c := UNUSED], s.onSelf[c := false], s.parent[c := NONE], s.init)
  {
    var st, parent := s.st[c := UNUSED], s.parent[c := NONE];
    forall i | 0 <= i < |st| ensures ParentAt(st, parent, s.init, i) {
      assert ParentAt(s.st, s.parent, s.init, i);
    }
    forall i | 0 <= i < |pc| ensures LoopAt(pc[i], st, parent, s.pid[c := 0], s.init, i) {
      assert LoopAt(pc[i], s.st, s.parent, s.pid, s.init, i);
      if pc[i].WaitScan? { SameChildren(s.parent, pc[i].k, i, c, NONE); }
    }
    forall i | 0 <= i < |st| && st[i] == SLEEPING && s.onSelf[i] && i != s.init ensures NoZombieOf(st, parent, i) {
      assert NoZombieOf(s.st, s.parent, i);
    }
  }

  lemma DeathPids(s: State, c: nat)
    requires Shape(s) && c < |s.st| && s.st[c] == ZOMBIE
    requires PidsOk(s.st, s.pid, s.xstate, s.nextpid, s.exited, s.reaped)
    ensures PidsOk(s.st[c := UNUSED], s.pid[c := 0], s.xstate[c := 0], s.nextpid, s.exited,
                   s.reaped[s.pid[c] := s.xstate[c]])
  {
    var st, pid, xstate, reaped := s.st[c := UNUSED], s.pid[c := 0], s.xstate[c := 0],
      s.reaped[s.pid[c] := s.xstate[c]];
    assert PidAt(s.st[c], s.pid[c], s.xstate[c], s.nextpid, s.exited, s.reaped);
    forall p | 0 <= p < |st| ensures PidAt(st[p], pid[p], xstate[p], s.nextpid, s.exited, reaped) {
      assert PidAt(s.st[p], s.pid[p], s.xstate[p], s.nextpid, s.exited, s.reaped);
      if p < c { assert s.pid[p] != 0 ==> s.pid[p] != s.pid[c]; } else if c < p { assert s.pid[c] != s.pid[p]; }
    }
  }

  lemma ReapKeeps(s: State, p: nat, pid: nat, status: int, t: State)
    requires Inv(s) && Step(s, p, Reap(pid, status), t)
    ensures Inv(t)
  {
    hide LocksOk, AllLocal, ParentsOk, LoopsOk, SleepersOk, PidsOk;
    var c := s.pc[p].k;
    Facts(s, p);
    Facts(s, c);
    LockMoves(s.lock, s.pc, p, Kernel, p, NONE);
    LocksStay(t.lock, s.pc[p := Kernel], c, Free);
    LoopsMove(s.pc, s.st, s.parent, s.pid, s.init, p, Kernel);
    LoopsMove(s.pc[p := Kernel], s.st, s.parent, s.pid, s.init, c, Free);
    DeathKeeps(s, t.pc, c);
    DeathPids(s, c);
    LocalFrame(s, t, p, c);
  }

  lemma WaitSleepKeeps(s: State, p: nat, t: State)
    requires Inv(s) && Step(s, p, WaitSleep, t)
    ensures Inv(t)
  {
    hide LocksOk, AllLocal, ParentsOk, LoopsOk, SleepersOk, PidsOk;
    Facts(s, p);
    LocksStay(s.lock, s.pc, p, t.pc[p]);
    LoopsMove(s.pc, s.st, s.parent, s.pid, s.init, p, t.pc[p]);
    SelfMoves(s.st, s.onSelf, s.parent, s.init, p, true);
    StateMoves(s.(pc := t.pc, onSelf := t.onSelf), p, SLEEPING);
    LocalFrame(s, t, p, p);
  }

  lemma WakeKeeps(s: State, p: nat, t: State)
    requires Inv(s) && Step(s, p, Wake, t)
    ensures Inv(t)
  {
    hide LocksOk, AllLocal, ParentsOk, LoopsOk, SleepersOk, PidsOk;
    Facts(s, p);
    StateMoves(s, p, RUNNABLE);
    LocalFrame(s, t, p, p);
  }

  // ---- exit ----

  lemma ExitBeginKeeps(s: State, p: nat, t: State)
    requires Inv(s) && Step(s, p, ExitBegin, t)
    ensures Inv(t)
  {
    hide LocksOk, AllLocal, ParentsOk, LoopsOk, SleepersOk, PidsOk;
    Facts(s, p);
    LocksStay(s.lock, s.pc, p, ExitRead);
    LoopsMove(s.pc, s.st, s.parent, s.pid, s.init, p, ExitRead);
    LocalFrame(s, t, p, p);
  }

  lemma ExitReadParentKeeps(s: State, p: nat, t: State)
    requires Inv(s) && Step(s, p, ExitReadParent, t)
    ensures Inv(t)
  {
    hide LocksOk, AllLocal, ParentsOk, LoopsOk, SleepersOk, PidsOk;
    Facts(s, p);
    LocksStay(s.lock, s.pc, p, t.pc[p]);
    LoopsMove(s.pc, s.st, s.parent, s.pid, s.init, p, t.pc[p]);
    LocalFrame(s, t, p, p);
  }

  lemma ExitLockParentKeeps(s: State, p: nat, t: State)
    requires Inv(s) && Step(s, p, ExitLockParent, t)
    ensures Inv(t)
  {
    hide LocksOk, AllLocal, ParentsOk, LoopsOk, SleepersOk, PidsOk;
    Facts(s, p);
    LockMoves(s.lock, s.pc, p, t.pc[p], s.pc[p].parent, p);
    LoopsMove(s.pc, s.st, s.parent, s.pid, s.init, p, t.pc[p]);
    LocalFrame(s, t, p, p);
  }

  lemma ExitLockSelfKeeps(s: State, p: nat, t: State)
    requires Inv(s) && Step(s, p, ExitLockSelf, t)
    ensures Inv(t)
  {
    hide LocksOk, AllLocal, ParentsOk, LoopsOk, SleepersOk, PidsOk;
    Facts(s, p);
    LockMoves(s.lock, s.pc, p, t.pc[p], p, p);
    LoopsMove(s.pc, s.st, s.parent, s.pid, s.init, p, t.pc[p]);
    LocalFrame(s, t, p, p);
  }

  lemma ReparentSkipKeeps(s: State, p: nat, t: State)
    requires Inv(s) && Step(s, p, ReparentSkip, t)
    ensures Inv(t)
  {
    hide LocksOk, AllLocal, ParentsOk, LoopsOk, SleepersOk, PidsOk;
    Facts(s, p);
    LocksStay(s.lock, s.pc, p, t.pc[p]);
    LoopsMove(s.pc, s.st, s.parent, s.pid, s.init, p, t.pc[p]);
    LocalFrame(s, t, p, p);
  }

  lemma ZombieDoneKeeps(s: State, p: nat, t: State)
    requires Inv(s) && Step(s, p, ZombieDone, t)
    ensures Inv(t)
  {
    hide LocksOk, AllLocal, ParentsOk, LoopsOk, SleepersOk, PidsOk;
    Facts(s, p);
    LockMoves(s.lock, s.pc, p, Dead, p, NONE);
    LoopsMove(s.pc, s.st, s.parent, s.pid, s.init, p, Dead);
    LocalFrame(s, t, p, p);
  }

  /** A child is given to init. */
  lemma GiveKeeps(s: State, c: nat)
    requires Shape(s) && c < |s.st| && s.st[c] != UNUSED && c != s.init && s.init < |s.st| && AllLocal(s)
    requires forall h :: 0 <= h < |s.pc| && s.pc[h].WaitScan? ==> s.parent[c] != h
    requires ParentsOk(s.st, s.parent, s.init) && LoopsOk(s.pc, s.st, s.parent, s.pid, s.init)
    requires SleepersOk(s.st, s.onSelf, s.parent, s.init)
    ensures ParentsOk(s.st, s.parent[c := s.init], s.init)
    ensures LoopsOk(s.pc, s.st, s.parent[c := s.init], s.pid, s.init)
    ensures SleepersOk(s.st, s.onSelf, s.parent[c := s.init], s.init)
  {
    assert LocalOk(s, s.init);
    var parent := s.parent[c := s.init];
    forall i | 0 <= i < |s.st| ensures ParentAt(s.st, parent, s.init, i) {
      assert ParentAt(s.st, s.parent, s.init, i);
    }
    forall i | 0 <= i < |s.pc| ensures LoopAt(s.pc[i], s.st, parent, s.pid, s.init, i) {
      assert LoopAt(s.pc[i], s.st, s.parent, s.pid, s.init, i);
      if s.pc[i].WaitScan? && i != s.init { SameChildren(s.parent, s.pc[i].k, i, c, s.init); }
    }
    forall i | 0 <= i < |s.st| && s.st[i] == SLEEPING && s.onSelf[i] && i != s.init
      ensures NoZombieOf(s.st, parent, i)
    {
      assert NoZombieOf(s.st, s.parent, i);
    }
  }

  lemma ReparentOneKeeps(s: State, p: nat, t: State)
    requires Inv(s) && Step(s, p, ReparentOne, t)
    ensures Inv(t)
  {
    hide LocksOk, AllLocal, ParentsOk, LoopsOk, SleepersOk, PidsOk;
    var c := s.pc[p].k;
    Facts(s, p);
    Facts(s, c);
    LocksStay(s.lock, s.pc, p, t.pc[p]);
    GiveKeeps(s, c);
    LoopsMove(s.pc, s.st, t.parent, s.pid, s.init, p, t.pc[p]);
    LocalFrame(s, t, p, c);
  }

  /** p, which has given its children away, becomes a zombie; its parent, unless that is init, is
      neither scanning nor asleep in wait. */
  lemma ZombieKeeps(s: State, p: nat, status: int)
    requires Shape(s) && p < |s.st| && s.st[p] == RUNNING && p != s.init && s.pc[p].Reparenting? && s.pc[p].k == |s.pc|
    requires ParentsOk(s.st, s.parent, s.init) && LoopsOk(s.pc, s.st, s.parent, s.pid, s.init)
    requires SleepersOk(s.st, s.onSelf, s.parent, s.init)
    requires 0 <= s.parent[p] < |s.st|
    requires s.parent[p] != s.init ==>
               !s.pc[s.parent[p]].WaitScan? && !(s.st[s.parent[p]] == SLEEPING && s.onSelf[s.parent[p]])
    ensures ParentsOk(s.st[p := ZOMBIE], s.parent, s.init) && LoopsOk(s.pc, s.st[p := ZOMBIE], s.parent, s.pid, s.init)
    ensures SleepersOk(s.st[p := ZOMBIE], s.onSelf, s.parent, s.init)
  {
    var st := s.st[p := ZOMBIE];
    assert LoopAt(s.pc[p], s.st, s.parent, s.pid, s.init, p);
    forall i | 0 <= i < |st| ensures ParentAt(st, s.parent, s.init, i) {
      assert ParentAt(s.st, s.parent, s.init, i);
    }
    forall i | 0 <= i < |s.pc| ensures LoopAt(s.pc[i], st, s.parent, s.pid, s.init, i) {
      assert LoopAt(s.pc[i], s.st, s.parent, s.pid, s.init, i);
    }
    forall i | 0 <= i < |st| && st[i] == SLEEPING && s.onSelf[i] && i != s.init ensures NoZombieOf(st, s.parent, i) {
      assert NoZombieOf(s.st, s.parent, i);
    }
  }

  lemma ZombiePids(s: State, p: nat, status: int)
    requires Shape(s) && p < |s.st| && s.st[p] == RUNNING
    requires PidsOk(s.st, s.pid, s.xstate, s.nextpid, s.exited, s.reaped)
    ensures PidsOk(s.st[p := ZOMBIE], s.pid, s.xstate[p := status], s.nextpid, s.exited[s.pid[p] := status], s.reaped)
  {
    var st, xstate, exited := s.st[p := ZOMBIE], s.xstate[p := status], s.exited[s.pid[p] := status];
    assert PidAt(s.st[p], s.pid[p], s.xstate[p], s.nextpid, s.exited, s.reaped);
    forall i | 0 <= i < |st| ensures PidAt(st[i], s.pid[i], xstate[i], s.nextpid, exited, s.reaped) {
      assert PidAt(s.st[i], s.pid[i], s.xstate[i], s.nextpid, s.exited, s.reaped);
      if i < p { assert s.pid[i] != 0 ==> s.pid[i] != s.pid[p]; } else if p < i { assert s.pid[p] != s.pid[i]; }
    }
  }

  /** The state after wakeup1 of the parent. */
  function Woken(s: State, q: nat): State
    requires Shape(s) && q < |s.st|
  {
    s.(st := s.st[q := if s.onSelf[q] && s.st[q] == SLEEPING then RUNNABLE else s.st[q]])
  }

  lemma WokenKeeps(s: State, q: nat)
    requires Inv(s) && q < |s.st|
    ensures var u := Woken(s, q);
      && ParentsOk(u.st, u.parent, u.init) && LoopsOk(u.pc, u.st, u.parent, u.pid, u.init)
      && SleepersOk(u.st, u.onSelf, u.parent, u.init) && PidsOk(u.st, u.pid, u.xstate, u.nextpid, u.exited, u.reaped)
  {
    hide LocksOk, AllLocal, ParentsOk, LoopsOk, SleepersOk, PidsOk;
    if s.onSelf[q] && s.st[q] == SLEEPING {
      StateMoves(s, q, RUNNABLE);
    } else {
      assert s.st[q := s.st[q]] == s.st;
    }
  }

  lemma ExitDoneKeeps(s: State, p: nat, status: int, t: State)
    requires Inv(s) && Step(s, p, ExitDone(status), t)
    ensures Inv(t)
  {
    hide LocksOk, AllLocal, ParentsOk, LoopsOk, SleepersOk, PidsOk;
    var q := s.pc[p].parent;
    Facts(s, p);
    Facts(s, q);
    LockMoves(s.lock, s.pc, p, ZombieOut, q, NONE);
    WokenKeeps(s, q);
    var u := Woken(s, q);
    ZombieKeeps(u, p, status);
    ZombiePids(u, p, status);
    LoopsMove(u.pc, t.st, t.parent, t.pid, t.init, p, ZombieOut);
    LocalFrame(s, t, p, q);
  }

  // ---- whole runs ----

  lemma StepKeeps(s: State, p: nat, a: Act, t: State)
    requires Inv(s) && Step(s, p, a, t)
    ensures Inv(t)
  {
    hide Inv, Step;
    match a
    case ForkBegin(c) => ForkBeginKeeps(s, p, c, t);
    case ForkFail(cleared) => ForkFailKeeps(s, p, cleared, t);
    case ForkDone(pid) => ForkDoneKeeps(s, p, pid, t);
    case SwitchOut(sleep) => SwitchOutKeeps(s, p, sleep, t);
    case SwitchDone => SwitchDoneKeeps(s, p, t);
    case Schedule => ScheduleKeeps(s, p, t);
    case ResumeOther => ResumeOtherKeeps(s, p, t);
    case ResumeWait => ResumeWaitKeeps(s, p, t);
    case WaitBegin => WaitBeginKeeps(s, p, t);
    case ScanSkip => ScanSkipKeeps(s, p, t);
    case ScanLive => ScanLiveKeeps(s, p, t);
    case Reap(pid, status) => ReapKeeps(s, p, pid, status, t);
    case ReapNoCopy => ReapNoCopyKeeps(s, p, t);
    case WaitReturn(killed) => WaitReturnKeeps(s, p, killed, t);
    case WaitSleep => WaitSleepKeeps(s, p, t);
    case Wake => WakeKeeps(s, p, t);
    case ExitBegin => ExitBeginKeeps(s, p, t);
    case ExitReadParent => ExitReadParentKeeps(s, p, t);
    case ExitLockParent => ExitLockParentKeeps(s, p, t);
    case ExitLockSelf => ExitLockSelfKeeps(s, p, t);
    case ReparentSkip => ReparentSkipKeeps(s, p, t);
    case ReparentOne => ReparentOneKeeps(s, p, t);
    case ExitDone(status) => ExitDoneKeeps(s, p, status, t);
    case ZombieDone => ZombieDoneKeeps(s, p, t);
  }

  /** After userinit: one process, init, ready to run. */
  ghost predicate Start(s: State) {
    && Shape(s) && s.init < |s.pc| && s.nextpid == 2 && s.exited == map[] && s.reaped == map[]
    && (forall i :: 0 <= i < |s.pc| ==>
          && s.lock[i] == NONE && s.parent[i] == NONE && !s.onSelf[i] && !s.onCpu[i] && s.xstate[i] == 0
          && s.pc[i] == (if i == s.init then Parked(false) else Free)
          && s.st[i] == (if i == s.init then RUNNABLE else UNUSED)
          && s.pid[i] == (if i == s.init then 1 else 0))
  }

  lemma StartInv(s: State)
    requires Start(s)
    ensures Inv(s)
  {
    forall p | 0 <= p < |s.pc| ensures LocalOk(s, p) {}
    forall p | 0 <= p < |s.pc| ensures ParentAt(s.st, s.parent, s.init, p) {}
    forall p | 0 <= p < |s.pc| ensures LoopAt(s.pc[p], s.st, s.parent, s.pid, s.init, p) {}
    forall p | 0 <= p < |s.pc| ensures PidAt(s.st[p], s.pid[p], s.xstate[p], s.nextpid, s.exited, s.reaped) {}
  }

  datatype Move = Move(p: nat, a: Act)

  ghost predicate Run(ss: seq<State>, ms: seq<Move>) {
    |ss| == |ms| + 1 && Start(ss[0]) && forall i :: 0 <= i < |ms| ==> Step(ss[i], ms[i].p, ms[i].a, ss[i + 1])
  }

  lemma {:induction false} RunKeepsInv(ss: seq<State>, ms: seq<Move>, i: nat)
    requires Run(ss, ms) && i < |ss|
    ensures Inv(ss[i])
  {
    hide Inv, Step, Start;
    if i == 0 {
      StartInv(ss[0]);
    } else {
      RunKeepsInv(ss, ms, i - 1);
      StepKeeps(ss[i - 1], ms[i - 1].p, ms[i - 1].a, ss[i]);
    }
  }

  /** No process in use ever has a parent that is ZOMBIE or UNUSED. */
  lemma ParentsAlive(ss: seq<State>, ms: seq<Move>, i: nat, p: nat)
    requires Run(ss, ms) && i < |ss| && p < |ss[i].st| && ss[i].st[p] != UNUSED && p != ss[i].init
    ensures var s := ss[i];
            Shape(s) && 0 <= s.parent[p] < |s.st| && s.st[s.parent[p]] != ZOMBIE && s.st[s.parent[p]] != UNUSED
  {
    hide Run;
    RunKeepsInv(ss, ms, i);
    Facts(ss[i], p);
  }

  /** A process other than init that is SLEEPING in wait has no zombie child. */
  lemma SleeperMissesNothing(ss: seq<State>, ms: seq<Move>, i: nat, p: nat, c: nat)
    requires Run(ss, ms) && i < |ss| && Shape(ss[i]) && p < |ss[i].st| && c < |ss[i].st|
    requires ss[i].pc[p] == Parked(true) && ss[i].st[p] == SLEEPING && ss[i].onSelf[p] && p != ss[i].init
    requires ss[i].parent[c] == p
    ensures ss[i].st[c] != ZOMBIE
  {
    hide Run;
    RunKeepsInv(ss, ms, i);
    assert NoZombieOf(ss[i].st, ss[i].parent, p);
  }

  /** wait frees only a child that no CPU still runs and that holds no lock; it reports the pid that the
      child has, which no wait has reported before. */
  lemma ReapIsSafe(s: State, p: nat, pid: nat, status: int, t: State)
    requires Inv(s) && Step(s, p, Reap(pid, status), t)
    ensures var c := s.pc[p].k;
      && s.parent[c] == p && !s.onCpu[c] && s.pc[c].Dead? && (forall i :: 0 <= i < |s.lock| ==> s.lock[i] != c)
      && s.pid[c] == pid != 0 && pid in s.exited && pid !in s.reaped
      && t.reaped == s.reaped[pid := status] && status == s.exited[pid] && t.exited == s.exited
  {
    hide LocksOk, AllLocal, ParentsOk, LoopsOk, SleepersOk, PidsOk;
    Facts(s, s.pc[p].k);
  }

  lemma {:induction false} ReapedGrows(ss: seq<State>, ms: seq<Move>, i: nat, j: nat)
    requires Run(ss, ms) && i <= j < |ss|
    ensures ss[i].reaped.Keys <= ss[j].reaped.Keys
  {
    hide Start;
    if i < j {
      ReapedGrows(ss, ms, i, j - 1);
      assert Step(ss[j - 1], ms[j - 1].p, ms[j - 1].a, ss[j]);
    }
  }

  /** Two waits of one run never report the same pid. */
  lemma ReapedOnce(ss: seq<State>, ms: seq<Move>, i: nat, j: nat)
    requires Run(ss, ms) && i < j < |ms| && ms[i].a.Reap? && ms[j].a.Reap?
    ensures ms[i].a.pid != ms[j].a.pid
  {
    RunKeepsInv(ss, ms, i);
    RunKeepsInv(ss, ms, j);
    ReapedGrows(ss, ms, i + 1, j);
    hide Inv, Start, Step;
    ReapIsSafe(ss[i], ms[i].p, ms[i].a.pid, ms[i].a.status, ss[i + 1]);
    ReapIsSafe(ss[j], ms[j].p, ms[j].a.pid, ms[j].a.status, ss[j + 1]);
  }
}
