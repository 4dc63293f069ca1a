/** kernel/pipe.c: a ring buffer with 32-bit counters, and its blocking protocol, for any number of
    reading and writing threads in any interleaving. Everything happens under the pipe's lock, so
    one step is one loop iteration of the thread that holds it. sleep and wakeup are atomic here,
    which module SleepWakeup justifies. */
module Pipe {

  const PIPESIZE := 512
  const WRAP := 0x1_0000_0000

  type Byte = int

  /** Where a thread is: outside; in pipewrite's loop with the lock, asleep on nwrite, woken and
      waiting for the lock; the same in piperead's first loop on nread; in its copying loop. */
  datatype Pc =
    | Idle
    | Write(buf: seq<Byte>, i: nat) | WriteAsleep(buf: seq<Byte>, i: nat) | WriteWoken(buf: seq<Byte>, i: nat)
    | Read(n: int) | ReadAsleep(n: int) | ReadWoken(n: int)
    | Copy(n: int, i: nat)

  const NONE := -1

  /** `produced` and `consumed` are all the bytes ever put in and taken out. `abandoned`: a write
      gave up on a full pipe (killed, or no reader) and nobody has woken the readers since. */
  datatype State = State(data: seq<Byte>, nread: nat, nwrite: nat, readopen: bool, writeopen: bool,
                         lock: int, pc: seq<Pc>, produced: seq<Byte>, consumed: seq<Byte>, abandoned: bool)

  predicate Full(s: State) { s.nwrite == (s.nread + PIPESIZE) % WRAP }
  predicate Empty(s: State) { s.nread == s.nwrite }

  function WakeRead(pc: Pc): Pc { if pc.ReadAsleep? then ReadWoken(pc.n) else pc }
  function WakeWrite(pc: Pc): Pc { if pc.WriteAsleep? then WriteWoken(pc.buf, pc.i) else pc }

  function WakeReaders(pc: seq<Pc>): (r: seq<Pc>)
    ensures |r| == |pc| && forall p :: 0 <= p < |pc| ==> r[p] == WakeRead(pc[p])
  {
    seq(|pc|, p requires 0 <= p < |pc| => WakeRead(pc[p]))
  }

  function WakeWriters(pc: seq<Pc>): (r: seq<Pc>)
    ensures |r| == |pc| && forall p :: 0 <= p < |pc| ==> r[p] == WakeWrite(pc[p])
  {
    seq(|pc|, p requires 0 <= p < |pc| => WakeWrite(pc[p]))
  }

  /** WriteByte and ReadByte name the byte put in or handed to the reader, WriteEnd and ReadEnd what the
      call returns. */
  datatype Act =
    | WriteBegin(buf: seq<Byte>) | WriteByte(ch: Byte) | WriteFull | WriteQuit(killed: bool) | WriteEnd(r: nat)
    | WriteAgain
    | ReadBegin(n: int) | ReadSleep | ReadKilled | ReadGo | ReadByte(ch: Byte, faults: bool) | ReadEnd(r: nat)
    | ReadAgain
    | Close(writable: bool) | Kill

  ghost predicate Step(s: State, p: nat, a: Act, t: State) {
    && p < |s.pc| && |s.data| == PIPESIZE
    && match a
       case WriteBegin(buf) =>
         s.pc[p].Idle? && s.lock == NONE && t == s.(pc := s.pc[p := Write(buf, 0)], lock := p)
       case WriteByte(ch) =>
         && s.pc[p].Write? && s.pc[p].i < |s.pc[p].buf| && !Full(s) && ch == s.pc[p].buf[s.pc[p].i]
         && t == s.(pc := s.pc[p := Write(s.pc[p].buf, s.pc[p].i + 1)], data := s.data[s.nwrite % PIPESIZE := ch],
                    nwrite := (s.nwrite + 1) % WRAP, produced := s.produced + [ch])
       case WriteFull =>
         && s.pc[p].Write? && s.pc[p].i < |s.pc[p].buf| && Full(s) && s.readopen
         && t == s.(pc := WakeReaders(s.pc)[p := WriteAsleep(s.pc[p].buf, s.pc[p].i)], lock := NONE, abandoned := false)
       // no reader, or killed: no wakeup
       case WriteQuit(killed) =>
         && s.pc[p].Write? && s.pc[p].i < |s.pc[p].buf| && Full(s) && (killed || !s.readopen)
         && t == s.(pc := s.pc[p := Idle], lock := NONE, abandoned := true)
       // all written, or copyin failed; the length asked for is returned all the same
       case WriteEnd(r) =>
         && s.pc[p].Write? && (s.pc[p].i == |s.pc[p].buf| || !Full(s)) && r == |s.pc[p].buf|
         && t == s.(pc := WakeReaders(s.pc)[p := Idle], lock := NONE, abandoned := false)
       case WriteAgain =>
         s.pc[p].WriteWoken? && s.lock == NONE && t == s.(pc := s.pc[p := Write(s.pc[p].buf, s.pc[p].i)], lock := p)
       case ReadBegin(n) =>
         s.pc[p].Idle? && s.lock == NONE && t == s.(pc := s.pc[p := Read(n)], lock := p)
       case ReadSleep =>
         s.pc[p].Read? && Empty(s) && s.writeopen && t == s.(pc := s.pc[p := ReadAsleep(s.pc[p].n)], lock := NONE)
       case ReadKilled =>
         s.pc[p].Read? && Empty(s) && s.writeopen && t == s.(pc := s.pc[p := Idle], lock := NONE)
       case ReadGo =>
         s.pc[p].Read? && !(Empty(s) && s.writeopen) && t == s.(pc := s.pc[p := Copy(s.pc[p].n, 0)])
       // a failing copyout loses the byte and ends the loop
       case ReadByte(ch, faults) =>
         && s.pc[p].Copy? && s.pc[p].i < s.pc[p].n && !Empty(s) && ch == s.data[s.nread % PIPESIZE]
         && t == s.(pc := s.pc[p := Copy(if faults then s.pc[p].i else s.pc[p].n,
                                         if faults then s.pc[p].i else s.pc[p].i + 1)],
                    nread := (s.nread + 1) % WRAP, consumed := s.consumed + [ch])
       case ReadEnd(r) =>
         && s.pc[p].Copy? && (s.pc[p].i >= s.pc[p].n || Empty(s)) && r == s.pc[p].i
         && t == s.(pc := WakeWriters(s.pc)[p := Idle], lock := NONE)
       case ReadAgain =>
         s.pc[p].ReadWoken? && s.lock == NONE && t == s.(pc := s.pc[p := Read(s.pc[p].n)], lock := p)
       case Close(writable) =>
         && s.pc[p].Idle? && s.lock == NONE
         && t == if writable then s.(writeopen := false, pc := WakeReaders(s.pc), abandoned := false)
                 else s.(readopen := false, pc := WakeWriters(s.pc))
       case Kill =>
         t == s.(pc := s.pc[p := WakeRead(WakeWrite(s.pc[p]))])
  }

  // ---- the invariant ----

  /** The ring holds the bytes produced and not yet consumed. */
  ghost predicate Slot(s: State, k: nat)
    requires |s.data| == PIPESIZE && k < |s.produced|
  {
    s.data[k % PIPESIZE] == s.produced[k]
  }

  ghost predicate Fifo(s: State) {
    && |s.data| == PIPESIZE
    && |s.consumed| <= |s.produced| <= |s.consumed| + PIPESIZE
    && s.consumed == s.produced[..|s.consumed|]
    && (forall k :: |s.consumed| <= k < |s.produced| ==> Slot(s, k))
    && s.nwrite == |s.produced| % WRAP && s.nread == |s.consumed| % WRAP
  }

  predicate HasLock(pc: Pc) { pc.Write? || pc.Read? || pc.Copy? }

  /** The lock belongs to the thread in a section; a sleeper has reason to sleep, unless the thread
      that holds the lock is about to wake it. */
  ghost predicate ThreadOk(s: State, p: int)
    requires 0 <= p < |s.pc|
  {
    && (HasLock(s.pc[p]) <==> s.lock == p)
    && (s.pc[p].Write? || s.pc[p].WriteAsleep? || s.pc[p].WriteWoken? ==> s.pc[p].i <= |s.pc[p].buf|)
    && (s.pc[p].WriteAsleep? ==> (Full(s) && s.readopen) || (0 <= s.lock < |s.pc| && s.pc[s.lock].Copy?))
    && (s.pc[p].ReadAsleep? ==>
        (Empty(s) && s.writeopen) || s.abandoned || (0 <= s.lock < |s.pc| && s.pc[s.lock].Write?))
  }

  ghost predicate Inv(s: State) {
    Fifo(s) && (s.lock == NONE || 0 <= s.lock < |s.pc|) && forall p :: 0 <= p < |s.pc| ==> ThreadOk(s, p)
  }

  /** The counters compare as the true counts do, across wrap-around. */
  lemma Tests(r: nat, w: nat)
    requires r <= w <= r + PIPESIZE
    ensures (w % WRAP == r % WRAP) <==> w == r
    ensures (w % WRAP == (r % WRAP + PIPESIZE) % WRAP) <==> w == r + PIPESIZE
  {}

  lemma Index(k: nat)
    ensures (k % WRAP) % PIPESIZE == k % PIPESIZE && (k % WRAP + 1) % WRAP == (k + 1) % WRAP
  {}

  lemma Apart(j: nat, k: nat)
    requires j < k < j + PIPESIZE
    ensures j % PIPESIZE != k % PIPESIZE
  {}

  lemma WriteFifo(s: State, p: nat, ch: Byte, t: State)
    requires Fifo(s) && Step(s, p, WriteByte(ch), t)
    ensures Fifo(t)
  {
    Tests(|s.consumed|, |s.produced|);
    Index(|s.produced|);
    forall k | |t.consumed| <= k < |t.produced| ensures Slot(t, k) {
      if k < |s.produced| {
        assert Slot(s, k);
        Apart(k, |s.produced|);
      }
    }
  }

  lemma ReadFifo(s: State, p: nat, ch: Byte, faults: bool, t: State)
    requires Fifo(s) && Step(s, p, ReadByte(ch, faults), t)
    ensures Fifo(t)
  {
    Tests(|s.consumed|, |s.produced|);
    Index(|s.consumed|);
    assert Slot(s, |s.consumed|);
    forall k | |t.consumed| <= k < |t.produced| ensures Slot(t, k) {
      assert Slot(s, k);
    }
  }

  lemma FifoKeeps(s: State, p: nat, a: Act, t: State)
    requires Fifo(s) && Step(s, p, a, t)
    ensures Fifo(t)
  {
    if a.WriteByte? {
      hide Fifo, Step;
      WriteFifo(s, p, a.ch, t);
    } else if a.ReadByte? {
      hide Fifo, Step;
      ReadFifo(s, p, a.ch, a.faults, t);
    } else {
      forall k | |t.consumed| <= k < |t.produced| ensures Slot(t, k) {
        assert Slot(s, k);
      }
    }
  }

  lemma ThreadsKeep(s: State, p: nat, a: Act, t: State)
    requires Inv(s) && Step(s, p, a, t)
    ensures forall q :: 0 <= q < |t.pc| ==> ThreadOk(t, q)
  {
    hide Fifo;
    forall q | 0 <= q < |t.pc| ensures ThreadOk(t, q) {
      assert ThreadOk(s, q) && ThreadOk(s, p);
    }
  }

  lemma StepKeeps(s: State, p: nat, a: Act, t: State)
    requires Inv(s) && Step(s, p, a, t)
    ensures Inv(t)
  {
    FifoKeeps(s, p, a, t);
    ThreadsKeep(s, p, a, t);
  }

  // ---- whole runs ----

  datatype Move = Move(p: nat, a: Act)

  /** After pipealloc. */
  ghost predicate Start(s: State) {
    && |s.data| == PIPESIZE && s.nread == s.nwrite == 0 && s.readopen && s.writeopen && s.lock == NONE
    && s.produced == s.consumed == [] && !s.abandoned && forall p :: 0 <= p < |s.pc| ==> s.pc[p].Idle?
  }

  ghost predicate Run(ss: seq<State>, ms: seq<Move>) {
    |ss| == |ms| + 1 && Start(ss[0]) && forall i :: 0 <= i < |ms| ==> Step(ss[i], ms[i].p, ms[i].a, ss[i + 1])
  }

  lemma {:induction false} RunKeepsInv(ss: seq<State>, ms: seq<Move>, i: nat)
    requires Run(ss, ms) && i < |ss|
    ensures Inv(ss[i])
  {
    if i == 0 {
      forall p | 0 <= p < |ss[0].pc| ensures ThreadOk(ss[0], p) {}
    } else {
      hide Inv, Step, Start;
      RunKeepsInv(ss, ms, i - 1);
      StepKeeps(ss[i - 1], ms[i - 1].p, ms[i - 1].a, ss[i]);
    }
  }

  /** How many bytes the counters say are in the ring, and those bytes. */
  function Count(s: State): (r: nat)
    ensures r < WRAP
  {
    (s.nwrite - s.nread) % WRAP
  }

  function Buffered(s: State): (r: seq<Byte>)
    requires |s.data| == PIPESIZE
    ensures |r| == Count(s)
  {
    seq(Count(s), k => s.data[((s.nread + k) % WRAP) % PIPESIZE])
  }

  lemma CountIs(r: nat, w: nat)
    requires r <= w <= r + PIPESIZE
    ensures (w % WRAP - r % WRAP) % WRAP == w - r
  {}

  lemma RingIndex(r: nat, k: nat)
    ensures ((r % WRAP + k) % WRAP) % PIPESIZE == (r + k) % PIPESIZE
  {}

  /** First in, first out: at every point of every run, the bytes taken out followed by those the
      fields of the pipe hold are the bytes put in; the ring never overfills, even once the
      counters have wrapped. */
  lemma RunIsFifo(ss: seq<State>, ms: seq<Move>, i: nat)
    requires Run(ss, ms) && i < |ss|
    ensures |ss[i].data| == PIPESIZE && ss[i].consumed + Buffered(ss[i]) == ss[i].produced && Count(ss[i]) <= PIPESIZE
  {
    hide Run;
    var s := ss[i];
    RunKeepsInv(ss, ms, i);
    CountIs(|s.consumed|, |s.produced|);
    forall k | 0 <= k < Count(s) ensures Buffered(s)[k] == s.produced[|s.consumed| + k] {
      RingIndex(|s.consumed|, k);
      assert Slot(s, |s.consumed| + k);
    }
  }

  /** With the lock free, a writer sleeps only on a full pipe whose read end is open. */
  lemma WriterHasReason(ss: seq<State>, ms: seq<Move>, i: nat, p: nat)
    requires Run(ss, ms) && i < |ss| && p < |ss[i].pc| && ss[i].lock == NONE && ss[i].pc[p].WriteAsleep?
    ensures |ss[i].data| == PIPESIZE && |Buffered(ss[i])| == PIPESIZE && ss[i].readopen
  {
    hide Run;
    RunKeepsInv(ss, ms, i);
    assert ThreadOk(ss[i], p);
    Tests(|ss[i].consumed|, |ss[i].produced|);
    CountIs(|ss[i].consumed|, |ss[i].produced|);
  }

  /** With the lock free, a reader sleeps only on an empty pipe whose write end is open, unless a write
      gave up on a full pipe and nobody has woken the readers since. */
  lemma ReaderHasReason(ss: seq<State>, ms: seq<Move>, i: nat, p: nat)
    requires Run(ss, ms) && i < |ss| && p < |ss[i].pc| && ss[i].lock == NONE && ss[i].pc[p].ReadAsleep?
    ensures !ss[i].abandoned ==> |ss[i].data| == PIPESIZE && Buffered(ss[i]) == [] && ss[i].writeopen
  {
    hide Run;
    RunKeepsInv(ss, ms, i);
    assert ThreadOk(ss[i], p);
  }

  /** Moves that wake all readers. */
  predicate WakesReaders(a: Act) { a.WriteFull? || a.WriteEnd? || a == Close(true) }

  /** Among the first n moves a write gave up, and no move after it woke the readers. */
  predicate QuitSince(ms: seq<Move>, n: nat)
    requires n <= |ms|
  {
    n > 0 && (ms[n - 1].a.WriteQuit? || (QuitSince(ms, n - 1) && !WakesReaders(ms[n - 1].a)))
  }

  /** The exception in terms of the moves made. */
  lemma {:induction false} AbandonedIff(ss: seq<State>, ms: seq<Move>, i: nat)
    requires Run(ss, ms) && i < |ss|
    ensures ss[i].abandoned <==> QuitSince(ms, i)
  {
    hide Step;
    if i > 0 {
      AbandonedIff(ss, ms, i - 1);
      AbandonedStep(ss[i - 1], ms[i - 1].p, ms[i - 1].a, ss[i]);
    }
  }

  lemma AbandonedStep(s: State, p: nat, a: Act, t: State)
    requires Step(s, p, a, t)
    ensures t.abandoned <==> a.WriteQuit? || (s.abandoned && !WakesReaders(a))
  {}

  /** A write that gives up leaves every sleeping reader its reason exactly when there is none. */
  lemma QuitStrandsReaders(s: State, p: nat, killed: bool, t: State)
    requires Inv(s) && Step(s, p, WriteQuit(killed), t)
    ensures (forall q :: 0 <= q < |t.pc| && t.pc[q].ReadAsleep? ==> Empty(t) && t.writeopen)
       <==> (forall q :: 0 <= q < |s.pc| ==> !s.pc[q].ReadAsleep?)
  {
    Tests(|s.consumed|, |s.produced|);
    if q :| 0 <= q < |s.pc| && s.pc[q].ReadAsleep? {
      assert t.pc[q].ReadAsleep? && !Empty(t);
    }
  }

  // ---- a run in which a write that gives up leaves a reader asleep on a full pipe ----

  ghost predicate Reached(s: State) {
    exists ss, ms :: Run(ss, ms) && ss[|ms|] == s
  }

  lemma Goes(s: State, p: nat, a: Act, t: State)
    requires Reached(s) && Step(s, p, a, t)
    ensures Reached(t)
  {
    hide Start, Step;
    var ss, ms :| Run(ss, ms) && ss[|ms|] == s;
    var ss', ms' := ss + [t], ms + [Move(p, a)];
    assert ss'[0] == ss[0];
    forall i | 0 <= i < |ms'| ensures Step(ss'[i], ms'[i].p, ms'[i].a, ss'[i + 1]) {
      if i < |ms| { assert Step(ss[i], ms[i].p, ms[i].a, ss[i + 1]); }
    }
    assert Run(ss', ms') && ss'[|ms'|] == t;
  }

  /** Thread 0 sleeps in piperead; thread 1 has written k bytes of one more than fit. */
  function Filling(k: nat): State {
    State(seq(PIPESIZE, j => if j < k then 7 else 0), 0, k, true, true, 1,
          [ReadAsleep(1), Write(seq(PIPESIZE + 1, _ => 7), k)], seq(k, _ => 7), [], false)
  }

  lemma FillingStarts()
    ensures Reached(Filling(0))
  {
    var s, none := Filling(0).(lock := NONE, pc := [Idle, Idle]), [];
    assert Run([s], none) && [s][|none|] == s;
    hide Reached, Run;
    var a := s.(pc := s.pc[0 := Read(1)], lock := 0);
    Goes(s, 0, ReadBegin(1), a);
    var b := a.(pc := a.pc[0 := ReadAsleep(1)], lock := NONE);
    Goes(a, 0, ReadSleep, b);
    Goes(b, 1, WriteBegin(seq(PIPESIZE + 1, _ => 7)), Filling(0));
  }

  lemma {:induction false} Fills(k: nat)
    requires k <= PIPESIZE
    ensures Reached(Filling(k))
  {
    hide Reached;
    if k == 0 {
      FillingStarts();
    } else {
      Fills(k - 1);
      var s, t := Filling(k - 1), Filling(k);
      assert s.data[k - 1 := 7] == t.data && s.produced + [7] == t.produced;
      assert s.pc[1 := Write(s.pc[1].buf, k)] == t.pc;
      Goes(s, 1, WriteByte(7), t);
    }
  }

  ghost predicate StrandedAfter(ss: seq<State>, ms: seq<Move>) {
    && Run(ss, ms)
    && var s := ss[|ms|];
    && s.lock == NONE && |s.pc| > 0 && s.pc[0].ReadAsleep? && s.readopen && s.writeopen
    && |s.data| == PIPESIZE && |Buffered(s)| == PIPESIZE
  }

  /** So ReaderHasReason needs its exception: the reader may even sleep on a full pipe. */
  lemma ReaderMayStrand()
    ensures exists ss, ms :: StrandedAfter(ss, ms)
  {
    Fills(PIPESIZE);
    var s := Filling(PIPESIZE);
    var t := s.(pc := s.pc[1 := Idle], lock := NONE, abandoned := true);
    Goes(s, 1, WriteQuit(true), t);
    var ss, ms :| Run(ss, ms) && ss[|ms|] == t;
    hide Run;
    assert StrandedAfter(ss, ms);
  }

  /** Readers and writers never wait for each other, with that one exception. */
  lemma NoDeadlock(ss: seq<State>, ms: seq<Move>, i: nat, p: nat, q: nat)
    requires Run(ss, ms) && i < |ss| && p < |ss[i].pc| && q < |ss[i].pc| && ss[i].lock == NONE && !ss[i].abandoned
    ensures !(ss[i].pc[p].ReadAsleep? && ss[i].pc[q].WriteAsleep?)
  {
    if ss[i].pc[p].ReadAsleep? && ss[i].pc[q].WriteAsleep? {
      ReaderHasReason(ss, ms, i, p);
      WriterHasReason(ss, ms, i, q);
    }
  }
}
