/** What the threads of kernel/pipe.c put in and get out over whole runs, told from the moves they make
    and the arguments of their calls alone. */
module PipeRuns {
  import opened Pipe

  // ---- read off the moves ----

  /** The bytes put into the pipe by the first n moves, and those taken out. */
  function Input(ms: seq<Move>, n: nat): seq<Byte>
    requires n <= |ms|
  {
    if n == 0 then []
    else Input(ms, n - 1) + if ms[n - 1].a.WriteByte? then [ms[n - 1].a.ch] else []
  }

  function Output(ms: seq<Move>, n: nat): seq<Byte>
    requires n <= |ms|
  {
    if n == 0 then []
    else Output(ms, n - 1) + if ms[n - 1].a.ReadByte? then [ms[n - 1].a.ch] else []
  }

  /** What p's latest write was given, and the bytes p has put in since it began. */
  function Given(ms: seq<Move>, n: nat, p: nat): seq<Byte>
    requires n <= |ms|
  {
    if n == 0 then []
    else if ms[n - 1].p == p && ms[n - 1].a.WriteBegin? then ms[n - 1].a.buf
    else Given(ms, n - 1, p)
  }

  function Put(ms: seq<Move>, n: nat, p: nat): seq<Byte>
    requires n <= |ms|
  {
    if n == 0 || (ms[n - 1].p == p && ms[n - 1].a.WriteBegin?) then []
    else Put(ms, n - 1, p) + if ms[n - 1].p == p && ms[n - 1].a.WriteByte? then [ms[n - 1].a.ch] else []
  }

  /** How many bytes p's latest read asked for, and those copied out to p since it began. */
  function Wanted(ms: seq<Move>, n: nat, p: nat): int
    requires n <= |ms|
  {
    if n == 0 then 0
    else if ms[n - 1].p == p && ms[n - 1].a.ReadBegin? then ms[n - 1].a.n
    else Wanted(ms, n - 1, p)
  }

  function Got(ms: seq<Move>, n: nat, p: nat): seq<Byte>
    requires n <= |ms|
  {
    if n == 0 || (ms[n - 1].p == p && ms[n - 1].a.ReadBegin?) then []
    else Got(ms, n - 1, p)
         + if ms[n - 1].p == p && ms[n - 1].a.ReadByte? && !ms[n - 1].a.faults then [ms[n - 1].a.ch] else []
  }

  /** Copying a byte out to p has failed since. */
  predicate Faulted(ms: seq<Move>, n: nat, p: nat)
    requires n <= |ms|
  {
    && n > 0
    && (if ms[n - 1].p == p && ms[n - 1].a.ReadBegin? then false
        else Faulted(ms, n - 1, p) || (ms[n - 1].p == p && ms[n - 1].a.ReadByte? && ms[n - 1].a.faults))
  }

  // ---- first in, first out ----

  lemma {:induction false} InputIs(ss: seq<State>, ms: seq<Move>, n: nat)
    requires Run(ss, ms) && n < |ss|
    ensures ss[n].produced == Input(ms, n) && ss[n].consumed == Output(ms, n)
  {
    hide Step;
    if n > 0 {
      InputIs(ss, ms, n - 1);
      BytesStep(ss[n - 1], ms[n - 1].p, ms[n - 1].a, ss[n]);
    }
  }

  lemma BytesStep(s: State, p: nat, a: Act, t: State)
    requires Step(s, p, a, t)
    ensures t.produced == s.produced + if a.WriteByte? then [a.ch] else []
    ensures t.consumed == s.consumed + if a.ReadByte? then [a.ch] else []
  {}

  /** At every point of every run, the bytes handed to readers so far, followed by those in the ring,
      are the bytes the writers put in, in the order they did. */
  lemma PipeIsFifo(ss: seq<State>, ms: seq<Move>, n: nat)
    requires Run(ss, ms) && n < |ss|
    ensures |ss[n].data| == PIPESIZE && Count(ss[n]) <= PIPESIZE
    ensures Output(ms, n) + Buffered(ss[n]) == Input(ms, n)
  {
    hide Run;
    InputIs(ss, ms, n);
    RunIsFifo(ss, ms, n);
  }

  // ---- one writer ----

  predicate Writing(pc: Pc) { pc.Write? || pc.WriteAsleep? || pc.WriteWoken? }
  predicate Waiting(pc: Pc) { pc.Read? || pc.ReadAsleep? || pc.ReadWoken? }

  ghost predicate WriterAt(pc: Pc, given: seq<Byte>, put: seq<Byte>) {
    put <= given && (Writing(pc) ==> pc.buf == given && pc.i == |put|)
  }

  /** Another thread's move leaves a thread where it is, asleep or awake. */
  lemma Others(s: State, p: nat, a: Act, t: State, q: nat)
    requires Step(s, p, a, t) && q < |s.pc| && q != p
    ensures q < |t.pc| && t.pc[q] in {s.pc[q], WakeRead(s.pc[q]), WakeWrite(s.pc[q])}
  {}

  lemma WriterStep(s: State, p: nat, a: Act, t: State, given: seq<Byte>, put: seq<Byte>)
    requires Step(s, p, a, t) && WriterAt(s.pc[p], given, put)
    ensures p < |t.pc|
    ensures if a.WriteBegin? then WriterAt(t.pc[p], a.buf, [])
            else WriterAt(t.pc[p], given, put + if a.WriteByte? then [a.ch] else [])
  {
    if !a.WriteByte? { assert put + [] == put; }
  }

  lemma {:induction false} WriterIs(ss: seq<State>, ms: seq<Move>, n: nat, p: nat)
    requires Run(ss, ms) && n < |ss| && p < |ss[n].pc|
    ensures WriterAt(ss[n].pc[p], Given(ms, n, p), Put(ms, n, p))
  {
    hide Step;
    if n > 0 {
      var s, m := ss[n - 1], ms[n - 1];
      SameThreads(s, m.p, m.a, ss[n]);
      WriterIs(ss, ms, n - 1, p);
      if m.p == p {
        WriterStep(s, p, m.a, ss[n], Given(ms, n - 1, p), Put(ms, n - 1, p));
      } else {
        assert Put(ms, n - 1, p) + [] == Put(ms, n - 1, p);
        Others(s, m.p, m.a, ss[n], p);
      }
    }
  }

  lemma SameThreads(s: State, p: nat, a: Act, t: State)
    requires Step(s, p, a, t)
    ensures p < |s.pc| == |t.pc|
  {}

  /** What a write has put in is the front of the bytes it was given, in their order, whatever the
      other threads do meanwhile. A write that ends returns the length it was given, and has put in all
      of it unless there was room and copyin failed; one that gives up has met a full pipe. */
  lemma WritesInOrder(ss: seq<State>, ms: seq<Move>, n: nat, p: nat)
    requires Run(ss, ms) && n < |ss| && p < |ss[n].pc|
    ensures Put(ms, n, p) <= Given(ms, n, p)
    ensures n < |ms| && ms[n].p == p && ms[n].a.WriteEnd? ==>
              && ms[n].a.r == |Given(ms, n, p)|
              && (Put(ms, n, p) == Given(ms, n, p) || |Input(ms, n)| < |Output(ms, n)| + PIPESIZE)
    ensures n < |ms| && ms[n].p == p && ms[n].a.WriteQuit? ==>
              Put(ms, n, p) < Given(ms, n, p) && |Input(ms, n)| == |Output(ms, n)| + PIPESIZE
  {
    WriterIs(ss, ms, n, p);
    if n < |ms| && ms[n].p == p {
      RunKeepsInv(ss, ms, n);
      InputIs(ss, ms, n);
      WriteStops(ss[n], p, ms[n].a, ss[n + 1], Given(ms, n, p), Put(ms, n, p));
    }
  }

  lemma WriteStops(s: State, p: nat, a: Act, t: State, given: seq<Byte>, put: seq<Byte>)
    requires Fifo(s) && Step(s, p, a, t) && WriterAt(s.pc[p], given, put)
    ensures a.WriteEnd? ==> a.r == |given| && (put == given || |s.produced| < |s.consumed| + PIPESIZE)
    ensures a.WriteQuit? ==> put < given && |s.produced| == |s.consumed| + PIPESIZE
  {
    Tests(|s.consumed|, |s.produced|);
  }

  // ---- one reader ----

  predicate AtEnd(part: seq<Byte>, whole: seq<Byte>) {
    |part| <= |whole| && whole[|whole| - |part|..] == part
  }

  /** A reader that is copying has just had the last bytes taken out, but for one it may have lost. */
  ghost predicate ReaderAt(pc: Pc, wanted: int, got: seq<Byte>, lost: bool, out: seq<Byte>) {
    && (Waiting(pc) ==> got == [] && !lost && pc.n == wanted)
    && (pc.Copy? ==> pc.i == |got| && if lost then pc.n == pc.i && LostLast(got, out)
                                      else pc.n == wanted && AtEnd(got, out))
    && (got == [] || |got| <= wanted)
    && Within(got, out)
  }

  predicate LostLast(part: seq<Byte>, whole: seq<Byte>) {
    whole != [] && AtEnd(part, whole[..|whole| - 1])
  }

  /** part is a contiguous part of whole. */
  ghost predicate Within(part: seq<Byte>, whole: seq<Byte>) {
    exists k: nat :: Lies(part, whole, k)
  }

  predicate Lies(part: seq<Byte>, whole: seq<Byte>, k: nat) {
    k + |part| <= |whole| && whole[k..k + |part|] == part
  }

  lemma WithinGrows(part: seq<Byte>, whole: seq<Byte>, more: seq<Byte>)
    requires Within(part, whole)
    ensures Within(part, whole + more)
  {
    var k: nat :| Lies(part, whole, k);
    assert (whole + more)[k..k + |part|] == whole[k..k + |part|];
    assert Lies(part, whole + more, k);
  }

  lemma EndIsWithin(part: seq<Byte>, whole: seq<Byte>)
    requires AtEnd(part, whole)
    ensures Within(part, whole)
  {
    assert Lies(part, whole, |whole| - |part|);
  }

  lemma EndGrows(part: seq<Byte>, whole: seq<Byte>, b: Byte)
    requires AtEnd(part, whole)
    ensures AtEnd(part + [b], whole + [b]) && LostLast(part, whole + [b])
  {
    assert (whole + [b])[..|whole|] == whole;
    assert (whole + [b])[|whole| - |part|..] == whole[|whole| - |part|..] + [b];
  }

  lemma CopyStep(s: State, p: nat, ch: Byte, faults: bool, t: State)
    requires Step(s, p, ReadByte(ch, faults), t)
    ensures p < |s.pc| == |t.pc| && s.pc[p].Copy? && s.pc[p].i < s.pc[p].n
    ensures t.pc[p] == if faults then Copy(s.pc[p].i, s.pc[p].i) else Copy(s.pc[p].n, s.pc[p].i + 1)
  {}

  lemma ReadByteStep(s: State, p: nat, ch: Byte, faults: bool, t: State, wanted: int, got: seq<Byte>,
                     lost: bool, out: seq<Byte>)
    requires Step(s, p, ReadByte(ch, faults), t) && ReaderAt(s.pc[p], wanted, got, lost, out)
    ensures p < |t.pc| && ReaderAt(t.pc[p], wanted, got + if faults then [] else [ch], lost || faults, out + [ch])
  {
    hide Step, AtEnd, LostLast, Within;
    CopyStep(s, p, ch, faults, t);
    EndGrows(got, out, ch);
    if faults {
      assert got + [] == got;
      WithinGrows(got, out, [ch]);
    } else {
      EndIsWithin(got + [ch], out + [ch]);
    }
  }

  lemma OwnStep(s: State, p: nat, a: Act, t: State)
    requires Step(s, p, a, t) && !a.ReadByte?
    ensures p < |s.pc| == |t.pc| && (a.ReadBegin? ==> t.pc[p] == Read(a.n))
    ensures Waiting(t.pc[p]) && !a.ReadBegin? ==> Waiting(s.pc[p]) && t.pc[p].n == s.pc[p].n
    ensures t.pc[p].Copy? ==> t.pc[p] == s.pc[p] || (s.pc[p].Read? && t.pc[p] == Copy(s.pc[p].n, 0))
  {}

  lemma ReaderStep(s: State, p: nat, a: Act, t: State, wanted: int, got: seq<Byte>, lost: bool, out: seq<Byte>)
    requires Step(s, p, a, t) && !a.ReadByte? && ReaderAt(s.pc[p], wanted, got, lost, out)
    ensures p < |t.pc|
    ensures if a.ReadBegin? then ReaderAt(t.pc[p], a.n, [], false, out) else ReaderAt(t.pc[p], wanted, got, lost, out)
  {
    hide Step, Within;
    OwnStep(s, p, a, t);
    EndIsWithin([], out);
  }

  /** While p copies it has the lock, so nobody else takes a byte. */
  lemma CopiesAlone(s: State, p: nat, a: Act, t: State, q: nat)
    requires Inv(s) && Step(s, p, a, t) && a.ReadByte? && q < |s.pc| && q != p
    ensures !s.pc[q].Copy?
  {
    assert ThreadOk(s, p) && ThreadOk(s, q);
  }

  lemma ReaderOthers(s: State, p: nat, a: Act, t: State, q: nat, wanted: int, got: seq<Byte>,
                     lost: bool, out: seq<Byte>)
    requires Inv(s) && Step(s, p, a, t) && q < |s.pc| && q != p && ReaderAt(s.pc[q], wanted, got, lost, out)
    ensures q < |t.pc| && ReaderAt(t.pc[q], wanted, got, lost, out + if a.ReadByte? then [a.ch] else [])
  {
    Others(s, p, a, t, q);
    if a.ReadByte? {
      CopiesAlone(s, p, a, t, q);
      WithinGrows(got, out, [a.ch]);
    } else {
      assert out + [] == out;
    }
    hide Step, Inv, Within;
  }

  lemma NoneRead(pc: Pc)
    requires pc.Idle?
    ensures ReaderAt(pc, 0, [], false, [])
  {
    hide LostLast, Within;
    EndIsWithin([], []);
  }

  lemma {:induction false} ReaderIs(ss: seq<State>, ms: seq<Move>, n: nat, p: nat)
    requires Run(ss, ms) && n < |ss| && p < |ss[n].pc|
    ensures ReaderAt(ss[n].pc[p], Wanted(ms, n, p), Got(ms, n, p), Faulted(ms, n, p), Output(ms, n))
  {
    hide Step, Inv, ReaderAt;
    if n == 0 {
      NoneRead(ss[0].pc[p]);
    } else {
      var s, m := ss[n - 1], ms[n - 1];
      SameThreads(s, m.p, m.a, ss[n]);
      ReaderIs(ss, ms, n - 1, p);
      RunKeepsInv(ss, ms, n - 1);
      var wanted, got, out := Wanted(ms, n - 1, p), Got(ms, n - 1, p), Output(ms, n - 1);
      var lost := Faulted(ms, n - 1, p);
      assert got + [] == got && out + [] == out;
      if m.p != p {
        ReaderOthers(s, m.p, m.a, ss[n], p, wanted, got, lost, out);
      } else if m.a.ReadByte? {
        ReadByteStep(s, p, m.a.ch, m.a.faults, ss[n], wanted, got, lost, out);
      } else {
        ReaderStep(s, p, m.a, ss[n], wanted, got, lost, out);
      }
    }
  }

  /** What one read has copied out is a contiguous part of all that was taken out, no more than it asked
      for. A read that ends returns their number; unless a copyout failed, they are the last bytes taken
      out, and it stops short only on an empty pipe. One that sleeps or gives up has met an empty pipe. */
  lemma ReadsContiguous(ss: seq<State>, ms: seq<Move>, n: nat, p: nat)
    requires Run(ss, ms) && n < |ss| && p < |ss[n].pc|
    ensures Within(Got(ms, n, p), Output(ms, n)) && (Got(ms, n, p) == [] || |Got(ms, n, p)| <= Wanted(ms, n, p))
    ensures n < |ms| && ms[n].p == p && ms[n].a.ReadEnd? ==>
              && ms[n].a.r == |Got(ms, n, p)|
              && if Faulted(ms, n, p) then LostLast(Got(ms, n, p), Output(ms, n))
                 else AtEnd(Got(ms, n, p), Output(ms, n))
                      && (ms[n].a.r >= Wanted(ms, n, p) || Output(ms, n) == Input(ms, n))
    ensures n < |ms| && ms[n].a in {ReadSleep, ReadKilled} ==> Output(ms, n) == Input(ms, n)
  {
    ReaderIs(ss, ms, n, p);
    if n < |ms| {
      RunKeepsInv(ss, ms, n);
      InputIs(ss, ms, n);
      if ms[n].a in {ReadSleep, ReadKilled} {
        Drained(ss[n], ms[n].p, ms[n].a, ss[n + 1]);
      }
      if ms[n].p == p && ms[n].a.ReadEnd? {
        ReadStops(ss[n], p, ms[n].a.r, ss[n + 1], Wanted(ms, n, p), Got(ms, n, p), Faulted(ms, n, p), Output(ms, n));
      }
    }
  }

  lemma Drained(s: State, p: nat, a: Act, t: State)
    requires Fifo(s) && Step(s, p, a, t) && a in {ReadSleep, ReadKilled}
    ensures s.consumed == s.produced
  {
    Tests(|s.consumed|, |s.produced|);
  }

  lemma ReadStops(s: State, p: nat, r: nat, t: State, wanted: int, got: seq<Byte>, lost: bool, out: seq<Byte>)
    requires Fifo(s) && Step(s, p, ReadEnd(r), t) && ReaderAt(s.pc[p], wanted, got, lost, out) && out == s.consumed
    ensures r == |got|
    ensures if lost then LostLast(got, out) else AtEnd(got, out) && (r >= wanted || s.consumed == s.produced)
  {
    Tests(|s.consumed|, |s.produced|);
  }

  // ---- the ends of the pipe ----

  /** One of the first n moves closed that end. */
  predicate Closed(ms: seq<Move>, n: nat, writable: bool)
    requires n <= |ms|
  {
    exists i :: 0 <= i < n && ms[i].a == Close(writable)
  }

  lemma EndsStep(s: State, p: nat, a: Act, t: State)
    requires Step(s, p, a, t)
    ensures t.writeopen <==> s.writeopen && a != Close(true)
    ensures t.readopen <==> s.readopen && a != Close(false)
  {}

  lemma {:induction false} EndsAre(ss: seq<State>, ms: seq<Move>, n: nat)
    requires Run(ss, ms) && n < |ss|
    ensures (ss[n].writeopen <==> !Closed(ms, n, true)) && (ss[n].readopen <==> !Closed(ms, n, false))
  {
    hide Step;
    if n > 0 {
      EndsAre(ss, ms, n - 1);
      EndsStep(ss[n - 1], ms[n - 1].p, ms[n - 1].a, ss[n]);
    }
  }

  /** A thread that has begun to copy and got nothing yet has something to copy, unless the write end is
      closed. */
  ghost predicate CopyAt(s: State, p: nat)
    requires p < |s.pc|
  {
    s.pc[p].Copy? && s.pc[p].i == 0 < s.pc[p].n ==> !Empty(s) || !s.writeopen
  }

  lemma CopyKeeps(s: State, p: nat, a: Act, t: State, q: nat)
    requires Inv(s) && Step(s, p, a, t) && q < |s.pc| && CopyAt(s, q)
    ensures q < |t.pc| && CopyAt(t, q)
  {
    hide Fifo;
    assert ThreadOk(s, p) && ThreadOk(s, q);
  }

  lemma {:induction false} CopyIs(ss: seq<State>, ms: seq<Move>, n: nat, p: nat)
    requires Run(ss, ms) && n < |ss| && p < |ss[n].pc|
    ensures CopyAt(ss[n], p)
  {
    hide Step, Inv;
    if n > 0 {
      var s, m := ss[n - 1], ms[n - 1];
      SameThreads(s, m.p, m.a, ss[n]);
      CopyIs(ss, ms, n - 1, p);
      RunKeepsInv(ss, ms, n - 1);
      CopyKeeps(s, m.p, m.a, ss[n], p);
    }
  }

  lemma StopGuards(s: State, p: nat, a: Act, t: State)
    requires Step(s, p, a, t)
    ensures a == WriteQuit(false) ==> !s.readopen
    ensures a == WriteFull ==> s.readopen
    ensures a == ReadSleep || a == ReadKilled ==> s.writeopen
    ensures a.ReadEnd? ==> p < |s.pc| && s.pc[p].Copy? && a.r == s.pc[p].i && (a.r >= s.pc[p].n || Empty(s))
  {}

  /** End of file: a read that asked for bytes returns 0 only once the write end is closed, but for a
      byte lost to a failing copyout. A write that is not killed gives up only once the read end is
      closed. Readers sleep only while the write end is open, and writers while the read end is. */
  lemma EndOfFile(ss: seq<State>, ms: seq<Move>, n: nat)
    requires Run(ss, ms) && n < |ms|
    ensures var p, a := ms[n].p, ms[n].a;
            && (a == ReadEnd(0) && Wanted(ms, n, p) > 0 && !Faulted(ms, n, p) ==> Closed(ms, n, true))
            && (a == WriteQuit(false) ==> Closed(ms, n, false))
            && (a == ReadSleep || a == ReadKilled ==> !Closed(ms, n, true))
            && (a == WriteFull ==> !Closed(ms, n, false))
  {
    hide Step, Within;
    var p, a := ms[n].p, ms[n].a;
    EndsAre(ss, ms, n);
    StopGuards(ss[n], p, a, ss[n + 1]);
    if a.ReadEnd? {
      ReaderIs(ss, ms, n, p);
      CopyIs(ss, ms, n, p);
    }
  }
}
