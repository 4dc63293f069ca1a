/** kernel/virtio_disk.c: the descriptor table and the two rings, shared by any number of requesting
    threads, the interrupt handler and the device, in any interleaving. One step is one section
    under the disk's lock, one iteration of the interrupt loop, or one action of the device, which
    is assumed to take each published chain once and to complete each one it took once. */
module Virtio {

  const NUM := 8
  const WRAP16 := 65536

  /** 512-byte sectors in a block. */
  const SECTORS := 2

  /** What virtio_disk_rw is asked for: the direction, the block, and where its data is. */
  datatype Req = Req(write: bool, block: nat, addr: nat)

  /** What a descriptor points to: the header of a request, the data, which the device fills on a read,
      or the status byte kept for a request's first descriptor. */
  datatype Cell = Blank | Header(write: bool, sector: nat) | Data(addr: nat, fill: bool) | Status(of: nat)

  /** Where the chain of a request is: the driver has put it in the available ring as number k, the
      device has taken it, the device has put it in the used ring as number k. */
  datatype Stage = Queued(k: nat) | Taken | Used(k: nat)

  /** A thread in virtio_disk_rw waits for its request (b->disk is 1), or has been told it is done. */
  datatype Pc = Idle | Waiting(a: nat, b: nat, c: nat, stage: Stage) | Done(a: nat, b: nat, c: nat)

  predicate Live(pc: Pc) { pc.Waiting? || pc.Done? }

  /** The shared memory, and ghost counts: chains published, taken by the device, completed, handled
      by the interrupt; `pubBy` and `usedBy` are the requests in ring order; owner is the thread
      that has each descriptor, or -1, and asked what each thread last asked for. */
  datatype State = State(
    free: seq<bool>, next: seq<nat>, chained: seq<bool>, cell: seq<Cell>, info: seq<int>,
    avail: seq<nat>, availIdx: nat, used: seq<nat>, usedId: nat, usedIdx: nat,
    pc: seq<Pc>, pubBy: seq<nat>, taken: nat, usedBy: seq<nat>, handled: nat, owner: seq<int>,
    asked: seq<Req>)

  const NONE := -1

  // ---- alloc_desc, alloc3_desc and free_chain on values ----

  /** The first free descriptor, or NUM. */
  function FirstFree(free: seq<bool>): (i: nat)
    ensures i <= |free| && (i < |free| ==> free[i]) && forall k :: 0 <= k < i ==> !free[k]
  {
    if free == [] then 0 else if free[0] then 0 else 1 + FirstFree(free[1..])
  }

  /** The three descriptors alloc3_desc takes, the first that are free; the third is NUM when there are
      fewer. */
  function First3(free: seq<bool>): (r: (nat, nat, nat))
    ensures r.0 <= r.1 <= r.2 <= |free| && (r.2 < |free| ==> r.0 < r.1 < r.2 && free[r.2])
    ensures forall k :: 0 <= k < r.2 ==> (free[k] <==> k == r.0 || k == r.1)
  {
    var a := FirstFree(free);
    if a == |free| then (a, a, a) else
    var f1 := free[a := false];
    var b := FirstFree(f1);
    assert forall k :: 0 <= k < |free| ==> f1[k] == (free[k] && k != a);
    if b == |free| then (a, b, b) else
    var f2 := f1[b := false];
    assert forall k :: 0 <= k < |free| ==> f2[k] == (f1[k] && k != b);
    (a, b, FirstFree(f2))
  }

  ghost predicate Shape(s: State) {
    && |s.free| == |s.next| == |s.chained| == |s.cell| == |s.info| == |s.avail| == |s.used| == |s.owner| == NUM
    && |s.asked| == |s.pc| && s.taken <= |s.pubBy| && s.handled <= |s.usedBy|
  }

  /** The chain of descriptors from `head` on says what r asks. */
  ghost predicate Says(s: State, head: nat, r: Req)
    requires Shape(s)
  {
    && head < NUM && s.cell[head] == Header(r.write, r.block * SECTORS) && s.chained[head]
    && (var data := s.next[head];
        && data < NUM && s.cell[data] == Data(r.addr, !r.write) && s.chained[data]
        && (var status := s.next[data]; status < NUM && s.cell[status] == Status(head) && !s.chained[status]))
  }

  /** Submit names what is asked for, Take what the device finds in the descriptors. */
  datatype Act = Submit(r: Req) | Take(r: Req) | Complete(p: nat) | Interrupt | Finish

  /** What thread p, the device or the interrupt handler does. */
  ghost predicate Step(s: State, p: nat, a: Act, t: State) {
    && Shape(s) && p < |s.pc|
    && match a
       // alloc3_desc succeeds; the chain is formatted and published
       case Submit(r) =>
         && s.pc[p].Idle? && First3(s.free).2 < NUM
         && var (x, y, z) := First3(s.free);
         && t == s.(free := s.free[x := false][y := false][z := false],
                    next := s.next[x := y][y := z][z := 0], chained := s.chained[x := true][y := true][z := false],
                    cell := s.cell[x := Header(r.write, r.block * SECTORS)]
                                  [y := Data(r.addr, !r.write)][z := Status(x)],
                    info := s.info[x := p], avail := s.avail[s.availIdx % NUM := x],
                    availIdx := (s.availIdx + 1) % WRAP16,
                    pc := s.pc[p := Waiting(x, y, z, Queued(|s.pubBy|))], pubBy := s.pubBy + [p],
                    owner := s.owner[x := p][y := p][z := p], asked := s.asked[p := r])
       // the device takes the next chain of the available ring, which is thread p's
       case Take(r) =>
         && s.taken < |s.pubBy| && s.pubBy[s.taken] == p && s.pc[p].Waiting? && Says(s, s.avail[s.taken % NUM], r)
         && t == s.(taken := s.taken + 1, pc := s.pc[p := Waiting(s.pc[p].a, s.pc[p].b, s.pc[p].c, Taken)])
       // the device completes any chain it has taken
       case Complete(q) =>
         && q == p && s.pc[p].Waiting? && s.pc[p].stage == Taken
         && t == s.(used := s.used[s.usedId % NUM := s.pc[p].a], usedId := (s.usedId + 1) % WRAP16,
                    pc := s.pc[p := Waiting(s.pc[p].a, s.pc[p].b, s.pc[p].c, Used(|s.usedBy|))],
                    usedBy := s.usedBy + [p])
       // one iteration of the interrupt loop; p is the thread whose buffer info names
       case Interrupt =>
         && s.usedIdx % NUM != s.usedId % NUM && s.used[s.usedIdx % NUM] < NUM && s.info[s.used[s.usedIdx % NUM]] == p
         && Live(s.pc[p])
         && t == s.(usedIdx := (s.usedIdx + 1) % NUM, handled := s.handled + 1,
                    pc := s.pc[p := Done(s.pc[p].a, s.pc[p].b, s.pc[p].c)])
       // free_chain
       case Finish =>
         && s.pc[p].Done? && s.pc[p].a < NUM && s.pc[p].b < NUM && s.pc[p].c < NUM
         && var (x, y, z) := (s.pc[p].a, s.pc[p].b, s.pc[p].c);
         && t == s.(info := s.info[x := NONE], free := s.free[x := true][y := true][z := true], pc := s.pc[p := Idle],
                    owner := s.owner[x := NONE][y := NONE][z := NONE])
  }

  // ---- the invariant ----

  /** A descriptor is free, or one of the three of its owner's request. */
  ghost predicate DescAt(s: State, i: int)
    requires Shape(s) && 0 <= i < NUM
  {
    && (s.owner[i] == NONE <==> s.free[i])
    && (s.owner[i] != NONE ==>
          && 0 <= s.owner[i] < |s.pc| && Live(s.pc[s.owner[i]])
          && (var pc := s.pc[s.owner[i]]; i == pc.a || i == pc.b || i == pc.c))
  }

  /** The three descriptors of a live request form its chain, and info leads back to it. */
  ghost predicate ChainAt(s: State, p: int)
    requires Shape(s) && 0 <= p < |s.pc| && Live(s.pc[p])
  {
    var pc := s.pc[p];
    && pc.a < NUM && pc.b < NUM && pc.c < NUM && pc.a != pc.b && pc.a != pc.c && pc.b != pc.c
    && s.owner[pc.a] == s.owner[pc.b] == s.owner[pc.c] == p && s.info[pc.a] == p
    && s.chained[pc.a] && s.next[pc.a] == pc.b && s.chained[pc.b] && s.next[pc.b] == pc.c && !s.chained[pc.c]
    && Says(s, pc.a, s.asked[p])
  }

  ghost predicate StageAt(s: State, p: int)
    requires Shape(s) && 0 <= p < |s.pc| && s.pc[p].Waiting?
  {
    match s.pc[p].stage
    case Queued(k) => s.taken <= k < |s.pubBy| && s.pubBy[k] == p
    case Taken => true
    case Used(k) => s.handled <= k < |s.usedBy| && s.usedBy[k] == p
  }

  ghost predicate ThreadAt(s: State, p: int)
    requires Shape(s) && 0 <= p < |s.pc|
  {
    (Live(s.pc[p]) ==> ChainAt(s, p)) && (s.pc[p].Waiting? ==> StageAt(s, p))
  }

  /** A chain published and not yet taken is in the available ring. */
  ghost predicate AvailAt(s: State, k: int)
    requires Shape(s) && s.taken <= k < |s.pubBy|
  {
    var p := s.pubBy[k];
    p < |s.pc| && s.pc[p].Waiting? && s.pc[p].stage == Queued(k) && s.avail[k % NUM] == s.pc[p].a
  }

  /** A chain completed and not yet handled is in the used ring. */
  ghost predicate UsedAt(s: State, k: int)
    requires Shape(s) && s.handled <= k < |s.usedBy|
  {
    var p := s.usedBy[k];
    p < |s.pc| && s.pc[p].Waiting? && s.pc[p].stage == Used(k) && s.used[k % NUM] == s.pc[p].a
  }

  ghost predicate Descs(s: State)
    requires Shape(s)
  {
    (forall i :: 0 <= i < NUM ==> DescAt(s, i)) && (forall p :: 0 <= p < |s.pc| ==> ThreadAt(s, p))
  }

  ghost predicate Rings(s: State)
    requires Shape(s)
  {
    && (forall k :: s.taken <= k < |s.pubBy| ==> AvailAt(s, k))
    && (forall k :: s.handled <= k < |s.usedBy| ==> UsedAt(s, k))
    && s.availIdx == |s.pubBy| % WRAP16 && s.usedId == |s.usedBy| % WRAP16 && s.usedIdx == s.handled % NUM
  }

  ghost predicate Inv(s: State) { Shape(s) && Descs(s) && Rings(s) }

  // ---- at most two requests ----

  /** Nine different descriptors do not fit in eight. */
  lemma AtMostTwo(s: State, p: nat, q: nat, r: nat)
    requires Shape(s) && Descs(s) && p < |s.pc| && q < |s.pc| && r < |s.pc| && p != q && p != r && q != r
    ensures !(Live(s.pc[p]) && Live(s.pc[q]) && Live(s.pc[r]))
  {
    hide Says;
    if Live(s.pc[p]) && Live(s.pc[q]) && Live(s.pc[r]) {
      assert ThreadAt(s, p) && ThreadAt(s, q) && ThreadAt(s, r);
      var x, y, z := s.pc[p], s.pc[q], s.pc[r];
      var nine := {x.a, x.b, x.c, y.a, y.b, y.c, z.a, z.b, z.c};
      Nine(x.a, x.b, x.c, y.a, y.b, y.c, z.a, z.b, z.c);
      Eight(nine);
    }
  }

  lemma Nine(a: nat, b: nat, c: nat, d: nat, e: nat, f: nat, g: nat, h: nat, i: nat)
    requires |{a, b, c}| == 3 && |{d, e, f}| == 3 && |{g, h, i}| == 3
    requires {a, b, c} !! {d, e, f} !! {g, h, i}
    ensures |{a, b, c, d, e, f, g, h, i}| == 9
  {
    assert {a, b, c, d, e, f, g, h, i} == {a, b, c} + {d, e, f} + {g, h, i};
  }

  lemma Eight(xs: set<nat>)
    requires forall x :: x in xs ==> x < NUM
    ensures |xs| <= NUM
  {
    var all: set<nat> := {0, 1, 2, 3, 4, 5, 6, 7};
    assert xs <= all;
    SubsetSize(xs, all);
  }

  lemma {:induction false} SubsetSize(xs: set<nat>, ys: set<nat>)
    requires xs <= ys
    ensures |xs| <= |ys|
  {
    if xs != {} {
      var x :| x in xs;
      SubsetSize(xs - {x}, ys - {x});
    }
  }

  /** So the rings hold at most two entries not yet seen by the other side. */
  lemma ShortRings(s: State)
    requires Inv(s)
    ensures |s.pubBy| <= s.taken + 2 && |s.usedBy| <= s.handled + 2
  {
    if |s.pubBy| > s.taken + 2 {
      assert AvailAt(s, s.taken) && AvailAt(s, s.taken + 1) && AvailAt(s, s.taken + 2);
      AtMostTwo(s, s.pubBy[s.taken], s.pubBy[s.taken + 1], s.pubBy[s.taken + 2]);
    }
    if |s.usedBy| > s.handled + 2 {
      assert UsedAt(s, s.handled) && UsedAt(s, s.handled + 1) && UsedAt(s, s.handled + 2);
      AtMostTwo(s, s.usedBy[s.handled], s.usedBy[s.handled + 1], s.usedBy[s.handled + 2]);
    }
  }

  // ---- every step keeps it ----

  /** The three descriptors that a request takes are free, and different. */
  lemma SubmitTakes(s: State, p: nat, r: Req, t: State)
    requires Inv(s) && Step(s, p, Submit(r), t)
    ensures var (x, y, z) := First3(s.free);
            && x < NUM && y < NUM && z < NUM && x != y && x != z && y != z
            && s.owner[x] == s.owner[y] == s.owner[z] == NONE
  {
    var (x, y, z) := First3(s.free);
    assert DescAt(s, x) && DescAt(s, y) && DescAt(s, z);
  }

  lemma SubmitDesc(s: State, p: nat, r: Req, t: State, i: nat)
    requires Inv(s) && Step(s, p, Submit(r), t) && i < NUM
    ensures Shape(t) && DescAt(t, i)
  {
    SubmitTakes(s, p, r, t);
    hide Rings, First3;
    assert DescAt(s, i);
  }

  lemma SubmitOwn(s: State, p: nat, r: Req, t: State)
    requires Inv(s) && Step(s, p, Submit(r), t)
    ensures Shape(t) && |t.pc| == |s.pc| && ThreadAt(t, p)
  {
    SubmitTakes(s, p, r, t);
    hide Rings, Descs, First3;
  }

  lemma SubmitOther(s: State, p: nat, r: Req, t: State, q: nat)
    requires Inv(s) && Step(s, p, Submit(r), t) && q < |s.pc| && q != p
    ensures Shape(t) && |t.pc| == |s.pc| && ThreadAt(t, q)
  {
    SubmitTakes(s, p, r, t);
    assert ThreadAt(s, q);
    hide Rings, Descs, First3;
  }

  lemma SubmitDescs(s: State, p: nat, r: Req, t: State)
    requires Inv(s) && Step(s, p, Submit(r), t)
    ensures Shape(t) && Descs(t)
  {
    SubmitOwn(s, p, r, t);
    hide Inv, Step, DescAt, ThreadAt;
    forall i | 0 <= i < NUM ensures DescAt(t, i) { SubmitDesc(s, p, r, t, i); }
    forall q | 0 <= q < |t.pc| ensures ThreadAt(t, q) {
      if q != p { SubmitOther(s, p, r, t, q); }
    }
  }

  lemma SubmitRings(s: State, p: nat, r: Req, t: State)
    requires Inv(s) && Step(s, p, Submit(r), t)
    ensures Shape(t) && Rings(t)
  {
    ShortRings(s);
    SubmitTakes(s, p, r, t);
    hide Descs, First3, Inv, Live;
    forall k | t.taken <= k < |t.pubBy| ensures AvailAt(t, k) {
      if k < |s.pubBy| {
        assert AvailAt(s, k);
        Apart(k, |s.pubBy|);
      } else {
        RingIndex(|s.pubBy|);
      }
    }
    forall k | t.handled <= k < |t.usedBy| ensures UsedAt(t, k) {
      assert UsedAt(s, k);
    }
    RingIndex(|s.pubBy|);
  }

  lemma RingIndex(k: nat)
    ensures (k % WRAP16) % NUM == k % NUM && (k % WRAP16 + 1) % WRAP16 == (k + 1) % WRAP16
    ensures (k % NUM + 1) % NUM == (k + 1) % NUM
  {
    ModAdd(k % WRAP16, 8192 * (k / WRAP16));
    ModAdd(k % NUM + 1, k / NUM);
    ModAdd16(k % WRAP16 + 1, k / WRAP16);
  }

  lemma ModAdd(r: int, c: int)
    ensures (r + NUM * c) % NUM == r % NUM
  {}

  lemma ModAdd16(r: int, c: int)
    ensures (r + WRAP16 * c) % WRAP16 == r % WRAP16
  {}

  lemma Apart(j: nat, k: nat)
    requires j < k <= j + 2
    ensures j % NUM != k % NUM
  {}

  /** The device always finds the published chain intact, and in it what its thread asked for. */
  lemma TakeFinds(s: State)
    requires Inv(s) && s.taken < |s.pubBy|
    ensures var p := s.pubBy[s.taken];
            && p < |s.pc| && s.pc[p].Waiting? && s.avail[s.taken % NUM] == s.pc[p].a
            && Says(s, s.avail[s.taken % NUM], s.asked[p])
  {
    assert AvailAt(s, s.taken);
    assert ThreadAt(s, s.pubBy[s.taken]);
  }

  lemma TakeKeeps(s: State, p: nat, r: Req, t: State)
    requires Inv(s) && Step(s, p, Take(r), t)
    ensures Inv(t) && s.avail[s.taken % NUM] == s.pc[p].a && r == s.asked[p]
  {
    TakeFinds(s);
    assert AvailAt(s, s.taken);
    forall i | 0 <= i < NUM ensures DescAt(t, i) { assert DescAt(s, i); }
    forall q | 0 <= q < |t.pc| ensures ThreadAt(t, q) { assert ThreadAt(s, q); }
    forall k | t.taken <= k < |t.pubBy| ensures AvailAt(t, k) { assert AvailAt(s, k); }
    forall k | t.handled <= k < |t.usedBy| ensures UsedAt(t, k) { assert UsedAt(s, k); }
  }

  lemma CompleteKeeps(s: State, p: nat, q: nat, t: State)
    requires Inv(s) && Step(s, p, Complete(q), t)
    ensures Inv(t)
  {
    ShortRings(s);
    RingIndex(|s.usedBy|);
    forall i | 0 <= i < NUM ensures DescAt(t, i) { assert DescAt(s, i); }
    forall q | 0 <= q < |t.pc| ensures ThreadAt(t, q) { assert ThreadAt(s, q); }
    forall k | t.taken <= k < |t.pubBy| ensures AvailAt(t, k) { assert AvailAt(s, k); }
    forall k | t.handled <= k < |t.usedBy| ensures UsedAt(t, k) {
      if k < |s.usedBy| {
        assert UsedAt(s, k);
        Apart(k, |s.usedBy|);
      }
    }
  }

  /** The test of the interrupt loop is true exactly when there is a completion to handle, which
      names a live request that is waiting for it. */
  lemma InterruptFinds(s: State)
    requires Inv(s)
    ensures s.usedIdx % NUM != s.usedId % NUM <==> s.handled < |s.usedBy|
    ensures s.handled < |s.usedBy| ==>
      var p := s.usedBy[s.handled];
      && p < |s.pc| && s.pc[p].Waiting? && s.pc[p].stage == Used(s.handled)
      && s.used[s.usedIdx % NUM] == s.pc[p].a < NUM && s.info[s.pc[p].a] == p
  {
    ShortRings(s);
    RingIndex(|s.usedBy|);
    RingIndex(s.handled);
    if s.handled < |s.usedBy| {
      Apart(s.handled, |s.usedBy|);
      assert UsedAt(s, s.handled);
      assert ThreadAt(s, s.usedBy[s.handled]);
    }
  }

  lemma InterruptKeeps(s: State, p: nat, t: State)
    requires Inv(s) && Step(s, p, Interrupt, t)
    ensures Inv(t)
  {
    InterruptFinds(s);
    RingIndex(s.handled);
    forall i | 0 <= i < NUM ensures DescAt(t, i) { assert DescAt(s, i); }
    forall q | 0 <= q < |t.pc| ensures ThreadAt(t, q) { assert ThreadAt(s, q); }
    forall k | t.taken <= k < |t.pubBy| ensures AvailAt(t, k) { assert AvailAt(s, k); }
    forall k | t.handled <= k < |t.usedBy| ensures UsedAt(t, k) { assert UsedAt(s, k); }
  }

  lemma FinishKeeps(s: State, p: nat, t: State)
    requires Inv(s) && Step(s, p, Finish, t)
    ensures Inv(t) && !s.free[s.pc[p].a] && !s.free[s.pc[p].b] && !s.free[s.pc[p].c]
  {
    assert ThreadAt(s, p);
    assert DescAt(s, s.pc[p].a) && DescAt(s, s.pc[p].b) && DescAt(s, s.pc[p].c);
    forall i | 0 <= i < NUM ensures DescAt(t, i) { assert DescAt(s, i); }
    forall q | 0 <= q < |t.pc| ensures ThreadAt(t, q) { assert ThreadAt(s, q); }
    forall k | t.taken <= k < |t.pubBy| ensures AvailAt(t, k) { assert AvailAt(s, k); }
    forall k | t.handled <= k < |t.usedBy| ensures UsedAt(t, k) { assert UsedAt(s, k); }
  }

  lemma StepKeeps(s: State, p: nat, a: Act, t: State)
    requires Inv(s) && Step(s, p, a, t)
    ensures Inv(t)
  {
    hide Descs, Rings, Step;
    match a
    case Submit(r) => SubmitDescs(s, p, r, t); SubmitRings(s, p, r, t);
    case Take(r) => TakeKeeps(s, p, r, t);
    case Complete(q) => CompleteKeeps(s, p, q, t);
    case Interrupt => InterruptKeeps(s, p, t);
    case Finish => FinishKeeps(s, p, t);
  }

  // ---- whole runs ----

  datatype Move = Move(p: nat, a: Act)

  ghost predicate Start(s: State) {
    && Shape(s) && s.pubBy == s.usedBy == [] && s.availIdx == s.usedId == s.usedIdx == s.taken == s.handled == 0
    && (forall i :: 0 <= i < NUM ==> s.free[i] && s.owner[i] == NONE) && (forall p :: 0 <= p < |s.pc| ==> s.pc[p].Idle?)
  }

  ghost predicate Run(ss: seq<State>, ms: seq<Move>) {
    |ss| == |ms| + 1 && Start(ss[0]) && forall i :: 0 <= i < |ms| ==> Step(ss[i], ms[i].p, ms[i].a, ss[i + 1])
  }

  lemma {:induction false} RunKeepsInv(ss: seq<State>, ms: seq<Move>, i: nat)
    requires Run(ss, ms) && i < |ss|
    ensures Inv(ss[i])
  {
    if i == 0 {
      forall k | 0 <= k < NUM ensures DescAt(ss[0], k) {}
      forall p | 0 <= p < |ss[0].pc| ensures ThreadAt(ss[0], p) {}
    } else {
      hide Inv, Step, Start;
      RunKeepsInv(ss, ms, i - 1);
      StepKeeps(ss[i - 1], ms[i - 1].p, ms[i - 1].a, ss[i]);
    }
  }

  /** At every point of every run each descriptor is free or belongs to exactly one live request,
      which has exactly three; no three requests are live; and the interrupt handler acts exactly on
      the completions there are, each naming a live request. */
  lemma RingSafety(ss: seq<State>, ms: seq<Move>, i: nat, d: nat)
    requires Run(ss, ms) && i < |ss| && d < NUM
    ensures
      var s := ss[i];
      && Shape(s)
      && (s.free[d] <==> forall p: nat :: p < |s.pc| && Live(s.pc[p]) ==>
          d != s.pc[p].a && d != s.pc[p].b && d != s.pc[p].c)
      && (forall p: nat, q: nat :: p < q < |s.pc| && Live(s.pc[p]) && Live(s.pc[q]) ==>
          {s.pc[p].a, s.pc[p].b, s.pc[p].c} !! {s.pc[q].a, s.pc[q].b, s.pc[q].c})
      && (forall p: nat :: p < |s.pc| && Live(s.pc[p]) ==> |{s.pc[p].a, s.pc[p].b, s.pc[p].c}| == 3)
      && (forall p: nat, q: nat, r: nat :: p < q < r < |s.pc| ==>
          !(Live(s.pc[p]) && Live(s.pc[q]) && Live(s.pc[r])))
      && (s.usedIdx % NUM != s.usedId % NUM <==> s.handled < |s.usedBy|)
      && (s.handled < |s.usedBy| ==>
          var p := s.usedBy[s.handled];
          && p < |s.pc| && Live(s.pc[p]) && s.pc[p].Waiting? && s.pc[p].stage == Used(s.handled)
          && s.used[s.usedIdx % NUM] == s.pc[p].a < NUM && s.info[s.pc[p].a] == p)
  {
    var s := ss[i];
    RunKeepsInv(ss, ms, i);
    hide Run;
    InterruptFinds(s);
    DescSafety(s, d);
  }

  /** The part about descriptors. */
  lemma DescSafety(s: State, d: nat)
    requires Inv(s) && d < NUM
    ensures Shape(s)
    ensures s.free[d] <==> forall p: nat :: p < |s.pc| && Live(s.pc[p]) ==>
              d != s.pc[p].a && d != s.pc[p].b && d != s.pc[p].c
    ensures forall p: nat, q: nat :: p < q < |s.pc| && Live(s.pc[p]) && Live(s.pc[q]) ==>
              {s.pc[p].a, s.pc[p].b, s.pc[p].c} !! {s.pc[q].a, s.pc[q].b, s.pc[q].c}
    ensures forall p: nat :: p < |s.pc| && Live(s.pc[p]) ==> |{s.pc[p].a, s.pc[p].b, s.pc[p].c}| == 3
    ensures forall p: nat, q: nat, r: nat :: p < q < r < |s.pc| ==>
              !(Live(s.pc[p]) && Live(s.pc[q]) && Live(s.pc[r]))
  {
    hide Rings;
    assert DescAt(s, d);
    forall p: nat | p < |s.pc| && Live(s.pc[p]) ensures ChainAt(s, p) { assert ThreadAt(s, p); }
    forall p: nat, q: nat, r: nat | p < q < r < |s.pc|
      ensures !(Live(s.pc[p]) && Live(s.pc[q]) && Live(s.pc[r]))
    {
      AtMostTwo(s, p, q, r);
    }
  }

  /** What p did last among the first n moves. */
  datatype Last = Nothing | Did(a: Act)

  function LastBy(ms: seq<Move>, n: nat, p: nat): Last
    requires n <= |ms|
  {
    if n == 0 then Nothing else if ms[n - 1].p == p then Did(ms[n - 1].a) else LastBy(ms, n - 1, p)
  }

  /** The five steps of a request, in order. */
  predicate Follows(l: Last, a: Act) {
    match a
    case Submit(_) => l == Nothing || l == Did(Finish)
    case Take(r) => l == Did(Submit(r))
    case Complete(_) => l.Did? && l.a.Take?
    case Interrupt => l.Did? && l.a.Complete?
    case Finish => l == Did(Interrupt)
  }

  ghost predicate LastAt(pc: Pc, asked: Req, l: Last) {
    match pc
    case Idle => l == Nothing || l == Did(Finish)
    case Waiting(_, _, _, Queued(_)) => l == Did(Submit(asked))
    case Waiting(_, _, _, Taken) => l == Did(Take(asked))
    case Waiting(_, _, _, Used(_)) => l.Did? && l.a.Complete?
    case Done(_, _, _) => l == Did(Interrupt)
  }

  lemma LastStep(s: State, p: nat, a: Act, t: State, l: Last)
    requires Inv(s) && Step(s, p, a, t) && LastAt(s.pc[p], s.asked[p], l)
    ensures |t.asked| == |t.pc| == |s.pc| && LastAt(t.pc[p], t.asked[p], Did(a)) && Follows(l, a)
    ensures forall q :: 0 <= q < |s.pc| && q != p ==> t.pc[q] == s.pc[q] && t.asked[q] == s.asked[q]
  {
    InterruptFinds(s);
    if a.Take? {
      assert AvailAt(s, s.taken);
      TakeKeeps(s, p, a.r, t);
    }
  }

  lemma {:induction false} LastIs(ss: seq<State>, ms: seq<Move>, n: nat, p: nat)
    requires Run(ss, ms) && n < |ss| && p < |ss[0].pc|
    ensures p < |ss[n].pc| == |ss[n].asked| == |ss[0].pc| && LastAt(ss[n].pc[p], ss[n].asked[p], LastBy(ms, n, p))
  {
    hide Step, Inv;
    if n > 0 {
      var s, m := ss[n - 1], ms[n - 1];
      LastIs(ss, ms, n - 1, p);
      RunKeepsInv(ss, ms, n - 1);
      MoverIs(s, m.p, m.a, ss[n]);
      LastIs(ss, ms, n - 1, m.p);
      LastStep(s, m.p, m.a, ss[n], LastBy(ms, n - 1, m.p));
    }
  }

  lemma MoverIs(s: State, p: nat, a: Act, t: State)
    requires Step(s, p, a, t)
    ensures p < |s.pc|
  {}

  /** Every request goes through its five steps in order and once each. The device takes from the
      descriptors just what the thread asked for, and a thread finishes only once the handler was told
      of its own request, which the device had taken and completed. */
  lemma RequestInOrder(ss: seq<State>, ms: seq<Move>, n: nat)
    requires Run(ss, ms) && n < |ms|
    ensures Follows(LastBy(ms, n, ms[n].p), ms[n].a)
  {
    hide Step, Inv;
    var p := ms[n].p;
    RunKeepsInv(ss, ms, n);
    MoverIs(ss[n], p, ms[n].a, ss[n + 1]);
    SameThreads(ss, ms, n);
    LastIs(ss, ms, n, p);
    LastStep(ss[n], p, ms[n].a, ss[n + 1], LastBy(ms, n, p));
  }

  lemma {:induction false} SameThreads(ss: seq<State>, ms: seq<Move>, n: nat)
    requires Run(ss, ms) && n < |ss|
    ensures |ss[n].pc| == |ss[0].pc|
  {
    if n > 0 {
      SameThreads(ss, ms, n - 1);
      var s := ss[n - 1];
      assert Step(s, ms[n - 1].p, ms[n - 1].a, ss[n]);
    }
  }

  /** The requests submitted by the first n moves, and those the device has taken. */
  function Submitted(ms: seq<Move>, n: nat): seq<Req>
    requires n <= |ms|
  {
    if n == 0 then [] else Submitted(ms, n - 1) + if ms[n - 1].a.Submit? then [ms[n - 1].a.r] else []
  }

  function TakenUp(ms: seq<Move>, n: nat): seq<Req>
    requires n <= |ms|
  {
    if n == 0 then [] else TakenUp(ms, n - 1) + if ms[n - 1].a.Take? then [ms[n - 1].a.r] else []
  }

  ghost predicate QueueAt(s: State, all: seq<Req>, done: seq<Req>) {
    && |all| == |s.pubBy| && |done| == s.taken && done <= all
    && forall k :: s.taken <= k < |s.pubBy| ==> s.pubBy[k] < |s.asked| && s.asked[s.pubBy[k]] == all[k]
  }

  lemma QueueChanges(s: State, p: nat, a: Act, t: State)
    requires Step(s, p, a, t)
    ensures p < |s.pc| == |s.asked| && t.pubBy == s.pubBy + (if a.Submit? then [p] else [])
    ensures t.taken == s.taken + (if a.Take? then 1 else 0)
    ensures t.asked == if a.Submit? then s.asked[p := a.r] else s.asked
    ensures a.Submit? ==> s.pc[p].Idle?
    ensures a.Take? ==> s.taken < |s.pubBy| && s.pubBy[s.taken] == p
  {
    hide First3, Says;
  }

  lemma QueuedIsWaiting(s: State, k: nat)
    requires Inv(s) && s.taken <= k < |s.pubBy|
    ensures s.pubBy[k] < |s.pc| && s.pc[s.pubBy[k]].Waiting?
  {
    assert AvailAt(s, k);
  }

  lemma QueueStep(s: State, p: nat, a: Act, t: State, all: seq<Req>, done: seq<Req>)
    requires Inv(s) && Step(s, p, a, t) && QueueAt(s, all, done)
    ensures QueueAt(t, all + if a.Submit? then [a.r] else [], done + if a.Take? then [a.r] else [])
  {
    hide Inv, Step;
    QueueChanges(s, p, a, t);
    assert all + [] == all && done + [] == done;
    if a.Take? {
      TakeKeeps(s, p, a.r, t);
    } else if a.Submit? {
      forall k | s.taken <= k < |s.pubBy| ensures s.pubBy[k] != p { QueuedIsWaiting(s, k); }
    }
  }

  /** The device takes the requests in the order they were submitted in, and each as it was. */
  lemma {:induction false} DeviceInOrder(ss: seq<State>, ms: seq<Move>, n: nat)
    requires Run(ss, ms) && n < |ss|
    ensures TakenUp(ms, n) <= Submitted(ms, n)
    ensures QueueAt(ss[n], Submitted(ms, n), TakenUp(ms, n))
  {
    hide Step, Inv;
    if n > 0 {
      DeviceInOrder(ss, ms, n - 1);
      RunKeepsInv(ss, ms, n - 1);
      QueueStep(ss[n - 1], ms[n - 1].p, ms[n - 1].a, ss[n], Submitted(ms, n - 1), TakenUp(ms, n - 1));
    }
  }

  // ---- the descriptor table ----

  /** ch is the chain that starts at its first descriptor: each is flagged to go on to the next one,
      the last is not, and none repeats. */
  ghost predicate IsChain(next: seq<nat>, chained: seq<bool>, ch: seq<nat>) {
    && |next| == |chained| == NUM && ch != [] && (forall k :: 0 <= k < |ch| ==> ch[k] < NUM)
    && (forall k :: 0 <= k < |ch| ==> (chained[ch[k]] <==> k < |ch| - 1))
    && (forall k :: 0 <= k < |ch| - 1 ==> next[ch[k]] == ch[k + 1])
    && (forall j, k :: 0 <= j < k < |ch| ==> ch[j] != ch[k])
  }

  class Table {
    var free: seq<bool>
    var next: seq<nat>
    var chained: seq<bool>

    /** All descriptors are free. */
    constructor ()
      ensures free == seq(NUM, _ => true) && |next| == |chained| == NUM
    {
      free, next, chained := seq(NUM, _ => true), seq(NUM, _ => 0), seq(NUM, _ => false);
    }

    /** The first free descriptor, or -1. */
    method AllocDesc() returns (r: int)
      requires |free| == NUM
      modifies this`free
      ensures r == (if FirstFree(old(free)) < NUM then FirstFree(old(free)) else -1)
      ensures free == (if r >= 0 then old(free)[r := false] else old(free))
    {
      for i := 0 to NUM
        invariant free == old(free) && FirstFree(free) >= i
      {
        if free[i] {
          free := free[i := false];
          return i;
        }
      }
      return -1;
    }

    method FreeDesc(i: nat)
      requires |free| == NUM && i < NUM && !free[i]
      modifies this`free
      ensures free == old(free)[i := true]
    {
      free := free[i := true];
    }

    /** Three descriptors, or none at all. */
    method Alloc3Desc() returns (ok: bool, idx: seq<nat>)
      requires |free| == NUM
      modifies this`free
      ensures ok <==> First3(old(free)).2 < NUM
      ensures ok ==> |idx| == 3 && (idx[0], idx[1], idx[2]) == First3(old(free))
      ensures ok ==> free == old(free)[idx[0] := false][idx[1] := false][idx[2] := false]
      ensures !ok ==> free == old(free)
    {
      hide Took, First3, FirstFree, GaveBack;
      idx := [];
      TookNone(free);
      while |idx| < 3
        invariant |idx| <= 3 && |free| == NUM && Took(old(free), free, idx)
        decreases 3 - |idx|
      {
        ghost var g := free;
        var d := AllocDesc();
        if d < 0 {
          TookFails(old(free), g, idx);
          GiveBack(idx, old(free));
          return false, [];
        }
        TookMore(old(free), g, idx, d);
        idx := idx + [d];
      }
      TookAll(old(free), free, idx);
      return true, idx;
    }

    method GiveBack(idx: seq<nat>, ghost f: seq<bool>)
      requires GaveBack(f, free, idx, 0)
      modifies this`free
      ensures free == f
    {
      var j := 0;
      while j < |idx|
        invariant 0 <= j <= |idx| && GaveBack(f, free, idx, j)
      {
        assert idx[j..] == [idx[j]] + idx[j + 1..];
        FreeDesc(idx[j]);
        j := j + 1;
      }
    }

    /** Frees the descriptors of a chain and no other. */
    method FreeChain(first: nat, ghost ch: seq<nat>)
      requires |free| == NUM && IsChain(next, chained, ch) && ch[0] == first
      requires forall k :: 0 <= k < |ch| ==> !free[ch[k]]
      modifies this`free
      ensures |free| == NUM && forall i :: 0 <= i < NUM ==> free[i] == (old(free)[i] || i in ch)
    {
      var i := first;
      ghost var k := 0;
      while true
        invariant 0 <= k < |ch| && i == ch[k] && |free| == NUM
        invariant forall d :: 0 <= d < NUM ==> free[d] == (old(free)[d] || d in ch[..k])
        decreases |ch| - k
      {
        FreeDesc(i);
        assert ch[..k + 1] == ch[..k] + [ch[k]];
        if !chained[i] {
          break;
        }
        i := next[i];
        k := k + 1;
      }
      assert ch[..k + 1] == ch;
    }
  }

  /** The first descriptors of First3 have been taken. */
  ghost predicate Took(f: seq<bool>, g: seq<bool>, idx: seq<nat>) {
    && |f| == |g| == NUM
    && match |idx|
       case 0 => g == f
       case 1 => idx[0] == FirstFree(f) < NUM && g == f[idx[0] := false]
       case 2 => idx[0] == FirstFree(f) < NUM && idx[1] == FirstFree(f[idx[0] := false]) < NUM
                 && g == f[idx[0] := false][idx[1] := false]
       case _ => |idx| == 3 && (idx[0], idx[1], idx[2]) == First3(f) && idx[2] < NUM
                 && g == f[idx[0] := false][idx[1] := false][idx[2] := false]
  }

  /** The first j of them have been given back. */
  ghost predicate GaveBack(f: seq<bool>, g: seq<bool>, idx: seq<nat>, j: nat) {
    && |f| == |g| == NUM && j <= |idx|
    && (forall k :: 0 <= k < |idx| ==> idx[k] < NUM && f[idx[k]])
    && (forall k, l :: 0 <= k < l < |idx| ==> idx[k] != idx[l])
    && forall d :: 0 <= d < NUM ==> g[d] == (f[d] && d !in idx[j..])
  }

  lemma TookNone(f: seq<bool>)
    requires |f| == NUM
    ensures Took(f, f, [])
  {}

  lemma TookMore(f: seq<bool>, g: seq<bool>, idx: seq<nat>, d: nat)
    requires Took(f, g, idx) && |idx| < 3 && d == FirstFree(g) < NUM
    ensures Took(f, g[d := false], idx + [d])
  {
    hide FirstFree;
  }

  lemma TookFails(f: seq<bool>, g: seq<bool>, idx: seq<nat>)
    requires Took(f, g, idx) && |idx| < 3 && FirstFree(g) >= NUM
    ensures First3(f).2 >= NUM && GaveBack(f, g, idx, 0)
  {
    hide FirstFree;
  }

  lemma TookAll(f: seq<bool>, g: seq<bool>, idx: seq<nat>)
    requires Took(f, g, idx) && |idx| == 3
    ensures (idx[0], idx[1], idx[2]) == First3(f) && idx[2] < NUM && idx[0] < idx[1] < idx[2]
    ensures g == f[idx[0] := false][idx[1] := false][idx[2] := false]
  {}

  /** A live request's descriptors are a chain of three, so free_chain frees exactly those. */
  lemma RequestIsChain(s: State, p: nat)
    requires Inv(s) && p < |s.pc| && Live(s.pc[p])
    ensures IsChain(s.next, s.chained, [s.pc[p].a, s.pc[p].b, s.pc[p].c])
  {
    assert ThreadAt(s, p);
  }
}
