/** Any number of processes using the buffer cache and the log at once.

    One step is one atomic section: the bget of a bread or what follows it, a brelse, a change by
    the holder of a buffer, a log_write, or one block copied by the committing process. The flat disk `v` changes only
    when a holder changes a block; `committed` is what it was when a commit header was last
    written. */
module LogSystem {
  import opened Ring
  import opened LogSpec
  import opened Log
  import S = BcacheSpec

  datatype Phase =
    | Open
    | Committing(d0: Disk, t: Txn, k: nat)  // k of the commit's writes are done, starting from disk d0

  datatype Sys = Sys(
    s: S.State,
    v: Disk,               // the flat disk
    r: seq<nat>,           // references per block
    lh: seq<int>,          // logged blocks
    held: seq<nat>,        // breads without a brelse yet, per block
    unlogged: set<int>,    // blocks changed by a holder who has not called log_write yet
    committed: Disk,
    phase: Phase)

  /** The logged blocks that are still pinned. */
  function Pinned(x: Sys): seq<int> {
    match x.phase
    case Open => x.lh
    case Committing(_, t, k) =>
      if k <= |t.blocks| + 1 then t.blocks
      else if k - 1 - |t.blocks| <= |t.blocks| then t.blocks[k - 1 - |t.blocks|..] else []
  }

  ghost predicate Lengths(g: Geometry, x: Sys) {
    |x.v| == |x.r| == |x.held| == |x.committed| == |x.s.disk| && Fits(g, x.s.disk)
  }

  /** What is referenced is what is held or pinned; nobody holds a log block. */
  ghost predicate RefsOk(g: Geometry, x: Sys)
    requires Lengths(g, x)
  {
    && (forall no :: 0 <= no < |x.r| ==> x.r[no] == x.held[no] + if no in Pinned(x) then 1 else 0)
    && (forall no :: 0 <= no < |x.r| && InLog(g, no) ==> x.held[no] == 0)
    && (forall no :: no in x.unlogged ==> 0 <= no < |x.held| && x.held[no] > 0)
  }

  /** A block that differs from the disk is pinned, or its holder has yet to log it. */
  ghost predicate ChangesTracked(g: Geometry, x: Sys)
    requires Lengths(g, x)
  {
    forall no :: 0 <= no < |x.v| && x.v[no] != x.s.disk[no] ==> no in Pinned(x) || no in x.unlogged
  }

  /** How far the disk is, and what it is going to yield. */
  ghost predicate DiskOk(g: Geometry, x: Sys)
    requires Lengths(g, x)
  {
    && Loggable(g, x.s.disk, x.lh)
    && match x.phase
       case Open => LogEmpty(g, x.s.disk) && SameHome(g, x.s.disk, x.committed)
       case Committing(d0, t, k) => CommitOk(g, x, d0, t, k)
  }

  /** The disk after the first k of the commit's writes. */
  ghost function Cut(g: Geometry, d0: Disk, t: Txn, k: nat): (r: Disk)
    requires LogEmpty(g, d0) && TxnOk(g, d0, t) && t.blocks != [] && k <= 2 * |t.blocks| + 2
    ensures |r| == |d0|
  {
    CommitOnDisk(g, d0, t);
    Apply(d0, CommitWrites(g, d0, t)[..k])
  }

  ghost predicate CommitOk(g: Geometry, x: Sys, d0: Disk, t: Txn, k: nat)
    requires Lengths(g, x)
  {
    && x.unlogged == {} && |d0| == |x.v| && LogEmpty(g, d0) && TxnOk(g, d0, t) && t.blocks == x.lh && t.blocks != []
    && k <= 2 * |t.blocks| + 1 && x.s.disk == Cut(g, d0, t, k)
    && (forall i :: 0 <= i < |t.blocks| ==> x.v[t.blocks[i]] == t.data[i])
    && (forall no :: 0 <= no < |x.v| && !InLog(g, no) && no !in t.blocks ==> x.v[no] == d0[no])
    && SameHome(g, x.committed, if k > |t.blocks| then x.v else d0)
  }

  ghost predicate SysInv(g: Geometry, x: Sys) {
    && Lengths(g, x) && S.Inv(x.s, x.v, x.r)
    && RefsOk(g, x) && ChangesTracked(g, x) && DiskOk(g, x)
  }

  // ---- steps ----

  ghost predicate Home(g: Geometry, x: Sys, no: int) {
    Lengths(g, x) && 0 <= no < |x.s.disk| && !InLog(g, no)
  }

  /** The bget of a bread of a home block; b is the buffer. Its data may not be there yet. */
  ghost predicate Get(g: Geometry, x: Sys, no: int, b: nat, y: Sys) {
    && Home(g, x, no) && S.Wf(x.s) && x.r[no] + 1 < S.WRAP
    && S.Bget(x.s, no) == S.Got(y.s, b)
    && y == x.(s := y.s, r := x.r[no := x.r[no] + 1], held := x.held[no := x.held[no] + 1])
  }

  /** The rest of the bread, with the buffer's lock: the block is read unless the buffer is valid. */
  ghost predicate Fill(g: Geometry, x: Sys, no: int, b: nat, y: Sys) {
    && Home(g, x, no) && x.held[no] > 0 && S.Holds(x.s, no, b)
    && y == x.(s := if x.s.bufs[b].valid then S.Lock(x.s, b) else S.Fill(S.Lock(x.s, b), b))
  }

  ghost predicate IsHolder(g: Geometry, x: Sys, no: int, b: nat) {
    && Home(g, x, no) && x.held[no] > 0
    && S.Holds(x.s, no, b) && x.s.bufs[b].valid && b in x.s.order
  }

  /** brelse: what was changed has been logged. */
  ghost predicate Release(g: Geometry, x: Sys, no: int, b: nat, y: Sys) {
    && IsHolder(g, x, no, b) && (x.held[no] > 1 || no !in x.unlogged)
    && y == x.(s := S.Brelse(x.s, b), r := x.r[no := x.s.bufs[b].refcnt - 1], held := x.held[no := x.held[no] - 1])
  }

  /** The holder changes the data. Operations change blocks only while no commit is under way. */
  ghost predicate Change(g: Geometry, x: Sys, no: int, b: nat, data: Block, y: Sys) {
    && x.phase.Open? && IsHolder(g, x, no, b)
    && y == x.(s := S.Modify(x.s, b, data), v := x.v[no := data], unlogged := x.unlogged + {no})
  }

  /** log_write, past its checks. */
  ghost predicate LogIt(g: Geometry, x: Sys, no: int, b: nat, y: Sys) {
    && x.phase.Open? && IsHolder(g, x, no, b) && |x.lh| < LOGSIZE && |x.lh| < g.size - 1
    && if no in x.lh then y == x.(unlogged := x.unlogged - {no})
       else
         && x.r[no] + 1 < S.WRAP
         && y == x.(s := S.Bpin(x.s, b), r := x.r[no := x.r[no] + 1], lh := x.lh + [no], unlogged := x.unlogged - {no})
  }

  /** The last operation has ended and commit() finds something to write. */
  ghost predicate StartCommit(g: Geometry, x: Sys, y: Sys) {
    && x.phase.Open? && x.unlogged == {} && x.lh != []
    && (forall i :: 0 <= i < |x.lh| ==> 0 <= x.lh[i] < |x.v|)
    && y == x.(phase := Committing(x.s.disk, Txn(x.lh, ContentsOf(x.v, x.lh)), 0))
  }

  ghost predicate CopiedToLog(s: S.State, z: S.State, dst: int, src: int, data: Block) {
    exists u, a: nat, b: nat :: ReadBoth(s, u, dst, src, a, b) && LogCopied(s, u, z, a, b, data)
  }

  ghost predicate CopiedHome(s: S.State, z: S.State, src: int, dst: int, data: Block) {
    exists u, a: nat, b: nat :: ReadBoth(s, u, src, dst, a, b) && HomeCopied(s, u, z, a, b, data)
  }

  ghost predicate HeaderPut(s: S.State, z: S.State, no: int, hdr: Block) {
    && S.Wf(s) && 0 <= no < |s.disk| && S.Bread(s, no).Got?
    && HeadWritten(S.Bread(s, no).s, z, S.Bread(s, no).b, hdr)
  }

  /** write_log copies the next block to the log. */
  ghost predicate CopyLog(g: Geometry, x: Sys, y: Sys) {
    && x.phase.Committing? && x.phase.k < |x.phase.t.blocks| && Lengths(g, x)
    && var (dst, src) := (g.start + 1 + x.phase.k, x.phase.t.blocks[x.phase.k]);
    && 0 <= src < |x.v| && dst < |x.v| && x.r[src] + 1 < S.WRAP
    && CopiedToLog(x.s, y.s, dst, src, x.v[src])
    && y == x.(s := y.s, v := x.v[dst := x.v[src]], phase := x.phase.(k := x.phase.k + 1))
  }

  /** write_head: the commit point. */
  ghost predicate WriteHeader(g: Geometry, x: Sys, y: Sys) {
    && x.phase.Committing? && x.phase.k == |x.phase.t.blocks| <= LOGSIZE && Lengths(g, x)
    && var hdr := Header(x.v[g.start], x.phase.t.blocks);
    && HeaderPut(x.s, y.s, g.start, hdr)
    && y == x.(s := y.s, v := x.v[g.start := hdr], committed := x.v, phase := x.phase.(k := x.phase.k + 1))
  }

  /** install_trans copies the next block home and unpins it. */
  ghost predicate CopyHomeStep(g: Geometry, x: Sys, y: Sys) {
    && x.phase.Committing? && Lengths(g, x) && |x.phase.t.blocks| < x.phase.k <= 2 * |x.phase.t.blocks|
    && var i := x.phase.k - 1 - |x.phase.t.blocks|;
    && var (src, dst) := (g.start + 1 + i, x.phase.t.blocks[i]);
    && 0 <= dst < |x.v| && src < |x.v| && 0 < x.r[dst] && x.r[dst] + 1 < S.WRAP
    && CopiedHome(x.s, y.s, src, dst, x.v[src])
    && y == x.(s := y.s, v := x.v[dst := x.v[src]], r := x.r[dst := x.r[dst] - 1],
               phase := x.phase.(k := x.phase.k + 1))
  }

  /** lh.n = 0 and write_head: the commit is over. */
  ghost predicate ClearHeader(g: Geometry, x: Sys, y: Sys) {
    && x.phase.Committing? && x.phase.k == 2 * |x.phase.t.blocks| + 1 && Lengths(g, x)
    && var hdr := Header(x.v[g.start], []);
    && HeaderPut(x.s, y.s, g.start, hdr)
    && y == x.(s := y.s, v := x.v[g.start := hdr], lh := [], phase := Open)
  }

  datatype Act =
    | ActGet(no: int, b: nat)
    | ActFill(no: int, b: nat)
    | ActRelease(no: int, b: nat)
    | ActChange(no: int, b: nat, data: Block)
    | ActLog(no: int, b: nat)
    | ActStart | ActCopyLog | ActHeader | ActCopyHome | ActClear

  ghost predicate Step(g: Geometry, x: Sys, a: Act, y: Sys) {
    match a
    case ActGet(no, b) => Get(g, x, no, b, y)
    case ActFill(no, b) => Fill(g, x, no, b, y)
    case ActRelease(no, b) => Release(g, x, no, b, y)
    case ActChange(no, b, data) => Change(g, x, no, b, data, y)
    case ActLog(no, b) => LogIt(g, x, no, b, y)
    case ActStart => StartCommit(g, x, y)
    case ActCopyLog => CopyLog(g, x, y)
    case ActHeader => WriteHeader(g, x, y)
    case ActCopyHome => CopyHomeStep(g, x, y)
    case ActClear => ClearHeader(g, x, y)
  }

  // ---- every step keeps the invariant ----

  lemma SysElim(g: Geometry, x: Sys)
    requires SysInv(g, x)
    ensures Lengths(g, x) && S.Inv(x.s, x.v, x.r) && RefsOk(g, x) && ChangesTracked(g, x) && DiskOk(g, x)
  {}

  lemma SysIntro(g: Geometry, x: Sys)
    requires Lengths(g, x) && S.Inv(x.s, x.v, x.r) && RefsOk(g, x) && ChangesTracked(g, x) && DiskOk(g, x)
    ensures SysInv(g, x)
  {}

  lemma GetKeeps(g: Geometry, x: Sys, no: int, b: nat, y: Sys)
    requires SysInv(g, x) && Get(g, x, no, b, y)
    ensures SysInv(g, y)
  {
    hide S.Inv, S.Bget, SysInv, DiskOk;
    SysElim(g, x);
    S.BgetKeeps(x.s, x.v, x.r, no);
    assert Pinned(y) == Pinned(x);
    SameDiskSameCommit(g, x, y);
    SysIntro(g, y);
  }

  lemma FillStepKeeps(g: Geometry, x: Sys, no: int, b: nat, y: Sys)
    requires SysInv(g, x) && Fill(g, x, no, b, y)
    ensures SysInv(g, y)
  {
    hide S.Inv, SysInv, DiskOk;
    SysElim(g, x);
    S.LockKeeps(x.s, x.v, x.r, b, true);
    if !x.s.bufs[b].valid {
      S.FillKeeps(S.Lock(x.s, b), x.v, x.r, b);
    }
    assert Pinned(y) == Pinned(x);
    SameDiskSameCommit(g, x, y);
    SysIntro(g, y);
  }

  lemma ReleaseAllowed(g: Geometry, x: Sys, no: int, b: nat)
    requires SysInv(g, x) && IsHolder(g, x, no, b) && (x.held[no] > 1 || no !in x.unlogged)
    ensures x.s.bufs[b].no == no && x.r[no] == x.s.bufs[b].refcnt
    ensures x.r[no] == 1 ==> x.v[no] == x.s.disk[no]
  {}

  lemma ReleaseCache(g: Geometry, x: Sys, no: int, b: nat, y: Sys)
    requires SysInv(g, x) && Release(g, x, no, b, y)
    ensures S.Inv(y.s, y.v, y.r) && y.s.disk == x.s.disk && Lengths(g, y) && x.r[no] > 0
    ensures y.r == x.r[no := x.r[no] - 1]
  {
    ReleaseAllowed(g, x, no, b);
    hide S.Inv, S.Brelse, SysInv;
    SysElim(g, x);
    ReleaseKeeps(x.s, x.v, x.r, b);
  }

  lemma ReleaseStepKeeps(g: Geometry, x: Sys, no: int, b: nat, y: Sys)
    requires SysInv(g, x) && Release(g, x, no, b, y)
    ensures SysInv(g, y)
  {
    hide S.Inv, S.Brelse, SysInv, DiskOk;
    ReleaseCache(g, x, no, b, y);
    SysElim(g, x);
    assert Pinned(y) == Pinned(x);
    assert RefsOk(g, y);
    assert ChangesTracked(g, y);
    SameDiskSameCommit(g, x, y);
    SysIntro(g, y);
  }

  lemma SameDiskSameCommit(g: Geometry, x: Sys, y: Sys)
    requires Lengths(g, x) && Lengths(g, y) && DiskOk(g, x) && y == x.(s := y.s, r := y.r, held := y.held)
    requires y.s.disk == x.s.disk
    ensures DiskOk(g, y)
  {
    hide Cut, Loggable;
  }

  lemma ChangeKeeps(g: Geometry, x: Sys, no: int, b: nat, data: Block, y: Sys)
    requires SysInv(g, x) && Change(g, x, no, b, data, y)
    ensures SysInv(g, y)
  {
    S.ModifyKeeps(x.s, x.v, x.r, b, data);
  }

  lemma LogItKeeps(g: Geometry, x: Sys, no: int, b: nat, y: Sys)
    requires SysInv(g, x) && LogIt(g, x, no, b, y)
    ensures SysInv(g, y)
  {
    if no !in x.lh {
      S.RecountKeeps(x.s, x.v, x.r, b, x.r[no] + 1);
      assert y.s == S.SetBuf(x.s, b, x.s.bufs[b].(refcnt := x.r[no] + 1));
    }
  }

  lemma StartCommitKeeps(g: Geometry, x: Sys, y: Sys)
    requires SysInv(g, x) && StartCommit(g, x, y)
    ensures SysInv(g, y)
  {
    assert Cut(g, x.s.disk, y.phase.t, 0) == x.s.disk;
    assert Pinned(y) == x.lh;
  }

  // ---- the commit's steps ----

  /** The k-th write of a commit. */
  lemma CommitWriteAt(g: Geometry, d0: Disk, t: Txn, k: nat)
    requires LogEmpty(g, d0) && TxnOk(g, d0, t) && t.blocks != [] && k <= 2 * |t.blocks| + 1
    ensures |CommitWrites(g, d0, t)| == 2 * |t.blocks| + 2
    ensures var n := |t.blocks|;
            var hdr := Header(d0[g.start], t.blocks);
            CommitWrites(g, d0, t)[k] ==
              if k < n then Write(g.start + 1 + k, t.data[k])
              else if k == n then Write(g.start, hdr)
              else if k <= 2 * n then Write(t.blocks[k - 1 - n], t.data[k - 1 - n])
              else Write(g.start, Header(hdr, []))
  {}

  lemma CutAt(g: Geometry, d0: Disk, t: Txn, k: nat, j: nat)
    requires LogEmpty(g, d0) && TxnOk(g, d0, t) && t.blocks != [] && j < k <= 2 * |t.blocks| + 1 && j <= |t.blocks|
    ensures 0 <= CommitWrites(g, d0, t)[j].no < |d0|
    ensures Cut(g, d0, t, k)[CommitWrites(g, d0, t)[j].no] == CommitWrites(g, d0, t)[j].data
  {
    var ws := CommitWrites(g, d0, t)[..k];
    CommitOnDisk(g, d0, t);
    forall i | j < i < |ws|
      ensures ws[i].no != ws[j].no
    {
      CommitWriteAt(g, d0, t, i);
      CommitWriteAt(g, d0, t, j);
    }
    ApplyAt(d0, ws, j);
  }

  /** Block no of the log is what the disk has: nobody references it. */
  lemma LogBlockClean(g: Geometry, x: Sys, no: int)
    requires SysInv(g, x) && InLog(g, no)
    ensures 0 <= no < |x.v| && x.r[no] == 0 && x.v[no] == x.s.disk[no] && no !in Pinned(x)
  {
    S.UnreferencedIsClean(x.s, x.v, x.r, no);
  }

  /** What a commit under way says about the i-th block of its transaction. */
  lemma TxnBlock(g: Geometry, x: Sys, i: nat)
    requires SysInv(g, x) && x.phase.Committing? && i < |x.phase.t.blocks|
    ensures var (t, k) := (x.phase.t, x.phase.k);
            && |t.data| == |t.blocks| && 0 <= t.blocks[i] < |x.v| && !InLog(g, t.blocks[i])
            && x.v[t.blocks[i]] == t.data[i]
            && InLog(g, g.start + 1 + i) && Distinct(t.blocks) && |t.blocks| <= LOGSIZE
            && (k <= |t.blocks| + 1 + i ==> t.blocks[i] in Pinned(x) && x.r[t.blocks[i]] > 0)
  {}

  lemma CopyLogCache(g: Geometry, x: Sys, y: Sys)
    requires SysInv(g, x) && CopyLog(g, x, y)
    ensures |x.phase.t.data| == |x.phase.t.blocks|
    ensures S.Inv(y.s, y.v, x.r) && Lengths(g, y) && InLog(g, g.start + 1 + x.phase.k)
    ensures y.v == x.v[g.start + 1 + x.phase.k := x.phase.t.data[x.phase.k]]
    ensures y.s.disk == x.s.disk[g.start + 1 + x.phase.k := x.phase.t.data[x.phase.k]]
  {
    hide S.Inv, SysInv, LogCopied, ReadBoth, Cut;
    var t, k := x.phase.t, x.phase.k;
    var dst, src := g.start + 1 + k, t.blocks[k];
    TxnBlock(g, x, k);
    LogBlockClean(g, x, dst);
    SysElim(g, x);
    var u, a: nat, b: nat :| ReadBoth(x.s, u, dst, src, a, b) && LogCopied(x.s, u, y.s, a, b, x.v[src]);
    LogCopyKeeps(x.s, u, y.s, x.v, x.r, dst, src, a, b);
  }

  lemma CopyLogKeeps(g: Geometry, x: Sys, y: Sys)
    requires SysInv(g, x) && CopyLog(g, x, y)
    ensures SysInv(g, y)
  {
    hide S.Inv, SysInv, CopiedToLog, Cut, CommitOk, Loggable, LogEmpty;
    CopyLogCache(g, x, y);
    SysElim(g, x);
    CommitElim(g, x);
    NextWrite(g, x.phase.d0, x.phase.t, x.phase.k);
    assert Pinned(y) == Pinned(x);
    CommitOkAfter(g, x, y, g.start + 1 + x.phase.k, x.phase.t.data[x.phase.k]);
    LogWriteTracked(g, x, y, g.start + 1 + x.phase.k, x.phase.t.data[x.phase.k]);
    LoggableFrame(g, x.s.disk, y.s.disk, x.lh);
    SysIntro(g, y);
  }

  lemma LoggableFrame(g: Geometry, d: Disk, e: Disk, lh: seq<int>)
    requires Loggable(g, d, lh) && |e| == |d|
    ensures Loggable(g, e, lh)
  {}

  /** Writing a log block through leaves every tracked change tracked. */
  lemma LogWriteTracked(g: Geometry, x: Sys, y: Sys, no: int, data: Block)
    requires Lengths(g, x) && Lengths(g, y) && ChangesTracked(g, x) && Pinned(y) == Pinned(x)
    requires y.unlogged == x.unlogged
    requires 0 <= no < |x.v| && y.v == x.v[no := data] && y.s.disk == x.s.disk[no := data]
    ensures ChangesTracked(g, y)
  {}

  lemma TxnFacts(g: Geometry, d0: Disk, t: Txn)
    requires LogEmpty(g, d0) && TxnOk(g, d0, t)
    ensures 0 <= g.start < |d0| && |t.data| == |t.blocks| <= LOGSIZE && LogOk(g, d0)
  {}

  /** The write that comes next. */
  function NextOf(g: Geometry, d0: Disk, t: Txn, k: nat): Write
    requires 0 <= g.start < |d0| && |t.data| == |t.blocks| <= LOGSIZE
  {
    var n := |t.blocks|;
    if k < n then Write(g.start + 1 + k, t.data[k])
    else if k == n then Write(g.start, Header(d0[g.start], t.blocks))
    else if k <= 2 * n then Write(t.blocks[k - 1 - n], t.data[k - 1 - n])
    else Write(g.start, Header(Header(d0[g.start], t.blocks), []))
  }

  lemma NextWrite(g: Geometry, d0: Disk, t: Txn, k: nat)
    requires LogEmpty(g, d0) && TxnOk(g, d0, t) && t.blocks != [] && k <= 2 * |t.blocks| + 1
    ensures 0 <= NextOf(g, d0, t, k).no < |d0|
    ensures Cut(g, d0, t, k + 1) == Cut(g, d0, t, k)[NextOf(g, d0, t, k).no := NextOf(g, d0, t, k).data]
  {
    hide CommitWrites, Apply, Header, LogEmpty, TxnOk;
    TxnFacts(g, d0, t);
    CommitOnDisk(g, d0, t);
    CommitWriteAt(g, d0, t, k);
    ApplyNext(d0, CommitWrites(g, d0, t), k);
  }

  lemma CommitElim(g: Geometry, x: Sys)
    requires Lengths(g, x) && DiskOk(g, x) && x.phase.Committing?
    ensures var (d0, t, k) := (x.phase.d0, x.phase.t, x.phase.k);
            && CommitOk(g, x, d0, t, k) && |d0| == |x.v| && LogEmpty(g, d0) && TxnOk(g, d0, t) && t.blocks != []
            && 0 <= g.start < |d0| && |t.data| == |t.blocks| <= LOGSIZE && k <= 2 * |t.blocks| + 1
            && x.s.disk == Cut(g, d0, t, k)
  {}

  /** A write to the log region leaves what CommitOk says about the home blocks. */
  lemma CommitOkAfter(g: Geometry, x: Sys, y: Sys, no: int, data: Block)
    requires Lengths(g, x) && Lengths(g, y) && x.phase.Committing? && CommitOk(g, x, x.phase.d0, x.phase.t, x.phase.k)
    requires InLog(g, no) && y.v == x.v[no := data] && y.lh == x.lh && y.unlogged == x.unlogged
    requires y.phase == x.phase.(k := x.phase.k + 1) && x.phase.k <= 2 * |x.phase.t.blocks|
    requires LogEmpty(g, x.phase.d0) && TxnOk(g, x.phase.d0, x.phase.t) && x.phase.t.blocks != []
    requires y.s.disk == Cut(g, x.phase.d0, x.phase.t, x.phase.k + 1)
    requires y.committed == if x.phase.k == |x.phase.t.blocks| then x.v else x.committed
    ensures CommitOk(g, y, y.phase.d0, y.phase.t, y.phase.k)
  {
    hide Cut;
  }

  lemma WriteHeaderKeeps(g: Geometry, x: Sys, y: Sys)
    requires SysInv(g, x) && WriteHeader(g, x, y)
    ensures SysInv(g, y)
  {
    hide S.Inv, SysInv, Cut, CommitOk, Loggable, LogEmpty, HeadWritten, S.Bread, Header;
    LogBlockClean(g, x, g.start);
    HeaderBefore(g, x);
    SysElim(g, x);
    CommitElim(g, x);
    NextWrite(g, x.phase.d0, x.phase.t, x.phase.k);
    var hdr := Header(x.v[g.start], x.phase.t.blocks);
    HeadKeeps(x.s, S.Bread(x.s, g.start).s, y.s, x.v, x.r, g.start, S.Bread(x.s, g.start).b, hdr);
    assert Pinned(y) == Pinned(x);
    CommitOkAfter(g, x, y, g.start, hdr);
    LogWriteTracked(g, x, y, g.start, hdr);
    LoggableFrame(g, x.s.disk, y.s.disk, x.lh);
    SysIntro(g, y);
  }

  lemma HeaderBefore(g: Geometry, x: Sys)
    requires SysInv(g, x) && x.phase.Committing? && x.phase.k <= |x.phase.t.blocks|
    ensures x.s.disk[g.start] == x.phase.d0[g.start]
  {
    SysElim(g, x);
    CommitElim(g, x);
    hide SysInv, CommitOk;
    CutBefore(g, x.phase.d0, x.phase.t, x.phase.k);
  }

  lemma CutBefore(g: Geometry, d0: Disk, t: Txn, k: nat)
    requires LogEmpty(g, d0) && TxnOk(g, d0, t) && t.blocks != [] && k <= |t.blocks|
    ensures Cut(g, d0, t, k)[g.start] == d0[g.start]
  {
    CommitPrefixBefore(g, d0, t, k);
    CommitOnDisk(g, d0, t);
    ApplyElsewhere(d0, CommitWrites(g, d0, t)[..k], g.start);
  }

  /** During the install the log block of the i-th block holds its data. */
  lemma LogBlockHolds(g: Geometry, x: Sys, i: nat)
    requires SysInv(g, x) && x.phase.Committing? && |x.phase.t.blocks| < x.phase.k && i < |x.phase.t.blocks|
    ensures g.start + 1 + i < |x.v| && |x.phase.t.data| == |x.phase.t.blocks|
    ensures x.s.disk[g.start + 1 + i] == x.phase.t.data[i]
  {
    hide SysInv, Cut, CommitOk, LogEmpty, TxnOk, S.Inv, RefsOk, ChangesTracked, DiskOk;
    SysElim(g, x);
    CommitElim(g, x);
    CutLog(g, x.phase.d0, x.phase.t, x.phase.k, i);
  }

  lemma CutLog(g: Geometry, d0: Disk, t: Txn, k: nat, i: nat)
    requires LogEmpty(g, d0) && TxnOk(g, d0, t) && i < |t.blocks| < k <= 2 * |t.blocks| + 1
    ensures |t.data| == |t.blocks| && 0 <= g.start + 1 + i < |d0| && Cut(g, d0, t, k)[g.start + 1 + i] == t.data[i]
  {
    hide Cut, CommitWrites, LogEmpty, TxnOk, Header;
    TxnFacts(g, d0, t);
    CutAt(g, d0, t, k, i);
    CommitWriteAt(g, d0, t, i);
  }

  lemma CopyHomeCache(g: Geometry, x: Sys, y: Sys, i: nat, src: int, dst: int)
    requires SysInv(g, x) && CopyHomeStep(g, x, y) && i == x.phase.k - 1 - |x.phase.t.blocks|
    requires dst == x.phase.t.blocks[i] && src == g.start + 1 + i
    ensures 0 <= dst < |x.v| && |x.phase.t.data| == |x.phase.t.blocks| && x.r[dst] > 0
    ensures y.r == x.r[dst := x.r[dst] - 1]
    ensures S.Inv(y.s, x.v, y.r) && y.v == x.v && x.v[dst] == x.phase.t.data[i] && y.s.disk == x.s.disk[dst := x.v[dst]]
  {
    hide S.Inv, SysInv, HomeCopied, ReadBoth, Cut;
    TxnBlock(g, x, i);
    LogBlockClean(g, x, src);
    LogBlockHolds(g, x, i);
    SysElim(g, x);
    assert x.v[src] == x.v[dst];
    var u, a: nat, b: nat :| ReadBoth(x.s, u, src, dst, a, b) && HomeCopied(x.s, u, y.s, a, b, x.v[src]);
    HomeCopyKeeps(x.s, u, y.s, x.v, x.r, src, dst, a, b);
    assert x.v[dst := x.v[src]] == x.v;
  }

  lemma CopyHomeKeeps(g: Geometry, x: Sys, y: Sys)
    requires SysInv(g, x) && CopyHomeStep(g, x, y)
    ensures SysInv(g, y)
  {
    hide S.Inv, SysInv, CopiedHome, Cut, CommitOk, Loggable, LogEmpty, RefsOk, ChangesTracked;
    var i := x.phase.k - 1 - |x.phase.t.blocks|;
    CopyHomeCache(g, x, y, i, g.start + 1 + i, x.phase.t.blocks[i]);
    SysElim(g, x);
    CommitElim(g, x);
    NextWrite(g, x.phase.d0, x.phase.t, x.phase.k);
    UnpinOne(g, x, y);
    CommitOkInstalled(g, x, y);
    LoggableFrame(g, x.s.disk, y.s.disk, x.lh);
    SysIntro(g, y);
  }

  lemma CommitOkInstalled(g: Geometry, x: Sys, y: Sys)
    requires Lengths(g, x) && Lengths(g, y) && x.phase.Committing? && CommitOk(g, x, x.phase.d0, x.phase.t, x.phase.k)
    requires |x.phase.t.blocks| < x.phase.k && y == x.(s := y.s, r := y.r, phase := x.phase.(k := x.phase.k + 1))
    requires LogEmpty(g, x.phase.d0) && TxnOk(g, x.phase.d0, x.phase.t) && x.phase.t.blocks != []
    requires x.phase.k <= 2 * |x.phase.t.blocks| && y.s.disk == Cut(g, x.phase.d0, x.phase.t, x.phase.k + 1)
    ensures CommitOk(g, y, y.phase.d0, y.phase.t, y.phase.k)
  {
    hide Cut;
  }

  lemma UnpinOne(g: Geometry, x: Sys, y: Sys)
    requires SysInv(g, x) && x.phase.Committing? && |x.phase.t.blocks| < x.phase.k <= 2 * |x.phase.t.blocks|
    requires var i := x.phase.k - 1 - |x.phase.t.blocks|; var dst := x.phase.t.blocks[i];
             && 0 <= dst < |x.v| && x.r[dst] > 0
             && y == x.(s := y.s, r := x.r[dst := x.r[dst] - 1], phase := x.phase.(k := x.phase.k + 1))
             && y.s.disk == x.s.disk[dst := x.v[dst]] && Lengths(g, y)
    ensures RefsOk(g, y) && ChangesTracked(g, y)
  {
    hide SysInv, S.Inv, DiskOk;
    SysElim(g, x);
    var i := x.phase.k - 1 - |x.phase.t.blocks|;
    var blocks := x.phase.t.blocks;
    assert Pinned(x) == blocks[i..] && Pinned(y) == blocks[i + 1..];
    BlocksDistinct(g, x);
    FirstOfRest(blocks, i);
  }

  lemma FirstOfRest(blocks: seq<int>, i: nat)
    requires i < |blocks| && Distinct(blocks)
    ensures blocks[i..] == [blocks[i]] + blocks[i + 1..] && blocks[i] !in blocks[i + 1..]
  {}

  lemma BlocksDistinct(g: Geometry, x: Sys)
    requires SysInv(g, x) && x.phase.Committing?
    ensures Distinct(x.phase.t.blocks)
  {}

  lemma HeaderAfter(g: Geometry, x: Sys)
    requires SysInv(g, x) && x.phase.Committing? && x.phase.k > |x.phase.t.blocks|
    ensures x.s.disk[g.start] == Header(x.phase.d0[g.start], x.phase.t.blocks)
  {
    hide SysInv, Cut, CommitOk, CommitWrites, LogEmpty, SameHome;
    SysElim(g, x);
    CommitElim(g, x);
    CutAt(g, x.phase.d0, x.phase.t, x.phase.k, |x.phase.t.blocks|);
    CommitWriteAt(g, x.phase.d0, x.phase.t, |x.phase.t.blocks|);
  }

  lemma ClearHeaderKeeps(g: Geometry, x: Sys, y: Sys)
    requires SysInv(g, x) && ClearHeader(g, x, y)
    ensures SysInv(g, y)
  {
    hide S.Inv, SysInv, Cut, CommitOk, LogEmpty, HeadWritten, S.Bread, Header;
    LogBlockClean(g, x, g.start);
    HeaderAfter(g, x);
    SysElim(g, x);
    CommitElim(g, x);
    NextWrite(g, x.phase.d0, x.phase.t, x.phase.k);
    CommitOver(g, x);
    var hdr := Header(x.v[g.start], []);
    HeadKeeps(x.s, S.Bread(x.s, g.start).s, y.s, x.v, x.r, g.start, S.Bread(x.s, g.start).b, hdr);
    assert Pinned(x) == [] && Pinned(y) == [];
    assert RefsOk(g, y);
    LogWriteTracked(g, x, y, g.start, hdr);
    CommittedIsFlat(g, x);
    SysIntro(g, y);
  }

  lemma CommittedIsFlat(g: Geometry, x: Sys)
    requires Lengths(g, x) && x.phase.Committing? && CommitOk(g, x, x.phase.d0, x.phase.t, x.phase.k)
    requires x.phase.k > |x.phase.t.blocks|
    ensures SameHome(g, x.committed, x.v) && x.unlogged == {}
  {}

  /** The last write ends the commit with an empty log and the flat disk on the home blocks. */
  lemma CommitOver(g: Geometry, x: Sys)
    requires Lengths(g, x) && x.phase.Committing? && CommitOk(g, x, x.phase.d0, x.phase.t, x.phase.k)
    requires x.phase.k == 2 * |x.phase.t.blocks| + 1
    ensures var d := Cut(g, x.phase.d0, x.phase.t, x.phase.k + 1); LogEmpty(g, d) && SameHome(g, d, x.v)
  {
    hide CommitOk, LogEmpty, Cut, Overlay, SameHome, Durable, LogOk;
    CommitParts(g, x);
    CutIsSafe(g, x.phase.d0, x.phase.t, x.phase.k + 1);
    OverlayIsFlat(g, x);
    SameHomeTrans(g, Cut(g, x.phase.d0, x.phase.t, x.phase.k + 1), Overlay(x.phase.d0, x.phase.t), x.v);
  }

  lemma CommitParts(g: Geometry, x: Sys)
    requires Lengths(g, x) && x.phase.Committing? && CommitOk(g, x, x.phase.d0, x.phase.t, x.phase.k)
    ensures LogEmpty(g, x.phase.d0) && TxnOk(g, x.phase.d0, x.phase.t) && x.phase.t.blocks != []
    ensures |x.phase.d0| == |x.v|
  {
    hide LogEmpty, TxnOk, Cut, SameHome;
  }

  lemma CutIsSafe(g: Geometry, d0: Disk, t: Txn, k: nat)
    requires LogEmpty(g, d0) && TxnOk(g, d0, t) && t.blocks != [] && k <= 2 * |t.blocks| + 2
    ensures var d := Cut(g, d0, t, k);
            && LogOk(g, d) && SameHome(g, Durable(g, d), if k > |t.blocks| then Overlay(d0, t) else d0)
            && (k == 2 * |t.blocks| + 2 ==> LogEmpty(g, d) && SameHome(g, d, Overlay(d0, t)))
  {
    CrashInCommit(g, d0, t, k);
  }

  /** The committed transaction on top of the old disk is the flat disk. */
  lemma OverlayIsFlat(g: Geometry, x: Sys)
    requires Lengths(g, x) && x.phase.Committing? && CommitOk(g, x, x.phase.d0, x.phase.t, x.phase.k)
    ensures SameHome(g, Overlay(x.phase.d0, x.phase.t), x.v)
  {
    var d0, t := x.phase.d0, x.phase.t;
    var ws := HomeWrites(t.blocks, t.data);
    forall no | 0 <= no < |x.v| && !InLog(g, no)
      ensures Overlay(d0, t)[no] == x.v[no]
    {
      if i :| 0 <= i < |t.blocks| && t.blocks[i] == no {
        ApplyAt(d0, ws, i);
      } else {
        ApplyElsewhere(d0, ws, no);
      }
    }
  }

  // ---- whole runs ----

  lemma StepKeeps(g: Geometry, x: Sys, a: Act, y: Sys)
    requires SysInv(g, x) && Step(g, x, a, y)
    ensures SysInv(g, y)
  {
    hide SysInv, Get, Fill, Release, Change, LogIt, StartCommit, CopyLog, WriteHeader, CopyHomeStep, ClearHeader;
    match a
    case ActGet(no, b) => GetKeeps(g, x, no, b, y);
    case ActFill(no, b) => FillStepKeeps(g, x, no, b, y);
    case ActRelease(no, b) => ReleaseStepKeeps(g, x, no, b, y);
    case ActChange(no, b, data) => ChangeKeeps(g, x, no, b, data, y);
    case ActLog(no, b) => LogItKeeps(g, x, no, b, y);
    case ActStart => StartCommitKeeps(g, x, y);
    case ActCopyLog => CopyLogKeeps(g, x, y);
    case ActHeader => WriteHeaderKeeps(g, x, y);
    case ActCopyHome => CopyHomeKeeps(g, x, y);
    case ActClear => ClearHeaderKeeps(g, x, y);
  }

  /** A booted system: nothing cached, nothing logged, the log on the disk empty. */
  ghost predicate Boot(g: Geometry, x: Sys) {
    && Lengths(g, x) && S.Wf(x.s) && LogEmpty(g, x.s.disk) && x.phase.Open? && x.lh == [] && x.unlogged == {}
    && (forall b :: 0 <= b < |x.s.bufs| ==> x.s.bufs[b].Idle())
    && x.v == x.committed == x.s.disk && (forall no :: 0 <= no < |x.r| ==> x.r[no] == 0 && x.held[no] == 0)
  }

  ghost predicate Run(g: Geometry, xs: seq<Sys>, acts: seq<Act>) {
    && |xs| == |acts| + 1 && Boot(g, xs[0])
    && forall i :: 0 <= i < |acts| ==> Goes(g, xs, acts, i)
  }

  ghost predicate Goes(g: Geometry, xs: seq<Sys>, acts: seq<Act>, i: int)
    requires 0 <= i < |acts| && |xs| == |acts| + 1
  {
    Step(g, xs[i], acts[i], xs[i + 1])
  }

  lemma BootInv(g: Geometry, x: Sys)
    requires Boot(g, x)
    ensures SysInv(g, x)
  {}

  lemma {:induction false} RunKeepsInv(g: Geometry, xs: seq<Sys>, acts: seq<Act>, n: nat)
    requires Run(g, xs, acts) && n < |xs|
    ensures SysInv(g, xs[n])
    decreases n
  {
    hide SysInv, Step, Boot;
    if n > 0 {
      RunKeepsInv(g, xs, acts, n - 1);
      assert Goes(g, xs, acts, n - 1);
      StepKeeps(g, xs[n - 1], acts[n - 1], xs[n]);
    } else {
      BootInv(g, xs[0]);
    }
  }

  /** Changes applied at once to a flat disk. */
  function Flat(d: Disk, acts: seq<Act>): (r: Disk)
    ensures |r| == |d|
    decreases |acts|
  {
    if acts == [] then d
    else
      var r := Flat(d, acts[..|acts| - 1]);
      match acts[|acts| - 1]
      case ActChange(no, _, data) => if 0 <= no < |d| then r[no := data] else r
      case _ => r
  }

  lemma StartInLog(g: Geometry, x: Sys)
    requires Lengths(g, x)
    ensures InLog(g, g.start)
  {}

  /** Only a holder's change moves the flat disk outside the log. */
  lemma FlatStep(g: Geometry, x: Sys, a: Act, y: Sys)
    requires SysInv(g, x) && Step(g, x, a, y)
    ensures |y.v| == |x.v|
    ensures if a.ActChange? then 0 <= a.no < |x.v| && y.v == x.v[a.no := a.data] else SameHome(g, y.v, x.v)
  {
    hide SysInv, CommitOk, S.Bread, S.Brelse, S.Modify, CopiedToLog, CopiedHome, HeaderPut, Header;
    SysElim(g, x);
    match a
    case ActCopyLog => CopyLogCache(g, x, y);
    case ActHeader => assert InLog(g, g.start) by { StartInLog(g, x); }
    case ActClear => assert InLog(g, g.start) by { StartInLog(g, x); }
    case ActCopyHome =>
      var i := x.phase.k - 1 - |x.phase.t.blocks|;
      CopyHomeCache(g, x, y, i, g.start + 1 + i, x.phase.t.blocks[i]);
    case _ =>
  }

  lemma FlatNext(d: Disk, acts: seq<Act>)
    requires acts != []
    ensures var a, r := acts[|acts| - 1], Flat(d, acts[..|acts| - 1]);
      Flat(d, acts) == if a.ActChange? && 0 <= a.no < |d| then r[a.no := a.data] else r
  {}

  lemma RefinesStep(g: Geometry, x: Sys, a: Act, y: Sys, r: Disk, r': Disk)
    requires SysInv(g, x) && Step(g, x, a, y) && SameHome(g, x.v, r)
    requires r' == if a.ActChange? && 0 <= a.no < |r| then r[a.no := a.data] else r
    ensures SameHome(g, y.v, r')
  {
    hide SysInv, Step;
    FlatStep(g, x, a, y);
  }

  lemma {:induction false} RunRefines(g: Geometry, xs: seq<Sys>, acts: seq<Act>, n: nat)
    requires Run(g, xs, acts) && n < |xs|
    ensures SameHome(g, xs[n].v, Flat(xs[0].s.disk, acts[..n]))
    decreases n
  {
    hide SysInv, Step, Boot, SameHome, Flat;
    if n > 0 {
      RunRefines(g, xs, acts, n - 1);
      RunKeepsInv(g, xs, acts, n - 1);
      assert acts[..n][..n - 1] == acts[..n - 1];
      assert Goes(g, xs, acts, n - 1);
      FlatNext(xs[0].s.disk, acts[..n]);
      RefinesStep(g, xs[n - 1], acts[n - 1], xs[n], Flat(xs[0].s.disk, acts[..n - 1]), Flat(xs[0].s.disk, acts[..n]));
    } else {
      BootFlat(g, xs[0]);
      assert acts[..0] == [];
    }
  }

  lemma BootFlat(g: Geometry, x: Sys)
    requires Boot(g, x)
    ensures SameHome(g, x.v, Flat(x.s.disk, []))
  {}

  /** Refinement: at every point of every run, the data that a holder of a buffer can see is what a
      flat disk holds on which every change so far took effect at once, whatever was cached,
      recycled, logged or installed since. */
  lemma ReadsAreFlat(g: Geometry, xs: seq<Sys>, acts: seq<Act>, n: nat, no: int, b: nat)
    requires Run(g, xs, acts) && n < |xs| && IsHolder(g, xs[n], no, b)
    ensures 0 <= no < |xs[0].s.disk| && xs[n].s.bufs[b].data == Flat(xs[0].s.disk, acts[..n])[no]
  {
    hide Step, Boot, Flat;
    RunKeepsInv(g, xs, acts, n);
    RunRefines(g, xs, acts, n);
    SysElim(g, xs[n]);
  }

  /** A bread makes its caller such a holder. */
  lemma FillGivesHolder(g: Geometry, x: Sys, no: int, b: nat, y: Sys)
    requires SysInv(g, x) && Fill(g, x, no, b, y)
    ensures IsHolder(g, y, no, b)
  {
    SysElim(g, x);
  }

  /** Of the acts so far, those before the last commit header was written. */
  function UpToCommit(acts: seq<Act>): (n: nat)
    ensures n <= |acts|
  {
    if acts == [] then 0
    else if acts[|acts| - 1].ActHeader? then |acts| - 1 else UpToCommit(acts[..|acts| - 1])
  }

  lemma UpToCommitNext(acts: seq<Act>)
    requires acts != []
    ensures UpToCommit(acts) == if acts[|acts| - 1].ActHeader? then |acts| - 1 else UpToCommit(acts[..|acts| - 1])
  {}

  lemma CommittedStep(g: Geometry, x: Sys, a: Act, y: Sys)
    requires Step(g, x, a, y)
    ensures y.committed == if a.ActHeader? then x.v else x.committed
  {
    hide S.Bread, S.Brelse, S.Modify, CopiedToLog, CopiedHome, HeaderPut, Header, CommitOk;
  }

  lemma {:induction false} CommittedIs(g: Geometry, xs: seq<Sys>, acts: seq<Act>, n: nat)
    requires Run(g, xs, acts) && n < |xs|
    ensures xs[n].committed == if UpToCommit(acts[..n]) == 0 then xs[0].s.disk else xs[UpToCommit(acts[..n])].v
    decreases n
  {
    if n > 0 {
      hide Step, Boot, UpToCommit;
      CommittedIs(g, xs, acts, n - 1);
      assert acts[..n][..n - 1] == acts[..n - 1];
      assert Goes(g, xs, acts, n - 1);
      UpToCommitNext(acts[..n]);
      CommittedStep(g, xs[n - 1], acts[n - 1], xs[n]);
    } else {
      assert acts[..0] == [];
    }
  }

  /** Crash safety of the running system: if it stops at any point of any run, recovery yields
      exactly the changes made before the last commit header was written, all of them. */
  lemma CrashAnywhere(g: Geometry, xs: seq<Sys>, acts: seq<Act>, n: nat)
    requires Run(g, xs, acts) && n < |xs|
    ensures LogOk(g, xs[n].s.disk)
    ensures SameHome(g, Durable(g, xs[n].s.disk), Flat(xs[0].s.disk, acts[..UpToCommit(acts[..n])]))
  {
    RunKeepsInv(g, xs, acts, n);
    DurableIsCommitted(g, xs[n]);
    CommittedIs(g, xs, acts, n);
    var m := UpToCommit(acts[..n]);
    assert acts[..n][..m] == acts[..m];
    RunRefines(g, xs, acts, m);
  }

  lemma DurableIsCommitted(g: Geometry, x: Sys)
    requires SysInv(g, x)
    ensures LogOk(g, x.s.disk) && SameHome(g, Durable(g, x.s.disk), x.committed)
  {
    match x.phase
    case Open => DurableWhenEmpty(g, x.s.disk);
    case Committing(d0, t, k) =>
      CutIsSafe(g, d0, t, k);
      OverlayIsFlat(g, x);
  }

  /** bget never recycles a buffer with an update that is not on the disk: it is referenced. */
  lemma DirtyIsReferenced(g: Geometry, x: Sys, b: nat)
    requires SysInv(g, x) && b < |x.s.bufs| && x.s.bufs[b].valid && x.s.bufs[b].data != x.s.disk[x.s.bufs[b].no]
    ensures x.s.bufs[b].refcnt > 0
  {
    var no := x.s.bufs[b].no;
    var c: nat :| S.Holds(x.s, no, c) && x.s.bufs[c].valid;
    if c != b {
      S.OneInUse(x.s, b, c);
    }
  }
}
