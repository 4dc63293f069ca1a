/** The on-disk redo log of kernel/log.c as the sequence of block writes it makes.

    A crash leaves the disk as it is after some prefix of the writes under way; memory is lost.
    The theorem is about whole runs: commits, crashes after any write, recoveries that are
    themselves cut short any number of times. */
module LogSpec {
  import opened Ring

  /** BSIZE / sizeof(uint) */
  const WORDS: nat := 256
  const MAXOPBLOCKS: nat := 10
  const LOGSIZE: nat := MAXOPBLOCKS * 3

  type Block = b: seq<int> | |b| == WORDS witness seq(WORDS, _ => 0)
  type Disk = seq<Block>

  datatype Write = Write(no: int, data: Block)

  /** Where the log is: the header block at `start`, then `size - 1` log blocks. */
  datatype Geometry = Geometry(start: int, size: int)

  predicate InLog(g: Geometry, no: int) {
    g.start <= no < g.start + g.size
  }

  ghost predicate Fits(g: Geometry, d: Disk) {
    0 <= g.start && 1 <= g.size && g.start + g.size <= |d|
  }

  // ---- the header block ----

  /** write_head: the count and the block numbers over what the buffer held. */
  function Header(was: Block, blocks: seq<int>): Block
    requires |blocks| <= LOGSIZE
  {
    [|blocks|] + blocks + was[1 + |blocks|..]
  }

  /** read_head */
  function Logged(hdr: Block): seq<int>
    requires 0 <= hdr[0] <= LOGSIZE
  {
    hdr[1..1 + hdr[0]]
  }

  /** Block numbers a transaction may carry: on the disk, outside the log, no two the same, and
      no more than the log has room for. */
  ghost predicate Loggable(g: Geometry, d: Disk, blocks: seq<int>) {
    && |blocks| <= LOGSIZE && |blocks| < g.size
    && Distinct(blocks)
    && forall i :: 0 <= i < |blocks| ==> 0 <= blocks[i] < |d| && !InLog(g, blocks[i])
  }

  /** The disk has a log whose header can be read back. */
  ghost predicate LogOk(g: Geometry, d: Disk) {
    && Fits(g, d)
    && 0 <= d[g.start][0] <= LOGSIZE
    && Loggable(g, d, Logged(d[g.start]))
  }

  ghost predicate LogEmpty(g: Geometry, d: Disk) {
    LogOk(g, d) && d[g.start][0] == 0
  }

  // ---- writes ----

  ghost predicate OnDisk(d: Disk, ws: seq<Write>) {
    forall i :: 0 <= i < |ws| ==> 0 <= ws[i].no < |d|
  }

  /** The disk after the writes ws, in order. */
  function Apply(d: Disk, ws: seq<Write>): (r: Disk)
    requires forall i :: 0 <= i < |ws| ==> 0 <= ws[i].no < |d|
    ensures |r| == |d|
    decreases |ws|
  {
    if ws == [] then d else Apply(d, ws[..|ws| - 1])[ws[|ws| - 1].no := ws[|ws| - 1].data]
  }

  lemma {:induction false} ApplyAppend(d: Disk, a: seq<Write>, b: seq<Write>)
    requires OnDisk(d, a) && OnDisk(d, b)
    ensures OnDisk(d, a + b) && Apply(d, a + b) == Apply(Apply(d, a), b)
    decreases |b|
  {
    if b == [] {
      assert a + b == a;
    } else {
      ApplyAppend(d, a, b[..|b| - 1]);
      assert (a + b)[..|a + b| - 1] == a + b[..|b| - 1];
    }
  }

  lemma {:induction false} ApplyLast(d: Disk, ws: seq<Write>, w: Write)
    requires OnDisk(d, ws) && 0 <= w.no < |d|
    ensures OnDisk(d, ws + [w]) && Apply(d, ws + [w]) == Apply(d, ws)[w.no := w.data]
  {
    var all := ws + [w];
    assert all[..|all| - 1] == ws && all[|all| - 1] == w;
  }

  lemma {:induction false} ApplyNext(d: Disk, ws: seq<Write>, k: nat)
    requires k < |ws| && OnDisk(d, ws[..k]) && 0 <= ws[k].no < |d|
    ensures ws[..k + 1] == ws[..k] + [ws[k]] && OnDisk(d, ws[..k + 1])
    ensures Apply(d, ws[..k + 1]) == Apply(d, ws[..k])[ws[k].no := ws[k].data]
  {
    hide Apply, OnDisk;
    assert ws[..k + 1] == ws[..k] + [ws[k]];
    ApplyLast(d, ws[..k], ws[k]);
  }

  lemma {:induction false} ApplyElsewhere(d: Disk, ws: seq<Write>, no: int)
    requires OnDisk(d, ws) && 0 <= no < |d| && forall i :: 0 <= i < |ws| ==> ws[i].no != no
    ensures Apply(d, ws)[no] == d[no]
    decreases |ws|
  {
    if ws != [] {
      ApplyElsewhere(d, ws[..|ws| - 1], no);
    }
  }

  lemma {:induction false} ApplyAt(d: Disk, ws: seq<Write>, i: nat)
    requires OnDisk(d, ws) && i < |ws| && forall j :: i < j < |ws| ==> ws[j].no != ws[i].no
    ensures Apply(d, ws)[ws[i].no] == ws[i].data
    decreases |ws|
  {
    if i < |ws| - 1 {
      ApplyAt(d, ws[..|ws| - 1], i);
    }
  }

  // ---- commit and recovery as writes ----

  /** write_log */
  function LogWrites(g: Geometry, data: seq<Block>): (ws: seq<Write>)
    ensures |ws| == |data| && forall i :: 0 <= i < |ws| ==> ws[i] == Write(g.start + 1 + i, data[i])
  {
    seq(|data|, i requires 0 <= i < |data| => Write(g.start + 1 + i, data[i]))
  }

  /** install_trans */
  function HomeWrites(blocks: seq<int>, data: seq<Block>): (ws: seq<Write>)
    requires |blocks| == |data|
    ensures |ws| == |data| && forall i :: 0 <= i < |ws| ==> ws[i] == Write(blocks[i], data[i])
  {
    seq(|data|, i requires 0 <= i < |data| => Write(blocks[i], data[i]))
  }

  /** What the log blocks hold, for a header that lists n blocks. */
  function LogData(g: Geometry, d: Disk, n: nat): seq<Block>
    requires 0 <= g.start && g.start + n < |d|
  {
    d[g.start + 1..g.start + 1 + n]
  }

  datatype Txn = Txn(blocks: seq<int>, data: seq<Block>)

  ghost predicate TxnOk(g: Geometry, d: Disk, t: Txn) {
    |t.data| == |t.blocks| && Loggable(g, d, t.blocks)
  }

  /** commit: the log, the header (the real commit), the home blocks, the cleared header.
      An empty transaction writes nothing. */
  function CommitWrites(g: Geometry, d: Disk, t: Txn): seq<Write>
    requires 0 <= g.start < |d| && |t.data| == |t.blocks| <= LOGSIZE
  {
    if t.blocks == [] then []
    else
      var hdr := Header(d[g.start], t.blocks);
      LogWrites(g, t.data) + [Write(g.start, hdr)] + HomeWrites(t.blocks, t.data) + [Write(g.start, Header(hdr, []))]
  }

  /** recover_from_log: reinstall what the header lists, then clear the header. */
  function RecoverWrites(g: Geometry, d: Disk): seq<Write>
    requires 0 <= g.start < |d| && 0 <= d[g.start][0] <= LOGSIZE && g.start + d[g.start][0] < |d|
  {
    HomeWrites(Logged(d[g.start]), LogData(g, d, d[g.start][0])) + [Write(g.start, Header(d[g.start], []))]
  }

  /** What the home blocks hold once recovery has run to the end. */
  function Durable(g: Geometry, d: Disk): Disk
    requires LogOk(g, d)
  {
    Apply(d, HomeWrites(Logged(d[g.start]), LogData(g, d, d[g.start][0])))
  }

  /** Equal outside the log. */
  ghost predicate SameHome(g: Geometry, a: Disk, b: Disk) {
    |a| == |b| && forall no :: 0 <= no < |a| && !InLog(g, no) ==> a[no] == b[no]
  }

  /** The flat disk after a transaction that is installed at once. */
  function Overlay(d: Disk, t: Txn): Disk
    requires |t.data| == |t.blocks| && forall i :: 0 <= i < |t.blocks| ==> 0 <= t.blocks[i] < |d|
  {
    Apply(d, HomeWrites(t.blocks, t.data))
  }

  // ---- crash lemmas ----

  /** If the log region is the same and the listed home blocks are the same or already hold the
      logged contents, recovery ends in the same home contents. */
  lemma DurableUnmoved(g: Geometry, d: Disk, e: Disk)
    requires LogOk(g, d) && |e| == |d| && forall no :: 0 <= no < |d| && InLog(g, no) ==> e[no] == d[no]
    requires forall no :: 0 <= no < |d| && !InLog(g, no) && no !in Logged(d[g.start]) ==> e[no] == d[no]
    ensures LogOk(g, e) && SameHome(g, Durable(g, e), Durable(g, d))
  {
    var blocks := Logged(d[g.start]);
    var data := LogData(g, d, |blocks|);
    assert LogData(g, e, |blocks|) == data;
    var ws := HomeWrites(blocks, data);
    forall no | 0 <= no < |d| && !InLog(g, no)
      ensures Durable(g, e)[no] == Durable(g, d)[no]
    {
      if i :| 0 <= i < |blocks| && blocks[i] == no {
        ApplyAt(d, ws, i);
        ApplyAt(e, ws, i);
      } else {
        ApplyElsewhere(d, ws, no);
        ApplyElsewhere(e, ws, no);
      }
    }
  }

  lemma DurableWhenEmpty(g: Geometry, d: Disk)
    requires LogEmpty(g, d)
    ensures Durable(g, d) == d
  {}

  /** Writes to the log blocks before the header is written change nothing that recovery sees. */
  lemma CrashBeforeHeader(g: Geometry, d: Disk, ws: seq<Write>)
    requires LogEmpty(g, d) && forall i :: 0 <= i < |ws| ==> g.start < ws[i].no < g.start + g.size
    ensures OnDisk(d, ws) && LogEmpty(g, Apply(d, ws)) && SameHome(g, Durable(g, Apply(d, ws)), d)
  {
    var e := Apply(d, ws);
    ApplyElsewhere(d, ws, g.start);
    DurableWhenEmpty(g, e);
    forall no | 0 <= no < |d| && !InLog(g, no)
      ensures e[no] == d[no]
    {
      ApplyElsewhere(d, ws, no);
    }
  }

  lemma HeaderReadsBack(was: Block, blocks: seq<int>)
    requires |blocks| <= LOGSIZE
    ensures Header(was, blocks)[0] == |blocks| && Logged(Header(was, blocks)) == blocks
  {}

  /** The header write is the commit point: from then on recovery yields the transaction. */
  lemma HeaderCommits(g: Geometry, d: Disk, t: Txn)
    requires LogEmpty(g, d) && TxnOk(g, d, t)
    ensures var e := Apply(d, LogWrites(g, t.data))[g.start := Header(d[g.start], t.blocks)];
            && LogOk(g, e) && Logged(e[g.start]) == t.blocks && LogData(g, e, |t.blocks|) == t.data
            && SameHome(g, Durable(g, e), Overlay(d, t))
  {
    var lw := LogWrites(g, t.data);
    var m := Apply(d, lw);
    var e := m[g.start := Header(d[g.start], t.blocks)];
    HeaderReadsBack(d[g.start], t.blocks);
    CommittedData(g, d, t, e);
    forall no | 0 <= no < |d| && !InLog(g, no)
      ensures e[no] == d[no]
    {
      ApplyElsewhere(d, lw, no);
    }
    SameWrites(g, e, d, HomeWrites(t.blocks, t.data));
  }

  /** The same writes outside the log keep two disks the same outside the log. */
  lemma {:induction false} SameWrites(g: Geometry, a: Disk, b: Disk, ws: seq<Write>)
    requires SameHome(g, a, b) && OnDisk(a, ws)
    ensures SameHome(g, Apply(a, ws), Apply(b, ws))
    decreases |ws|
  {
    if ws != [] {
      SameWrites(g, a, b, ws[..|ws| - 1]);
    }
  }

  lemma CommittedData(g: Geometry, d: Disk, t: Txn, e: Disk)
    requires LogEmpty(g, d) && TxnOk(g, d, t)
    requires e == Apply(d, LogWrites(g, t.data))[g.start := Header(d[g.start], t.blocks)]
    ensures g.start + |t.blocks| < |e| && LogData(g, e, |t.blocks|) == t.data
  {
    var lw := LogWrites(g, t.data);
    forall i | 0 <= i < |t.data|
      ensures e[g.start + 1 + i] == t.data[i]
    {
      ApplyAt(d, lw, i);
    }
  }

  /** Installing, in commit or in recovery, changes nothing that recovery sees. */
  lemma CrashInInstall(g: Geometry, d: Disk, k: nat)
    requires LogOk(g, d) && k <= d[g.start][0]
    ensures var ws := HomeWrites(Logged(d[g.start]), LogData(g, d, d[g.start][0]))[..k];
            OnDisk(d, ws) && LogOk(g, Apply(d, ws)) && SameHome(g, Durable(g, Apply(d, ws)), Durable(g, d))
  {
    var blocks := Logged(d[g.start]);
    var ws := HomeWrites(blocks, LogData(g, d, d[g.start][0]))[..k];
    var e := Apply(d, ws);
    forall no | 0 <= no < |d| && (InLog(g, no) || no !in blocks)
      ensures e[no] == d[no]
    {
      forall i | 0 <= i < |ws|
        ensures ws[i].no != no
      {
        assert blocks[i] in blocks;
      }
      ApplyElsewhere(d, ws, no);
    }
    DurableUnmoved(g, d, e);
  }

  /** Clearing the header after the install ends the transaction. */
  lemma ClearEnds(g: Geometry, d: Disk)
    requires LogOk(g, d)
    ensures var e := Durable(g, d)[g.start := Header(d[g.start], [])];
            LogEmpty(g, e) && SameHome(g, e, Durable(g, d)) && SameHome(g, Durable(g, e), Durable(g, d))
  {
    var e := Durable(g, d)[g.start := Header(d[g.start], [])];
    HeaderReadsBack(d[g.start], []);
    DurableWhenEmpty(g, e);
  }

  // ---- a commit or a recovery, cut short after k writes ----

  lemma {:induction false} ApplyOne(d: Disk, w: Write)
    requires 0 <= w.no < |d|
    ensures Apply(d, [w]) == d[w.no := w.data]
  {
    assert [w][..0] == [];
  }

  lemma CommitOnDisk(g: Geometry, d: Disk, t: Txn)
    requires LogEmpty(g, d) && TxnOk(g, d, t)
    ensures OnDisk(d, CommitWrites(g, d, t))
  {}

  /** The disk from which the install of a committed transaction starts. */
  function AtCommit(g: Geometry, d: Disk, t: Txn): Disk
    requires 0 <= g.start && g.start + |t.data| < |d| && |t.data| == |t.blocks| <= LOGSIZE
  {
    Apply(d, LogWrites(g, t.data))[g.start := Header(d[g.start], t.blocks)]
  }

  lemma CommitPrefixBefore(g: Geometry, d: Disk, t: Txn, k: nat)
    requires LogEmpty(g, d) && TxnOk(g, d, t) && t.blocks != [] && k <= |t.blocks|
    ensures CommitWrites(g, d, t)[..k] == LogWrites(g, t.data)[..k]
  {}

  lemma CommitPrefixAfter(g: Geometry, d: Disk, t: Txn, k: nat)
    requires LogEmpty(g, d) && TxnOk(g, d, t) && t.blocks != [] && |t.blocks| < k < |CommitWrites(g, d, t)|
    ensures OnDisk(d, CommitWrites(g, d, t)[..k])
    ensures Apply(d, CommitWrites(g, d, t)[..k]) ==
            Apply(AtCommit(g, d, t), HomeWrites(t.blocks, t.data)[..k - 1 - |t.blocks|])
  {
    var n := |t.blocks|;
    var lw, hw := LogWrites(g, t.data), [Write(g.start, Header(d[g.start], t.blocks))];
    var iw := HomeWrites(t.blocks, t.data)[..k - 1 - n];
    assert CommitWrites(g, d, t)[..k] == lw + hw + iw;
    ApplyAppend(d, lw, hw);
    ApplyOne(Apply(d, lw), hw[0]);
    ApplyAppend(d, lw + hw, iw);
  }

  lemma CommitWhole(g: Geometry, d: Disk, t: Txn)
    requires LogEmpty(g, d) && TxnOk(g, d, t) && t.blocks != []
    ensures OnDisk(d, CommitWrites(g, d, t))
    ensures Apply(d, CommitWrites(g, d, t)) ==
            Apply(AtCommit(g, d, t), HomeWrites(t.blocks, t.data))[g.start := Header(Header(d[g.start], t.blocks), [])]
  {
    var ws := CommitWrites(g, d, t);
    CommitPrefixAfter(g, d, t, |ws| - 1);
    assert HomeWrites(t.blocks, t.data)[..|ws| - 2 - |t.blocks|] == HomeWrites(t.blocks, t.data);
  }

  lemma SameHomeTrans(g: Geometry, a: Disk, b: Disk, c: Disk)
    requires SameHome(g, a, b) && SameHome(g, b, c)
    ensures SameHome(g, a, c)
  {}

  /** A crash between the commit header and the last write. */
  lemma CrashInstalling(g: Geometry, d: Disk, t: Txn, k: nat)
    requires LogEmpty(g, d) && TxnOk(g, d, t) && t.blocks != [] && |t.blocks| < k < |CommitWrites(g, d, t)|
    ensures OnDisk(d, CommitWrites(g, d, t)[..k])
    ensures var e := Apply(d, CommitWrites(g, d, t)[..k]);
            LogOk(g, e) && SameHome(g, Durable(g, e), Overlay(d, t))
  {
    hide Apply, SameHome, OnDisk, Durable, Overlay, Header, Distinct;
    HeaderCommits(g, d, t);
    var c := AtCommit(g, d, t);
    CommitPrefixAfter(g, d, t, k);
    CrashInInstall(g, c, k - 1 - |t.blocks|);
    var e := Apply(d, CommitWrites(g, d, t)[..k]);
    SameHomeTrans(g, Durable(g, e), Durable(g, c), Overlay(d, t));
  }

  /** After the last write. */
  lemma CommitDone(g: Geometry, d: Disk, t: Txn)
    requires LogEmpty(g, d) && TxnOk(g, d, t) && t.blocks != []
    ensures OnDisk(d, CommitWrites(g, d, t))
    ensures var e := Apply(d, CommitWrites(g, d, t));
            LogEmpty(g, e) && SameHome(g, Durable(g, e), Overlay(d, t)) && SameHome(g, e, Overlay(d, t))
  {
    hide Apply, SameHome, OnDisk, Overlay;
    HeaderCommits(g, d, t);
    var c := AtCommit(g, d, t);
    CommitWhole(g, d, t);
    ClearEnds(g, c);
    var e := Apply(d, CommitWrites(g, d, t));
    SameHomeTrans(g, Durable(g, e), Durable(g, c), Overlay(d, t));
    SameHomeTrans(g, e, Durable(g, c), Overlay(d, t));
  }

  /** Wherever a commit is cut, recovery yields all of the transaction or none of it: all of it
      exactly when the header write was done. */
  lemma CrashInCommit(g: Geometry, d: Disk, t: Txn, k: nat)
    requires LogEmpty(g, d) && TxnOk(g, d, t) && k <= |CommitWrites(g, d, t)|
    ensures OnDisk(d, CommitWrites(g, d, t)[..k])
    ensures var e := Apply(d, CommitWrites(g, d, t)[..k]);
            && LogOk(g, e)
            && SameHome(g, Durable(g, e), if k > |t.blocks| then Overlay(d, t) else d)
            && (k == |CommitWrites(g, d, t)| ==> LogEmpty(g, e) && SameHome(g, e, Overlay(d, t)))
  {
    hide Apply, Header;
    var ws := CommitWrites(g, d, t);
    if t.blocks == [] {
      DurableWhenEmpty(g, d);
      assert HomeWrites(t.blocks, t.data) == [];
    } else if k <= |t.blocks| {
      CommitOnDisk(g, d, t);
      CommitPrefixBefore(g, d, t, k);
      CrashBeforeHeader(g, d, ws[..k]);
    } else if k < |ws| {
      CrashInstalling(g, d, t, k);
    } else {
      CommitDone(g, d, t);
      assert ws[..k] == ws;
    }
  }

  /** Recovery cut after k writes leaves a disk from which recovery yields the same contents. */
  lemma CrashInRecovery(g: Geometry, d: Disk, k: nat)
    requires LogOk(g, d) && k <= |RecoverWrites(g, d)|
    ensures OnDisk(d, RecoverWrites(g, d)[..k])
    ensures var e := Apply(d, RecoverWrites(g, d)[..k]);
            && LogOk(g, e) && SameHome(g, Durable(g, e), Durable(g, d))
            && (k == |RecoverWrites(g, d)| ==> LogEmpty(g, e) && SameHome(g, e, Durable(g, d)))
  {
    var n := d[g.start][0];
    var ws := HomeWrites(Logged(d[g.start]), LogData(g, d, n));
    var all := RecoverWrites(g, d);
    if k <= n {
      assert all[..k] == ws[..k];
      CrashInInstall(g, d, k);
    } else {
      var cw := [Write(g.start, Header(d[g.start], []))];
      assert all[..k] == ws + cw;
      ApplyAppend(d, ws, cw);
      ApplyOne(Apply(d, ws), cw[0]);
      ClearEnds(g, d);
    }
  }

  // ---- whole runs ----

  datatype Event =
    | CommitDone(t: Txn)
    | CommitCut(t: Txn, k: nat)   // a crash after k of the commit's writes
    | RecoverDone
    | RecoverCut(k: nat)          // a crash after k of the recovery's writes

  datatype System = System(disk: Disk, up: bool)

  /** What can happen: a running system commits or crashes, a crashed one recovers. */
  ghost predicate Enabled(g: Geometry, s: System, ev: Event) {
    && LogOk(g, s.disk)
    && match ev
       case CommitDone(t) => s.up && TxnOk(g, s.disk, t)
       case CommitCut(t, k) => s.up && TxnOk(g, s.disk, t) && k <= |CommitWrites(g, s.disk, t)|
       case RecoverDone => !s.up
       case RecoverCut(k) => !s.up && k <= |RecoverWrites(g, s.disk)|
  }

  ghost predicate Step(g: Geometry, s: System, ev: Event, s': System) {
    && Enabled(g, s, ev)
    && match ev
       case CommitDone(t) =>
         var ws := CommitWrites(g, s.disk, t); OnDisk(s.disk, ws) && s' == System(Apply(s.disk, ws), true)
       case CommitCut(t, k) =>
         var ws := CommitWrites(g, s.disk, t)[..k]; OnDisk(s.disk, ws) && s' == System(Apply(s.disk, ws), false)
       case RecoverDone =>
         var ws := RecoverWrites(g, s.disk); OnDisk(s.disk, ws) && s' == System(Apply(s.disk, ws), true)
       case RecoverCut(k) =>
         var ws := RecoverWrites(g, s.disk)[..k]; OnDisk(s.disk, ws) && s' == System(Apply(s.disk, ws), false)
  }

  ghost predicate Run(g: Geometry, states: seq<System>, events: seq<Event>) {
    && |states| == |events| + 1
    && forall i :: 0 <= i < |events| ==> Step(g, states[i], events[i], states[i + 1])
  }

  /** The transactions of a run whose header write reached the disk, on a flat disk. */
  ghost function Committed(flat: Disk, events: seq<Event>): (r: Disk)
    ensures |r| == |flat|
    decreases |events|
  {
    if events == [] then flat
    else
      var r := Committed(flat, events[..|events| - 1]);
      match events[|events| - 1]
      case CommitDone(t) => Install(r, t)
      case CommitCut(t, k) => if k > |t.blocks| then Install(r, t) else r
      case RecoverDone => r
      case RecoverCut(_) => r
  }

  /** A transaction's blocks put in place one after the other, straight on a flat disk. */
  ghost function Install(flat: Disk, t: Txn): (r: Disk)
    ensures |r| == |flat|
  {
    if |t.data| == |t.blocks| && forall i :: 0 <= i < |t.blocks| ==> 0 <= t.blocks[i] < |flat|
    then Overlay(flat, t) else flat
  }

  /** The state of a run: recovery always yields exactly the committed transactions, and while
      the system is up the home blocks already hold them. */
  ghost predicate Safe(g: Geometry, s: System, flat: Disk) {
    && LogOk(g, s.disk)
    && SameHome(g, Durable(g, s.disk), flat)
    && (s.up ==> LogEmpty(g, s.disk) && SameHome(g, s.disk, flat))
  }

  lemma SafeAtStart(g: Geometry, s: System)
    requires s.up && LogEmpty(g, s.disk)
    ensures Safe(g, s, s.disk)
  {
    DurableWhenEmpty(g, s.disk);
  }

  /** Crash safety: over every run, whatever is cut short and however often, the durable contents
      are the fold of exactly the transactions whose header write reached the disk. */
  lemma {:induction false} CrashSafety(g: Geometry, states: seq<System>, events: seq<Event>)
    requires Run(g, states, events) && states[0].up && LogEmpty(g, states[0].disk)
    ensures Safe(g, states[|events|], Committed(states[0].disk, events))
    decreases |events|
  {
    hide Safe, Step, Install, LogEmpty;
    var n := |events|;
    if n == 0 {
      SafeAtStart(g, states[0]);
    } else {
      CrashSafety(g, states[..n], events[..n - 1]);
      assert Step(g, states[n - 1], events[n - 1], states[n]);
      StepSafe(g, states[n - 1], events[n - 1], states[n], Committed(states[0].disk, events[..n - 1]));
    }
  }

  lemma OverlaySame(g: Geometry, a: Disk, b: Disk, t: Txn)
    requires SameHome(g, a, b) && TxnOk(g, a, t)
    ensures SameHome(g, Overlay(a, t), Install(b, t))
  {
    SameWrites(g, a, b, HomeWrites(t.blocks, t.data));
  }

  lemma StepSafe(g: Geometry, s: System, ev: Event, s': System, flat: Disk)
    requires Step(g, s, ev, s') && Safe(g, s, flat)
    ensures Safe(g, s', match ev
                        case CommitDone(t) => Install(flat, t)
                        case CommitCut(t, k) => if k > |t.blocks| then Install(flat, t) else flat
                        case RecoverDone => flat
                        case RecoverCut(_) => flat)
  {
    hide Apply, CommitWrites, RecoverWrites, Header;
    match ev
    case CommitDone(t) =>
      var ws := CommitWrites(g, s.disk, t);
      CrashInCommit(g, s.disk, t, |ws|);
      assert ws[..|ws|] == ws;
      OverlaySame(g, s.disk, flat, t);
      DurableWhenEmpty(g, s'.disk);
    case CommitCut(t, k) =>
      CrashInCommit(g, s.disk, t, k);
      OverlaySame(g, s.disk, flat, t);
    case RecoverDone =>
      var ws := RecoverWrites(g, s.disk);
      CrashInRecovery(g, s.disk, |ws|);
      assert ws[..|ws|] == ws;
    case RecoverCut(k) =>
      CrashInRecovery(g, s.disk, k);
  }
}
