/** The buffer cache of kernel/bio.c over a disk, as a transition system on values.

    A block is named by one number, which stands for the pair (dev, blockno). The cache refines
    a flat disk `v`, on which every change to a buffer takes effect at once; `r` counts, per
    block, the references to the buffer that holds it. */
module BcacheSpec {
  import opened Ring
  import opened LogSpec

  /** refcnt is a uint. */
  const WRAP: nat := 0x1_0000_0000

  function Inc(n: nat): nat {
    if n + 1 >= WRAP then 0 else n + 1
  }

  function Dec(n: nat): nat {
    if n == 0 then WRAP - 1 else n - 1
  }

  datatype Buf = Buf(valid: bool, no: int, refcnt: nat, locked: bool, data: Block) {
    /** Neither in use nor holding data. */
    predicate Idle() {
      !valid && refcnt == 0
    }
  }

  /** `order` is the list of buffers, most recently released first. */
  datatype State = State(bufs: seq<Buf>, order: seq<int>, disk: Disk)

  ghost predicate Wf(s: State) {
    && |s.order| == |s.bufs| && Distinct(s.order)
    && (forall i :: 0 <= i < |s.order| ==> 0 <= s.order[i] < |s.bufs|)
    && (forall b: nat :: b < |s.bufs| ==> b in s.order)
    && (forall b :: 0 <= b < |s.bufs| ==> 0 <= s.bufs[b].no < |s.disk| && s.bufs[b].refcnt < WRAP)
  }

  /** When two buffers name the same block only the first in list order is in use. (All buffers
      start out naming block 0.) */
  ghost predicate FirstWins(s: State)
    requires Wf(s)
  {
    forall i, j :: 0 <= i < j < |s.order| && s.bufs[s.order[i]].no == s.bufs[s.order[j]].no ==>
      s.bufs[s.order[j]].Idle()
  }

  ghost predicate Holds(s: State, no: int, b: nat) {
    b < |s.bufs| && s.bufs[b].no == no && s.bufs[b].refcnt > 0
  }

  ghost predicate Referenced(s: State, no: int) {
    exists b: nat :: Holds(s, no, b)
  }

  /** The data of a valid buffer is the flat disk's; a block whose contents are not yet on the
      disk is in a valid buffer that somebody references. */
  ghost predicate Coherent(s: State, v: Disk)
    requires Wf(s)
  {
    && |v| == |s.disk|
    && (forall b :: 0 <= b < |s.bufs| && s.bufs[b].valid ==> s.bufs[b].data == v[s.bufs[b].no])
    && (forall no :: 0 <= no < |v| && v[no] != s.disk[no] ==> exists b: nat :: Holds(s, no, b) && s.bufs[b].valid)
  }

  ghost predicate Counted(s: State, r: seq<nat>)
    requires Wf(s)
  {
    && |r| == |s.disk|
    && (forall b: nat :: b < |s.bufs| && s.bufs[b].refcnt > 0 ==> r[s.bufs[b].no] == s.bufs[b].refcnt)
    && (forall no :: 0 <= no < |r| && r[no] > 0 ==> Referenced(s, no))
  }

  ghost predicate Inv(s: State, v: Disk, r: seq<nat>) {
    Wf(s) && FirstWins(s) && Coherent(s, v) && Counted(s, r)
  }

  // ---- bget ----

  /** The first buffer in list order, from position i on, that names block no. */
  function FindCached(s: State, no: int, i: nat): (p: nat)
    requires i <= |s.order| && forall k :: 0 <= k < |s.order| ==> 0 <= s.order[k] < |s.bufs|
    ensures i <= p <= |s.order|
    ensures p < |s.order| ==> s.bufs[s.order[p]].no == no
    ensures forall k :: i <= k < p ==> s.bufs[s.order[k]].no != no
    decreases |s.order| - i
  {
    if i == |s.order| || s.bufs[s.order[i]].no == no then i else FindCached(s, no, i + 1)
  }

  /** The last buffer in list order, before position i, that nobody references; -1 if none. */
  function FindUnused(s: State, i: nat): (p: int)
    requires i <= |s.order| && forall k :: 0 <= k < |s.order| ==> 0 <= s.order[k] < |s.bufs|
    ensures -1 <= p < i
    ensures p >= 0 ==> s.bufs[s.order[p]].refcnt == 0
    ensures forall k :: p < k < i ==> s.bufs[s.order[k]].refcnt > 0
  {
    if i == 0 then -1 else if s.bufs[s.order[i - 1]].refcnt == 0 then i - 1 else FindUnused(s, i - 1)
  }

  datatype Got = NoBuffers | Got(s: State, b: nat)

  function SetBuf(s: State, b: nat, buf: Buf): State
    requires b < |s.bufs|
  {
    s.(bufs := s.bufs[b := buf])
  }

  /** bget: the cached buffer if there is one, else the least recently released unused one. */
  function Bget(s: State, no: int): Got
    requires Wf(s)
  {
    var p := FindCached(s, no, 0);
    if p < |s.order| then
      var b := s.order[p];
      Got(SetBuf(s, b, s.bufs[b].(refcnt := Inc(s.bufs[b].refcnt))), b)
    else
      var u := FindUnused(s, |s.order|);
      if u < 0 then NoBuffers
      else
        var b := s.order[u];
        Got(SetBuf(s, b, s.bufs[b].(no := no, valid := false, refcnt := 1)), b)
  }

  function Lock(s: State, b: nat): State
    requires b < |s.bufs|
  {
    SetBuf(s, b, s.bufs[b].(locked := true))
  }

  /** Read the block from the disk. */
  function Fill(s: State, b: nat): State
    requires b < |s.bufs| && 0 <= s.bufs[b].no < |s.disk|
  {
    SetBuf(s, b, s.bufs[b].(valid := true, data := s.disk[s.bufs[b].no]))
  }

  /** bread, once the sleep lock is free. */
  function Bread(s: State, no: int): Got
    requires Wf(s) && 0 <= no < |s.disk|
  {
    match Bget(s, no)
    case NoBuffers => NoBuffers
    case Got(t, b) =>
      var l := Lock(t, b);
      Got(if l.bufs[b].valid then l else Fill(l, b), b)
  }

  // ---- what holders of a buffer do ----

  function Modify(s: State, b: nat, data: Block): State
    requires b < |s.bufs|
  {
    SetBuf(s, b, s.bufs[b].(data := data))
  }

  function Bwrite(s: State, b: nat): State
    requires b < |s.bufs| && 0 <= s.bufs[b].no < |s.disk|
  {
    s.(disk := s.disk[s.bufs[b].no := s.bufs[b].data])
  }

  function MoveToFront(order: seq<int>, b: int): seq<int>
    requires b in order
  {
    [b] + order[..Position(order, b)] + order[Position(order, b) + 1..]
  }

  function Brelse(s: State, b: nat): State
    requires b < |s.bufs| && b in s.order
  {
    var n := Dec(s.bufs[b].refcnt);
    var t := SetBuf(s, b, s.bufs[b].(locked := false, refcnt := n));
    if n == 0 then t.(order := MoveToFront(s.order, b)) else t
  }

  function Bpin(s: State, b: nat): State
    requires b < |s.bufs|
  {
    SetBuf(s, b, s.bufs[b].(refcnt := Inc(s.bufs[b].refcnt)))
  }

  function Bunpin(s: State, b: nat): State
    requires b < |s.bufs|
  {
    SetBuf(s, b, s.bufs[b].(refcnt := Dec(s.bufs[b].refcnt)))
  }

  // ---- each step keeps the invariant ----

  /** Two buffers for one block: one of them is idle. */
  lemma OneInUse(s: State, b: nat, c: nat)
    requires Wf(s) && FirstWins(s) && b < |s.bufs| && c < |s.bufs| && b != c && s.bufs[b].no == s.bufs[c].no
    ensures s.bufs[b].Idle() || s.bufs[c].Idle()
  {
    var i, j := Position(s.order, b), Position(s.order, c);
    assert s.order[i] == b && s.order[j] == c;
  }

  /** FirstWins survives a change to one buffer that names its old block and is first for it, or
      that names a block no other buffer names. */
  lemma FirstWinsUpdate(s: State, b: nat, buf: Buf)
    requires Wf(s) && FirstWins(s) && b < |s.bufs| && 0 <= buf.no < |s.disk| && buf.refcnt < WRAP
    requires buf.no != s.bufs[b].no ==> forall c :: 0 <= c < |s.bufs| ==> s.bufs[c].no != buf.no
    requires buf.no == s.bufs[b].no ==>
               || buf.Idle() || !s.bufs[b].Idle()
               || forall i :: 0 <= i < Position(s.order, b) ==> s.bufs[s.order[i]].no != buf.no
    ensures Wf(SetBuf(s, b, buf)) && FirstWins(SetBuf(s, b, buf))
  {
    var t := SetBuf(s, b, buf);
    assert Wf(t);
    forall i, j | 0 <= i < j < |t.order| && t.bufs[t.order[i]].no == t.bufs[t.order[j]].no
      ensures t.bufs[t.order[j]].Idle()
    {
      if s.order[j] == b {
        assert j == Position(s.order, b);
      }
    }
  }

  lemma CoherentUpdate(s: State, v: Disk, b: nat, buf: Buf)
    requires Wf(s) && FirstWins(s) && Coherent(s, v) && b < |s.bufs| && Wf(SetBuf(s, b, buf))
    requires 0 <= buf.no < |v| && (buf.valid ==> buf.data == v[buf.no])
    requires s.bufs[b].valid && s.bufs[b].refcnt > 0 && v[s.bufs[b].no] != s.disk[s.bufs[b].no] ==>
               buf.valid && buf.refcnt > 0 && buf.no == s.bufs[b].no
    ensures Coherent(SetBuf(s, b, buf), v)
  {
    var t := SetBuf(s, b, buf);
    forall no | 0 <= no < |v| && v[no] != t.disk[no]
      ensures exists c: nat :: Holds(t, no, c) && t.bufs[c].valid
    {
      var c: nat :| Holds(s, no, c) && s.bufs[c].valid;
      assert Holds(t, no, c) && t.bufs[c].valid;
    }
  }

  /** The count of a block is that of the one buffer in use for it. */
  lemma CountedUpdate(s: State, r: seq<nat>, b: nat, buf: Buf)
    requires Wf(s) && FirstWins(s) && Counted(s, r) && b < |s.bufs| && 0 <= buf.no < |s.disk|
    requires Wf(SetBuf(s, b, buf)) && FirstWins(SetBuf(s, b, buf))
    requires (buf.no == s.bufs[b].no && s.bufs[b].refcnt > 0) || (buf.refcnt > 0 && s.bufs[b].refcnt == 0)
    ensures Counted(SetBuf(s, b, buf), r[buf.no := buf.refcnt])
  {
    var t := SetBuf(s, b, buf);
    var r' := r[buf.no := buf.refcnt];
    forall c: nat | c < |t.bufs| && t.bufs[c].refcnt > 0
      ensures r'[t.bufs[c].no] == t.bufs[c].refcnt
    {
      if c != b && t.bufs[c].no == buf.no {
        if buf.refcnt > 0 {
          OneInUse(t, b, c);
        } else {
          OneInUse(s, b, c);
        }
      }
    }
    forall no | 0 <= no < |r'| && r'[no] > 0
      ensures Referenced(t, no)
    {
      if no == buf.no {
        assert Holds(t, no, b);
      } else {
        var c: nat :| Holds(s, no, c);
        assert Holds(t, no, c);
      }
    }
  }

  // ---- bread ----

  /** A cached block is found in the buffer in use for it, if there is one. */
  lemma CachedIsInUse(s: State, no: int)
    requires Wf(s) && FirstWins(s) && FindCached(s, no, 0) < |s.order|
    ensures var b := s.order[FindCached(s, no, 0)];
            && s.bufs[b].no == no && Position(s.order, b) == FindCached(s, no, 0)
            && forall c: nat :: c < |s.bufs| && c != b && s.bufs[c].no == no ==> s.bufs[c].Idle()
  {
    var p := FindCached(s, no, 0);
    var b := s.order[p];
    assert s.order[Position(s.order, b)] == b;
    forall c: nat | c < |s.bufs| && c != b && s.bufs[c].no == no
      ensures s.bufs[c].Idle()
    {
      var q := Position(s.order, c);
      assert q > p;
    }
  }

  lemma NotCached(s: State, no: int)
    requires Wf(s) && FindCached(s, no, 0) == |s.order|
    ensures forall c :: 0 <= c < |s.bufs| ==> s.bufs[c].no != no
  {
    forall c | 0 <= c < |s.bufs|
      ensures s.bufs[c].no != no
    {
      assert s.order[Position(s.order, c)] == c;
    }
  }

  /** bget takes a reference to the block and moves nothing on the flat disk; a buffer it
      recycles is one whose contents are on the disk. */
  lemma BgetKeeps(s: State, v: Disk, r: seq<nat>, no: int)
    requires Inv(s, v, r) && 0 <= no < |s.disk| && r[no] + 1 < WRAP && Bget(s, no).Got?
    ensures var g := Bget(s, no);
            && Inv(g.s, v, r[no := r[no] + 1]) && g.b < |s.bufs| && g.s.bufs[g.b].no == no
            && g.s.bufs[g.b].refcnt == r[no] + 1
            && g.s.disk == s.disk && g.s.order == s.order
            && (forall c :: 0 <= c < |s.bufs| && c != g.b ==> g.s.bufs[c] == s.bufs[c])
            && (s.bufs[g.b].refcnt > 0 ==> s.bufs[g.b].no == no)
  {
    var p := FindCached(s, no, 0);
    if p < |s.order| {
      CachedIsInUse(s, no);
      var b := s.order[p];
      var buf := s.bufs[b].(refcnt := Inc(s.bufs[b].refcnt));
      CountIs(s, r, no, b);
      FirstWinsUpdate(s, b, buf);
      CoherentUpdate(s, v, b, buf);
      CountedUpdate(s, r, b, buf);
    } else {
      NotCached(s, no);
      var b := s.order[FindUnused(s, |s.order|)];
      var buf := s.bufs[b].(no := no, valid := false, refcnt := 1);
      FirstWinsUpdate(s, b, buf);
      CoherentUpdate(s, v, b, buf);
      CountedUpdate(s, r, b, buf);
      assert r[no] == 0;
    }
  }

  lemma CountIs(s: State, r: seq<nat>, no: int, b: nat)
    requires Wf(s) && Counted(s, r) && b < |s.bufs| && s.bufs[b].no == no
    requires forall c: nat :: c < |s.bufs| && c != b && s.bufs[c].no == no ==> s.bufs[c].Idle()
    ensures r[no] == s.bufs[b].refcnt
  {
    if r[no] > 0 {
      var c: nat :| Holds(s, no, c);
    }
  }

  /** bget finds no buffer exactly when the block is not cached and every buffer is referenced. */
  lemma BgetFails(s: State, no: int)
    requires Wf(s)
    ensures Bget(s, no).NoBuffers? <==> forall c :: 0 <= c < |s.bufs| ==> s.bufs[c].no != no && s.bufs[c].refcnt > 0
  {
    var p := FindCached(s, no, 0);
    if p < |s.order| {
      assert s.bufs[s.order[p]].no == no;
    } else {
      NotCached(s, no);
      if FindUnused(s, |s.order|) < 0 {
        forall c | 0 <= c < |s.bufs|
          ensures s.bufs[c].refcnt > 0
        {
          assert s.order[Position(s.order, c)] == c;
        }
      }
    }
  }

  /** Filling reads what the flat disk holds: nobody has a newer copy. */
  lemma FillKeeps(s: State, v: Disk, r: seq<nat>, b: nat)
    requires Inv(s, v, r) && b < |s.bufs| && s.bufs[b].refcnt > 0 && !s.bufs[b].valid
    ensures Inv(Fill(s, b), v, r) && Fill(s, b).bufs[b].data == v[s.bufs[b].no]
  {
    var no := s.bufs[b].no;
    if v[no] != s.disk[no] {
      var c: nat :| Holds(s, no, c) && s.bufs[c].valid;
      OneInUse(s, b, c);
      assert false;
    }
    var buf := s.bufs[b].(valid := true, data := s.disk[no]);
    FirstWinsUpdate(s, b, buf);
    CoherentUpdate(s, v, b, buf);
    CountedUpdate(s, r, b, buf);
    assert r[no := buf.refcnt] == r;
  }

  lemma LockKeeps(s: State, v: Disk, r: seq<nat>, b: nat, l: bool)
    requires Inv(s, v, r) && b < |s.bufs| && s.bufs[b].refcnt > 0
    ensures Inv(SetBuf(s, b, s.bufs[b].(locked := l)), v, r)
  {
    var buf := s.bufs[b].(locked := l);
    FirstWinsUpdate(s, b, buf);
    CoherentUpdate(s, v, b, buf);
    CountedUpdate(s, r, b, buf);
    assert r[s.bufs[b].no := buf.refcnt] == r;
  }

  /** bread returns what the flat disk holds, and a reference; nothing else that anyone
      references changes. */
  lemma BreadKeeps(s: State, v: Disk, r: seq<nat>, no: int)
    requires Inv(s, v, r) && 0 <= no < |s.disk| && r[no] + 1 < WRAP && Bread(s, no).Got?
    ensures var g := Bread(s, no);
            && Inv(g.s, v, r[no := r[no] + 1]) && g.b < |g.s.bufs| == |s.bufs| && g.s.disk == s.disk
            && g.s.bufs[g.b] == Buf(true, no, r[no] + 1, true, v[no])
            && (forall c :: 0 <= c < |s.bufs| && c != g.b ==> g.s.bufs[c] == s.bufs[c])
            && (s.bufs[g.b].refcnt > 0 ==> s.bufs[g.b].no == no)
  {
    BgetKeeps(s, v, r, no);
    var g := Bget(s, no);
    LockKeeps(g.s, v, r[no := r[no] + 1], g.b, true);
    var l := Lock(g.s, g.b);
    if !l.bufs[g.b].valid {
      FillKeeps(l, v, r[no := r[no] + 1], g.b);
    }
  }

  // ---- the holder's steps ----

  lemma ModifyKeeps(s: State, v: Disk, r: seq<nat>, b: nat, data: Block)
    requires Inv(s, v, r) && b < |s.bufs| && s.bufs[b].refcnt > 0 && s.bufs[b].valid
    ensures Inv(Modify(s, b, data), v[s.bufs[b].no := data], r)
  {
    var no := s.bufs[b].no;
    var buf := s.bufs[b].(data := data);
    var t := Modify(s, b, data);
    var w := v[no := data];
    FirstWinsUpdate(s, b, buf);
    CountedUpdate(s, r, b, buf);
    assert r[no := buf.refcnt] == r;
    forall c | 0 <= c < |t.bufs| && t.bufs[c].valid
      ensures t.bufs[c].data == w[t.bufs[c].no]
    {
      if c != b && t.bufs[c].no == no {
        OneInUse(s, b, c);
      }
    }
    forall n | 0 <= n < |w| && w[n] != t.disk[n]
      ensures exists c: nat :: Holds(t, n, c) && t.bufs[c].valid
    {
      if n == no {
        assert Holds(t, n, b) && t.bufs[b].valid;
      } else {
        var c: nat :| Holds(s, n, c) && s.bufs[c].valid;
        assert Holds(t, n, c) && t.bufs[c].valid;
      }
    }
  }

  lemma BwriteKeeps(s: State, v: Disk, r: seq<nat>, b: nat)
    requires Inv(s, v, r) && b < |s.bufs| && s.bufs[b].valid
    ensures Inv(Bwrite(s, b), v, r) && Bwrite(s, b).disk[s.bufs[b].no] == v[s.bufs[b].no]
  {
    var t := Bwrite(s, b);
    forall n | 0 <= n < |v| && v[n] != t.disk[n]
      ensures exists c: nat :: Holds(t, n, c) && t.bufs[c].valid
    {
      var c: nat :| Holds(s, n, c) && s.bufs[c].valid;
      assert Holds(t, n, c) && t.bufs[c].valid;
    }
    forall no | 0 <= no < |r| && r[no] > 0
      ensures Referenced(t, no)
    {
      var c: nat :| Holds(s, no, c);
      assert Holds(t, no, c);
    }
  }

  /** Changing the count of a buffer in use; it may drop to zero only if its block is on the disk. */
  lemma RecountKeeps(s: State, v: Disk, r: seq<nat>, b: nat, n: nat)
    requires Inv(s, v, r) && b < |s.bufs| && s.bufs[b].refcnt > 0 && n < WRAP
    requires n == 0 ==> v[s.bufs[b].no] == s.disk[s.bufs[b].no]
    ensures Inv(SetBuf(s, b, s.bufs[b].(refcnt := n)), v, r[s.bufs[b].no := n])
  {
    var buf := s.bufs[b].(refcnt := n);
    FirstWinsUpdate(s, b, buf);
    CoherentUpdate(s, v, b, buf);
    CountedUpdate(s, r, b, buf);
  }

  lemma MoveToFrontMembers(order: seq<int>, b: int)
    requires b in order && Distinct(order)
    ensures Distinct(MoveToFront(order, b)) && |MoveToFront(order, b)| == |order|
    ensures forall x :: x in MoveToFront(order, b) <==> x in order
  {
    var p := Position(order, b);
    var q := MoveToFront(order, b);
    forall x | x in order
      ensures x in q
    {
      var k :| 0 <= k < |order| && order[k] == x;
      assert q[if k < p then k + 1 else if k == p then 0 else k] == x;
    }
  }

  lemma BrelseWf(s: State, b: nat)
    requires Wf(s) && b < |s.bufs|
    ensures b in s.order && Wf(Brelse(s, b))
  {
    hide MoveToFront, Position;
    MoveToFrontMembers(s.order, b);
    var t := Brelse(s, b);
    assert forall i :: 0 <= i < |t.order| ==> t.order[i] in t.order;
  }

  lemma MoveToFrontKeeps(s: State, v: Disk, r: seq<nat>, b: nat)
    requires Inv(s, v, r) && b < |s.bufs|
    requires forall c: nat :: c < |s.bufs| && c != b && s.bufs[c].no == s.bufs[b].no ==> s.bufs[c].Idle()
    ensures Inv(s.(order := MoveToFront(s.order, b)), v, r)
  {
    hide MoveToFront, Position;
    var t := s.(order := MoveToFront(s.order, b));
    MoveToFrontMembers(s.order, b);
    assert Wf(t) by {
      assert forall i :: 0 <= i < |t.order| ==> t.order[i] in t.order;
    }
    FrontFirstWins(s, t, b);
    OrderFrame(s, t, v, r);
  }

  lemma FrontFirstWins(s: State, t: State, b: nat)
    requires Wf(s) && FirstWins(s) && Wf(t) && b < |s.bufs| && t == s.(order := MoveToFront(s.order, b))
    requires forall c: nat :: c < |s.bufs| && c != b && s.bufs[c].no == s.bufs[b].no ==> s.bufs[c].Idle()
    ensures FirstWins(t)
  {
    var p := Position(s.order, b);
    forall i, j | 0 <= i < j < |t.order| && t.bufs[t.order[i]].no == t.bufs[t.order[j]].no
      ensures t.bufs[t.order[j]].Idle()
    {
      if i > 0 {
        var i', j' := if i <= p then i - 1 else i, if j <= p then j - 1 else j;
        assert s.order[i'] == t.order[i] && s.order[j'] == t.order[j];
      }
    }
  }

  lemma OrderFrame(s: State, t: State, v: Disk, r: seq<nat>)
    requires Wf(s) && Wf(t) && Coherent(s, v) && Counted(s, r) && t.bufs == s.bufs && t.disk == s.disk
    ensures Coherent(t, v) && Counted(t, r)
  {
    forall n | 0 <= n < |v| && v[n] != t.disk[n]
      ensures exists c: nat :: Holds(t, n, c) && t.bufs[c].valid
    {
      var c: nat :| Holds(s, n, c) && s.bufs[c].valid;
      assert Holds(t, n, c) && t.bufs[c].valid;
    }
    forall no | 0 <= no < |r| && r[no] > 0
      ensures Referenced(t, no)
    {
      var c: nat :| Holds(s, no, c);
      assert Holds(t, no, c);
    }
  }

  /** A referenced block has no other buffer in use. */
  lemma AloneInUse(s: State, v: Disk, r: seq<nat>, b: nat)
    requires Inv(s, v, r) && b < |s.bufs| && s.bufs[b].refcnt > 0
    ensures forall c: nat :: c < |s.bufs| && c != b && s.bufs[c].no == s.bufs[b].no ==> s.bufs[c].Idle()
  {
    forall c: nat | c < |s.bufs| && c != b && s.bufs[c].no == s.bufs[b].no ensures s.bufs[c].Idle() {
      OneInUse(s, b, c);
    }
  }

  /** brelse drops a reference; the last one only for a block whose contents are on the disk. */
  lemma BrelseKeeps(s: State, v: Disk, r: seq<nat>, b: nat)
    requires Inv(s, v, r) && b < |s.bufs| && s.bufs[b].refcnt > 0
    requires s.bufs[b].refcnt == 1 ==> v[s.bufs[b].no] == s.disk[s.bufs[b].no]
    ensures Inv(Brelse(s, b), v, r[s.bufs[b].no := s.bufs[b].refcnt - 1])
  {
    var n := s.bufs[b].refcnt - 1;
    LockKeeps(s, v, r, b, false);
    AloneInUse(s, v, r, b);
    var l := SetBuf(s, b, s.bufs[b].(locked := false));
    RecountKeeps(l, v, r, b, n);
    var t := SetBuf(s, b, s.bufs[b].(locked := false, refcnt := n));
    assert t == SetBuf(l, b, l.bufs[b].(refcnt := n));
    hide Inv;
    if n == 0 {
      MoveToFrontKeeps(t, v, r[s.bufs[b].no := n], b);
    }
  }

  /** A block nobody references is the same on the disk as on the flat disk. */
  lemma UnreferencedIsClean(s: State, v: Disk, r: seq<nat>, no: int)
    requires Inv(s, v, r) && 0 <= no < |s.disk| && r[no] == 0
    ensures v[no] == s.disk[no]
  {}

  // ---- enough buffers ----

  lemma {:induction false} DistinctCard(q: seq<int>, s: set<int>)
    requires Distinct(q) && forall i :: 0 <= i < |q| ==> q[i] in s
    ensures |q| <= |s|
    decreases |q|
  {
    if q != [] {
      DistinctCard(q[..|q| - 1], s - {q[|q| - 1]});
    }
  }

  /** If fewer blocks than there are buffers are referenced, some buffer is unused. */
  lemma SomeUnused(s: State, v: Disk, r: seq<nat>, used: set<int>)
    requires Inv(s, v, r) && |used| < |s.bufs| && forall no :: 0 <= no < |r| && r[no] > 0 ==> no in used
    ensures exists c :: 0 <= c < |s.bufs| && s.bufs[c].refcnt == 0
  {
    if forall c :: 0 <= c < |s.bufs| ==> s.bufs[c].refcnt > 0 {
      var nos := seq(|s.bufs|, c requires 0 <= c < |s.bufs| => s.bufs[c].no);
      forall c, d | 0 <= c < d < |nos|
        ensures nos[c] != nos[d]
      {
        if nos[c] == nos[d] {
          OneInUse(s, c, d);
        }
      }
      DistinctCard(nos, used);
    }
  }

  /** If as many blocks are referenced as there are buffers, none is unused. */
  lemma NoneUnused(s: State, v: Disk, r: seq<nat>, blocks: seq<int>)
    requires Inv(s, v, r) && Distinct(blocks) && |blocks| >= |s.bufs|
    requires forall i :: 0 <= i < |blocks| ==> 0 <= blocks[i] < |r| && r[blocks[i]] > 0
    ensures forall c :: 0 <= c < |s.bufs| ==> s.bufs[c].refcnt > 0
  {
    if c :| 0 <= c < |s.bufs| && s.bufs[c].refcnt == 0 {
      var bs := Holders(s, v, r, blocks);
      DistinctCard(bs, BufsBelow(|s.bufs|) - {c});
    }
  }

  function BufsBelow(n: nat): (t: set<int>)
    ensures |t| == n && forall b :: b in t <==> 0 <= b < n
  {
    if n == 0 then {} else BufsBelow(n - 1) + {n - 1}
  }

  lemma {:induction false} Holders(s: State, v: Disk, r: seq<nat>, blocks: seq<int>) returns (bs: seq<int>)
    requires Inv(s, v, r) && Distinct(blocks)
    requires forall i :: 0 <= i < |blocks| ==> 0 <= blocks[i] < |r| && r[blocks[i]] > 0
    ensures |bs| == |blocks| && Distinct(bs) && forall i :: 0 <= i < |bs| ==> bs[i] >= 0 && Holds(s, blocks[i], bs[i])
    decreases |blocks|
  {
    if blocks == [] {
      bs := [];
    } else {
      var last := blocks[|blocks| - 1];
      bs := Holders(s, v, r, blocks[..|blocks| - 1]);
      assert Referenced(s, last);
      var b: nat :| Holds(s, last, b);
      bs := bs + [b];
    }
  }
}
