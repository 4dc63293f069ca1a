/** The logging layer of kernel/log.c over the buffer cache.

    `view` is the flat disk that the cache refines and `refs` the references per block. The
    methods that write to the disk are proved to make exactly the writes of LogSpec, so that
    what LogSpec proves about cutting those writes short holds of them. */
module Log {
  import opened Ring
  import opened LogSpec
  import opened Bcache
  import S = BcacheSpec

  ghost predicate HasUnused(s: S.State) {
    exists c :: 0 <= c < |s.bufs| && s.bufs[c].refcnt == 0
  }

  lemma UnusedSuffices(s: S.State, no: int)
    requires S.Wf(s) && 0 <= no < |s.disk| && HasUnused(s)
    ensures S.Bread(s, no).Got?
  {
    S.BgetFails(s, no);
  }

  lemma CountIs(s: S.State, v: Disk, r: seq<nat>, b: nat)
    requires S.Inv(s, v, r) && b < |s.bufs| && s.bufs[b].refcnt > 0
    ensures 0 <= s.bufs[b].no < |r| == |v| == |s.disk| && r[s.bufs[b].no] == s.bufs[b].refcnt
  {}

  lemma UnusedIff(s: S.State, v: Disk, r: seq<nat>, no: int)
    requires S.Inv(s, v, r) && 0 <= no < |s.disk| == |r| && r[no] == 0
    ensures S.Bread(s, no).Got? <==> HasUnused(s)
  {
    S.BgetFails(s, no);
    if !HasUnused(s) {
      assert forall c: nat :: c < |s.bufs| ==> r[s.bufs[c].no] == s.bufs[c].refcnt;
    }
  }

  lemma ReferencedIsCached(s: S.State, v: Disk, r: seq<nat>, no: int)
    requires S.Inv(s, v, r) && 0 <= no < |s.disk| && r[no] > 0
    ensures S.Bread(s, no).Got?
  {
    assert S.Referenced(s, no);
    S.BgetFails(s, no);
  }

  // ---- the bodies of the two copying loops ----

  /** Two buffers read one after the other, `a` then `b`. */
  ghost predicate ReadBoth(s: S.State, t: S.State, a: int, b: int, x: nat, y: nat) {
    && S.Wf(s) && 0 <= a < |s.disk| && 0 <= b < |s.disk|
    && S.Bread(s, a).Got? && x == S.Bread(s, a).b
    && S.Wf(S.Bread(s, a).s) && |S.Bread(s, a).s.disk| == |s.disk|
    && S.Bread(S.Bread(s, a).s, b) == S.Got(t, y)
  }

  lemma ReadBothKeeps(s: S.State, t: S.State, v: Disk, r: seq<nat>, a: int, b: int, x: nat, y: nat)
    requires S.Inv(s, v, r) && ReadBoth(s, t, a, b, x, y) && a != b && r[a] + 1 < S.WRAP && r[b] + 1 < S.WRAP
    ensures S.Inv(t, v, r[a := r[a] + 1][b := r[b] + 1]) && t.disk == s.disk && |t.bufs| == |s.bufs|
    ensures x < |t.bufs| && y < |t.bufs| && x != y
    ensures t.bufs[x] == S.Buf(true, a, r[a] + 1, true, v[a]) && t.bufs[y] == S.Buf(true, b, r[b] + 1, true, v[b])
  {
    hide S.Inv, S.Bread;
    Lengths(s, v, r);
    S.BreadKeeps(s, v, r, a);
    S.BreadKeeps(S.Bread(s, a).s, v, r[a := r[a] + 1], b);
  }

  lemma Lengths(s: S.State, v: Disk, r: seq<nat>)
    requires S.Inv(s, v, r)
    ensures |v| == |s.disk| && |r| == |s.disk|
  {}

  /** Write data to the block of buffer b and through to the disk. */
  function Put(s: S.State, b: nat, data: Block): S.State
    requires b < |s.bufs| && 0 <= s.bufs[b].no < |s.disk|
  {
    S.Bwrite(S.Modify(s, b, data), b)
  }

  lemma PutKeeps(s: S.State, v: Disk, r: seq<nat>, b: nat, data: Block)
    requires S.Inv(s, v, r) && b < |s.bufs| && s.bufs[b].refcnt > 0 && s.bufs[b].valid
    ensures var z := Put(s, b, data);
            && S.Inv(z, v[s.bufs[b].no := data], r) && z.disk == s.disk[s.bufs[b].no := data]
            && z.bufs == s.bufs[b := s.bufs[b].(data := data)] && z.order == s.order
  {
    S.ModifyKeeps(s, v, r, b, data);
    S.BwriteKeeps(S.Modify(s, b, data), v[s.bufs[b].no := data], r, b);
  }

  lemma ReleaseKeeps(s: S.State, v: Disk, r: seq<nat>, b: nat)
    requires S.Inv(s, v, r) && b < |s.bufs| && s.bufs[b].refcnt > 0
    requires s.bufs[b].refcnt == 1 ==> v[s.bufs[b].no] == s.disk[s.bufs[b].no]
    ensures b in s.order
    ensures var z := S.Brelse(s, b);
            && S.Inv(z, v, r[s.bufs[b].no := s.bufs[b].refcnt - 1]) && z.disk == s.disk
            && z.bufs == s.bufs[b := s.bufs[b].(locked := false, refcnt := s.bufs[b].refcnt - 1)]
  {
    S.BrelseKeeps(s, v, r, b);
  }

  /** The effect of write_log's body, from block src to log block dst. */
  ghost predicate LogCopied(s: S.State, t: S.State, z: S.State, x: nat, y: nat, data: Block) {
    && x < |t.bufs| && y < |t.bufs| && 0 <= t.bufs[x].no < |t.disk|
    && var w := Put(t, x, data);
    && y in w.order
    && var u := S.Brelse(w, y);
    && x in u.order && x < |u.bufs|
    && z == S.Brelse(u, x)
  }

  lemma LogCopyKeeps(s: S.State, t: S.State, z: S.State, v: Disk, r: seq<nat>, dst: int, src: int, x: nat, y: nat)
    requires S.Inv(s, v, r) && ReadBoth(s, t, dst, src, x, y) && dst != src
    requires r[dst] == 0 && 1 <= r[src] && r[src] + 1 < S.WRAP
    requires LogCopied(s, t, z, x, y, v[src])
    ensures S.Inv(z, v[dst := v[src]], r) && z.disk == s.disk[dst := v[src]] && HasUnused(z) && |z.bufs| == |s.bufs|
  {
    hide S.Inv, S.Brelse, Put, S.Bread;
    Lengths(s, v, r);
    ReadBothKeeps(s, t, v, r, dst, src, x, y);
    var v' := v[dst := v[src]];
    var r1: seq<nat> := r[dst := r[dst] + 1][src := r[src] + 1];
    PutKeeps(t, v, r1, x, v[src]);
    var w := Put(t, x, v[src]);
    ReleaseKeeps(w, v', r1, y);
    var u := S.Brelse(w, y);
    var r2: seq<nat> := r1[src := r[src]];
    ReleaseKeeps(u, v', r2, x);
    assert r2[dst := r[dst]] == r;
    assert z.bufs[x].refcnt == 0;
  }

  /** The effect of install_trans' body, from log block src to block dst. */
  ghost predicate HomeCopied(s: S.State, t: S.State, z: S.State, x: nat, y: nat, data: Block) {
    && x < |t.bufs| && y < |t.bufs| && 0 <= t.bufs[y].no < |t.disk|
    && y < |Put(t, y, data).bufs|
    && var w := S.Bunpin(Put(t, y, data), y);
    && x in w.order && x < |w.bufs|
    && var u := S.Brelse(w, x);
    && y in u.order && y < |u.bufs|
    && z == S.Brelse(u, y)
  }

  /** The home block gets the logged contents and loses a reference. */
  lemma HomeCopyKeeps(s: S.State, t: S.State, z: S.State, v: Disk, r: seq<nat>, src: int, dst: int, x: nat, y: nat)
    requires S.Inv(s, v, r) && ReadBoth(s, t, src, dst, x, y) && dst != src
    requires r[src] == 0 && v[src] == s.disk[src] && r[dst] + 1 < S.WRAP
    requires HomeCopied(s, t, z, x, y, v[src])
    ensures S.Inv(z, v[dst := v[src]], r[dst := S.Dec(r[dst])]) && z.disk == s.disk[dst := v[src]] && HasUnused(z)
    ensures |z.bufs| == |s.bufs|
  {
    hide S.Inv, S.Brelse, Put, S.Bread;
    Lengths(s, v, r);
    ReadBothKeeps(s, t, v, r, src, dst, x, y);
    var v' := v[dst := v[src]];
    var r1: seq<nat> := r[src := r[src] + 1][dst := r[dst] + 1];
    PutKeeps(t, v, r1, y, v[src]);
    var n := Put(t, y, v[src]);
    S.RecountKeeps(n, v', r1, y, r[dst]);
    var w := S.Bunpin(n, y);
    assert n.bufs[y].no == dst && S.Dec(n.bufs[y].refcnt) == r[dst];
    assert w == S.SetBuf(n, y, n.bufs[y].(refcnt := r[dst]));
    var r2: seq<nat> := r1[dst := r[dst]];
    ReleaseKeeps(w, v', r2, x);
    var u := S.Brelse(w, x);
    assert r2[src := r[src]] == r;
    assert u.bufs[x].refcnt == 0;
    if r[dst] > 0 {
      ReleaseKeeps(u, v', r, y);
    } else {
      StuckKeeps(u, v', r, y);
    }
    assert z.bufs[x].refcnt == 0;
  }

  /** brelse of a buffer whose count is already 0 wraps the count round: the buffer is then
      counted as referenced and its place in the list stays. */
  lemma StuckKeeps(s: S.State, v: Disk, r: seq<nat>, b: nat)
    requires S.Inv(s, v, r) && b < |s.bufs| && s.bufs[b].refcnt == 0 && s.bufs[b].valid
    ensures b in s.order && S.Inv(S.Brelse(s, b), v, r[s.bufs[b].no := S.WRAP - 1])
    ensures var z := S.Brelse(s, b);
            z.disk == s.disk && z.bufs == s.bufs[b := s.bufs[b].(locked := false, refcnt := S.WRAP - 1)]
  {
    var buf := s.bufs[b].(locked := false, refcnt := S.WRAP - 1);
    S.FirstWinsUpdate(s, b, buf);
    S.CoherentUpdate(s, v, b, buf);
    S.CountedUpdate(s, r, b, buf);
  }

  // ---- write_head ----

  /** The effect of write_head on the cache. */
  ghost predicate HeadWritten(t: S.State, z: S.State, x: nat, hdr: Block) {
    && x < |t.bufs| && 0 <= t.bufs[x].no < |t.disk|
    && var w := Put(t, x, hdr);
    && x in w.order && x < |w.bufs|
    && z == S.Brelse(w, x)
  }

  lemma HeadKeeps(s: S.State, t: S.State, z: S.State, v: Disk, r: seq<nat>, no: int, x: nat, hdr: Block)
    requires S.Inv(s, v, r) && 0 <= no < |s.disk| && r[no] == 0 && S.Bread(s, no) == S.Got(t, x)
    requires HeadWritten(t, z, x, hdr)
    ensures S.Inv(z, v[no := hdr], r) && z.disk == s.disk[no := hdr] && HasUnused(z) && |z.bufs| == |s.bufs|
  {
    hide S.Inv, S.Brelse, Put;
    Lengths(s, v, r);
    S.BreadKeeps(s, v, r, no);
    var r1: seq<nat> := r[no := r[no] + 1];
    PutKeeps(t, v, r1, x, hdr);
    ReleaseKeeps(Put(t, x, hdr), v[no := hdr], r1, x);
    assert r1[no := r[no]] == r;
    assert z.bufs[x].refcnt == 0;
  }

  // ---- the log ----

  /** Contents of the given blocks. */
  ghost function ContentsOf(view: Disk, blocks: seq<int>): (d: seq<Block>)
    requires forall i :: 0 <= i < |blocks| ==> 0 <= blocks[i] < |view|
    ensures |d| == |blocks| && forall i :: 0 <= i < |blocks| ==> d[i] == view[blocks[i]]
  {
    seq(|blocks|, i requires 0 <= i < |blocks| => view[blocks[i]])
  }

  lemma HeaderIs(was: Block, lh: seq<int>, hb: Block)
    requires |lh| <= LOGSIZE && hb[0] == |lh|
    requires (forall k :: 0 < k <= |lh| ==> hb[k] == lh[k - 1]) && (forall k :: |lh| < k < |hb| ==> hb[k] == was[k])
    ensures hb == Header(was, lh)
  {
    var h := Header(was, lh);
    forall k | 0 <= k < |hb| ensures hb[k] == h[k] {}
  }

  /** The loop of write_head. */
  method EncodeHeader(was: Block, lh: seq<int>) returns (hb: Block)
    requires |lh| <= LOGSIZE
    ensures hb == Header(was, lh)
  {
    hb := was[0 := |lh|];
    var i := 0;
    while i < |lh|
      invariant i <= |lh| && hb[0] == |lh|
      invariant (forall k :: 0 < k <= i ==> hb[k] == lh[k - 1]) && (forall k :: i < k < |hb| ==> hb[k] == was[k])
    {
      hb := hb[1 + i := lh[i]];
      i := i + 1;
    }
    HeaderIs(was, lh, hb);
  }

  /** The loop of read_head. */
  method DecodeHeader(hdr: Block) returns (lh: seq<int>)
    requires 0 <= hdr[0] <= LOGSIZE
    ensures lh == Logged(hdr)
  {
    lh := [];
    while |lh| < hdr[0]
      invariant |lh| <= hdr[0] && lh == hdr[1..1 + |lh|]
    {
      lh := lh + [hdr[1 + |lh|]];
    }
  }

  class Log {
    const cache: Cache
    const g: Geometry
    /** lh.block[0 .. lh.n) */
    var lh: seq<int>
    var outstanding: int
    var committing: bool
    ghost var view: Disk
    ghost var refs: seq<nat>

    ghost predicate Valid()
      reads this, cache, cache.list
    {
      cache.Valid() && S.Inv(cache.St(), view, refs) && Fits(g, cache.disk) && |lh| <= LOGSIZE
    }

    constructor (c: Cache, geo: Geometry)
      requires c.Valid() && Fits(geo, c.disk)
      requires forall b :: 0 <= b < |c.bufs| ==> !c.bufs[b].valid && c.bufs[b].refcnt == 0
      ensures Valid() && cache == c && g == geo && lh == [] && outstanding == 0 && !committing
      ensures view == c.disk && refs == seq(|c.disk|, _ => 0)
    {
      cache, g := c, geo;
      lh, outstanding, committing := [], 0, false;
      view, refs := c.disk, seq(|c.disk|, _ => 0);
    }

    /** write_head: write the in-memory header over the header block. False: bget panics. */
    method WriteHead() returns (ok: bool)
      requires Valid() && refs[g.start] == 0
      modifies this`view, cache, cache.list
      ensures Valid() && |cache.bufs| == old(|cache.bufs|)
      ensures old(HasUnused(cache.St())) ==> ok
      ensures ok ==>
                var hdr := Header(old(view[g.start]), lh);
                && cache.writes == old(cache.writes) + [Write(g.start, hdr)]
                && cache.disk == old(cache.disk)[g.start := hdr] && view == old(view)[g.start := hdr]
                && HasUnused(cache.St())
      ensures !ok ==> cache.writes == old(cache.writes) && cache.disk == old(cache.disk) && view == old(view)
    {
      hide S.Inv, S.Wf, S.Bread, S.Brelse, Header;
      Lengths(cache.St(), view, refs);
      ghost var s := cache.St();
      if HasUnused(s) {
        UnusedSuffices(s, g.start);
      }
      var buf := cache.Bread(g.start);
      if buf < 0 {
        return false;
      }
      S.BreadKeeps(s, view, refs, g.start);
      ghost var t := cache.St();
      var hb := EncodeHeader(cache.bufs[buf].data, lh);
      cache.SetData(buf, hb);
      cache.Bwrite(buf);
      cache.Brelse(buf);
      HeadKeeps(s, t, cache.St(), view, refs, g.start, buf, hb);
      view := view[g.start := hb];
      ok := true;
    }

    /** Read two blocks, one after the other: -1 when bget panics, for lack of a buffer for the first. */
    method ReadTwo(a: int, b: int) returns (x: int, y: int)
      requires Valid() && 0 <= a < |cache.disk| && 0 <= b < |cache.disk| && a != b
      requires refs[a] == 0 && 0 < refs[b] < S.WRAP - 1
      modifies cache`bufs
      ensures cache.Valid() && cache.disk == old(cache.disk) && cache.writes == old(cache.writes)
      ensures 0 <= x <==> old(HasUnused(cache.St()))
      ensures 0 <= x ==> 0 <= y && ReadBoth(old(cache.St()), cache.St(), a, b, x, y)
      ensures x < 0 ==> cache.St() == old(cache.St())
    {
      hide S.Bread, S.Inv;
      ghost var s := cache.St();
      Lengths(s, view, refs);
      UnusedIff(s, view, refs, a);
      x := cache.Bread(a);
      if x < 0 {
        return x, x;
      }
      S.BreadKeeps(s, view, refs, a);
      ReferencedIsCached(cache.St(), view, refs[a := refs[a] + 1], b);
      y := cache.Bread(b);
    }

    /** Body of write_log's loop. False: bget panics. */
    method CopyToLog(dst: int, src: int) returns (ok: bool)
      requires Valid() && 0 <= dst < |cache.disk| && 0 <= src < |cache.disk| && dst != src
      requires refs[dst] == 0 && 0 < refs[src] < S.WRAP - 1
      modifies this`view, cache, cache.list
      ensures Valid() && |cache.bufs| == old(|cache.bufs|) && (ok <==> old(HasUnused(cache.St())))
      ensures ok ==> HasUnused(cache.St())
      ensures ok ==> view == old(view)[dst := old(view)[src]] && cache.disk == old(cache.disk)[dst := old(view)[src]]
      ensures ok ==> cache.writes == old(cache.writes) + [Write(dst, old(view)[src])]
      ensures !ok ==> view == old(view) && cache.disk == old(cache.disk) && cache.writes == old(cache.writes)
    {
      hide S.Inv, S.Wf, S.Bread, S.Brelse;
      ghost var s := cache.St();
      Lengths(s, view, refs);
      var to, from := ReadTwo(dst, src);
      if to < 0 {
        return false;
      }
      ghost var t := cache.St();
      ReadBothKeeps(s, t, view, refs, dst, src, to, from);
      cache.SetData(to, cache.bufs[from].data);
      cache.Bwrite(to);
      cache.Brelse(from);
      BrelseOthers(S.Bwrite(S.Modify(t, to, t.bufs[from].data), to), from);
      cache.Brelse(to);
      LogCopyKeeps(s, t, cache.St(), view, refs, dst, src, to, from);
      view := view[dst := view[src]];
      ok := true;
    }

    /** Body of install_trans' loop: the block loses one reference, and a count of 0 wraps. */
    method CopyHome(src: int, dst: int, ghost used: seq<int>) returns (ok: bool)
      requires Valid() && HasUnused(cache.St()) && Distinct(used)
      requires forall no :: 0 <= no < |refs| ==> (refs[no] > 0 <==> no in used)
      requires forall i :: 0 <= i < |used| ==> 0 <= used[i] < |refs|
      requires 0 <= dst < |cache.disk| && 0 <= src < |cache.disk| && dst != src
      requires refs[src] == 0 && refs[dst] < S.WRAP - 1 && view[src] == cache.disk[src]
      modifies this`view, this`refs, cache, cache.list
      ensures Valid() && |cache.bufs| == old(|cache.bufs|)
      ensures ok <==> old(refs)[dst] > 0 || |used| + 1 < |cache.bufs|
      ensures ok ==>
                && HasUnused(cache.St())
                && view == old(view)[dst := old(view)[src]] && cache.disk == old(cache.disk)[dst := old(view)[src]]
                && refs == old(refs)[dst := S.Dec(old(refs)[dst])]
                && cache.writes == old(cache.writes) + [Write(dst, old(view)[src])]
      ensures !ok ==> cache.writes == old(cache.writes) && cache.disk == old(cache.disk) && view == old(view)
    {
      hide S.Inv, S.Wf, S.Bread, S.Brelse;
      ghost var s := cache.St();
      Lengths(s, view, refs);
      UnusedSuffices(s, src);
      var lbuf := cache.Bread(src);
      S.BreadKeeps(s, view, refs, src);
      ghost var r1: seq<nat> := refs[src := refs[src] + 1];
      SecondBread(cache.St(), view, refs, r1, src, dst, used);
      var dbuf := cache.Bread(dst);
      if dbuf < 0 {
        refs := r1;
        return false;
      }
      ghost var t := cache.St();
      ReadBothKeeps(s, t, view, refs, src, dst, lbuf, dbuf);
      ok := true;
      Install(s, src, dst, lbuf, dbuf);
    }

    /** The rest of the body, once both buffers are locked. */
    method Install(ghost s: S.State, src: int, dst: int, lbuf: nat, dbuf: nat)
      requires cache.Valid() && S.Inv(s, view, refs) && 0 <= dst < |cache.disk| && 0 <= src < |cache.disk| && dst != src
      requires |view| == |refs| == |cache.disk| && s.disk == cache.disk && |lh| <= LOGSIZE && Fits(g, cache.disk)
      requires refs[src] == 0 && refs[dst] < S.WRAP - 1 && view[src] == cache.disk[src]
      requires ReadBoth(s, cache.St(), src, dst, lbuf, dbuf)
      modifies this`view, this`refs, cache, cache.list
      ensures Valid() && HasUnused(cache.St()) && |cache.bufs| == old(|cache.bufs|)
      ensures view == old(view)[dst := old(view)[src]] && cache.disk == old(cache.disk)[dst := old(view)[src]]
      ensures refs == old(refs)[dst := S.Dec(old(refs)[dst])]
      ensures cache.writes == old(cache.writes) + [Write(dst, old(view)[src])]
    {
      hide S.Inv, S.Wf, S.Bread, S.Brelse;
      ghost var t := cache.St();
      ReadBothKeeps(s, t, view, refs, src, dst, lbuf, dbuf);
      cache.SetData(dbuf, cache.bufs[lbuf].data);
      cache.Bwrite(dbuf);
      cache.Bunpin(dbuf);
      ghost var w := cache.St();
      cache.Brelse(lbuf);
      BrelseOthers(w, lbuf);
      cache.Brelse(dbuf);
      HomeCopyKeeps(s, t, cache.St(), view, refs, src, dst, lbuf, dbuf);
      view := view[dst := view[src]];
      refs := refs[dst := S.Dec(refs[dst])];
    }

    /** Every logged block is pinned once and nothing else is referenced. */
    ghost predicate OnlyPins()
      reads this
    {
      forall no :: 0 <= no < |refs| ==> refs[no] == if no in lh then 1 else 0
    }

    /** The log blocks on the disk are as the flat disk has them. */
    ghost predicate LogOnDisk()
      reads this, cache
    {
      |view| == |cache.disk| && forall no :: 0 <= no < |view| && InLog(g, no) ==> view[no] == cache.disk[no]
    }

    /** write_log. With all buffers pinned there is none for the first log block, and bget panics. */
    method WriteLog() returns (ok: bool)
      requires Valid() && Loggable(g, cache.disk, lh) && OnlyPins() && LogOnDisk()
      modifies this`view, cache, cache.list
      ensures Valid() && |cache.bufs| == old(|cache.bufs|) && |old(view)| == |old(cache.disk)|
      ensures ok <==> |lh| == 0 || |lh| < |cache.bufs|
      ensures ok ==>
                var ws := LogWrites(g, ContentsOf(old(view), lh));
                && LogProgress(g, old(cache.disk), old(view), cache.disk, view, ws, |lh|)
                && cache.writes == old(cache.writes) + ws[..|lh|]
      ensures !ok ==> view == old(view) && cache.disk == old(cache.disk) && cache.writes == old(cache.writes)
    {
      Lengths(cache.St(), view, refs);
      hide S.Inv, S.Wf, AllRings, HasUnused, LogProgress;
      ghost var ws := LogWrites(g, ContentsOf(view, lh));
      LogProgressStart(g, cache.disk, view, ws);
      var tail := 0;
      while tail < |lh|
        invariant tail <= |lh| && Valid() && |cache.bufs| == old(|cache.bufs|) && (tail > 0 ==> |lh| < |cache.bufs|)
        invariant LogProgress(g, old(cache.disk), old(view), cache.disk, view, ws, tail)
        invariant cache.writes == old(cache.writes) + ws[..tail]
        invariant tail == 0 ==> view == old(view) && cache.disk == old(cache.disk)
      {
        ok := LogStep(tail, old(cache.disk), old(view), ws);
        if !ok {
          return;
        }
        tail := tail + 1;
      }
      ok := true;
    }

    /** One turn of write_log's loop. */
    method LogStep(tail: nat, ghost d0: Disk, ghost v0: Disk, ghost ws: seq<Write>) returns (ok: bool)
      requires Valid() && tail < |lh| && OnlyPins() && |v0| == |d0| && Loggable(g, d0, lh)
      requires LogProgress(g, d0, v0, cache.disk, view, ws, tail) && ws == LogWrites(g, ContentsOf(v0, lh))
      modifies this`view, cache, cache.list
      ensures Valid() && |cache.bufs| == old(|cache.bufs|) && (ok <==> |lh| < |cache.bufs|)
      ensures ok ==> LogProgress(g, d0, v0, cache.disk, view, ws, tail + 1)
      ensures ok ==> cache.writes == old(cache.writes) + [ws[tail]] && ws[..tail + 1] == ws[..tail] + [ws[tail]]
      ensures !ok ==> view == old(view) && cache.disk == old(cache.disk) && cache.writes == old(cache.writes)
    {
      hide S.Inv, S.Wf, AllRings, HasUnused, LogProgress, Loggable, ContentsOf, LogWrites, Distinct;
      Lengths(cache.St(), view, refs);
      LogProgressStep(g, d0, v0, cache.disk, view, ws, tail, lh);
      assert refs[g.start + tail + 1] == 0 && refs[lh[tail]] == 1;
      LogInRange(g, d0, lh);
      PinsFill(cache.St(), view, refs, lh);
      hide OnlyPins, Fits;
      ok := CopyToLog(g.start + tail + 1, lh[tail]);
    }

    /** Either all logged blocks are pinned and nothing else is referenced, as in commit, or
        nothing is referenced at all, as in recovery, when each block takes a buffer for good. */
    ghost predicate Installable()
      reads this, cache
    {
      OnlyPins() || forall no :: 0 <= no < |refs| ==> refs[no] == 0
    }

    /** install_trans. In recovery it takes a buffer for good per block, and panics for lack of
        buffers, having installed `done` blocks, when there are not more buffers than blocks. */
    method InstallTrans() returns (ok: bool, ghost done: nat)
      requires Valid() && Loggable(g, cache.disk, lh) && LogOnDisk() && HasUnused(cache.St()) && Installable()
      modifies this`view, this`refs, cache, cache.list
      ensures Valid() && (ok ==> HasUnused(cache.St())) && |cache.bufs| == old(|cache.bufs|)
      ensures g.start + |lh| < |old(cache.disk)|
      ensures ok <==> old(OnlyPins()) || |lh| < |cache.bufs|
      ensures done == if ok then |lh| else |cache.bufs| - 1
      ensures var ws := HomeWrites(lh, LogData(g, old(cache.disk), |lh|));
              && done <= |ws| && HomeProgress(g, old(cache.disk), old(view), cache.disk, view, ws, done)
              && cache.writes == old(cache.writes) + ws[..done]
      ensures ok ==> Dropped(old(refs), refs, lh)
    {
      hide S.Inv, S.Wf, AllRings, HomeProgress;
      Lengths(cache.St(), view, refs);
      LogFits(g, cache.disk, lh);
      ghost var ws := HomeWrites(lh, LogData(g, cache.disk, |lh|));
      HomeProgressStart(g, cache.disk, view, ws);
      DroppedNone(refs);
      assert lh[..0] == [] && |cache.bufs| > 0;
      hide HasUnused;
      ghost var pins := OnlyPins();
      var tail := 0;
      while tail < |lh|
        invariant tail <= |lh| && Valid() && HasUnused(cache.St()) && |cache.bufs| == old(|cache.bufs|)
        invariant HomeProgress(g, old(cache.disk), old(view), cache.disk, view, ws, tail)
        invariant cache.writes == old(cache.writes) + ws[..tail]
        invariant Dropped(old(refs), refs, lh[..tail]) && (pins || tail < |cache.bufs|)
      {
        ok := InstallStep(tail, old(cache.disk), old(view), old(refs), ws, pins);
        if !ok {
          return false, tail;
        }
        tail := tail + 1;
      }
      assert lh[..tail] == lh;
      return true, tail;
    }

    /** One turn of install_trans' loop. */
    method InstallStep(tail: nat, ghost d0: Disk, ghost v0: Disk, ghost r0: seq<nat>, ghost ws: seq<Write>,
                       ghost pins: bool) returns (ok: bool)
      requires Valid() && tail < |lh| && HasUnused(cache.St()) && Loggable(g, d0, lh) && 0 <= g.start
      requires g.start + |lh| < |d0|
      requires HomeProgress(g, d0, v0, cache.disk, view, ws, tail) && ws == HomeWrites(lh, LogData(g, d0, |lh|))
      requires Dropped(r0, refs, lh[..tail])
      requires forall no :: 0 <= no < |r0| ==> r0[no] == if pins && no in lh then 1 else 0
      modifies this`view, this`refs, cache, cache.list
      ensures Valid() && |cache.bufs| == old(|cache.bufs|) && (ok <==> pins || tail + 1 < |cache.bufs|)
      ensures ok ==> HasUnused(cache.St()) && HomeProgress(g, d0, v0, cache.disk, view, ws, tail + 1)
      ensures ok ==> cache.writes == old(cache.writes) + [ws[tail]] && ws[..tail + 1] == ws[..tail] + [ws[tail]]
      ensures ok ==> Dropped(r0, refs, lh[..tail + 1])
      ensures !ok ==> cache.writes == old(cache.writes) && HomeProgress(g, d0, v0, cache.disk, view, ws, tail)
    {
      hide S.Inv, S.Wf, AllRings, HasUnused, HomeProgress, Loggable, LogData, HomeWrites, Dropped, Distinct, S.Dec,
        Fits;
      Lengths(cache.St(), view, refs);
      HomeProgressStep(g, d0, v0, cache.disk, view, ws, tail, lh);
      DroppedLength(r0, refs, lh[..tail]);
      LogInRange(g, d0, lh);
      ghost var used := DropStep(g, r0, refs, lh, tail, pins);
      ok := CopyHome(g.start + tail + 1, lh[tail], used);
    }

    /** No operation is under way: only the logged blocks are referenced, once each, and only they
        differ from the disk; the log on the disk is empty. */
    ghost predicate Quiet()
      reads this, cache, cache.list
    {
      && Valid() && Loggable(g, cache.disk, lh) && LogEmpty(g, cache.disk) && OnlyPins()
    }

    /** The transaction that commit would write now. */
    ghost function Pending(): Txn
      requires Quiet()
      reads this, cache, cache.list
    {
      Txn(lh, ContentsOf(view, lh))
    }

    /** commit: makes exactly the writes of CommitWrites, and leaves the cache clean. It panics, before
        the first write, exactly when every buffer is pinned by a logged block. */
    method Commit() returns (ok: bool)
      requires Quiet()
      modifies this`view, this`refs, this`lh, cache, cache.list
      ensures Valid() && |cache.bufs| == old(|cache.bufs|)
      ensures ok <==> old(|lh|) == 0 || old(|lh|) < |cache.bufs|
      ensures ok ==> Quiet() && lh == [] && view == cache.disk && SameHome(g, view, old(view))
      ensures ok ==> old(TxnOk(g, cache.disk, Pending()))
      ensures ok ==>
                var ws := CommitWrites(g, old(cache.disk), old(Pending()));
                && OnDisk(old(cache.disk), ws)
                && cache.writes == old(cache.writes) + ws && cache.disk == Apply(old(cache.disk), ws)
      ensures !ok ==> cache.writes == old(cache.writes) && cache.disk == old(cache.disk) && view == old(view)
      ensures !ok ==> lh == old(lh) && refs == old(refs)
    {
      hide S.Inv, S.Wf, AllRings, HasUnused, Header;
      QuietFacts(cache.St(), view, refs, g, lh);
      ok := true;
      if |lh| > 0 {
        ok := CommitBody();
        if !ok {
          return;
        }
        FinishCommit(old(cache.disk), old(view), old(Pending()), old(cache.writes));
      }
      AllClean(cache.St(), view, refs);
    }

    /** commit's last two statements: forget the transaction and clear the header. */
    method FinishCommit(ghost d0: Disk, ghost v0: Disk, ghost t: Txn, ghost w0: seq<Write>)
      requires Valid() && HasUnused(cache.St()) && (forall no :: 0 <= no < |refs| ==> refs[no] == 0)
      requires t.blocks != [] && Installed(g, d0, v0, t, cache.disk, view)
      requires cache.writes == w0 + InstalledWrites(g, d0, t)
      modifies this`view, this`lh, cache, cache.list
      ensures Valid() && lh == [] && LogEmpty(g, cache.disk) && SameHome(g, view, v0)
      ensures |cache.bufs| == old(|cache.bufs|)
      ensures var ws := CommitWrites(g, d0, t); OnDisk(d0, ws) && cache.writes == w0 + ws && cache.disk == Apply(d0, ws)
    {
      hide S.Inv, S.Wf, AllRings, HasUnused, Header, Apply, LogWrites, HomeWrites;
      lh := [];
      ghost var d3, v3 := cache.disk, view;
      Lengths(cache.St(), view, refs);
      var ok := WriteHead();
      CommitFinal(g, d0, v0, t, d3, v3, cache.disk, view);
      Append(w0, InstalledWrites(g, d0, t), [Write(g.start, Header(v3[g.start], []))]);
    }

    /** commit up to the point where the header is to be cleared. */
    method CommitBody() returns (ok: bool)
      requires Quiet() && |lh| > 0
      modifies this`view, this`refs, cache, cache.list
      ensures Valid() && |cache.bufs| == old(|cache.bufs|) && (ok <==> |lh| < |cache.bufs|)
      ensures ok ==> HasUnused(cache.St()) && forall no :: 0 <= no < |refs| ==> refs[no] == 0
      ensures ok ==> Installed(g, old(cache.disk), old(view), old(Pending()), cache.disk, view)
      ensures ok ==> cache.writes == old(cache.writes) + InstalledWrites(g, old(cache.disk), old(Pending()))
      ensures !ok ==> cache.writes == old(cache.writes) && cache.disk == old(cache.disk) && view == old(view)
      ensures !ok ==> refs == old(refs)
    {
      hide S.Inv, S.Wf, AllRings, HasUnused, Header, Apply, LogWrites, HomeWrites;
      ghost var d0, v0, t, w0 := cache.disk, view, Pending(), cache.writes;
      ok := CommitHeader();
      if !ok {
        return;
      }
      ghost var d2, v2 := cache.disk, view;
      ghost var w2 := LogWrites(g, t.data) + [Write(g.start, Header(d0[g.start], t.blocks))];
      AtHeaderFacts(g, d0, v0, t, d2, v2);
      ghost var done;
      ok, done := InstallTrans();
      CommitInstalled(g, d0, v0, t, d2, v2, cache.disk, view);
      Append(w0, w2, HomeWrites(t.blocks, t.data));
    }

    /** The log and the header, up to the real commit. */
    method CommitHeader() returns (ok: bool)
      requires Quiet() && |lh| > 0
      modifies this`view, cache, cache.list
      ensures Valid() && |cache.bufs| == old(|cache.bufs|) && (ok <==> |lh| < |cache.bufs|)
      ensures ok ==> HasUnused(cache.St()) && AtHeader(g, old(cache.disk), old(view), old(Pending()), cache.disk, view)
      ensures ok ==>
                var t := old(Pending());
                cache.writes == old(cache.writes) +
                  (LogWrites(g, t.data) + [Write(g.start, Header(old(cache.disk)[g.start], t.blocks))])
      ensures !ok ==> cache.writes == old(cache.writes) && cache.disk == old(cache.disk) && view == old(view)
    {
      ghost var d0, v0, t, w0 := cache.disk, view, Pending(), cache.writes;
      QuietFacts(cache.St(), view, refs, g, lh);
      hide S.Inv, S.Wf, AllRings, HasUnused, Header, Apply, LogWrites, LogProgress;
      ok := WriteLog();
      if !ok {
        return;
      }
      Lengths(cache.St(), view, refs);
      LogProgressFacts(g, d0, v0, cache.disk, view, LogWrites(g, t.data), |lh|);
      ghost var d1, v1 := cache.disk, view;
      LogInRange(g, d0, lh);
      PinsFill(cache.St(), view, refs, lh);
      ok := WriteHead();
      CommitMiddle(g, d0, v0, t, d1, v1, cache.disk, view);
      Append(w0, LogWrites(g, t.data), [Write(g.start, Header(d0[g.start], t.blocks))]);
    }

    /** read_head */
    method ReadHead()
      requires Valid() && refs[g.start] == 0 && LogOk(g, cache.disk) && HasUnused(cache.St())
      modifies this`lh, cache, cache.list
      ensures Valid() && HasUnused(cache.St()) && |cache.bufs| == old(|cache.bufs|)
      ensures cache.disk == old(cache.disk) && cache.writes == old(cache.writes) && lh == Logged(cache.disk[g.start])
    {
      hide S.Inv, S.Wf, S.Bread, S.Brelse, AllRings, Logged;
      Lengths(cache.St(), view, refs);
      ghost var s := cache.St();
      S.UnreferencedIsClean(s, view, refs, g.start);
      HeaderCount(g, s.disk);
      UnusedSuffices(s, g.start);
      var buf := cache.Bread(g.start);
      S.BreadKeeps(s, view, refs, g.start);
      var hdr := cache.bufs[buf].data;
      lh := DecodeHeader(hdr);
      ghost var r1: seq<nat> := refs[g.start := refs[g.start] + 1];
      ReleaseKeeps(cache.St(), view, r1, buf);
      cache.Brelse(buf);
      assert r1[g.start := refs[g.start]] == refs;
      assert cache.bufs[buf].refcnt == 0;
    }

    /** recover_from_log on a cache nobody uses: makes exactly the writes of RecoverWrites. Every
        reinstalled block keeps a buffer whose reference count has wrapped round to 2^32 - 1, so the
        counts are right afterwards exactly when the log was empty, and it panics, after a first
        part of the writes, exactly when there are not more buffers than logged blocks. */
    method RecoverFromLog() returns (ok: bool, ghost done: nat)
      requires Valid() && LogOk(g, cache.disk) && (forall no :: 0 <= no < |refs| ==> refs[no] == 0)
      modifies this`view, this`refs, this`lh, cache, cache.list
      ensures ok <==> |Logged(old(cache.disk)[g.start])| < |cache.bufs|
      ensures Valid() && |cache.bufs| == old(|cache.bufs|) && |refs| == |old(refs)|
      ensures var ws := RecoverWrites(g, old(cache.disk));
              && done <= |ws| && OnDisk(old(cache.disk), ws[..done])
              && cache.writes == old(cache.writes) + ws[..done] && cache.disk == Apply(old(cache.disk), ws[..done])
              && done == (if ok then |ws| else if |cache.bufs| == 0 then 0 else |cache.bufs| - 1)
      ensures ok ==> lh == [] && view == cache.disk && LogEmpty(g, cache.disk)
      ensures ok ==> forall no :: 0 <= no < |refs| ==>
                refs[no] == if no in Logged(old(cache.disk)[g.start]) then S.WRAP - 1 else 0
      ensures ok ==> ((forall no :: 0 <= no < |refs| ==> refs[no] == 0) <==> Logged(old(cache.disk)[g.start]) == [])
    {
      hide S.Inv, S.Wf, AllRings, HasUnused, Header, HomeWrites, Loggable;
      ghost var d0 := cache.disk;
      AllClean(cache.St(), view, refs);
      Lengths(cache.St(), view, refs);
      LoggedInRange(g, d0);
      if |cache.bufs| == 0 {
        return false, 0;  // bget panics in read_head
      }
      SomeBuffer(cache.St(), view, refs);
      ReadHead();
      ok, done := Reinstall(d0);
      assert ok && Logged(d0[g.start]) != [] ==> refs[Logged(d0[g.start])[0]] == S.WRAP - 1;
    }

    /** recover_from_log once the header is read. */
    method Reinstall(ghost d0: Disk) returns (ok: bool, ghost done: nat)
      requires Valid() && LogOk(g, d0) && d0 == cache.disk == view && lh == Logged(d0[g.start]) && HasUnused(cache.St())
      requires (forall no :: 0 <= no < |refs| ==> refs[no] == 0) && |cache.bufs| > 0 && |refs| == |view|
      modifies this`view, this`refs, this`lh, cache, cache.list
      ensures Valid() && (ok <==> |Logged(d0[g.start])| < |cache.bufs|) && |cache.bufs| == old(|cache.bufs|)
      ensures |refs| == |d0|
      ensures var ws := RecoverWrites(g, d0);
              && done <= |ws| && OnDisk(d0, ws[..done]) && cache.writes == old(cache.writes) + ws[..done]
              && cache.disk == Apply(d0, ws[..done])
              && done == if ok then |ws| else |cache.bufs| - 1
      ensures ok ==> lh == [] && view == cache.disk && LogEmpty(g, cache.disk)
      ensures ok ==> forall no :: 0 <= no < |refs| ==> refs[no] == if no in Logged(d0[g.start]) then S.WRAP - 1 else 0
    {
      hide S.Inv, S.Wf, AllRings, HasUnused, Header, Apply, HomeWrites, HomeProgress, LogData, OnDisk, Dropped, S.Dec,
        Distinct;
      ghost var w0, ws := cache.writes, RecoverWrites(g, d0);
      LogInRange(g, d0, lh);
      PinsNone(lh, refs);
      ok, done := InstallTrans();
      Lengths(cache.St(), view, refs);
      RecoverPart(g, d0, cache.disk, view, done);
      if !ok {
        return;
      }
      assert lh[..|lh|] == lh;
      WrappedRound(old(refs), refs, lh, |lh|);
      ClearRecovered(d0, w0);
      done := |ws|;
      assert ws[..done] == ws;
    }

    /** recover_from_log's last two statements. */
    method ClearRecovered(ghost d0: Disk, ghost w0: seq<Write>)
      requires Valid() && LogOk(g, d0) && HasUnused(cache.St()) && |refs| == |view| == |d0| && lh == Logged(d0[g.start])
      requires refs[g.start] == 0 && g.start + |lh| < |d0|
      requires var ws := HomeWrites(lh, LogData(g, d0, |lh|));
               HomeProgress(g, d0, d0, cache.disk, view, ws, |lh|) && cache.writes == w0 + ws[..|lh|]
      modifies this`view, this`lh, cache, cache.list
      ensures Valid() && |cache.bufs| == old(|cache.bufs|) && lh == [] && view == cache.disk && LogEmpty(g, cache.disk)
      ensures var ws := RecoverWrites(g, d0);
              OnDisk(d0, ws) && cache.writes == w0 + ws && cache.disk == Apply(d0, ws)
    {
      hide S.Inv, S.Wf, AllRings, HasUnused, Header, Apply, HomeWrites, HomeProgress, OnDisk;
      ghost var blocks, d1, v1 := lh, cache.disk, view;
      lh := [];
      RecoverMiddle(g, d0, d1, v1);
      var ok := WriteHead();
      RecoverFinal(g, d0, d1, v1, cache.disk);
      Append(w0, HomeWrites(blocks, LogData(g, d0, |blocks|)), [Write(g.start, Header(d0[g.start], []))]);
    }

    /** Log absorption: where block no is logged, or |lh|. */
    method FindLogged(no: int) returns (i: nat)
      ensures if no in lh then i < |lh| && lh[i] == no else i == |lh|
    {
      i := 0;
      while i < |lh|
        invariant i <= |lh| && no !in lh[..i]
      {
        if lh[i] == no {
          return;
        }
        i := i + 1;
      }
    }

    /** log_write by the holder of buffer b. False: one of the two panics. */
    method LogWrite(b: nat) returns (ok: bool)
      requires Valid() && b < |cache.bufs| && cache.bufs[b].refcnt > 0 && refs[cache.bufs[b].no] + 1 < S.WRAP
      modifies this`lh, this`refs, cache`bufs
      ensures ok <==> old(|lh|) < LOGSIZE && old(|lh|) < g.size - 1 && outstanding >= 1
      ensures Valid() && |cache.bufs| == old(|cache.bufs|)
      ensures var no := old(cache.bufs[b].no);
              if ok && no !in old(lh) then lh == old(lh) + [no] && refs == old(refs)[no := old(refs)[no] + 1]
              else lh == old(lh) && refs == old(refs)
      ensures cache.bufs == old(cache.bufs)[b := old(cache.bufs)[b].(refcnt := refs[old(cache.bufs)[b].no])]
    {
      CountIs(cache.St(), view, refs, b);
      hide S.Inv, S.Wf, AllRings;
      if |lh| >= LOGSIZE || |lh| >= g.size - 1 || outstanding < 1 {
        return false;
      }
      var no := cache.bufs[b].no;
      var i := FindLogged(no);
      ok := true;
      if i < |lh| {
        lh := lh[i := no];
        assert lh == old(lh);
      } else {
        S.RecountKeeps(cache.St(), view, refs, b, refs[no] + 1);
        cache.Bpin(b);
        refs := refs[no := refs[no] + 1];
        lh := lh + [no];
      }
    }

    /** The typical use of log_write: read a block, change it, log it, release it. False: a panic, for
        lack of a buffer or of room in the log. */
    method Update(no: int, data: Block) returns (ok: bool)
      requires Valid() && 0 <= no < |cache.disk| && refs[no] + 2 < S.WRAP && (no in lh ==> refs[no] > 0)
      modifies this`view, this`refs, this`lh, cache`bufs, cache.list
      ensures Valid() && |cache.bufs| == old(|cache.bufs|)
      ensures ok <==> old(refs[no] > 0 || HasUnused(cache.St())) && old(|lh|) < LOGSIZE && old(|lh|) < g.size - 1
                      && outstanding >= 1
      ensures ok ==> view == old(view)[no := data] && lh == if no in old(lh) then old(lh) else old(lh) + [no]
      ensures ok ==> refs == if no in old(lh) then old(refs) else old(refs)[no := old(refs)[no] + 1]
    {
      hide S.Inv, S.Wf, S.Bread, S.Brelse, AllRings, HasUnused;
      ghost var s, r0 := cache.St(), refs;
      Lengths(s, view, refs);
      if refs[no] > 0 { ReferencedIsCached(s, view, refs, no); } else { UnusedIff(s, view, refs, no); }
      var b := cache.Bread(no);
      if b < 0 {
        return false;
      }
      S.BreadKeeps(s, view, refs, no);
      refs := refs[no := refs[no] + 1];
      ok := ChangeAndLog(b, no, data);
      assert r0[no := r0[no] + 1][no := r0[no]] == r0;
      assert r0[no := r0[no] + 1][no := r0[no] + 1] == r0[no := r0[no] + 1];
    }

    /** The part after the read: the holder of buffer b changes its data, logs it and releases it. */
    method ChangeAndLog(b: nat, ghost no: int, data: Block) returns (ok: bool)
      requires Valid() && b < |cache.bufs| && cache.bufs[b].locked && cache.bufs[b].valid && cache.bufs[b].no == no
      requires |refs| == |view| == |cache.disk| && 0 <= no < |refs| && cache.bufs[b].refcnt == refs[no] > 0
      requires refs[no] + 1 < S.WRAP && (no in lh ==> refs[no] > 1)
      modifies this`view, this`refs, this`lh, cache`bufs, cache.list
      ensures Valid() && |cache.bufs| == old(|cache.bufs|)
      ensures ok <==> old(|lh|) < LOGSIZE && old(|lh|) < g.size - 1 && outstanding >= 1
      ensures ok ==> view == old(view)[no := data] && lh == if no in old(lh) then old(lh) else old(lh) + [no]
      ensures ok ==> refs == old(refs)[no := if no in old(lh) then old(refs)[no] - 1 else old(refs)[no]]
    {
      hide S.Inv, S.Wf, S.Bread, S.Brelse, AllRings;
      S.ModifyKeeps(cache.St(), view, refs, b, data);
      cache.SetData(b, data);
      view := view[no := data];
      ok := LogWrite(b);
      if ok {
        ReleaseKeeps(cache.St(), view, refs, b);
        cache.Brelse(b);
        refs := refs[no := refs[no] - 1];
      }
    }

    /** One turn of begin_op's loop: false means that the caller sleeps and tries again. */
    method BeginOp() returns (admitted: bool)
      modifies this`outstanding
      ensures admitted <==> !committing && |lh| + (old(outstanding) + 1) * MAXOPBLOCKS <= LOGSIZE
      ensures outstanding == old(outstanding) + if admitted then 1 else 0
    {
      if committing || |lh| + (outstanding + 1) * MAXOPBLOCKS > LOGSIZE {
        return false;
      }
      outstanding := outstanding + 1;
      admitted := true;
    }

    /** end_op: the last operation to end commits. False: commit panics. */
    method EndOp() returns (ok: bool)
      requires Valid() && !committing && (outstanding == 1 ==> Quiet())
      modifies this`view, this`refs, this`lh, this`outstanding, this`committing, cache, cache.list
      ensures Valid() && outstanding == old(outstanding) - 1 && committing == !ok
      ensures ok <==> outstanding != 0 || old(|lh|) == 0 || old(|lh|) < old(|cache.bufs|)
      ensures outstanding != 0 ==>
                lh == old(lh) && view == old(view) && refs == old(refs) && cache.writes == old(cache.writes)
      ensures outstanding == 0 && ok ==>
                && Quiet() && lh == [] && view == cache.disk && SameHome(g, view, old(view))
                && cache.writes == old(cache.writes) + CommitWrites(g, old(cache.disk), old(Pending()))
      ensures !ok ==> lh == old(lh) && view == old(view) && cache.writes == old(cache.writes)
    {
      outstanding := outstanding - 1;
      ok := true;
      if outstanding == 0 {
        committing := true;
        ok := Commit();
        if ok {
          committing := false;
        }
      }
    }
  }

  // ---- two states in which the log misbehaves ----

  /** Four blocks: the log is blocks 1 and 2, and names block 3. */
  function OneLogged(n: int): (d: Disk)
    requires n == 0 || n == 1
    ensures |d| == 4 && (n == 1 ==> LogOk(Geometry(1, 2), d)) && (n == 0 ==> LogEmpty(Geometry(1, 2), d))
    ensures Logged(d[1]) == if n == 1 then [3] else []
  {
    var zero: Block := seq(WORDS, _ => 0);
    [zero, [n, 3] + seq(WORDS - 2, _ => 0), zero, zero]
  }

  /** Recovery of one block. With one buffer it panics. With more, the next bread of the block hands
      out a buffer that nobody is said to reference. */
  method RecoverOne(nbuf: nat) returns (ok: bool, count: nat)
    requires nbuf >= 1
    ensures ok <==> nbuf > 1
    ensures ok ==> count == 0
  {
    hide S.Inv, S.Wf, AllRings, HasUnused, LogOk, S.Bread;
    var c := new Cache(OneLogged(1), nbuf);
    var l := new Log(c, Geometry(1, 2));
    ghost var done;
    ok, done := l.RecoverFromLog();
    count := 0;
    if ok {
      ReadAfterRecovery(c.St(), l.view, l.refs, 3);
      var b := c.Bread(3);
      count := c.bufs[b].refcnt;
    }
  }

  /** One operation that updates one block. With one buffer, its end panics. */
  method CommitOne(nbuf: nat) returns (ok: bool)
    requires nbuf >= 1
    ensures ok <==> nbuf > 1
  {
    hide S.Inv, S.Wf, AllRings, HasUnused, LogEmpty;
    var c := new Cache(OneLogged(0), nbuf);
    var l := new Log(c, Geometry(1, 2));
    var admitted := l.BeginOp();
    SomeBuffer(c.St(), l.view, l.refs);
    var done := l.Update(3, seq(WORDS, _ => 7));
    assert Distinct([3]) && !InLog(Geometry(1, 2), 3);
    ok := l.EndOp();
  }

  lemma SomeBuffer(s: S.State, v: Disk, r: seq<nat>)
    requires S.Inv(s, v, r) && (forall no :: 0 <= no < |r| ==> r[no] == 0) && |s.bufs| > 0
    ensures HasUnused(s)
  {
    S.SomeUnused(s, v, r, {});
  }

  lemma LogInRange(g: Geometry, d: Disk, blocks: seq<int>)
    requires Loggable(g, d, blocks)
    ensures Distinct(blocks) && forall i :: 0 <= i < |blocks| ==> 0 <= blocks[i] < |d|
  {}

  lemma LoggedInRange(g: Geometry, d: Disk)
    requires LogOk(g, d)
    ensures forall no :: no in Logged(d[g.start]) ==> 0 <= no < |d|
    ensures Logged(d[g.start]) != [] ==> Logged(d[g.start])[0] in Logged(d[g.start])
  {}

  lemma RecoverMiddle(g: Geometry, d0: Disk, d: Disk, v: Disk)
    requires LogOk(g, d0) && g.start + |Logged(d0[g.start])| < |d0|
    requires var blocks := Logged(d0[g.start]);
             HomeProgress(g, d0, d0, d, v, HomeWrites(blocks, LogData(g, d0, |blocks|)), |blocks|)
    ensures d == v && d[g.start] == d0[g.start] && |d| == |d0| && d == Durable(g, d0)
    ensures var blocks := Logged(d0[g.start]);
            var ws := HomeWrites(blocks, LogData(g, d0, |blocks|)); ws[..|blocks|] == ws
  {
    var blocks := Logged(d0[g.start]);
    var ws := HomeWrites(blocks, LogData(g, d0, |blocks|));
    assert ws[..|blocks|] == ws;
    assert InLog(g, g.start);
  }

  lemma RecoverFinal(g: Geometry, d0: Disk, d1: Disk, v1: Disk, d: Disk)
    requires LogOk(g, d0) && d1 == Durable(g, d0) && d1[g.start] == d0[g.start]
    requires d == d1[g.start := Header(d0[g.start], [])]
    ensures OnDisk(d0, RecoverWrites(g, d0)) && d == Apply(d0, RecoverWrites(g, d0)) && LogEmpty(g, d)
  {
    var ws := HomeWrites(Logged(d0[g.start]), LogData(g, d0, d0[g.start][0]));
    var cw := [Write(g.start, Header(d0[g.start], []))];
    ApplyAppend(d0, ws, cw);
    ApplyOne(Apply(d0, ws), cw[0]);
    ClearEnds(g, d0);
  }

  /** After a recovery that reinstalled block no, the next bread of it hands out a locked buffer
      whose reference count is 0, which bget would recycle for another block. */
  lemma ReadAfterRecovery(s: S.State, v: Disk, r: seq<nat>, no: int)
    requires S.Inv(s, v, r) && 0 <= no < |s.disk| && r[no] == S.WRAP - 1
    ensures S.Bread(s, no).Got?
    ensures var got := S.Bread(s, no);
            && got.b < |got.s.bufs| && got.s.bufs[got.b].no == no && got.s.bufs[got.b].locked
            && got.s.bufs[got.b].refcnt == 0
            && got.b in got.s.order
  {
    ReferencedIsCached(s, v, r, no);
    var c: nat :| S.Holds(s, no, c);
    if S.FindCached(s, no, 0) == |s.order| {
      S.NotCached(s, no);
    }
    S.CachedIsInUse(s, no);
  }

  lemma Append<T>(a: seq<T>, b: seq<T>, c: seq<T>)
    ensures a + b + c == a + (b + c)
  {}

  lemma AtHeaderFacts(g: Geometry, d0: Disk, v0: Disk, t: Txn, d: Disk, v: Disk)
    requires AtHeader(g, d0, v0, t, d, v)
    ensures |v| == |d| == |d0| && Loggable(g, d, t.blocks)
    ensures forall no :: 0 <= no < |v| && InLog(g, no) ==> v[no] == d[no]
  {}

  lemma QuietFacts(s: S.State, v: Disk, r: seq<nat>, g: Geometry, lh: seq<int>)
    requires S.Inv(s, v, r) && (forall no :: 0 <= no < |r| ==> r[no] == if no in lh then 1 else 0)
    requires Loggable(g, s.disk, lh)
    ensures |v| == |s.disk| == |r| && forall no :: 0 <= no < |v| && no !in lh ==> v[no] == s.disk[no]
  {
    forall no | 0 <= no < |v| && no !in lh
      ensures v[no] == s.disk[no]
    {
      S.UnreferencedIsClean(s, v, r, no);
    }
  }

  /** When just the blocks lh are referenced, some buffer is unused exactly if there are more of them. */
  lemma PinsFill(s: S.State, v: Disk, r: seq<nat>, lh: seq<int>)
    requires S.Inv(s, v, r) && (forall no :: 0 <= no < |r| ==> r[no] == if no in lh then 1 else 0) && Distinct(lh)
    requires forall i :: 0 <= i < |lh| ==> 0 <= lh[i] < |r|
    ensures HasUnused(s) <==> |lh| < |s.bufs|
  {
    hide S.Inv;
    if |lh| < |s.bufs| {
      S.SomeUnused(s, v, r, UsedBlocks(lh));
    } else {
      S.NoneUnused(s, v, r, lh);
    }
  }

  lemma AllClean(s: S.State, v: Disk, r: seq<nat>)
    requires S.Inv(s, v, r) && forall no :: 0 <= no < |r| ==> r[no] == 0
    ensures v == s.disk
  {
    forall no | 0 <= no < |v|
      ensures v[no] == s.disk[no]
    {
      S.UnreferencedIsClean(s, v, r, no);
    }
  }

  // ---- the three stages of commit, as values ----

  ghost predicate Clean(g: Geometry, d: Disk, v: Disk, t: Txn) {
    && LogEmpty(g, d) && TxnOk(g, d, t) && |v| == |d|
    && t.data == ContentsOf(v, t.blocks) && forall no :: 0 <= no < |v| && no !in t.blocks ==> v[no] == d[no]
  }

  /** The disk holds the committed header and log; the flat disk differs only in the log. */
  ghost predicate AtHeader(g: Geometry, d0: Disk, v0: Disk, t: Txn, d: Disk, v: Disk) {
    && Clean(g, d0, v0, t)
    && d == AtCommit(g, d0, t) && |v| == |d| && SameHome(g, v, v0)
    && forall no :: 0 <= no < |v| && InLog(g, no) ==> v[no] == d[no]
  }

  lemma CommitMiddle(g: Geometry, d0: Disk, v0: Disk, t: Txn, d1: Disk, v1: Disk, d: Disk, v: Disk)
    requires Clean(g, d0, v0, t) && LogProgress(g, d0, v0, d1, v1, LogWrites(g, t.data), |t.blocks|)
    requires d == d1[g.start := Header(v1[g.start], t.blocks)] && v == v1[g.start := Header(v1[g.start], t.blocks)]
    ensures AtHeader(g, d0, v0, t, d, v) && LogWrites(g, t.data)[..|t.blocks|] == LogWrites(g, t.data)
    ensures v1[g.start] == d0[g.start]
  {
    assert LogWrites(g, t.data)[..|t.blocks|] == LogWrites(g, t.data);
  }

  function InstalledWrites(g: Geometry, d: Disk, t: Txn): seq<Write>
    requires 0 <= g.start < |d| && |t.data| == |t.blocks| <= LOGSIZE
  {
    LogWrites(g, t.data) + [Write(g.start, Header(d[g.start], t.blocks))] + HomeWrites(t.blocks, t.data)
  }

  ghost predicate Installed(g: Geometry, d0: Disk, v0: Disk, t: Txn, d: Disk, v: Disk) {
    && Clean(g, d0, v0, t) && |d| == |v| == |d0|
    && d == Apply(AtCommit(g, d0, t), HomeWrites(t.blocks, t.data))
    && SameHome(g, v, v0) && v[g.start] == Header(d0[g.start], t.blocks)
  }

  lemma CommitInstalled(g: Geometry, d0: Disk, v0: Disk, t: Txn, d2: Disk, v2: Disk, d: Disk, v: Disk)
    requires AtHeader(g, d0, v0, t, d2, v2) && g.start + |t.blocks| < |d2|
    requires HomeProgress(g, d2, v2, d, v, HomeWrites(t.blocks, LogData(g, d2, |t.blocks|)), |t.blocks|)
    ensures Installed(g, d0, v0, t, d, v)
    ensures HomeWrites(t.blocks, LogData(g, d2, |t.blocks|))[..|t.blocks|] == HomeWrites(t.blocks, t.data)
  {
    CommittedData(g, d0, t, d2);
    var ws := HomeWrites(t.blocks, t.data);
    assert ws[..|t.blocks|] == ws;
    ApplyElsewhere(v2, ws, g.start);
    forall no | 0 <= no < |v| && !InLog(g, no)
      ensures v[no] == v0[no]
    {
      HomeAgain(g, d0, v0, t, v2, no);
    }
  }

  /** Writing home what the flat disk has changes nothing on it. */
  lemma HomeAgain(g: Geometry, d0: Disk, v0: Disk, t: Txn, v2: Disk, no: int)
    requires Clean(g, d0, v0, t) && SameHome(g, v2, v0) && 0 <= no < |v2| && !InLog(g, no)
    requires OnDisk(v2, HomeWrites(t.blocks, t.data))
    ensures Apply(v2, HomeWrites(t.blocks, t.data))[no] == v0[no]
  {
    var ws := HomeWrites(t.blocks, t.data);
    if i :| 0 <= i < |t.blocks| && t.blocks[i] == no {
      ApplyAt(v2, ws, i);
    } else {
      ApplyElsewhere(v2, ws, no);
    }
  }

  lemma CommitFinal(g: Geometry, d0: Disk, v0: Disk, t: Txn, d3: Disk, v3: Disk, d: Disk, v: Disk)
    requires Installed(g, d0, v0, t, d3, v3) && t.blocks != []
    requires d == d3[g.start := Header(v3[g.start], [])] && v == v3[g.start := Header(v3[g.start], [])]
    ensures OnDisk(d0, CommitWrites(g, d0, t)) && d == Apply(d0, CommitWrites(g, d0, t)) && LogEmpty(g, d)
    ensures SameHome(g, v, v0)
    ensures CommitWrites(g, d0, t) == InstalledWrites(g, d0, t) + [Write(g.start, Header(v3[g.start], []))]
  {
    CommitWhole(g, d0, t);
    CrashInCommit(g, d0, t, |CommitWrites(g, d0, t)|);
    assert CommitWrites(g, d0, t)[..|CommitWrites(g, d0, t)|] == CommitWrites(g, d0, t);
  }

  /** The references after one of each of the given blocks was dropped, counting modulo 2^32. */
  ghost predicate Dropped(r0: seq<nat>, r: seq<nat>, blocks: seq<int>) {
    |r| == |r0| && forall no :: 0 <= no < |r| ==> r[no] == if no in blocks then S.Dec(r0[no]) else r0[no]
  }

  lemma HeaderCount(g: Geometry, d: Disk)
    requires LogOk(g, d)
    ensures 0 <= g.start < |d| && 0 <= d[g.start][0] <= LOGSIZE && |Logged(d[g.start])| <= LOGSIZE
  {}

  lemma DroppedNone(r: seq<nat>)
    ensures Dropped(r, r, [])
  {}

  lemma LogFits(g: Geometry, d: Disk, lh: seq<int>)
    requires Fits(g, d) && Loggable(g, d, lh)
    ensures 0 <= g.start && g.start + |lh| < |d|
  {}

  lemma DroppedLength(r0: seq<nat>, r: seq<nat>, blocks: seq<int>)
    requires Dropped(r0, r, blocks)
    ensures |r| == |r0|
  {}

  lemma DropStep(g: Geometry, r0: seq<nat>, r: seq<nat>, lh: seq<int>, k: nat, pins: bool) returns (used: seq<int>)
    requires k < |lh| && Dropped(r0, r, lh[..k]) && Distinct(lh) && 0 <= lh[k] < |r| && 0 <= g.start
    requires g.start + k + 1 < |r|
    requires g.start + k + 1 !in lh && forall i :: 0 <= i < |lh| ==> 0 <= lh[i] < |r|
    requires forall no :: 0 <= no < |r0| ==> r0[no] == if pins && no in lh then 1 else 0
    ensures r[g.start + k + 1] == 0 && r[lh[k]] < S.WRAP - 1 && (r[lh[k]] > 0 <==> pins)
    ensures Distinct(used) && (forall no :: 0 <= no < |r| ==> (r[no] > 0 <==> no in used))
    ensures (forall i :: 0 <= i < |used| ==> 0 <= used[i] < |r|) && (!pins ==> |used| == k)
    ensures Dropped(r0, r[lh[k] := S.Dec(r[lh[k]])], lh[..k + 1])
  {
    hide Dropped, S.Dec;
    DropNext(r0, r, lh, k);
    assert lh[k] !in lh[..k] && lh[k] in lh[k..];
    if pins {
      StillPinned(r0, r, lh, k);
      used := lh[k..];
    } else {
      WrappedRound(r0, r, lh, k);
      used := lh[..k];
    }
  }

  lemma StillPinned(r0: seq<nat>, r: seq<nat>, lh: seq<int>, k: nat)
    requires k < |lh| && Dropped(r0, r, lh[..k]) && Distinct(lh)
    requires forall no :: 0 <= no < |r0| ==> r0[no] == if no in lh then 1 else 0
    ensures forall no :: 0 <= no < |r| ==> r[no] == if no in lh[k..] then 1 else 0
  {
    assert lh == lh[..k] + lh[k..];
    assert forall no :: no in lh[k..] ==> no !in lh[..k];
  }

  lemma WrappedRound(r0: seq<nat>, r: seq<nat>, lh: seq<int>, k: nat)
    requires k <= |lh| && Dropped(r0, r, lh[..k]) && forall no :: 0 <= no < |r0| ==> r0[no] == 0
    ensures forall no :: 0 <= no < |r| ==> r[no] == if no in lh[..k] then S.WRAP - 1 else 0
  {}

  /** Once src is referenced too, there is a buffer for dst exactly when it has one or one is left. */
  lemma SecondBread(s: S.State, v: Disk, r: seq<nat>, r1: seq<nat>, src: int, dst: int, used: seq<int>)
    requires S.Inv(s, v, r1) && 0 <= src < |r| && 0 <= dst < |r| == |s.disk| && src != dst && r[src] == 0
    requires r1 == r[src := 1]
    requires Distinct(used) && (forall no :: 0 <= no < |r| ==> (r[no] > 0 <==> no in used))
    requires forall i :: 0 <= i < |used| ==> 0 <= used[i] < |r|
    ensures S.Wf(s) && (S.Bread(s, dst).Got? <==> r[dst] > 0 || |used| + 1 < |s.bufs|)
  {
    if r[dst] > 0 {
      ReferencedIsCached(s, v, r1, dst);
    } else if |used| + 1 < |s.bufs| {
      var u := UsedBlocks(used + [src]);
      S.SomeUnused(s, v, r1, u);
      UnusedSuffices(s, dst);
    } else {
      S.NoneUnused(s, v, r1, used + [src]);
      S.BgetFails(s, dst);
      assert forall c: nat :: c < |s.bufs| && s.bufs[c].refcnt > 0 ==> r1[s.bufs[c].no] == s.bufs[c].refcnt;
    }
  }

  lemma PinsNone(lh: seq<int>, refs: seq<nat>)
    requires forall no :: 0 <= no < |refs| ==> refs[no] == 0
    requires forall i :: 0 <= i < |lh| ==> 0 <= lh[i] < |refs|
    ensures (forall no :: 0 <= no < |refs| ==> refs[no] == if no in lh then 1 else 0) ==> lh == []
  {
    if lh != [] {
      assert lh[0] in lh;
    }
  }

  /** What a first part of the installing did is a first part of the recovery. */
  lemma RecoverPart(g: Geometry, d0: Disk, d: Disk, v: Disk, done: nat)
    requires LogOk(g, d0) && done <= |Logged(d0[g.start])|
    requires HomeProgress(g, d0, d0, d, v, HomeWrites(Logged(d0[g.start]), LogData(g, d0, |Logged(d0[g.start])|)), done)
    ensures var ws := RecoverWrites(g, d0);
      && done <= |ws| && ws[..done] == HomeWrites(Logged(d0[g.start]), LogData(g, d0, |Logged(d0[g.start])|))[..done]
      && OnDisk(d0, ws[..done]) && d == Apply(d0, ws[..done])
  {}

  lemma DropNext(r0: seq<nat>, r: seq<nat>, lh: seq<int>, k: nat)
    requires k < |lh| && Dropped(r0, r, lh[..k]) && 0 <= lh[k] < |r| && lh[k] !in lh[..k]
    ensures Dropped(r0, r[lh[k] := S.Dec(r[lh[k]])], lh[..k + 1])
  {
    assert lh[..k + 1] == lh[..k] + [lh[k]];
  }

  /** After k of the writes ws to home blocks. */
  ghost predicate HomeProgress(g: Geometry, d0: Disk, v0: Disk, d: Disk, v: Disk, ws: seq<Write>, k: nat) {
    && k <= |ws| && OnDisk(d0, ws[..k]) && d == Apply(d0, ws[..k]) && |v0| == |d0| && v == Apply(v0, ws[..k])
    && forall no :: 0 <= no < |v| && InLog(g, no) ==> v[no] == d[no] && d[no] == d0[no]
  }

  lemma HomeProgressStart(g: Geometry, d: Disk, v: Disk, ws: seq<Write>)
    requires |v| == |d| && forall no :: 0 <= no < |v| && InLog(g, no) ==> v[no] == d[no]
    ensures HomeProgress(g, d, v, d, v, ws, 0)
  {
    assert ws[..0] == [];
  }

  lemma LogBlockApart(g: Geometry, d: Disk, lh: seq<int>, k: nat)
    requires Loggable(g, d, lh) && k < |lh| && 0 <= g.start
    ensures InLog(g, g.start + k + 1) && g.start + k + 1 !in lh && 0 <= lh[k] < |d| && !InLog(g, lh[k]) && Distinct(lh)
  {}

  lemma HomeProgressStep(g: Geometry, d0: Disk, v0: Disk, d: Disk, v: Disk, ws: seq<Write>, k: nat, lh: seq<int>)
    requires HomeProgress(g, d0, v0, d, v, ws, k) && k < |lh| && Loggable(g, d0, lh)
    requires 0 <= g.start && g.start + |lh| < |d0| && ws == HomeWrites(lh, LogData(g, d0, |lh|))
    ensures 0 <= g.start + k + 1 < |d| && 0 <= lh[k] < |d| && v[g.start + k + 1] == ws[k].data == d[g.start + k + 1]
    ensures ws[k].no == lh[k] && g.start + k + 1 != lh[k] && g.start + k + 1 !in lh && Distinct(lh)
    ensures ws[..k + 1] == ws[..k] + [ws[k]] && |d| == |d0| == |v|
    ensures HomeProgress(g, d0, v0, d[lh[k] := ws[k].data], v[lh[k] := ws[k].data], ws, k + 1)
  {
    hide Loggable, Apply, OnDisk, InLog;
    LogBlockApart(g, d0, lh, k);
    assert ws[k].no == lh[k] && ws[k].data == d0[g.start + k + 1];
    HomeProgressMore(g, d0, v0, d, v, ws, k);
  }

  lemma HomeProgressMore(g: Geometry, d0: Disk, v0: Disk, d: Disk, v: Disk, ws: seq<Write>, k: nat)
    requires HomeProgress(g, d0, v0, d, v, ws, k) && k < |ws| && 0 <= ws[k].no < |d0| && !InLog(g, ws[k].no)
    ensures |d| == |d0| == |v| && ws[..k + 1] == ws[..k] + [ws[k]]
    ensures HomeProgress(g, d0, v0, d[ws[k].no := ws[k].data], v[ws[k].no := ws[k].data], ws, k + 1)
  {
    hide Apply;
    ApplyNext(d0, ws, k);
    ApplyNext(v0, ws, k);
  }

  /** After k of the writes ws to log blocks. */
  ghost predicate LogProgress(g: Geometry, d0: Disk, v0: Disk, d: Disk, v: Disk, ws: seq<Write>, k: nat) {
    && k <= |ws| && OnDisk(d0, ws[..k]) && d == Apply(d0, ws[..k]) && |v0| == |d0| && Fits(g, d0)
    && |v| == |v0| && SameHome(g, v, v0) && v[g.start] == v0[g.start]
    && forall no :: 0 <= no < |v| && InLog(g, no) ==> v[no] == d[no]
  }

  lemma LogProgressFacts(g: Geometry, d0: Disk, v0: Disk, d: Disk, v: Disk, ws: seq<Write>, k: nat)
    requires LogProgress(g, d0, v0, d, v, ws, k)
    ensures |d| == |d0| == |v| == |v0|
  {}

  lemma LogProgressStart(g: Geometry, d: Disk, v: Disk, ws: seq<Write>)
    requires |v| == |d| && Fits(g, d) && forall no :: 0 <= no < |v| && InLog(g, no) ==> v[no] == d[no]
    ensures LogProgress(g, d, v, d, v, ws, 0)
  {
    assert ws[..0] == [];
  }

  lemma LogProgressStep(g: Geometry, d0: Disk, v0: Disk, d: Disk, v: Disk, ws: seq<Write>, k: nat, lh: seq<int>)
    requires LogProgress(g, d0, v0, d, v, ws, k) && k < |lh| && Loggable(g, d0, lh)
    requires ws == LogWrites(g, ContentsOf(v0, lh))
    ensures 0 <= g.start + k + 1 < |d| && 0 <= lh[k] < |d| && v[lh[k]] == ws[k].data && ws[k].no == g.start + k + 1
    ensures g.start + k + 1 != lh[k] && g.start + k + 1 !in lh
    ensures ws[..k + 1] == ws[..k] + [ws[k]] && |d| == |d0|
    ensures LogProgress(g, d0, v0, d[g.start + k + 1 := v[lh[k]]], v[g.start + k + 1 := v[lh[k]]], ws, k + 1)
  {
    ApplyNext(d0, ws, k);
  }

  ghost function UsedBlocks(lh: seq<int>): (u: set<int>)
    ensures forall no :: no in u <==> no in lh
    ensures |u| <= |lh|
  {
    if lh == [] then {} else
      assert lh == lh[..|lh| - 1] + [lh[|lh| - 1]];
      UsedBlocks(lh[..|lh| - 1]) + {lh[|lh| - 1]}
  }

  lemma BrelseOthers(s: S.State, b: nat)
    requires b < |s.bufs| && b in s.order
    ensures |S.Brelse(s, b).bufs| == |s.bufs|
    ensures forall c :: 0 <= c < |s.bufs| && c != b ==> S.Brelse(s, b).bufs[c] == s.bufs[c]
  {}
}
