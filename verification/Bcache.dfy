/** The buffer cache of kernel/bio.c: the buffers, the list through their prev/next pointers and
    the loops over it. Every method is proved equal to the transition of BcacheSpec. */
module Bcache {
  import opened Ring
  import opened LogSpec
  import S = BcacheSpec

  class Cache {
    /** The device; `writes` is the ghost history of the blocks written to it. */
    var disk: Disk
    ghost var writes: seq<Write>

    /** bcache.buf; buffer b is list node b and bcache.head is node |bufs|. */
    var bufs: seq<S.Buf>
    const list: Lists
    const head: int

    ghost function St(): S.State
      requires head in list.lists
      reads this, list
    {
      S.State(bufs, list.lists[head], disk)
    }

    ghost predicate Valid()
      reads this, list
    {
      && list.Valid() && list.lists.Keys == {head} && head == |bufs|
      && S.Wf(St())
    }

    /** binit, with all buffers zero as the kernel's data segment is. */
    constructor (d: Disk, nbuf: nat)
      requires |d| > 0
      ensures Valid() && fresh(list) && |bufs| == nbuf && disk == d && writes == []
      ensures forall b :: 0 <= b < nbuf ==> !bufs[b].valid && bufs[b].refcnt == 0 && bufs[b].no == 0 && !bufs[b].locked
    {
      disk, writes := d, [];
      bufs := seq(nbuf, _ => S.Buf(false, 0, 0, false, seq(WORDS, _ => 0)));
      list := new Lists();
      head := nbuf;
      new;
      list.Init(head);
      var b := 0;
      while b < nbuf
        modifies list
        invariant b <= nbuf && list.Valid() && list.lists.Keys == {head} && |bufs| == nbuf == head
        invariant |list.lists[head]| == b && Distinct(list.lists[head])
        invariant forall i :: 0 <= i < b ==> list.lists[head][i] == b - 1 - i
      {
        list.Push(head, b);
        b := b + 1;
      }
      forall b: nat | b < |bufs|
        ensures b in list.lists[head]
      {
        assert list.lists[head][nbuf - 1 - b] == b;
      }
    }

    /** bget's first loop: from head.next along next. */
    method FindCached(no: int) returns (b: int, ghost p: nat)
      requires Valid()
      ensures p == S.FindCached(St(), no, 0)
      ensures b == if p < |bufs| then St().order[p] else head
    {
      ghost var s := St();
      ghost var c := Cycle(head, s.order);
      assert LinkedAt(list.next, list.prev, c, 0);
      b := list.next[head];
      p := 0;
      while b != head
        invariant p <= |s.order| && b == c[p + 1]
        invariant S.FindCached(s, no, 0) == S.FindCached(s, no, p)
        decreases |s.order| - p
      {
        if bufs[b].no == no {
          return;
        }
        assert LinkedAt(list.next, list.prev, c, p + 1);
        b := list.next[b];
        p := p + 1;
      }
    }

    /** bget's second loop: from head.prev along prev. */
    method FindUnused() returns (b: int, ghost p: int)
      requires Valid()
      ensures p == S.FindUnused(St(), |bufs|)
      ensures b == if p >= 0 then St().order[p] else head
    {
      ghost var s := St();
      ghost var c := Cycle(head, s.order);
      assert LinkedAt(list.next, list.prev, c, |s.order|);
      b := list.prev[head];
      p := |s.order| - 1;
      while b != head
        invariant -1 <= p < |s.order| && b == c[p + 1]
        invariant S.FindUnused(s, |s.order|) == S.FindUnused(s, p + 1)
        decreases p
      {
        if bufs[b].refcnt == 0 {
          return;
        }
        assert LinkedAt(list.next, list.prev, c, p);
        b := list.prev[b];
        p := p - 1;
      }
    }

    /** bget; -1 stands for the panic. */
    method Bget(no: int) returns (b: int)
      requires Valid() && 0 <= no < |disk|
      modifies this`bufs
      ensures Valid()
      ensures match S.Bget(old(St()), no)
              case NoBuffers => b == -1 && St() == old(St())
              case Got(s, i) => b == i && St() == s
    {
      ghost var p;
      b, p := FindCached(no);
      if b != head {
        bufs := bufs[b := bufs[b].(refcnt := S.Inc(bufs[b].refcnt))];
        return;
      }
      ghost var q;
      b, q := FindUnused();
      if b != head {
        bufs := bufs[b := bufs[b].(no := no, valid := false, refcnt := 1)];
        return;
      }
      b := -1;
    }

    /** bread, when the buffer's sleep lock is free or about to be. */
    method Bread(no: int) returns (b: int)
      requires Valid() && 0 <= no < |disk|
      modifies this`bufs
      ensures Valid()
      ensures match S.Bread(old(St()), no)
              case NoBuffers => b == -1 && St() == old(St())
              case Got(s, i) => b == i && St() == s
    {
      b := Bget(no);
      if b >= 0 {
        bufs := bufs[b := bufs[b].(locked := true)];
        if !bufs[b].valid {
          bufs := bufs[b := bufs[b].(valid := true, data := disk[bufs[b].no])];
        }
      }
    }

    /** The holder of a buffer changes its data. */
    method SetData(b: nat, data: Block)
      requires Valid() && b < |bufs| && bufs[b].locked
      modifies this`bufs
      ensures Valid() && St() == S.Modify(old(St()), b, data)
    {
      bufs := bufs[b := bufs[b].(data := data)];
    }

    /** bwrite; it panics unless the buffer is locked. */
    method Bwrite(b: nat)
      requires Valid() && b < |bufs| && bufs[b].locked
      modifies this`disk, this`writes
      ensures Valid() && St() == S.Bwrite(old(St()), b)
      ensures writes == old(writes) + [Write(bufs[b].no, bufs[b].data)]
    {
      disk := disk[bufs[b].no := bufs[b].data];
      writes := writes + [Write(bufs[b].no, bufs[b].data)];
    }

    /** brelse; it panics unless the buffer is locked. */
    method Brelse(b: nat)
      requires Valid() && b < |bufs| && bufs[b].locked
      modifies this`bufs, list
      ensures Valid() && b in old(St()).order && St() == S.Brelse(old(St()), b)
    {
      hide S.Wf, Position;
      ghost var s := St();
      S.BrelseWf(s, b);
      bufs := bufs[b := bufs[b].(locked := false)];
      bufs := bufs[b := bufs[b].(refcnt := S.Dec(bufs[b].refcnt))];
      if bufs[b].refcnt == 0 {
        ghost var p := Position(s.order, b);
        list.Remove(b, head, p);
        list.Push(head, b);
        assert list.lists[head] == S.MoveToFront(s.order, b);
      }
      assert St() == S.Brelse(s, b);
    }

    method Bpin(b: nat)
      requires Valid() && b < |bufs|
      modifies this`bufs
      ensures Valid() && St() == S.Bpin(old(St()), b)
    {
      bufs := bufs[b := bufs[b].(refcnt := S.Inc(bufs[b].refcnt))];
    }

    method Bunpin(b: nat)
      requires Valid() && b < |bufs|
      modifies this`bufs
      ensures Valid() && St() == S.Bunpin(old(St()), b)
    {
      bufs := bufs[b := bufs[b].(refcnt := S.Dec(bufs[b].refcnt))];
    }
  }
}
