/** Which buffer bget recycles, said by the history of the cache: among the buffers nobody references,
    the one whose last reference brelse dropped longest ago, those never dropped coming first. */
module BcacheLru {
  import opened Ring
  import opened BcacheSpec

  /** The calls that change counts or the list; Hold is anything a holder does with the data. */
  datatype Act = Get(no: int) | Release(b: nat) | Pin(b: nat) | Unpin(b: nat) | Hold

  ghost predicate Step(s: State, a: Act, t: State) {
    && Wf(s)
    && match a
       case Get(no) => Bget(s, no).Got? && t == Bget(s, no).s
       case Release(b) => b < |s.bufs| && t == Brelse(s, b)
       case Pin(b) => b < |s.bufs| && t == Bpin(s, b)
       case Unpin(b) => b < |s.bufs| && t == Bunpin(s, b)
       case Hold =>
         && t.order == s.order && |t.bufs| == |s.bufs|
         && forall b :: 0 <= b < |s.bufs| ==> t.bufs[b].refcnt == s.bufs[b].refcnt
  }

  ghost predicate Goes(ss: seq<State>, acts: seq<Act>, i: nat)
    requires i < |acts| < |ss|
  {
    Step(ss[i], acts[i], ss[i + 1])
  }

  /** From any state of the list; binit's has every buffer in it and none referenced. */
  ghost predicate Run(ss: seq<State>, acts: seq<Act>) {
    |ss| == |acts| + 1 && Wf(ss[0]) && Wf(ss[|acts|]) && forall i: nat :: i < |acts| ==> Goes(ss, acts, i)
  }

  /** Move i drops the last reference to b. */
  predicate Drops(ss: seq<State>, acts: seq<Act>, i: nat, b: nat)
    requires i < |acts| && i < |ss|
  {
    acts[i] == Release(b) && b < |ss[i].bufs| && ss[i].bufs[b].refcnt == 1
  }

  /** The last of the first n moves that dropped the last reference to b; -1 when none did. */
  function LastDrop(ss: seq<State>, acts: seq<Act>, n: nat, b: nat): (i: int)
    requires n <= |acts| && n <= |ss|
    ensures -1 <= i < n && (i >= 0 ==> Drops(ss, acts, i, b))
    ensures forall j: nat :: i < j < n ==> !Drops(ss, acts, j, b)
  {
    if n == 0 then -1
    else if Drops(ss, acts, n - 1, b) then n - 1
    else LastDrop(ss, acts, n - 1, b)
  }

  /** After n moves, b was dropped after c; or neither ever was and b was before c at the start. */
  ghost predicate MoreRecent(ss: seq<State>, acts: seq<Act>, n: nat, b: nat, c: nat)
    requires n <= |acts| < |ss|
  {
    || LastDrop(ss, acts, n, b) > LastDrop(ss, acts, n, c)
    || (LastDrop(ss, acts, n, b) == LastDrop(ss, acts, n, c) == -1 && Before(ss[0].order, b, c))
  }

  /** b comes before c in the list. */
  ghost predicate Before(order: seq<int>, b: int, c: int) {
    exists i, j :: 0 <= i < j < |order| && order[i] == b && order[j] == c
  }

  lemma BeforeOnce(order: seq<int>, b: int, c: int)
    requires Distinct(order) && b in order && c in order && b != c
    ensures Before(order, b, c) <==> !Before(order, c, b)
  {
    var i :| 0 <= i < |order| && order[i] == b;
    var j :| 0 <= j < |order| && order[j] == c;
    if i < j { assert Before(order, b, c); } else { assert Before(order, c, b); }
  }

  /** What moving to the front does to the order of two. */
  lemma FrontBefore(order: seq<int>, x: int, b: int, c: int)
    requires Distinct(order) && x in order && b in order && c in order && b != c
    ensures Before(MoveToFront(order, x), b, c) <==> b == x || (c != x && Before(order, b, c))
  {
    var q := MoveToFront(order, x);
    MoveToFrontMembers(order, x);
    if b == x {
      var j :| 0 <= j < |q| && q[j] == c;
      assert q[0] == b && Before(q, b, c);
    } else if c == x {
      BeforeOnce(q, b, c);
      var j :| 0 <= j < |q| && q[j] == b;
      assert q[0] == c && Before(q, c, b);
    } else {
      FrontMoves(order, x, b, c);
      FrontMoves(order, x, c, b);
      BeforeOnce(q, b, c);
      BeforeOnce(order, b, c);
    }
  }

  lemma FrontMoves(order: seq<int>, x: int, b: int, c: int)
    requires Distinct(order) && x in order && b != x && c != x
    ensures Before(order, b, c) ==> Before(MoveToFront(order, x), b, c)
  {
    var q, p := MoveToFront(order, x), Position(order, x);
    if i, j :| 0 <= i < j < |order| && order[i] == b && order[j] == c {
      var i', j' := if i < p then i + 1 else i, if j < p then j + 1 else j;
      assert q[i'] == b && q[j'] == c && i' < j';
    }
  }

  /** A step reorders nothing but for a buffer whose last reference it drops. */
  lemma StepOrder(s: State, a: Act, t: State, b: nat, c: nat)
    requires Step(s, a, t) && b < |s.bufs| && c < |s.bufs| && b != c
    ensures |t.bufs| == |s.bufs|
    ensures var drops := (x: nat) => a == Release(x) && x < |s.bufs| && s.bufs[x].refcnt == 1;
            Before(t.order, b, c) <==> drops(b) || (!drops(c) && Before(s.order, b, c))
  {
    if a.Release? && s.bufs[a.b].refcnt == 1 {
      FrontBefore(s.order, a.b, b, c);
    } else {
      assert t.order == s.order;
    }
  }

  lemma StepWf(s: State, a: Act, t: State)
    requires Step(s, a, t)
    ensures |t.bufs| == |s.bufs|
  {}

  lemma {:induction false} RunSize(ss: seq<State>, acts: seq<Act>, n: nat)
    requires Run(ss, acts) && n < |ss|
    ensures Wf(ss[n]) && |ss[n].bufs| == |ss[0].bufs|
  {
    if n > 0 {
      RunSize(ss, acts, n - 1);
      assert Goes(ss, acts, n - 1);
      hide Step, Wf;
      StepWf(ss[n - 1], acts[n - 1], ss[n]);
    }
    if n < |acts| { assert Goes(ss, acts, n); }
  }

  /** At every point of every run the list is in the order of the drops, most recent first. */
  lemma {:induction false} OrderIsHistory(ss: seq<State>, acts: seq<Act>, n: nat, b: nat, c: nat)
    requires Run(ss, acts) && n < |ss| && b < |ss[0].bufs| && c < |ss[0].bufs| && b != c
    ensures Before(ss[n].order, b, c) <==> MoreRecent(ss, acts, n, b, c)
    decreases n
  {
    hide Wf, Step;
    if n > 0 {
      OrderIsHistory(ss, acts, n - 1, b, c);
      RunSize(ss, acts, n - 1);
      assert Goes(ss, acts, n - 1);
      StepOrder(ss[n - 1], acts[n - 1], ss[n], b, c);
    }
  }

  /** When bget finds the block in no buffer, the buffer it recycles is the least recently dropped of
      those nobody references. */
  lemma RecyclesOldest(ss: seq<State>, acts: seq<Act>, n: nat, no: int, c: nat)
    requires Run(ss, acts) && n < |ss| && c < |ss[n].bufs| && ss[n].bufs[c].refcnt == 0
    requires forall b :: 0 <= b < |ss[n].bufs| ==> ss[n].bufs[b].no != no
    ensures Wf(ss[n]) && Bget(ss[n], no).Got?
    ensures var b := Bget(ss[n], no).b;
            && b < |ss[n].bufs| && ss[n].bufs[b].refcnt == 0 && Bget(ss[n], no).s.bufs[b].no == no
            && (c != b ==> MoreRecent(ss, acts, n, c, b))
  {
    RunSize(ss, acts, n);
    var s := ss[n];
    NotCached(s, no);
    var u := FindUnused(s, |s.order|);
    assert c in s.order;
    var i := Position(s.order, c);
    var b := s.order[u];
    if c != b {
      assert i < u;
      assert Before(s.order, c, b);
      OrderIsHistory(ss, acts, n, c, b);
    }
  }
}
