/** The intrusive circular doubly linked list of kernel/list.c.

    A node is an address; `next` and `prev` are the two pointer words stored at each
    address. Many lists share one memory, so removing a node touches only its neighbours
    and no list head is needed to do it. The ghost map `lists` gives, for every list head,
    the nodes on that list from front to back. */
module Ring {

  ghost predicate Distinct<T>(s: seq<T>) {
    forall i, j :: 0 <= i < j < |s| ==> s[i] != s[j]
  }

  /** The first place of b. */
  function Position(order: seq<int>, b: int): (p: nat)
    requires b in order
    ensures p < |order| && order[p] == b
  {
    if order[0] == b then 0 else 1 + Position(order[1..], b)
  }

  /** The nodes met when walking once round the list, from the head back to the head. */
  ghost function Cycle(head: int, s: seq<int>): (c: seq<int>)
    ensures |c| == |s| + 2
  {
    [head] + s + [head]
  }

  /** The i-th node of the walk `c` points to the node after it, and is pointed back to. */
  ghost predicate LinkedAt(next: map<int, int>, prev: map<int, int>, c: seq<int>, i: int)
    requires 0 <= i < |c| - 1
  {
    && c[i] in next && next[c[i]] == c[i + 1]
    && c[i + 1] in prev && prev[c[i + 1]] == c[i]
  }

  /** `next` and `prev` link head and the nodes of `s`, in that order, into a circle. */
  ghost predicate IsRing(next: map<int, int>, prev: map<int, int>, head: int, s: seq<int>) {
    && head !in s
    && Distinct(s)
    && (forall i :: 0 <= i <= |s| ==> LinkedAt(next, prev, Cycle(head, s), i))
  }

  ghost predicate OnRing(head: int, s: seq<int>, a: int) {
    a == head || a in s
  }

  /** No address belongs to two lists. */
  ghost predicate Separate(lists: map<int, seq<int>>) {
    forall h, g, a :: h in lists && g in lists && OnRing(h, lists[h], a) && OnRing(g, lists[g], a) ==> h == g
  }

  ghost predicate AllRings(next: map<int, int>, prev: map<int, int>, lists: map<int, seq<int>>) {
    && (forall h :: h in lists ==> IsRing(next, prev, h, lists[h]))
    && Separate(lists)
  }

  ghost predicate Unlisted(lists: map<int, seq<int>>, a: int) {
    forall h :: h in lists ==> !OnRing(h, lists[h], a)
  }

  lemma RingFrame(next: map<int, int>, prev: map<int, int>, next': map<int, int>, prev': map<int, int>,
                  head: int, s: seq<int>)
    requires IsRing(next, prev, head, s)
    requires forall a :: OnRing(head, s, a) && a in next ==> a in next' && next'[a] == next[a]
    requires forall a :: OnRing(head, s, a) && a in prev ==> a in prev' && prev'[a] == prev[a]
    ensures IsRing(next', prev', head, s)
  {
    forall i | 0 <= i <= |s|
      ensures LinkedAt(next', prev', Cycle(head, s), i)
    {
      assert LinkedAt(next, prev, Cycle(head, s), i);
      assert OnRing(head, s, Cycle(head, s)[i]) && OnRing(head, s, Cycle(head, s)[i + 1]);
    }
  }

  lemma RemoveFromRing(next: map<int, int>, prev: map<int, int>, head: int, s: seq<int>, i: nat)
    requires IsRing(next, prev, head, s) && i < |s|
    ensures s[i] in next && s[i] in prev
    ensures OnRing(head, s, next[s[i]]) && OnRing(head, s, prev[s[i]])
    ensures prev[s[i]] != s[i]
    ensures IsRing(next[prev[s[i]] := next[s[i]]], prev[next[s[i]] := prev[s[i]]], head, s[..i] + s[i + 1..])
  {
    var c := Cycle(head, s);
    var e := s[i];
    assert c[i + 1] == e;
    assert LinkedAt(next, prev, c, i) && LinkedAt(next, prev, c, i + 1);
    var t := s[..i] + s[i + 1..];
    var d := Cycle(head, t);
    forall j | 0 <= j <= |t| + 1
      ensures d[j] == if j <= i then c[j] else c[j + 1]
    {}
    var next' := next[c[i] := c[i + 2]];
    var prev' := prev[c[i + 2] := c[i]];
    forall j | 0 <= j <= |t|
      ensures LinkedAt(next', prev', d, j)
    {
      assert LinkedAt(next, prev, c, if j <= i then j else j + 1);
      if j < i {
        assert c[j] != c[i];
        assert c[j + 1] != c[i + 2];
      } else if j > i {
        assert c[j + 1] != c[i];
        assert c[j + 2] != c[i + 2];
      }
    }
  }

  lemma PushOnRing(next: map<int, int>, prev: map<int, int>, head: int, s: seq<int>, e: int)
    requires IsRing(next, prev, head, s) && !OnRing(head, s, e)
    ensures head in next && OnRing(head, s, next[head])
    ensures IsRing(next[e := next[head]][head := e], prev[e := head][next[head] := e], head, [e] + s)
  {
    var c := Cycle(head, s);
    assert LinkedAt(next, prev, c, 0);
    var f := next[head];
    assert f == c[1];
    var t := [e] + s;
    var d := Cycle(head, t);
    forall j | 0 <= j <= |t| + 1
      ensures d[j] == if j == 0 then head else if j == 1 then e else c[j - 1]
    {}
    var next' := next[e := f][head := e];
    var prev' := prev[e := head][f := e];
    forall j | 0 <= j <= |t|
      ensures LinkedAt(next', prev', d, j)
    {
      if j >= 2 {
        assert LinkedAt(next, prev, c, j - 1);
        assert c[j - 1] != head;
        assert c[j] != c[1];
      }
    }
  }

  /** The memory that holds the list nodes. */
  class Lists {
    var next: map<int, int>
    var prev: map<int, int>
    ghost var lists: map<int, seq<int>>

    ghost predicate Valid()
      reads this
    {
      AllRings(next, prev, lists)
    }

    constructor ()
      ensures Valid() && lists == map[]
    {
      next, prev, lists := map[], map[], map[];
    }

    /** lst_init */
    method Init(lst: int)
      requires Valid() && Unlisted(lists, lst)
      modifies this
      ensures Valid() && lists == old(lists)[lst := []]
    {
      next := next[lst := lst];
      prev := prev[lst := lst];
      lists := lists[lst := []];
      forall h | h in lists
        ensures IsRing(next, prev, h, lists[h])
      {
        if h != lst {
          RingFrame(old(next), old(prev), next, prev, h, lists[h]);
        } else {
          assert LinkedAt(next, prev, Cycle(lst, []), 0);
        }
      }
    }

    /** lst_empty */
    method Empty(lst: int) returns (r: bool)
      requires Valid() && lst in lists
      ensures r <==> lists[lst] == []
    {
      assert LinkedAt(next, prev, Cycle(lst, lists[lst]), 0);
      r := next[lst] == lst;
    }

    /** lst_remove: unlink e from whatever list it is on. */
    method Remove(e: int, ghost lst: int, ghost i: nat)
      requires Valid() && lst in lists && i < |lists[lst]| && lists[lst][i] == e
      modifies this
      ensures Valid() && lists == old(lists)[lst := old(lists)[lst][..i] + old(lists)[lst][i + 1..]]
    {
      RemoveFromRing(next, prev, lst, lists[lst], i);
      next := next[prev[e] := next[e]];
      prev := prev[next[e] := prev[e]];
      lists := lists[lst := lists[lst][..i] + lists[lst][i + 1..]];
      forall h | h in lists
        ensures IsRing(next, prev, h, lists[h])
      {
        if h != lst {
          RingFrame(old(next), old(prev), next, prev, h, lists[h]);
        }
      }
    }

    /** lst_pop: unlink and return the front node; the empty list is a panic. */
    method Pop(lst: int) returns (p: int)
      requires Valid() && lst in lists && lists[lst] != []
      modifies this
      ensures Valid() && p == old(lists)[lst][0] && lists == old(lists)[lst := old(lists)[lst][1..]]
    {
      assert LinkedAt(next, prev, Cycle(lst, lists[lst]), 0);
      p := next[lst];
      Remove(p, lst, 0);
      assert old(lists)[lst][..0] + old(lists)[lst][0 + 1..] == old(lists)[lst][1..];
    }

    /** lst_push: link p in at the front. */
    method Push(lst: int, p: int)
      requires Valid() && lst in lists && Unlisted(lists, p)
      modifies this
      ensures Valid() && lists == old(lists)[lst := [p] + old(lists)[lst]]
    {
      PushOnRing(next, prev, lst, lists[lst], p);
      next := next[p := next[lst]];
      prev := prev[p := lst];
      prev := prev[next[lst] := p];
      next := next[lst := p];
      lists := lists[lst := [p] + lists[lst]];
      forall h | h in lists
        ensures IsRing(next, prev, h, lists[h])
      {
        if h != lst {
          RingFrame(old(next), old(prev), next, prev, h, lists[h]);
        }
      }
    }
  }
}
