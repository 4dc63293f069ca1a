/** user/umalloc.c: malloc and free on a circular, address-ordered free list. The result of sbrk is
    a parameter of the call that may need it. */
module Kr {
  import opened KrSpec

  const HEADER := 16

  /** The loop of free stops exactly where the block belongs. */
  lemma StopsAtSpot(h: Heap, b: nat, i: nat)
    requires Inv(h) && b in h.live && h.fl[0] < b && i < |h.fl|
    ensures LinkAt(h.ptr, h.fl, i)
    ensures var p := h.fl[i]; var q := h.ptr[p];
      (b > p && b < q) || (p >= q && (b > p || b < q)) <==> i == Spot(h.fl, b)
  {
    var j := Spot(h.fl, b);
    assert LinkAt(h.ptr, h.fl, i);
    OffList(h, b, i);
    OffList(h, b, Next(i, |h.fl|));
    Rising(h);
    hide Inv, Spot;
    assert i > 0 ==> h.fl[0] < h.fl[i];
  }

  /** The steps along the ring from i to j. */
  function Dist(i: nat, j: nat, n: nat): int { if i <= j then j - i else j + n - i }

  /** Index number c of a tour of the ring that starts after f. */
  function Tour(f: nat, c: nat, n: nat): nat
    requires f < n && c < n
  {
    if f + 1 + c < n then f + 1 + c else f + 1 + c - n
  }

  /** The header fields after each of the two tests of free. */
  datatype Fields = Fields(ptr: map<nat, nat>, size: map<nat, nat>)

  ghost function Upper(f: Fields, b: nat, q: nat): Fields
    requires b in f.size && q in f.size && q in f.ptr
  {
    if b + f.size[b] == q then Fields(f.ptr[b := f.ptr[q]], f.size[b := f.size[b] + f.size[q]])
      else Fields(f.ptr[b := q], f.size)
  }

  ghost function Lower(f: Fields, b: nat, p: nat): Fields
    requires b in f.size && p in f.size && b in f.ptr
  {
    if p + f.size[p] == b then Fields(f.ptr[p := f.ptr[b]], f.size[p := f.size[p] + f.size[b]])
      else Fields(f.ptr[p := b], f.size)
  }

  lemma FreeFacts(h: Heap, b: nat)
    requires Inv(h) && b in h.live && h.fl[0] < b
    ensures var j := Spot(h.fl, b); var p, q := h.fl[j], h.fl[Next(j, |h.fl|)];
      && p in h.ptr && h.ptr[p] == q && q in h.ptr && p in h.size && q in h.size && b in h.size && b != p && b != q
      && b in h.blocks && h.size[b] == h.blocks[b] > 0 && b > 0
      && (j > 0 ==> p in h.blocks && h.size[p] == h.blocks[p]) && (j == 0 ==> p == 0 && h.size[p] == 0)
      && (j + 1 < |h.fl| ==> q in h.blocks && h.size[q] == h.blocks[q] && q != p) && (j + 1 == |h.fl| ==> q == 0)
  {
    var j := Spot(h.fl, b);
    assert LinkAt(h.ptr, h.fl, j) && LinkAt(h.ptr, h.fl, Next(j, |h.fl|));
    OffList(h, b, j);
    OffList(h, b, Next(j, |h.fl|));
    Positive(h, {}, b);
    BaseSize(h);
    hide Inv, Spot;
    if j > 0 { ListBlock(h, j); }
    if j + 1 < |h.fl| {
      ListBlock(h, j + 1);
      Distinct(h, {}, j, j + 1);
    }
  }

  lemma UpperIs(h: Heap, b: nat, j: nat, p: nat, q: nat)
    requires j < |h.fl| && p == h.fl[j] && q == h.fl[Next(j, |h.fl|)] && p in h.ptr && h.ptr[p] == q && q in h.ptr
    requires q in h.size && b in h.size
    requires b != p && b != q && b in h.blocks && h.size[b] == h.blocks[b] && b > 0
    requires (j + 1 < |h.fl| ==> q in h.blocks && h.size[q] == h.blocks[q] && q != p) && (j + 1 == |h.fl| ==> q == 0)
    ensures
      var t := Insert(h, b, j);
      && t.fl[j + 1] == b && (j + 2 < |t.fl| ==> t.fl[j + 2] == q)
      && (var u, f := MergeUp(t, j), Upper(Fields(h.ptr, h.size), b, q); u.ptr == f.ptr[p := b] && u.size == f.size)
  {
    PutAt(h.fl, j, b, j + 1);
    if j + 1 < |h.fl| { PutAt(h.fl, j, b, j + 2); }
    hide Put, Cut;
  }

  lemma LowerIs(u: Heap, f: Fields, b: nat, j: nat, p: nat)
    requires b in f.size && p in f.size && b in f.ptr && b != p && u.ptr == f.ptr[p := b] && u.size == f.size
    requires j + 1 < |u.fl| && u.fl[j] == p && u.fl[j + 1] == b && b in u.blocks && u.blocks[b] == u.size[b]
    requires (j > 0 ==> p in u.blocks && u.blocks[p] == u.size[p]) && (j == 0 ==> p == 0 && u.size[p] == 0 && b > 0)
    ensures var v := MergeDown(u, j); Fields(v.ptr, v.size) == Lower(f, b, p)
  {}

  /** The code of free computes PutBack. */
  lemma FreeIs(h: Heap, b: nat)
    requires Inv(h) && b in h.live && h.fl[0] < b
    ensures var j := Spot(h.fl, b); var p, q := h.fl[j], h.fl[Next(j, |h.fl|)];
      && p in h.size && q in h.size && b in h.size && q in h.ptr
      && (var t := PutBack(h, b); Fields(t.ptr, t.size) == Lower(Upper(Fields(h.ptr, h.size), b, q), b, p))
  {
    hide Inv, InvBut, Put, Cut, Spot, MergeUp, MergeDown, Upper, Lower;
    FreeFacts(h, b);
    var j := Spot(h.fl, b);
    var p, q := h.fl[j], h.fl[Next(j, |h.fl|)];
    InsertKeeps(h, b, j);
    PutAt(h.fl, j, b, j);
    PutAt(h.fl, j, b, j + 1);
    var t, f := Insert(h, b, j), Upper(Fields(h.ptr, h.size), b, q);
    UpperIs(h, b, j, p, q);
    MergeUpKeeps(t, j);
    var u := MergeUp(t, j);
    UpperFacts(h, b, q, p);
    Positive(u, {j}, b);
    if j > 0 { MergedFacts(u, j); }
    MergeDownKeeps(u, j);
    LowerIs(u, f, b, j, p);
  }

  lemma UpperFacts(h: Heap, b: nat, q: nat, p: nat)
    requires b in h.size && q in h.size && q in h.ptr && p in h.size && b != p
    ensures var f := Upper(Fields(h.ptr, h.size), b, q);
            b in f.size && p in f.size && b in f.ptr && f.size[p] == h.size[p]
  {}

  lemma MergedFacts(u: Heap, j: nat)
    requires InvBut(u, {j}) && 0 < j < |u.fl|
    ensures u.fl[j] in u.blocks && u.fl[j] in u.size && u.size[u.fl[j]] == u.blocks[u.fl[j]]
  {
    Positive(u, {j}, u.fl[j]);
  }

  /** p is the last block of the list below b. */
  ghost predicate IsBelow(fl: seq<nat>, b: nat, p: nat) {
    p in fl && p < b && forall a :: a in fl && a < b ==> a <= p
  }

  lemma SpotIsBelow(h: Heap, b: nat)
    requires Inv(h) && h.fl[0] < b
    ensures IsBelow(h.fl, b, h.fl[Spot(h.fl, b)])
  {
    Rising(h);
    hide Inv;
  }

  class Allocator {
    var ptr: map<nat, nat>
    var size: map<nat, nat>
    var started: bool
    var freep: nat
    ghost var fl: seq<nat>
    ghost var live: set<nat>
    ghost var blocks: map<nat, nat>
    ghost var mem: iset<nat>

    ghost function H(): Heap
      reads this
    {
      Heap(ptr, size, fl, live, blocks, mem)
    }

    ghost predicate Valid()
      reads this
    {
      if started then Inv(H()) && freep in fl else live == {} && blocks == map[] && mem == iset{}
    }

    constructor ()
      ensures Valid() && live == {} && mem == iset{}
    {
      ptr, size, started, freep := map[], map[], false, BASE;
      fl, live, blocks, mem := [], {}, map[], iset{};
    }

    /** The block before the place of bp in the list. */
    method FindSpot(bp: nat) returns (p: nat, ghost j: nat)
      requires Valid() && bp in live
      ensures fl != [] && fl[0] < bp && j == Spot(fl, bp) && p == fl[j]
    {
      ghost var h := H();
      OffList(h, bp, 0);
      Positive(h, {}, bp);
      hide Inv;
      p := freep;
      ghost var i: nat :| i < |fl| && fl[i] == freep;
      j := Spot(fl, bp);
      StopsAtSpot(h, bp, i);
      while !(bp > p && bp < ptr[p])
        invariant i < |fl| && p == fl[i] && LinkAt(ptr, fl, i) && H() == h && Inv(h)
        decreases Dist(i, j, |fl|)
      {
        StopsAtSpot(h, bp, i);
        if p >= ptr[p] && (bp > p || bp < ptr[p]) {
          break;
        }
        p := ptr[p];
        i := Next(i, |fl|);
        StopsAtSpot(h, bp, i);
      }
      StopsAtSpot(h, bp, i);
    }

    /** The two tests of free and what they write. */
    method Relink(bp: nat, p: nat)
      requires p in ptr && ptr[p] in ptr && ptr[p] in size && bp in size && p in size && bp != p
      modifies this`ptr, this`size
      ensures Fields(ptr, size) == Lower(Upper(Fields(old(ptr), old(size)), bp, old(ptr[p])), bp, p)
    {
      var q := ptr[p];
      if bp + size[bp] == q {
        size := size[bp := size[bp] + size[q]];
        ptr := ptr[bp := ptr[q]];
      } else {
        ptr := ptr[bp := q];
      }
      if p + size[p] == bp {
        size := size[p := size[p] + size[bp]];
        ptr := ptr[p := ptr[bp]];
      } else {
        ptr := ptr[p := bp];
      }
    }

    /** freep is left at the last block of the list below bp. */
    method Free(bp: nat)
      requires Valid() && bp in live
      modifies this
      ensures Valid() && started && live == old(live) - {bp} && mem == old(mem)
      ensures forall a :: a in live ==> a in old(blocks) && a in blocks && blocks[a] == old(blocks)[a]
      ensures old(fl) != [] && old(fl)[0] < bp && H() == PutBack(old(H()), bp)
      ensures IsBelow(old(fl), bp, freep)
    {
      hide Inv, PutBack, Spot, Upper, Lower, IsBelow;
      ghost var h := H();
      ghost var j: nat;
      var p: nat;
      p, j := FindSpot(bp);
      SpotIsBelow(h, bp);
      PutBackKeeps(h, bp);
      FreeFacts(h, bp);
      FreeIs(h, bp);
      ghost var t := PutBack(h, bp);
      Relink(bp, p);
      freep := p;
      fl, live, blocks, mem := t.fl, t.live, t.blocks, t.mem;
    }

    // ---- malloc ----

    /** Looks once around the ring for a block of at least n units, from the one after freep. */
    method Search(n: nat) returns (found: bool, p: nat, prevp: nat, ghost i: nat)
      requires Valid() && started && n > 0
      ensures found ==> FirstFit(H(), freep, n, i) && p == fl[i] && prevp == fl[i - 1] && p in size && size[p] >= n
      ensures found <==> Room(H(), n)
    {
      hide Inv, FirstFit, Room;
      ghost var h := H();
      ghost var f: nat :| f < |fl| && fl[f] == freep;
      ghost var c, len := 0, |fl|;
      prevp := freep;
      RingFacts(h, f);
      p := ptr[prevp];
      i := Tour(f, 0, len);
      ghost var pi: nat := f;
      while true
        invariant H() == h && Inv(h) && f < len == |fl| && fl[f] == freep && c < len && i == Tour(f, c, len) && pi < len
        invariant p == fl[i] && prevp == fl[pi] && i == Next(pi, len)
        invariant forall d: nat :: d < c ==> TooSmall(size, fl[Tour(f, d, len)], n)
        decreases len - c
      {
        RingFacts(h, i);
        if size[p] >= n {
          FoundFirst(h, freep, f, c, n);
          FitFacts(h, freep, n, i);
          return true, p, prevp, i;
        }
        assert TooSmall(size, fl[Tour(f, c, len)], n);
        if p == freep {
          SameIndex(h, i, f);
          TourAll(h, f, n);
          return false, p, prevp, i;
        }
        prevp, pi := p, i;
        p := ptr[p];
        c := c + 1;
        i := Next(pi, len);
      }
    }

    /** Gets at least 4096 units from sbrk and frees them onto the list; brk is -1 when sbrk fails. */
    method MoreCore(nu: nat, brk: int) returns (ok: bool)
      requires Valid() && started && nu > 0 && (brk == -1 || (brk >= 0 && Fresh(mem, brk, CoreUnits(nu))))
      modifies this
      ensures Valid() && started && live == old(live) && (ok <==> brk != -1)
      ensures !ok ==> H() == old(H()) && freep == old(freep)
      ensures ok ==> mem == old(mem) + Span(brk, CoreUnits(nu)) && Room(H(), nu)
      ensures ok ==> old(CanPut(H(), brk, nu)) && H() == old(PutCore(H(), brk, nu))
      ensures ok ==> IsBelow(old(fl), brk, freep)
      ensures forall a :: a in live ==> a in old(blocks) && a in blocks && blocks[a] == old(blocks)[a]
    {
      hide Inv, PutBack;
      ghost var h := H();
      LiveBlocks(h);
      if brk == -1 {
        return false;
      }
      var hp: nat, n := brk, CoreUnits(nu);
      ObtainKeeps(h, hp, n);
      size := size[hp := n];
      live, blocks, mem := live + {hp}, blocks[hp := n], mem + Span(hp, n);
      ghost var t := H();
      LiveBlocks(t);
      Free(hp);
      assert live == h.live;
      ghost var k := PutBackHolds(t, hp);
      assert !TooSmall(size, fl[k], nu);
      return true;
    }

    /** Rounds up to whole units plus a header and hands out a block of just that many, taken whole
        or from the top of the first that is large enough. Only when there is none is memory
        obtained, and only then can it fail. */
    method Malloc(nbytes: nat, brk: int) returns (ok: bool, a: nat, ghost i: nat)
      requires Valid() && (brk == -1 || (brk >= 0 && Fresh(mem, brk, CoreUnits(Units(nbytes)))))
      modifies this
      ensures Valid() && started
      ensures ok <==> old(HasRoom(Units(nbytes))) || brk != -1
      ensures ok ==> a !in old(live) && live == old(live) + {a} && a in blocks && blocks[a] == Units(nbytes)
      ensures !ok ==> live == old(live)
      ensures forall b :: b in old(live) ==> b in live && b in old(blocks) && b in blocks && blocks[b] == old(blocks)[b]
      ensures mem == if old(HasRoom(Units(nbytes))) || brk == -1 then old(mem)
              else old(mem) + Span(brk, CoreUnits(Units(nbytes)))
      ensures old(HasRoom(Units(nbytes))) ==> FromList(old(H()), old(freep), Units(nbytes), i, H(), a, freep)
      ensures ok && !old(HasRoom(Units(nbytes))) ==> FromCore(old(Begun()), brk, Units(nbytes), i, H(), a, freep)
    {
      hide Inv, FirstFit, CanPut, PutCore, IsBelow;
      var nunits := (nbytes + HEADER - 1) / HEADER + 1;
      if !started {
        Initialize();
        assert !Room(H(), nunits);
      }
      LiveBlocks(H());
      ghost var h := H();
      var p, prevp: nat;
      ok, p, prevp, i := Search(nunits);
      if !ok {
        ok := MoreCore(nunits, brk);
        if !ok {
          return false, 0, 0;
        }
        h := H();
        ok, p, prevp, i := Search(nunits);
      }
      ghost var f := freep;
      FitFacts(H(), freep, nunits, i);
      RingFacts(H(), i);
      ListBlock(H(), i);
      a := Take(p, prevp, nunits, i);
      assert FromList(h, f, nunits, i, H(), a, freep);
    }

    /** The heap malloc starts from: the ring of the base header alone at the first call. */
    ghost function Begun(): Heap
      reads this
    {
      if started then H() else Heap(ptr[BASE := BASE], size[BASE := 0], [BASE], live, blocks, mem)
    }

    /** Some block of the list is large enough. */
    ghost predicate HasRoom(n: nat)
      reads this
    {
      started && Room(H(), n)
    }

    /** The ring is the base header alone. */
    method Initialize()
      requires Valid() && !started
      modifies this
      ensures Valid() && started && live == old(live) && mem == old(mem) && blocks == old(blocks) && fl == [BASE]
      ensures BASE in size && size[BASE] == 0 && H() == old(Begun())
    {
      ptr, size := ptr[BASE := BASE], size[BASE := 0];
      freep, started := BASE, true;
      fl := [BASE];
      StartInv(H());
    }

    method Take(p: nat, prevp: nat, n: nat, ghost i: nat) returns (a: nat)
      requires Valid() && started && n > 0 && 0 < i < |fl| && p == fl[i] && prevp == fl[i - 1] && p in size
      requires size[p] >= n
      requires p in ptr && p in blocks && size[p] == blocks[p]
      modifies this
      ensures Valid() && started && a !in old(live) && live == old(live) + {a} && a in blocks && blocks[a] == n
      ensures mem == old(mem)
      ensures forall b :: b in old(live) ==> b in old(blocks) && b in blocks && blocks[b] == old(blocks)[b]
      ensures old(Taken(H(), i, n)) == (H(), a) && freep == prevp
    {
      hide Inv, Cut, SplitBlock;
      ghost var h := H();
      TakeKeeps(h, i, n);
      ghost var t := Taken(h, i, n).0;
      if size[p] == n {
        ptr := ptr[prevp := ptr[p]];
        a := p;
      } else {
        size := size[p := size[p] - n];
        a := p + size[p];
        size := size[a := n];
      }
      freep := prevp;
      fl, live, blocks, mem := t.fl, t.live, t.blocks, t.mem;
    }
  }

  predicate TooSmall(size: map<nat, nat>, a: nat, n: nat) { a in size && size[a] < n }

  ghost predicate Room(h: Heap, n: nat) {
    exists k: nat :: k < |h.fl| && !TooSmall(h.size, h.fl[k], n)
  }

  /** The block at i is the first that is large enough on a tour that starts after freep. */
  ghost predicate FirstFit(h: Heap, freep: nat, n: nat, i: nat) {
    && 0 < i < |h.fl| && h.fl[i] in h.ptr && h.fl[i] in h.blocks && h.blocks[h.fl[i]] >= n
    && exists f: nat, c: nat :: f < |h.fl| && c < |h.fl| && h.fl[f] == freep && i == Tour(f, c, |h.fl|)
         && forall d: nat :: d < c ==> TooSmall(h.size, h.fl[Tour(f, d, |h.fl|)], n)
  }

  lemma FitFacts(h: Heap, freep: nat, n: nat, i: nat)
    requires FirstFit(h, freep, n, i)
    ensures 0 < i < |h.fl|
  {}

  /** What malloc does with the list as it is: block i is the first that is large enough, what it makes of
      it is the heap t with a handed out, and the next search starts at that place. */
  ghost predicate FromList(h: Heap, freep: nat, n: nat, i: nat, t: Heap, a: nat, freep': nat) {
    FirstFit(h, freep, n, i) && Taken(h, i, n) == (t, a) && freep' == h.fl[i - 1]
  }

  /** The same once the memory at brk is on the list. */
  ghost predicate FromCore(h: Heap, brk: nat, n: nat, i: nat, t: Heap, a: nat, freep': nat) {
    CanPut(h, brk, n) && exists f :: IsBelow(h.fl, brk, f) && FromList(PutCore(h, brk, n), f, n, i, t, a, freep')
  }

  /** What morecore asks sbrk for. */
  function CoreUnits(nu: nat): (r: nat)
    ensures r >= nu && r >= 4096 && (r == nu || r == 4096)
  {
    if nu < 4096 then 4096 else nu
  }

  /** The memory at brk can be freed onto the list, and the heap once it is. */
  ghost predicate CanPut(h: Heap, brk: nat, nu: nat) {
    var t := Obtain(h, brk, CoreUnits(nu));
    Inv(t) && t.fl[0] < brk
  }

  ghost function PutCore(h: Heap, brk: nat, nu: nat): Heap
    requires CanPut(h, brk, nu)
  {
    PutBack(Obtain(h, brk, CoreUnits(nu)), brk)
  }

  /** A header and the bytes, in units. */
  function Units(nbytes: nat): (n: nat)
    ensures n > 0 && (n - 1) * HEADER >= nbytes && (n == 1 || (n - 2) * HEADER < nbytes)
  {
    (nbytes + HEADER - 1) / HEADER + 1
  }

  lemma RingFacts(h: Heap, i: nat)
    requires Inv(h) && i < |h.fl|
    ensures LinkAt(h.ptr, h.fl, i) && h.fl[i] in h.size
  {
    assert LinkAt(h.ptr, h.fl, i);
    assert i > 0 ==> SizeAt(h.size, h.fl[i]);
  }

  lemma ListBlock(h: Heap, i: nat)
    requires Inv(h) && 0 < i < |h.fl|
    ensures h.fl[i] in h.blocks && h.fl[i] in h.size && h.size[h.fl[i]] == h.blocks[h.fl[i]]
  {
    Positive(h, {}, h.fl[i]);
  }

  lemma SameIndex(h: Heap, i: nat, j: nat)
    requires Inv(h) && i < |h.fl| && j < |h.fl| && h.fl[i] == h.fl[j]
    ensures i == j
  {
    if i != j { Distinct(h, {}, i, j); }
  }

  lemma TourAll(h: Heap, f: nat, n: nat)
    requires f < |h.fl| && forall d: nat :: d < |h.fl| ==> TooSmall(h.size, h.fl[Tour(f, d, |h.fl|)], n)
    ensures !Room(h, n)
  {
    forall k: nat | k < |h.fl| ensures TooSmall(h.size, h.fl[k], n) {
      var d := if k > f then k - f - 1 else k + |h.fl| - f - 1;
      assert Tour(f, d, |h.fl|) == k;
    }
  }

  lemma FoundFirst(h: Heap, freep: nat, f: nat, c: nat, n: nat)
    requires Inv(h) && n > 0 && f < |h.fl| && c < |h.fl| && h.fl[f] == freep
    requires var i := Tour(f, c, |h.fl|); h.fl[i] in h.size && h.size[h.fl[i]] >= n
    requires forall d: nat :: d < c ==> TooSmall(h.size, h.fl[Tour(f, d, |h.fl|)], n)
    ensures FirstFit(h, freep, n, Tour(f, c, |h.fl|)) && Room(h, n)
  {
    var i := Tour(f, c, |h.fl|);
    BaseSize(h);
    hide Inv;
    RingFacts(h, i);
    ListBlock(h, i);
    assert !TooSmall(h.size, h.fl[i], n);
  }

  lemma BaseSize(h: Heap)
    requires Inv(h)
    ensures |h.fl| > 0 && h.fl[0] in h.size && h.size[h.fl[0]] == 0
  {}

  lemma LiveBlocks(h: Heap)
    requires Inv(h)
    ensures forall a :: a in h.live ==> a in h.blocks
  {}

  lemma StartInv(h: Heap)
    requires h.fl == [BASE] && h.live == {} && h.blocks == map[] && h.mem == iset{} && BASE in h.ptr
    requires h.ptr[BASE] == BASE && BASE in h.size && h.size[BASE] == 0
    ensures Inv(h)
  {}

  /** What malloc makes of the block at i: the heap and the address handed out. */
  function Taken(h: Heap, i: nat, n: nat): (Heap, nat)
    requires 0 < i < |h.fl| && h.fl[i] in h.ptr && h.fl[i] in h.blocks && n <= h.blocks[h.fl[i]]
  {
    if h.blocks[h.fl[i]] == n then (TakeWhole(h, i), h.fl[i])
      else (TakeTail(h, i, n), h.fl[i] + (h.blocks[h.fl[i]] - n))
  }

  /** The heap t hands out a, n units, beside what h does. */
  ghost predicate HandsOut(h: Heap, t: Heap, a: nat, n: nat) {
    && a !in h.live && t.live == h.live + {a} && a in t.blocks && t.blocks[a] == n && t.mem == h.mem
    && forall b :: b in h.live ==> b in h.blocks && b in t.blocks && t.blocks[b] == h.blocks[b]
  }

  lemma WholeHandsOut(h: Heap, i: nat)
    requires Inv(h) && 0 < i < |h.fl| && h.fl[i] in h.ptr && h.fl[i] in h.blocks
    ensures HandsOut(h, TakeWhole(h, i), h.fl[i], h.blocks[h.fl[i]])
  {
    hide ListOk, Tiled;
  }

  lemma TailHandsOut(h: Heap, i: nat, n: nat)
    requires Inv(h) && 0 < i < |h.fl| && h.fl[i] in h.blocks && 0 < n < h.blocks[h.fl[i]]
    ensures HandsOut(h, TakeTail(h, i, n), h.fl[i] + (h.blocks[h.fl[i]] - n), n)
  {
    SplitTiled(h.blocks, h.mem, h.fl[i], n);
    hide ListOk, Tiled;
  }

  lemma TakeKeeps(h: Heap, i: nat, n: nat)
    requires Inv(h) && 0 < i < |h.fl| && h.fl[i] in h.size && 0 < n <= h.size[h.fl[i]]
    ensures LinkAt(h.ptr, h.fl, i) && h.fl[i] in h.blocks && h.size[h.fl[i]] == h.blocks[h.fl[i]]
    ensures var (t, a) := Taken(h, i, n); Inv(t) && h.fl[i - 1] in t.fl && HandsOut(h, t, a, n)
  {
    hide Inv, HandsOut, Cut;
    RingFacts(h, i);
    ListBlock(h, i);
    if h.blocks[h.fl[i]] == n {
      TakeWholeKeeps(h, i);
      WholeHandsOut(h, i);
      CutAt(h.fl, i, i - 1);
    } else {
      TakeTailKeeps(h, i, n);
      TailHandsOut(h, i, n);
    }
  }

  /** free right after malloc puts the free list and every block back as they were. */
  lemma FreeUndoesMalloc(h: Heap, i: nat, n: nat)
    requires Inv(h) && 0 < i < |h.fl| && h.fl[i] in h.size && 0 < n <= h.size[h.fl[i]]
    ensures LinkAt(h.ptr, h.fl, i) && h.fl[i] in h.blocks && n <= h.blocks[h.fl[i]]
    ensures var (t, a) := Taken(h, i, n); Undone(h, t, a)
  {
    hide Inv, Undone, TakeWhole, TakeTail;
    TakeKeeps(h, i, n);
    if h.blocks[h.fl[i]] == n { UndoWhole(h, i); } else { UndoTail(h, i, n); }
  }
}
