/** kernel/kalloc.c and kernel/vm.c: the page allocator and the Sv39 page tables, over one physical
    memory. A page-table page is an array of 512 entries that the code writes in place; a page is
    its physical page number, and page 0 stands for a null pointer. */
module Vm {
  import opened VmSpec

  type Bytes = seq<int>

  function PagesOf(lo: nat, hi: nat): (ps: set<Page>)
    ensures forall p :: p in ps <==> lo <= p < hi
  {
    if hi <= lo then {} else PagesOf(lo, hi - 1) + {hi - 1}
  }

  ghost predicate Sized(d: map<Page, Bytes>) {
    forall p :: p in d ==> |d[p]| == PGSIZE
  }

  /** A page that was in use and is still used for the same has the same content. */
  ghost predicate DataKept(d: map<Page, Bytes>, d': map<Page, Bytes>, o: map<Page, Owner>, o': map<Page, Owner>) {
    && d'.Keys == d.Keys
    && (forall p :: p in o && p in o' && p in d && !o[p].Free? && o'[p] == o[p] ==> d'[p] == d[p])
  }

  lemma GrownSame(m: Mem, r: Page)
    ensures Grown(m, m, r)
  {}

  lemma DataTrans(d: map<Page, Bytes>, d': map<Page, Bytes>, d'': map<Page, Bytes>, m: Mem, t: Mem, u: Mem, r: Page)
    requires d.Keys == m.owner.Keys && Grown(m, t, r) && Grown(t, u, r) && DataKept(d, d', m.owner, t.owner)
    requires DataKept(d', d'', t.owner, u.owner)
    ensures DataKept(d, d'', m.owner, u.owner)
  {}

  lemma GrownLeaf(m: Mem, t: Mem, u: Mem, r: Page)
    requires Grown(m, t, r) && u.owner == t.owner && u.node == t.node
    ensures Grown(m, u, r)
  {}

  lemma NodeStays(m: Mem, t: Mem, r: Page, k: Key)
    requires Grown(m, t, r) && k in m.node
    ensures k in t.node && t.node[k] == m.node[k]
  {}

  lemma DataSame(d: map<Page, Bytes>, o: map<Page, Owner>)
    ensures DataKept(d, d, o, o)
  {}

  lemma NodeNotNull(m: Mem, k: Key)
    requires Inv(m, NoHole) && k in m.node
    ensures m.node[k] != 0
  {
    hide TreeOk;
    assert NodeOwned(m.node, m.owner, k);
  }

  lemma RootPage(m: Mem, r: Page)
    requires Inv(m, NoHole) && RootKey(r) in m.node
    ensures m.node[RootKey(r)] == r
  {
    TableFacts(m, RootKey(r), NoHole);
  }

  lemma PageOf(v: nat, a: nat)
    requires a == v * PGSIZE
    ensures a / PGSIZE == v && PX(0, a) == v % ENTRIES
  {}

  lemma PageFits(v: nat, a: nat, end: nat)
    requires a == v * PGSIZE
    ensures a + PGSIZE <= end <==> v < end / PGSIZE
  {}

  lemma MissingHome(m: Mem, r: Page, vpn: nat)
    requires Home(Slot(r, vpn)) in m.node && vpn < MAXVPN
    ensures Missing(m, r, vpn) == 0
  {
    Descent(r, vpn, 0);
  }

  lemma CountIs(va: nat, size: nat)
    requires size > 0
    ensures va / PGSIZE + PageCount(va, size) == (va + size - 1) / PGSIZE + 1
  {}

  /** A page is freed and overwritten. */
  lemma DataStep(d: map<Page, Bytes>, d': map<Page, Bytes>, d'': map<Page, Bytes>,
                 o: map<Page, Owner>, o': map<Page, Owner>, p: Page)
    requires DataKept(d, d', o, o') && p in d' && d''.Keys == d'.Keys
    requires (forall q :: q in d' && q != p ==> d''[q] == d'[q])
    ensures DataKept(d, d'', o, o'[p := Free])
  {}

  lemma DataUse(d: map<Page, Bytes>, d': map<Page, Bytes>, d'': map<Page, Bytes>,
                o: map<Page, Owner>, o': map<Page, Owner>, o'': map<Page, Owner>, mem: Page)
    requires DataKept(d, d', o, o') && mem in o && o[mem] == Held && mem in d && mem in o' && o'[mem] == Held
    requires mem in o''
    requires d''.Keys == d'.Keys && (forall q :: q in d' && q != mem ==> d''[q] == d'[q])
    requires o'' == o'[mem := o''[mem]] && o''[mem] != Held
    ensures DataKept(d, d'', o, o'') && d'[mem] == d[mem]
  {}

  lemma DataTake(d: map<Page, Bytes>, d': map<Page, Bytes>, d'': map<Page, Bytes>,
                 o: map<Page, Owner>, o'': map<Page, Owner>, mem: Page)
    requires mem in o && o[mem] == Free && mem in d && d'.Keys == d.Keys
    requires (forall q :: q in d && q != mem ==> d'[q] == d[q])
    requires DataKept(d', d'', o[mem := Held], o'')
    ensures DataKept(d, d'', o, o'')
  {}

  lemma GrownHeld(m: Mem, t: Mem, r: Page, p: Page)
    requires Grown(m, t, r) && p in m.owner && m.owner[p] == Held
    ensures p in t.owner && t.owner[p] == Held
  {}

  lemma MissingSame(m: Mem, t: Mem, r: Page, vpn: nat)
    requires t.node == m.node
    ensures Missing(t, r, vpn) == Missing(m, r, vpn)
  {}

  // ---- giving pages to translations ----

  /** The n pages from pa are the frames of the n slots from vpn, or stay what they are. */
  function Claimed(owner: map<Page, Owner>, r: Page, vpn: nat, n: nat, pa: Page, own: bool): map<Page, Owner> {
    map p | p in owner :: if own && pa <= p < pa + n then Frame(Slot(r, vpn + p - pa)) else owner[p]
  }

  ghost predicate AllMappable(m: Mem, pa: Page, n: nat, perm: Perm, own: bool) {
    forall p: nat :: pa <= p < pa + n ==> Mappable(m, p, perm, own)
  }

  lemma ClaimedNext(owner: map<Page, Owner>, r: Page, vpn: nat, n: nat, pa: Page, own: bool)
    ensures Claimed(owner, r, vpn, 0, pa, own) == owner
    ensures !own ==> Claimed(owner, r, vpn, n, pa, own) == owner
    ensures own && pa + n in owner ==>
      Claimed(owner, r, vpn, n + 1, pa, own) == Claimed(owner, r, vpn, n, pa, own)[pa + n := Frame(Slot(r, vpn + n))]
  {}

  /** Adding tables takes no page that is to be mapped. */
  lemma StillMappable(m: Mem, w: Mem, r: Page, p: Page, perm: Perm, own: bool)
    requires Mappable(m, p, perm, own) && Grown(m, w, r) && w.leaf == m.leaf
    ensures Mappable(w, p, perm, own)
  {}

  lemma ClaimOne(m: Mem, w: Mem, t: Mem, d: map<Page, Bytes>, d': map<Page, Bytes>, r: Page, p: Page, s: Slot,
                 own: bool)
    requires Grown(m, w, r) && DataKept(d, d', m.owner, w.owner) && (own ==> p in m.owner && m.owner[p] == Held)
    requires t.node == w.node && t.owner == if own then w.owner[p := Frame(s)] else w.owner
    ensures var o := if own then m.owner[p := Frame(s)] else m.owner;
      Grown(m.(owner := o), t, r) && DataKept(d, d', o, t.owner)
  {}

  lemma NextMappable(m0: Mem, m: Mem, r: Page, vpn: nat, done: nat, n: nat, pa: Page, perm: Perm, own: bool)
    requires AllMappable(m0, pa, n, perm, own) && done < n && m.leaf == MapRange(m0.leaf, r, vpn, done, pa, perm)
    requires Grown(m0.(owner := Claimed(m0.owner, r, vpn, done, pa, own)), m, r)
    ensures Mappable(m, pa + done, perm, own) && (own ==> pa + done in m0.owner && m0.owner[pa + done] == Held)
  {
    assert Mappable(m0, pa + done, perm, own);
  }

  lemma ClaimStep(m0: Mem, m: Mem, t: Mem, d0: map<Page, Bytes>, d: map<Page, Bytes>, d': map<Page, Bytes>,
                  r: Page, vpn: nat, done: nat, pa: Page, claim: bool, own: bool)
    requires d0.Keys == m0.owner.Keys && Grown(m0.(owner := Claimed(m0.owner, r, vpn, done, pa, own)), m, r)
    requires DataKept(d0, d, Claimed(m0.owner, r, vpn, done, pa, own), m.owner)
    requires (claim ==> own) && (own ==> pa + done in m0.owner && m0.owner[pa + done] == Held)
    requires var o := if claim then m.owner[pa + done := Frame(Slot(r, vpn + done))] else m.owner;
      Grown(m.(owner := o), t, r) && DataKept(d, d', o, t.owner)
    ensures claim || !own ==>
              var o := Claimed(m0.owner, r, vpn, done + 1, pa, own);
              Grown(m0.(owner := o), t, r) && DataKept(d0, d', o, t.owner)
    ensures !claim ==>
              var o := Claimed(m0.owner, r, vpn, done, pa, own);
              Grown(m0.(owner := o), t, r) && DataKept(d0, d', o, t.owner)
  {
    hide Claimed, Grown, DataKept;
    var a := m0.(owner := Claimed(m0.owner, r, vpn, done, pa, own));
    ClaimedHeld(m0.owner, r, vpn, done, pa, own);
    if claim {
      ClaimedNext(m0.owner, r, vpn, done, pa, own);
      GrownClaim(a, m, t, r, pa + done, Frame(Slot(r, vpn + done)));
      DataClaim(a, m, t, d0, d, d', r, pa + done, Frame(Slot(r, vpn + done)));
    } else {
      GrownTrans(a, m, t, r);
      DataTrans(d0, d, d', a, m, t, r);
      ClaimedNext(m0.owner, r, vpn, done, pa, own);
      ClaimedNext(m0.owner, r, vpn, done + 1, pa, own);
    }
  }

  lemma ClaimedHeld(owner: map<Page, Owner>, r: Page, vpn: nat, done: nat, pa: Page, own: bool)
    ensures Claimed(owner, r, vpn, done, pa, own).Keys == owner.Keys
    ensures pa + done in owner ==> Claimed(owner, r, vpn, done, pa, own)[pa + done] == owner[pa + done]
  {}

  lemma GrownClaim(a: Mem, m: Mem, t: Mem, r: Page, p: Page, o: Owner)
    requires Grown(a, m, r) && p in a.owner && a.owner[p] == Held && Grown(m.(owner := m.owner[p := o]), t, r)
    ensures Grown(a.(owner := a.owner[p := o]), t, r)
  {}

  lemma DataClaim(a: Mem, m: Mem, t: Mem, d0: map<Page, Bytes>, d: map<Page, Bytes>, d': map<Page, Bytes>, r: Page,
                  p: Page, o: Owner)
    requires Grown(a, m, r) && p in a.owner && a.owner[p] == Held && Grown(m.(owner := m.owner[p := o]), t, r)
    requires d0.Keys == a.owner.Keys
    requires DataKept(d0, d, a.owner, m.owner) && DataKept(d, d', m.owner[p := o], t.owner)
    ensures DataKept(d0, d', a.owner[p := o], t.owner)
  {}

  lemma MapOrFreeDone(m: Mem, t: Mem, d: map<Page, Bytes>, d': map<Page, Bytes>, r: Page, mem: Page, s: Slot)
    requires mem in m.owner && m.owner[mem] == Held && mem in d
    requires Grown(m.(owner := m.owner[mem := Frame(s)]), t, r) && DataKept(d, d', m.owner[mem := Frame(s)], t.owner)
    ensures mem in t.owner && t.owner[mem] == Frame(s) && Grown(m, t.(owner := t.owner[mem := Held]), r)
    ensures DataKept(d, d', m.owner, t.owner) && mem in d' && d'[mem] == d[mem]
  {}

  lemma UnmapData(d0: map<Page, Bytes>, d: map<Page, Bytes>, d': map<Page, Bytes>, m: Mem, t: Mem, u: Mem,
                  r: Page, vpn: nat, done: nat, doFree: bool)
    requires DataKept(d0, d, m.owner, t.owner) && Unmapping(m, t, r, vpn, done, doFree) && d.Keys == t.owner.Keys
    requires UnmapStep(t, u, Slot(r, vpn + done), doFree)
    requires var p := t.leaf[Slot(r, vpn + done)].ppn;
      (doFree ==> p in d) && d' == if doFree then d[p := seq(PGSIZE, _ => 1)] else d
    ensures DataKept(d0, d', m.owner, u.owner)
  {}

  lemma UnmapReached(m: Mem, t: Mem, r: Page, vpn: nat, n: nat, doFree: bool)
    requires Unmapping(m, t, r, vpn, n, doFree)
    ensures AllMapped(m.leaf, r, vpn, n) && t.leaf == UnmapRange(m.leaf, r, vpn, n)
    ensures t.owner == FreeRange(m.owner, r, vpn, n, doFree)
  {}

  /** How many pages a process of size hi has that one of size lo has not. */
  function Above(hi: nat, lo: nat): nat { if lo < hi then PgUp(hi) - PgUp(lo) else 0 }

  lemma AboveIs(hi: nat, lo: nat)
    ensures lo >= hi ==> Above(hi, lo) == 0
    ensures lo < hi ==> PgRoundUp(lo) / PGSIZE == PgUp(lo)
    ensures lo < hi && PgRoundUp(lo) >= PgRoundUp(hi) ==> Above(hi, lo) == 0
    ensures lo < hi && PgRoundUp(lo) < PgRoundUp(hi) ==>
      PgRoundUp(lo) < hi && PageCount(PgRoundUp(lo), hi - PgRoundUp(lo)) == Above(hi, lo)
        && (hi - 1) / PGSIZE < PgUp(hi)
  {}

  lemma NoneToMap(leaf: map<Slot, Pte>, r: Page, vpn: nat)
    ensures AllMapped(leaf, r, vpn, 0)
  {}

  /** No page table maps every page there is. */
  lemma NeverAll(m: Mem, r: Page)
    requires Inv(m, NoHole)
    ensures !AllMapped(m.leaf, r, 0, PAGES)
  {
    assert !Mapped(m.leaf, Slot(r, MAXVPN));
  }

  lemma DeallocCount(hi: nat, lo: nat)
    requires lo < hi && PgUp(hi) < PAGES && PgRoundUp(lo) < PgRoundUp(hi)
    ensures PgRoundUp(lo) < TOP && 0 < hi - PgRoundUp(lo) < TOP && PgRoundUp(lo) / PGSIZE == PgUp(lo)
    ensures UnmapCount(PgRoundUp(lo), hi - PgRoundUp(lo)) == Above(hi, lo)
  {
    AboveIs(hi, lo);
    UnmapCountIs(PgRoundUp(lo), hi - PgRoundUp(lo));
  }

  /** Each of n pages from vpn is user memory holding zeros. */
  ghost predicate Filled(t: Mem, d: map<Page, Bytes>, r: Page, vpn: nat, n: nat) {
    forall v: nat :: vpn <= v < vpn + n ==> ZeroPage(t, d, Slot(r, v))
  }

  ghost predicate ZeroPage(t: Mem, d: map<Page, Bytes>, s: Slot) {
    s in t.leaf && t.leaf[s].perm == USER_PERM && t.leaf[s].ppn in d && d[t.leaf[s].ppn] == seq(PGSIZE, _ => 0)
  }

  /** From m to t, exactly n pages from vpn were added, each zeroed and in a frame of its own. */
  ghost predicate Grows(m: Mem, t: Mem, d: map<Page, Bytes>, r: Page, vpn: nat, n: nat) {
    Populated(m, t, r, Range(r, vpn, n)) && Filled(t, d, r, vpn, n)
  }

  lemma GrowStart(m: Mem, d: map<Page, Bytes>, r: Page, vpn: nat)
    ensures Grows(m, m, d, r, vpn, 0)
  {
    GrownSame(m, r);
    PopulatedNone(m, m, r);
    RangeNext(r, vpn, 0);
  }

  lemma RootStays(m: Mem, t: Mem, r: Page, ss: set<Slot>)
    requires Populated(m, t, r, ss) && RootKey(r) in m.node
    ensures RootKey(r) in t.node
  {}

  /** The next page to add is not mapped yet. */
  lemma GrowNext(m: Mem, t: Mem, r: Page, vpn: nat, done: nat, n: nat, a: nat, oldsz: nat, newsz: nat)
    requires Populated(m, t, r, Range(r, vpn, done)) && Range(r, vpn, n) !! m.leaf.Keys
    requires vpn == PgUp(oldsz) && n == Above(newsz, oldsz) && oldsz <= newsz && PgUp(newsz) <= MAXVPN
    requires a == (vpn + done) * PGSIZE && a < newsz
    ensures done < n && a / PGSIZE == vpn + done < MAXVPN && Slot(r, vpn + done) !in t.leaf
  {
    assert vpn + done < PgUp(newsz);
    assert Slot(r, vpn + done) in Range(r, vpn, n) && Slot(r, vpn + done) !in Range(r, vpn, done);
  }

  lemma GrowFails(m: Mem, t: Mem, u: Mem, r: Page, vpn: nat, done: nat)
    requires Populated(m, t, r, Range(r, vpn, done)) && Grown(t, u, r) && u.leaf == t.leaf
    ensures Populated(m, u, r, Range(r, vpn, done)) && AllMapped(u.leaf, r, vpn, done) && Freeable(u, r, vpn, done)
  {
    hide Populated, Grown, Range, AllMapped, Freeable;
    PopulatedNone(t, u, r);
    PopulatedTrans(m, t, u, r, Range(r, vpn, done), {});
    assert Range(r, vpn, done) + {} == Range(r, vpn, done);
    PopulatedRange(m, u, r, vpn, done);
  }

  lemma GrowDealloc(vpn: nat, done: nat, a: nat, start: nat)
    requires start == vpn * PGSIZE && a == (vpn + done) * PGSIZE
    ensures PgUp(start) == vpn && PgUp(a) == vpn + done && Above(a, start) == done
  {}

  lemma GrowEnd(vpn: nat, n: nat, done: nat, a: nat, oldsz: nat, newsz: nat)
    requires vpn == PgUp(oldsz) && n == Above(newsz, oldsz) && oldsz <= newsz <= a && a == (vpn + done) * PGSIZE
    requires done <= n
    ensures done == n
  {}

  lemma GrowAfter(m: Mem, t: Mem, u: Mem, d: map<Page, Bytes>, d': map<Page, Bytes>, r: Page, vpn: nat, done: nat)
    requires Grows(m, t, d, r, vpn, done) && Populated(t, u, r, {Slot(r, vpn + done)})
    requires DataKept(d, d', t.owner, u.owner)
    requires ZeroPage(u, d', Slot(r, vpn + done))
    ensures Grows(m, u, d', r, vpn, done + 1)
  {
    PopulatedTrans(m, t, u, r, Range(r, vpn, done), {Slot(r, vpn + done)});
    RangeNext(r, vpn, done);
    forall v: nat | vpn <= v < vpn + done ensures ZeroPage(u, d', Slot(r, v)) {
      var s := Slot(r, v);
      assert s in Range(r, vpn, done);
      assert OwnsFrame(t, s) && ZeroPage(t, d, s);
      assert s in t.leaf && u.leaf[s] == t.leaf[s];
    }
  }

  lemma DataPop(d: map<Page, Bytes>, d': map<Page, Bytes>, d'': map<Page, Bytes>, m: Mem, t: Mem, o: map<Page, Owner>,
                r: Page, ss: set<Slot>)
    requires d.Keys == m.owner.Keys && Populated(m, t, r, ss) && DataKept(d, d', m.owner, t.owner)
    requires DataKept(d', d'', t.owner, o)
    ensures DataKept(d, d'', m.owner, o)
  {}

  datatype CopyResult = Copied | Failed | Panicked

  /** Page v of one page table and its copy in another have the same content and permissions. */
  ghost predicate PageCopied(t: Mem, d: map<Page, Bytes>, from: Page, to: Page, v: nat) {
    var a, b := Slot(from, v), Slot(to, v);
    && a in t.leaf && b in t.leaf && t.leaf[a].perm == t.leaf[b].perm
    && t.leaf[a].ppn in d && t.leaf[b].ppn in d && d[t.leaf[a].ppn] == d[t.leaf[b].ppn]
  }

  /** From m to t, exactly n pages were added to `to`, each a copy in a frame of its own. */
  ghost predicate Copies(m: Mem, t: Mem, d: map<Page, Bytes>, from: Page, to: Page, n: nat) {
    Populated(m, t, to, Range(to, 0, n)) && forall v: nat :: v < n ==> PageCopied(t, d, from, to, v)
  }

  lemma CopyStart(m: Mem, d: map<Page, Bytes>, from: Page, to: Page)
    ensures Copies(m, m, d, from, to, 0)
  {
    GrownSame(m, to);
    PopulatedNone(m, m, to);
    RangeNext(to, 0, 0);
  }

  lemma RootStaysOther(m: Mem, t: Mem, from: Page, to: Page, ss: set<Slot>)
    requires Populated(m, t, to, ss) && RootKey(from) in m.node && RootKey(to) in m.node
    ensures RootKey(from) in t.node && RootKey(to) in t.node
  {}

  lemma CopyNext(m: Mem, t: Mem, d: map<Page, Bytes>, from: Page, to: Page, done: nat, n: nat, i: nat, sz: nat)
    requires Populated(m, t, to, Range(to, 0, done)) && Range(to, 0, n) !! m.leaf.Keys && OwnsRange(m, from, 0, n)
    requires d.Keys == t.owner.Keys
    requires n == PgUp(sz) <= MAXVPN && i == done * PGSIZE && i < sz
    ensures done < n && i / PGSIZE == done < MAXVPN && Slot(from, done) in t.leaf && Slot(to, done) !in t.leaf
    ensures t.leaf[Slot(from, done)].ppn in d && OwnsFrame(t, Slot(from, done))
  {
    assert done < PgUp(sz);
    assert OwnsFrame(m, Slot(from, done));
    assert Slot(to, done) in Range(to, 0, n) && Slot(to, done) !in Range(to, 0, done);
    assert Slot(from, done) in m.leaf && t.leaf[Slot(from, done)] == m.leaf[Slot(from, done)];
  }

  lemma CopyEnd(n: nat, done: nat, i: nat, sz: nat)
    requires n == PgUp(sz) && done <= n && i == done * PGSIZE && i >= sz
    ensures done == n
  {}

  /** The undoing uvmunmap goes through the pages copied; when there are none, through all pages. */
  lemma CopyCount(done: nat, i: nat)
    requires i == done * PGSIZE && done <= MAXVPN
    ensures UnmapCount(0, i) == if done == 0 then PAGES else done
  {
    UnmapCountIs(0, i);
    if i > 0 { assert PageCount(0, i) == done; }
  }

  /** With nothing copied, it stops at page 0, which is not mapped. */
  lemma UndoReach(m: Mem, f: Mem, to: Page, done: nat, n: nat)
    requires Populated(m, f, to, Range(to, 0, done)) && Range(to, 0, n) !! m.leaf.Keys && done < n
    requires AllMapped(f.leaf, to, 0, done) && Freeable(f, to, 0, done)
    ensures Freeable(f, to, 0, if done == 0 then PAGES else done)
    ensures done == 0 ==> Slot(to, 0) !in f.leaf
  {
    assert Slot(to, done) in Range(to, 0, n) && Slot(to, done) !in Range(to, 0, done);
    if done == 0 {
      forall v: nat ensures !(AllMapped(f.leaf, to, 0, v) && Mapped(f.leaf, Slot(to, v))) {
        MappedAt(f.leaf, to, v, 0);
      }
    }
  }

  lemma CopyAfter(m: Mem, t: Mem, u: Mem, d: map<Page, Bytes>, d': map<Page, Bytes>, from: Page, to: Page, done: nat)
    requires Copies(m, t, d, from, to, done) && Populated(t, u, to, {Slot(to, done)})
    requires DataKept(d, d', t.owner, u.owner)
    requires forall v: nat :: v <= done ==> OwnsFrame(t, Slot(from, v))
    requires
      var a, b := Slot(from, done), Slot(to, done);
      && a in t.leaf && b in u.leaf && u.leaf[b].perm == t.leaf[a].perm
      && u.leaf[b].ppn in d' && t.leaf[a].ppn in d && d'[u.leaf[b].ppn] == d[t.leaf[a].ppn]
    ensures Copies(m, u, d', from, to, done + 1)
  {
    PopulatedTrans(m, t, u, to, Range(to, 0, done), {Slot(to, done)});
    RangeNext(to, 0, done);
    forall v: nat | v <= done ensures PageCopied(u, d', from, to, v) {
      var a, b := Slot(from, v), Slot(to, v);
      assert OwnsFrame(t, a) && u.leaf[a] == t.leaf[a];
      if v < done {
        assert b in Range(to, 0, done);
        assert OwnsFrame(t, b) && u.leaf[b] == t.leaf[b] && PageCopied(t, d, from, to, v);
      }
    }
  }

  /** The frames of `from` are still its own. */
  lemma SourceOwned(m: Mem, t: Mem, from: Page, to: Page, n: nat, ss: set<Slot>)
    requires Populated(m, t, to, ss) && OwnsRange(m, from, 0, n)
    ensures forall v: nat :: v < n ==> OwnsFrame(t, Slot(from, v))
  {
    forall v: nat | v < n ensures OwnsFrame(t, Slot(from, v)) {
      assert OwnsFrame(m, Slot(from, v));
      assert Slot(from, v) in m.leaf && t.leaf[Slot(from, v)] == m.leaf[Slot(from, v)];
    }
  }

  /** What the undoing left: no copy, and the frames free. */
  lemma UndoneIs(f: Mem, u: Mem, to: Page, done: nat, undone: nat, panicked: bool)
    requires Unmapping(f, u, to, 0, undone, true) && AllMapped(f.leaf, to, 0, done)
    requires (done == 0 ==> Slot(to, 0) !in f.leaf)
    requires var count := if done == 0 then PAGES else done;
             if panicked then undone < count && Slot(to, undone) !in f.leaf else undone == count
    ensures undone == done && (panicked <==> done == 0)
    ensures u.leaf == UnmapRange(f.leaf, to, 0, done) && u.owner == FreeRange(f.owner, to, 0, done, true)
  {
    MappedAt(f.leaf, to, undone, 0);
    MappedAt(f.leaf, to, done, undone);
  }

  lemma MappedAt(leaf: map<Slot, Pte>, r: Page, n: nat, v: nat)
    ensures AllMapped(leaf, r, 0, n) && v < n ==> Slot(r, v) in leaf
  {
    if AllMapped(leaf, r, 0, n) && v < n { assert Mapped(leaf, Slot(r, v)); }
  }

  /** No translation goes through table k. */
  ghost predicate NoLeafUnder(leaf: map<Slot, Pte>, k: Key) {
    forall s :: s in leaf ==> !Under(Home(s), k)
  }

  lemma TableHeight(m: Mem, k: Key)
    requires Inv(m, NoHole) && k in m.node
    ensures 1 <= k.h <= 3
  {
    hide OwnOk, EntriesOk;
    assert KeyOk(m.tables, m.node, m.leaf, k, NoHole);
  }

  /** An entry of a table without translations below leads to a table, or is not set. */
  lemma EntryOf(m: Mem, k: Key, i: nat)
    requires Inv(m, NoHole) && k in m.node && i < ENTRIES && NoLeafUnder(m.leaf, k)
    ensures 1 <= k.h <= 3 && m.node[k] in m.tables && |m.tables[m.node[k]]| == ENTRIES
    ensures var e := m.tables[m.node[k]][i];
      if e.v then k.h > 1 && Child(k, i) in m.node && m.node[Child(k, i)] == e.ppn && NoLeafUnder(m.leaf, Child(k, i))
        else Child(k, i) !in m.node
  {
    TableFacts(m, k, NoHole);
    TableHeight(m, k);
    ChildParent(k, i);
    assert Child(k, i) in m.node ==> KeyOk(m.tables, m.node, m.leaf, Child(k, i), NoHole);
    hide Inv;
    assert EntryOk(m.node, m.leaf, k, i, m.tables[m.node[k]][i]);
    if k.h == 1 {
      assert Home(Slot(k.root, k.pos * ENTRIES + i)) == k;
    } else {
      forall s | s in m.leaf ensures !Under(Home(s), Child(k, i)) {
        TopParent(Home(s), k.h - 1);
      }
    }
  }

  lemma AfterChild(t: Mem, u: Mem, k: Key, i: nat)
    requires k.h > 0 && i < ENTRIES && k in t.node && Pruned(t, u, UnderOf(Child(k, i))) && Inv(u, HoleOf(Child(k, i)))
    ensures Child(k, i) !in u.node && Parent(Child(k, i)) == k && Index(Child(k, i)) == i && k in u.node
    ensures u.node[k] == t.node[k]
    ensures u.node[k] in u.tables && |u.tables[u.node[k]]| == ENTRIES
  {
    ChildParent(k, i);
    TableFacts(u, k, HoleOf(Child(k, i)));
  }

  lemma PrunedSame(m: Mem, u: Mem, t: Mem, gone: Key -> bool)
    requires Pruned(m, u, gone) && t.node == u.node && t.leaf == u.leaf && t.owner == u.owner
    ensures Pruned(m, t, gone)
  {}

  lemma DataPrune(d: map<Page, Bytes>, d': map<Page, Bytes>, d'': map<Page, Bytes>, m: Mem, t: Mem, u: Mem,
                  gone: Key -> bool, gone': Key -> bool)
    requires d.Keys == m.owner.Keys && Pruned(m, t, gone) && Pruned(t, u, gone')
    requires DataKept(d, d', m.owner, t.owner) && DataKept(d', d'', t.owner, u.owner)
    ensures DataKept(d, d'', m.owner, u.owner)
  {}

  lemma AllCleared(m: Mem, t: Mem, k: Key)
    requires Inv(t, NoHole) && k in t.node && Pruned(m, t, GoneOf(k, ENTRIES)) && NoLeafUnder(t.leaf, k)
    ensures Cleared(t, k)
  {
    forall i: nat | i < ENTRIES
      ensures t.node[k] in t.tables && |t.tables[t.node[k]]| == ENTRIES && !t.tables[t.node[k]][i].v
    {
      EntryOf(t, k, i);
      ChildParent(k, i);
      GoneNext(Child(k, i), k, i);
      assert GoneOf(k, ENTRIES)(Child(k, i));
    }
  }

  lemma EmptyInv(m: Mem)
    requires m.freelist == [] && m.node == map[] && m.leaf == map[] && 0 !in m.owner
    requires forall p :: p in m.owner ==> m.owner[p] == Held
    ensures Inv(m, NoHole)
  {}

  /** The pages uvmunmap goes through from 0: those of the size, but all there are for size 0. */
  lemma CountUp(sz: nat)
    requires PgUp(sz) < PAGES
    ensures sz < TOP && UnmapCount(0, sz) == if sz == 0 then PAGES else PgUp(sz)
  {
    UnmapCountIs(0, sz);
  }

  lemma NothingUnder(m: Mem, t: Mem, r: Page, n: nat)
    requires Inv(t, NoHole) && RootKey(r) in t.node && OnlyBelow(m.leaf, r, n) && t.leaf == UnmapRange(m.leaf, r, 0, n)
    ensures NoLeafUnder(t.leaf, RootKey(r)) && t.node[RootKey(r)] == r && HoleOf(RootKey(r)) == NoHole
  {
    RootPage(t, r);
    UnmappedAll(m, t, r, n);
    forall s | s in t.leaf ensures !Under(Home(s), RootKey(r)) {
      RootUnder(t, Home(s), r);
    }
  }

  lemma DataFree(d: map<Page, Bytes>, d': map<Page, Bytes>, d'': map<Page, Bytes>, m: Mem, t: Mem, u: Mem, r: Page,
                 n: nat)
    requires d.Keys == m.owner.Keys && t.owner == FreeRange(m.owner, r, 0, n, true) && Pruned(t, u, UnderOf(RootKey(r)))
    requires DataKept(d, d', m.owner, t.owner) && DataKept(d', d'', t.owner, u.owner)
    ensures DataKept(d, d'', m.owner, u.owner)
  {}

  ghost predicate UserMapped(m: Mem, r: Page, va: nat) {
    var s := Slot(r, va / PGSIZE);
    va < MAXVPN * PGSIZE && s in m.leaf && m.leaf[s].perm.u
  }

  lemma MissingIff(m: Mem, r: Page, vpn: nat)
    requires Inv(m, NoHole) && vpn < MAXVPN
    ensures Missing(m, r, vpn) == 0 <==> Home(Slot(r, vpn)) in m.node
    ensures Slot(r, vpn) in m.leaf ==> Home(Slot(r, vpn)) in m.node
  {
    Descent(r, vpn, 0);
    if Slot(r, vpn) in m.leaf { SlotHome(m, Slot(r, vpn)); }
  }

  // ---- user memory ----

  /** The byte of page table r at address va, when it is mapped. */
  ghost function ByteAt(m: Mem, d: map<Page, Bytes>, r: Page, va: nat): int {
    var s := Slot(r, va / PGSIZE);
    if s in m.leaf && m.leaf[s].ppn in d && va % PGSIZE < |d[m.leaf[s].ppn]| then d[m.leaf[s].ppn][va % PGSIZE] else -1
  }

  /** From d to d', src was written at user address dst of page table r, and no other byte of any
      page table that is in a frame of its own changed. */
  ghost predicate Wrote(m: Mem, d: map<Page, Bytes>, d': map<Page, Bytes>, r: Page, dst: nat, src: Bytes) {
    && d'.Keys == d.Keys
    && (forall r': Page, va: nat :: OwnsFrame(m, Slot(r', va / PGSIZE)) ==>
        ByteAt(m, d', r', va) == if r' == r && dst <= va < dst + |src| then src[va - dst] else ByteAt(m, d, r', va))
  }

  lemma WroteNone(m: Mem, d: map<Page, Bytes>, r: Page, dst: nat)
    ensures Wrote(m, d, d, r, dst, [])
  {}

  function Splice(s: Bytes, off: nat, x: Bytes): Bytes
    requires off + |x| <= |s|
  {
    s[..off] + x + s[off + |x|..]
  }

  /** An address and the start of its page are mapped alike. */
  lemma UserPage(m: Mem, r: Page, va: nat, va0: nat)
    requires Inv(m, NoHole) && va0 == va / PGSIZE * PGSIZE
    ensures va0 / PGSIZE == va / PGSIZE && va - va0 == va % PGSIZE && (UserMapped(m, r, va0) <==> UserMapped(m, r, va))
    ensures var s := Slot(r, va / PGSIZE);
      UserMapped(m, r, va) ==> OwnsFrame(m, s) && s in m.leaf && m.leaf[s].ppn in m.owner && m.leaf[s].ppn != 0
  {
    hide TreeOk;
    PageOf(va / PGSIZE, va0);
    if UserMapped(m, r, va) { LeafFacts(m, Slot(r, va / PGSIZE)); }
  }

  lemma SamePage(m: Mem, r: Page, va: nat, n: nat)
    requires UserMapped(m, r, va) && va % PGSIZE + n <= PGSIZE
    ensures forall a: nat :: va <= a < va + n ==> UserMapped(m, r, a)
  {
    forall a: nat | va <= a < va + n ensures UserMapped(m, r, a) {
      assert a / PGSIZE == va / PGSIZE;
    }
  }

  lemma SameFrame(m: Mem, s: Slot, s': Slot)
    requires OwnsFrame(m, s) && OwnsFrame(m, s') && m.leaf[s].ppn == m.leaf[s'].ppn
    ensures s == s'
  {}

  lemma WroteMore(m: Mem, d0: map<Page, Bytes>, d: map<Page, Bytes>, d': map<Page, Bytes>, r: Page, dst: nat,
                  src: Bytes, from: nat, n: nat)
    requires from + n <= |src| && Wrote(m, d0, d, r, dst, src[..from]) && Sized(d) && d.Keys == m.owner.Keys
    requires OwnsFrame(m, Slot(r, (dst + from) / PGSIZE))
    requires
      var p, off := m.leaf[Slot(r, (dst + from) / PGSIZE)].ppn, (dst + from) % PGSIZE;
      p in d && off + n <= PGSIZE && d' == d[p := Splice(d[p], off, src[from..from + n])]
    ensures Wrote(m, d0, d', r, dst, src[..from + n])
  {
    hide ByteAt;
    forall r': Page, va: nat | OwnsFrame(m, Slot(r', va / PGSIZE))
      ensures ByteAt(m, d', r', va) == if r' == r && dst <= va < dst + from + n then src[va - dst]
              else ByteAt(m, d0, r', va)
    {
      WroteByte(m, d, d', r, dst + from, src[from..from + n], r', va);
    }
  }

  lemma WroteByte(m: Mem, d: map<Page, Bytes>, d': map<Page, Bytes>, r: Page, at: nat, x: Bytes, r': Page, va: nat)
    requires Sized(d) && OwnsFrame(m, Slot(r, at / PGSIZE)) && OwnsFrame(m, Slot(r', va / PGSIZE))
    requires
      var p := m.leaf[Slot(r, at / PGSIZE)].ppn;
      p in d && at % PGSIZE + |x| <= PGSIZE && d' == d[p := Splice(d[p], at % PGSIZE, x)]
    requires m.leaf[Slot(r', va / PGSIZE)].ppn in d
    ensures ByteAt(m, d', r', va) == if r' == r && at <= va < at + |x| then x[va - at] else ByteAt(m, d, r', va)
  {
    var s, s' := Slot(r, at / PGSIZE), Slot(r', va / PGSIZE);
    if m.leaf[s].ppn == m.leaf[s'].ppn { SameFrame(m, s, s'); }
  }

  lemma ReadBytes(m: Mem, d: map<Page, Bytes>, r: Page, va: nat, va0: nat, n: nat)
    requires Slot(r, va / PGSIZE) in m.leaf && m.leaf[Slot(r, va / PGSIZE)].ppn in d && Sized(d)
    requires va0 == va / PGSIZE * PGSIZE && va - va0 + n <= PGSIZE
    ensures var page := d[m.leaf[Slot(r, va / PGSIZE)].ppn];
      |page| == PGSIZE && page[va - va0..va - va0 + n] == UserBytes(m, d, r, va, n)
  {
    var part := d[m.leaf[Slot(r, va / PGSIZE)].ppn][va - va0..va - va0 + n];
    forall i | 0 <= i < n ensures part[i] == UserBytes(m, d, r, va, n)[i] {
      assert (va + i) / PGSIZE == va / PGSIZE && (va + i) % PGSIZE == va - va0 + i;
      assert UserBytes(m, d, r, va, n)[i] == ByteAt(m, d, r, va + i);
    }
  }

  /** The n bytes of page table r from address va. */
  ghost function UserBytes(m: Mem, d: map<Page, Bytes>, r: Page, va: nat, n: nat): (s: Bytes)
    ensures |s| == n
  {
    seq(n, i requires 0 <= i => ByteAt(m, d, r, va + i))
  }

  lemma UserBytesSplit(m: Mem, d: map<Page, Bytes>, r: Page, va: nat, n: nat, k: nat)
    ensures UserBytes(m, d, r, va, n) + UserBytes(m, d, r, va + n, k) == UserBytes(m, d, r, va, n + k)
  {
    hide ByteAt;
  }

  /** What copyout wrote, copyin reads back. */
  lemma ReadBack(m: Mem, d: map<Page, Bytes>, d': map<Page, Bytes>, r: Page, va: nat, src: Bytes)
    requires Wrote(m, d, d', r, va, src) && forall a: nat :: va <= a < va + |src| ==> UserMapped(m, r, a)
    requires Inv(m, NoHole)
    ensures UserBytes(m, d', r, va, |src|) == src
  {
    hide ByteAt, Inv;
    forall i | 0 <= i < |src| ensures UserBytes(m, d', r, va, |src|)[i] == src[i] {
      assert UserMapped(m, r, va + i);
      LeafFacts(m, Slot(r, (va + i) / PGSIZE));
    }
  }

  class Memory {
    var tables: map<Page, seq<Pte>>
    var data: map<Page, Bytes>
    var freelist: seq<Page>
    ghost var node: map<Key, Page>
    ghost var leaf: map<Slot, Pte>
    ghost var owner: map<Page, Owner>

    ghost function M(): Mem
      reads this
    {
      Mem(tables, freelist, node, leaf, owner)
    }

    ghost predicate Valid()
      reads this
    {
      Inv(M(), NoHole) && data.Keys == owner.Keys && Sized(data)
    }

    // ---- kernel/kalloc.c ----

    /** kinit: every whole page between the two addresses is free. */
    constructor (start: nat, end: nat)
      requires start > 0
      ensures Valid() && node == map[] && leaf == map[]
      ensures owner == map p | p in PagesOf(PgUp(start), end / PGSIZE) :: Free
    {
      tables, freelist := map[], [];
      data := map p | p in PagesOf(PgUp(start), end / PGSIZE) :: seq(PGSIZE, _ => 0);
      node, leaf := map[], map[];
      owner := map p | p in PagesOf(PgUp(start), end / PGSIZE) :: Held;
      new;
      EmptyInv(M());
      FreePages(start, end);
      assert owner == map p | p in PagesOf(PgUp(start), end / PGSIZE) :: Free;
    }

    /** freerange: frees every whole page between the two addresses. */
    method FreePages(start: nat, end: nat)
      requires Valid() && leaf == map[] && owner.Keys == PagesOf(PgUp(start), end / PGSIZE)
      requires forall p :: p in owner ==> owner[p] == Held
      modifies this
      ensures Valid() && node == old(node) && leaf == old(leaf) && owner.Keys == old(owner).Keys
      ensures forall p :: p in owner ==> owner[p] == Free
    {
      hide Inv;
      var p := PgRoundUp(start);
      ghost var v := PgUp(start);
      while p + PGSIZE <= end
        invariant Valid() && node == old(node) && leaf == old(leaf) && p == v * PGSIZE && PgUp(start) <= v
        invariant owner.Keys == old(owner).Keys
        invariant forall q :: q in owner ==> owner[q] == if q < v then Free else Held
      {
        PageOf(v, p);
        PageFits(v, p, end);
        Kfree(p / PGSIZE);
        v, p := v + 1, p + PGSIZE;
      }
      PageFits(v, p, end);
    }

    /** Page 0 when there is none. */
    method Kalloc() returns (p: Page)
      requires Valid()
      modifies this
      ensures Valid()
      ensures p == 0 <==> old(freelist) == []
      ensures p == 0 ==> M() == old(M()) && data == old(data)
      ensures p != 0 ==> M() == Alloc(old(M())) && p == old(freelist[0]) && p in old(owner) && old(owner[p]) == Free
      ensures p != 0 ==> data == old(data)[p := seq(PGSIZE, _ => 5)] && NoneTo(leaf, p)
      ensures p != 0 ==> freelist == old(freelist)[1..]
    {
      if freelist == [] {
        return 0;
      }
      AllocKeeps(M(), NoHole);
      p := freelist[0];
      freelist := freelist[1..];
      data := data[p := seq(PGSIZE, _ => 5)];
      owner := owner[p := Held];
    }

    /** Frees a managed page. All stays in order exactly when the page was held and no translation
        leads to it; uvmunmap frees a page before it removes the translation. */
    method Kfree(p: Page)
      requires p in owner && data.Keys == owner.Keys && Sized(data)
      modifies this
      ensures M() == Release(old(M()), p) && data == old(data)[p := seq(PGSIZE, _ => 1)]
      ensures freelist == [p] + old(freelist)
      ensures old(Valid() && owner[p] == Held) ==> (Valid() <==> old(NoneTo(leaf, p)))
    {
      hide Inv;
      if Inv(M(), NoHole) && owner[p] == Held {
        ReleaseKeeps(M(), p, NoHole);
      }
      data := data[p := seq(PGSIZE, _ => 1)];
      freelist := [p] + freelist;
      owner := owner[p := Free];
    }

    // ---- walk ----

    /** Adds the table under entry i of table k, which is not set; page 0 when memory is out. */
    method AddTable(pagetable: Page, i: nat, ghost k: Key) returns (p: Page)
      requires Valid() && Unset(M(), k, i) && node[k] == pagetable
      modifies this
      ensures Valid() && leaf == old(leaf) && Grown(old(M()), M(), k.root)
      ensures DataKept(old(data), data, old(owner), owner)
      ensures p == 0 <==> old(freelist) == []
      ensures p == 0 ==> M() == old(M())
      ensures p != 0 ==> freelist == old(freelist)[1..] && node == old(node)[Child(k, i) := p]
    {
      hide Inv, Grown;
      if freelist != [] {
        AddTableKeeps(M(), k, i);
      }
      p := Kalloc();
      if p == 0 {
        GrownSame(M(), k.root);
        return;
      }
      tables := tables[pagetable := tables[pagetable][i := Pte(true, TABLE_PERM, p)]][p := seq(ENTRIES, _ => ZERO)];
      node := node[Child(k, i) := p];
      owner := owner[p := Table(Child(k, i))];
    }

    /** The table that holds the level-0 entry of va, or page 0. The walk adds the tables that are
        missing when asked to and memory lasts; no translation changes. */
    method Walk(pagetable: Page, va: nat, alloc: bool) returns (pt: Page)
      requires Valid() && RootKey(pagetable) in node && va / PGSIZE < MAXVPN
      modifies this
      ensures Valid() && leaf == old(leaf) && Grown(old(M()), M(), pagetable)
      ensures DataKept(old(data), data, old(owner), owner)
      ensures !alloc ==> M() == old(M()) && data == old(data)
      ensures var missing := old(Missing(M(), pagetable, va / PGSIZE));
        && (pt != 0 <==> missing == 0 || (alloc && missing <= |old(freelist)|))
        && (alloc ==> freelist == old(freelist)[if pt != 0 then missing else |old(freelist)|..])
      ensures pt != 0 ==> Home(Slot(pagetable, va / PGSIZE)) in node && pt == node[Home(Slot(pagetable, va / PGSIZE))]
      ensures pt != 0 ==> node.Keys == old(node).Keys + Path(pagetable, va / PGSIZE, 1)
      ensures pt == 0 ==> Home(Slot(pagetable, va / PGSIZE)) !in node
    {
      hide Inv, Grown, DataKept, TreeOk, At, Pos;
      ghost var vpn, used := va / PGSIZE, 0;
      pt := pagetable;
      var level := 2;
      GrownSame(M(), pagetable);
      DataSame(data, owner);
      Descent(pagetable, vpn, 0);
      MissingFrom(M(), pagetable, vpn);
      RootPage(M(), pagetable);
      PathNext(pagetable, vpn, 0);
      hide Path;
      while level > 0
        invariant 0 <= level <= 2 && Valid() && leaf == old(leaf) && At(pagetable, vpn, level + 1) in node
        invariant pt == node[At(pagetable, vpn, level + 1)] && Grown(old(M()), M(), pagetable)
        invariant DataKept(old(data), data, old(owner), owner)
        invariant !alloc ==> M() == old(M()) && data == old(data) && used == 0
        invariant used <= |old(freelist)| && freelist == old(freelist)[used..]
        invariant used + Missing(M(), pagetable, vpn) == old(Missing(M(), pagetable, vpn))
        invariant node.Keys == old(node).Keys +
                               if level == 2 then {} else if level == 1 then {At(pagetable, vpn, 2)}
                               else Path(pagetable, vpn, 1)
      {
        WalkDown(M(), pagetable, va, level);
        MissingFrom(M(), pagetable, vpn);
        var i := PX(level, va);
        var e := tables[pt][i];
        if e.v {
          pt := e.ppn;
        } else {
          if !alloc {
            return 0;
          }
          ghost var m, d := M(), data;
          pt := AddTable(pt, i, At(pagetable, vpn, level + 1));
          GrownTrans(old(M()), m, M(), pagetable);
          DataTrans(old(data), d, data, old(M()), m, M(), pagetable);
          if pt == 0 {
            return;
          }
          used := used + 1;
        }
        level := level - 1;
      }
      NodeNotNull(M(), At(pagetable, vpn, 1));
    }

    // ---- mappages and uvmunmap ----

    /** The level-0 entry of slot s, which is not set, is written. */
    method WritePte(pt: Page, i: nat, e: Pte, ghost s: Slot, ghost own: bool)
      requires Valid() && Home(s) in node && pt == node[Home(s)] && i == s.vpn % ENTRIES
      requires e.v && IsLeaf(e.perm) && s !in leaf && s.vpn < MAXVPN && Mappable(M(), e.ppn, e.perm, own)
      modifies this
      ensures Valid() && node == old(node) && freelist == old(freelist) && data == old(data)
      ensures leaf == old(leaf)[s := e] && owner == if own then old(owner)[e.ppn := Frame(s)] else old(owner)
    {
      hide Inv, KeyOk, NoneTo, IsLeaf;
      LeafEntry(M(), s);
      TableFacts(M(), Home(s), NoHole);
      MapKeeps(M(), s, e, own);
      tables := tables[pt := tables[pt][i := e]];
      leaf := leaf[s := e];
      owner := if own then owner[e.ppn := Frame(s)] else owner;
      assert M() == MapAt(old(M()), s, e, own);
    }

    /** One page of mappages. The page becomes a frame of its own, or is shared with the kernel. */
    method MapPage(pagetable: Page, a: nat, p: Page, perm: Perm, ghost own: bool) returns (ok: bool)
      requires Valid() && RootKey(pagetable) in node && a / PGSIZE < MAXVPN && IsLeaf(perm)
      requires Slot(pagetable, a / PGSIZE) !in leaf && Mappable(M(), p, perm, own)
      modifies this
      ensures Valid()
      ensures var o := if own && ok then old(owner)[p := Frame(Slot(pagetable, a / PGSIZE))] else old(owner);
        Grown(old(M()).(owner := o), M(), pagetable) && DataKept(old(data), data, o, owner)
      ensures ok <==> old(Missing(M(), pagetable, a / PGSIZE)) <= |old(freelist)|
      ensures ok ==> leaf == old(leaf)[Slot(pagetable, a / PGSIZE) := Pte(true, perm, p)]
      ensures ok ==> freelist == old(freelist)[old(Missing(M(), pagetable, a / PGSIZE))..]
      ensures ok ==> node.Keys == old(node).Keys + Path(pagetable, a / PGSIZE, 1)
      ensures !ok ==> leaf == old(leaf) && freelist == [] && Home(Slot(pagetable, a / PGSIZE)) !in node
    {
      hide Inv, Grown, DataKept, Missing, Home, Path;
      ghost var m, s := M(), Slot(pagetable, a / PGSIZE);
      var pt := Walk(pagetable, a, true);
      ghost var w := M();
      if pt == 0 {
        return false;
      }
      StillMappable(m, w, pagetable, p, perm, own);
      WritePte(pt, PX(0, a), Pte(true, perm, p), s, own);
      ClaimOne(m, w, M(), old(data), data, pagetable, p, s, own);
      return true;
    }

    /** Maps the pages from that of va to that of va + size - 1; on failure, some first `done` of
        them. */
    method MapPages(pagetable: Page, va: nat, size: nat, pa: Page, perm: Perm, ghost own: bool)
      returns (ok: bool, ghost done: nat)
      requires Valid() && RootKey(pagetable) in node && size > 0 && (va + size - 1) / PGSIZE < MAXVPN && IsLeaf(perm)
      requires Range(pagetable, va / PGSIZE, PageCount(va, size)) !! leaf.Keys
      requires AllMappable(M(), pa, PageCount(va, size), perm, own)
      modifies this
      ensures Valid()
      ensures var o := Claimed(old(owner), pagetable, va / PGSIZE, done, pa, own);
        Grown(old(M()).(owner := o), M(), pagetable) && DataKept(old(data), data, o, owner)
      ensures leaf == MapRange(old(leaf), pagetable, va / PGSIZE, done, pa, perm)
      ensures if ok then done == PageCount(va, size) else done < PageCount(va, size)
      ensures ok <==> old(NewTables(M(), pagetable, va / PGSIZE, PageCount(va, size))) <= |old(freelist)|
      ensures ok ==> Spent(old(M()), M(), pagetable, va / PGSIZE, PageCount(va, size), 0)
      ensures !ok ==> freelist == [] && Home(Slot(pagetable, va / PGSIZE + done)) !in node
    {
      hide Inv, Grown, DataKept, Missing, Home, MapRange, Range, RootKey, Path, NewTables, Spent, Claimed,
        AllMappable, Mappable;
      ghost var vpn, n, m0 := va / PGSIZE, PageCount(va, size), M();
      var a, last, p := PgRoundDown(va), PgRoundDown(va + size - 1), pa;
      done := 0;
      GrownSame(M(), pagetable);
      DataSame(data, owner);
      MapRangeNext(leaf, pagetable, vpn, 0, pa, perm);
      ClaimedNext(owner, pagetable, vpn, 0, pa, own);
      SpentNone(M(), pagetable, vpn);
      while true
        invariant Valid() && RootKey(pagetable) in node && m0 == old(M())
        invariant done < n && a == (vpn + done) * PGSIZE && p == pa + done
        invariant Grown(m0.(owner := Claimed(m0.owner, pagetable, vpn, done, pa, own)), M(), pagetable)
        invariant DataKept(old(data), data, Claimed(m0.owner, pagetable, vpn, done, pa, own), owner)
        invariant leaf == MapRange(old(leaf), pagetable, vpn, done, pa, perm)
        invariant Spent(old(M()), M(), pagetable, vpn, done, 0)
        decreases last - a
      {
        ghost var m, d := M(), data;
        PageOf(vpn + done, a);
        NextUnmapped(old(leaf), pagetable, vpn, n, done, pa, perm);
        NextMappable(m0, m, pagetable, vpn, done, n, pa, perm, own);
        MissingCount(m, pagetable, vpn + done);
        ok := MapPage(pagetable, a, p, perm, own);
        ClaimStep(m0, m, M(), old(data), d, data, pagetable, vpn, done, pa, own && ok, own);
        NodeStays(m0.(owner := Claimed(m0.owner, pagetable, vpn, if ok then done + 1 else done, pa, own)), M(),
                  pagetable, RootKey(pagetable));
        if !ok {
          RangeFails(old(M()), m, pagetable, vpn, n, done, 0, 0);
          return false, done;
        }
        SpentOne(m, M(), pagetable, vpn + done, 0);
        SpentNext(old(M()), m, M(), pagetable, vpn, done, 0, 0);
        MapRangeNext(old(leaf), pagetable, vpn, done, pa, perm);
        done := done + 1;
        if a == last {
          SpentFits(old(M()), M(), pagetable, vpn, n, 0);
          return true, done;
        }
        a, p := a + PGSIZE, p + 1;
      }
    }

    /** One page of uvmunmap; false when it panics, because the page is not mapped. */
    method UnmapPage(pagetable: Page, a: nat, doFree: bool) returns (ok: bool)
      requires Valid() && RootKey(pagetable) in node
      requires doFree && Slot(pagetable, a / PGSIZE) in leaf ==> OwnsFrame(M(), Slot(pagetable, a / PGSIZE))
      modifies this
      ensures Valid() && node == old(node) && (ok <==> Slot(pagetable, a / PGSIZE) in old(leaf))
      ensures ok ==> UnmapStep(old(M()), M(), Slot(pagetable, a / PGSIZE), doFree)
      ensures ok && doFree ==> data == old(data)[old(leaf)[Slot(pagetable, a / PGSIZE)].ppn := seq(PGSIZE, _ => 1)]
      ensures ok && !doFree ==> data == old(data)
      ensures !ok ==> M() == old(M()) && data == old(data)
    {
      hide Inv, Grown, DataKept, Missing, Path;
      ghost var m, s := M(), Slot(pagetable, a / PGSIZE);
      if s in leaf { SlotHome(M(), s); }
      if a >= MAXVPN * PGSIZE {
        return false;  // walk panics
      }
      MissingIff(M(), pagetable, a / PGSIZE);
      var pt := Walk(pagetable, a, false);
      if pt == 0 {
        return false;
      }
      LeafEntry(M(), s);
      PXIsIndex(0, a);
      var i := PX(0, a);
      var pte := tables[pt][i];
      if !pte.v {
        return false;
      }
      TableFacts(m, Home(s), NoHole);
      UnmapKeeps(m, s, doFree);
      if doFree {
        Kfree(pte.ppn);
      } else {
        owner := Unowned(owner, s, pte.ppn, false);
      }
      tables := tables[pt := tables[pt][i := ZERO]];
      leaf := leaf - {s};
      assert M() == UnmapAt(m, s, doFree);
      return true;
    }

    /** Removes the translations of the pages from that of va to that of va + size - 1 and frees
        their frames when asked to. It panics exactly when one of them is not mapped, having gone
        through those before; with size 0 and an aligned address it goes through all pages there
        are, and so always panics. */
    method UvmUnmap(pagetable: Page, va: nat, size: nat, doFree: bool) returns (panicked: bool, ghost done: nat)
      requires Valid() && RootKey(pagetable) in node && va < TOP && size < TOP
      requires doFree ==> Freeable(M(), pagetable, va / PGSIZE, UnmapCount(va, size))
      modifies this
      ensures Valid() && node == old(node) && DataKept(old(data), data, old(owner), owner)
      ensures Unmapping(old(M()), M(), pagetable, va / PGSIZE, done, doFree)
      ensures if panicked then done < UnmapCount(va, size) && Slot(pagetable, va / PGSIZE + done) !in old(leaf)
              else done == UnmapCount(va, size)
      ensures panicked <==> !AllMapped(old(leaf), pagetable, va / PGSIZE, UnmapCount(va, size))
    {
      hide Inv, DataKept, UnmapCount, Unmapping, RootKey, Freeable, OwnsFrame;
      ghost var vpn, n, m := va / PGSIZE, UnmapCount(va, size), M();
      done := 0;
      var a, last := PgRoundDown(va), PgRoundDown((va + size + TOP - 1) % TOP);
      DataSame(data, owner);
      UnmapStart(m, pagetable, vpn, doFree);
      while true
        invariant Valid() && done < n && a == (vpn + done) * PGSIZE && node == old(node) && m == old(M())
        invariant Unmapping(m, M(), pagetable, vpn, done, doFree) && DataKept(old(data), data, old(owner), owner)
        decreases n - done
      {
        ghost var t, d := M(), data;
        PageOf(vpn + done, a);
        UnmapNext(m, t, pagetable, vpn, done, n, doFree);
        var ok := UnmapPage(pagetable, a, doFree);
        if !ok {
          assert !Mapped(m.leaf, Slot(pagetable, vpn + done));
          return true, done;
        }
        SlotHome(m, Slot(pagetable, vpn + done));
        UnmapAfter(m, t, M(), pagetable, vpn, done, doFree);
        UnmapData(old(data), d, data, m, t, M(), pagetable, vpn, done, doFree);
        LastPage(va, size, done);
        done := done + 1;
        if a == last {
          UnmapReached(m, M(), pagetable, vpn, n, doFree);
          return false, done;
        }
        a := a + PGSIZE;
      }
    }

    // ---- uvmalloc and uvmdealloc ----

    /** A held page is mapped at address a and becomes its frame; if it cannot be mapped, it is freed. */
    method MapOrFree(pagetable: Page, a: nat, mem: Page, perm: Perm) returns (ok: bool)
      requires Valid() && RootKey(pagetable) in node && a / PGSIZE < MAXVPN && IsLeaf(perm)
      requires Slot(pagetable, a / PGSIZE) !in leaf && mem in owner && owner[mem] == Held && NoneTo(leaf, mem)
      modifies this
      ensures Valid() && DataKept(old(data), data, old(owner), owner) && mem in owner
      ensures Grown(old(M()), M().(owner := owner[mem := Held]), pagetable)
      ensures ok <==> old(Missing(M(), pagetable, a / PGSIZE)) <= |old(freelist)|
      ensures !ok ==> leaf == old(leaf) && owner[mem] == Free
      ensures ok ==> var s := Slot(pagetable, a / PGSIZE);
        leaf == old(leaf)[s := Pte(true, perm, mem)] && owner[mem] == Frame(s) && mem in data && mem in old(data)
          && data[mem] == old(data[mem])
      ensures ok ==> freelist == old(freelist)[old(Missing(M(), pagetable, a / PGSIZE))..]
      ensures ok ==> node.Keys == old(node).Keys + Path(pagetable, a / PGSIZE, 1)
    {
      hide Inv, Grown, DataKept, RootKey, Missing, Path;
      ghost var m, d, s := M(), data, Slot(pagetable, a / PGSIZE);
      ok := MapPage(pagetable, a, mem, perm, true);
      ghost var b, d2 := M(), data;
      if ok {
        MapOrFreeDone(m, b, d, d2, pagetable, mem, s);
      } else {
        GrownHeld(m, b, pagetable, mem);
        Kfree(mem);
        DataUse(d, d2, data, m.owner, b.owner, owner, mem);
        assert owner[mem := Held] == b.owner;
        GrownLeaf(m, b, M().(owner := owner[mem := Held]), pagetable);
      }
    }

    /** A page is taken, filled and mapped at address a; if it cannot be mapped it is given back. */
    method Populate(pagetable: Page, a: nat, perm: Perm, content: Bytes) returns (ok: bool)
      requires Valid() && RootKey(pagetable) in node && a / PGSIZE < MAXVPN && IsLeaf(perm)
      requires Slot(pagetable, a / PGSIZE) !in leaf && |content| == PGSIZE
      modifies this
      ensures Valid() && DataKept(old(data), data, old(owner), owner)
      ensures ok <==> 1 + old(Missing(M(), pagetable, a / PGSIZE)) <= |old(freelist)|
      ensures !ok ==> Grown(old(M()), M(), pagetable) && leaf == old(leaf)
      ensures ok ==> var s := Slot(pagetable, a / PGSIZE);
        && Populated(old(M()), M(), pagetable, {s}) && s in leaf && leaf[s].perm == perm && leaf[s].ppn in data
        && data[leaf[s].ppn] == content
      ensures ok ==> Spent(old(M()), M(), pagetable, a / PGSIZE, 1, 1)
    {
      hide Inv, Grown, Populated, DataKept, RootKey, Missing, Path, NewTables, Spent;
      GrownSame(M(), pagetable);
      DataSame(data, owner);
      ghost var m, d := M(), data;
      var mem := Kalloc();
      if mem == 0 {
        return false;
      }
      MissingSame(m, M(), pagetable, a / PGSIZE);
      MissingCount(m, pagetable, a / PGSIZE);
      data := data[mem := content];
      ghost var d1 := data;
      ok := MapOrFree(pagetable, a, mem, perm);
      DataTake(d, d1, data, m.owner, owner, mem);
      if ok {
        PopulateOne(m, M(), pagetable, Slot(pagetable, a / PGSIZE), perm);
        SpentOne(m, M(), pagetable, a / PGSIZE, 1);
      } else {
        PopulateFails(m, M(), pagetable);
      }
    }

    /** Frees exactly the pages above the new size. The old size may not be larger than the process:
        it panics exactly when one of the pages between the two sizes is not mapped. */
    method UvmDealloc(pagetable: Page, oldsz: nat, newsz: nat) returns (panicked: bool, sz: nat)
      requires Valid() && RootKey(pagetable) in node && PgUp(oldsz) < PAGES
      requires Freeable(M(), pagetable, PgUp(newsz), Above(oldsz, newsz))
      modifies this
      ensures Valid() && node == old(node) && DataKept(old(data), data, old(owner), owner)
      ensures panicked <==> !AllMapped(old(leaf), pagetable, PgUp(newsz), Above(oldsz, newsz))
      ensures !panicked ==> leaf == UnmapRange(old(leaf), pagetable, PgUp(newsz), Above(oldsz, newsz))
      ensures !panicked ==> owner == FreeRange(old(owner), pagetable, PgUp(newsz), Above(oldsz, newsz), true)
      ensures !panicked ==> sz == if newsz < oldsz then newsz else oldsz
    {
      hide Inv, DataKept, UnmapRange, FreeRange, AllMapped, Freeable, RootKey, Above, PgUp, PgRoundUp, UnmapCount,
        Unmapping;
      DataSame(data, owner);
      NoneToMap(leaf, pagetable, PgUp(newsz));
      UnmapRangeNext(leaf, pagetable, PgUp(newsz), 0);
      FreeRangeNone(owner, pagetable, PgUp(newsz), true);
      AboveIs(oldsz, newsz);
      if newsz >= oldsz {
        return false, oldsz;
      }
      panicked := false;
      var newup := PgRoundUp(newsz);
      if newup < PgRoundUp(oldsz) {
        DeallocCount(oldsz, newsz);
        ghost var done;
        panicked, done := UvmUnmap(pagetable, newup, oldsz - newup, true);
        UnmapReached(old(M()), M(), pagetable, PgUp(newsz), done, true);
      }
      sz := newsz;
    }

    /** Grows a process from oldsz to newsz with zeroed pages. On failure every translation and
        every frame is as it was; only page-table pages may have been added. */
    method UvmAlloc(pagetable: Page, oldsz: nat, newsz: nat) returns (sz: nat)
      requires Valid() && RootKey(pagetable) in node && PgUp(newsz) <= MAXVPN
      requires Range(pagetable, PgUp(oldsz), Above(newsz, oldsz)) !! leaf.Keys
      modifies this
      ensures Valid() && DataKept(old(data), data, old(owner), owner)
      ensures newsz < oldsz ==> sz == oldsz && M() == old(M())
      ensures oldsz <= newsz ==>
        var need := old(NewTables(M(), pagetable, PgUp(oldsz), Above(newsz, oldsz))) + Above(newsz, oldsz);
        sz == if need <= |old(freelist)| then newsz else 0
      ensures oldsz <= newsz && sz == newsz ==> Grows(old(M()), M(), data, pagetable, PgUp(oldsz), Above(newsz, oldsz))
      ensures oldsz <= newsz && sz == newsz ==>
                Spent(old(M()), M(), pagetable, PgUp(oldsz), Above(newsz, oldsz), Above(newsz, oldsz))
      ensures oldsz <= newsz && sz != newsz ==> Grown(old(M()), M(), pagetable) && leaf == old(leaf)
    {
      hide Inv, DataKept, Grown, Populated, Range, RootKey, Filled, Missing, Path, NewTables, Spent;
      DataSame(data, owner);
      GrownSame(M(), pagetable);
      if newsz < oldsz {
        return oldsz;
      }
      ghost var m, vpn, n, done := M(), PgUp(oldsz), Above(newsz, oldsz), 0;
      var start := PgRoundUp(oldsz);
      var a := start;
      GrowStart(m, data, pagetable, vpn);
      SpentNone(m, pagetable, vpn);
      while a < newsz
        invariant Valid() && DataKept(old(data), data, old(owner), owner) && RootKey(pagetable) in node
        invariant done <= n && a == (vpn + done) * PGSIZE && Grows(m, M(), data, pagetable, vpn, done)
        invariant Spent(m, M(), pagetable, vpn, done, done)
      {
        ghost var t, d := M(), data;
        RootStays(m, t, pagetable, Range(pagetable, vpn, done));
        GrowNext(m, t, pagetable, vpn, done, n, a, oldsz, newsz);
        MissingCount(t, pagetable, a / PGSIZE);
        var ok := Populate(pagetable, a, USER_PERM, seq(PGSIZE, _ => 0));
        if !ok {
          RangeFails(m, t, pagetable, vpn, n, done, done, 1);
          ghost var f, df := M(), data;
          GrowFails(m, t, f, pagetable, vpn, done);
          DataPop(old(data), d, df, m, t, f.owner, pagetable, Range(pagetable, vpn, done));
          RootStays(m, f, pagetable, Range(pagetable, vpn, done));
          GrowDealloc(vpn, done, a, start);
          var panicked;
          panicked, sz := UvmDealloc(pagetable, a, start);
          PopulatedUndone(m, f, M(), pagetable, vpn, done);
          DataPop(old(data), df, data, m, f, owner, pagetable, Range(pagetable, vpn, done));
          return 0;
        }
        GrowAfter(m, t, M(), d, data, pagetable, vpn, done);
        SpentNext(m, t, M(), pagetable, vpn, done, done, 1);
        DataPop(old(data), d, data, m, t, owner, pagetable, Range(pagetable, vpn, done));
        RootStays(m, M(), pagetable, Range(pagetable, vpn, done + 1));
        done := done + 1;
        a := a + PGSIZE;
      }
      GrowEnd(vpn, n, done, a, oldsz, newsz);
      SpentFits(m, M(), pagetable, vpn, n, n);
      return newsz;
    }

    // ---- uvmcopy ----

    /** Reads the entry of a page that is mapped. */
    method ReadPte(pagetable: Page, a: nat) returns (pte: Pte)
      requires Valid() && RootKey(pagetable) in node && a / PGSIZE < MAXVPN && Slot(pagetable, a / PGSIZE) in leaf
      modifies this
      ensures Valid() && M() == old(M()) && data == old(data) && pte == leaf[Slot(pagetable, a / PGSIZE)] && pte.v
      ensures IsLeaf(pte.perm)
    {
      hide Inv, Grown, DataKept, Missing;
      ghost var s := Slot(pagetable, a / PGSIZE);
      SlotHome(M(), s);
      MissingHome(M(), pagetable, a / PGSIZE);
      var pt := Walk(pagetable, a, false);
      LeafEntry(M(), s);
      PXIsIndex(0, a);
      pte := tables[pt][PX(0, a)];
    }

    /** Gives the new page table a copy of every page below sz, each in a fresh frame; on failure
        the copies made so far are freed. When the very first page fails there are none, and the
        call of uvmunmap to free them panics. */
    method UvmCopy(from: Page, to: Page, sz: nat) returns (r: CopyResult)
      requires Valid() && RootKey(from) in node && RootKey(to) in node && from != to && PgUp(sz) <= MAXVPN
      requires OwnsRange(M(), from, 0, PgUp(sz)) && Range(to, 0, PgUp(sz)) !! leaf.Keys
      modifies this
      ensures Valid() && DataKept(old(data), data, old(owner), owner)
      ensures r == Copied ==> Copies(old(M()), M(), data, from, to, PgUp(sz))
      ensures r != Copied ==> Grown(old(M()), M(), to) && leaf == old(leaf)
      ensures r == Copied <==> old(NewTables(M(), to, 0, PgUp(sz))) + PgUp(sz) <= |old(freelist)|
      ensures r == Panicked <==> sz > 0 && 1 + old(Missing(M(), to, 0)) > |old(freelist)|
    {
      hide Inv, DataKept, Grown, Populated, Range, RootKey, OwnsRange, Missing, Path, NewTables, Spent;
      ghost var m, n, done := M(), PgUp(sz), 0;
      DataSame(data, owner);
      CopyStart(m, data, from, to);
      SpentNone(m, to, 0);
      var i := 0;
      while i < sz
        invariant Valid() && DataKept(old(data), data, old(owner), owner)
        invariant done <= n && i == done * PGSIZE && Copies(m, M(), data, from, to, done)
        invariant Spent(m, M(), to, 0, done, done)
        invariant done == 0 ==> M() == m
        invariant done > 0 ==> 1 + Missing(m, to, 0) <= |m.freelist|
      {
        ghost var t, d := M(), data;
        RootStaysOther(m, t, from, to, Range(to, 0, done));
        CopyNext(m, t, data, from, to, done, n, i, sz);
        var pte := ReadPte(from, i);
        MissingCount(t, to, done);
        var ok := Populate(to, i, pte.perm, data[pte.ppn]);
        if !ok {
          RangeFails(m, t, to, 0, n, done, done, 1);
          ghost var f, df := M(), data;
          GrowFails(m, t, f, to, 0, done);
          DataPop(old(data), d, df, m, t, f.owner, to, Range(to, 0, done));
          RootStays(m, f, to, Range(to, 0, done));
          CopyCount(done, i);
          UndoReach(m, f, to, done, n);
          var panicked, undone := UvmUnmap(to, 0, i, true);
          UndoneIs(f, M(), to, done, undone, panicked);
          PopulatedUndone(m, f, M(), to, 0, done);
          DataPop(old(data), df, data, m, f, owner, to, Range(to, 0, done));
          return if panicked then Panicked else Failed;
        }
        SourceOwned(m, t, from, to, n, Range(to, 0, done));
        CopyAfter(m, t, M(), d, data, from, to, done);
        SpentNext(m, t, M(), to, 0, done, done, 1);
        DataPop(old(data), d, data, m, t, owner, to, Range(to, 0, done));
        done := done + 1;
        i := i + PGSIZE;
      }
      CopyEnd(n, done, i, sz);
      SpentFits(m, M(), to, 0, n, n);
      return Copied;
    }

    // ---- freewalk and uvmfree ----

    /** Frees the table k and every table below it, when no translation is left in it; the entry
        that led to k is left for the caller to clear. */
    method FreeWalk(pagetable: Page, ghost k: Key)
      requires Valid() && k in node && node[k] == pagetable && NoLeafUnder(leaf, k)
      modifies this
      ensures Inv(M(), HoleOf(k)) && data.Keys == owner.Keys && Sized(data) && Pruned(old(M()), M(), UnderOf(k))
      ensures DataKept(old(data), data, old(owner), owner)
      decreases k.h
    {
      hide Inv, DataKept, Pruned, GoneOf, UnderOf, NoLeafUnder, Gone;
      ghost var m := M();
      PruneStart(m, k);
      DataSame(data, owner);
      TableHeight(m, k);
      for i := 0 to ENTRIES
        invariant Valid() && k in node && node[k] == pagetable && leaf == m.leaf
        invariant Pruned(m, M(), GoneOf(k, i)) && DataKept(old(data), data, m.owner, owner)
      {
        ghost var t, d := M(), data;
        EntryOf(t, k, i);
        var pte := tables[pagetable][i];
        if pte.v {
          FreeWalk(pte.ppn, Child(k, i));
          ghost var u := M();
          PruneChild(m, t, u, k, i);
          AfterChild(t, u, k, i);
          CloseKeeps(u, Child(k, i));
          tables := tables[pagetable := tables[pagetable][i := ZERO]];
          PrunedSame(m, u, M(), GoneOf(k, i + 1));
          DataPrune(old(data), d, data, m, t, u, GoneOf(k, i), UnderOf(Child(k, i)));
        } else {
          PruneSkip(m, t, k, i);
        }
      }
      ghost var t, d := M(), data;
      AllCleared(m, t, k);
      PruneEnd(m, t, k);
      FreeTable(pagetable, k);
      DataStep(old(data), d, data, m.owner, t.owner, pagetable);
    }

    /** An empty table is freed. */
    method FreeTable(pagetable: Page, ghost k: Key)
      requires Valid() && k in node && node[k] == pagetable && Cleared(M(), k)
      modifies this
      ensures M() == Unlink(old(M()), k) && Inv(M(), HoleOf(k)) && data.Keys == owner.Keys && Sized(data)
      ensures pagetable in old(data)
      ensures data == old(data)[pagetable := seq(PGSIZE, _ => 1)]
    {
      TableFacts(M(), k, NoHole);
      hide Inv, KeyOk;
      UnlinkKeeps(M(), k);
      data := data[pagetable := seq(PGSIZE, _ => 1)];
      freelist := [pagetable] + freelist;
      node := node - {k};
      owner := owner[pagetable := Free];
    }

    /** Returns every table and every frame of a page table whose only translations are its first
        pages, up to sz. It panics exactly when one of those is missing, and so always when sz is 0. */
    method UvmFree(pagetable: Page, sz: nat) returns (panicked: bool)
      requires Valid() && RootKey(pagetable) in node && PgUp(sz) < PAGES
      requires Freeable(M(), pagetable, 0, UnmapCount(0, sz)) && OnlyBelow(leaf, pagetable, UnmapCount(0, sz))
      modifies this
      ensures Valid() && DataKept(old(data), data, old(owner), owner)
      ensures panicked <==> sz == 0 || !AllMapped(old(leaf), pagetable, 0, PgUp(sz))
      ensures !panicked ==> Freed(old(M()), M(), pagetable)
    {
      hide Inv, DataKept, Freed, AllMapped, Freeable, OnlyBelow, UnmapRange, FreeRange, Pruned, UnderOf, RootKey,
        Range, UnmapCount, Unmapping;
      ghost var m := M();
      CountUp(sz);
      NeverAll(m, pagetable);
      ghost var done;
      panicked, done := UvmUnmap(pagetable, 0, sz, true);
      if panicked {
        return;
      }
      UnmapReached(m, M(), pagetable, 0, done, true);
      ghost var t, d := M(), data;
      NothingUnder(m, t, pagetable, PgUp(sz));
      FreeWalk(pagetable, RootKey(pagetable));
      FreedAll(m, t, M(), pagetable, PgUp(sz));
      DataFree(old(data), d, data, m, t, M(), pagetable, PgUp(sz));
    }

    /** A new, empty page table, or page 0 when memory is out and the kernel panics. */
    method UvmCreate() returns (pagetable: Page)
      requires Valid()
      modifies this
      ensures Valid() && (pagetable == 0 <==> old(freelist) == [])
      ensures pagetable == 0 ==> M() == old(M()) && data == old(data)
      ensures pagetable != 0 ==> M() == NewRoot(Alloc(old(M())), pagetable) && pagetable == old(freelist[0])
      ensures pagetable != 0 ==> forall s :: s in leaf ==> s.root != pagetable
      ensures pagetable != 0 ==> DataKept(old(data), data, old(owner), owner)
    {
      hide Inv;
      pagetable := Kalloc();
      if pagetable == 0 {
        return;
      }
      NewRootKeeps(M(), pagetable);
      tables := tables[pagetable := seq(ENTRIES, _ => ZERO)];
      node := node[RootKey(pagetable) := pagetable];
      owner := owner[pagetable := Table(RootKey(pagetable))];
    }

    /** The page a user address is in, or page 0 when the user may not use it. */
    method WalkAddr(pagetable: Page, va: nat) returns (p: Page)
      requires Valid() && RootKey(pagetable) in node
      modifies this
      ensures Valid() && M() == old(M()) && data == old(data)
      ensures p == if UserMapped(M(), pagetable, va) then leaf[Slot(pagetable, va / PGSIZE)].ppn else 0
    {
      hide Inv, Grown, DataKept, Missing;
      if va >= MAXVPN * PGSIZE {
        return 0;
      }
      MissingIff(M(), pagetable, va / PGSIZE);
      var pt := Walk(pagetable, va, false);
      if pt == 0 {
        return 0;
      }
      LeafEntry(M(), Slot(pagetable, va / PGSIZE));
      PXIsIndex(0, va);
      var pte := tables[pt][PX(0, va)];
      if !pte.v || !pte.perm.u {
        return 0;
      }
      return pte.ppn;
    }

    // ---- copyout and copyin ----

    /** Writes the bytes of src to user addresses from dstva; on failure, the first `done` of them,
        up to the first page the user may not use. */
    method CopyOut(pagetable: Page, dstva: nat, src: Bytes) returns (ok: bool, ghost done: nat)
      requires Valid() && RootKey(pagetable) in node
      modifies this
      ensures Valid() && M() == old(M()) && done <= |src| && Wrote(M(), old(data), data, pagetable, dstva, src[..done])
      ensures ok ==> done == |src|
      ensures !ok ==> done < |src| && !UserMapped(M(), pagetable, dstva + done)
      ensures forall va :: dstva <= va < dstva + done ==> UserMapped(M(), pagetable, va)
    {
      hide Inv, UserMapped, Wrote, RootKey, OwnsFrame;
      var dst, from := dstva, 0;
      WroteNone(M(), data, pagetable, dstva);
      while from < |src|
        invariant Valid() && M() == old(M()) && from <= |src| && (from < |src| ==> dst == dstva + from)
        invariant Wrote(M(), old(data), data, pagetable, dstva, src[..from])
        invariant forall va :: dstva <= va < dstva + from ==> UserMapped(M(), pagetable, va)
      {
        var va0 := PgRoundDown(dst);
        var pa0 := WalkAddr(pagetable, va0);
        UserPage(M(), pagetable, dst, va0);
        if pa0 == 0 {
          return false, from;
        }
        var n := PGSIZE - (dst - va0);
        if n > |src| - from {
          n := |src| - from;
        }
        ghost var d := data;
        data := data[pa0 := Splice(data[pa0], dst - va0, src[from..from + n])];
        WroteMore(M(), old(data), d, data, pagetable, dstva, src, from, n);
        SamePage(M(), pagetable, dst, n);
        from, dst := from + n, va0 + PGSIZE;
      }
      assert src[..from] == src;
      return true, from;
    }

    /** Reads `len` bytes from user addresses from srcva; fails exactly when one of them is in a
        page the user may not use. */
    method CopyIn(pagetable: Page, srcva: nat, len: nat) returns (ok: bool, dst: Bytes)
      requires Valid() && RootKey(pagetable) in node
      modifies this
      ensures Valid() && M() == old(M()) && data == old(data)
      ensures ok <==> forall va :: srcva <= va < srcva + len ==> UserMapped(M(), pagetable, va)
      ensures ok ==> dst == UserBytes(M(), data, pagetable, srcva, len)
    {
      hide Inv, UserMapped, RootKey, OwnsFrame, UserBytes;
      var src := srcva;
      dst := [];
      while |dst| < len
        invariant Valid() && M() == old(M()) && data == old(data) && |dst| <= len
        invariant (|dst| < len ==> src == srcva + |dst|)
        invariant forall va :: srcva <= va < srcva + |dst| ==> UserMapped(M(), pagetable, va)
        invariant dst == UserBytes(M(), data, pagetable, srcva, |dst|)
        decreases len - |dst|
      {
        var va0 := PgRoundDown(src);
        var pa0 := WalkAddr(pagetable, va0);
        UserPage(M(), pagetable, src, va0);
        if pa0 == 0 {
          return false, [];
        }
        var n := PGSIZE - (src - va0);
        if n > len - |dst| {
          n := len - |dst|;
        }
        SamePage(M(), pagetable, src, n);
        ReadBytes(M(), data, pagetable, src, va0, n);
        UserBytesSplit(M(), data, pagetable, srcva, |dst|, n);
        dst := dst + data[pa0][src - va0..src - va0 + n];
        src := va0 + PGSIZE;
      }
      return true, dst;
    }
  }

  // ---- the shortest way to the panic of uvmcopy ----

  lemma {:induction false} PagesCount(lo: nat, hi: nat)
    requires lo <= hi
    ensures |PagesOf(lo, hi)| == hi - lo
    decreases hi
  {
    if lo < hi {
      PagesCount(lo, hi - 1);
      assert PagesOf(lo, hi) == PagesOf(lo, hi - 1) + {hi - 1};
    } else {
      assert PagesOf(lo, hi) == {};
    }
  }

  lemma {:induction false} ListCount(ps: set<Page>, list: seq<Page>)
    requires (forall p :: p in ps <==> p in list) && forall i, j :: 0 <= i < j < |list| ==> list[i] != list[j]
    ensures |list| == |ps|
    decreases |list|
  {
    if list != [] {
      ListCount(ps - {list[0]}, list[1..]);
    } else {
      assert ps == {};
    }
  }

  lemma AllFree(m: Mem, lo: nat, hi: nat)
    requires Inv(m, NoHole) && lo <= hi && m.owner == map p | p in PagesOf(lo, hi) :: Free
    ensures |m.freelist| == hi - lo
  {
    hide TreeOk, PagesOf;
    forall p | p in m.owner ensures p in m.freelist { assert PageOk(m, p); }
    ListCount(PagesOf(lo, hi), m.freelist);
    PagesCount(lo, hi);
  }

  /** What the one process has. */
  lemma OnePage(m: Mem, t: Mem, d: map<Page, Bytes>, a: Page, b: Page)
    requires Grows(m, t, d, a, 0, 1) && m.leaf == map[] && a != b
    ensures OwnsRange(t, a, 0, 1) && Range(b, 0, 1) !! t.leaf.Keys
    ensures forall k :: k in m.node ==> k in t.node
  {
    forall v: nat | v < 1 ensures OwnsFrame(t, Slot(a, v)) { assert Slot(a, v) in Range(a, 0, 1); }
  }

  /** Five pages, two of them the roots of empty page tables. */
  method TwoRoots() returns (mem: Memory, a: Page, b: Page)
    ensures fresh(mem) && mem.Valid() && |mem.freelist| == 3 && a != b
    ensures mem.leaf == map[] && mem.node == map[RootKey(a) := a, RootKey(b) := b]
  {
    hide Inv, NewRoot, Alloc;
    mem := FreshPages(5);
    ghost var m := mem.M();
    a := mem.UvmCreate();
    ghost var t := mem.M();
    RootMade(m, t, a);
    b := mem.UvmCreate();
    RootMade(t, mem.M(), b);
  }

  /** Pages 1 to n, all free. */
  method FreshPages(n: nat) returns (mem: Memory)
    ensures fresh(mem) && mem.Valid() && |mem.freelist| == n && mem.leaf == map[] && mem.node == map[]
    ensures forall p :: p in mem.owner ==> p <= n
  {
    hide Inv;
    mem := new Memory(PGSIZE, (n + 1) * PGSIZE);
    assert PgUp(PGSIZE) == 1 && (n + 1) * PGSIZE / PGSIZE == n + 1;
    AllFree(mem.M(), 1, n + 1);
  }

  lemma RootMade(m: Mem, t: Mem, r: Page)
    requires Inv(m, NoHole) && m.freelist != [] && r == m.freelist[0] && t == NewRoot(Alloc(m), r)
    ensures |t.freelist| == |m.freelist| - 1 && t.leaf == m.leaf && t.node == m.node[RootKey(r) := r]
    ensures r in m.owner && m.owner[r] == Free && t.owner == m.owner[r := Table(RootKey(r))]
  {
    hide Inv;
    AllocKeeps(m, NoHole);
  }

  lemma RoomForOne(m: Mem, a: Page, b: Page)
    requires Inv(m, NoHole) && m.node == map[RootKey(a) := a, RootKey(b) := b] && |m.freelist| == 3
    ensures NewTables(m, a, 0, 1) == 2
  {
    hide Inv, NewTables;
    MissingCount(m, a, 0);
    assert At(a, 0, 1).h == 1 && At(a, 0, 2).h == 2;
  }

  lemma NoneLeft(m: Mem, t: Mem, a: Page)
    requires Spent(m, t, a, 0, 1, 1) && NewTables(m, a, 0, 1) == 2 && |m.freelist| == 3
    ensures t.freelist == []
  {}

  /** With five pages, the first process leaves none for a copy of its one page. */
  method FirstPagePanics() returns (r: CopyResult)
    ensures r == Panicked
  {
    hide Inv, Grows, Spent, NewTables, Range, DataKept, OwnsRange, Copies, Grown;
    var mem, a, b := TwoRoots();
    ghost var m := mem.M();
    RoomForOne(m, a, b);
    assert PgUp(0) == 0 && Above(PGSIZE, 0) == 1 == PgUp(PGSIZE);
    var sz := mem.UvmAlloc(a, 0, PGSIZE);
    NoneLeft(m, mem.M(), a);
    OnePage(m, mem.M(), mem.data, a, b);
    r := mem.UvmCopy(a, b, PGSIZE);
  }

  /** A process of one page is said to be two pages large: giving up its memory panics. */
  method ShortProcessPanics() returns (panicked: bool)
    ensures panicked
  {
    hide Inv, Grows, Spent, NewTables, DataKept, OwnsRange, Grown, Freeable;
    var mem, a, b := TwoRoots();
    ghost var m := mem.M();
    RoomForOne(m, a, b);
    assert PgUp(0) == 0 && Above(PGSIZE, 0) == 1 == PgUp(PGSIZE);
    var sz := mem.UvmAlloc(a, 0, PGSIZE);
    ShortRange(m, mem.M(), mem.data, a, b);
    assert Above(2 * PGSIZE, 0) == 2;
    panicked, sz := mem.UvmDealloc(a, 2 * PGSIZE, 0);
  }

  lemma ShortRange(m: Mem, t: Mem, d: map<Page, Bytes>, a: Page, b: Page)
    requires Grows(m, t, d, a, 0, 1) && m.leaf == map[] && a != b
    ensures Freeable(t, a, 0, 2) && !AllMapped(t.leaf, a, 0, 2)
    ensures forall k :: k in m.node ==> k in t.node
  {
    OnePage(m, t, d, a, b);
    assert !Mapped(t.leaf, Slot(a, 1));
    forall v: nat | v < 2 && AllMapped(t.leaf, a, 0, v) && Mapped(t.leaf, Slot(a, v)) ensures OwnsFrame(t, Slot(a, v)) {
      assert v < 1;
    }
  }
}
