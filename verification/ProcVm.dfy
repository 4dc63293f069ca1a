/** The memory of a process in kernel/proc.c: its page table with the trampoline and trapframe pages,
    freeing it, and what fork does to memory. */
module ProcVm {
  import opened VmSpec
  import opened Vm
  import VmTheory

  /** The two highest pages below MAXVA. */
  const TRAMPOLINE := MAXVPN - 1
  const TRAPFRAME := MAXVPN - 2

  const TEXT_PERM := Perm(true, false, true, false)
  const FRAME_PERM := Perm(true, true, false, false)

  /** Page table r maps the trampoline and the trapframe page. */
  ghost predicate KernelPages(leaf: map<Slot, Pte>, r: Page) {
    Slot(r, TRAMPOLINE) in leaf && Slot(r, TRAPFRAME) in leaf
  }

  lemma HighPages(r: Page)
    ensures TRAMPOLINE * PGSIZE / PGSIZE == TRAMPOLINE && PageCount(TRAMPOLINE * PGSIZE, PGSIZE) == 1
    ensures TRAPFRAME * PGSIZE / PGSIZE == TRAPFRAME && PageCount(TRAPFRAME * PGSIZE, PGSIZE) == 1
    ensures Home(Slot(r, TRAMPOLINE)) == Home(Slot(r, TRAPFRAME))
  {}

  /** A new root has no table below it. */
  lemma BareRoot(m: Mem, r: Page, v: nat)
    requires Inv(m, NoHole) && m.freelist != [] && r == m.freelist[0] && Inv(NewRoot(Alloc(m), r), NoHole) && v < MAXVPN
    ensures NewTables(NewRoot(Alloc(m), r), r, v, 1) == 2
  {
    AllocKeeps(m, NoHole);
    VmTheory.NoTablesOf(Alloc(m), r);
    hide Inv, NewTables;
    MissingCount(NewRoot(Alloc(m), r), r, v);
  }

  lemma SameTable(m: Mem, r: Page)
    requires Inv(m, NoHole)
    ensures NewTables(m, r, TRAPFRAME, 1) == 0 <==> Home(Slot(r, TRAMPOLINE)) in m.node
  {
    hide Inv, NewTables;
    HighPages(r);
    MissingCount(m, r, TRAPFRAME);
    MissingIff(m, r, TRAPFRAME);
  }

  lemma OneClaim(owner: map<Page, Owner>, leaf: map<Slot, Pte>, r: Page, v: nat, n: nat, p: Page, perm: Perm)
    requires n <= 1
    ensures Claimed(owner, r, v, n, p, false) == owner
    ensures MapRange(leaf, r, v, n, p, perm) == if n == 1 then leaf[Slot(r, v) := Pte(true, perm, p)] else leaf
  {
    ClaimedNext(owner, r, v, n, p, false);
    MapRangeNext(leaf, r, v, 0, p, perm);
  }

  /** A page of the kernel is mapped at one of the two high addresses. */
  method MapKernelPage(mem: Memory, pagetable: Page, v: nat, p: Page, perm: Perm) returns (ok: bool)
    requires mem.Valid() && RootKey(pagetable) in mem.node && (v == TRAMPOLINE || v == TRAPFRAME)
    requires IsLeaf(perm) && !perm.u && (p in mem.owner ==> mem.owner[p] == Held) && Slot(pagetable, v) !in mem.leaf
    modifies mem
    ensures mem.Valid() && Grown(old(mem.M()), mem.M(), pagetable)
    ensures DataKept(old(mem.data), mem.data, old(mem.owner), mem.owner)
    ensures ok <==> old(NewTables(mem.M(), pagetable, v, 1)) <= |old(mem.freelist)|
    ensures mem.leaf == if ok then old(mem.leaf)[Slot(pagetable, v) := Pte(true, perm, p)] else old(mem.leaf)
    ensures ok ==> Spent(old(mem.M()), mem.M(), pagetable, v, 1, 0)
    ensures !ok ==> mem.freelist == [] && Home(Slot(pagetable, v)) !in mem.node
  {
    hide Inv, Grown, DataKept, NewTables, Spent, MapRange, Claimed, RootKey, Home;
    HighPages(pagetable);
    assert AllMappable(mem.M(), p, 1, perm, false);
    ghost var done: nat;
    ok, done := mem.MapPages(pagetable, v * PGSIZE, PGSIZE, p, perm, false);
    OneClaim(old(mem.owner), old(mem.leaf), pagetable, v, done, p, perm);
  }

  lemma TablesUsed(m: Mem, t: Mem, r: Page)
    requires Spent(m, t, r, TRAMPOLINE, 1, 0) && NewTables(m, r, TRAMPOLINE, 1) == 2
    ensures |t.freelist| == |m.freelist| - 2 && Home(Slot(r, TRAMPOLINE)) in t.node
    ensures t.node.Keys == m.node.Keys + Path(r, TRAMPOLINE, 1)
  {
    hide NewTables, Path;
    PathNext(r, TRAMPOLINE, 0);
    Descent(r, TRAMPOLINE, 0);
  }

  lemma NoTableUsed(m: Mem, t: Mem, r: Page)
    requires Spent(m, t, r, TRAPFRAME, 1, 0) && NewTables(m, r, TRAPFRAME, 1) == 0
    ensures |t.freelist| == |m.freelist| && t.node.Keys == m.node.Keys
  {
    hide Path;
    NothingNew(m.node.Keys, Path(r, TRAPFRAME, 1));
  }

  lemma NothingNew(m: set<Key>, p: set<Key>)
    requires |p - m| == 0
    ensures m + p == m
  {
    assert p - m == {};
    forall k ensures k in p ==> k in m { assert k !in p - m; }
  }

  lemma StaysHeld(m: Mem, t: Mem, r: Page, p: Page)
    requires p in m.owner && m.owner[p] == Held && Grown(m, t, r)
    ensures p in t.owner && t.owner[p] == Held
  {}

  /** proc_pagetable: a page table with the two kernel pages, or 0 when uvmcreate panics. It does not
      look at the results of mappages: when three pages are not free, neither of the two is mapped. */
  method ProcPagetable(mem: Memory, trampoline: Page, tf: Page) returns (pagetable: Page)
    requires mem.Valid() && tf in mem.owner && mem.owner[tf] == Held && trampoline !in mem.owner
    modifies mem
    ensures mem.Valid() && (pagetable == 0 <==> old(mem.freelist) == [])
    ensures pagetable != 0 ==> pagetable == old(mem.freelist[0]) && RootKey(pagetable) in mem.node
    ensures pagetable != 0 ==> Grown(NewRoot(Alloc(old(mem.M())), pagetable), mem.M(), pagetable)
    ensures pagetable != 0 ==> DataKept(old(mem.data), mem.data, old(mem.owner), mem.owner)
    ensures |old(mem.freelist)| >= 3 ==>
              mem.node.Keys == old(mem.node).Keys + {RootKey(pagetable)} + Path(pagetable, TRAMPOLINE, 1)
    ensures if |old(mem.freelist)| >= 3
      then mem.leaf == old(mem.leaf)[Slot(pagetable, TRAMPOLINE) := Pte(true, TEXT_PERM, trampoline)]
                                    [Slot(pagetable, TRAPFRAME) := Pte(true, FRAME_PERM, tf)]
           && |mem.freelist| == |old(mem.freelist)| - 3
      else mem.leaf == old(mem.leaf) && mem.freelist == []
  {
    hide Inv, Grown, DataKept, NewTables, Spent, Home;
    ghost var m := mem.M();
    pagetable := mem.UvmCreate();
    if pagetable == 0 {
      return;
    }
    ghost var r, d := mem.M(), mem.data;
    RootMade(m, r, pagetable);
    BareRoot(m, pagetable, TRAMPOLINE);
    var ok := MapKernelPage(mem, pagetable, TRAMPOLINE, trampoline, TEXT_PERM);
    ghost var t, d2 := mem.M(), mem.data;
    if ok { TablesUsed(r, t, pagetable); }
    StaysHeld(r, t, pagetable, tf);
    SameTable(t, pagetable);
    HighPages(pagetable);
    NodeStays(r, t, pagetable, RootKey(pagetable));
    ok := MapKernelPage(mem, pagetable, TRAPFRAME, tf, FRAME_PERM);
    if ok { NoTableUsed(t, mem.M(), pagetable); }
    NodeStays(t, mem.M(), pagetable, RootKey(pagetable));
    GrownTrans(r, t, mem.M(), pagetable);
    DataTrans(d, d2, mem.data, r, t, mem.M(), pagetable);
    DataRoot(old(mem.data), d, mem.data, m, r, mem.M(), pagetable);
  }

  lemma DataRoot(d: map<Page, Bytes>, d': map<Page, Bytes>, d'': map<Page, Bytes>, m: Mem, r: Mem, t: Mem, p: Page)
    requires d.Keys == m.owner.Keys && p in m.owner && m.owner[p] == Free
    requires r.owner == m.owner[p := Table(RootKey(p))] && Grown(r, t, p)
    requires DataKept(d, d', m.owner, r.owner) && DataKept(d', d'', r.owner, t.owner)
    ensures DataKept(d, d'', m.owner, t.owner)
  {}

  // ---- freeing ----

  /** Page table r has the first n pages, in frames of its own, and else at most the kernel's two. */
  ghost predicate ProcessOnly(m: Mem, r: Page, n: nat) {
    && AllMapped(m.leaf, r, 0, n) && Freeable(m, r, 0, n)
    && (forall s :: s in m.leaf && s.root == r ==> s in Range(r, 0, n) || s.vpn == TRAMPOLINE || s.vpn == TRAPFRAME)
    && !OwnsFrame(m, Slot(r, TRAMPOLINE)) && !OwnsFrame(m, Slot(r, TRAPFRAME))
  }

  lemma HighCount(v: nat)
    requires v == TRAMPOLINE || v == TRAPFRAME
    ensures v * PGSIZE < TOP && v * PGSIZE / PGSIZE == v && UnmapCount(v * PGSIZE, PGSIZE) == 1
  {
    UnmapCountIs(v * PGSIZE, PGSIZE);
  }

  /** A page that is not a frame is unmapped: nothing else changes. */
  lemma OneUnmapped(m: Mem, t: Mem, r: Page, v: nat, n: nat)
    requires Unmapping(m, t, r, v, n, false) && n <= 1 && (Slot(r, v) in m.leaf ==> !OwnsFrame(m, Slot(r, v)))
    requires Inv(m, NoHole)
    ensures t.owner == m.owner && t.leaf == (if n == 1 then m.leaf - {Slot(r, v)} else m.leaf)
    ensures n == 1 ==> Slot(r, v) in m.leaf
  {
    hide Inv, FreeRange, UnmapRange, Range;
    FreeRangeNone(m.owner, r, v, false);
    UnmapRangeNext(m.leaf, r, v, 0);
    if n == 1 {
      assert Mapped(m.leaf, Slot(r, v));
      FrameIsUnique(m, Slot(r, v));
      FreeRangeNext(m.owner, r, v, 0, m.leaf[Slot(r, v)].ppn, false);
    }
  }

  method UnmapKernelPage(mem: Memory, pagetable: Page, v: nat) returns (panicked: bool)
    requires mem.Valid() && RootKey(pagetable) in mem.node && (v == TRAMPOLINE || v == TRAPFRAME)
    requires !OwnsFrame(mem.M(), Slot(pagetable, v))
    modifies mem
    ensures mem.Valid() && mem.node == old(mem.node) && mem.owner == old(mem.owner)
    ensures panicked <==> Slot(pagetable, v) !in old(mem.leaf)
    ensures mem.leaf == old(mem.leaf) - {Slot(pagetable, v)}
    ensures DataKept(old(mem.data), mem.data, old(mem.owner), mem.owner)
  {
    hide Inv, DataKept, Unmapping, OwnsFrame, UnmapCount, AllMapped;
    HighCount(v);
    ghost var done: nat;
    panicked, done := mem.UvmUnmap(pagetable, v * PGSIZE, PGSIZE, false);
    OneUnmapped(old(mem.M()), mem.M(), pagetable, v, done);
  }

  /** Without the two kernel pages, only the process's own are left. */
  lemma OwnLeft(m: Mem, t: Mem, r: Page, n: nat)
    requires ProcessOnly(m, r, n) && n <= TRAPFRAME
    requires t.leaf == m.leaf - {Slot(r, TRAMPOLINE)} - {Slot(r, TRAPFRAME)} && t.owner == m.owner
    ensures AllMapped(t.leaf, r, 0, n) && Freeable(t, r, 0, n) && OnlyBelow(t.leaf, r, n)
  {
    forall v: nat | v < n ensures Mapped(t.leaf, Slot(r, v)) { assert Mapped(m.leaf, Slot(r, v)); }
    forall v: nat | v < n && AllMapped(t.leaf, r, 0, v) && Mapped(t.leaf, Slot(r, v)) ensures OwnsFrame(t, Slot(r, v)) {
      assert v - 0 == v && AllMapped(m.leaf, r, 0, v) && Mapped(m.leaf, Slot(r, v));
    }
  }

  lemma FreedToo(m: Mem, t: Mem, u: Mem, r: Page)
    requires t.leaf == m.leaf - {Slot(r, TRAMPOLINE)} - {Slot(r, TRAPFRAME)} && t.owner == m.owner && t.node == m.node
    requires Freed(t, u, r)
    ensures Freed(m, u, r) && forall p :: p in u.owner ==> !UsedBy(u.owner[p], r)
  {}

  lemma RootKept(m: Mem, r: Page)
    requires Inv(m, NoHole) && RootKey(r) in m.node
    ensures r in m.owner && UsedBy(m.owner[r], r)
  {
    hide Inv;
    RootPage(m, r);
    TableFacts(m, RootKey(r), NoHole);
  }

  /** proc_freepagetable. It panics exactly when the kernel's two pages are not mapped. It gives back
      every page of the page table exactly when sz > 0: with sz 0 every table stays in use, though
      nothing refers to the page table any more. */
  method ProcFreePagetable(mem: Memory, pagetable: Page, sz: nat) returns (panicked: bool)
    requires mem.Valid() && RootKey(pagetable) in mem.node && PgUp(sz) <= TRAPFRAME
    requires ProcessOnly(mem.M(), pagetable, PgUp(sz))
    modifies mem
    ensures mem.Valid() && (panicked <==> !KernelPages(old(mem.leaf), pagetable))
    ensures DataKept(old(mem.data), mem.data, old(mem.owner), mem.owner)
    ensures !panicked && sz > 0 ==> Freed(old(mem.M()), mem.M(), pagetable)
    ensures !panicked && sz == 0 ==> mem.owner == old(mem.owner) && mem.node == old(mem.node)
    ensures !panicked && sz == 0 ==>
              mem.leaf == old(mem.leaf) - {Slot(pagetable, TRAMPOLINE)} - {Slot(pagetable, TRAPFRAME)}
    ensures !panicked ==> ((forall p :: p in mem.owner ==> !UsedBy(mem.owner[p], pagetable)) <==> sz > 0)
  {
    hide Inv, DataKept, OwnsFrame, Freed, UsedBy, AllMapped, Freeable, OnlyBelow;
    ghost var m, d := mem.M(), mem.data;
    panicked := UnmapKernelPage(mem, pagetable, TRAMPOLINE);
    if panicked {
      return;
    }
    ghost var d1 := mem.data;
    StillNoFrame(m, mem.M(), pagetable);
    panicked := UnmapKernelPage(mem, pagetable, TRAPFRAME);
    ghost var t, d2 := mem.M(), mem.data;
    DataChain(d, d1, d2, m.owner, m.owner);
    if panicked {
      return;
    }
    if sz > 0 {
      OwnLeft(m, t, pagetable, PgUp(sz));
      CountUp(sz);
      panicked := mem.UvmFree(pagetable, sz);
      DataChain(d, d2, mem.data, m.owner, mem.owner);
      FreedToo(m, t, mem.M(), pagetable);
    } else {
      RootKept(t, pagetable);
    }
  }

  lemma StillNoFrame(m: Mem, t: Mem, r: Page)
    requires !OwnsFrame(m, Slot(r, TRAPFRAME)) && t.owner == m.owner && t.leaf == m.leaf - {Slot(r, TRAMPOLINE)}
    ensures !OwnsFrame(t, Slot(r, TRAPFRAME))
  {}

  lemma DataChain(d: map<Page, Bytes>, d': map<Page, Bytes>, d'': map<Page, Bytes>,
                  o: map<Page, Owner>, u: map<Page, Owner>)
    requires d.Keys == o.Keys && DataKept(d, d', o, o) && DataKept(d', d'', o, u)
    ensures DataKept(d, d'', o, u)
  {}

  // ---- fork ----

  /** What fork makes of memory: the child's page table and trapframe; no page for the trapframe; no
      memory for the copy, the child's page table having been `dropped`; or a panic. */
  datatype ForkOutcome = Child(pagetable: Page, tf: Page) | NoTrapframe | NoCopy(dropped: Page) | Panic

  /** From m to t nothing changed but that free pages became tables of r. */
  ghost predicate Leaked(m: Mem, t: Mem, r: Page) {
    && t.leaf == m.leaf && t.owner.Keys == m.owner.Keys
    && (forall p :: p in m.owner ==>
        t.owner[p] == m.owner[p] || (m.owner[p].Free? && t.owner[p].Table? && t.owner[p].k.root == r))
  }

  /** The child has a copy of each page of the parent. */
  ghost predicate ChildCopies(t: Mem, d: map<Page, Bytes>, parent: Page, child: Page, n: nat) {
    forall v: nat :: v < n ==> PageCopied(t, d, parent, child, v) && OwnsFrame(t, Slot(child, v))
  }

  lemma CopyReady(m: Mem, a: Mem, r: Mem, t: Mem, parent: Page, np: Page, n: nat)
    requires Inv(m, NoHole) && OwnsRange(m, parent, 0, n) && RootKey(parent) in m.node && n <= TRAPFRAME
    requires m.freelist != [] && m.freelist[0] in m.owner && m.owner[m.freelist[0]] == Free && a == Alloc(m)
    requires a.freelist != [] && np == a.freelist[0] && np in a.owner && a.owner[np] == Free
    requires r == NewRoot(Alloc(a), np)
    requires Grown(r, t, np) && NewPages(m.leaf, t.leaf, np)
    ensures OwnsRange(t, parent, 0, n) && RootKey(parent) in t.node && Range(np, 0, n) !! t.leaf.Keys && parent != np
  {
    hide Inv;
    NotRoot(m, parent, np);
    forall v: nat | v < n ensures OwnsFrame(t, Slot(parent, v)) {
      assert OwnsFrame(m, Slot(parent, v));
    }
    assert RootKey(parent) in r.node;
  }

  /** From m to t at most the kernel's two pages were mapped, in page table np, which has no others. */
  ghost predicate NewPages(leaf: map<Slot, Pte>, leaf': map<Slot, Pte>, np: Page) {
    && (forall s :: s in leaf ==> s.root != np && s in leaf' && leaf'[s] == leaf[s])
    && leaf'.Keys <= leaf.Keys + {Slot(np, TRAMPOLINE), Slot(np, TRAPFRAME)}
  }

  /** A free page is the root of no page table. */
  lemma NotRoot(m: Mem, parent: Page, np: Page)
    requires Inv(m, NoHole) && RootKey(parent) in m.node && np in m.owner && m.owner[np] == Free
    ensures parent != np
  {
    RootPage(m, parent);
    TableFacts(m, RootKey(parent), NoHole);
  }

  /** How many tables n pages from address 0 take in a page table that has those of the trampoline: one
      per 512 pages and one per 262144, of which the highest are there. */
  function LowTables(n: nat): int {
    (n + 511) / 512 + (n + 262143) / 262144
    - (if n > 512 * 131071 then 1 else 0) - (if n > 262144 * 255 then 1 else 0)
  }

  /** Page table r has just its root and the tables of the trampoline. */
  ghost predicate OnlyHigh(node: set<Key>, r: Page) {
    forall k: Key :: k.root == r ==> (k in node <==> k == RootKey(r) || k == Key(r, 1, 131071) || k == Key(r, 2, 255))
  }

  lemma HighOnly(m: Mem, t: Mem, r: Page)
    requires (forall k :: k in m.node ==> k.root != r)
    requires t.node.Keys == m.node.Keys + {RootKey(r)} + Path(r, TRAMPOLINE, 1)
    ensures OnlyHigh(t.node.Keys, r)
  {
    PathNext(r, TRAMPOLINE, 0);
    hide Path;
    TablesAt(r, TRAMPOLINE);
  }

  lemma TablesAt(r: Page, v: nat)
    ensures At(r, v, 1) == Key(r, 1, v / 512) && At(r, v, 2) == Key(r, 2, v / 262144)
  {
    assert Pos(v, 0) == v;
    assert Pos(v, 1) == Pos(v, 0) / 512;
    assert Pos(v, 2) == Pos(v, 1) / 512;
    hide Pos;
    assert v / 512 / 512 == v / 262144;
  }

  lemma Quotients(n: nat, v: nat)
    requires v < n
    ensures n % 512 != 0 ==> (n - 1) / 512 == n / 512
    ensures n % 262144 != 0 ==> (n - 1) / 262144 == n / 262144
    ensures n % 512 == 0 ==> v / 512 != n / 512
    ensures n % 262144 == 0 ==> v / 262144 != n / 262144
  {}

  /** When the pages before page n already need its tables. */
  lemma SharedTables(r: Page, n: nat)
    ensures At(r, n, 1) in Path(r, 0, n) <==> n % 512 != 0
    ensures At(r, n, 2) in Path(r, 0, n) <==> n % 262144 != 0
  {
    hide At;
    TablesAt(r, n);
    forall v: nat | v < n
      ensures At(r, v, 1) == At(r, n, 1) ==> n % 512 != 0
      ensures At(r, v, 2) == At(r, n, 2) ==> n % 262144 != 0
      ensures At(r, v, 1) != At(r, n, 2) && At(r, v, 2) != At(r, n, 1)
    {
      TablesAt(r, v);
      Quotients(n, v);
    }
    if n > 0 {
      Quotients(n, n - 1);
      TablesAt(r, n - 1);
      assert At(r, n - 1, 1) in Path(r, 0, n) && At(r, n - 1, 2) in Path(r, 0, n);
    }
  }

  lemma CeilNext(n: nat)
    ensures (n + 512) / 512 == (n + 511) / 512 + if n % 512 == 0 then 1 else 0
    ensures (n + 262144) / 262144 == (n + 262143) / 262144 + if n % 262144 == 0 then 1 else 0
    ensures n == 512 * 131071 <==> n % 512 == 0 && n / 512 == 131071
    ensures n == 262144 * 255 <==> n % 262144 == 0 && n / 262144 == 255
    ensures n % 262144 == 0 ==> n % 512 == 0
  {}

  lemma LowTablesNext(n: nat)
    requires n < TRAPFRAME
    ensures LowTables(0) == 0
    ensures LowTables(n + 1) == LowTables(n) +
            (if n % 512 != 0 || n / 512 == 131071 then 0 else if n % 262144 != 0 || n / 262144 == 255 then 1 else 2)
    ensures n % 512 != 0 || n / 512 == 131071 ==> n % 262144 != 0 || n / 262144 == 255
  {
    CeilNext(n);
    assert n / 512 == 131071 ==> n / 262144 == 255;
  }

  lemma PairMore(node: set<Key>, p: set<Key>, a: Key, b: Key)
    requires a != b && (a in node + p ==> b in node + p)
    ensures |p + {a, b} - node| == |p - node| + if a in node + p then 0 else if b in node + p then 1 else 2
  {
    GainSize(node, p, {a, b});
    PairSize(node + p, a, b);
  }

  /** What one more page adds to the tables that are missing. */
  lemma OneMore(m: Mem, r: Page, n: nat)
    requires At(r, n, 1) in m.node.Keys + Path(r, 0, n) ==> At(r, n, 2) in m.node.Keys + Path(r, 0, n)
    ensures var there := m.node.Keys + Path(r, 0, n);
            NewTables(m, r, 0, n + 1) == NewTables(m, r, 0, n) +
              (if At(r, n, 1) in there then 0 else if At(r, n, 2) in there then 1 else 2)
  {
    hide At, Path;
    TablesAt(r, n);
    PathNext(r, 0, n);
    PathNext(r, n, 0);
    assert Path(r, 0, n + 1) == Path(r, 0, n) + {At(r, n, 1), At(r, n, 2)};
    PairMore(m.node.Keys, Path(r, 0, n), At(r, n, 1), At(r, n, 2));
  }

  lemma {:induction false} LowTablesCount(m: Mem, r: Page, n: nat)
    requires OnlyHigh(m.node.Keys, r) && n <= TRAPFRAME
    ensures NewTables(m, r, 0, n) == LowTables(n)
    decreases n
  {
    hide LowTables, At, Path, NewTables;
    if n == 0 {
      SpentNone(m, r, 0);
      LowTablesNext(0);
    } else {
      LowTablesCount(m, r, n - 1);
      SharedTables(r, n - 1);
      TablesAt(r, n - 1);
      LowTablesNext(n - 1);
      assert At(r, n - 1, 1) in m.node.Keys <==> (n - 1) / 512 == 131071;
      assert At(r, n - 1, 2) in m.node.Keys <==> (n - 1) / 262144 == 255;
      OneMore(m, r, n - 1);
    }
  }

  lemma FirstTables(m: Mem, r: Page, n: nat)
    requires OnlyHigh(m.node.Keys, r)
    ensures Missing(m, r, 0) == 2 && (n > 0 ==> LowTables(n) >= 2)
  {
    TablesAt(r, 0);
  }

  /** The part of allocproc, fork and freeproc that is about memory: four pages for the trapframe and
      the page table, and then the copy. When the copy fails, freeproc is called before the child has
      a size, so the tables of its page table are never freed. */
  method Fork(mem: Memory, parent: Page, sz: nat, trampoline: Page) returns (out: ForkOutcome)
    requires mem.Valid() && RootKey(parent) in mem.node && PgUp(sz) <= TRAPFRAME
    requires OwnsRange(mem.M(), parent, 0, PgUp(sz))
    requires trampoline !in mem.owner
    modifies mem
    ensures out != Panic ==> mem.Valid()
    ensures out == NoTrapframe <==> old(mem.freelist) == []
    ensures out == NoTrapframe ==> mem.M() == old(mem.M())
    ensures out == Panic <==> |old(mem.freelist)| == 1 || (sz > 0 && 1 < |old(mem.freelist)| < 7)
    ensures out.NoCopy? ==> sz > 0 && Leaked(old(mem.M()), mem.M(), out.dropped)
    ensures out.NoCopy? ==> out.dropped in mem.owner && mem.owner[out.dropped] == Table(RootKey(out.dropped))
    ensures out.NoCopy? ==> out.dropped in old(mem.owner) && old(mem.owner)[out.dropped] == Free
    ensures out.Child? <==>
              if sz == 0 then |old(mem.freelist)| >= 2 else LowTables(PgUp(sz)) + PgUp(sz) + 4 <= |old(mem.freelist)|
    ensures out.Child? ==> ChildCopies(mem.M(), mem.data, parent, out.pagetable, PgUp(sz))
  {
    hide Inv, Grown, DataKept, OwnsRange, Leaked, ChildCopies, NewPages, Missing, Path, NewTables, Spent, Copies, Range;
    ghost var m := mem.M();
    var tf := mem.Kalloc();
    if tf == 0 {
      return NoTrapframe;
    }
    ghost var a := mem.M();
    AllocKeeps(m, NoHole);
    var np := ProcPagetable(mem, trampoline, tf);
    if np == 0 {
      return Panic;
    }
    AllocKeeps(a, NoHole);
    ghost var t := mem.M();
    PagesAdded(m, a, t, np, trampoline, tf);
    CopyReady(m, a, NewRoot(Alloc(a), np), t, parent, np, PgUp(sz));
    if |m.freelist| >= 4 {
      HighOnly(a, t, np);
      LowTablesCount(t, np, PgUp(sz));
      FirstTables(t, np, PgUp(sz));
    }
    NoneNeeded(t, np);
    var r := mem.UvmCopy(parent, np, sz);
    match r
    case Copied =>
      CopiedAll(t, mem.M(), mem.data, parent, np, PgUp(sz));
      return Child(np, tf);
    case Panicked =>
      return Panic;
    case Failed =>
      DropChild(mem, np, tf, trampoline, m, a, t);
      return NoCopy(np);
  }

  /** What proc_pagetable mapped. */
  lemma PagesAdded(m: Mem, a: Mem, t: Mem, np: Page, trampoline: Page, tf: Page)
    requires Inv(a, NoHole) && a.leaf == m.leaf && a.freelist != [] && np == a.freelist[0]
    requires t.leaf == m.leaf || t.leaf == m.leaf[Slot(np, TRAMPOLINE) := Pte(true, TEXT_PERM, trampoline)]
                                                 [Slot(np, TRAPFRAME) := Pte(true, FRAME_PERM, tf)]
    ensures NewPages(m.leaf, t.leaf, np) && forall k :: k in a.node ==> k.root != np
  {
    AllocKeeps(a, NoHole);
    VmTheory.NoTablesOf(Alloc(a), np);
    forall s | s in m.leaf ensures s.root != np { SlotHome(a, s); }
  }

  lemma NoneNeeded(t: Mem, np: Page)
    ensures NewTables(t, np, 0, 0) == 0
  {
    SpentNone(t, np, 0);
  }

  lemma CopiedAll(t: Mem, u: Mem, d: map<Page, Bytes>, parent: Page, np: Page, n: nat)
    requires Copies(t, u, d, parent, np, n)
    ensures ChildCopies(u, d, parent, np, n)
  {
    forall v: nat | v < n ensures PageCopied(u, d, parent, np, v) && OwnsFrame(u, Slot(np, v)) {
      assert Slot(np, v) in Range(np, 0, n);
    }
  }

  /** freeproc for a child without a size. The source frees the trapframe page first; FreeThenUnmap
      shows that the order makes no difference. */
  method DropChild(mem: Memory, np: Page, tf: Page, ghost trampoline: Page, ghost m: Mem, ghost a: Mem, ghost t: Mem)
    requires mem.Valid() && Inv(m, NoHole) && m.freelist != [] && tf == m.freelist[0] && a == Alloc(m)
    requires a.freelist != [] && np == a.freelist[0]
    requires trampoline !in m.owner && Grown(NewRoot(Alloc(a), np), t, np) && Grown(t, mem.M(), np)
    requires NewPages(m.leaf, t.leaf, np)
    requires t.leaf == m.leaf[Slot(np, TRAMPOLINE) := Pte(true, TEXT_PERM, trampoline)]
                             [Slot(np, TRAPFRAME) := Pte(true, FRAME_PERM, tf)]
    requires mem.leaf == t.leaf
    modifies mem
    ensures mem.Valid() && Leaked(m, mem.M(), np) && np in m.owner && m.owner[np] == Free
    ensures np in mem.owner && mem.owner[np] == Table(RootKey(np))
  {
    hide Inv, Grown, DataKept, NewPages, Leaked, ProcessOnly, Freed;
    ghost var u := mem.M();
    AllocKeeps(m, NoHole);
    AllocKeeps(a, NoHole);
    GrownTrans(NewRoot(Alloc(a), np), t, u, np);
    DropReady(m, a, u, np, tf, trampoline);
    var panicked := ProcFreePagetable(mem, np, 0);
    UnmappedBoth(m, mem.leaf, np, trampoline, tf);
    mem.Kfree(tf);
    TablesLeaked(m, a, u, mem.M(), np, tf);
  }

  lemma DropReady(m: Mem, a: Mem, u: Mem, np: Page, tf: Page, trampoline: Page)
    requires m.freelist != [] && tf == m.freelist[0] && a == Alloc(m) && a.freelist != [] && np == a.freelist[0]
    requires np != tf
    requires tf in m.owner && np in a.owner && trampoline !in m.owner && Grown(NewRoot(Alloc(a), np), u, np)
    requires NewPages(m.leaf, u.leaf, np)
    requires u.leaf == m.leaf[Slot(np, TRAMPOLINE) := Pte(true, TEXT_PERM, trampoline)]
                             [Slot(np, TRAPFRAME) := Pte(true, FRAME_PERM, tf)]
    ensures RootKey(np) in u.node && ProcessOnly(u, np, 0) && KernelPages(u.leaf, np)
    ensures tf in u.owner && u.owner[tf] == Held && np in u.owner && u.owner[np] == Table(RootKey(np))
  {
    var r := NewRoot(Alloc(a), np);
    assert RootKey(np) in r.node && r.owner[tf] == Held && r.owner[np] == Table(RootKey(np)) && trampoline !in r.owner;
  }

  lemma UnmappedBoth(m: Mem, leaf: map<Slot, Pte>, np: Page, trampoline: Page, tf: Page)
    requires var both := m.leaf[Slot(np, TRAMPOLINE) := Pte(true, TEXT_PERM, trampoline)]
                               [Slot(np, TRAPFRAME) := Pte(true, FRAME_PERM, tf)];
      NewPages(m.leaf, both, np) && leaf == both - {Slot(np, TRAMPOLINE)} - {Slot(np, TRAPFRAME)}
    ensures leaf == m.leaf
  {}

  lemma TablesLeaked(m: Mem, a: Mem, u: Mem, z: Mem, np: Page, tf: Page)
    requires m.freelist != [] && tf == m.freelist[0] && tf in m.owner && m.owner[tf] == Free && a == Alloc(m)
    requires a.freelist != [] && np == a.freelist[0] && np in a.owner && a.owner[np] == Free
    requires Grown(NewRoot(Alloc(a), np), u, np)
    requires z.leaf == m.leaf && z.owner == u.owner[tf := Free]
    ensures Leaked(m, z, np)
  {}

  /** Twelve pages, five of which make up a process of two pages. */
  method TwoPageParent() returns (mem: Memory, parent: Page)
    ensures fresh(mem) && mem.Valid() && RootKey(parent) in mem.node && |mem.freelist| == 7
    ensures OwnsRange(mem.M(), parent, 0, 2) && forall p :: p in mem.owner ==> p <= 12
  {
    hide Inv, Grows, Spent, NewTables, DataKept, OwnsRange, Grown, Range, NewRoot, Alloc;
    mem := FreshPages(12);
    ghost var m := mem.M();
    parent := mem.UvmCreate();
    ghost var r := mem.M();
    RootMade(m, r, parent);
    assert PgUp(0) == 0 && Above(2 * PGSIZE, 0) == 2 == PgUp(2 * PGSIZE);
    TwoPagesNeed(r, parent);
    var sz := mem.UvmAlloc(parent, 0, 2 * PGSIZE);
    TwoPages(r, mem.M(), mem.data, parent);
  }

  lemma TwoPagesNeed(m: Mem, r: Page)
    requires m.node == map[RootKey(r) := r]
    ensures NewTables(m, r, 0, 2) == 2
  {
    hide At, Path, NewTables;
    SpentNone(m, r, 0);
    TablesAt(r, 0);
    SharedTables(r, 0);
    OneMore(m, r, 0);
    TablesAt(r, 1);
    SharedTables(r, 1);
    OneMore(m, r, 1);
  }

  lemma TwoPages(m: Mem, t: Mem, d: map<Page, Bytes>, r: Page)
    requires Grows(m, t, d, r, 0, 2) && Spent(m, t, r, 0, 2, 2) && NewTables(m, r, 0, 2) == 2 && |m.freelist| == 11
    requires RootKey(r) in m.node
    ensures OwnsRange(t, r, 0, 2) && |t.freelist| == 7 && t.owner.Keys == m.owner.Keys && RootKey(r) in t.node
  {
    forall v: nat | v < 2 ensures OwnsFrame(t, Slot(r, v)) { assert Slot(r, v) in Range(r, 0, 2); }
  }

  /** With seven pages left, fork of that process fails in the middle of the copy and loses the page
      table of the child. */
  method ForkLoses() returns (out: ForkOutcome)
    ensures out.NoCopy?
  {
    hide Inv, OwnsRange, Leaked, ChildCopies;
    var mem, parent := TwoPageParent();
    assert PgUp(2 * PGSIZE) == 2 && LowTables(2) == 2;
    out := Fork(mem, parent, 2 * PGSIZE, 13);
  }
}
