/** What the page tables and the allocator promise: the hardware's walk sees exactly the finite map
    of translations, every managed page has exactly one use, and a process's page table gives back
    all it took. */
module VmTheory {
  import opened VmSpec

  datatype Option<T> = None | Some(value: T)

  /** The walk of section 4.3.2 of the RISC-V Privileged Architecture (version 20190608), with the
      three levels of Sv39: it reads the tables only, and stops at an entry that is not valid or
      that is a leaf. */
  function HardwareWalk(tables: map<Page, seq<Pte>>, table: Page, vpn: nat, level: nat): Option<(nat, Pte)>
    requires level <= 2
    decreases level
  {
    if table !in tables || |tables[table]| != ENTRIES then None else
    var e := tables[table][Pos(vpn, level) % ENTRIES];
    if !e.v then None
    else if IsLeaf(e.perm) then Some((level, e))
    else if level == 0 then None
    else HardwareWalk(tables, e.ppn, vpn, level - 1)
  }

  /** From any table on the way, the walk finds the translation of the map, at the lowest level. */
  lemma {:induction false} WalkFrom(m: Mem, r: Page, vpn: nat, level: nat)
    requires Inv(m, NoHole) && vpn < MAXVPN && level <= 2 && At(r, vpn, level + 1) in m.node
    ensures HardwareWalk(m.tables, m.node[At(r, vpn, level + 1)], vpn, level)
         == if Slot(r, vpn) in m.leaf then Some((0, m.leaf[Slot(r, vpn)])) else None
    decreases level
  {
    var k, i := At(r, vpn, level + 1), Pos(vpn, level) % ENTRIES;
    TableFacts(m, k, NoHole);
    Descent(r, vpn, level);
    assert EntryOk(m.node, m.leaf, k, i, m.tables[m.node[k]][i]);
    if level > 0 {
      if At(r, vpn, level) in m.node {
        WalkFrom(m, r, vpn, level - 1);
      } else {
        NothingBelow(m, r, vpn, level);
      }
    }
  }

  lemma {:induction false} NothingBelow(m: Mem, r: Page, vpn: nat, h: nat)
    requires Inv(m, NoHole) && vpn < MAXVPN && 1 <= h <= 2 && At(r, vpn, h) !in m.node
    ensures Slot(r, vpn) !in m.leaf
    decreases h
  {
    Descent(r, vpn, h);
    if Slot(r, vpn) in m.leaf {
      SlotHome(m, Slot(r, vpn));
      Descent(r, vpn, 1);
      MissingFrom(m, r, vpn);
      assert false;
    }
  }

  /** Page tables refine a finite map: for every address below MAXVA, the hardware translates it
      exactly when the map has it, and as the map says. */
  lemma TablesRefineMap(m: Mem, r: Page, vpn: nat)
    requires Inv(m, NoHole) && vpn < MAXVPN && RootKey(r) in m.node
    ensures HardwareWalk(m.tables, r, vpn, 2) == if Slot(r, vpn) in m.leaf then Some((0, m.leaf[Slot(r, vpn)]))
            else None
  {
    Descent(r, vpn, 2);
    TableFacts(m, RootKey(r), NoHole);
    WalkFrom(m, r, vpn, 2);
  }

  /** Every managed page is exactly one of: on the free list, a table of one page table, the frame
      of one translation, or held by the kernel. No translation leads to a free page or a table, the
      frame of a translation is the page of no other, and a held page is never the user's. */
  lemma OneUseEach(m: Mem, p: Page)
    requires Inv(m, NoHole) && p in m.owner
    ensures m.owner[p].Free? <==> p in m.freelist
    ensures m.owner[p].Table? <==> exists k :: k in m.node && m.node[k] == p
    ensures m.owner[p].Frame? <==> exists s :: OwnsFrame(m, s) && m.leaf[s].ppn == p
    ensures m.owner[p].Free? || m.owner[p].Table? ==> NoneTo(m.leaf, p)
    ensures m.owner[p].Frame? ==> forall s :: s in m.leaf && m.leaf[s].ppn == p ==> s == m.owner[p].s
    ensures m.owner[p].Held? ==> forall s :: s in m.leaf && m.leaf[s].ppn == p ==> !m.leaf[s].perm.u
    ensures forall k, k' :: k in m.node && k' in m.node && m.node[k] == m.node[k'] ==> k == k'
    ensures forall i, j :: 0 <= i < j < |m.freelist| ==> m.freelist[i] != m.freelist[j]
  {
    hide TreeOk;
    assert PageOk(m, p);
    forall k | k in m.node ensures NodeOwned(m.node, m.owner, k) {}
    forall s | s in m.leaf ensures LeafOk(m.leaf, m.owner, s) {}
    if m.owner[p].Frame? { assert OwnsFrame(m, m.owner[p].s); }
  }

  /** What the user can reach: pages of the allocator, each by one address of one page table. */
  lemma UserPagesApart(m: Mem, s: Slot, s': Slot)
    requires Inv(m, NoHole) && s in m.leaf && s' in m.leaf && m.leaf[s].perm.u
    ensures m.leaf[s].ppn in m.owner && m.leaf[s].ppn !in m.freelist
    ensures m.leaf[s].ppn == m.leaf[s'].ppn ==> s == s'
  {
    LeafFacts(m, s);
    OneUseEach(m, m.leaf[s].ppn);
  }

  /** The life of an address space: a page table is created, given pages by any growing operation,
      and freed. Every page then has the use it had before, and no other translation changed. */
  lemma LifeReturnsAll(m: Mem, t: Mem, u: Mem, ss: set<Slot>)
    requires Inv(m, NoHole) && m.freelist != []
    requires var r := m.freelist[0];
      Populated(NewRoot(Alloc(m), r), t, r, ss) && (forall s :: s in ss ==> s.root == r) && Freed(t, u, r)
        && Inv(t, NoHole)
    ensures u.owner == m.owner && u.leaf == m.leaf && u.node == m.node
  {
    var r := m.freelist[0];
    AllocKeeps(m, NoHole);
    NewRootKeeps(Alloc(m), r);
    NoTablesOf(Alloc(m), r);
    TablesPlaced(m, NoHole);
    FramesPlaced(m);
    TablesPlaced(t, NoHole);
    NewTables(t);
    hide Inv;
    LifeOwners(m, t, u, r, ss);
    LifeLeaf(m, t, u, r, ss);
    LifeNodes(m, t, u, r, ss);
  }

  /** A held page is the root of no table. */
  lemma NoTablesOf(m: Mem, r: Page)
    requires Inv(m, NoHole) && r in m.owner && m.owner[r] == Held
    ensures forall k :: k in m.node ==> k.root != r
  {
    forall k | k in m.node ensures k.root != r {
      if k.root == r {
        RootUnder(m, k, r);
        TableFacts(m, k, NoHole);
        TopIn(m, NoHole, k, 3);
        TableFacts(m, RootKey(r), NoHole);
        assert false;
      }
    }
  }

  lemma NewTables(t: Mem)
    requires Inv(t, NoHole)
    ensures forall k :: k in t.node ==> t.node[k] in t.owner && t.owner[t.node[k]] == Table(k)
  {
    forall k | k in t.node ensures t.node[k] in t.owner && t.owner[t.node[k]] == Table(k) {
      TableFacts(t, k, NoHole);
    }
  }

  lemma LifeOwners(m: Mem, t: Mem, u: Mem, r: Page, ss: set<Slot>)
    requires m.freelist != [] && r == m.freelist[0] && r in m.owner && m.owner[r] == Free
    requires Populated(NewRoot(Alloc(m), r), t, r, ss) && (forall s :: s in ss ==> s.root == r) && Freed(t, u, r)
    requires forall p :: p in m.owner && m.owner[p].Table? ==> m.owner[p].k in m.node
    requires forall p :: p in m.owner && m.owner[p].Frame? ==> m.owner[p].s in m.leaf
    requires (forall k :: k in m.node ==> k.root != r) && (forall s :: s in m.leaf ==> s.root != r)
    ensures u.owner == m.owner
  {
    var n := NewRoot(Alloc(m), r);
    assert u.owner.Keys == t.owner.Keys == n.owner.Keys == m.owner.Keys;
    forall p | p in m.owner ensures u.owner[p] == m.owner[p] {
      assert p in n.owner && (t.owner[p] == n.owner[p] || NewUse(n.owner[p], t.owner[p], r, ss));
    }
  }

  lemma LifeLeaf(m: Mem, t: Mem, u: Mem, r: Page, ss: set<Slot>)
    requires m.freelist != [] && r == m.freelist[0]
    requires Populated(NewRoot(Alloc(m), r), t, r, ss) && (forall s :: s in ss ==> s.root == r) && Freed(t, u, r)
    requires forall s :: s in m.leaf ==> s.root != r
    ensures u.leaf == m.leaf
  {}

  lemma LifeNodes(m: Mem, t: Mem, u: Mem, r: Page, ss: set<Slot>)
    requires m.freelist != [] && r == m.freelist[0] && r in m.owner && m.owner[r] == Free
    requires Populated(NewRoot(Alloc(m), r), t, r, ss) && Freed(t, u, r)
    requires forall p :: p in m.owner && m.owner[p].Table? ==> m.owner[p].k in m.node && m.node[m.owner[p].k] == p
    requires forall k :: k in m.node ==> k.root != r
    requires forall k :: k in t.node ==> t.node[k] in t.owner && t.owner[t.node[k]] == Table(k)
    ensures u.node == m.node
  {
    var n := NewRoot(Alloc(m), r);
    forall k | k in u.node ensures k in m.node && u.node[k] == m.node[k] {
      var p := t.node[k];
      assert p in n.owner && (t.owner[p] == n.owner[p] || NewUse(n.owner[p], t.owner[p], r, ss));
    }
    forall k | k in m.node ensures k in u.node {
      assert k in n.node;
    }
  }
}
