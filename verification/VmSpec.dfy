/** The memory behind kernel/vm.c and kernel/kalloc.c as a value: page-table pages, the free list,
    and what each managed page is used for. A page is its physical page number. */
module VmSpec {

  type Page = nat

  const ENTRIES := 512
  /** MAXVA / PGSIZE, where MAXVA is one bit less than Sv39 allows. */
  const MAXVPN := 0x400_0000

  datatype Perm = Perm(r: bool, w: bool, x: bool, u: bool)
  const TABLE_PERM := Perm(false, false, false, false)
  predicate IsLeaf(p: Perm) { p.r || p.w || p.x }

  datatype Pte = Pte(v: bool, perm: Perm, ppn: Page)
  const ZERO := Pte(false, TABLE_PERM, 0)

  /** A table of one page table: height 3 is the root, 1 the lowest level; pos is the virtual page
      number it starts at, shifted right by 9 bits per level. */
  datatype Key = Key(root: Page, h: nat, pos: nat)
  datatype Slot = Slot(root: Page, vpn: nat)

  /** What a managed page is used for. */
  datatype Owner = Free | Held | Table(k: Key) | Frame(s: Slot)

  /** `tables` is the content of table pages. `node`, `leaf` and `owner` are what the tables mean:
      where each table is, each translation, and each page's use. */
  datatype Mem = Mem(tables: map<Page, seq<Pte>>, freelist: seq<Page>,
                     node: map<Key, Page>, leaf: map<Slot, Pte>, owner: map<Page, Owner>)

  function Child(k: Key, i: nat): Key
    requires k.h > 0
  {
    Key(k.root, k.h - 1, k.pos * ENTRIES + i)
  }

  function Parent(k: Key): Key { Key(k.root, k.h + 1, k.pos / ENTRIES) }
  function Index(k: Key): nat { k.pos % ENTRIES }
  function Home(s: Slot): Key { Key(s.root, 1, s.vpn / ENTRIES) }
  function RootKey(r: Page): Key { Key(r, 3, 0) }

  /** An entry whose table has been freed while the entry is still set. */
  datatype Hole = NoHole | Hole(k: Key, i: nat)

  ghost predicate EntryOk(node: map<Key, Page>, leaf: map<Slot, Pte>, k: Key, i: nat, e: Pte)
    requires k.h > 0
  {
    if k.h == 1 then
      var s := Slot(k.root, k.pos * ENTRIES + i);
      (e.v <==> s in leaf) && (e.v ==> leaf[s] == e && IsLeaf(e.perm))
    else
      var c := Child(k, i);
      (e.v <==> c in node) && (e.v ==> node[c] == e.ppn && e.perm == TABLE_PERM)
  }

  ghost predicate EntriesOk(node: map<Key, Page>, leaf: map<Slot, Pte>, k: Key, es: seq<Pte>, hole: Hole)
    requires k.h > 0
  {
    |es| == ENTRIES && forall i: nat :: i < ENTRIES && hole != Hole(k, i) ==> EntryOk(node, leaf, k, i, es[i])
  }

  ghost predicate KeyOk(tables: map<Page, seq<Pte>>, node: map<Key, Page>, leaf: map<Slot, Pte>, k: Key, hole: Hole)
    requires k in node
  {
    && 1 <= k.h <= 3 && (k.h == 3 ==> k == RootKey(k.root) && node[k] == k.root) && (k.h < 3 ==> Parent(k) in node)
    && node[k] in tables && EntriesOk(node, leaf, k, tables[node[k]], hole)
  }

  /** The tables form a tree, with translations only at the lowest level. */
  ghost predicate TreeOk(tables: map<Page, seq<Pte>>, node: map<Key, Page>, leaf: map<Slot, Pte>, hole: Hole) {
    && (forall k :: k in node ==> KeyOk(tables, node, leaf, k, hole))
    && (forall s :: s in leaf ==> Home(s) in node && leaf[s].v && s.vpn < MAXVPN)
  }

  ghost predicate PageOk(m: Mem, p: Page)
    requires p in m.owner
  {
    match m.owner[p]
    case Free => p in m.freelist
    case Held => true
    case Table(k) => k in m.node && m.node[k] == p
    case Frame(s) => s in m.leaf && m.leaf[s].ppn == p
  }

  ghost predicate FreeListOk(freelist: seq<Page>, owner: map<Page, Owner>) {
    && (forall i :: 0 <= i < |freelist| ==> freelist[i] in owner && owner[freelist[i]] == Free)
    && (forall i, j :: 0 <= i < j < |freelist| ==> freelist[i] != freelist[j])
  }

  ghost predicate NodeOwned(node: map<Key, Page>, owner: map<Page, Owner>, k: Key)
    requires k in node
  {
    node[k] in owner && owner[node[k]] == Table(k)
  }

  /** The page of translation s is the frame of s alone; or s is not for the user, and the page is
      held by the kernel or not managed at all. */
  ghost predicate LeafOk(leaf: map<Slot, Pte>, owner: map<Page, Owner>, s: Slot)
    requires s in leaf
  {
    var p := leaf[s].ppn;
    (p in owner && owner[p] == Frame(s)) || (!leaf[s].perm.u && (p in owner ==> owner[p] == Held))
  }

  /** No translation leads to page p. */
  ghost predicate NoneTo(leaf: map<Slot, Pte>, p: Page) {
    forall s :: s in leaf ==> leaf[s].ppn != p
  }

  /** Every managed page has one use, and is where that use says; translations respect that use. */
  ghost predicate OwnOk(m: Mem) {
    && 0 !in m.owner
    && (forall s :: s in m.leaf ==> LeafOk(m.leaf, m.owner, s))
    && (forall k :: k in m.node ==> NodeOwned(m.node, m.owner, k))
    && (forall p :: p in m.owner ==> PageOk(m, p))
    && FreeListOk(m.freelist, m.owner)
  }

  ghost predicate Inv(m: Mem, hole: Hole) {
    TreeOk(m.tables, m.node, m.leaf, hole) && OwnOk(m)
  }

  // ---- the operations on memory ----

  /** kalloc, when a page is free. */
  function Alloc(m: Mem): Mem
    requires m.freelist != []
  {
    m.(freelist := m.freelist[1..], owner := m.owner[m.freelist[0] := Held])
  }

  /** kfree. */
  function Release(m: Mem, p: Page): Mem {
    m.(freelist := [p] + m.freelist, owner := m.owner[p := Free])
  }

  function SetEntry(m: Mem, k: Key, i: nat, e: Pte): map<Page, seq<Pte>>
    requires k in m.node && m.node[k] in m.tables && i < |m.tables[m.node[k]]|
  {
    m.tables[m.node[k] := m.tables[m.node[k]][i := e]]
  }

  /** A held page becomes the empty table under entry i of k. */
  function Link(m: Mem, k: Key, i: nat, p: Page): Mem
    requires k.h > 1 && k in m.node && m.node[k] in m.tables && i < |m.tables[m.node[k]]|
  {
    m.(tables := SetEntry(m, k, i, Pte(true, TABLE_PERM, p))[p := seq(ENTRIES, _ => ZERO)],
       node := m.node[Child(k, i) := p], owner := m.owner[p := Table(Child(k, i))])
  }

  /** A translation is written or cleared. */
  function SetLeaf(m: Mem, s: Slot, e: Pte): Mem
    requires Home(s) in m.node && m.node[Home(s)] in m.tables && |m.tables[m.node[Home(s)]]| == ENTRIES
  {
    m.(tables := SetEntry(m, Home(s), s.vpn % ENTRIES, e),
       leaf := if e.v then m.leaf[s := e] else m.leaf - {s})
  }

  /** Translation e is written at s; its page becomes the frame of s, or stays what it is. */
  function MapAt(m: Mem, s: Slot, e: Pte, own: bool): Mem
    requires Home(s) in m.node && m.node[Home(s)] in m.tables && |m.tables[m.node[Home(s)]]| == ENTRIES
  {
    SetLeaf(m, s, e).(owner := if own then m.owner[e.ppn := Frame(s)] else m.owner)
  }

  /** What becomes of the page of a translation that is removed. */
  function Unowned(owner: map<Page, Owner>, s: Slot, p: Page, doFree: bool): map<Page, Owner> {
    if doFree then owner[p := Free] else if p in owner && owner[p] == Frame(s) then owner[p := Held] else owner
  }

  /** Translation s is removed, and its page freed if asked; a frame that is not freed is the
      kernel's from then on. */
  function UnmapAt(m: Mem, s: Slot, doFree: bool): Mem
    requires s in m.leaf && Home(s) in m.node && m.node[Home(s)] in m.tables && |m.tables[m.node[Home(s)]]| == ENTRIES
  {
    var p := m.leaf[s].ppn;
    SetLeaf(m, s, ZERO).(owner := Unowned(m.owner, s, p, doFree), freelist := (if doFree then [p] else []) + m.freelist)
  }

  /** The empty table p of key k is freed; its parent's entry is left dangling. */
  function Unlink(m: Mem, k: Key): Mem
    requires k in m.node
  {
    Release(m.(node := m.node - {k}), m.node[k])
  }

  // ---- each keeps the invariant ----

  lemma AllocKeeps(m: Mem, hole: Hole)
    requires Inv(m, hole) && m.freelist != []
    ensures Inv(Alloc(m), hole) && m.freelist[0] in m.owner && m.owner[m.freelist[0]] == Free && m.freelist[0] != 0
    ensures NoneTo(m.leaf, m.freelist[0])
  {
    hide TreeOk;
    var t := Alloc(m);
    forall s | s in t.leaf ensures LeafOk(t.leaf, t.owner, s) && t.leaf[s].ppn != m.freelist[0] {
      assert LeafOk(m.leaf, m.owner, s);
    }
    forall k | k in t.node ensures NodeOwned(t.node, t.owner, k) {
      assert NodeOwned(m.node, m.owner, k);
    }
    forall p | p in t.owner ensures PageOk(t, p) {
      assert p in m.owner && PageOk(m, p);
    }
  }

  /** A held page can be freed exactly when no translation leads to it. */
  lemma ReleaseKeeps(m: Mem, p: Page, hole: Hole)
    requires Inv(m, hole) && p in m.owner && m.owner[p] == Held
    ensures Inv(Release(m, p), hole) <==> NoneTo(m.leaf, p)
  {
    hide TreeOk;
    var t := Release(m, p);
    if s :| s in m.leaf && m.leaf[s].ppn == p {
      assert !LeafOk(t.leaf, t.owner, s);
    }
    forall s | s in t.leaf && t.leaf[s].ppn != p ensures LeafOk(t.leaf, t.owner, s) {
      assert LeafOk(m.leaf, m.owner, s);
    }
    forall k | k in t.node ensures NodeOwned(t.node, t.owner, k) {
      assert NodeOwned(m.node, m.owner, k);
    }
    forall q | q in t.owner ensures PageOk(t, q) {
      assert q in m.owner && PageOk(m, q);
    }
  }

  /** The numbers of a child and of its parent. */
  lemma ChildParent(k: Key, i: nat)
    requires k.h > 0 && i < ENTRIES
    ensures Parent(Child(k, i)) == k && Index(Child(k, i)) == i
  {}

  lemma ParentChild(k: Key)
    ensures Child(Parent(k), Index(k)) == k && Index(k) < ENTRIES
  {}

  lemma LinkKeepsTree(m: Mem, k: Key, i: nat, p: Page)
    requires Inv(m, NoHole) && k in m.node && k.h > 1 && i < ENTRIES && p in m.owner && m.owner[p] == Held
    requires KeyOk(m.tables, m.node, m.leaf, k, NoHole) && !m.tables[m.node[k]][i].v
    ensures var t := Link(m, k, i, p); TreeOk(t.tables, t.node, t.leaf, NoHole)
    ensures Child(k, i) !in m.node
  {
    var t := Link(m, k, i, p);
    var c := Child(k, i);
    assert EntryOk(m.node, m.leaf, k, i, m.tables[m.node[k]][i]);
    ChildParent(k, i);
    forall k' | k' in t.node ensures KeyOk(t.tables, t.node, t.leaf, k', NoHole) {
      if k' != c {
        assert KeyOk(m.tables, m.node, m.leaf, k', NoHole) && NodeOwned(m.node, m.owner, k')
          && NodeOwned(m.node, m.owner, k);
        LinkKeepsEntries(m, k, i, p, k');
      } else {
        NewTableOk(m, k, i, p);
      }
    }
  }

  lemma LinkKeepsEntries(m: Mem, k: Key, i: nat, p: Page, k': Key)
    requires k in m.node && k.h > 1 && i < ENTRIES && k' in m.node && m.node[k'] != p
    requires (k' != k ==> m.node[k'] != m.node[k])
    requires KeyOk(m.tables, m.node, m.leaf, k, NoHole) && KeyOk(m.tables, m.node, m.leaf, k', NoHole)
    requires Child(k, i) !in m.node
    ensures var t := Link(m, k, i, p); EntriesOk(t.node, t.leaf, k', t.tables[t.node[k']], NoHole)
  {
    var t := Link(m, k, i, p);
    ChildParent(k, i);
    forall j: nat | j < ENTRIES ensures EntryOk(t.node, t.leaf, k', j, t.tables[t.node[k']][j]) {
      assert EntryOk(m.node, m.leaf, k', j, m.tables[m.node[k']][j]);
      ChildParent(k', j);
    }
  }

  lemma NewTableOk(m: Mem, k: Key, i: nat, p: Page)
    requires TreeOk(m.tables, m.node, m.leaf, NoHole) && k in m.node && k.h > 1 && i < ENTRIES && Child(k, i) !in m.node
    requires KeyOk(m.tables, m.node, m.leaf, k, NoHole) && m.node[k] != p
    ensures var t := Link(m, k, i, p); EntriesOk(t.node, t.leaf, Child(k, i), t.tables[p], NoHole)
  {
    var t, c := Link(m, k, i, p), Child(k, i);
    forall j: nat | j < ENTRIES ensures EntryOk(t.node, t.leaf, c, j, t.tables[p][j]) {
      ChildParent(c, j);
      if c.h == 1 {
        assert Home(Slot(c.root, c.pos * ENTRIES + j)) == c;
      } else {
        assert Child(c, j) in m.node ==> KeyOk(m.tables, m.node, m.leaf, Child(c, j), NoHole);
      }
    }
  }

  lemma LinkKeeps(m: Mem, k: Key, i: nat, p: Page)
    requires Inv(m, NoHole) && k in m.node && k.h > 1 && i < ENTRIES && p in m.owner && m.owner[p] == Held
    requires NoneTo(m.leaf, p)
    requires KeyOk(m.tables, m.node, m.leaf, k, NoHole) && !m.tables[m.node[k]][i].v
    ensures Inv(Link(m, k, i, p), NoHole)
  {
    hide TreeOk, OwnOk, EntryOk;
    LinkKeepsTree(m, k, i, p);
    LinkKeepsOwners(m, Link(m, k, i, p), Child(k, i), p);
  }

  lemma LinkKeepsOwners(m: Mem, t: Mem, c: Key, p: Page)
    requires OwnOk(m) && c !in m.node && p in m.owner && m.owner[p] == Held && NoneTo(m.leaf, p)
    requires t.node == m.node[c := p] && t.owner == m.owner[p := Table(c)] && t.leaf == m.leaf
    requires t.freelist == m.freelist
    ensures OwnOk(t)
  {
    forall s | s in t.leaf ensures LeafOk(t.leaf, t.owner, s) {
      assert LeafOk(m.leaf, m.owner, s);
    }
    forall k | k in t.node ensures NodeOwned(t.node, t.owner, k) {
      if k != c { assert NodeOwned(m.node, m.owner, k); }
    }
    forall q | q in t.owner ensures PageOk(t, q) {
      assert q in m.owner && PageOk(m, q);
    }
  }

  lemma SetLeafKeepsEntries(m: Mem, s: Slot, e: Pte, k: Key)
    requires Home(s) in m.node && k in m.node && (e.v ==> IsLeaf(e.perm))
    requires (k != Home(s) ==> m.node[k] != m.node[Home(s)])
    requires KeyOk(m.tables, m.node, m.leaf, Home(s), NoHole) && KeyOk(m.tables, m.node, m.leaf, k, NoHole)
    ensures var t := SetLeaf(m, s, e); EntriesOk(t.node, t.leaf, k, t.tables[t.node[k]], NoHole)
  {
    var t := SetLeaf(m, s, e);
    forall j: nat | j < ENTRIES ensures EntryOk(t.node, t.leaf, k, j, t.tables[t.node[k]][j]) {
      assert EntryOk(m.node, m.leaf, k, j, m.tables[m.node[k]][j]);
      ChildParent(k, j);
    }
  }

  lemma SetLeafKeepsTree(m: Mem, s: Slot, e: Pte)
    requires Inv(m, NoHole) && Home(s) in m.node && KeyOk(m.tables, m.node, m.leaf, Home(s), NoHole)
    requires e.v ==> IsLeaf(e.perm) && s.vpn < MAXVPN
    ensures var t := SetLeaf(m, s, e); TreeOk(t.tables, t.node, t.leaf, NoHole)
  {
    var t := SetLeaf(m, s, e);
    hide PageOk, FreeListOk, EntriesOk;
    forall k | k in t.node ensures KeyOk(t.tables, t.node, t.leaf, k, NoHole) {
      assert KeyOk(m.tables, m.node, m.leaf, k, NoHole) && NodeOwned(m.node, m.owner, k)
        && NodeOwned(m.node, m.owner, Home(s));
      SetLeafKeepsEntries(m, s, e, k);
    }
  }

  /** The page may be given to a translation: as its own frame, or to a supervisor translation. */
  ghost predicate Mappable(m: Mem, p: Page, perm: Perm, own: bool) {
    if own then p in m.owner && m.owner[p] == Held && NoneTo(m.leaf, p)
    else !perm.u && (p in m.owner ==> m.owner[p] == Held)
  }

  lemma MapKeeps(m: Mem, s: Slot, e: Pte, own: bool)
    requires Inv(m, NoHole) && Home(s) in m.node && KeyOk(m.tables, m.node, m.leaf, Home(s), NoHole)
    requires e.v && IsLeaf(e.perm) && s !in m.leaf && s.vpn < MAXVPN && Mappable(m, e.ppn, e.perm, own)
    ensures Inv(MapAt(m, s, e, own), NoHole)
  {
    hide TreeOk, OwnOk, EntryOk, Mappable;
    SetLeafKeepsTree(m, s, e);
    MapKeepsOwners(m, MapAt(m, s, e, own), s, e, own);
  }

  lemma MapKeepsOwners(m: Mem, t: Mem, s: Slot, e: Pte, own: bool)
    requires OwnOk(m) && t.node == m.node && t.freelist == m.freelist && t.leaf == m.leaf[s := e]
    requires t.owner == if own then m.owner[e.ppn := Frame(s)] else m.owner
    requires s !in m.leaf && Mappable(m, e.ppn, e.perm, own)
    ensures OwnOk(t)
  {
    forall k | k in t.node ensures NodeOwned(t.node, t.owner, k) {
      assert NodeOwned(m.node, m.owner, k);
    }
    forall p | p in t.owner ensures PageOk(t, p) {
      assert p in m.owner && PageOk(m, p);
    }
    forall s' | s' in t.leaf ensures LeafOk(t.leaf, t.owner, s') {
      if s' != s { assert LeafOk(m.leaf, m.owner, s'); }
    }
  }

  lemma UnmapKeeps(m: Mem, s: Slot, doFree: bool)
    requires Inv(m, NoHole) && s in m.leaf && Home(s) in m.node && KeyOk(m.tables, m.node, m.leaf, Home(s), NoHole)
    requires doFree ==> OwnsFrame(m, s)
    ensures Inv(UnmapAt(m, s, doFree), NoHole)
  {
    hide TreeOk, OwnOk, EntryOk;
    SetLeafKeepsTree(m, s, ZERO);
    UnmapKeepsOwners(m, UnmapAt(m, s, doFree), s, doFree);
  }

  lemma UnmapKeepsOwners(m: Mem, t: Mem, s: Slot, doFree: bool)
    requires OwnOk(m) && s in m.leaf && (doFree ==> OwnsFrame(m, s)) && t.node == m.node && t.leaf == m.leaf - {s}
    requires t.owner == Unowned(m.owner, s, m.leaf[s].ppn, doFree)
    requires t.freelist == (if doFree then [m.leaf[s].ppn] else []) + m.freelist
    ensures OwnOk(t)
  {
    forall k | k in t.node ensures NodeOwned(t.node, t.owner, k) {
      assert NodeOwned(m.node, m.owner, k);
    }
    forall p | p in t.owner ensures PageOk(t, p) {
      assert p in m.owner && PageOk(m, p);
    }
    forall s' | s' in t.leaf ensures LeafOk(t.leaf, t.owner, s') {
      assert LeafOk(m.leaf, m.owner, s') && LeafOk(m.leaf, m.owner, s);
    }
  }

  /** freeproc frees the trapframe page first and removes its translation afterwards: the result is
      that of the other order, so the invariant holds again. */
  lemma FreeThenUnmap(m: Mem, s: Slot, p: Page)
    requires Inv(m, NoHole) && s in m.leaf && m.leaf[s].ppn == p && p in m.owner && m.owner[p] == Held
    requires Home(s) in m.node && KeyOk(m.tables, m.node, m.leaf, Home(s), NoHole)
    requires forall s' :: s' in m.leaf && s' != s ==> m.leaf[s'].ppn != p
    ensures UnmapAt(Release(m, p), s, false) == Release(UnmapAt(m, s, false), p)
    ensures !Inv(Release(m, p), NoHole) && Inv(UnmapAt(Release(m, p), s, false), NoHole)
  {
    hide Inv, OwnOk;
    ReleaseKeeps(m, p, NoHole);
    UnmapKeeps(m, s, false);
    var u := UnmapAt(m, s, false);
    assert u.leaf == m.leaf - {s} && u.owner == m.owner;
    hide KeyOk;
    ReleaseKeeps(u, p, NoHole);
  }

  /** No entry of table k is set. */
  ghost predicate Cleared(m: Mem, k: Key)
    requires k in m.node
  {
    && m.node[k] in m.tables && |m.tables[m.node[k]]| == ENTRIES
    && forall i: nat :: i < ENTRIES ==> !m.tables[m.node[k]][i].v
  }

  function HoleOf(k: Key): Hole { if k.h < 3 then Hole(Parent(k), Index(k)) else NoHole }

  lemma UnlinkKeepsTree(m: Mem, k: Key)
    requires TreeOk(m.tables, m.node, m.leaf, NoHole) && k in m.node && Cleared(m, k)
    ensures var t := Unlink(m, k); TreeOk(t.tables, t.node, t.leaf, HoleOf(k))
  {
    var t := Unlink(m, k);
    assert KeyOk(m.tables, m.node, m.leaf, k, NoHole);
    forall k' | k' in t.node ensures KeyOk(t.tables, t.node, t.leaf, k', HoleOf(k)) {
      assert KeyOk(m.tables, m.node, m.leaf, k', NoHole);
      ParentChild(k');
      assert Parent(k') == k ==> EntryOk(m.node, m.leaf, k, Index(k'), m.tables[m.node[k]][Index(k')]);
      forall j: nat | j < ENTRIES && HoleOf(k) != Hole(k', j)
        ensures EntryOk(t.node, t.leaf, k', j, t.tables[t.node[k']][j])
      {
        assert EntryOk(m.node, m.leaf, k', j, m.tables[m.node[k']][j]);
        ChildParent(k', j);
      }
    }
    forall s | s in t.leaf ensures Home(s) in t.node && t.leaf[s].v && s.vpn < MAXVPN {
      assert Home(s) == k ==> EntryOk(m.node, m.leaf, k, s.vpn % ENTRIES, m.tables[m.node[k]][s.vpn % ENTRIES]);
    }
  }

  lemma UnlinkKeeps(m: Mem, k: Key)
    requires Inv(m, NoHole) && k in m.node && Cleared(m, k)
    ensures Inv(Unlink(m, k), HoleOf(k))
  {
    hide TreeOk, OwnOk, Cleared;
    UnlinkKeepsTree(m, k);
    UnlinkKeepsOwners(m, k);
  }

  lemma UnlinkKeepsOwners(m: Mem, k: Key)
    requires OwnOk(m) && k in m.node
    ensures OwnOk(Unlink(m, k))
  {
    var t := Unlink(m, k);
    assert NodeOwned(m.node, m.owner, k);
    forall s | s in t.leaf ensures LeafOk(t.leaf, t.owner, s) {
      assert LeafOk(m.leaf, m.owner, s);
    }
    forall k' | k' in t.node ensures NodeOwned(t.node, t.owner, k') {
      assert NodeOwned(m.node, m.owner, k');
    }
    forall q | q in t.owner ensures PageOk(t, q) {
      assert q in m.owner && PageOk(m, q);
    }
  }

  /** Clearing the dangling entry closes the hole. */
  lemma CloseKeeps(m: Mem, k: Key)
    requires (k.h == 1 || k.h == 2) && Inv(m, HoleOf(k)) && k !in m.node && Parent(k) in m.node
    requires m.node[Parent(k)] in m.tables && |m.tables[m.node[Parent(k)]]| == ENTRIES
    ensures Inv(m.(tables := SetEntry(m, Parent(k), Index(k), ZERO)), NoHole)
  {
    var t := m.(tables := SetEntry(m, Parent(k), Index(k), ZERO));
    ParentChild(k);
    forall k' | k' in t.node ensures KeyOk(t.tables, t.node, t.leaf, k', NoHole) {
      assert KeyOk(m.tables, m.node, m.leaf, k', HoleOf(k)) && NodeOwned(m.node, m.owner, k')
        && NodeOwned(m.node, m.owner, Parent(k));
      forall j: nat | j < ENTRIES ensures EntryOk(t.node, t.leaf, k', j, t.tables[t.node[k']][j]) {
        assert HoleOf(k) != Hole(k', j) ==> EntryOk(m.node, m.leaf, k', j, m.tables[m.node[k']][j]);
      }
    }
    forall q | q in t.owner ensures PageOk(t, q) {
      assert q in m.owner && PageOk(m, q);
    }
  }

  // ---- addresses ----

  const PGSIZE := 4096

  /** The part of a virtual page number that places its table of height h. */
  function Pos(vpn: nat, h: nat): nat { if h == 0 then vpn else Pos(vpn, h - 1) / ENTRIES }

  function At(r: Page, vpn: nat, h: nat): Key { Key(r, h, Pos(vpn, h)) }

  /** The index bits of an address for one level. */
  function PX(level: nat, va: nat): nat
    requires level <= 2
  {
    if level == 2 then va / 0x4000_0000 % ENTRIES
    else if level == 1 then va / 0x20_0000 % ENTRIES
    else va / 0x1000 % ENTRIES
  }

  lemma PXIsIndex(level: nat, va: nat)
    requires level <= 2
    ensures PX(level, va) == Pos(va / PGSIZE, level) % ENTRIES
  {
    assert Pos(va / PGSIZE, 1) == va / PGSIZE / ENTRIES == va / 0x20_0000;
    assert Pos(va / PGSIZE, 2) == va / PGSIZE / ENTRIES / ENTRIES == va / 0x4000_0000;
  }

  /** The root's entry, then the level-1 entry, then the level-0 entry of one address. */
  lemma Descent(r: Page, vpn: nat, h: nat)
    requires vpn < MAXVPN && h < 3
    ensures At(r, vpn, 3) == RootKey(r) && At(r, vpn, 1) == Home(Slot(r, vpn))
    ensures Child(At(r, vpn, h + 1), Pos(vpn, h) % ENTRIES) == At(r, vpn, h)
    ensures Parent(At(r, vpn, h)) == At(r, vpn, h + 1)
  {
    assert Pos(vpn, 1) == vpn / 512;
    assert Pos(vpn, 2) == vpn / 512 / 512;
    assert Pos(vpn, 3) == vpn / 512 / 512 / 512 == 0;
  }

  // ---- what walk may change ----

  /** How many tables the walk to vpn has to add. */
  ghost function Missing(m: Mem, r: Page, vpn: nat): nat {
    if At(r, vpn, 1) in m.node then 0 else if At(r, vpn, 2) in m.node then 1 else 2
  }

  /** From m to t, free pages became tables of r, and nothing else changed its use. */
  ghost predicate Grown(m: Mem, t: Mem, r: Page) {
    && t.owner.Keys == m.owner.Keys
    && (forall p :: p in m.owner ==>
        t.owner[p] == m.owner[p] || (m.owner[p].Free? && t.owner[p].Table? && t.owner[p].k.root == r))
    && (forall k :: k in m.node ==> k in t.node && t.node[k] == m.node[k])
  }

  lemma GrownTrans(m: Mem, t: Mem, u: Mem, r: Page)
    requires Grown(m, t, r) && Grown(t, u, r)
    ensures Grown(m, u, r)
  {}

  /** What the invariant says of one table. */
  lemma TableFacts(m: Mem, k: Key, hole: Hole)
    requires Inv(m, hole) && k in m.node
    ensures KeyOk(m.tables, m.node, m.leaf, k, hole) && NodeOwned(m.node, m.owner, k)
  {
    hide KeyOk, NodeOwned, PageOk, FreeListOk;
  }

  ghost predicate Unset(m: Mem, k: Key, i: nat) {
    && k in m.node && k.h > 1 && i < ENTRIES && m.node[k] in m.tables && |m.tables[m.node[k]]| == ENTRIES
    && !m.tables[m.node[k]][i].v
  }

  lemma LinkGrows(m: Mem, k: Key, i: nat)
    requires Unset(m, k, i) && m.freelist != [] && m.freelist[0] in m.owner && m.owner[m.freelist[0]] == Free
    requires Child(k, i) !in m.node
    ensures Grown(m, Link(Alloc(m), k, i, m.freelist[0]), k.root)
  {}

  lemma AddTableKeeps(m: Mem, k: Key, i: nat)
    requires Inv(m, NoHole) && m.freelist != [] && Unset(m, k, i)
    ensures var t := Link(Alloc(m), k, i, m.freelist[0]); Inv(t, NoHole) && Grown(m, t, k.root)
  {
    hide Inv, Grown;
    TableFacts(m, k, NoHole);
    assert EntryOk(m.node, m.leaf, k, i, m.tables[m.node[k]][i]);
    AllocKeeps(m, NoHole);
    LinkKeeps(Alloc(m), k, i, m.freelist[0]);
    LinkGrows(m, k, i);
  }

  /** One level of the walk: the entry leads to the next table, or is not set and there is none. */
  lemma WalkDown(m: Mem, r: Page, va: nat, level: nat)
    requires Inv(m, NoHole) && 1 <= level <= 2 && va / PGSIZE < MAXVPN && At(r, va / PGSIZE, level + 1) in m.node
    ensures var k, i, n := At(r, va / PGSIZE, level + 1), PX(level, va), At(r, va / PGSIZE, level);
      && i < ENTRIES && m.node[k] in m.tables && |m.tables[m.node[k]]| == ENTRIES && Child(k, i) == n
      && (var e := m.tables[m.node[k]][i];
          if e.v then n in m.node && m.node[n] == e.ppn else n !in m.node && Unset(m, k, i))
  {
    hide Inv;
    var k, i := At(r, va / PGSIZE, level + 1), PX(level, va);
    TableFacts(m, k, NoHole);
    PXIsIndex(level, va);
    Descent(r, va / PGSIZE, level);
    assert EntryOk(m.node, m.leaf, k, i, m.tables[m.node[k]][i]);
  }

  /** A table that is there has its parent there. */
  lemma MissingFrom(m: Mem, r: Page, vpn: nat)
    requires Inv(m, NoHole) && vpn < MAXVPN
    ensures At(r, vpn, 1) in m.node ==> At(r, vpn, 2) in m.node
  {
    hide Inv;
    if At(r, vpn, 1) in m.node {
      TableFacts(m, At(r, vpn, 1), NoHole);
      Descent(r, vpn, 1);
    }
  }

  // ---- how much memory a range takes ----

  /** The level-1 and level-0 tables on the way to n pages from vpn. */
  ghost function Path(r: Page, vpn: nat, n: nat): set<Key> {
    (set v: nat | vpn <= v < vpn + n :: At(r, v, 1)) + (set v: nat | vpn <= v < vpn + n :: At(r, v, 2))
  }

  /** How many tables have to be added to map n pages from vpn. */
  ghost function NewTables(m: Mem, r: Page, vpn: nat, n: nat): nat { |Path(r, vpn, n) - m.node.Keys| }

  /** From m to t, exactly the tables on the way to n pages were added, and `frames` other pages taken. */
  ghost predicate Spent(m: Mem, t: Mem, r: Page, vpn: nat, n: nat, frames: nat) {
    && t.node.Keys == m.node.Keys + Path(r, vpn, n)
    && |m.freelist| == |t.freelist| + NewTables(m, r, vpn, n) + frames
  }

  lemma PathNext(r: Page, vpn: nat, n: nat)
    ensures Path(r, vpn, 0) == {} && Path(r, vpn, n + 1) == Path(r, vpn, n) + Path(r, vpn + n, 1)
    ensures Path(r, vpn, 1) == {At(r, vpn, 1), At(r, vpn, 2)}
  {
    hide At;
  }

  lemma SpentNone(m: Mem, r: Page, vpn: nat)
    ensures Spent(m, m, r, vpn, 0, 0)
  {
    PathNext(r, vpn, 0);
  }

  lemma MissingCount(m: Mem, r: Page, vpn: nat)
    requires Inv(m, NoHole) && vpn < MAXVPN
    ensures NewTables(m, r, vpn, 1) == Missing(m, r, vpn)
  {
    hide Inv, Pos, Path;
    MissingFrom(m, r, vpn);
    PathNext(r, vpn, 0);
    PairSize(m.node.Keys, At(r, vpn, 1), At(r, vpn, 2));
  }

  lemma PairSize(m: set<Key>, a: Key, b: Key)
    requires a != b && (a in m ==> b in m)
    ensures |{a, b} - m| == if a in m then 0 else if b in m then 1 else 2
  {
    assert {a, b} - m == if a in m then {} else if b in m then {a} else {a, b};
  }

  lemma GainSize(m: set<Key>, p: set<Key>, q: set<Key>)
    ensures |p + q - m| == |p - m| + |q - (m + p)| && |p - m| <= |p + q - m|
  {
    var a, b, c := p - m, q - (m + p), p + q - m;
    assert c == a + b && a !! b;
  }

  lemma NewTablesNext(m: Mem, t: Mem, r: Page, vpn: nat, n: nat)
    requires t.node.Keys == m.node.Keys + Path(r, vpn, n)
    ensures NewTables(m, r, vpn, n + 1) == NewTables(m, r, vpn, n) + NewTables(t, r, vpn + n, 1)
  {
    hide Path;
    PathNext(r, vpn, n);
    GainSize(m.node.Keys, Path(r, vpn, n), Path(r, vpn + n, 1));
  }

  lemma SpentNext(m: Mem, t: Mem, u: Mem, r: Page, vpn: nat, n: nat, frames: nat, k: nat)
    requires Spent(m, t, r, vpn, n, frames) && Spent(t, u, r, vpn + n, 1, k)
    ensures Spent(m, u, r, vpn, n + 1, frames + k)
  {
    NewTablesNext(m, t, r, vpn, n);
    PathNext(r, vpn, n);
  }

  lemma NewTablesStep(m: Mem, r: Page, vpn: nat, n: nat)
    ensures NewTables(m, r, vpn, n) <= NewTables(m, r, vpn, n + 1)
  {
    hide Path;
    PathNext(r, vpn, n);
    GainSize(m.node.Keys, Path(r, vpn, n), Path(r, vpn + n, 1));
  }

  lemma {:induction false} NewTablesMore(m: Mem, r: Page, vpn: nat, k: nat, n: nat)
    requires k <= n
    ensures NewTables(m, r, vpn, k) <= NewTables(m, r, vpn, n)
    decreases n
  {
    hide NewTables;
    if k < n {
      NewTablesMore(m, r, vpn, k, n - 1);
      NewTablesStep(m, r, vpn, n - 1);
    }
  }

  lemma SpentOne(m: Mem, t: Mem, r: Page, vpn: nat, frames: nat)
    requires Inv(m, NoHole) && vpn < MAXVPN && t.node.Keys == m.node.Keys + Path(r, vpn, 1)
    requires |m.freelist| == |t.freelist| + Missing(m, r, vpn) + frames
    ensures Spent(m, t, r, vpn, 1, frames)
  {
    hide Inv, Path, Missing, NewTables;
    MissingCount(m, r, vpn);
  }

  lemma SpentFits(m: Mem, t: Mem, r: Page, vpn: nat, n: nat, frames: nat)
    requires Spent(m, t, r, vpn, n, frames)
    ensures NewTables(m, r, vpn, n) + frames <= |m.freelist|
  {}

  /** When the next page does not fit, the whole range does not. */
  lemma RangeFails(m: Mem, t: Mem, r: Page, vpn: nat, n: nat, k: nat, frames: nat, each: nat)
    requires Spent(m, t, r, vpn, k, frames) && k < n && NewTables(t, r, vpn + k, 1) + each > |t.freelist|
    ensures NewTables(m, r, vpn, n) + frames + each > |m.freelist|
  {
    hide Path, NewTables;
    NewTablesNext(m, t, r, vpn, k);
    NewTablesMore(m, r, vpn, k + 1, n);
  }

  // ---- ranges of translations ----

  function Range(r: Page, vpn: nat, n: nat): set<Slot> {
    set v: nat | vpn <= v < vpn + n :: Slot(r, v)
  }

  /** n pages from vpn translate to the n pages from p, and nothing else changes. */
  function MapRange(leaf: map<Slot, Pte>, r: Page, vpn: nat, n: nat, p: Page, perm: Perm): map<Slot, Pte> {
    map s | s in leaf.Keys + Range(r, vpn, n) ::
      if s in Range(r, vpn, n) then Pte(true, perm, p + (s.vpn - vpn)) else leaf[s]
  }

  function UnmapRange(leaf: map<Slot, Pte>, r: Page, vpn: nat, n: nat): map<Slot, Pte> {
    leaf - Range(r, vpn, n)
  }

  lemma MapRangeNext(leaf: map<Slot, Pte>, r: Page, vpn: nat, n: nat, p: Page, perm: Perm)
    ensures MapRange(leaf, r, vpn, n + 1, p, perm) ==
            MapRange(leaf, r, vpn, n, p, perm)[Slot(r, vpn + n) := Pte(true, perm, p + n)]
    ensures MapRange(leaf, r, vpn, 0, p, perm) == leaf
  {}

  lemma UnmapRangeNext(leaf: map<Slot, Pte>, r: Page, vpn: nat, n: nat)
    ensures UnmapRange(leaf, r, vpn, n + 1) == UnmapRange(leaf, r, vpn, n) - {Slot(r, vpn + n)}
    ensures UnmapRange(leaf, r, vpn, 0) == leaf
  {}

  function PgRoundDown(a: nat): (r: nat)
    ensures r <= a < r + PGSIZE
  {
    a / PGSIZE * PGSIZE
  }

  function PgRoundUp(a: nat): (r: nat)
    ensures a <= r < a + PGSIZE
  {
    PgRoundDown(a + PGSIZE - 1)
  }

  /** The pages from that of va to that of the last byte. */
  function PageCount(va: nat, size: nat): (n: nat)
    requires size > 0
    ensures n > 0
  {
    (va + size - 1) / PGSIZE - va / PGSIZE + 1
  }

  /** The entry of an address in its lowest table. */
  lemma LeafEntry(m: Mem, s: Slot)
    requires Inv(m, NoHole) && Home(s) in m.node
    ensures m.node[Home(s)] in m.tables && |m.tables[m.node[Home(s)]]| == ENTRIES
    ensures var e := m.tables[m.node[Home(s)]][s.vpn % ENTRIES];
      && (e.v <==> s in m.leaf) && (e.v ==> m.leaf[s] == e && IsLeaf(e.perm))
  {
    hide Inv;
    TableFacts(m, Home(s), NoHole);
    assert EntryOk(m.node, m.leaf, Home(s), s.vpn % ENTRIES, m.tables[m.node[Home(s)]][s.vpn % ENTRIES]);
  }

  lemma SlotHome(m: Mem, s: Slot)
    requires Inv(m, NoHole) && s in m.leaf
    ensures Home(s) in m.node && m.leaf[s].v && s.vpn < MAXVPN
  {
    hide KeyOk, OwnOk;
  }

  /** What the invariant says of one translation. */
  lemma LeafFacts(m: Mem, s: Slot)
    requires Inv(m, NoHole) && s in m.leaf
    ensures LeafOk(m.leaf, m.owner, s) && (m.leaf[s].perm.u ==> OwnsFrame(m, s))
  {
    hide TreeOk, NodeOwned, PageOk, FreeListOk;
    assert LeafOk(m.leaf, m.owner, s);
  }

  lemma NextUnmapped(leaf: map<Slot, Pte>, r: Page, vpn: nat, n: nat, done: nat, p: Page, perm: Perm)
    requires Range(r, vpn, n) !! leaf.Keys && done < n
    ensures Slot(r, vpn + done) !in MapRange(leaf, r, vpn, done, p, perm)
  {
    assert Slot(r, vpn + done) in Range(r, vpn, n);
  }

  ghost predicate Mapped(leaf: map<Slot, Pte>, s: Slot) { s in leaf }

  /** The frame of s is a page of its own. */
  ghost predicate OwnsFrame(m: Mem, s: Slot) {
    s in m.leaf && m.leaf[s].ppn in m.owner && m.owner[m.leaf[s].ppn] == Frame(s)
  }

  ghost predicate OwnsRange(m: Mem, r: Page, vpn: nat, n: nat) {
    forall v: nat :: vpn <= v < vpn + n ==> OwnsFrame(m, Slot(r, v))
  }

  /** The pages that were frames of n pages from vpn are free, or held by the kernel. */
  function FreeRange(owner: map<Page, Owner>, r: Page, vpn: nat, n: nat, doFree: bool): map<Page, Owner> {
    map p | p in owner ::
      if owner[p].Frame? && owner[p].s in Range(r, vpn, n) then (if doFree then Free else Held) else owner[p]
  }

  /** Those frames, the last one first. */
  function Frames(leaf: map<Slot, Pte>, r: Page, vpn: nat, n: nat): seq<Page>
    requires forall v: nat :: vpn <= v < vpn + n ==> Mapped(leaf, Slot(r, v))
  {
    if n == 0 then [] else
      assert Mapped(leaf, Slot(r, vpn + n - 1));
      [leaf[Slot(r, vpn + n - 1)].ppn] + Frames(leaf, r, vpn, n - 1)
  }

  lemma FrameIsUnique(m: Mem, s: Slot)
    requires Inv(m, NoHole) && s in m.leaf
    ensures forall p :: p in m.owner && m.owner[p] == Frame(s) ==> p == m.leaf[s].ppn
  {
    hide TreeOk, NodeOwned, FreeListOk;
    forall p | p in m.owner && m.owner[p] == Frame(s) ensures p == m.leaf[s].ppn {
      assert PageOk(m, p);
    }
  }

  lemma FreeRangeNext(owner: map<Page, Owner>, r: Page, vpn: nat, n: nat, p: Page, doFree: bool)
    requires doFree ==> p in owner && owner[p] == Frame(Slot(r, vpn + n))
    requires forall q :: q in owner && owner[q] == Frame(Slot(r, vpn + n)) ==> q == p
    ensures FreeRange(owner, r, vpn, n + 1, doFree)
         == Unowned(FreeRange(owner, r, vpn, n, doFree), Slot(r, vpn + n), p, doFree)
  {}

  lemma FreeRangeNone(owner: map<Page, Owner>, r: Page, vpn: nat, doFree: bool)
    ensures FreeRange(owner, r, vpn, 0, doFree) == owner
  {}

  // ---- the loop of uvmunmap ----

  /** How many pages there are before 64-bit addresses wrap around. */
  const PAGES := 0x10_0000_0000_0000
  const TOP := PAGES * PGSIZE

  /** How many pages uvmunmap goes through, in 64-bit arithmetic: with size 0 and an aligned
      address, all of them. */
  function UnmapCount(va: nat, size: nat): (n: nat)
    requires va < TOP && size < TOP
    ensures n > 0
  {
    ((va + size + TOP - 1) % TOP / PGSIZE - va / PGSIZE) % PAGES + 1
  }

  lemma UnmapCountIs(va: nat, size: nat)
    requires va < TOP && size < TOP
    ensures size > 0 && va + size <= TOP ==> UnmapCount(va, size) == PageCount(va, size)
    ensures size == 0 && va % PGSIZE == 0 ==> UnmapCount(va, size) == PAGES
  {
    if size > 0 && va + size <= TOP {
      PageDistance(va, va + size - 1);
    } else if size == 0 && va % PGSIZE == 0 && va > 0 {
      assert (va + TOP - 1) % TOP == va - 1;
      assert (va - 1) / PGSIZE == va / PGSIZE - 1;
    }
  }

  lemma PageDistance(a: nat, b: nat)
    requires a <= b < TOP
    ensures (b + TOP) % TOP == b && (b / PGSIZE - a / PGSIZE) % PAGES == b / PGSIZE - a / PGSIZE
  {
    assert 0 <= b / PGSIZE - a / PGSIZE < PAGES;
  }

  ghost predicate AllMapped(leaf: map<Slot, Pte>, r: Page, vpn: nat, n: nat) {
    forall v: nat :: vpn <= v < vpn + n ==> Mapped(leaf, Slot(r, v))
  }

  /** Of n pages from vpn, those before the first that is not mapped are in frames of their own. */
  ghost predicate Freeable(m: Mem, r: Page, vpn: nat, n: nat) {
    forall v: nat :: vpn <= v < vpn + n && AllMapped(m.leaf, r, vpn, v - vpn) && Mapped(m.leaf, Slot(r, v)) ==>
        OwnsFrame(m, Slot(r, v))
  }

  /** From m, the first `done` pages have been unmapped. */
  ghost predicate Unmapping(m: Mem, t: Mem, r: Page, vpn: nat, done: nat, doFree: bool) {
    && AllMapped(m.leaf, r, vpn, done)
    && t.leaf == UnmapRange(m.leaf, r, vpn, done)
    && t.owner == FreeRange(m.owner, r, vpn, done, doFree)
    && t.freelist == (if doFree then Frames(m.leaf, r, vpn, done) else []) + m.freelist
  }

  lemma UnmapStart(m: Mem, r: Page, vpn: nat, doFree: bool)
    ensures Unmapping(m, m, r, vpn, 0, doFree)
  {
    UnmapRangeNext(m.leaf, r, vpn, 0);
    FreeRangeNone(m.owner, r, vpn, doFree);
  }

  /** The loop ends at the last page, before addresses wrap around. */
  lemma LastPage(va: nat, size: nat, done: nat)
    requires va < TOP && size < TOP && done < UnmapCount(va, size) && va / PGSIZE + done < MAXVPN
    ensures (va + size + TOP - 1) % TOP / PGSIZE == va / PGSIZE + done <==> done + 1 == UnmapCount(va, size)
  {
    LastOfRing((va + size + TOP - 1) % TOP / PGSIZE, va / PGSIZE, done);
  }

  lemma LastOfRing(last: nat, first: nat, done: nat)
    requires last < PAGES && done <= (last - first) % PAGES && first + done < PAGES
    ensures last == first + done <==> done == (last - first) % PAGES
  {
    if last >= first {
      assert (last - first) % PAGES == last - first;
    } else {
      assert (last - first) % PAGES == last - first + PAGES;
    }
  }

  /** The next page is as it was. */
  lemma UnmapNext(m: Mem, t: Mem, r: Page, vpn: nat, done: nat, n: nat, doFree: bool)
    requires Unmapping(m, t, r, vpn, done, doFree) && done < n && (doFree ==> Freeable(m, r, vpn, n))
    ensures var s := Slot(r, vpn + done);
      && (s in m.leaf <==> s in t.leaf) && (s in t.leaf ==> t.leaf[s] == m.leaf[s])
      && (doFree && s in t.leaf ==> OwnsFrame(m, s) && OwnsFrame(t, s))
  {
    var s := Slot(r, vpn + done);
    assert Mapped(m.leaf, s) <==> s in m.leaf;
    assert vpn + done - vpn == done;
  }

  ghost predicate UnmapStep(t: Mem, u: Mem, s: Slot, doFree: bool) {
    && s in t.leaf && u.leaf == t.leaf - {s}
    && u.owner == Unowned(t.owner, s, t.leaf[s].ppn, doFree)
    && u.freelist == (if doFree then [t.leaf[s].ppn] else []) + t.freelist
  }

  lemma UnmapSame(leaf: map<Slot, Pte>, leaf': map<Slot, Pte>, r: Page, vpn: nat, done: nat, s: Slot)
    requires leaf' == UnmapRange(leaf, r, vpn, done) && s in leaf'
    ensures s in leaf && leaf[s] == leaf'[s]
  {}

  lemma UnmapAfter(m: Mem, t: Mem, u: Mem, r: Page, vpn: nat, done: nat, doFree: bool)
    requires Inv(m, NoHole) && Unmapping(m, t, r, vpn, done, doFree) && UnmapStep(t, u, Slot(r, vpn + done), doFree)
    requires doFree ==> OwnsFrame(m, Slot(r, vpn + done))
    ensures Unmapping(m, u, r, vpn, done + 1, doFree)
  {
    hide Inv, UnmapRange, FreeRange, Range, Unowned;
    var s := Slot(r, vpn + done);
    UnmapSame(m.leaf, t.leaf, r, vpn, done, s);
    UnmapRangeNext(m.leaf, r, vpn, done);
    FrameIsUnique(m, s);
    FreeRangeNext(m.owner, r, vpn, done, m.leaf[s].ppn, doFree);
    forall v: nat | vpn <= v < vpn + (done + 1) ensures Mapped(m.leaf, Slot(r, v)) {}
  }

  // ---- growing a process ----

  const USER_PERM := Perm(true, true, true, true)

  /** From m to t, free pages became tables of r or the frames of the slots ss; ss are the new
      translations, each with a frame of its own. */
  ghost predicate Populated(m: Mem, t: Mem, r: Page, ss: set<Slot>) {
    && t.owner.Keys == m.owner.Keys
    && (forall p :: p in m.owner ==> t.owner[p] == m.owner[p] || NewUse(m.owner[p], t.owner[p], r, ss))
    && (forall k :: k in m.node ==> k in t.node && t.node[k] == m.node[k])
    && ss !! m.leaf.Keys && t.leaf.Keys == m.leaf.Keys + ss
    && (forall s :: s in m.leaf ==> t.leaf[s] == m.leaf[s])
    && (forall s :: s in ss ==> OwnsFrame(t, s))
  }

  predicate NewUse(o: Owner, o': Owner, r: Page, ss: set<Slot>) {
    o.Free? && ((o'.Table? && o'.k.root == r) || (o'.Frame? && o'.s in ss))
  }

  lemma PopulatedNone(m: Mem, t: Mem, r: Page)
    requires Grown(m, t, r) && t.leaf == m.leaf
    ensures Populated(m, t, r, {})
  {}

  /** A page is taken, mapped at s, and becomes its frame. */
  lemma PopulateOne(m: Mem, t: Mem, r: Page, s: Slot, perm: Perm)
    requires m.freelist != [] && m.freelist[0] in m.owner && m.owner[m.freelist[0]] == Free && s !in m.leaf
    requires Grown(Alloc(m), t.(owner := t.owner[m.freelist[0] := Held]), r)
    requires t.leaf == m.leaf[s := Pte(true, perm, m.freelist[0])]
    requires m.freelist[0] in t.owner && t.owner[m.freelist[0]] == Frame(s)
    ensures Populated(m, t, r, {s})
  {
    var b := t.(owner := t.owner[m.freelist[0] := Held]);
    assert t.owner == b.owner[m.freelist[0] := Frame(s)];
  }

  /** The page is given back. */
  lemma PopulateFails(m: Mem, t: Mem, r: Page)
    requires m.freelist != [] && m.freelist[0] in m.owner && m.owner[m.freelist[0]] == Free
    requires Grown(Alloc(m), t.(owner := t.owner[m.freelist[0] := Held]), r) && m.freelist[0] in t.owner
    requires t.owner[m.freelist[0]] == Free
    ensures Grown(m, t, r)
  {
    var b := t.(owner := t.owner[m.freelist[0] := Held]);
    assert t.owner == b.owner[m.freelist[0] := Free];
  }

  lemma PopulatedTrans(m: Mem, t: Mem, u: Mem, r: Page, ss: set<Slot>, ss': set<Slot>)
    requires Populated(m, t, r, ss) && Populated(t, u, r, ss')
    ensures Populated(m, u, r, ss + ss')
  {
    forall p | p in m.owner ensures u.owner[p] == m.owner[p] || NewUse(m.owner[p], u.owner[p], r, ss + ss') {
      assert t.owner[p] == m.owner[p] || NewUse(m.owner[p], t.owner[p], r, ss);
      assert u.owner[p] == t.owner[p] || NewUse(t.owner[p], u.owner[p], r, ss');
    }
    forall s | s in ss + ss' ensures OwnsFrame(u, s) {
      if s in ss {
        assert OwnsFrame(t, s);
        assert s in t.leaf && u.leaf[s] == t.leaf[s];
      }
    }
  }

  /** Freeing the new frames again leaves only tables behind. */
  lemma PopulatedUndone(m: Mem, t: Mem, u: Mem, r: Page, vpn: nat, n: nat)
    requires Populated(m, t, r, Range(r, vpn, n)) && u.node == t.node
    requires u.leaf == UnmapRange(t.leaf, r, vpn, n) && u.owner == FreeRange(t.owner, r, vpn, n, true)
    requires Inv(m, NoHole)
    ensures Grown(m, u, r) && u.leaf == m.leaf
  {
    hide Inv;
    FramesPlaced(m);
    forall p | p in m.owner
      ensures u.owner[p] == m.owner[p] || (m.owner[p].Free? && u.owner[p].Table? && u.owner[p].k.root == r)
    {
      assert t.owner[p] == m.owner[p] || NewUse(m.owner[p], t.owner[p], r, Range(r, vpn, n));
    }
  }

  lemma RangeNext(r: Page, vpn: nat, n: nat)
    ensures Range(r, vpn, n + 1) == Range(r, vpn, n) + {Slot(r, vpn + n)} && Range(r, vpn, 0) == {}
  {}

  lemma PopulatedRange(m: Mem, t: Mem, r: Page, vpn: nat, n: nat)
    requires Populated(m, t, r, Range(r, vpn, n))
    ensures AllMapped(t.leaf, r, vpn, n) && Freeable(t, r, vpn, n)
  {
    forall v: nat | vpn <= v < vpn + n ensures Mapped(t.leaf, Slot(r, v)) && OwnsFrame(t, Slot(r, v)) {
      assert Slot(r, v) in Range(r, vpn, n);
    }
  }

  /** The pages up to a size, rounded up. */
  function PgUp(sz: nat): nat { (sz + PGSIZE - 1) / PGSIZE }

  // ---- freeing a tree ----

  /** The table at height h that k is in. */
  function Top(k: Key, h: nat): Key
    decreases h - k.h
  {
    if k.h >= h then k else Top(Parent(k), h)
  }

  predicate Under(k': Key, k: Key) { k'.h <= k.h && Top(k', k.h) == k }

  /** k' is in the subtree of one of the first i entries of k. */
  predicate Gone(k': Key, k: Key, i: nat) {
    k'.h < k.h && Under(k', k) && Index(Top(k', k.h - 1)) < i
  }

  lemma {:induction false} TopParent(k: Key, h: nat)
    requires k.h <= h
    ensures Parent(Top(k, h)) == Top(k, h + 1) && Top(k, h).h == h
    decreases h - k.h
  {
    if k.h < h {
      TopParent(Parent(k), h);
    }
  }

  lemma {:induction false} TopIn(m: Mem, hole: Hole, k: Key, h: nat)
    requires TreeOk(m.tables, m.node, m.leaf, hole) && k in m.node && k.h <= h <= 3
    ensures Top(k, h) in m.node
    decreases h - k.h
  {
    assert KeyOk(m.tables, m.node, m.leaf, k, hole);
    if k.h < h {
      TopIn(m, hole, Parent(k), h);
    }
  }

  /** Going one entry further takes in the subtree of that entry. */
  lemma GoneNext(k': Key, k: Key, i: nat)
    requires k.h > 0 && i < ENTRIES
    ensures Gone(k', k, i + 1) <==> Gone(k', k, i) || Under(k', Child(k, i))
  {
    ChildParent(k, i);
    if k'.h < k.h {
      TopParent(k', k.h - 1);
      ParentChild(Top(k', k.h - 1));
    }
  }

  lemma GoneAll(k': Key, k: Key)
    ensures Under(k', k) <==> Gone(k', k, ENTRIES) || k' == k
    ensures !Gone(k', k, 0)
  {
    if k'.h < k.h {
      ParentChild(Top(k', k.h - 1));
    }
  }

  /** From m to t, the tables that `gone` picks were freed and nothing else changed its use. */
  ghost predicate Pruned(m: Mem, t: Mem, gone: Key -> bool) {
    && t.leaf == m.leaf && t.owner.Keys == m.owner.Keys
    && (forall k :: k in t.node ==> k in m.node && !gone(k) && t.node[k] == m.node[k])
    && (forall k :: k in m.node && !gone(k) ==> k in t.node)
    && (forall p :: p in m.owner ==> t.owner[p] == if m.owner[p].Table? && gone(m.owner[p].k) then Free else m.owner[p])
  }

  function GoneOf(k: Key, i: nat): Key -> bool { k' => Gone(k', k, i) }
  function UnderOf(k: Key): Key -> bool { k' => Under(k', k) }

  lemma PruneStart(m: Mem, k: Key)
    ensures Pruned(m, m, GoneOf(k, 0))
  {
    forall k' ensures !Gone(k', k, 0) { GoneAll(k', k); }
  }

  lemma PruneChild(m: Mem, t: Mem, u: Mem, k: Key, i: nat)
    requires k.h > 0 && i < ENTRIES && Pruned(m, t, GoneOf(k, i)) && Pruned(t, u, UnderOf(Child(k, i)))
    ensures Pruned(m, u, GoneOf(k, i + 1))
  {
    forall k' ensures Gone(k', k, i + 1) <==> Gone(k', k, i) || Under(k', Child(k, i)) { GoneNext(k', k, i); }
  }

  /** No table is below one that is not there. */
  lemma NoOrphans(m: Mem, hole: Hole, c: Key)
    requires TreeOk(m.tables, m.node, m.leaf, hole) && c !in m.node && c.h <= 3
    ensures forall k :: k in m.node ==> !Under(k, c)
  {
    forall k | k in m.node ensures !Under(k, c) {
      if k.h <= c.h { TopIn(m, hole, k, c.h); }
    }
  }

  lemma NoneBelow(m: Mem, c: Key)
    requires Inv(m, NoHole) && c !in m.node && c.h <= 3
    ensures forall k :: k in m.node ==> !Under(k, c)
  {
    hide OwnOk;
    NoOrphans(m, NoHole, c);
  }

  lemma TablesPlaced(m: Mem, hole: Hole)
    requires Inv(m, hole)
    ensures forall p :: p in m.owner && m.owner[p].Table? ==> m.owner[p].k in m.node && m.node[m.owner[p].k] == p
  {
    hide TreeOk, NodeOwned, FreeListOk;
    forall p | p in m.owner && m.owner[p].Table? ensures m.owner[p].k in m.node && m.node[m.owner[p].k] == p {
      assert PageOk(m, p);
    }
  }

  lemma PruneSkip(m: Mem, t: Mem, k: Key, i: nat)
    requires 0 < k.h <= 3 && i < ENTRIES && Pruned(m, t, GoneOf(k, i)) && Inv(m, NoHole) && Inv(t, NoHole)
    requires Child(k, i) !in t.node
    ensures Pruned(m, t, GoneOf(k, i + 1))
  {
    hide Inv, Gone, Under;
    NoneBelow(t, Child(k, i));
    TablesPlaced(m, NoHole);
    forall k' ensures Gone(k', k, i + 1) <==> Gone(k', k, i) || Under(k', Child(k, i)) { GoneNext(k', k, i); }
  }

  lemma PruneLast(m: Mem, t: Mem, k: Key)
    requires Pruned(m, t, GoneOf(k, ENTRIES)) && k in t.node && NodeOwned(t.node, t.owner, k)
    requires forall p :: p in m.owner && m.owner[p] == Table(k) ==> p == t.node[k]
    ensures Pruned(m, Unlink(t, k), UnderOf(k))
  {
    hide Gone, Under;
    forall k' ensures Under(k', k) <==> Gone(k', k, ENTRIES) || k' == k { GoneAll(k', k); }
  }

  lemma PruneEnd(m: Mem, t: Mem, k: Key)
    requires Pruned(m, t, GoneOf(k, ENTRIES)) && k in t.node && Inv(t, NoHole) && Inv(m, NoHole)
    ensures Pruned(m, Unlink(t, k), UnderOf(k))
  {
    hide Inv, KeyOk;
    TableFacts(t, k, NoHole);
    TablesPlaced(m, NoHole);
    assert t.node[k] == m.node[k];
    hide Pruned;
    PruneLast(m, t, k);
  }

  // ---- a whole page table ----

  lemma {:induction false} TopRoot(k: Key, h: nat)
    ensures Top(k, h).root == k.root
    decreases h - k.h
  {
    if k.h < h { TopRoot(Parent(k), h); }
  }

  /** The tables below a root are those of its page table. */
  lemma RootUnder(m: Mem, k: Key, r: Page)
    requires Inv(m, NoHole) && k in m.node
    ensures Under(k, RootKey(r)) <==> k.root == r
  {
    TableFacts(m, k, NoHole);
    TopIn(m, NoHole, k, 3);
    TopRoot(k, 3);
    TopParent(k, 3);
    TableFacts(m, Top(k, 3), NoHole);
  }

  /** From m to t, page table r is gone: each of its tables and frames is free, and nothing else
      changed its use. */
  ghost predicate Freed(m: Mem, t: Mem, r: Page) {
    && t.owner == (map p | p in m.owner :: if UsedBy(m.owner[p], r) then Free else m.owner[p])
    && t.leaf == (map s | s in m.leaf && s.root != r :: m.leaf[s])
    && t.node == (map k | k in m.node && k.root != r :: m.node[k])
  }

  predicate UsedBy(o: Owner, r: Page) { (o.Table? && o.k.root == r) || (o.Frame? && o.s.root == r) }

  /** Every translation of r is one of its first n pages. */
  ghost predicate OnlyBelow(leaf: map<Slot, Pte>, r: Page, n: nat) {
    forall s :: s in leaf && s.root == r ==> s in Range(r, 0, n)
  }

  lemma UnmappedAll(m: Mem, t: Mem, r: Page, n: nat)
    requires OnlyBelow(m.leaf, r, n) && t.leaf == UnmapRange(m.leaf, r, 0, n)
    ensures (forall s :: s in t.leaf ==> s.root != r) && t.leaf == (map s | s in m.leaf && s.root != r :: m.leaf[s])
  {}

  lemma FreedAll(m: Mem, t: Mem, u: Mem, r: Page, n: nat)
    requires Inv(m, NoHole) && Inv(t, NoHole) && OnlyBelow(m.leaf, r, n) && t.node == m.node
    requires t.leaf == UnmapRange(m.leaf, r, 0, n) && t.owner == FreeRange(m.owner, r, 0, n, true)
    requires Pruned(t, u, UnderOf(RootKey(r)))
    ensures Freed(m, u, r)
  {
    hide Inv, Under, OnlyBelow;
    UnmappedAll(m, t, r, n);
    TablesPlaced(m, NoHole);
    FramesPlaced(m);
    forall k | k in m.node ensures Under(k, RootKey(r)) <==> k.root == r { RootUnder(m, k, r); }
    FreedOwners(m, t, u, r, n);
  }

  lemma FramesPlaced(m: Mem)
    requires Inv(m, NoHole)
    ensures forall p :: p in m.owner && m.owner[p].Frame? ==> m.owner[p].s in m.leaf
  {
    hide TreeOk, NodeOwned, FreeListOk;
    forall p | p in m.owner && m.owner[p].Frame? ensures m.owner[p].s in m.leaf {
      assert PageOk(m, p);
    }
  }

  lemma FreedOwners(m: Mem, t: Mem, u: Mem, r: Page, n: nat)
    requires OnlyBelow(m.leaf, r, n) && t.owner == FreeRange(m.owner, r, 0, n, true)
    requires Pruned(t, u, UnderOf(RootKey(r)))
    requires forall p :: p in m.owner && m.owner[p].Table? ==> m.owner[p].k in m.node && m.node[m.owner[p].k] == p
    requires forall p :: p in m.owner && m.owner[p].Frame? ==> m.owner[p].s in m.leaf
    requires forall k :: k in m.node ==> (Under(k, RootKey(r)) <==> k.root == r)
    ensures u.owner == map p | p in m.owner :: if UsedBy(m.owner[p], r) then Free else m.owner[p]
  {
    hide Under;
  }

  /** A held page becomes the root of a new, empty page table. */
  function NewRoot(m: Mem, p: Page): Mem {
    m.(tables := m.tables[p := seq(ENTRIES, _ => ZERO)], node := m.node[RootKey(p) := p],
       owner := m.owner[p := Table(RootKey(p))])
  }

  lemma NewRootKeeps(m: Mem, p: Page)
    requires Inv(m, NoHole) && p in m.owner && m.owner[p] == Held && NoneTo(m.leaf, p)
    ensures Inv(NewRoot(m, p), NoHole) && forall s :: s in m.leaf ==> s.root != p
  {
    var t, k := NewRoot(m, p), RootKey(p);
    if k in m.node { TableFacts(m, k, NoHole); }
    NoOrphans(m, NoHole, k);
    forall k' | k' in t.node ensures KeyOk(t.tables, t.node, t.leaf, k', NoHole) {
      if k' != k {
        TableFacts(m, k', NoHole);
        NewRootEntries(m, p, k');
      } else {
        forall j: nat | j < ENTRIES ensures EntryOk(t.node, t.leaf, k, j, t.tables[p][j]) {
          ChildParent(k, j);
          assert Child(k, j) in m.node ==> KeyOk(m.tables, m.node, m.leaf, Child(k, j), NoHole);
        }
      }
    }
    NewRootOwn(m, p);
    forall s | s in m.leaf ensures s.root != p {
      RootUnder(m, Home(s), p);
    }
  }

  lemma NewRootEntries(m: Mem, p: Page, k: Key)
    requires k in m.node && KeyOk(m.tables, m.node, m.leaf, k, NoHole) && m.node[k] != p
    ensures var t := NewRoot(m, p); EntriesOk(t.node, t.leaf, k, t.tables[t.node[k]], NoHole)
  {
    var t := NewRoot(m, p);
    forall j: nat | j < ENTRIES ensures EntryOk(t.node, t.leaf, k, j, t.tables[t.node[k]][j]) {
      assert EntryOk(m.node, m.leaf, k, j, m.tables[m.node[k]][j]);
    }
  }

  lemma NewRootOwn(m: Mem, p: Page)
    requires OwnOk(m) && p in m.owner && m.owner[p] == Held && RootKey(p) !in m.node && NoneTo(m.leaf, p)
    ensures OwnOk(NewRoot(m, p))
  {
    var t := NewRoot(m, p);
    forall s | s in t.leaf ensures LeafOk(t.leaf, t.owner, s) {
      assert LeafOk(m.leaf, m.owner, s);
    }
    forall k | k in t.node ensures NodeOwned(t.node, t.owner, k) {
      if k != RootKey(p) { assert NodeOwned(m.node, m.owner, k); }
    }
    forall q | q in t.owner ensures PageOk(t, q) {
      assert q in m.owner && PageOk(m, q);
    }
  }
}
