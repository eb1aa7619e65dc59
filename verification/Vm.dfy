/** Two-level page tables over a page allocator: vm.c and kalloc.c.

    Physical pages are numbers. Every page has one role: free, held by the kernel code
    that allocated it, a page directory, a page table, or a user frame at a virtual
    page. That there is such a map, and that it agrees with the tables in memory, is the
    conservation property: no page is lost, shared or freed twice.
 */
module Vm {
  import opened Sets

  const USER: nat := 0x8_0000      // virtual page number of KERNBASE
  const TOP: nat := 0x10_0000      // number of virtual pages

  /** A page directory or page table entry; flags are its permission bits. */
  datatype Entry = Absent | Present(page: nat, flags: nat)

  datatype Role =
    | Free
    | Held                         // returned by kalloc, not yet in use
    | Dir                          // a page directory
    | Dying                        // a page directory whose tables are being freed
    | Tab(d: nat, x: nat)          // the page table in entry x of directory d
    | Frame(d: nat, v: nat)        // the user memory at virtual page v of directory d

  type Tables = map<nat, seq<Entry>>
  type Roles = map<nat, Role>
  type Bytes = seq<int>

  const PTE_W: nat := 2
  const PTE_U: nat := 4

  function EmptyTable(): (t: seq<Entry>)
    ensures |t| == 1024 && forall i :: 0 <= i < 1024 ==> t[i] == Absent
  {
    seq(1024, _ => Absent)
  }

  function EntryAt(tabs: Tables, p: nat, i: nat): Entry {
    if p in tabs && i < |tabs[p]| then tabs[p][i] else Absent
  }

  function Put(tabs: Tables, p: nat, i: nat, e: Entry): Tables {
    if p in tabs && i < |tabs[p]| then tabs[p := tabs[p][i := e]] else tabs
  }

  /** The page table entry for virtual page v. */
  function Lookup(tabs: Tables, d: nat, v: nat): Entry {
    match EntryAt(tabs, d, v / 1024)
    case Absent => Absent
    case Present(pt, _) => EntryAt(tabs, pt, v % 1024)
  }

  // ---- roles agree with memory ----

  predicate IsDir(role: Roles, d: nat) {
    d in role && role[d] == Dir
  }

  ghost predicate FreeOk(free: seq<nat>, role: Roles) {
    && 0 !in role
    && (forall i, j :: 0 <= i < j < |free| ==> free[i] != free[j])
    && (forall i :: 0 <= i < |free| ==> free[i] in role && role[free[i]] == Free)
    && (forall p :: p in role && role[p] == Free ==> p in free)
  }

  /** A directory's tables are its own. */
  ghost predicate DirOk(tabs: Tables, role: Roles, d: nat) {
    && d in tabs && |tabs[d]| == 1024
    && forall x :: 0 <= x < 1024 && EntryAt(tabs, d, x).Present? ==>
         EntryAt(tabs, d, x).page in role && role[EntryAt(tabs, d, x).page] == Tab(d, x)
  }

  /** A directory's user memory is its own. */
  ghost predicate UserOk(tabs: Tables, role: Roles, d: nat) {
    forall v :: 0 <= v < USER && Lookup(tabs, d, v).Present? ==>
      Lookup(tabs, d, v).page in role && role[Lookup(tabs, d, v).page] == Frame(d, v)
  }

  /** A page is used where its role says. */
  ghost predicate RoleOk(tabs: Tables, data: map<nat, Bytes>, role: Roles, p: nat)
    requires p in role
  {
    match role[p]
    case Tab(d, x) =>
      && d in role && (role[d] == Dir || role[d] == Dying) && x < 1024
      && p in tabs && |tabs[p]| == 1024
      && EntryAt(tabs, d, x).Present? && EntryAt(tabs, d, x).page == p
    case Frame(d, v) =>
      && IsDir(role, d) && v < USER && p in data
      && Lookup(tabs, d, v).Present? && Lookup(tabs, d, v).page == p
    case _ => true
  }

  ghost predicate DirsOk(tabs: Tables, role: Roles) {
    forall d :: IsDir(role, d) ==> DirOk(tabs, role, d) && UserOk(tabs, role, d)
  }

  ghost predicate RolesOk(tabs: Tables, data: map<nat, Bytes>, role: Roles) {
    forall p :: p in role ==> RoleOk(tabs, data, role, p)
  }

  ghost predicate Inv(free: seq<nat>, tabs: Tables, data: map<nat, Bytes>, role: Roles) {
    && FreeOk(free, role)
    && DirsOk(tabs, role)
    && RolesOk(tabs, data, role)
  }

  /** What the roles are for: two virtual pages, of one address space or of two, never share a page,
      and no page in use as user memory is free, a directory or a page table. */
  lemma OwnMemory(free: seq<nat>, tabs: Tables, data: map<nat, Bytes>, role: Roles, d: nat, v: nat, e: nat, u: nat,
                  x: nat)
    requires Inv(free, tabs, data, role) && IsDir(role, d) && IsDir(role, e) && v < USER && u < USER && x < 1024
    requires Lookup(tabs, d, v).Present?
    ensures var p := Lookup(tabs, d, v).page;
            && p !in free && p != e && p in data
            && (EntryAt(tabs, e, x).Present? ==> EntryAt(tabs, e, x).page != p && EntryAt(tabs, e, x).page !in free)
            && (Lookup(tabs, e, u).Present? && Lookup(tabs, e, u).page == p ==> e == d && u == v)
  {
    hide Lookup, EntryAt;
    assert DirOk(tabs, role, e) && UserOk(tabs, role, d) && UserOk(tabs, role, e);
    assert RoleOk(tabs, data, role, Lookup(tabs, d, v).page);
  }

  // ---- one change at a time ----

  /** A page nobody points to may change between free and held. */
  lemma Reassign(tabs: Tables, data: map<nat, Bytes>, role: Roles, p: nat, r: Role)
    requires p in role && (role[p] == Free || role[p] == Held) && (r == Free || r == Held)
    requires DirsOk(tabs, role) && RolesOk(tabs, data, role)
    ensures DirsOk(tabs, role[p := r]) && RolesOk(tabs, data, role[p := r])
  {
    hide EntryAt, Lookup;
    var role' := role[p := r];
    forall d | IsDir(role', d)
      ensures DirOk(tabs, role', d) && UserOk(tabs, role', d)
    {
      assert IsDir(role, d);
    }
    forall q | q in role'
      ensures RoleOk(tabs, data, role', q)
    {
      assert RoleOk(tabs, data, role, q);
    }
  }

  /** Taking a page off the free list, or putting one back. */
  lemma TakeOk(free: seq<nat>, tabs: Tables, data: map<nat, Bytes>, role: Roles)
    requires Inv(free, tabs, data, role) && free != []
    ensures Inv(free[1..], tabs, data, role[free[0] := Held]) && free[0] in role && role[free[0]] == Free
            && free[0] != 0
  {
    hide EntryAt, Lookup;
    Reassign(tabs, data, role, free[0], Held);
    var role' := role[free[0] := Held];
    forall p | p in role' && role'[p] == Free
      ensures p in free[1..]
    {
      assert p in free;
    }
  }

  lemma GiveOk(free: seq<nat>, tabs: Tables, data: map<nat, Bytes>, role: Roles, p: nat)
    requires Inv(free, tabs, data, role) && p in role && role[p] == Held
    ensures Inv([p] + free, tabs, data, role[p := Free])
  {
    hide EntryAt, Lookup;
    Reassign(tabs, data, role, p, Free);
    assert p !in free;
  }

  /** An empty page table hung into an empty directory entry changes no mapping. */
  lemma AddTableLookup(tabs: Tables, data: map<nat, Bytes>, role: Roles, d: nat, x: nat, pt: nat, flags: nat, e: nat,
                       v: nat)
    requires DirsOk(tabs, role)
    requires IsDir(role, d) && x < 1024 && EntryAt(tabs, d, x) == Absent
    requires pt in role && role[pt] == Held && IsDir(role, e)
    ensures var tabs' := Put(tabs[pt := EmptyTable()], d, x, Present(pt, flags));
            Lookup(tabs', e, v) == Lookup(tabs, e, v)
  {
    hide EmptyTable;
    assert DirOk(tabs, role, d) && DirOk(tabs, role, e);
    var tabs' := Put(tabs[pt := EmptyTable()], d, x, Present(pt, flags));
    if e == d && v / 1024 == x {
    } else {
      assert EntryAt(tabs', e, v / 1024) == EntryAt(tabs, e, v / 1024);
    }
  }

  lemma AddTableOk(free: seq<nat>, tabs: Tables, data: map<nat, Bytes>, role: Roles, d: nat, x: nat, pt: nat,
                   flags: nat)
    requires Inv(free, tabs, data, role) && IsDir(role, d) && x < 1024 && EntryAt(tabs, d, x) == Absent
    requires pt in role && role[pt] == Held
    ensures var tabs' := Put(tabs[pt := EmptyTable()], d, x, Present(pt, flags));
            Inv(free, tabs', data, role[pt := Tab(d, x)])
  {
    hide Lookup, EmptyTable;
    var tabs', role' := Put(tabs[pt := EmptyTable()], d, x, Present(pt, flags)), role[pt := Tab(d, x)];
    assert DirOk(tabs, role, d);
    forall e | IsDir(role', e)
      ensures DirOk(tabs', role', e) && UserOk(tabs', role', e)
    {
      assert IsDir(role, e);
      assert DirOk(tabs, role, e) && UserOk(tabs, role, e);
      assert forall y :: 0 <= y < 1024 ==>
               EntryAt(tabs', e, y) == if e == d && y == x then Present(pt, flags) else EntryAt(tabs, e, y);
      forall v | 0 <= v < USER
        ensures Lookup(tabs', e, v) == Lookup(tabs, e, v)
      {
        AddTableLookup(tabs, data, role, d, x, pt, flags, e, v);
      }
    }
    forall p | p in role'
      ensures RoleOk(tabs', data, role', p)
    {
      assert RoleOk(tabs, data, role, p);
      if role[p].Frame? {
        AddTableLookup(tabs, data, role, d, x, pt, flags, role[p].d, role[p].v);
      }
    }
  }

  /** Storing a page table entry changes that mapping only. */
  lemma PutLookup(tabs: Tables, role: Roles, d: nat, v: nat, pt: nat, n: Entry, e: nat, u: nat)
    requires DirsOk(tabs, role)
    requires IsDir(role, d) && EntryAt(tabs, d, v / 1024).Present? && EntryAt(tabs, d, v / 1024).page == pt
    requires pt in tabs && |tabs[pt]| == 1024 && v < TOP && u < TOP && IsDir(role, e)
    ensures Lookup(Put(tabs, pt, v % 1024, n), e, u) == if e == d && u == v then n else Lookup(tabs, e, u)
  {
    assert DirOk(tabs, role, d) && DirOk(tabs, role, e);
    var tabs' := Put(tabs, pt, v % 1024, n);
    assert role[pt] == Tab(d, v / 1024) && pt != d && pt != e;
    assert EntryAt(tabs', e, u / 1024) == EntryAt(tabs, e, u / 1024);
    if EntryAt(tabs, e, u / 1024).Present? && EntryAt(tabs, e, u / 1024).page == pt {
      assert role[pt] == Tab(e, u / 1024);
      assert u == v <==> u % 1024 == v % 1024;
    }
  }

  /** The page table that serves virtual page v of a directory. */
  lemma TableThere(tabs: Tables, data: map<nat, Bytes>, role: Roles, d: nat, v: nat)
    requires DirsOk(tabs, role) && RolesOk(tabs, data, role) && IsDir(role, d) && v < TOP
    requires EntryAt(tabs, d, v / 1024).Present?
    ensures var pt := EntryAt(tabs, d, v / 1024).page;
            pt in role && role[pt] == Tab(d, v / 1024) && pt in tabs && |tabs[pt]| == 1024
  {
    assert DirOk(tabs, role, d);
    var pt := EntryAt(tabs, d, v / 1024).page;
    assert RoleOk(tabs, data, role, pt);
  }

  /** What storing the entry of virtual page v of directory d leaves alone. */
  lemma PutKeeps(tabs: Tables, data: map<nat, Bytes>, role: Roles, d: nat, v: nat, n: Entry)
    requires DirsOk(tabs, role) && RolesOk(tabs, data, role) && IsDir(role, d) && v < TOP
    requires EntryAt(tabs, d, v / 1024).Present?
    ensures var tabs' := Put(tabs, EntryAt(tabs, d, v / 1024).page, v % 1024, n);
            && (forall p :: p in tabs' <==> p in tabs) && (forall p :: p in tabs ==> |tabs'[p]| == |tabs[p]|)
            && (forall e, x :: e in role && !role[e].Tab? ==> EntryAt(tabs', e, x) == EntryAt(tabs, e, x))
            && (forall e, u :: IsDir(role, e) && 0 <= u < TOP ==>
                 Lookup(tabs', e, u) == if e == d && u == v then n else Lookup(tabs, e, u))
  {
    var pt := EntryAt(tabs, d, v / 1024).page;
    TableThere(tabs, data, role, d, v);
    var tabs' := Put(tabs, pt, v % 1024, n);
    forall e, u | IsDir(role, e) && 0 <= u < TOP
      ensures Lookup(tabs', e, u) == if e == d && u == v then n else Lookup(tabs, e, u)
    {
      PutLookup(tabs, role, d, v, pt, n, e, u);
    }
  }

  /** Mapping a held page as user memory. */
  lemma MapOk(free: seq<nat>, tabs: Tables, data: map<nat, Bytes>, role: Roles, d: nat, v: nat, f: nat, flags: nat)
    requires Inv(free, tabs, data, role) && IsDir(role, d) && v < USER && EntryAt(tabs, d, v / 1024).Present?
    requires Lookup(tabs, d, v) == Absent && f in role && role[f] == Held && f in data
    ensures var pt := EntryAt(tabs, d, v / 1024).page;
            Inv(free, Put(tabs, pt, v % 1024, Present(f, flags)), data, role[f := Frame(d, v)])
  {
    hide EntryAt, Lookup, Put;
    var pt := EntryAt(tabs, d, v / 1024).page;
    TableThere(tabs, data, role, d, v);
    var tabs', role' := Put(tabs, pt, v % 1024, Present(f, flags)), role[f := Frame(d, v)];
    PutKeeps(tabs, data, role, d, v, Present(f, flags));
    forall e | IsDir(role', e)
      ensures DirOk(tabs', role', e) && UserOk(tabs', role', e)
    {
      assert IsDir(role, e);
      assert DirOk(tabs, role, e) && UserOk(tabs, role, e);
    }
    forall p | p in role'
      ensures RoleOk(tabs', data, role', p)
    {
      assert RoleOk(tabs, data, role, p);
    }
  }

  /** Unmapping user memory: the frame is in hand. */
  lemma UnmapOk(free: seq<nat>, tabs: Tables, data: map<nat, Bytes>, role: Roles, d: nat, v: nat)
    requires Inv(free, tabs, data, role) && IsDir(role, d) && v < USER && EntryAt(tabs, d, v / 1024).Present?
    requires Lookup(tabs, d, v).Present?
    ensures var pt, f := EntryAt(tabs, d, v / 1024).page, Lookup(tabs, d, v).page;
            f in role && role[f] == Frame(d, v) && Inv(free, Put(tabs, pt, v % 1024, Absent), data, role[f := Held])
  {
    hide EntryAt, Lookup, Put;
    var pt, f := EntryAt(tabs, d, v / 1024).page, Lookup(tabs, d, v).page;
    TableThere(tabs, data, role, d, v);
    assert UserOk(tabs, role, d);
    var tabs', role' := Put(tabs, pt, v % 1024, Absent), role[f := Held];
    PutKeeps(tabs, data, role, d, v, Absent);
    forall e | IsDir(role', e)
      ensures DirOk(tabs', role', e) && UserOk(tabs', role', e)
    {
      assert IsDir(role, e);
      assert DirOk(tabs, role, e) && UserOk(tabs, role, e);
    }
    forall p | p in role'
      ensures RoleOk(tabs', data, role', p)
    {
      assert RoleOk(tabs, data, role, p);
    }
  }

  /** Storing a kernel entry: the page is not the allocator's concern. */
  lemma MapKernelOk(free: seq<nat>, tabs: Tables, data: map<nat, Bytes>, role: Roles, d: nat, v: nat, n: Entry)
    requires Inv(free, tabs, data, role) && IsDir(role, d) && USER <= v < TOP && EntryAt(tabs, d, v / 1024).Present?
    ensures Inv(free, Put(tabs, EntryAt(tabs, d, v / 1024).page, v % 1024, n), data, role)
  {
    hide EntryAt, Lookup, Put;
    var pt := EntryAt(tabs, d, v / 1024).page;
    var tabs' := Put(tabs, pt, v % 1024, n);
    TableThere(tabs, data, role, d, v);
    PutKeeps(tabs, data, role, d, v, n);
    forall e | IsDir(role, e)
      ensures DirOk(tabs', role, e) && UserOk(tabs', role, e)
    {
      assert DirOk(tabs, role, e) && UserOk(tabs, role, e);
    }
    forall p | p in role
      ensures RoleOk(tabs', data, role, p)
    {
      assert RoleOk(tabs, data, role, p);
    }
  }

  // ---- pages and bytes ----

  /** What user code sees at an address: nothing, or a byte and the flags of its page. */
  datatype Cell = Nothing | Byte(flags: nat, b: int)

  ghost function CellAt(tabs: Tables, data: map<nat, Bytes>, d: nat, a: nat): Cell {
    match Lookup(tabs, d, a / 4096)
    case Absent => Nothing
    case Present(p, flags) => Byte(flags, if p in data && a % 4096 < |data[p]| then data[p][a % 4096] else 0)
  }

  // ---- how roles change ----

  /** Pages may only have gone from free to page tables of d. */
  ghost predicate OnlyTables(r: Roles, r': Roles, d: nat) {
    && (forall p :: p in r' <==> p in r)
    && (forall p :: p in r && r'[p] != r[p] ==> r[p] == Free && r'[p].Tab? && r'[p].d == d)
  }

  /** Pages may only have gone from free to page tables or user memory of d in [lo, hi). */
  ghost predicate OnlyGrown(r: Roles, r': Roles, d: nat, lo: nat, hi: nat) {
    && (forall p :: p in r' <==> p in r)
    && (forall p :: p in r && r'[p] != r[p] ==>
         r[p] == Free && ((r'[p].Tab? && r'[p].d == d) || (r'[p].Frame? && r'[p].d == d && lo <= r'[p].v < hi)))
  }

  /** The user memory of d in [lo, hi) set free. */
  ghost function Released(r: Roles, d: nat, lo: nat, hi: nat): (r': Roles)
    ensures forall e :: IsDir(r', e) <==> IsDir(r, e)
  {
    map p | p in r :: if r[p].Frame? && r[p].d == d && lo <= r[p].v < hi then Free else r[p]
  }

  /** All that belongs to directory d set free, and d itself. */
  ghost function Dropped(r: Roles, d: nat): Roles {
    map p | p in r :: if p == d || ((r[p].Tab? || r[p].Frame?) && r[p].d == d) then Free else r[p]
  }

  /** A size in bytes, rounded up to pages. */
  function PagesUp(sz: nat): nat {
    (sz + 4095) / 4096
  }

  /** The pages that start below sz. */
  lemma PagesBelow(sz: nat, v: nat)
    ensures v < PagesUp(sz) <==> 4096 * v < sz
  {
  }

  // ---- how many pages an operation takes ----

  ghost function Missing(tabs: Tables, d: nat, v: nat): nat {
    if EntryAt(tabs, d, v / 1024).Present? then 0 else 1
  }

  /** Directory d has a table for v, and otherwise the tables it had. */
  ghost predicate TableFor(tabs: Tables, tabs': Tables, d: nat, v: nat) {
    forall x :: 0 <= x < 1024 ==>
      (EntryAt(tabs', d, x).Present? <==> EntryAt(tabs, d, x).Present? || x == v / 1024)
  }

  /** The pages that virtual pages [lo, hi) of d need: one each, and one for each page table that is
      not there yet. */
  ghost function Cost(tabs: Tables, d: nat, lo: nat, hi: nat): nat
    decreases hi
  {
    if hi <= lo then 0
    else
      var a := hi - 1;
      Cost(tabs, d, lo, a) + 1 + (if lo < a && a % 1024 != 0 then 0 else Missing(tabs, d, a))
  }

  lemma {:induction false} CostGrows(tabs: Tables, d: nat, lo: nat, a: nat, hi: nat)
    requires lo <= a <= hi
    ensures Cost(tabs, d, lo, a) + (hi - a) <= Cost(tabs, d, lo, hi)
    decreases hi
  {
    if a < hi {
      CostGrows(tabs, d, lo, a, hi - 1);
    }
  }

  /** The tables of d after [lo, a) has been mapped. */
  ghost predicate TablesUpTo(tabs0: Tables, tabs: Tables, d: nat, lo: nat, a: nat) {
    forall x :: 0 <= x < 1024 ==>
      (EntryAt(tabs, d, x).Present? <==> EntryAt(tabs0, d, x).Present? || (lo < a && lo / 1024 <= x && 1024 * x < a))
  }

  lemma CostStep(tabs0: Tables, tabs: Tables, tabs': Tables, d: nat, lo: nat, a: nat)
    requires lo <= a < TOP && TablesUpTo(tabs0, tabs, d, lo, a)
    ensures Cost(tabs0, d, lo, a + 1) == Cost(tabs0, d, lo, a) + 1 + Missing(tabs, d, a)
    ensures TableFor(tabs, tabs', d, a) ==> TablesUpTo(tabs0, tabs', d, lo, a + 1)
  {
    hide EntryAt;
    var x := a / 1024;
    assert lo / 1024 <= x < 1024 && (1024 * x < a <==> a % 1024 != 0);
    if TableFor(tabs, tabs', d, a) {
      forall y | 0 <= y < 1024
        ensures EntryAt(tabs', d, y).Present? <==>
                  EntryAt(tabs0, d, y).Present? || (lo < a + 1 && lo / 1024 <= y && 1024 * y < a + 1)
      {
        assert lo / 1024 <= y && 1024 * y < a + 1 ==> y == x || (lo < a && 1024 * y < a);
      }
    }
  }

  /** The entries of directory d that hold a page table. */
  ghost function Tabbed(tabs: Tables, d: nat): set<int> {
    set x | 0 <= x < 1024 && EntryAt(tabs, d, x).Present?
  }

  lemma TabbedStep(tabs: Tables, tabs': Tables, d: nat, v: nat)
    requires TableFor(tabs, tabs', d, v) && v < TOP
    ensures |Tabbed(tabs', d)| == |Tabbed(tabs, d)| + Missing(tabs, d, v)
  {
    hide EntryAt;
    var a, b := Tabbed(tabs, d), Tabbed(tabs', d);
    forall x
      ensures x in b <==> x in a + {v / 1024}
    {
      assert 0 <= x < 1024 ==> (EntryAt(tabs', d, x).Present? <==> EntryAt(tabs, d, x).Present? || x == v / 1024);
    }
    assert b == a + {v / 1024};
  }

  // ---- what user memory holds ----

  datatype Page = Page(flags: nat, bytes: Bytes)

  /** Virtual page v of d is mapped, with these flags and these contents. */
  ghost predicate ShowsAt(tabs: Tables, data: map<nat, Bytes>, d: nat, v: nat, want: Page) {
    var e := Lookup(tabs, d, v);
    e.Present? && e.flags == want.flags && e.page in data && data[e.page] == want.bytes
  }

  ghost predicate Shows(tabs: Tables, data: map<nat, Bytes>, d: nat, lo: nat, want: seq<Page>) {
    forall i :: 0 <= i < |want| ==> ShowsAt(tabs, data, d, lo + i, want[i])
  }

  function ZeroPage(): (s: Bytes)
    ensures |s| == 4096 && forall i :: 0 <= i < 4096 ==> s[i] == 0
  {
    seq(4096, _ => 0)
  }

  /** n pages of zeroes that user code may write. */
  ghost function Zeroed(n: nat): (s: seq<Page>)
    ensures |s| == n && forall i :: 0 <= i < n ==> s[i] == Page(PTE_W + PTE_U, ZeroPage())
  {
    if n == 0 then [] else Zeroed(n - 1) + [Page(PTE_W + PTE_U, ZeroPage())]
  }

  /** Virtual page v of d is mapped to a page with contents. */
  ghost predicate Backed(tabs: Tables, data: map<nat, Bytes>, d: nat, v: nat) {
    Lookup(tabs, d, v).Present? && Lookup(tabs, d, v).page in data
  }

  ghost function PageOf(tabs: Tables, data: map<nat, Bytes>, d: nat, v: nat): Page {
    if Backed(tabs, data, d, v) then Page(Lookup(tabs, d, v).flags, data[Lookup(tabs, d, v).page]) else Page(0, [])
  }

  /** The flags and contents of the first n virtual pages of d. */
  ghost function Image(tabs: Tables, data: map<nat, Bytes>, d: nat, n: nat): (s: seq<Page>)
    ensures |s| == n && forall v :: 0 <= v < n ==> s[v] == PageOf(tabs, data, d, v)
  {
    if n == 0 then [] else Image(tabs, data, d, n - 1) + [PageOf(tabs, data, d, n - 1)]
  }

  /** Unmapping the pages from newsz up to oldsz leaves every byte below newsz. */
  lemma BytesBelow(tabs0: Tables, tabs: Tables, data: map<nat, Bytes>, d: nat, oldsz: nat, newsz: nat)
    requires oldsz <= USER * 4096
    requires forall u :: 0 <= u < TOP ==>
               Lookup(tabs, d, u) == if PagesUp(newsz) <= u < PagesUp(oldsz) then Absent else Lookup(tabs0, d, u)
    ensures forall v: nat :: newsz <= 4096 * v < oldsz ==> Lookup(tabs, d, v) == Absent
    ensures forall a: nat :: a < newsz && a < TOP * 4096 ==> CellAt(tabs, data, d, a) == CellAt(tabs0, data, d, a)
  {
    hide Lookup;
    forall v: nat | newsz <= 4096 * v < oldsz
      ensures Lookup(tabs, d, v) == Absent
    {
      PagesBelow(newsz, v);
      PagesBelow(oldsz, v);
    }
    forall a: nat | a < newsz && a < TOP * 4096
      ensures CellAt(tabs, data, d, a) == CellAt(tabs0, data, d, a)
    {
      PagesBelow(newsz, a / 4096);
    }
  }

  /** Every byte below oldsz is as it was, and every page that starts in [oldsz, newsz) shows zeroes that user code may
      write. */
  ghost predicate Grown(tabs0: Tables, data0: map<nat, Bytes>, tabs: Tables, data: map<nat, Bytes>, d: nat, oldsz: nat,
                        newsz: nat)
  {
    && (forall a: nat :: a < oldsz ==> CellAt(tabs, data, d, a) == CellAt(tabs0, data0, d, a))
    && (forall a: nat :: oldsz <= 4096 * (a / 4096) && a < newsz ==>
         CellAt(tabs, data, d, a) == Byte(PTE_W + PTE_U, 0))
  }

  /** A copy of the first pages shows every byte of them. */
  lemma BytesCopied(tabs0: Tables, data0: map<nat, Bytes>, d: nat, tabs: Tables, data: map<nat, Bytes>, c: nat, sz: nat)
    requires forall v: nat :: 4096 * v < sz ==> Backed(tabs0, data0, d, v)
    requires Shows(tabs, data, c, 0, Image(tabs0, data0, d, PagesUp(sz)))
    ensures forall a: nat :: a < sz ==> CellAt(tabs, data, c, a) == CellAt(tabs0, data0, d, a)
  {
    hide Lookup, Image;
    forall a: nat | a < sz
      ensures CellAt(tabs, data, c, a) == CellAt(tabs0, data0, d, a)
    {
      var v := a / 4096;
      PagesBelow(sz, v);
      assert ShowsAt(tabs, data, c, 0 + v, Image(tabs0, data0, d, PagesUp(sz))[v]);
    }
  }

  /** New zeroed pages show zeroes. */
  lemma BytesZeroed(tabs: Tables, data: map<nat, Bytes>, d: nat, oldsz: nat, newsz: nat)
    requires oldsz <= newsz && PagesUp(oldsz) <= PagesUp(newsz)
    requires Shows(tabs, data, d, PagesUp(oldsz), Zeroed(PagesUp(newsz) - PagesUp(oldsz)))
    ensures forall a: nat :: oldsz <= 4096 * (a / 4096) && a < newsz ==>
              CellAt(tabs, data, d, a) == Byte(PTE_W + PTE_U, 0)
  {
    hide Lookup, Zeroed, ZeroPage;
    forall a: nat | oldsz <= 4096 * (a / 4096) && a < newsz
      ensures CellAt(tabs, data, d, a) == Byte(PTE_W + PTE_U, 0)
    {
      var v, lo := a / 4096, PagesUp(oldsz);
      PagesBelow(oldsz, v);
      PagesBelow(newsz, v);
      assert ShowsAt(tabs, data, d, lo + (v - lo), Zeroed(PagesUp(newsz) - lo)[v - lo]);
    }
  }

  /** Pages that were in use keep their contents. */
  ghost predicate DataKept(role0: Roles, data0: map<nat, Bytes>, data: map<nat, Bytes>) {
    forall p :: p in role0 && role0[p] != Free && p in data0 ==> p in data && data[p] == data0[p]
  }

  /** Every mapping of every directory is as before. */
  ghost predicate SameMaps(role0: Roles, tabs0: Tables, tabs: Tables) {
    forall e, u :: IsDir(role0, e) && 0 <= u < TOP ==> Lookup(tabs, e, u) == Lookup(tabs0, e, u)
  }

  /** Virtual page v of d is mapped to n; every other mapping is as before. */
  ghost predicate OneMapped(role0: Roles, tabs0: Tables, tabs: Tables, d: nat, v: nat, n: Entry) {
    forall e, u :: IsDir(role0, e) && 0 <= u < TOP ==>
         Lookup(tabs, e, u) == if e == d && u == v then n else Lookup(tabs0, e, u)
  }

  /** Every mapping is as before, except in [lo, hi) of d. */
  ghost predicate SameBut(role0: Roles, tabs0: Tables, tabs: Tables, d: nat, lo: nat, hi: nat) {
    forall e, u :: IsDir(role0, e) && 0 <= u < TOP && !(e == d && lo <= u < hi) ==>
         Lookup(tabs, e, u) == Lookup(tabs0, e, u)
  }

  lemma AllBacked(tabs: Tables, data: map<nat, Bytes>, d: nat, sz: nat)
    requires forall v: nat :: 4096 * v < sz ==> Backed(tabs, data, d, v)
    ensures forall v :: 0 <= v < PagesUp(sz) ==> Backed(tabs, data, d, v)
  {
    hide Backed;
    forall v | 0 <= v < PagesUp(sz)
      ensures Backed(tabs, data, d, v)
    {
      PagesBelow(sz, v);
    }
  }

  lemma NothingAbove(tabs: Tables, d: nat, oldsz: nat, newsz: nat)
    requires newsz < USER * 4096
    requires forall u: nat :: oldsz <= 4096 * u < newsz && u < USER ==> Lookup(tabs, d, u) == Absent
    ensures forall u :: PagesUp(oldsz) <= u < PagesUp(newsz) ==> Lookup(tabs, d, u) == Absent
  {
    hide Lookup;
    forall u | PagesUp(oldsz) <= u < PagesUp(newsz)
      ensures Lookup(tabs, d, u) == Absent
    {
      PagesBelow(oldsz, u);
      PagesBelow(newsz, u);
    }
  }

  /** An address whose page is mapped as before shows what it did. */
  lemma ByteKept(free0: seq<nat>, tabs0: Tables, data0: map<nat, Bytes>, role0: Roles, tabs: Tables,
                 data: map<nat, Bytes>, d: nat, a: nat)
    requires Inv(free0, tabs0, data0, role0) && IsDir(role0, d) && DataKept(role0, data0, data) && a < USER * 4096
    requires Lookup(tabs, d, a / 4096) == Lookup(tabs0, d, a / 4096)
    ensures CellAt(tabs, data, d, a) == CellAt(tabs0, data0, d, a)
  {
    hide EntryAt, Lookup;
    var v := a / 4096;
    if Lookup(tabs0, d, v).Present? {
      assert UserOk(tabs0, role0, d);
      var p := Lookup(tabs0, d, v).page;
      assert RoleOk(tabs0, data0, role0, p);
    }
  }

  /** After growing: the old bytes are there, and new pages show zeroes. */
  lemma BytesGrown(free0: seq<nat>, tabs0: Tables, data0: map<nat, Bytes>, role0: Roles, tabs: Tables,
                   data: map<nat, Bytes>, d: nat, oldsz: nat, newsz: nat)
    requires Inv(free0, tabs0, data0, role0) && IsDir(role0, d) && DataKept(role0, data0, data)
    requires oldsz <= newsz < USER * 4096 && PagesUp(oldsz) <= PagesUp(newsz)
    requires SameBut(role0, tabs0, tabs, d, PagesUp(oldsz), PagesUp(newsz))
    requires Shows(tabs, data, d, PagesUp(oldsz), Zeroed(PagesUp(newsz) - PagesUp(oldsz)))
    ensures Grown(tabs0, data0, tabs, data, d, oldsz, newsz)
  {
    hide Inv, Lookup, CellAt, Shows, DataKept, Zeroed;
    BytesZeroed(tabs, data, d, oldsz, newsz);
    forall a: nat | a < oldsz
      ensures CellAt(tabs, data, d, a) == CellAt(tabs0, data0, d, a)
    {
      PagesBelow(oldsz, a / 4096);
      ByteKept(free0, tabs0, data0, role0, tabs, data, d, a);
    }
  }

  /** An address space of which every address below oldsz is mapped has every address below newsz mapped, once it has
      grown. */
  lemma WholeGrown(tabs0: Tables, data0: map<nat, Bytes>, tabs: Tables, data: map<nat, Bytes>, d: nat, oldsz: nat,
                   newsz: nat)
    requires Grown(tabs0, data0, tabs, data, d, oldsz, newsz)
    requires forall a: nat :: a < oldsz ==> CellAt(tabs0, data0, d, a) != Nothing
    ensures forall a: nat :: a < newsz ==> CellAt(tabs, data, d, a) != Nothing
  {
    hide Lookup;
    forall a: nat | a < newsz
      ensures CellAt(tabs, data, d, a) != Nothing
    {
      if 4096 * (a / 4096) < oldsz {
        var b := 4096 * (a / 4096);
        assert b / 4096 == a / 4096;
        assert CellAt(tabs, data, d, b) != Nothing;
      }
    }
  }

  // ---- the kernel half of an address space ----

  /** A row of the kernel's map: n virtual pages from v on, to physical pages from page on. */
  datatype Range = Range(v: nat, n: nat, page: nat, perm: nat)

  /** Rows lie in the kernel half and do not overlap. */
  ghost predicate KmapOk(kmap: seq<Range>) {
    && (forall k :: 0 <= k < |kmap| ==> USER <= kmap[k].v && 1 <= kmap[k].n && kmap[k].v + kmap[k].n <= TOP)
    && (forall j, k :: 0 <= j < k < |kmap| ==>
         kmap[j].v + kmap[j].n <= kmap[k].v || kmap[k].v + kmap[k].n <= kmap[j].v)
  }

  /** The map itself, by the physical page at which the kernel's data starts. */
  function Kmap(data: nat): seq<Range>
    requires 0x100 < data < 0xE000
  {
    [Range(0x80000, 0x100, 0, PTE_W), Range(0x80100, data - 0x100, 0x100, 0),
     Range(0x80000 + data, 0xE000 - data, data, PTE_W), Range(0xFE000, 0x2000, 0xFE000, PTE_W)]
  }

  lemma KmapFits(data: nat)
    requires 0x100 < data < 0xE000
    ensures KmapOk(Kmap(data))
  {
    var m := Kmap(data);
    forall j, k | 0 <= j < k < |m|
      ensures m[j].v + m[j].n <= m[k].v || m[k].v + m[k].n <= m[j].v
    {
      assert j == 0 || j == 1 || j == 2;
    }
  }

  /** A row needs the page table in directory entry x. */
  ghost predicate Touches(r: Range, x: int) {
    r.v / 1024 <= x && 1024 * x < r.v + r.n
  }

  ghost predicate Covers(kmap: seq<Range>, k: nat, x: int)
    requires k <= |kmap|
  {
    exists j :: 0 <= j < k && Touches(kmap[j], x)
  }

  ghost function Covered(kmap: seq<Range>, k: nat): set<int>
    requires k <= |kmap|
  {
    set x | 0 <= x < 1024 && Covers(kmap, k, x)
  }

  /** The page tables that the kernel's map needs. */
  ghost function Need(kmap: seq<Range>): nat {
    |Covered(kmap, |kmap|)|
  }

  /** The map reaches directory entries 512 to 567 and 1016 to 1023, wherever the kernel's data starts. */
  lemma KmapCovers(data: nat, x: int)
    requires 0x100 < data < 0xE000
    ensures x in Covered(Kmap(data), 4) <==> 512 <= x < 568 || 1016 <= x < 1024
  {
    var m := Kmap(data);
    if 512 <= x < 568 {
      var k := if 1024 * x + 1023 >= m[2].v then 2 else 1;
      assert m[k].v / 1024 <= x <= (m[k].v + m[k].n - 1) / 1024;
    }
    if 1016 <= x < 1024 {
      assert m[3].v / 1024 <= x <= (m[3].v + m[3].n - 1) / 1024;
    }
  }

  lemma KmapRows(data: nat)
    requires 0x100 < data < 0xE000
    ensures |Kmap(data)| == 4
  {
  }

  /** So an address space takes 64 page tables for the kernel. */
  lemma KmapNeeds(data: nat)
    requires 0x100 < data < 0xE000
    ensures Need(Kmap(data)) == 64
  {
    hide Kmap, Covered, Between;
    KmapRows(data);
    var low, high := Between(512, 568), Between(1016, 1024);
    forall x: int
      ensures x in Covered(Kmap(data), 4) <==> x in low + high
    {
      KmapCovers(data, x);
    }
    assert Covered(Kmap(data), 4) == low + high;
    BetweenSize(512, 568);
    BetweenSize(1016, 1024);
    DisjointSize(low, high);
  }

  ghost predicate RowMapped(tabs: Tables, d: nat, r: Range, n: nat) {
    forall u :: r.v <= u < r.v + n ==> Lookup(tabs, d, u) == Present(r.page + (u - r.v), r.perm)
  }

  ghost predicate KernelMapped(tabs: Tables, d: nat, kmap: seq<Range>) {
    forall k :: 0 <= k < |kmap| ==> RowMapped(tabs, d, kmap[k], kmap[k].n)
  }

  ghost function AllHeld(first: nat, n: nat): (r: Roles)
    ensures forall p :: (p in r <==> first <= p < first + n) && (p in r ==> r[p] == Held)
  {
    if n == 0 then map[] else AllHeld(first, n - 1)[first + n - 1 := Held]
  }

  function Min(a: nat, b: nat): nat {
    if a < b then a else b
  }

  lemma NonZero(free: seq<nat>, tabs: Tables, data: map<nat, Bytes>, role: Roles, d: nat, v: nat)
    requires Inv(free, tabs, data, role) && IsDir(role, d) && v < TOP && EntryAt(tabs, d, v / 1024).Present?
    ensures EntryAt(tabs, d, v / 1024).page != 0
  {
    TableThere(tabs, data, role, d, v);
  }

  lemma TableAdded(free: seq<nat>, tabs: Tables, data: map<nat, Bytes>, role: Roles, d: nat, v: nat, pt: nat)
    requires Inv(free, tabs, data, role) && IsDir(role, d) && v < TOP && EntryAt(tabs, d, v / 1024) == Absent
    requires pt in role && role[pt] == Held
    ensures var tabs' := Put(tabs[pt := EmptyTable()], d, v / 1024, Present(pt, PTE_W + PTE_U));
            && EntryAt(tabs', d, v / 1024) == Present(pt, PTE_W + PTE_U)
            && TableFor(tabs, tabs', d, v)
            && forall e, u :: IsDir(role, e) && 0 <= u < TOP ==> Lookup(tabs', e, u) == Lookup(tabs, e, u)
  {
    hide EmptyTable, Lookup;
    assert DirOk(tabs, role, d);
    var tabs' := Put(tabs[pt := EmptyTable()], d, v / 1024, Present(pt, PTE_W + PTE_U));
    forall e, u | IsDir(role, e) && 0 <= u < TOP
      ensures Lookup(tabs', e, u) == Lookup(tabs, e, u)
    {
      AddTableLookup(tabs, data, role, d, v / 1024, pt, PTE_W + PTE_U, e, u);
    }
  }

  lemma Keeps(free: seq<nat>, tabs: Tables, data: map<nat, Bytes>, role: Roles, d: nat, v: nat, n: Entry)
    requires Inv(free, tabs, data, role) && IsDir(role, d) && v < TOP && EntryAt(tabs, d, v / 1024).Present?
    ensures var tabs' := Put(tabs, EntryAt(tabs, d, v / 1024).page, v % 1024, n);
            && (forall x :: 0 <= x < 1024 ==> EntryAt(tabs', d, x) == EntryAt(tabs, d, x))
            && (forall e, u :: IsDir(role, e) && 0 <= u < TOP ==>
                 Lookup(tabs', e, u) == if e == d && u == v then n else Lookup(tabs, e, u))
  {
    hide Lookup, Put, EntryAt;
    PutKeeps(tabs, data, role, d, v, n);
  }

  /** The frame of a virtual page is the only one with that role, and none has it where nothing is mapped. */
  lemma NoFrame(free: seq<nat>, tabs: Tables, data: map<nat, Bytes>, role: Roles, d: nat, v: nat)
    requires Inv(free, tabs, data, role) && IsDir(role, d)
    ensures forall p :: p in role && role[p] == Frame(d, v) ==>
              Lookup(tabs, d, v).Present? && p == Lookup(tabs, d, v).page
  {
    hide Lookup;
    forall p | p in role && role[p] == Frame(d, v)
      ensures Lookup(tabs, d, v).Present? && p == Lookup(tabs, d, v).page
    {
      assert RoleOk(tabs, data, role, p);
    }
  }

  lemma ReleasedNone(r: Roles, d: nat, lo: nat, hi: nat)
    ensures hi <= lo ==> Released(r, d, lo, hi) == r
    ensures Released(r, d, lo, lo) == r
  {
  }

  lemma ReleasedMore(role0: Roles, role: Roles, d: nat, lo: nat, a: nat, b: nat)
    requires lo <= a <= b && role == Released(role0, d, lo, a)
    requires forall p :: p in role && role[p].Frame? && role[p].d == d ==> !(a <= role[p].v < b)
    ensures role == Released(role0, d, lo, b)
  {
  }

  lemma ReleasedOne(role0: Roles, role: Roles, d: nat, lo: nat, a: nat, f: nat)
    requires lo <= a && role == Released(role0, d, lo, a) && f in role && role[f] == Frame(d, a)
    requires forall p :: p in role && role[p] == Frame(d, a) ==> p == f
    ensures role[f := Free] == Released(role0, d, lo, a + 1)
  {
  }

  /** Where there is no page table there is no user memory. */
  lemma SkipTable(free: seq<nat>, tabs: Tables, data: map<nat, Bytes>, role: Roles, d: nat, a: nat, b: nat)
    requires Inv(free, tabs, data, role) && IsDir(role, d) && EntryAt(tabs, d, a / 1024) == Absent
    requires a <= b <= (a / 1024 + 1) * 1024
    ensures forall u :: a <= u < b ==> Lookup(tabs, d, u) == Absent
    ensures forall p :: p in role && role[p].Frame? && role[p].d == d ==> !(a <= role[p].v < b)
  {
    forall u | a <= u < b
      ensures Lookup(tabs, d, u) == Absent
    {
      assert u / 1024 == a / 1024;
    }
    forall p | p in role && role[p].Frame? && role[p].d == d
      ensures !(a <= role[p].v < b)
    {
      assert RoleOk(tabs, data, role, p);
    }
  }

  lemma GrownStart(role: Roles, tabs: Tables, data: map<nat, Bytes>, d: nat, lo: nat)
    ensures OnlyGrown(role, role, d, lo, lo) && DataKept(role, data, data) && TablesUpTo(tabs, tabs, d, lo, lo)
    ensures Shows(tabs, data, d, lo, []) && Cost(tabs, d, lo, lo) == 0 && SameBut(role, tabs, tabs, d, lo, lo)
  {
  }

  lemma NoFrames(free: seq<nat>, tabs: Tables, data: map<nat, Bytes>, role: Roles, d: nat, lo: nat, hi: nat)
    requires Inv(free, tabs, data, role) && IsDir(role, d)
    requires forall u :: lo <= u < hi && u < USER ==> Lookup(tabs, d, u) == Absent
    ensures forall p :: p in role && role[p].Frame? && role[p].d == d ==> !(lo <= role[p].v < hi)
  {
    hide Lookup;
    forall p | p in role && role[p].Frame? && role[p].d == d
      ensures !(lo <= role[p].v < hi)
    {
      assert RoleOk(tabs, data, role, p);
    }
  }

  lemma GrownStep(role0: Roles, role1: Roles, role: Roles, d: nat, lo: nat, a: nat)
    requires lo <= a && OnlyGrown(role0, role1, d, lo, a) && OnlyGrown(role1, role, d, a, a + 1)
    ensures OnlyGrown(role0, role, d, lo, a + 1)
  {
  }

  /** Giving back the user memory undoes the growth, up to page tables. */
  lemma RolledBack(role0: Roles, role: Roles, d: nat, lo: nat, a: nat, hi: nat)
    requires lo <= a <= hi && OnlyGrown(role0, role, d, lo, a)
    requires forall p :: p in role0 && role0[p].Frame? && role0[p].d == d ==> !(lo <= role0[p].v < hi)
    ensures OnlyTables(role0, Released(role, d, lo, hi), d)
  {
  }

  lemma HeldAside(role: Roles, d: nat, lo: nat, hi: nat, mem: nat)
    requires mem in role && role[mem] == Free
    ensures Released(role[mem := Held], d, lo, hi)[mem := Free] == Released(role, d, lo, hi)
    ensures mem in Released(role[mem := Held], d, lo, hi) && Released(role[mem := Held], d, lo, hi)[mem] == Held
  {
  }

  lemma DataStep(role0: Roles, data0: map<nat, Bytes>, role: Roles, data: map<nat, Bytes>, d: nat, lo: nat, a: nat,
                 mem: nat, bytes: Bytes)
    requires OnlyGrown(role0, role, d, lo, a) && DataKept(role0, data0, data) && mem in role && role[mem] == Free
    ensures DataKept(role0, data0, data[mem := bytes])
  {
  }

  /** A page added at the end: what was there is still shown, and the new page with it. */
  lemma ShowsStep(free: seq<nat>, role: Roles, tabs: Tables, data: map<nat, Bytes>, tabs': Tables, data': map<nat,
                  Bytes>,
                  d: nat, lo: nat, want: seq<Page>, k: nat, mem: nat)
    requires Inv(free, tabs, data, role) && IsDir(role, d) && k < |want| && lo + k < USER
    requires mem in role && role[mem] == Free && data' == data[mem := want[k].bytes]
    requires OneMapped(role, tabs, tabs', d, lo + k, Present(mem, want[k].flags))
    requires Shows(tabs, data, d, lo, want[..k])
    ensures Shows(tabs', data', d, lo, want[..k + 1])
  {
    hide Lookup;
    assert UserOk(tabs, role, d);
    var done := want[..k + 1];
    forall i | 0 <= i < |done|
      ensures ShowsAt(tabs', data', d, lo + i, done[i])
    {
      if i < k {
        assert ShowsAt(tabs, data, d, lo + i, want[..k][i]);
      }
    }
  }

  lemma TakenMapped(role0: Roles, role: Roles, d: nat, v: nat, mem: nat)
    requires mem in role0 && role0[mem] == Free && mem in role && role[mem] == Frame(d, v)
    requires OnlyTables(role0[mem := Held], role[mem := Held], d)
    ensures OnlyGrown(role0, role, d, v, v + 1)
  {
    var r, r' := role0[mem := Held], role[mem := Held];
    forall p
      ensures p in role <==> p in role0
      ensures p in role0 && role[p] != role0[p] ==>
                role0[p] == Free && ((role[p].Tab? && role[p].d == d)
                                     || (role[p].Frame? && role[p].d == d && v <= role[p].v < v + 1))
    {
      assert p in r' <==> p in r;
    }
  }

  lemma SameStep(role0: Roles, role1: Roles, tabs0: Tables, tabs1: Tables, tabs: Tables, d: nat, lo: nat, a: nat,
                 n: Entry)
    requires lo <= a && OnlyGrown(role0, role1, d, lo, a)
    requires SameBut(role0, tabs0, tabs1, d, lo, a) && OneMapped(role1, tabs1, tabs, d, a, n)
    ensures SameBut(role0, tabs0, tabs, d, lo, a + 1)
  {
    hide Lookup;
    forall e, u | IsDir(role0, e) && 0 <= u < TOP && !(e == d && lo <= u < a + 1)
      ensures Lookup(tabs, e, u) == Lookup(tabs0, e, u)
    {
      assert IsDir(role1, e);
    }
  }

  lemma MapsBack(role0: Roles, role1: Roles, tabs0: Tables, tabs1: Tables, tabs: Tables, d: nat, lo: nat, a: nat,
                 hi: nat)
    requires lo <= a <= hi <= USER && IsDir(role0, d) && OnlyGrown(role0, role1, d, lo, a)
    requires SameBut(role0, tabs0, tabs1, d, lo, a)
    requires forall u :: lo <= u < hi && u < USER ==> Lookup(tabs0, d, u) == Absent
    requires forall e, u :: IsDir(role1, e) && 0 <= u < TOP ==>
               Lookup(tabs, e, u) == if e == d && lo <= u < hi then Absent else Lookup(tabs1, e, u)
    ensures SameMaps(role0, tabs0, tabs)
  {
    hide Lookup;
    forall e, u | IsDir(role0, e) && 0 <= u < TOP
      ensures Lookup(tabs, e, u) == Lookup(tabs0, e, u)
    {
      assert IsDir(role1, e);
    }
  }

  lemma SameThere(role0: Roles, tabs0: Tables, tabs: Tables, d: nat, lo: nat, a: nat)
    requires SameBut(role0, tabs0, tabs, d, lo, a) && IsDir(role0, d) && a < TOP
    ensures Lookup(tabs, d, a) == Lookup(tabs0, d, a)
  {
  }

  /** Halfway through freevm: user memory and the first i page tables are free. */
  ghost function Dropping(r: Roles, d: nat, i: nat): Roles {
    map p | p in r ::
      if p == d then Dying
      else if r[p].Frame? && r[p].d == d then Free
      else if r[p].Tab? && r[p].d == d && r[p].x < i then Free
      else r[p]
  }

  /** The page tables from entry i on are still d's. */
  ghost predicate TabsLeft(tabs: Tables, role: Roles, d: nat, i: nat) {
    forall x :: i <= x < 1024 && EntryAt(tabs, d, x).Present? ==>
      EntryAt(tabs, d, x).page in role && role[EntryAt(tabs, d, x).page] == Tab(d, x)
  }

  /** A directory or dying directory that no page belongs to may change its role. */
  lemma LetGoOk(free: seq<nat>, tabs: Tables, data: map<nat, Bytes>, role: Roles, d: nat, r: Role)
    requires Inv(free, tabs, data, role) && d in role
             && ((role[d] == Dir && r == Dying) || (role[d] == Dying && r == Held))
    requires forall q :: q in role && role[q].Frame? ==> role[q].d != d
    requires r == Held ==> forall q :: q in role && role[q].Tab? ==> role[q].d != d
    ensures Inv(free, tabs, data, role[d := r])
  {
    hide EntryAt, Lookup;
    var role' := role[d := r];
    forall q | q in role'
      ensures RoleOk(tabs, data, role', q)
    {
      assert RoleOk(tabs, data, role, q);
    }
    forall e | IsDir(role', e)
      ensures DirOk(tabs, role', e) && UserOk(tabs, role', e)
    {
      assert IsDir(role, e);
    }
    assert FreeOk(free, role');
  }

  /** Once its user memory is gone, a directory may start to die. */
  lemma DyingOk(free: seq<nat>, tabs: Tables, data: map<nat, Bytes>, role0: Roles, role: Roles, d: nat)
    requires Inv(free, tabs, data, role) && IsDir(role0, d) && role == Released(role0, d, 0, USER)
    ensures Inv(free, tabs, data, role[d := Dying]) && role[d := Dying] == Dropping(role0, d, 0)
            && TabsLeft(tabs, role[d := Dying], d, 0)
  {
    hide EntryAt, Lookup, FreeOk;
    assert DirOk(tabs, role, d);
    forall p | p in role
      ensures !(role[p].Frame? && role[p].d == d)
    {
      assert RoleOk(tabs, data, role, p);
    }
    LetGoOk(free, tabs, data, role, d, Dying);
  }

  lemma DroppingStep(free: seq<nat>, tabs: Tables, data: map<nat, Bytes>, role0: Roles, role: Roles, d: nat, i: nat)
    requires Inv(free, tabs, data, role) && role == Dropping(role0, d, i) && TabsLeft(tabs, role, d, i) && i < 1024
    requires d in role0
    ensures d in role && role[d] == Dying
    ensures var e := EntryAt(tabs, d, i);
            if e.Present? then
              && e.page in role && role[e.page] == Tab(d, i)
              && role[e.page := Free] == Dropping(role0, d, i + 1) && TabsLeft(tabs, role[e.page := Free], d, i + 1)
            else
              role == Dropping(role0, d, i + 1) && TabsLeft(tabs, role, d, i + 1)
  {
    hide EntryAt, Lookup;
    forall p | p in role && role[p] == Tab(d, i)
      ensures EntryAt(tabs, d, i).Present? && p == EntryAt(tabs, d, i).page
    {
      assert RoleOk(tabs, data, role, p);
    }
  }

  lemma DropTabOk(free: seq<nat>, tabs: Tables, data: map<nat, Bytes>, role: Roles, d: nat, p: nat)
    requires Inv(free, tabs, data, role) && d in role && role[d] == Dying && p in role && role[p].Tab? && role[p].d == d
    ensures Inv(free, tabs, data, role[p := Held])
  {
    hide EntryAt, Lookup;
    var role' := role[p := Held];
    forall e | IsDir(role', e)
      ensures DirOk(tabs, role', e) && UserOk(tabs, role', e)
    {
      assert IsDir(role, e);
    }
    forall q | q in role'
      ensures RoleOk(tabs, data, role', q)
    {
      assert RoleOk(tabs, data, role, q);
    }
    assert FreeOk(free, role');
  }

  lemma DropDirOk(free: seq<nat>, tabs: Tables, data: map<nat, Bytes>, role0: Roles, role: Roles, d: nat)
    requires Inv(free, tabs, data, role) && d in role0 && role == Dropping(role0, d, 1024)
    ensures Inv(free, tabs, data, role[d := Held]) && role[d := Free] == Dropped(role0, d)
  {
    hide EntryAt, Lookup, DirsOk, FreeOk;
    forall q | q in role
      ensures role[q].Tab? ==> role[q].x < 1024
    {
      assert RoleOk(tabs, data, role, q);
    }
    LetGoOk(free, tabs, data, role, d, Held);
  }

  lemma RowStart(role: Roles, tabs: Tables, d: nat, r: Range)
    ensures OnlyTables(role, role, d) && SameBut(role, tabs, tabs, d, r.v, r.v) && RowMapped(tabs, d, r, 0)
    ensures TablesUpTo(tabs, tabs, d, r.v, r.v)
  {
  }

  lemma SameTables(tabs: Tables, tabs1: Tables, tabs2: Tables, d: nat, v: nat)
    requires TableFor(tabs, tabs1, d, v) && forall x :: 0 <= x < 1024 ==> EntryAt(tabs2, d, x) == EntryAt(tabs1, d, x)
    ensures TableFor(tabs, tabs2, d, v)
  {
    hide EntryAt;
  }

  lemma SameWider(role0: Roles, tabs0: Tables, tabs: Tables, d: nat, lo: nat, a: nat, hi: nat)
    requires SameBut(role0, tabs0, tabs, d, lo, a) && a <= hi
    ensures SameBut(role0, tabs0, tabs, d, lo, hi)
  {
    hide Lookup;
  }

  lemma TablesTwice(role0: Roles, role1: Roles, role: Roles, d: nat)
    requires OnlyTables(role0, role1, d) && OnlyTables(role1, role, d)
    ensures OnlyTables(role0, role, d)
  {
  }

  lemma RowStep(role0: Roles, tabs0: Tables, role1: Roles, tabs1: Tables, role2: Roles, tabs2: Tables, tabs: Tables,
                d: nat, r: Range, i: nat)
    requires OnlyTables(role0, role1, d) && OnlyTables(role1, role2, d) && SameBut(role0, tabs0, tabs1, d, r.v, r.v + i)
    requires IsDir(role1, d) && RowMapped(tabs1, d, r, i) && r.v + i < TOP
    requires forall e, u :: IsDir(role1, e) && 0 <= u < TOP ==> Lookup(tabs2, e, u) == Lookup(tabs1, e, u)
    requires forall e, u :: IsDir(role2, e) && 0 <= u < TOP ==>
               Lookup(tabs, e, u) == if e == d && u == r.v + i then Present(r.page + i, r.perm) else Lookup(tabs2, e, u)
    ensures OnlyTables(role0, role2, d) && SameBut(role0, tabs0, tabs, d, r.v, r.v + i + 1)
    ensures RowMapped(tabs, d, r, i + 1)
  {
    hide Lookup;
    forall e, u | IsDir(role1, e) && 0 <= u < TOP
      ensures Lookup(tabs, e, u) == if e == d && u == r.v + i then Present(r.page + i, r.perm) else Lookup(tabs1, e, u)
    {
      assert IsDir(role2, e);
    }
    forall e, u | IsDir(role0, e) && 0 <= u < TOP && !(e == d && r.v <= u < r.v + i + 1)
      ensures Lookup(tabs, e, u) == Lookup(tabs0, e, u)
    {
      assert IsDir(role1, e);
    }
  }

  lemma SameMapsRefl(role: Roles, tabs: Tables)
    ensures SameMaps(role, tabs, tabs)
  {
  }

  /** A page table has a directory in use. */
  lemma NobodysTables(free: seq<nat>, tabs: Tables, data: map<nat, Bytes>, role: Roles)
    requires Inv(free, tabs, data, role)
    ensures forall p :: p in role && (role[p].Tab? || role[p].Frame?) ==> role[p].d in role && role[role[p].d] != Free
  {
    hide EntryAt, Lookup;
    forall p | p in role && (role[p].Tab? || role[p].Frame?)
      ensures role[p].d in role && role[role[p].d] != Free
    {
      assert RoleOk(tabs, data, role, p);
    }
  }

  /** Virtual page u lies in none of the first k rows. */
  ghost predicate Uncovered(kmap: seq<Range>, k: nat, u: nat)
    requires k <= |kmap|
  {
    forall j :: 0 <= j < k ==> !(kmap[j].v <= u < kmap[j].v + kmap[j].n)
  }

  /** A directory under construction: the first k rows are mapped and nothing else is. */
  ghost predicate DirStarted(role0: Roles, tabs0: Tables, tabs: Tables, d: nat, kmap: seq<Range>, k: nat)
    requires k <= |kmap|
  {
    && SameMaps(role0, tabs0, tabs)
    && (forall j :: 0 <= j < k ==> RowMapped(tabs, d, kmap[j], kmap[j].n))
    && (forall u :: 0 <= u < TOP && Uncovered(kmap, k, u) ==> Lookup(tabs, d, u) == Absent)
  }

  lemma NewDirMaps(free: seq<nat>, tabs: Tables, data: map<nat, Bytes>, role: Roles, d: nat)
    requires Inv(free, tabs, data, role) && d in role && role[d] == Held
    ensures SameMaps(role, tabs, tabs[d := EmptyTable()])
    ensures var tabs' := tabs[d := EmptyTable()];
            forall u :: 0 <= u < TOP ==> Lookup(tabs', d, u) == Absent
  {
    hide EmptyTable;
    var tabs' := tabs[d := EmptyTable()];
    forall e, u | IsDir(role, e) && 0 <= u < TOP
      ensures Lookup(tabs', e, u) == Lookup(tabs, e, u)
    {
      assert DirOk(tabs, role, e);
      assert EntryAt(tabs', e, u / 1024) == EntryAt(tabs, e, u / 1024);
    }
  }

  lemma NewDirInv(free: seq<nat>, tabs: Tables, data: map<nat, Bytes>, role: Roles, d: nat)
    requires Inv(free, tabs, data, role) && d in role && role[d] == Held
    ensures Inv(free, tabs[d := EmptyTable()], data, role[d := Dir])
  {
    hide EmptyTable, Lookup;
    NewDirMaps(free, tabs, data, role, d);
    var tabs', role' := tabs[d := EmptyTable()], role[d := Dir];
    forall e | IsDir(role', e)
      ensures DirOk(tabs', role', e) && UserOk(tabs', role', e)
    {
      if e != d {
        assert IsDir(role, e);
        assert DirOk(tabs, role, e) && UserOk(tabs, role, e);
        assert forall x :: 0 <= x < 1024 ==> EntryAt(tabs', e, x) == EntryAt(tabs, e, x);
      }
    }
    forall p | p in role'
      ensures RoleOk(tabs', data, role', p)
    {
      assert RoleOk(tabs, data, role, p);
    }
  }

  lemma NewDirOk(free: seq<nat>, tabs: Tables, data: map<nat, Bytes>, role0: Roles, role: Roles, d: nat,
                 kmap: seq<Range>)
    requires Inv(free, tabs, data, role) && d in role0 && role0[d] == Free && role == role0[d := Held]
    ensures var tabs' := tabs[d := EmptyTable()];
            && Inv(free, tabs', data, role[d := Dir]) && OnlyTables(role0[d := Dir], role[d := Dir], d)
            && Tabbed(tabs', d) == {} == Covered(kmap, 0) && DirStarted(role0, tabs, tabs', d, kmap, 0)
  {
    hide Lookup, EmptyTable, Inv;
    NewDirInv(free, tabs, data, role, d);
    NewDirMaps(free, tabs, data, role, d);
    assert Covered(kmap, 0) == {};
    forall e, u | IsDir(role0, e) && 0 <= u < TOP
      ensures Lookup(tabs[d := EmptyTable()], e, u) == Lookup(tabs, e, u)
    {
      assert IsDir(role, e);
    }
  }

  /** A row mapped: its page tables are there. */
  lemma CoveredStep(tabs: Tables, tabs': Tables, d: nat, kmap: seq<Range>, k: nat)
    requires KmapOk(kmap) && k < |kmap| && Tabbed(tabs, d) == Covered(kmap, k)
    requires TablesUpTo(tabs, tabs', d, kmap[k].v, kmap[k].v + kmap[k].n)
    ensures Tabbed(tabs', d) == Covered(kmap, k + 1)
  {
    hide EntryAt;
    forall x | 0 <= x < 1024
      ensures x in Tabbed(tabs', d) <==> x in Covered(kmap, k + 1)
    {
      assert x in Tabbed(tabs, d) <==> x in Covered(kmap, k);
      assert Covers(kmap, k + 1, x) <==> Covers(kmap, k, x) || Touches(kmap[k], x);
    }
  }

  /** A page table that a row misses is one of those the map needs and the directory has not. */
  lemma TooFew(tabs: Tables, tabs': Tables, d: nat, kmap: seq<Range>, k: nat, at: nat)
    requires KmapOk(kmap) && k < |kmap| && Tabbed(tabs, d) == Covered(kmap, k)
    requires kmap[k].v <= at < kmap[k].v + kmap[k].n
    requires TablesUpTo(tabs, tabs', d, kmap[k].v, at) && Missing(tabs', d, at) == 1
    ensures |Tabbed(tabs', d)| < Need(kmap)
  {
    hide EntryAt;
    var got, need, x := Tabbed(tabs', d), Covered(kmap, |kmap|), at / 1024;
    forall y | y in got
      ensures y in need - {x}
    {
      assert y in Covered(kmap, k) || Touches(kmap[k], y);
      assert Covers(kmap, |kmap|, y);
    }
    assert Touches(kmap[k], x) && x in need;
    SubsetSize(got, need - {x});
  }

  ghost predicate NoUserTables(tabs: Tables, d: nat) {
    forall x :: 0 <= x < 512 ==> !EntryAt(tabs, d, x).Present?
  }

  lemma UserUntouched(tabs: Tables, d: nat, kmap: seq<Range>)
    requires KmapOk(kmap) && Tabbed(tabs, d) == Covered(kmap, |kmap|)
    ensures NoUserTables(tabs, d)
  {
    hide EntryAt;
    forall x | 0 <= x < 512
      ensures !EntryAt(tabs, d, x).Present?
    {
      assert x in Tabbed(tabs, d) <==> x in Covered(kmap, |kmap|);
      assert forall j :: 0 <= j < |kmap| ==> !Touches(kmap[j], x);
    }
  }

  /** User memory in a new address space: a page each, and a page table for every 1024. */
  lemma {:induction false} FreshCost(tabs: Tables, d: nat, n: nat)
    requires NoUserTables(tabs, d) && n <= USER
    ensures Cost(tabs, d, 0, n) == n + (n + 1023) / 1024
  {
    if n > 0 {
      FreshCost(tabs, d, n - 1);
      var a := n - 1;
      assert Missing(tabs, d, a) == 1;
      assert a % 1024 != 0 ==> (a + 1023) / 1024 == (a + 1024) / 1024;
      assert a % 1024 == 0 ==> (a + 1023) / 1024 + 1 == (a + 1024) / 1024;
    }
  }

  lemma RowClear(role0: Roles, tabs0: Tables, tabs: Tables, d: nat, kmap: seq<Range>, k: nat)
    requires KmapOk(kmap) && k < |kmap| && DirStarted(role0, tabs0, tabs, d, kmap, k)
    ensures forall u :: kmap[k].v <= u < kmap[k].v + kmap[k].n ==> Lookup(tabs, d, u) == Absent
  {
    hide Lookup, RowMapped, SameMaps;
    forall u | kmap[k].v <= u < kmap[k].v + kmap[k].n
      ensures Lookup(tabs, d, u) == Absent
    {
      assert Uncovered(kmap, k, u);
    }
  }

  lemma DirStep(role0: Roles, tabs0: Tables, role1: Roles, role2: Roles, tabs2: Tables, tabs: Tables, d: nat,
                kmap: seq<Range>, k: nat)
    requires KmapOk(kmap) && k < |kmap| && DirStarted(role0, tabs0, tabs2, d, kmap, k)
    requires d in role0 && role0[d] == Free && role1 == role0[d := Dir] && OnlyTables(role1, role2, d)
             && IsDir(role2, d)
    requires SameBut(role2, tabs2, tabs, d, kmap[k].v, kmap[k].v + kmap[k].n) && RowMapped(tabs, d, kmap[k], kmap[k].n)
    ensures DirStarted(role0, tabs0, tabs, d, kmap, k + 1)
  {
    hide Lookup;
    forall e, u | IsDir(role0, e) && 0 <= u < TOP
      ensures Lookup(tabs, e, u) == Lookup(tabs0, e, u)
    {
      assert IsDir(role1, e) && IsDir(role2, e);
    }
    forall j | 0 <= j < k
      ensures RowMapped(tabs, d, kmap[j], kmap[j].n)
    {
      assert RowMapped(tabs2, d, kmap[j], kmap[j].n);
    }
    forall u | 0 <= u < TOP && Uncovered(kmap, k + 1, u)
      ensures Lookup(tabs, d, u) == Absent
    {
      assert Uncovered(kmap, k, u);
    }
  }

  lemma DirDone(role0: Roles, tabs0: Tables, tabs: Tables, d: nat, kmap: seq<Range>)
    requires KmapOk(kmap) && DirStarted(role0, tabs0, tabs, d, kmap, |kmap|)
    ensures SameMaps(role0, tabs0, tabs) && KernelMapped(tabs, d, kmap)
    ensures forall u :: 0 <= u < USER ==> Lookup(tabs, d, u) == Absent
  {
    hide Lookup, RowMapped, SameMaps;
    forall u | 0 <= u < USER
      ensures Lookup(tabs, d, u) == Absent
    {
      assert Uncovered(kmap, |kmap|, u);
    }
  }

  /** Taking down a directory that was not there before restores every role. */
  lemma DroppedBack(role0: Roles, role: Roles, d: nat, lo: nat, hi: nat)
    requires d in role0 && role0[d] == Free && OnlyGrown(role0[d := Dir], role, d, lo, hi)
    requires forall p :: p in role0 && (role0[p].Tab? || role0[p].Frame?) ==>
              role0[p].d in role0 && role0[role0[p].d] != Free
    ensures Dropped(role, d) == role0
  {
    var r, got := role0[d := Dir], Dropped(role, d);
    forall p
      ensures p in got <==> p in role0
      ensures p in role0 ==> got[p] == role0[p]
    {
      assert p in role <==> p in r;
    }
  }

  lemma SetupUndone(role0: Roles, tabs0: Tables, role1: Roles, role2: Roles, tabs2: Tables, role3: Roles,
                    tabs3: Tables, tabs: Tables,
                    d: nat, kmap: seq<Range>, k: nat)
    requires k < |kmap| && DirStarted(role0, tabs0, tabs2, d, kmap, k)
    requires d in role0 && role0[d] == Free && role1 == role0[d := Dir] && OnlyTables(role1, role2, d)
             && OnlyTables(role2, role3, d)
    requires SameBut(role2, tabs2, tabs3, d, kmap[k].v, kmap[k].v + kmap[k].n)
    requires forall e, u :: IsDir(role3, e) && e != d && 0 <= u < TOP ==> Lookup(tabs, e, u) == Lookup(tabs3, e, u)
    ensures SameMaps(role0, tabs0, tabs)
  {
    hide Lookup, RowMapped;
    forall e, u | IsDir(role0, e) && 0 <= u < TOP
      ensures Lookup(tabs, e, u) == Lookup(tabs0, e, u)
    {
      assert IsDir(role1, e) && IsDir(role2, e) && IsDir(role3, e);
    }
  }

  lemma TablesAreGrowth(role0: Roles, role: Roles, d: nat, lo: nat)
    requires OnlyTables(role0, role, d)
    ensures OnlyGrown(role0, role, d, lo, lo)
  {
  }

  lemma GrownFrom(role1: Roles, roleS: Roles, role: Roles, c: nat, i: nat)
    requires OnlyTables(role1, roleS, c) && OnlyGrown(roleS, role, c, 0, i)
    ensures OnlyGrown(role1, role, c, 0, i)
  {
  }

  lemma KeptEarlier(role0: Roles, data0: map<nat, Bytes>, data: map<nat, Bytes>, c: nat)
    requires c in role0 && role0[c] == Free && DataKept(role0[c := Dir], data0, data)
    ensures DataKept(role0, data0, data)
  {
    var role1 := role0[c := Dir];
    forall p | p in role0 && role0[p] != Free && p in data0
      ensures p in data && data[p] == data0[p]
    {
      assert p in role1 && role1[p] != Free;
    }
  }

  /** While a child is being built the parent's page i is as it was. */
  lemma ParentThere(free0: seq<nat>, role0: Roles, tabs0: Tables, data0: map<nat, Bytes>, roleS: Roles, tabsS: Tables,
                    tabs: Tables, data: map<nat, Bytes>, d: nat, c: nat, i: nat, n: nat)
    requires Inv(free0, tabs0, data0, role0) && IsDir(role0, d) && c in role0 && role0[c] == Free
    requires i < n <= USER && forall v :: 0 <= v < n ==> Backed(tabs0, data0, d, v)
    requires OnlyTables(role0[c := Dir], roleS, c) && SameMaps(role0, tabs0, tabsS)
             && SameBut(roleS, tabsS, tabs, c, 0, i)
    requires DataKept(role0[c := Dir], data0, data)
    ensures Lookup(tabs, d, i).Present? && Lookup(tabs, d, i).page in data
    ensures Page(Lookup(tabs, d, i).flags, data[Lookup(tabs, d, i).page]) == Image(tabs0, data0, d, n)[i]
  {
    hide Lookup, Image;
    var role1 := role0[c := Dir];
    assert IsDir(role1, d) && IsDir(roleS, d);
    assert Lookup(tabs, d, i) == Lookup(tabsS, d, i) == Lookup(tabs0, d, i);
    assert UserOk(tabs0, role0, d);
    assert Backed(tabs0, data0, d, i);
    var p := Lookup(tabs0, d, i).page;
    assert p in role1 && role1[p] != Free;
  }

  lemma CopyUndone(role0: Roles, tabs0: Tables, roleS: Roles, tabsS: Tables, role2: Roles, tabs2: Tables,
                   tabs: Tables, c: nat, i: nat)
    requires c in role0 && role0[c] == Free && OnlyTables(role0[c := Dir], roleS, c) && OnlyGrown(roleS, role2, c, 0, i)
    requires SameMaps(role0, tabs0, tabsS) && SameBut(roleS, tabsS, tabs2, c, 0, i)
    requires forall e, u :: IsDir(role2, e) && e != c && 0 <= u < TOP ==> Lookup(tabs, e, u) == Lookup(tabs2, e, u)
    ensures SameMaps(role0, tabs0, tabs)
  {
    hide Lookup;
    var role1 := role0[c := Dir];
    forall e, u | IsDir(role0, e) && 0 <= u < TOP
      ensures Lookup(tabs, e, u) == Lookup(tabs0, e, u)
    {
      assert IsDir(role1, e) && IsDir(roleS, e) && IsDir(role2, e);
    }
  }

  lemma CopyDone(role0: Roles, tabs0: Tables, roleS: Roles, tabsS: Tables, tabs: Tables, c: nat, n: nat,
                 kmap: seq<Range>)
    requires c in role0 && role0[c] == Free && OnlyTables(role0[c := Dir], roleS, c) && IsDir(roleS, c) && n <= USER
             && KmapOk(kmap)
    requires SameMaps(role0, tabs0, tabsS) && SameBut(roleS, tabsS, tabs, c, 0, n) && KernelMapped(tabsS, c, kmap)
    requires forall u :: 0 <= u < USER ==> Lookup(tabsS, c, u) == Absent
    ensures SameMaps(role0, tabs0, tabs) && KernelMapped(tabs, c, kmap)
    ensures forall u :: n <= u < USER ==> Lookup(tabs, c, u) == Absent
  {
    hide Lookup;
    var role1 := role0[c := Dir];
    forall e, u | IsDir(role0, e) && 0 <= u < TOP
      ensures Lookup(tabs, e, u) == Lookup(tabs0, e, u)
    {
      assert IsDir(role1, e) && IsDir(roleS, e);
    }
    forall k | 0 <= k < |kmap|
      ensures RowMapped(tabs, c, kmap[k], kmap[k].n)
    {
      assert RowMapped(tabsS, c, kmap[k], kmap[k].n);
    }
  }

  class Kernel {
    var free: seq<nat>
    var tabs: Tables
    var data: map<nat, Bytes>
    ghost var role: Roles

    ghost predicate Valid()
      reads this
    {
      Inv(free, tabs, data, role)
    }

    method Kfree(p: nat)
      requires Valid() && p in role && role[p] == Held
      modifies this`free, this`role
      ensures Valid() && role == old(role)[p := Free] && |free| == |old(free)| + 1 && free == [p] + old(free)
    {
      hide Inv;
      GiveOk(free, tabs, data, role, p);
      role := role[p := Free];
      free := [p] + free;
    }

    /** kinit: all memory from page `first` on is freed, page by page. */
    constructor (first: nat, n: nat)
      requires first > 0
      ensures Valid() && |free| == n
      ensures forall p :: (p in role <==> first <= p < first + n) && (p in role ==> role[p] == Free)
    {
      free := [];
      tabs := map[];
      data := map[];
      role := AllHeld(first, n);
      new;
      var p := first;
      while p < first + n
        invariant first <= p <= first + n && |free| == p - first && Valid()
        invariant forall q :: (q in role <==> first <= q < first + n)
                              && (q in role ==> role[q] == if q < p then Free else Held)
      {
        Kfree(p);
        p := p + 1;
      }
    }

    method Kalloc() returns (p: nat)
      requires Valid()
      modifies this`free, this`role
      ensures Valid() && (p == 0 <==> old(free) == [])
      ensures p == 0 ==> role == old(role) && free == []
      ensures p != 0 ==>
                p in old(role) && old(role)[p] == Free && role == old(role)[p := Held] && |free| == |old(free)| - 1
      ensures p != 0 ==> old(free) == [p] + free
    {
      hide Inv;
      if free == [] {
        return 0;
      }
      TakeOk(free, tabs, data, role);
      p := free[0];
      role := role[p := Held];
      free := free[1..];
    }

    /** memset or memmove into a page in hand. */
    method Fill(p: nat, bytes: Bytes)
      requires Valid() && p in role && role[p] == Held
      modifies this`data
      ensures Valid() && data == old(data)[p := bytes]
    {
      hide EntryAt, Lookup;
      ghost var data0 := data;
      data := data[p := bytes];
      assert RolesOk(tabs, data, role) by {
        forall q | q in role
          ensures RoleOk(tabs, data, role, q)
        {
          assert RoleOk(tabs, data0, role, q);
        }
      }
    }

    /** walkpgdir with alloc: the page table for virtual page v, made if it is missing; 0 when there
        is no memory for it. No mapping changes. */
    method Walk(d: nat, v: nat) returns (pt: nat)
      requires Valid() && IsDir(role, d) && v < TOP
      modifies this`free, this`tabs, this`role
      ensures Valid() && IsDir(role, d) && OnlyTables(old(role), role, d)
      ensures forall e, u :: IsDir(old(role), e) && 0 <= u < TOP ==> Lookup(tabs, e, u) == Lookup(old(tabs), e, u)
      ensures pt == 0 ==> role == old(role) && tabs == old(tabs) && free == old(free) == [] && Missing(tabs, d, v) == 1
      ensures pt != 0 ==> EntryAt(tabs, d, v / 1024).Present? && EntryAt(tabs, d, v / 1024).page == pt
      ensures pt != 0 ==> |free| + Missing(old(tabs), d, v) == |old(free)| && TableFor(old(tabs), tabs, d, v)
    {
      hide Inv, Lookup, EntryAt, Put;
      var e := EntryAt(tabs, d, v / 1024);
      if e.Present? {
        NonZero(free, tabs, data, role, d, v);
        return e.page;
      }
      pt := Kalloc();
      if pt == 0 {
        return;
      }
      AddTableOk(free, tabs, data, role, d, v / 1024, pt, PTE_W + PTE_U);
      TableAdded(free, tabs, data, role, d, v, pt);
      tabs := Put(tabs[pt := EmptyTable()], d, v / 1024, Present(pt, PTE_W + PTE_U));
      role := role[pt := Tab(d, v / 1024)];
    }

    /** mappages for one page of user memory. */
    method MapUser(d: nat, v: nat, f: nat, flags: nat) returns (ok: bool)
      requires Valid() && IsDir(role, d) && v < USER && Lookup(tabs, d, v) == Absent
      requires f in role && role[f] == Held && f in data
      modifies this`free, this`tabs, this`role
      ensures Valid() && IsDir(role, d)
      ensures !ok ==> role == old(role) && tabs == old(tabs) && free == old(free) == [] && Missing(tabs, d, v) == 1
      ensures ok ==> f in role && role[f] == Frame(d, v) && OnlyTables(old(role), role[f := Held], d)
      ensures ok ==> OneMapped(old(role), old(tabs), tabs, d, v, Present(f, flags))
      ensures ok ==> |free| + Missing(old(tabs), d, v) == |old(free)| && TableFor(old(tabs), tabs, d, v)
    {
      hide Inv, Lookup, EntryAt, Put;
      var pt := Walk(d, v);
      if pt == 0 {
        return false;
      }
      MapOk(free, tabs, data, role, d, v, f, flags);
      Keeps(free, tabs, data, role, d, v, Present(f, flags));
      tabs := Put(tabs, pt, v % 1024, Present(f, flags));
      role := role[f := Frame(d, v)];
      return true;
    }

    /** Read a page table entry. */
    method LookupPage(d: nat, v: nat) returns (e: Entry)
      ensures e == Lookup(tabs, d, v)
    {
      var t := EntryAt(tabs, d, v / 1024);
      return if t.Present? then EntryAt(tabs, t.page, v % 1024) else Absent;
    }

    /** deallocuvm: unmap and free the user pages from newsz up to oldsz, skipping 4 MB where there is
        no page table; exactly what going page by page would free. */
    method Deallocuvm(d: nat, oldsz: nat, newsz: nat) returns (sz: nat)
      requires Valid() && IsDir(role, d) && oldsz <= USER * 4096
      modifies this`free, this`tabs, this`role
      ensures Valid() && IsDir(role, d) && sz == if newsz >= oldsz then oldsz else newsz
      ensures role == Released(old(role), d, PagesUp(newsz), PagesUp(oldsz))
      ensures forall e, u :: IsDir(old(role), e) && 0 <= u < TOP ==>
                Lookup(tabs, e, u)
                == if e == d && PagesUp(newsz) <= u < PagesUp(oldsz) then Absent else Lookup(old(tabs), e, u)
      ensures forall v: nat :: newsz <= 4096 * v < oldsz ==> Lookup(tabs, d, v) == Absent
      ensures forall a: nat :: a < newsz && a < TOP * 4096 ==> CellAt(tabs, data, d, a) == CellAt(old(tabs), data, d, a)
    {
      hide Inv, Lookup, EntryAt, Put, Released;
      ghost var role0, tabs0, lo, hi := role, tabs, PagesUp(newsz), PagesUp(oldsz);
      ReleasedNone(role, d, lo, hi);
      if newsz >= oldsz {
        return oldsz;
      }
      var a := PagesUp(newsz);
      PagesBelow(oldsz, a);
      while 4096 * a < oldsz
        invariant lo <= a && Valid() && IsDir(role, d) && role == Released(role0, d, lo, Min(a, hi))
        invariant 4096 * a < oldsz <==> a < hi
        invariant forall e, u :: IsDir(role0, e) && 0 <= u < TOP ==>
                    Lookup(tabs, e, u) == if e == d && lo <= u < Min(a, hi) then Absent else Lookup(tabs0, e, u)
        decreases PagesUp(oldsz) - a
      {
        if EntryAt(tabs, d, a / 1024) == Absent {
          SkipTable(free, tabs, data, role, d, a, Min((a / 1024 + 1) * 1024, hi));
          ReleasedMore(role0, role, d, lo, a, Min((a / 1024 + 1) * 1024, hi));
          a := (a / 1024 + 1) * 1024 - 1;
        } else {
          var e := LookupPage(d, a);
          NoFrame(free, tabs, data, role, d, a);
          if e.Present? {
            ghost var role1 := role;
            UnmapOk(free, tabs, data, role, d, a);
            Keeps(free, tabs, data, role, d, a, Absent);
            ReleasedOne(role0, role, d, lo, a, e.page);
            tabs := Put(tabs, EntryAt(tabs, d, a / 1024).page, a % 1024, Absent);
            role := role[e.page := Held];
            Kfree(e.page);
            assert role == role1[e.page := Free];
          } else {
            ReleasedMore(role0, role, d, lo, a, a + 1);
          }
        }
        a := a + 1;
        PagesBelow(oldsz, a);
      }
      BytesBelow(tabs0, tabs, data, d, oldsz, newsz);
      return newsz;
    }

    /** kalloc, fill, mappages: one more page of user memory. Returns the page taken, and whether it
        could be mapped; if not it is still in hand. */
    method AddPage(d: nat, v: nat, want: Page) returns (mem: nat, ok: bool)
      requires Valid() && IsDir(role, d) && v < USER && Lookup(tabs, d, v) == Absent
      modifies this
      ensures Valid() && IsDir(role, d)
      ensures mem == 0 ==> !ok && role == old(role) && tabs == old(tabs) && data == old(data) && free == old(free) == []
      ensures mem != 0 ==> mem in old(role) && old(role)[mem] == Free && data == old(data)[mem := want.bytes]
      ensures mem != 0 && !ok ==>
                role == old(role)[mem := Held] && tabs == old(tabs) && |old(free)| == 1 && Missing(tabs, d, v) == 1
      ensures ok ==> mem != 0 && OnlyGrown(old(role), role, d, v, v + 1)
      ensures ok ==> OneMapped(old(role), old(tabs), tabs, d, v, Present(mem, want.flags))
      ensures ok ==> |free| + 1 + Missing(old(tabs), d, v) == |old(free)| && TableFor(old(tabs), tabs, d, v)
    {
      hide Inv, Lookup, EntryAt, Missing, TableFor, OnlyTables, OnlyGrown;
      mem := Kalloc();
      if mem == 0 {
        return 0, false;
      }
      Fill(mem, want.bytes);
      ok := MapUser(d, v, mem, want.flags);
      if ok {
        TakenMapped(old(role), role, d, v, mem);
      }
    }

    /** allocuvm: grow user memory from oldsz to newsz with zeroed pages, or, when memory runs out
        on the way, give back every page and return 0. It succeeds exactly when there are enough
        free pages for the memory and its page tables. */
    method Allocuvm(d: nat, oldsz: nat, newsz: nat) returns (r: nat)
      requires Valid() && IsDir(role, d)
      requires forall u: nat :: oldsz <= 4096 * u < newsz && u < USER ==> Lookup(tabs, d, u) == Absent
      modifies this
      ensures Valid() && IsDir(role, d) && DataKept(old(role), old(data), data)
      ensures newsz >= USER * 4096 ==> r == 0 && role == old(role) && tabs == old(tabs)
      ensures newsz < USER * 4096 && newsz < oldsz ==> r == oldsz && role == old(role) && tabs == old(tabs)
      ensures oldsz <= newsz < USER * 4096 ==>
                && (r == newsz || r == 0)
                && (r == newsz <==> |old(free)| >= Cost(old(tabs), d, PagesUp(oldsz), PagesUp(newsz)))
      ensures oldsz <= newsz < USER * 4096 && r == newsz ==>
                && OnlyGrown(old(role), role, d, PagesUp(oldsz), PagesUp(newsz))
                && SameBut(old(role), old(tabs), tabs, d, PagesUp(oldsz), PagesUp(newsz))
                && Shows(tabs, data, d, PagesUp(oldsz), Zeroed(PagesUp(newsz) - PagesUp(oldsz)))
                && Grown(old(tabs), old(data), tabs, data, d, oldsz, newsz)
      ensures oldsz <= newsz < USER * 4096 && r != newsz ==>
                OnlyTables(old(role), role, d) && SameMaps(old(role), old(tabs), tabs)
    {
      hide Inv, Lookup, EntryAt, Missing, TableFor, Cost, Shows, SameBut, OneMapped, OnlyGrown, OnlyTables,
        TablesUpTo, ZeroPage, Zeroed, DataKept, Released, Grown, CellAt, SameMaps;
      if newsz >= USER * 4096 {
        GrownStart(role, tabs, data, d, 0);
        return 0;
      }
      if newsz < oldsz {
        GrownStart(role, tabs, data, d, 0);
        return oldsz;
      }
      assert PagesUp(oldsz) <= PagesUp(newsz) <= USER;
      hide PagesUp;
      var a := PagesUp(oldsz);
      ghost var role0, tabs0, data0, free0, lo, hi := role, tabs, data, free, PagesUp(oldsz), PagesUp(newsz);
      ghost var want := Zeroed(hi - lo);
      GrownStart(role, tabs, data, d, lo);
      NothingAbove(tabs, d, oldsz, newsz);
      NoFrames(free, tabs, data, role, d, lo, hi);
      PagesBelow(newsz, a);
      while 4096 * a < newsz
        invariant 4096 * a < newsz <==> a < hi
        invariant lo <= a <= hi && Valid() && IsDir(role, d) && DataKept(role0, data0, data)
        invariant OnlyGrown(role0, role, d, lo, a) && SameBut(role0, tabs0, tabs, d, lo, a)
        invariant Shows(tabs, data, d, lo, want[..a - lo])
        invariant |free| + Cost(tabs0, d, lo, a) == |free0| && TablesUpTo(tabs0, tabs, d, lo, a)
      {
        ghost var role1, tabs1, data1, free1 := role, tabs, data, free;
        SameThere(role0, tabs0, tabs, d, lo, a);
        var mem, ok := AddPage(d, a, Page(PTE_W + PTE_U, ZeroPage()));
        CostStep(tabs0, tabs1, tabs, d, lo, a);
        CostGrows(tabs0, d, lo, a + 1, hi);
        if mem == 0 {
          RolledBack(role0, role, d, lo, a, hi);
          var _ := Deallocuvm(d, newsz, oldsz);
          MapsBack(role0, role1, tabs0, tabs1, tabs, d, lo, a, hi);
          return 0;
        }
        DataStep(role0, data0, role1, data1, d, lo, a, mem, ZeroPage());
        if !ok {
          RolledBack(role0, role1, d, lo, a, hi);
          HeldAside(role1, d, lo, hi, mem);
          var _ := Deallocuvm(d, newsz, oldsz);
          MapsBack(role0, role1, tabs0, tabs1, tabs, d, lo, a, hi);
          Kfree(mem);
          return 0;
        }
        SameStep(role0, role1, tabs0, tabs1, tabs, d, lo, a, Present(mem, PTE_W + PTE_U));
        GrownStep(role0, role1, role, d, lo, a);
        ShowsStep(free1, role1, tabs1, data1, tabs, data, d, lo, want, a - lo, mem);
        a := a + 1;
        PagesBelow(newsz, a);
      }
      assert want[..hi - lo] == want;
      BytesGrown(free0, tabs0, data0, role0, tabs, data, d, oldsz, newsz);
      return newsz;
    }

    /** freevm: everything that belongs to directory d goes back on the free list. */
    method Freevm(d: nat)
      requires Valid() && IsDir(role, d)
      modifies this`free, this`tabs, this`role
      ensures Valid() && role == Dropped(old(role), d)
      ensures forall e, u :: IsDir(old(role), e) && e != d && 0 <= u < TOP ==>
                Lookup(tabs, e, u) == Lookup(old(tabs), e, u)
    {
      hide Inv, Lookup, EntryAt, Released, Dropped, Dropping;
      ghost var role0 := role;
      var _ := Deallocuvm(d, USER * 4096, 0);
      assert PagesUp(0) == 0 && PagesUp(USER * 4096) == USER;
      DyingOk(free, tabs, data, role0, role, d);
      role := role[d := Dying];
      ghost var tabs1 := tabs;
      var i := 0;
      while i < 1024
        invariant 0 <= i <= 1024 && Valid() && tabs == tabs1 && role == Dropping(role0, d, i)
        invariant TabsLeft(tabs, role, d, i)
      {
        var e := EntryAt(tabs, d, i);
        DroppingStep(free, tabs, data, role0, role, d, i);
        if e.Present? {
          ghost var role1 := role;
          DropTabOk(free, tabs, data, role, d, e.page);
          role := role[e.page := Held];
          Kfree(e.page);
          assert role == role1[e.page := Free];
        }
        i := i + 1;
      }
      DropDirOk(free, tabs, data, role0, role, d);
      ghost var role2 := role;
      role := role[d := Held];
      Kfree(d);
      assert role == role2[d := Free];
    }

    /** mappages for a row of the kernel's map. */
    method MapRow(d: nat, r: Range) returns (ok: bool, ghost at: nat)
      requires Valid() && IsDir(role, d) && USER <= r.v && 1 <= r.n && r.v + r.n <= TOP
      requires forall u :: r.v <= u < r.v + r.n ==> Lookup(tabs, d, u) == Absent
      modifies this`free, this`tabs, this`role
      ensures Valid() && IsDir(role, d) && OnlyTables(old(role), role, d)
      ensures SameBut(old(role), old(tabs), tabs, d, r.v, r.v + r.n)
      ensures |free| + |Tabbed(tabs, d)| == |old(free)| + |Tabbed(old(tabs), d)|
      ensures ok ==> RowMapped(tabs, d, r, r.n) && TablesUpTo(old(tabs), tabs, d, r.v, r.v + r.n)
      ensures !ok ==>
                && free == [] && r.v <= at < r.v + r.n && TablesUpTo(old(tabs), tabs, d, r.v, at)
                && Missing(tabs, d, at) == 1
    {
      hide Inv, Lookup, EntryAt, Put, Missing, TableFor, TablesUpTo, Tabbed, OnlyTables, OnlyGrown, SameBut, RowMapped;
      ghost var role0, tabs0, free0 := role, tabs, free;
      var i := 0;
      at := r.v;
      RowStart(role, tabs, d, r);
      while true
        invariant 0 <= i < r.n && Valid() && IsDir(role, d) && OnlyTables(role0, role, d) && at == r.v + i
        invariant SameBut(role0, tabs0, tabs, d, r.v, at) && RowMapped(tabs, d, r, i)
        invariant TablesUpTo(tabs0, tabs, d, r.v, at)
        invariant |free| + |Tabbed(tabs, d)| == |free0| + |Tabbed(tabs0, d)|
        decreases r.n - i
      {
        ghost var role1, tabs1 := role, tabs;
        var pt := Walk(d, r.v + i);
        if pt == 0 {
          SameWider(role0, tabs0, tabs, d, r.v, r.v + i, r.v + r.n);
          return false, at;
        }
        ghost var tabs2 := tabs;
        MapKernelOk(free, tabs, data, role, d, r.v + i, Present(r.page + i, r.perm));
        Keeps(free, tabs, data, role, d, r.v + i, Present(r.page + i, r.perm));
        tabs := Put(tabs, pt, (r.v + i) % 1024, Present(r.page + i, r.perm));
        SameTables(tabs1, tabs2, tabs, d, at);
        TabbedStep(tabs1, tabs, d, at);
        CostStep(tabs0, tabs1, tabs, d, r.v, at);
        RowStep(role0, tabs0, role1, tabs1, role, tabs2, tabs, d, r, i);
        if i == r.n - 1 {
          return true, at;
        }
        i := i + 1;
        at := at + 1;
      }
    }

    /** setupkvm: a new directory that maps the kernel and no user memory. */
    method Setupkvm(kmap: seq<Range>) returns (d: nat)
      requires Valid() && KmapOk(kmap)
      modifies this`free, this`tabs, this`role
      ensures Valid() && SameMaps(old(role), old(tabs), tabs)
      ensures d == 0 ==> role == old(role)
      ensures d == 0 <==> |old(free)| < 1 + Need(kmap)
      ensures d != 0 ==>
                d in old(role) && old(role)[d] == Free && IsDir(role, d) && OnlyTables(old(role)[d := Dir], role, d)
      ensures d != 0 ==> KernelMapped(tabs, d, kmap) && forall u :: 0 <= u < USER ==> Lookup(tabs, d, u) == Absent
      ensures d != 0 ==> |free| + 1 + Need(kmap) == |old(free)| && NoUserTables(tabs, d)
    {
      hide Inv, Lookup, EntryAt, Tabbed, Covered, TablesUpTo, Missing, NoUserTables, OnlyTables, OnlyGrown, SameBut,
        RowMapped, EmptyTable, Dropped, KernelMapped, SameMaps, DirStarted;
      ghost var role0, tabs0, free0 := role, tabs, free;
      NobodysTables(free, tabs, data, role);
      d := Kalloc();
      if d == 0 {
        SameMapsRefl(role, tabs);
        return;
      }
      NewDirOk(free, tabs, data, role0, role, d, kmap);
      tabs := tabs[d := EmptyTable()];
      role := role[d := Dir];
      ghost var role1 := role;
      assert role1 == role0[d := Dir];
      var k := 0;
      while k < |kmap|
        invariant 0 <= k <= |kmap| && Valid() && IsDir(role, d) && OnlyTables(role1, role, d)
        invariant DirStarted(role0, tabs0, tabs, d, kmap, k)
        invariant |free| + 1 + |Tabbed(tabs, d)| == |free0| && Tabbed(tabs, d) == Covered(kmap, k)
      {
        ghost var role2, tabs2 := role, tabs;
        RowClear(role0, tabs0, tabs, d, kmap, k);
        var ok;
        ghost var at;
        ok, at := MapRow(d, kmap[k]);
        TablesTwice(role1, role2, role, d);
        if !ok {
          TooFew(tabs2, tabs, d, kmap, k, at);
          ghost var role3, tabs3 := role, tabs;
          TablesAreGrowth(role1, role, d, 0);
          DroppedBack(role0, role, d, 0, 0);
          Freevm(d);
          SetupUndone(role0, tabs0, role1, role2, tabs2, role3, tabs3, tabs, d, kmap, k);
          return 0;
        }
        DirStep(role0, tabs0, role1, role2, tabs2, tabs, d, kmap, k);
        CoveredStep(tabs2, tabs, d, kmap, k);
        k := k + 1;
      }
      DirDone(role0, tabs0, tabs, d, kmap);
      UserUntouched(tabs, d, kmap);
    }

    /** A copy that cannot be finished is taken down: everybody has the pages and mappings of before. */
    method Abandon(c: nat, ghost role0: Roles, ghost tabs0: Tables, ghost roleS: Roles, ghost tabsS: Tables,
                   ghost i: nat)
      requires Valid() && IsDir(role, c) && c in role0 && role0[c] == Free
      requires OnlyTables(role0[c := Dir], roleS, c) && OnlyGrown(roleS, role, c, 0, i)
      requires SameMaps(role0, tabs0, tabsS) && SameBut(roleS, tabsS, tabs, c, 0, i)
      requires forall p :: p in role0 && (role0[p].Tab? || role0[p].Frame?) ==>
                role0[p].d in role0 && role0[role0[p].d] != Free
      modifies this`free, this`tabs, this`role
      ensures Valid() && role == role0 && SameMaps(role0, tabs0, tabs)
    {
      hide Inv, Lookup, SameBut, OnlyGrown, OnlyTables, Dropped, SameMaps;
      ghost var role2, tabs2 := role, tabs;
      GrownFrom(role0[c := Dir], roleS, role, c, i);
      DroppedBack(role0, role, c, 0, i);
      Freevm(c);
      CopyUndone(role0, tabs0, roleS, tabsS, role2, tabs2, tabs, c, i);
    }

    /** copyuvm: a new address space with the parent's first sz bytes, page by page, in pages of its
        own; or, when memory runs out, nothing at all. */
    method Copyuvm(d: nat, sz: nat, kmap: seq<Range>) returns (c: nat)
      requires Valid() && IsDir(role, d) && KmapOk(kmap) && sz <= USER * 4096
      requires forall v: nat :: 4096 * v < sz ==> Backed(tabs, data, d, v)
      modifies this
      ensures Valid() && SameMaps(old(role), old(tabs), tabs) && DataKept(old(role), old(data), data)
      ensures c == 0 ==> role == old(role)
      ensures c == 0 <==> |old(free)| < 1 + Need(kmap) + PagesUp(sz) + (PagesUp(sz) + 1023) / 1024
      ensures c != 0 ==> c in old(role) && old(role)[c] == Free && IsDir(role, c)
      ensures c != 0 ==> OnlyGrown(old(role)[c := Dir], role, c, 0, PagesUp(sz))
      ensures c != 0 ==> Shows(tabs, data, c, 0, Image(old(tabs), old(data), d, PagesUp(sz)))
      ensures c != 0 ==> forall a: nat :: a < sz ==> CellAt(tabs, data, c, a) == CellAt(old(tabs), old(data), d, a)
      ensures c != 0 ==> forall u: nat :: sz <= 4096 * u && u < USER ==> Lookup(tabs, c, u) == Absent
      ensures c != 0 ==> KernelMapped(tabs, c, kmap)
    {
      hide Inv, Lookup, EntryAt, Missing, TableFor, Shows, SameBut, OneMapped, OnlyGrown, OnlyTables, DataKept, Image,
        Cost, TablesUpTo, NoUserTables, Need, KernelMapped, Dropped, SameMaps, Backed, PageOf;
      assert PagesUp(sz) <= USER;
      AllBacked(tabs, data, d, sz);
      hide PagesUp, KmapOk, CellAt;
      ghost var role0, tabs0, data0, free0, n := role, tabs, data, free, PagesUp(sz);
      ghost var want := Image(tabs, data, d, n);
      NobodysTables(free, tabs, data, role);
      c := Setupkvm(kmap);
      GrownStart(role0, tabs0, data0, d, 0);
      if c == 0 {
        return;
      }
      ghost var role1, roleS, tabsS, freeS := role0[c := Dir], role, tabs, free;
      FreshCost(tabsS, c, n);
      GrownStart(role, tabs, data, c, 0);
      GrownStart(role1, tabs, data, c, 0);
      var i := 0;
      PagesBelow(sz, 0);
      while 4096 * i < sz
        invariant 4096 * i < sz <==> i < n
        invariant 0 <= i <= n && Valid() && IsDir(role, c) && DataKept(role1, data0, data)
        invariant OnlyGrown(roleS, role, c, 0, i) && SameBut(roleS, tabsS, tabs, c, 0, i)
        invariant Shows(tabs, data, c, 0, want[..i])
        invariant |free| + Cost(tabsS, c, 0, i) == |freeS| && TablesUpTo(tabsS, tabs, c, 0, i)
      {
        ghost var role2, tabs2, data2, free2 := role, tabs, data, free;
        SameThere(roleS, tabsS, tabs, c, 0, i);
        GrownFrom(role1, roleS, role, c, i);
        ParentThere(free0, role0, tabs0, data0, roleS, tabsS, tabs, data, d, c, i, n);
        var e := LookupPage(d, i);
        var mem, ok := AddPage(c, i, Page(e.flags, data[e.page]));
        CostStep(tabsS, tabs2, tabs, c, 0, i);
        CostGrows(tabsS, c, 0, i + 1, n);
        if mem != 0 {
          DataStep(role1, data0, role2, data2, c, 0, i, mem, want[i].bytes);
        }
        if mem != 0 && !ok {
          Kfree(mem);
          assert role == role2;
        }
        if !ok {
          Abandon(c, role0, tabs0, roleS, tabsS, i);
          KeptEarlier(role0, data0, data, c);
          return 0;
        }
        SameStep(roleS, role2, tabsS, tabs2, tabs, c, 0, i, Present(mem, want[i].flags));
        GrownStep(roleS, role2, role, c, 0, i);
        ShowsStep(free2, role2, tabs2, data2, tabs, data, c, 0, want, i, mem);
        i := i + 1;
        PagesBelow(sz, i);
      }
      assert want[..n] == want;
      GrownFrom(role1, roleS, role, c, n);
      KeptEarlier(role0, data0, data, c);
      CopyDone(role0, tabs0, roleS, tabsS, tabs, c, n, kmap);
      BytesCopied(tabs0, data0, d, tabs, data, c, sz);
      forall u: nat | sz <= 4096 * u && u < USER
        ensures Lookup(tabs, c, u) == Absent
      {
        PagesBelow(sz, u);
      }
    }
  }
}
