/**
 Physical pages, reference counts and user page table entries (kernel/kalloc.c,
 kernel/pagetable.c and kernel/uvm.c), with the steps from which faults, forks and unmaps
 are built, and the private memory they implement.

 A page table is its set of leaf entries, one per address space and page address.
 */
module CowModel {
  import opened Options
  import opened Seqs
  import opened VmaTable

  type Page = seq<int>

  // An address space and a virtual page number.
  datatype Key = Key(space: int, vpn: int)
  {
    function Va(): int {
      vpn * PGSIZE
    }
  }

  // A leaf entry: page number and the bits PTE_R, PTE_W, PTE_X and PTE_U.
  datatype Pte = Pte(ppn: int, r: bool, w: bool, x: bool, u: bool)

  // Pages [first, |refs|) are managed by kalloc(); free is freelist[0..numfree).
  // owned are the pages in use by the kernel: page tables, and pages not yet mapped.
  datatype State = State(first: nat, refs: seq<int>, free: seq<int>, mem: seq<Page>,
                         owned: set<int>, ptes: map<Key, Pte>, tables: map<int, Table>)

  function Filled(b: int): (p: Page)
    ensures |p| == PGSIZE && forall i :: 0 <= i < PGSIZE ==> p[i] == b
  {
    seq(PGSIZE, i => b)
  }

  const ZERO: Page := Filled(0)

  // ---------- the invariant ----------

  ghost function Users(ptes: map<Key, Pte>, p: int): set<Key> {
    set k | k in ptes && ptes[k].ppn == p
  }

  ghost predicate Managed(s: State, p: int) {
    s.first <= p < |s.refs|
  }

  ghost predicate Shaped(s: State) {
    && |s.mem| == |s.refs| && s.first <= |s.refs|
    && (forall p :: 0 <= p < |s.mem| ==> |s.mem[p]| == PGSIZE)
    && (forall k :: k in s.ptes ==> Managed(s, s.ptes[k].ppn))
    && (forall p :: p in s.owned ==> Managed(s, p))
  }

  // The free list holds every unreferenced page once.
  ghost predicate FreeList(first: nat, refs: seq<int>, free: seq<int>) {
    && Distinct(free)
    && (forall i :: 0 <= i < |free| ==> first <= free[i] < |refs| && refs[free[i]] == 0)
    && (forall p :: first <= p < |refs| && refs[p] == 0 ==> p in free)
  }

  // refs[p] is the number of leaf entries for p, or 1 for a page the kernel uses.
  ghost predicate Counted(first: nat, refs: seq<int>, owned: set<int>, ptes: map<Key, Pte>) {
    forall p :: first <= p < |refs| ==> CountedPage(refs[p], owned, ptes, p)
  }

  ghost predicate CountedPage(n: int, owned: set<int>, ptes: map<Key, Pte>, p: int) {
    && n == |Users(ptes, p)| + (if p in owned then 1 else 0)
    && (p in owned ==> Users(ptes, p) == {})
  }

  // Only an entry that has its page to itself may be writable.
  ghost predicate Exclusive(refs: seq<int>, ptes: map<Key, Pte>) {
    forall k :: k in ptes && ptes[k].w ==> 0 <= ptes[k].ppn < |refs| && refs[ptes[k].ppn] == 1
  }

  // Every entry lies in an area that grants what the entry grants; only PTE_W is withheld.
  ghost predicate InAreas(tables: map<int, Table>, ptes: map<Key, Pte>) {
    && (forall a :: a in tables ==> ValidTable(tables[a]))
    && (forall k :: k in ptes ==> InArea(tables, k, ptes[k]))
  }

  ghost predicate InArea(tables: map<int, Table>, k: Key, e: Pte) {
    && k.space in tables
    && exists i :: CoveredBy(tables[k.space], i, k.Va()) && Grants(tables[k.space][i].value.perm, e)
  }

  predicate Grants(perm: Perm, e: Pte) {
    e.r == perm.r && e.x == perm.x && (e.w ==> perm.w)
  }

  ghost predicate Inv(s: State) {
    && Shaped(s)
    && FreeList(s.first, s.refs, s.free)
    && Counted(s.first, s.refs, s.owned, s.ptes)
    && Exclusive(s.refs, s.ptes)
    && InAreas(s.tables, s.ptes)
  }

  // Nothing is mapped and every managed page is on the free list.
  ghost predicate InitialState(s: State) {
    && |s.mem| == |s.refs| && s.first <= |s.refs| && |s.free| == |s.refs| - s.first
    && s.owned == {} && s.ptes == map[] && s.tables == map[]
    && (forall p :: 0 <= p < |s.refs| ==> s.refs[p] == 0 && |s.mem[p]| == PGSIZE)
    && (forall i :: 0 <= i < |s.free| ==> s.free[i] == s.first + i)
  }

  lemma InitialInv(s: State)
    requires InitialState(s)
    ensures Inv(s)
  {
    forall q | s.first <= q < |s.refs|
      ensures CountedPage(s.refs[q], s.owned, s.ptes, q) && q in s.free
    {
      assert Users(s.ptes, q) == {};
      assert s.free[q - s.first] == q;
    }
  }

  // ---------- what a process sees ----------

  // The page at k: its frame, or zeros if it has not been filled yet.
  function View(s: State, k: Key): Page
    requires k in s.ptes ==> 0 <= s.ptes[k].ppn < |s.mem|
  {
    if k in s.ptes then s.mem[s.ptes[k].ppn] else ZERO
  }

  ghost predicate Present(s: State, k: Key) {
    k.space in s.tables && Covered(s.tables[k.space], k.Va())
  }

  // The simple model: every address space owns a private map from page addresses to bytes.
  type Memory = imap<Key, Page>

  ghost function Abs(s: State): Memory
    requires Shaped(s)
  {
    imap k: Key | Present(s, k) :: View(s, k)
  }

  // ---------- kalloc.c ----------

  function Alloc(s: State): State
    requires |s.free| > 0 && 0 <= s.free[|s.free| - 1] < |s.refs| == |s.mem|
  {
    var p := s.free[|s.free| - 1];
    s.(free := s.free[..|s.free| - 1], refs := s.refs[p := 1], mem := s.mem[p := Filled(5)],
       owned := s.owned + {p})
  }

  // A page that is free or the kernel's is in no entry.
  lemma NotInUse(s: State, p: int)
    requires Inv(s) && Managed(s, p) && (s.refs[p] == 0 || p in s.owned)
    ensures Users(s.ptes, p) == {} && forall k :: k in s.ptes ==> s.ptes[k].ppn != p
  {
    hide FreeList, Exclusive, InAreas;
    assert CountedPage(s.refs[p], s.owned, s.ptes, p);
    forall k | k in s.ptes
      ensures s.ptes[k].ppn != p
    {
      assert k in Users(s.ptes, s.ptes[k].ppn);
    }
  }

  lemma TakeLast(first: nat, refs: seq<int>, free: seq<int>)
    requires FreeList(first, refs, free) && |free| > 0
    ensures var p := free[|free| - 1];
            first <= p < |refs| && refs[p] == 0 && FreeList(first, refs[p := 1], free[..|free| - 1])
  {
    var n := |free| - 1;
    assert free == free[..n] + [free[n]];
  }

  lemma AllocKeeps(s: State)
    requires Inv(s) && |s.free| > 0
    ensures var p := s.free[|s.free| - 1];
            && Managed(s, p) && p !in s.owned
            && Inv(Alloc(s)) && Abs(Alloc(s)) == Abs(s)
  {
    hide FreeList, InAreas;
    var p := s.free[|s.free| - 1];
    TakeLast(s.first, s.refs, s.free);
    NotInUse(s, p);
    assert CountedPage(s.refs[p], s.owned, s.ptes, p);
    var s' := Alloc(s);
    forall q | Managed(s', q)
      ensures CountedPage(s'.refs[q], s'.owned, s'.ptes, q)
    {
      assert CountedPage(s.refs[q], s.owned, s.ptes, q);
    }
    SameAbs(s, s');
  }

  lemma SameAbs(s: State, s': State)
    requires Shaped(s) && Shaped(s') && s'.tables == s.tables
    requires forall k :: View(s', k) == View(s, k)
    ensures Abs(s') == Abs(s)
  {
  }

  lemma OnePageOfAbs(s: State, s': State, k: Key, data: Page)
    requires Shaped(s) && Shaped(s') && s'.tables == s.tables && Present(s, k)
    requires View(s', k) == data && forall h :: h != k ==> View(s', h) == View(s, h)
    ensures Abs(s') == Abs(s)[k := data]
  {
  }

  // kfree(): the last reference puts the page on the free list, filled with junk.
  function Freed(s: State, p: int): State
    requires 0 <= p < |s.refs| == |s.mem|
  {
    var n := s.refs[p] - 1;
    var s1 := s.(refs := s.refs[p := n]);
    if n == 0 then s1.(mem := s.mem[p := Filled(1)], free := s.free + [p]) else s1
  }

  // ---------- steps on leaf entries ----------

  // A page of the kernel's is written, before it is mapped.
  function Fill(s: State, p: int, data: Page): State
    requires 0 <= p < |s.mem|
  {
    s.(mem := s.mem[p := data])
  }

  lemma FillKeeps(s: State, p: int, data: Page)
    requires Inv(s) && p in s.owned && |data| == PGSIZE
    ensures Inv(Fill(s, p, data)) && Abs(Fill(s, p, data)) == Abs(s)
  {
    hide FreeList, Counted, Exclusive, InAreas;
    NotInUse(s, p);
    SameAbs(s, Fill(s, p, data));
  }

  // A page of the kernel's becomes the page of an entry.
  function Install(s: State, k: Key, e: Pte): State {
    s.(ptes := s.ptes[k := e], owned := s.owned - {e.ppn})
  }

  lemma InstallCounts(s: State, k: Key, e: Pte)
    requires Inv(s) && k !in s.ptes && e.ppn in s.owned
    ensures Counted(s.first, s.refs, s.owned - {e.ppn}, s.ptes[k := e])
    ensures Exclusive(s.refs, s.ptes[k := e])
  {
    hide FreeList, InAreas;
    NotInUse(s, e.ppn);
    assert CountedPage(s.refs[e.ppn], s.owned, s.ptes, e.ppn);
    forall p | Managed(s, p)
      ensures CountedPage(s.refs[p], s.owned - {e.ppn}, s.ptes[k := e], p)
    {
      assert CountedPage(s.refs[p], s.owned, s.ptes, p);
      assert Users(s.ptes[k := e], p) == if p == e.ppn then {k} else Users(s.ptes, p);
    }
  }

  lemma InstallKeeps(s: State, k: Key, e: Pte)
    requires Inv(s) && k !in s.ptes && e.ppn in s.owned && InArea(s.tables, k, e)
    ensures Inv(Install(s, k, e))
    ensures Abs(Install(s, k, e)) == Abs(s)[k := s.mem[e.ppn]]
  {
    hide FreeList, Counted, Exclusive, InArea;
    InstallCounts(s, k, e);
    AreaIsPresent(s, k, e);
    OnePageOfAbs(s, Install(s, k, e), k, s.mem[e.ppn]);
  }

  lemma AreaIsPresent(s: State, k: Key, e: Pte)
    requires InArea(s.tables, k, e)
    ensures Present(s, k)
  {
    var i :| CoveredBy(s.tables[k.space], i, k.Va());
  }

  // A page that is present and has no entry reads as zeros.
  lemma HoleIsZero(s: State, k: Key, e: Pte)
    requires Shaped(s) && k !in s.ptes && InArea(s.tables, k, e)
    ensures Abs(s)[k := ZERO] == Abs(s)
  {
    AreaIsPresent(s, k, e);
  }

  lemma EntriesArePresent(s: State)
    requires InAreas(s.tables, s.ptes)
    ensures forall k :: k in s.ptes ==> Present(s, k)
  {
    forall k | k in s.ptes
      ensures Present(s, k)
    {
      AreaIsPresent(s, k, s.ptes[k]);
    }
  }

  // An entry is removed and its reference dropped.
  function Drop(s: State, k: Key): State
    requires k in s.ptes && 0 <= s.ptes[k].ppn < |s.refs| == |s.mem|
  {
    Freed(s, s.ptes[k].ppn).(ptes := s.ptes - {k})
  }

  lemma DropCountsPage(s: State, k: Key, q: int)
    requires Shaped(s) && k in s.ptes && Managed(s, q)
    requires CountedPage(s.refs[q], s.owned, s.ptes, q)
    ensures CountedPage(Drop(s, k).refs[q], s.owned, s.ptes - {k}, q)
    ensures q == s.ptes[k].ppn ==> 0 < s.refs[q] && q !in s.owned
  {
    assert Users(s.ptes - {k}, q) == Users(s.ptes, q) - {k};
    assert q == s.ptes[k].ppn <==> k in Users(s.ptes, q);
  }

  lemma DropCounts(s: State, k: Key)
    requires Inv(s) && k in s.ptes
    ensures 0 < s.refs[s.ptes[k].ppn] && s.ptes[k].ppn !in s.owned
    ensures Counted(s.first, Drop(s, k).refs, s.owned, s.ptes - {k})
  {
    hide FreeList, Exclusive, InAreas, CountedPage;
    forall q | Managed(s, q)
      ensures CountedPage(Drop(s, k).refs[q], s.owned, s.ptes - {k}, q)
    {
      DropCountsPage(s, k, q);
    }
    DropCountsPage(s, k, s.ptes[k].ppn);
  }

  lemma FreedKeepsFreeList(s: State, p: int)
    requires Shaped(s) && FreeList(s.first, s.refs, s.free) && Managed(s, p) && 0 < s.refs[p]
    ensures FreeList(s.first, Freed(s, p).refs, Freed(s, p).free)
  {
  }

  lemma DropKeeps(s: State, k: Key)
    requires Inv(s) && k in s.ptes
    ensures 0 < s.refs[s.ptes[k].ppn]
    ensures Inv(Drop(s, k)) && Abs(Drop(s, k)) == Abs(s)[k := ZERO]
  {
    hide FreeList, Counted, InArea;
    var p, s' := s.ptes[k].ppn, Drop(s, k);
    DropCounts(s, k);
    FreedKeepsFreeList(s, p);
    forall h | h in s'.ptes
      ensures s'.ptes[h].ppn == p ==> 2 <= s.refs[p] && !s'.ptes[h].w
    {
      if s'.ptes[h].ppn == p { TwoUsers(s, p, k, h); }
    }
    AreaIsPresent(s, k, s.ptes[k]);
    OnePageOfAbs(s, s', k, ZERO);
  }

  lemma TwoUsers(s: State, p: int, k: Key, k': Key)
    requires Inv(s) && k in s.ptes && k' in s.ptes && k != k'
    requires s.ptes[k].ppn == s.ptes[k'].ppn == p
    ensures 2 <= s.refs[p] && !s.ptes[k].w && !s.ptes[k'].w
  {
    hide FreeList, InAreas;
    assert CountedPage(s.refs[p], s.owned, s.ptes, p);
    assert {k, k'} <= Users(s.ptes, p);
    assert |{k, k'}| == 2;
    Subset({k, k'}, Users(s.ptes, p));
  }

  // One turn of pgt_clone(): both entries lose PTE_W and the page gains a reference.
  function Share(s: State, k: Key, k': Key): State
    requires k in s.ptes && 0 <= s.ptes[k].ppn < |s.refs|
  {
    var e := s.ptes[k].(w := false);
    s.(ptes := s.ptes[k := e][k' := e], refs := s.refs[e.ppn := s.refs[e.ppn] + 1])
  }

  lemma UsersAfterShare(ptes: map<Key, Pte>, k: Key, k': Key, q: int)
    requires k in ptes && k' !in ptes
    ensures var e := ptes[k].(w := false);
            var after := Users(ptes[k := e][k' := e], q);
            after == if q == e.ppn then Users(ptes, q) + {k'} else Users(ptes, q)
  {
  }

  lemma ShareCounts(s: State, k: Key, k': Key)
    requires Inv(s) && k in s.ptes && k' !in s.ptes
    ensures var s' := Share(s, k, k');
            Counted(s'.first, s'.refs, s'.owned, s'.ptes) && FreeList(s'.first, s'.refs, s'.free)
  {
    hide Exclusive, InAreas;
    var s' := Share(s, k, k');
    assert k in Users(s.ptes, s.ptes[k].ppn);
    forall q | Managed(s, q)
      ensures CountedPage(s'.refs[q], s'.owned, s'.ptes, q)
      ensures q == s.ptes[k].ppn ==> 0 < s.refs[q]
    {
      assert CountedPage(s.refs[q], s.owned, s.ptes, q);
      UsersAfterShare(s.ptes, k, k', q);
    }
  }

  lemma ShareExclusive(s: State, k: Key, k': Key)
    requires Inv(s) && k in s.ptes && k' !in s.ptes
    ensures Exclusive(Share(s, k, k').refs, Share(s, k, k').ptes)
  {
    hide FreeList, Counted, InAreas;
    forall h | h in s.ptes && h != k && s.ptes[h].ppn == s.ptes[k].ppn
      ensures !s.ptes[h].w
    {
      TwoUsers(s, s.ptes[k].ppn, h, k);
    }
  }

  lemma ShareInAreas(tables: map<int, Table>, ptes: map<Key, Pte>, k: Key, k': Key)
    requires InAreas(tables, ptes) && k in ptes && InArea(tables, k', ptes[k])
    ensures var e := ptes[k].(w := false);
            InAreas(tables, ptes[k := e][k' := e])
  {
    WeakerEntryInArea(tables, k, ptes[k]);
    WeakerEntryInArea(tables, k', ptes[k]);
  }

  lemma ShareAbs(s: State, k: Key, k': Key)
    requires Shaped(s) && k in s.ptes && k' !in s.ptes && Present(s, k')
    ensures Shaped(Share(s, k, k'))
    ensures Abs(Share(s, k, k')) == Abs(s)[k' := View(s, k)]
  {
    OnePageOfAbs(s, Share(s, k, k'), k', View(s, k));
  }

  lemma ShareKeeps(s: State, k: Key, k': Key)
    requires Inv(s) && k in s.ptes && k' !in s.ptes
    requires InArea(s.tables, k', s.ptes[k])
    ensures Inv(Share(s, k, k'))
    ensures Abs(Share(s, k, k')) == Abs(s)[k' := View(s, k)]
  {
    hide FreeList, Counted, Exclusive, InArea;
    ShareCounts(s, k, k');
    ShareExclusive(s, k, k');
    ShareInAreas(s.tables, s.ptes, k, k');
    AreaIsPresent(s, k', s.ptes[k]);
    ShareAbs(s, k, k');
  }

  lemma WeakerEntryInArea(tables: map<int, Table>, k: Key, e: Pte)
    requires InArea(tables, k, e)
    ensures InArea(tables, k, e.(w := false))
  {
    var i :| CoveredBy(tables[k.space], i, k.Va()) && Grants(tables[k.space][i].value.perm, e);
    assert CoveredBy(tables[k.space], i, k.Va()) && Grants(tables[k.space][i].value.perm, e.(w := false));
  }

  // A write fault on a page with one reference.
  function SetWritable(s: State, k: Key): State
    requires k in s.ptes
  {
    s.(ptes := s.ptes[k := s.ptes[k].(w := true)])
  }

  lemma SetWritableKeeps(s: State, k: Key)
    requires Inv(s) && k in s.ptes && s.refs[s.ptes[k].ppn] == 1
    requires InArea(s.tables, k, s.ptes[k].(w := true))
    ensures Inv(SetWritable(s, k)) && Abs(SetWritable(s, k)) == Abs(s)
  {
    hide FreeList, InArea;
    var s' := SetWritable(s, k);
    forall q | Managed(s', q)
      ensures CountedPage(s'.refs[q], s'.owned, s'.ptes, q)
    {
      assert CountedPage(s.refs[q], s.owned, s.ptes, q);
      assert Users(s'.ptes, q) == Users(s.ptes, q);
    }
    SameAbs(s, s');
  }

  // A store through a writable entry.
  function Store(s: State, k: Key, data: Page): State
    requires k in s.ptes && 0 <= s.ptes[k].ppn < |s.mem|
  {
    s.(mem := s.mem[s.ptes[k].ppn := data])
  }

  /** A store reaches the private page of its own address space and nothing else. */
  lemma StoreIsPrivate(s: State, k: Key, data: Page)
    requires Inv(s) && k in s.ptes && s.ptes[k].w && |data| == PGSIZE
    ensures Inv(Store(s, k, data)) && Abs(Store(s, k, data)) == Abs(s)[k := data]
  {
    hide FreeList, Counted, InArea;
    var p, s' := s.ptes[k].ppn, Store(s, k, data);
    forall h | h in s.ptes && h != k
      ensures s.ptes[h].ppn != p
    {
      if s.ptes[h].ppn == p { TwoUsers(s, p, k, h); }
    }
    AreaIsPresent(s, k, s.ptes[k]);
    OnePageOfAbs(s, s', k, data);
  }

  // A write fault on a shared page: the entry moves to a copy of its page.
  lemma CopyKeeps(s: State, k: Key, e: Pte)
    requires Inv(s) && k in s.ptes && e.ppn in s.owned && InArea(s.tables, k, e)
    requires s.mem[e.ppn] == View(s, k)
    ensures 0 < s.refs[s.ptes[k].ppn]
    ensures var s' := Install(Drop(s, k), k, e);
            Inv(s') && Abs(s') == Abs(s)
  {
    hide FreeList, Counted, Exclusive, InAreas;
    var d := Drop(s, k);
    DropCounts(s, k);
    DropKeeps(s, k);
    InstallKeeps(d, k, e);
    AreaIsPresent(s, k, e);
    PutBack(Abs(s), k, ZERO);
  }

  lemma PutBack(m: Memory, k: Key, data: Page)
    requires k in m
    ensures m[k := data][k := m[k]] == m
  {
  }

  // There is room on the free list for a page that is in use.
  lemma RoomToFree(s: State, p: int)
    requires Shaped(s) && FreeList(s.first, s.refs, s.free) && Managed(s, p) && s.refs[p] != 0
    ensures |s.free| < |s.refs|
  {
    Pigeonhole(s.free + [p], |s.refs|);
  }

  // ---------- the simple model of private memories ----------

  predicate Within(k: Key, a: int, lo: int, hi: int) {
    k.space == a && InRange(lo, hi, k.Va())
  }

  ghost function MapZeros(m: Memory, a: int, lo: int, hi: int): Memory {
    imap k: Key | k in m || Within(k, a, lo, hi) :: if k in m then m[k] else ZERO
  }

  ghost function Zeroed(m: Memory, a: int, lo: int, hi: int): Memory {
    imap k: Key | k in m :: if Within(k, a, lo, hi) then ZERO else m[k]
  }

  ghost function Unmapped(m: Memory, a: int, lo: int, hi: int): Memory {
    imap k: Key | k in m && !Within(k, a, lo, hi) :: m[k]
  }

  // fork copies the whole memory of p to c.
  ghost function Forked(m: Memory, p: int, c: int): Memory {
    imap k: Key | if k.space == c then Key(p, k.vpn) in m else k in m ::
      if k.space == c then m[Key(p, k.vpn)] else m[k]
  }

  lemma WithinStep(a: int, lo: int, n: int)
    requires lo <= n * PGSIZE
    ensures forall k :: Within(k, a, lo, (n + 1) * PGSIZE) <==> Within(k, a, lo, n * PGSIZE) || k == Key(a, n)
  {
  }

  lemma ZeroedNone(m: Memory, a: int, lo: int)
    ensures Zeroed(m, a, lo, lo) == m && forall k :: !Within(k, a, lo, lo)
  {
  }

  lemma ZeroedStep(m: Memory, a: int, lo: int, n: int)
    requires lo <= n * PGSIZE
    ensures var z := Zeroed(m, a, lo, n * PGSIZE);
            Zeroed(m, a, lo, (n + 1) * PGSIZE) == if Key(a, n) in z then z[Key(a, n) := ZERO] else z
  {
    WithinStep(a, lo, n);
  }

  // A page without an entry reads as zeros already.
  lemma ZeroedHole(s: State, m: Memory, a: int, lo: int, n: int)
    requires Shaped(s) && lo <= n * PGSIZE && Key(a, n) !in s.ptes
    requires Abs(s) == Zeroed(m, a, lo, n * PGSIZE)
    ensures Abs(s) == Zeroed(m, a, lo, (n + 1) * PGSIZE)
  {
    ZeroedStep(m, a, lo, n);
    assert Key(a, n) in m ==> Abs(s)[Key(a, n)] == ZERO;
  }

  lemma UnmapZeroed(m: Memory, a: int, lo: int, hi: int)
    ensures Unmapped(Zeroed(m, a, lo, hi), a, lo, hi) == Unmapped(m, a, lo, hi)
  {
  }

  lemma MapNoZeros(m: Memory, a: int, at: int)
    ensures MapZeros(m, a, at, at) == m == Unmapped(m, a, at, at)
  {
  }

  // ---------- changes to the areas ----------

  ghost function WithTable(s: State, a: int, t: Table): State {
    s.(tables := s.tables[a := t])
  }

  lemma InAreaStays(s: State, a: int, t: Table, k: Key, i: nat)
    requires Inv(s) && a in s.tables && k in s.ptes && k.space == a
    requires CoveredBy(s.tables[a], i, k.Va()) && i < |t| && t[i].Some?
    requires InRange(t[i].value.Lo(), t[i].value.Hi(), k.Va())
    requires t[i].value.perm == s.tables[a][i].value.perm
    ensures InArea(s.tables[a := t], k, s.ptes[k])
  {
    var j :| CoveredBy(s.tables[a], j, k.Va()) && Grants(s.tables[a][j].value.perm, s.ptes[k]);
    OneAreaCovers(s.tables[a], i, j, k.Va());
    assert CoveredBy(t, i, k.Va());
  }

  lemma InAreaElsewhere(tables: map<int, Table>, a: int, t: Table, k: Key, e: Pte)
    requires InArea(tables, k, e) && k.space != a
    ensures InArea(tables[a := t], k, e)
  {
    var i :| CoveredBy(tables[k.space], i, k.Va()) && Grants(tables[k.space][i].value.perm, e);
    assert CoveredBy(tables[a := t][k.space], i, k.Va());
  }

  lemma TableChange(s: State, a: int, t: Table)
    requires Inv(s) && ValidTable(t)
    requires forall k :: k in s.ptes && k.space == a ==> InArea(s.tables[a := t], k, s.ptes[k])
    ensures Inv(WithTable(s, a, t))
  {
    hide FreeList, Counted, Exclusive, InArea;
    var s' := WithTable(s, a, t);
    forall k | k in s.ptes && k.space != a
      ensures InArea(s'.tables, k, s.ptes[k])
    {
      InAreaElsewhere(s.tables, a, t, k, s.ptes[k]);
    }
  }

  lemma NewSpaceKeeps(s: State, a: int, slots: nat)
    requires Inv(s) && a !in s.tables
    ensures var s' := WithTable(s, a, seq(slots, i => None));
            Inv(s') && Abs(s') == Abs(s)
  {
    hide FreeList, Counted, Exclusive, InAreas, Abs;
    EntriesArePresent(s);
    NewSpaceAbs(s, a, seq(slots, i => None));
    TableChange(s, a, seq(slots, i => None));
  }

  lemma NewSpaceAbs(s: State, a: int, t: Table)
    requires Shaped(s) && a !in s.tables && forall i :: 0 <= i < |t| ==> t[i].None?
    ensures Shaped(WithTable(s, a, t)) && Abs(WithTable(s, a, t)) == Abs(s) && ValidTable(t)
  {
    var s' := WithTable(s, a, t);
    forall k: Key
      ensures Present(s', k) <==> Present(s, k)
      ensures View(s', k) == View(s, k)
    {
    }
  }

  // uvm_map() and the growing heap: new pages read as zeros.
  lemma GainKeeps(s: State, a: int, t: Table, i: nat, lo: int, hi: int)
    requires Inv(s) && a in s.tables && ValidTable(t) && Gains(s.tables[a], t, lo, hi)
    requires |t| == |s.tables[a]| && i < |t| && t[i].Some?
    requires forall j :: 0 <= j < |t| && j != i ==> t[j] == s.tables[a][j]
    requires s.tables[a][i].Some? ==>
               && t[i].value.perm == s.tables[a][i].value.perm
               && t[i].value.Lo() <= s.tables[a][i].value.Lo()
               && s.tables[a][i].value.Hi() <= t[i].value.Hi()
    ensures var s' := WithTable(s, a, t);
            Inv(s') && Abs(s') == MapZeros(Abs(s), a, lo, hi)
  {
    forall k | k in s.ptes && k.space == a
      ensures InArea(s.tables[a := t], k, s.ptes[k])
    {
      assert InArea(s.tables, k, s.ptes[k]);
      var j :| CoveredBy(s.tables[a], j, k.Va());
      InAreaStays(s, a, t, k, j);
    }
    TableChange(s, a, t);
    EntriesArePresent(s);
    GainAbs(s, a, t, lo, hi);
  }

  lemma GainAbs(s: State, a: int, t: Table, lo: int, hi: int)
    requires Shaped(s) && a in s.tables && Gains(s.tables[a], t, lo, hi)
    requires forall k :: k in s.ptes ==> Present(s, k)
    ensures Abs(WithTable(s, a, t)) == MapZeros(Abs(s), a, lo, hi)
  {
    var s' := WithTable(s, a, t);
    forall k: Key
      ensures Present(s', k) <==> Present(s, k) || Within(k, a, lo, hi)
      ensures View(s', k) == View(s, k)
      ensures Within(k, a, lo, hi) ==> !Present(s, k)
    {
      if k.space == a { assert Covered(t, k.Va()) <==> Covered(s.tables[a], k.Va()) || InRange(lo, hi, k.Va()); }
    }
  }

  // The end of uvm_unmap(): the area is cut once its dropped pages have no entries.
  lemma LoseKeeps(s: State, a: int, i: nat, cut: Option<Vma>, lo: int, hi: int)
    requires Inv(s) && a in s.tables && i < |s.tables[a]| && s.tables[a][i].Some?
    requires var t := s.tables[a][i := cut];
             ValidTable(t) && Loses(s.tables[a], t, lo, hi)
    requires cut.Some? ==> cut.value.perm == s.tables[a][i].value.perm
    requires forall k :: k in s.ptes ==> !Within(k, a, lo, hi)
    ensures var s' := WithTable(s, a, s.tables[a][i := cut]);
            Inv(s') && Abs(s') == Unmapped(Abs(s), a, lo, hi)
  {
    var t := s.tables[a][i := cut];
    forall k | k in s.ptes && k.space == a
      ensures InArea(s.tables[a := t], k, s.ptes[k])
    {
      AreaIsPresent(s, k, s.ptes[k]);
      SameAreaCovers(s.tables[a], i, cut, k.Va());
      var j :| CoveredBy(t, j, k.Va());
      InAreaStays(s, a, t, k, j);
    }
    TableChange(s, a, t);
    LoseAbs(s, a, t, lo, hi);
  }

  lemma SameAreaCovers(t: Table, i: nat, cut: Option<Vma>, va: int)
    requires ValidTable(t) && i < |t| && ValidTable(t[i := cut])
    requires Covered(t, va) && Covered(t[i := cut], va)
    ensures forall j :: CoveredBy(t[i := cut], j, va) ==> CoveredBy(t, j, va)
  {
    var t' := t[i := cut];
    forall j | CoveredBy(t', j, va)
      ensures CoveredBy(t, j, va)
    {
      var h :| CoveredBy(t, h, va);
      if j == i && h != i {
        assert CoveredBy(t', h, va);
        OneAreaCovers(t', j, h, va);
      }
    }
  }

  lemma LoseAbs(s: State, a: int, t: Table, lo: int, hi: int)
    requires Shaped(s) && a in s.tables && Loses(s.tables[a], t, lo, hi)
    ensures Abs(WithTable(s, a, t)) == Unmapped(Abs(s), a, lo, hi)
  {
    var s' := WithTable(s, a, t);
    forall k: Key
      ensures Present(s', k) <==> Present(s, k) && !Within(k, a, lo, hi)
      ensures View(s', k) == View(s, k)
    {
      if k.space == a { assert Covered(t, k.Va()) <==> Covered(s.tables[a], k.Va()) && !InRange(lo, hi, k.Va()); }
    }
  }

  // ---------- fork ----------

  // The parent's pages in [lo, hi) appear in the child.
  ghost function Copied(m: Memory, p: int, c: int, lo: int, hi: int): Memory {
    imap k: Key | k in m ::
      if Within(k, c, lo, hi) && Key(p, k.vpn) in m then m[Key(p, k.vpn)] else m[k]
  }

  lemma CopiedStep(m: Memory, p: int, c: int, lo: int, n: int)
    requires lo <= n * PGSIZE && p != c && Key(c, n) in m && Key(p, n) in m
    ensures Copied(m, p, c, lo, (n + 1) * PGSIZE)
         == Copied(m, p, c, lo, n * PGSIZE)[Key(c, n) := m[Key(p, n)]]
  {
    WithinStep(c, lo, n);
  }

  lemma CopiedLeavesParent(s: State, m: Memory, p: int, c: int, lo: int, n: int)
    requires Shaped(s) && p != c && Key(p, n) in m && Abs(s) == Copied(m, p, c, lo, n * PGSIZE)
    ensures m[Key(p, n)] == View(s, Key(p, n))
  {
    assert Abs(s)[Key(p, n)] == m[Key(p, n)];
  }

  lemma CopiedNone(m: Memory, p: int, c: int, lo: int)
    ensures Copied(m, p, c, lo, lo) == m
  {
  }

  // Parent and child have the same area in slot i.
  ghost predicate TwinArea(tables: map<int, Table>, p: int, c: int, i: nat) {
    && p != c && p in tables && c in tables
    && i < |tables[p]| && i < |tables[c]| && tables[p][i].Some? && tables[c][i] == tables[p][i]
  }

  lemma TwinInArea(tables: map<int, Table>, p: int, c: int, i: nat, v: int, e: Pte)
    requires TwinArea(tables, p, c, i) && ValidTable(tables[p])
    requires InRange(tables[p][i].value.Lo(), tables[p][i].value.Hi(), v * PGSIZE)
    requires InArea(tables, Key(p, v), e)
    ensures InArea(tables, Key(c, v), e)
  {
    var j :| CoveredBy(tables[p], j, v * PGSIZE) && Grants(tables[p][j].value.perm, e);
    OneAreaCovers(tables[p], i, j, v * PGSIZE);
    assert CoveredBy(tables[c], i, v * PGSIZE) && Grants(tables[c][i].value.perm, e);
  }

  lemma TwinPresent(s: State, p: int, c: int, i: nat, v: int)
    requires Shaped(s) && TwinArea(s.tables, p, c, i)
    requires InRange(s.tables[p][i].value.Lo(), s.tables[p][i].value.Hi(), v * PGSIZE)
    ensures Key(p, v) in Abs(s) && Key(c, v) in Abs(s)
  {
    assert CoveredBy(s.tables[p], i, v * PGSIZE) && CoveredBy(s.tables[c], i, v * PGSIZE);
  }

  // The state of pgt_clone() before page n: [lo, n * PGSIZE) is shared, the rest is not.
  ghost predicate Cloning(s: State, m: Memory, p: int, c: int, i: nat, n: int) {
    && Inv(s) && TwinArea(s.tables, p, c, i)
    && var lo, hi := s.tables[p][i].value.Lo(), s.tables[p][i].value.Hi();
       && Abs(s) == Copied(m, p, c, lo, n * PGSIZE)
       && (forall v :: n <= v && InRange(lo, hi, v * PGSIZE) ==> Key(c, v) !in s.ptes)
       && (forall v :: InRange(lo, hi, v * PGSIZE) ==> Key(c, v) in m && Key(p, v) in m)
  }

  // Address space c has no entries in [lo, hi).
  ghost predicate NoEntries(ptes: map<Key, Pte>, c: int, lo: int, hi: int) {
    forall v :: InRange(lo, hi, v * PGSIZE) ==> Key(c, v) !in ptes
  }

  lemma StartCloning(s: State, m: Memory, p: int, c: int, i: nat, n: int)
    requires Inv(s) && TwinArea(s.tables, p, c, i) && m == Abs(s) && s.tables[p][i].value.Lo() == n * PGSIZE
    requires NoEntries(s.ptes, c, s.tables[p][i].value.Lo(), s.tables[p][i].value.Hi())
    ensures Cloning(s, m, p, c, i, n)
  {
    hide FreeList, Counted, Exclusive, InAreas, Abs, Copied;
    var lo, hi := s.tables[p][i].value.Lo(), s.tables[p][i].value.Hi();
    CopiedNone(m, p, c, lo);
    forall v | InRange(lo, hi, v * PGSIZE)
      ensures Key(c, v) in m && Key(p, v) in m
    {
      TwinPresent(s, p, c, i, v);
    }
  }

  // Page-table pages do not matter to the clone.
  lemma StillCloning(s: State, s': State, m: Memory, p: int, c: int, i: nat, n: int)
    requires Cloning(s, m, p, c, i, n) && Inv(s') && Abs(s') == Abs(s)
    requires s'.tables == s.tables && s'.ptes == s.ptes
    ensures Cloning(s', m, p, c, i, n)
  {
    hide FreeList, Counted, Exclusive, InAreas, Abs, Copied;
  }

  lemma CloningIsCopied(s: State, m: Memory, p: int, c: int, i: nat, n: int)
    requires Cloning(s, m, p, c, i, n) && s.tables[p][i].value.Hi() == n * PGSIZE
    ensures Abs(s) == Copied(m, p, c, s.tables[p][i].value.Lo(), s.tables[p][i].value.Hi())
  {
  }

  lemma CloneHole(s: State, m: Memory, p: int, c: int, i: nat, n: int)
    requires Cloning(s, m, p, c, i, n) && Key(p, n) !in s.ptes
    requires InRange(s.tables[p][i].value.Lo(), s.tables[p][i].value.Hi(), n * PGSIZE)
    ensures Cloning(s, m, p, c, i, n + 1)
  {
    hide FreeList, Counted, Exclusive, InAreas;
    var lo := s.tables[p][i].value.Lo();
    CopiedStep(m, p, c, lo, n);
    assert m[Key(p, n)] == Abs(s)[Key(p, n)] == ZERO;
    assert Abs(s)[Key(c, n)] == ZERO;
  }

  lemma ClonePage(s: State, m: Memory, p: int, c: int, i: nat, n: int)
    requires Cloning(s, m, p, c, i, n) && Key(p, n) in s.ptes
    requires InRange(s.tables[p][i].value.Lo(), s.tables[p][i].value.Hi(), n * PGSIZE)
    ensures InArea(s.tables, Key(c, n), s.ptes[Key(p, n)]) && Key(c, n) !in s.ptes
    ensures Cloning(Share(s, Key(p, n), Key(c, n)), m, p, c, i, n + 1)
  {
    hide FreeList, Counted, Exclusive, InArea, Abs, Copied;
    var lo, k, k' := s.tables[p][i].value.Lo(), Key(p, n), Key(c, n);
    TwinInArea(s.tables, p, c, i, n, s.ptes[k]);
    ShareKeeps(s, k, k');
    CopiedStep(m, p, c, lo, n);
    CopiedLeavesParent(s, m, p, c, lo, n);
  }

  // The memory once the first i areas of the parent's table t have been cloned.
  ghost function ForkedUpTo(m: Memory, p: int, c: int, t: Table, i: nat): Memory
    requires i <= |t|
  {
    imap k: Key | if k.space == c then Covered(t[..i], k.Va()) && Key(p, k.vpn) in m else k in m ::
      if k.space == c then m[Key(p, k.vpn)] else m[k]
  }

  // The child's table at that point: the parent's areas, then null pointers.
  function ChildTable(t: Table, i: nat): Table
    requires i <= |t|
  {
    t[..i] + seq(|t| - i, j => None)
  }

  lemma ChildTableCovers(t: Table, i: nat)
    requires i <= |t|
    ensures forall a :: Covered(ChildTable(t, i), a) <==> Covered(t[..i], a)
  {
    forall a
      ensures Covered(ChildTable(t, i), a) <==> Covered(t[..i], a)
    {
      if Covered(t[..i], a) {
        var j :| CoveredBy(t[..i], j, a);
        assert CoveredBy(ChildTable(t, i), j, a);
      }
      if Covered(ChildTable(t, i), a) {
        var j :| CoveredBy(ChildTable(t, i), j, a);
        assert CoveredBy(t[..i], j, a);
      }
    }
  }

  lemma NextArea(t: Table, i: nat)
    requires ValidTable(t) && i < |t| && t[i].Some? && ValidTable(ChildTable(t, i))
    ensures ChildTable(t, i)[i := t[i]] == ChildTable(t, i + 1)
    ensures ValidTable(ChildTable(t, i + 1))
    ensures Gains(ChildTable(t, i), ChildTable(t, i + 1), t[i].value.Lo(), t[i].value.Hi())
  {
    var u, v := ChildTable(t, i), t[i].value;
    assert u[i := t[i]] == ChildTable(t, i + 1);
    assert RangeFree(u, v.start, v.length) by {
      forall j | 0 <= j < |u| && u[j].Some?
        ensures !Overlap(v.Lo(), v.Hi(), u[j].value.Lo(), u[j].value.Hi())
      {
        assert u[j] == t[j];
      }
    }
    MapGains(u, i, v);
  }

  lemma NoArea(t: Table, i: nat)
    requires i < |t| && t[i].None?
    ensures ChildTable(t, i) == ChildTable(t, i + 1)
  {
  }

  lemma ForkedUpToStep(m: Memory, p: int, c: int, t: Table, i: nat)
    requires p != c && i < |t| && t[i].Some?
    requires ParentPages(m, p, t)
    requires Gains(ChildTable(t, i), ChildTable(t, i + 1), t[i].value.Lo(), t[i].value.Hi())
    ensures var lo, hi := t[i].value.Lo(), t[i].value.Hi();
            var z := MapZeros(ForkedUpTo(m, p, c, t, i), c, lo, hi);
            Copied(z, p, c, lo, hi) == ForkedUpTo(m, p, c, t, i + 1)
  {
    ChildTableCovers(t, i);
    ChildTableCovers(t, i + 1);
    var lo, hi := t[i].value.Lo(), t[i].value.Hi();
    forall a | InRange(lo, hi, a)
      ensures Covered(t, a)
    {
      assert CoveredBy(t, i, a);
    }
  }

  // What the parent's pages in m are.
  ghost predicate ParentPages(m: Memory, p: int, t: Table) {
    forall v :: Key(p, v) in m <==> Covered(t, v * PGSIZE)
  }

  lemma PagesOfParent(s: State, p: int)
    requires Shaped(s) && p in s.tables
    ensures ParentPages(Abs(s), p, s.tables[p])
  {
  }

  lemma ForkedUpToSkip(m: Memory, p: int, c: int, t: Table, i: nat)
    requires i < |t| && t[i].None?
    ensures ForkedUpTo(m, p, c, t, i + 1) == ForkedUpTo(m, p, c, t, i)
  {
    NoArea(t, i);
    ChildTableCovers(t, i);
    ChildTableCovers(t, i + 1);
  }

  // A new area of the child has no entries yet.
  lemma NewAreaIsEmpty(s: State, c: int, t: Table, i: nat)
    requires Inv(s) && c in s.tables && i < |t| && s.tables[c] == ChildTable(t, i) && t[i].Some?
    requires Gains(ChildTable(t, i), ChildTable(t, i + 1), t[i].value.Lo(), t[i].value.Hi())
    ensures NoEntries(s.ptes, c, t[i].value.Lo(), t[i].value.Hi())
  {
    hide FreeList, Counted, Exclusive;
    EntriesArePresent(s);
    forall v | InRange(t[i].value.Lo(), t[i].value.Hi(), v * PGSIZE)
      ensures Key(c, v) !in s.ptes
    {
      assert !Covered(s.tables[c], v * PGSIZE);
    }
  }

  lemma ForkedUpToAll(s: State, p: int, c: int)
    requires Shaped(s) && p != c && p in s.tables && c in s.tables
    ensures ForkedUpTo(Abs(s), p, c, s.tables[p], |s.tables[p]|) == Forked(Abs(s), p, c)
  {
    assert s.tables[p][..|s.tables[p]|] == s.tables[p];
  }

  lemma ForkedUpToNone(s: State, p: int, c: int, t: Table)
    requires Shaped(s) && c in s.tables && s.tables[c] == ChildTable(t, 0)
    ensures ForkedUpTo(Abs(s), p, c, t, 0) == Abs(s)
  {
    ChildTableCovers(t, 0);
  }

  // ---------- bytes ----------

  // The bytes src laid over the page at address base, from address dst on.
  function WritePage(page: Page, base: int, dst: int, src: seq<int>): (r: Page)
    ensures |r| == |page|
  {
    seq(|page|, i requires 0 <= i < |page| =>
      if dst <= base + i < dst + |src| then src[base + i - dst] else page[i])
  }

  // Address space a with the bytes src at address dst.
  ghost function Spliced(m: Memory, a: int, dst: int, src: seq<int>): Memory {
    imap k: Key | k in m :: if k.space == a then WritePage(m[k], k.Va(), dst, src) else m[k]
  }

  lemma SplicedNothing(m: Memory, a: int, dst: int)
    ensures Spliced(m, a, dst, []) == m
  {
    forall k | k in m
      ensures WritePage(m[k], k.Va(), dst, []) == m[k]
    {
    }
  }

  lemma SplicedKeys(m: Memory, a: int, dst: int, src: seq<int>)
    ensures Spliced(m, a, dst, src).Keys == m.Keys
  {
  }

  // Writing the next chunk, which lies in page v.
  lemma SplicedStep(m: Memory, a: int, dst: int, src: seq<int>, from: nat, to: nat, v: int)
    requires from <= to <= |src| && Key(a, v) in m && |m[Key(a, v)]| == PGSIZE
    requires v * PGSIZE <= dst + from && dst + to <= v * PGSIZE + PGSIZE
    requires forall k :: k in m ==> |m[k]| == PGSIZE
    ensures var z := Spliced(m, a, dst, src[..from]);
            var k := Key(a, v);
            Spliced(m, a, dst, src[..to]) == z[k := WritePage(z[k], k.Va(), dst + from, src[from..to])]
  {
    var z := Spliced(m, a, dst, src[..from]);
    forall k | k in m && k.space == a
      ensures WritePage(m[k], k.Va(), dst, src[..to])
           == if k == Key(a, v) then WritePage(z[k], k.Va(), dst + from, src[from..to]) else z[k]
    {
      if k != Key(a, v) { assert k.vpn < v || v < k.vpn; }
    }
  }

  // data is what address space a holds from address src on.
  ghost predicate Reads(m: Memory, a: int, src: nat, data: seq<int>) {
    forall i :: 0 <= i < |data| ==> ByteAt(m, a, src + i, data[i])
  }

  ghost predicate ByteAt(m: Memory, a: int, x: nat, b: int) {
    var k := Key(a, x / PGSIZE);
    k in m && x % PGSIZE < |m[k]| && m[k][x % PGSIZE] == b
  }

  lemma ReadsNothing(m: Memory, a: int, src: nat)
    ensures Reads(m, a, src, [])
  {
  }

  lemma ReadsChunk(m: Memory, a: int, src: nat, data: seq<int>, v: nat, page: Page, off: nat, n: nat)
    requires Reads(m, a, src, data) && Key(a, v) in m && m[Key(a, v)] == page && |page| == PGSIZE
    requires src + |data| == v * PGSIZE + off && off + n <= PGSIZE
    ensures Reads(m, a, src, data + page[off..off + n])
  {
    var all := data + page[off..off + n];
    forall i | |data| <= i < |all|
      ensures ByteAt(m, a, src + i, all[i])
    {
      var j := off + i - |data|;
      assert src + i == v * PGSIZE + j && 0 <= j < PGSIZE;
      assert (src + i) / PGSIZE == v && (src + i) % PGSIZE == j;
    }
  }

  lemma EntryInAbs(s: State, k: Key)
    requires Shaped(s) && InAreas(s.tables, s.ptes) && k in s.ptes
    ensures k in Abs(s) && Abs(s)[k] == s.mem[s.ptes[k].ppn] && |Abs(s)[k]| == PGSIZE
  {
    AreaIsPresent(s, k, s.ptes[k]);
  }

  lemma PagesAreFull(s: State)
    requires Shaped(s)
    ensures forall k :: k in Abs(s) ==> |Abs(s)[k]| == PGSIZE && Abs(s)[k] == View(s, k)
  {
  }
}
