/**
 The code of kernel/kalloc.c, of the range operations in kernel/pagetable.c and of
 kernel/uvm.c for private anonymous memory.  Every method keeps the page invariant and
 changes the private memories exactly as the simple model says.
 */
module UvmCode {
  import opened Options
  import opened Seqs
  import opened VmaTable
  import opened CowModel
  import opened UvmSpec
  import opened UvmLaws
  import opened UvmBytes

  predicate Has(e: Pte, acc: Access) {
    match acc
    case Read => e.r
    case Write => e.w
    case Exec => e.x
  }

  // The outcome of uvm_completemap(): a page number, 0, or panic("invalid pagefault").
  datatype FaultResult = Fixed(ppn: int) | Failed | InvalidFault

  // The checks of uvm_completemap() that do not depend on free memory.
  predicate CanComplete(tables: map<int, Table>, ptes: map<Key, Pte>, a: int, va: Word, acc: Access)
  {
    && Aligned(va) && Must(tables, PageOf(a, va), acc)
    && (PageOf(a, va) in ptes ==> ptes[PageOf(a, va)].u)
  }

  // What copyin() and copyout() find out about a page.
  datatype PageResult = Ready | Denied | Starved

  // uvm_dup() succeeds, finds no memory, or panics in pgt_clone().
  datatype DupResult = DupDone | DupShort | DupPanic

  class Vm {
    const first: nat
    const refs: array<int>
    const freelist: array<int>
    const mem: array<Page>
    var numfree: nat
    var ptes: map<Key, Pte>
    var tables: map<int, Table>
    // Pages handed out by kalloc() and not mapped by a leaf entry.
    ghost var owned: set<int>

    ghost predicate Shape()
      reads this
    {
      && refs != freelist && refs.Length == freelist.Length == mem.Length
      && first <= refs.Length && numfree <= freelist.Length
    }

    ghost function S(): State
      requires Shape()
      reads this, refs, freelist, mem
    {
      State(first, refs[..], freelist[..numfree], mem[..], owned, ptes, tables)
    }

    ghost predicate Valid()
      reads this, refs, freelist, mem
    {
      Shape() && Inv(S())
    }

    // ---------- kalloc.c ----------

    method KRelease(p: nat)
      requires Shape() && p < refs.Length && numfree < freelist.Length
      modifies this`numfree, freelist, mem
      ensures Shape() && numfree == old(numfree) + 1
      ensures S() == old(S()).(mem := old(mem[..])[p := Filled(1)], free := old(S().free) + [p])
    {
      mem[p] := Filled(1);
      freelist[numfree] := p;
      numfree := numfree + 1;
    }

    // kinit(): every page from first on is free.
    constructor (first: nat, npages: nat)
      requires first <= npages
      ensures this.first == first && refs.Length == npages && fresh(refs) && fresh(freelist) && fresh(mem)
      ensures Valid() && numfree == npages - first && ptes == map[] && tables == map[]
    {
      this.first := first;
      refs := new int[npages](i => 0);
      freelist := new int[npages](i => 0);
      mem := new Page[npages](i => ZERO);
      numfree, ptes, tables, owned := 0, map[], map[], {};
      new;
      var p := first;
      while p < npages
        invariant first <= p <= npages && numfree == p - first && Shape()
        invariant ptes == map[] && tables == map[] && owned == {}
        invariant forall i :: 0 <= i < npages ==> refs[i] == 0 && |mem[i]| == PGSIZE
        invariant forall i :: 0 <= i < numfree ==> freelist[i] == first + i
      {
        KRelease(p);
        p := p + 1;
      }
      assert InitialState(S());
      InitialInv(S());
    }

    method KAlloc() returns (r: Option<nat>)
      requires Valid()
      modifies this`numfree, this`owned, refs, mem
      ensures Valid()
      ensures if r.Some? then old(numfree) > 0 && r.value == old(freelist[numfree - 1])
                              && S() == Alloc(old(S()))
              else old(numfree) == 0 && S() == old(S())
      ensures Abs(S()) == old(Abs(S()))
      ensures r.Some? ==> r.value in owned && numfree == old(numfree) - 1
    {
      hide FreeList, Counted, Exclusive, InAreas;
      if numfree == 0 { return None; }
      AllocKeeps(S());
      ghost var s' := Alloc(S());
      numfree := numfree - 1;
      var index := freelist[numfree];
      refs[index] := 1;
      mem[index] := Filled(5);
      owned := owned + {index};
      assert S() == s';
      return Some(index);
    }

    method KFree(p: nat)
      requires Shape() && p < refs.Length && 0 < refs[p] && numfree < freelist.Length
      modifies this`numfree, refs, freelist, mem
      ensures Shape() && S() == Freed(old(S()), p) && old(numfree) <= numfree
    {
      refs[p] := refs[p] - 1;
      if refs[p] < 0 {
        assert false;
      }
      if refs[p] == 0 {
        KRelease(p);
      }
    }

    method KIncRef(p: nat)
      requires Shape() && p < refs.Length
      modifies refs
      ensures S() == old(S()).(refs := old(refs[..])[p := old(refs[p]) + 1])
    {
      refs[p] := refs[p] + 1;
    }

    // ---------- pagetable.c ----------

    // pgt_walk() with alloc set, when `need` page-table pages are missing on the path.
    method WalkAlloc(need: nat) returns (ok: bool)
      requires Valid()
      modifies this`numfree, this`owned, refs, mem
      ensures Valid() && Abs(S()) == old(Abs(S())) && old(owned) <= owned
      ensures ok <==> need <= old(numfree)
      ensures numfree == if ok then old(numfree) - need else 0
    {
      hide FreeList, Counted, Exclusive, InAreas;
      var i := 0;
      while i < need
        invariant 0 <= i <= need && i <= old(numfree)
        invariant Valid() && Abs(S()) == old(Abs(S())) && old(owned) <= owned
        invariant numfree == old(numfree) - i
      {
        var p := KAlloc();
        if p.None? { return false; }
        FillPage(p.value, ZERO);
        i := i + 1;
      }
      return true;
    }

    method FillPage(p: nat, data: Page)
      requires Valid() && p in owned && |data| == PGSIZE
      modifies mem
      ensures Valid() && S() == Fill(old(S()), p, data) && Abs(S()) == old(Abs(S()))
    {
      hide FreeList, Counted, Exclusive, InAreas;
      FillKeeps(S(), p, data);
      ghost var s' := Fill(S(), p, data);
      mem[p] := data;
      assert S() == s';
    }

    // pgt_unmap_impl() with dealloc set.
    method DeallocUnmap(a: int, lo: Word, hi: Word)
      requires Valid() && Aligned(lo) && Aligned(hi) && lo <= hi <= MAXVA
      modifies this`numfree, this`ptes, refs, freelist, mem
      ensures Valid() && Abs(S()) == Zeroed(old(Abs(S())), a, lo, hi)
      ensures forall k :: k in ptes <==> k in old(ptes) && !Within(k, a, lo, hi)
      ensures forall k :: k in ptes ==> ptes[k] == old(ptes)[k]
      ensures old(numfree) <= numfree
    {
      hide FreeList, Counted, Exclusive, InAreas, Abs, Zeroed, Within;
      ghost var m := Abs(S());
      ZeroedNone(m, a, lo);
      var n := lo / PGSIZE;
      while n < hi / PGSIZE
        invariant lo <= n * PGSIZE <= hi && Valid() && old(numfree) <= numfree
        invariant Abs(S()) == Zeroed(m, a, lo, n * PGSIZE)
        invariant forall k :: k in ptes <==> k in old(ptes) && !Within(k, a, lo, n * PGSIZE)
        invariant forall k :: k in ptes ==> ptes[k] == old(ptes)[k]
      {
        WithinStep(a, lo, n);
        ZeroedStep(m, a, lo, n);
        if Key(a, n) in ptes {
          DropEntry(Key(a, n));
        } else {
          ZeroedHole(S(), m, a, lo, n);
        }
        n := n + 1;
      }
    }

    // One turn of that loop: the page loses a reference and the entry is cleared.
    method DropEntry(k: Key)
      requires Valid() && k in ptes
      modifies this`numfree, this`ptes, refs, freelist, mem
      ensures Valid() && ptes == old(ptes) - {k} && Abs(S()) == old(Abs(S()))[k := ZERO]
      ensures k in old(Abs(S())) && old(numfree) <= numfree
    {
      hide FreeList, Counted, Exclusive;
      ghost var s := S();
      DropKeeps(s, k);
      RoomToFree(s, ptes[k].ppn);
      AreaIsPresent(s, k, ptes[k]);
      KFree(ptes[k].ppn);
      ptes := ptes - {k};
      assert S() == Drop(s, k);
    }

    // One turn of pgt_clone().
    method ShareEntry(k: Key, k': Key)
      requires Valid() && k in ptes && k' !in ptes && InArea(tables, k', ptes[k])
      modifies this`ptes, refs
      ensures Valid() && S() == Share(old(S()), k, k')
      ensures Abs(S()) == old(Abs(S()))[k' := old(View(S(), k))]
    {
      hide FreeList, Counted, Exclusive, InAreas, Abs, View;
      ghost var s := S();
      ShareKeeps(s, k, k');
      var e := ptes[k].(w := false);
      ptes := ptes[k := e][k' := e];
      KIncRef(e.ppn);
    }

    // ---------- uvm.c: faults ----------

    method CompleteMap(a: int, va: Word, acc: Access, need: nat) returns (r: FaultResult)
      requires Valid() && a in tables
      modifies this, refs, freelist, mem
      ensures Valid() && tables == old(tables) && Abs(S()) == old(Abs(S()))
      ensures forall k :: k != PageOf(a, va) ==> SameEntry(ptes, old(ptes), k)
      ensures r.Fixed? ==> PageOf(a, va) in ptes && ptes[PageOf(a, va)].ppn == r.ppn && Has(ptes[PageOf(a, va)], acc)
      ensures !r.Fixed? ==> ptes == old(ptes)
      ensures !old(CanComplete(tables, ptes, a, va, acc)) ==> r.Failed?
      ensures r.Failed? && old(CanComplete(tables, ptes, a, va, acc)) ==>
                old(numfree) <= need && numfree == 0 && NeedsPage(S(), PageOf(a, va), acc)
      ensures old(numfree) <= numfree + need + 1
      ensures UserEntries(old(ptes)) ==> UserEntries(ptes)
      // The panic needs an entry that already grants the access.
      ensures r.InvalidFault? ==> PageOf(a, va) in old(ptes) && Has(old(ptes)[PageOf(a, va)], acc)
    {
      hide FreeList, Counted, Exclusive, InAreas, Abs;
      if !Aligned(va) || va >= MAXVA { return Failed; }
      var i := Va2Vma(tables[a], va);
      if i.None? || !Allows(tables[a][i.value].value.perm, acc) { return Failed; }
      var perm := tables[a][i.value].value.perm;
      var k := PageOf(a, va);
      assert k.Va() == va;
      FaultArea(S(), k, i.value);
      if k !in ptes {
        r := FillFault(k, Pte(0, perm.r, perm.w, perm.x, true), need);
      } else if !ptes[k].u {
        return Failed;
      } else if acc == Write {
        r := WriteFault(k);
      } else {
        return InvalidFault;
      }
    }

    // The page was never touched: map a new page of zeros.
    method FillFault(k: Key, e: Pte, need: nat) returns (r: FaultResult)
      requires Valid() && k !in ptes && InArea(tables, k, e)
      modifies this`numfree, this`owned, this`ptes, refs, mem
      ensures Valid() && Abs(S()) == old(Abs(S()))
      ensures if r.Fixed? then ptes == old(ptes)[k := e.(ppn := r.ppn)]
              else r.Failed? && ptes == old(ptes) && old(numfree) <= need && numfree == 0
      ensures old(numfree) <= numfree + need + 1
    {
      hide FreeList, Counted, Exclusive, InAreas, Abs, InArea;
      var walked := WalkAlloc(need);
      if !walked { return Failed; }
      var pa := KAlloc();
      if pa.None? { return Failed; }
      FillPage(pa.value, ZERO);
      var entry := e.(ppn := pa.value);
      SameArea(tables, k, e, entry);
      HoleIsZero(S(), k, entry);
      InstallEntry(k, entry);
      return Fixed(pa.value);
    }

    method InstallEntry(k: Key, e: Pte)
      requires Valid() && k !in ptes && e.ppn in owned && InArea(tables, k, e)
      modifies this`owned, this`ptes
      ensures Valid() && ptes == old(ptes)[k := e] && Abs(S()) == old(Abs(S()))[k := old(mem[e.ppn])]
    {
      hide FreeList, Counted, Exclusive, InAreas, Abs, InArea;
      ghost var s := S();
      InstallKeeps(s, k, e);
      ptes := ptes[k := e];
      owned := owned - {e.ppn};
      assert S() == Install(s, k, e);
    }

    // The page is mapped without PTE_W: take it over, or move to a copy.
    method WriteFault(k: Key) returns (r: FaultResult)
      requires Valid() && k in ptes && InArea(tables, k, ptes[k].(w := true))
      modifies this`numfree, this`owned, this`ptes, refs, freelist, mem
      ensures Valid() && Abs(S()) == old(Abs(S()))
      ensures if r.Fixed? then ptes == old(ptes)[k := old(ptes)[k].(ppn := r.ppn, w := true)]
              else r.Failed? && S() == old(S()) && numfree == 0 && refs[ptes[k].ppn] != 1
      ensures old(numfree) <= numfree + 1
    {
      hide FreeList, Counted, Exclusive, InAreas, Abs;
      var pa := ptes[k].ppn;
      if refs[pa] == 1 {
        SetWritableKeeps(S(), k);
        ghost var s' := SetWritable(S(), k);
        ptes := ptes[k := ptes[k].(w := true)];
        assert S() == s';
        return Fixed(pa);
      }
      var copy := KAlloc();
      if copy.None? { return Failed; }
      FillPage(copy.value, mem[pa]);
      ghost var s := S();
      var entry := ptes[k].(ppn := copy.value, w := true);
      SameArea(tables, k, ptes[k].(w := true), entry);
      CopyKeeps(s, k, entry);
      RoomToFree(s, pa);
      MoveEntry(s, k, entry);
      ptes := ptes[k := entry];
      owned := owned - {copy.value};
      assert S() == s.(ptes := s.ptes[k := entry], owned := s.owned - {copy.value});
      KFree(pa);
      return Fixed(copy.value);
    }

    // ---------- uvm.c: areas ----------

    // uvm_map() of private anonymous memory; `pool` says whether the global table of areas
    // has an unused one.
    method MapArea(a: int, addr: Word, length: Word, perm: Perm, pool: bool) returns (ok: bool)
      requires Valid() && a in tables
      modifies this`tables
      ensures Shape() && Shaped(S()) && ptes == old(ptes) && (Valid() <==> !ok || Vma(addr, length, perm).Sound())
      ensures ok <==> CanMap(old(tables), a, addr, length, pool)
      ensures ModelOf(S()) == if ok then Mapped(old(ModelOf(S())), a, Vma(addr, length, perm))
                              else old(ModelOf(S()))
    {
      hide FreeList, Counted, Exclusive, InAreas, Abs, MapZeros, RangeFree;
      var free := IsRangeFree(tables[a], addr, length);
      if !free { return false; }
      var slot := FirstNull(tables[a]);
      if slot.None? || !pool { return false; }
      var area := Vma(addr, length, perm);
      ghost var s := S();
      MapKeeps(s, a, slot.value, area);
      ghost var t := s.tables[a][slot.value := Some(area)];
      tables := tables[a := tables[a][slot.value := Some(area)]];
      assert S() == WithTable(s, a, t);
      return true;
    }

    // uvm_unmap(); false is one of its panics.
    method UnmapArea(a: int, addr: Word, length: Word) returns (ok: bool)
      requires Valid() && a in tables
      modifies this`numfree, this`ptes, this`tables, refs, freelist, mem
      ensures Valid() && (UserEntries(old(ptes)) ==> UserEntries(ptes)) && old(numfree) <= numfree
      ensures ok <==> CanCut(old(tables)[a], addr, length)
      ensures if ok then ModelOf(S()) == AfterCut(old(ModelOf(S())), a, addr, length) else S() == old(S())
    {
      hide FreeList, Counted, Exclusive, Abs, Unmapped, Zeroed, Within, Loses;
      var i := Va2Vma(tables[a], addr);
      if i.None? { return false; }
      var v := tables[a][i.value].value;
      if addr != v.start && Add(addr, length) != v.End() { return false; }
      var cut := Unmap(v, addr, length);
      if cut.hi > MAXVA || cut.hi < cut.lo { return false; }
      UnmapCuts(v, addr, length);
      UnmapLoses(tables[a], i.value, addr, length);
      DeallocUnmap(a, cut.lo, cut.hi);
      ghost var s := S();
      WithinPart(a, cut.lo, Lost(v, cut), cut.hi);
      LoseKeeps(s, a, i.value, cut.area, cut.lo, Lost(v, cut));
      tables := tables[a := tables[a][i.value := cut.area]];
      assert S() == WithTable(s, a, s.tables[a][i.value := cut.area]);
      return true;
    }

    // sys_sbrk() and uvm_growheap(), with the heap in slot h.
    method GrowHeapArea(a: int, h: nat, n: Int) returns (o: Outcome)
      requires Valid() && a in tables
      modifies this`numfree, this`ptes, this`tables, refs, freelist, mem
      ensures Valid() && (UserEntries(old(ptes)) ==> UserEntries(ptes)) && old(numfree) <= numfree
      ensures GrowOk(old(ModelOf(S())), a, h, n, o, ModelOf(S())) && !o.NoMemory?
    {
      hide FreeList, Counted, Exclusive, Abs, MapZeros, Unmapped, Zeroed, Gains, Down, Up, Aligned;
      if h >= |tables[a]| || tables[a][h].None? { return Panicked; }
      ghost var s := S();
      var g := GrowHeap(tables[a], h, n);
      match g
      case NoRoom =>
        return Refused(0);
      case Unchanged =>
        return Ok;
      case Larger(t) =>
        LongerEnds(s.tables[a][h].value, n);
        GrowGains(s.tables[a], h, n);
        GainKeeps(s, a, t, h, Max(s.tables[a][h].value.Lo(), s.tables[a][h].value.Hi()), t[h].value.Hi());
        tables := tables[a := t];
        assert S() == WithTable(s, a, t);
        return Ok;
      case Smaller(addr, length) =>
        var ok := UnmapArea(a, addr, length);
        return if ok then Ok else Panicked;
    }

    // ---------- uvm.c: fork ----------

    // Page n of pgt_clone(), false when there is no memory for its page-table pages.
    method CloneTurn(p: int, c: int, i: nat, n: nat, ghost m: Memory, need: nat) returns (ok: bool)
      requires Valid() && Cloning(S(), m, p, c, i, n)
      requires InRange(tables[p][i].value.Lo(), tables[p][i].value.Hi(), n * PGSIZE)
      modifies this`numfree, this`owned, this`ptes, refs, mem
      ensures Valid()
      ensures if ok then Cloning(S(), m, p, c, i, n + 1) && old(numfree) - need <= numfree
              else old(numfree) < need
      ensures ptes == if ok then OneProtected(old(ptes), Key(p, n), Key(c, n)) else old(ptes)
    {
      hide FreeList, Counted, Exclusive, InAreas, Abs, InArea, Cloning;
      ghost var s := S();
      if Key(p, n) !in ptes {
        CloneHole(s, m, p, c, i, n);
        return true;
      }
      ok := WalkAlloc(need);
      if ok {
        StillCloning(s, S(), m, p, c, i, n);
        ClonePage(S(), m, p, c, i, n);
        ShareEntry(Key(p, n), Key(c, n));
      }
    }

    // pgt_clone() of the area in slot i: both processes have its pages, neither may write them;
    // need(j, i, n) page-table pages are missing at page n.
    method PgtClone(p: int, c: int, i: nat, need: (nat, nat, int) -> nat, j: nat) returns (ok: bool)
      requires Valid() && TwinArea(tables, p, c, i)
      requires tables[p][i].value.Lo() <= tables[p][i].value.Hi() <= MAXVA
      requires NoEntries(ptes, c, tables[p][i].value.Lo(), tables[p][i].value.Hi())
      modifies this`numfree, this`owned, this`ptes, refs, freelist, mem
      ensures Valid() && (UserEntries(old(ptes)) ==> UserEntries(ptes))
      ensures var lo, hi := tables[p][i].value.Lo(), tables[p][i].value.Hi();
              if ok then
                && Abs(S()) == Copied(old(Abs(S())), p, c, lo, hi)
                && Protected(old(ptes), ptes, p, c, lo, hi)
                && old(numfree) - AreaFor(need, j, tables[p], i) <= numfree
              else old(numfree) < AreaFor(need, j, tables[p], i)
    {
      hide FreeList, Counted, Exclusive, InAreas, Abs, Copied, InArea, Cloning, NoEntries, Within;
      hide Protected, OneProtected, UserEntries, PagesFor, Down, Up;
      var lo, hi := tables[p][i].value.Lo(), tables[p][i].value.Hi();
      ghost var first, all := lo / PGSIZE, hi / PGSIZE - lo / PGSIZE;
      assert lo == first * PGSIZE && hi == (first + all) * PGSIZE;
      ghost var m := Abs(S());
      var n := lo / PGSIZE;
      StartCloning(S(), m, p, c, i, n);
      ProtectedNone(ptes, p, c, lo);
      while n < hi / PGSIZE
        invariant lo <= n * PGSIZE <= hi && Valid() && tables == old(tables)
        invariant Cloning(S(), m, p, c, i, n) && Protected(old(ptes), ptes, p, c, lo, n * PGSIZE)
        invariant old(numfree) - PagesFor(need, j, i, first, n - first) <= numfree
      {
        ProtectedStep(old(ptes), ptes, p, c, lo, hi, n);
        PagesForMore(need, j, i, first, n - first, all);
        ok := CloneTurn(p, c, i, n, m, need(j, i, n));
        if !ok {
          ProtectedUser(old(ptes), ptes, p, c, lo, n * PGSIZE);
          FewerUser(ptes);
          DeallocUnmap(c, lo, n * PGSIZE);
          return;
        }
        n := n + 1;
      }
      ProtectedUser(old(ptes), ptes, p, c, lo, hi);
      CloningIsCopied(S(), m, p, c, i, n);
      return true;
    }

    // One turn of uvm_dup(): the child gets the area in slot i and shares its pages.
    method CloneArea(p: int, c: int, i: nat, ghost t: Table, ghost m: Memory,
                     need: (nat, nat, int) -> nat, j: nat) returns (ok: bool)
      requires Valid() && p != c && p in tables && c in tables && tables[p] == t
      requires i < |t| && t[i].Some? && t[i].value.Lo() <= t[i].value.Hi() <= MAXVA
      requires tables[c] == ChildTable(t, i)
      requires Abs(S()) == ForkedUpTo(m, p, c, t, i) && ParentPages(m, p, t)
      modifies this, refs, freelist, mem
      ensures Valid() && (UserEntries(old(ptes)) ==> UserEntries(ptes))
      ensures if ok then
                && tables == old(tables)[c := ChildTable(t, i + 1)]
                && Abs(S()) == ForkedUpTo(m, p, c, t, i + 1)
                && old(numfree) - AreaFor(need, j, t, i) <= numfree
              else old(numfree) < AreaFor(need, j, t, i)
    {
      hide FreeList, Counted, Exclusive, Abs, Copied, MapZeros, ForkedUpTo, Gains, ParentPages, NoEntries;
      hide Protected, UserEntries, AreaFor;
      ghost var s := S();
      NextArea(t, i);
      GainKeeps(s, c, ChildTable(t, i + 1), i, t[i].value.Lo(), t[i].value.Hi());
      NewAreaIsEmpty(s, c, t, i);
      ForkedUpToStep(m, p, c, t, i);
      tables := tables[c := tables[c][i := tables[p][i]]];
      assert S() == WithTable(s, c, ChildTable(t, i + 1));
      ok := PgtClone(p, c, i, need, j);
    }

    // uvm_dup() up to where it starts to clean up; `unused` areas are left in the global table.
    method Dup(p: int, c: int, unused: nat, need: (nat, nat, int) -> nat, j: nat) returns (r: DupResult)
      requires Valid() && Forkable(tables, p, c)
      modifies this, refs, freelist, mem
      ensures Valid() && (UserEntries(old(ptes)) ==> UserEntries(ptes))
      ensures r == DupDone ==>
                && Clonable(old(tables)[p])
                && ModelOf(S()) == Model(Forked(old(Abs(S())), p, c), old(tables)[c := old(tables)[p]])
                && old(numfree) <= numfree + TablesFor(need, j, old(tables)[p], |old(tables)[p]|)
      ensures r == DupPanic ==> !Clonable(old(tables)[p])
      ensures r == DupShort ==>
                || old(numfree) < TablesFor(need, j, old(tables)[p], |old(tables)[p]|)
                || unused < Areas(old(tables)[p])
    {
      hide FreeList, Counted, Exclusive, InAreas, Abs, ForkedUpTo, Forked, ParentPages, UserEntries, AreaFor;
      hide TablesFor, Areas;
      ghost var m := Abs(S());
      var t := tables[p];
      PagesOfParent(S(), p);
      ForkedUpToNone(S(), p, c, t);
      ForkedUpToAll(S(), p, c);
      NothingFor(need, j, t);
      var i, left := 0, unused;
      while i < |t|
        invariant 0 <= i <= |t| && Valid() && p in tables && tables == old(tables)[c := ChildTable(t, i)]
        invariant Abs(S()) == ForkedUpTo(m, p, c, t, i) && (UserEntries(old(ptes)) ==> UserEntries(ptes))
        invariant forall x :: 0 <= x < i && t[x].Some? ==> t[x].value.Lo() <= t[x].value.Hi() <= MAXVA
        invariant old(numfree) - TablesFor(need, j, t, i) <= numfree
        invariant left == unused - Areas(t[..i])
      {
        MoreFor(need, j, t, i);
        if t[i].Some? {
          if left == 0 { return DupShort; }
          left := left - 1;
          if t[i].value.Hi() > MAXVA || t[i].value.Hi() < t[i].value.Lo() { return DupPanic; }
          var ok := CloneArea(p, c, i, t, m, need, j);
          if !ok { return DupShort; }
        } else {
          NoArea(t, i);
          ForkedUpToSkip(m, p, c, t, i);
        }
        i := i + 1;
      }
      assert ChildTable(t, |t|) == t;
      return DupDone;
    }

    // ---------- uvm.c: copies between kernel and user ----------

    // A store through a writable entry, by the user or by copyout().
    method StorePage(k: Key, data: Page)
      requires Valid() && k in ptes && ptes[k].w && |data| == PGSIZE
      modifies mem
      ensures Valid() && k in old(Abs(S())) && Abs(S()) == old(Abs(S()))[k := data]
    {
      hide FreeList, Counted, Exclusive, InAreas;
      ghost var s := S();
      StoreIsPrivate(s, k, data);
      EntriesArePresent(s);
      mem[ptes[k].ppn] := data;
      assert S() == CowModel.Store(s, k, data);
    }

    // Make sure page k can be written, as copyout() does before each chunk.
    method MakeWritable(k: Key, need: nat) returns (r: PageResult)
      requires Valid() && UserEntries(ptes) && k.space in tables && 0 <= k.Va() < MAXVA
      modifies this, refs, freelist, mem
      ensures Valid() && UserEntries(ptes) && ModelOf(S()) == old(ModelOf(S()))
      ensures r == Ready ==> k in ptes && ptes[k].w && May(tables, k, Write)
      ensures r == Denied ==> !Must(tables, k, Write)
      ensures r == Starved ==> old(numfree) <= need && numfree == 0 && NeedsPage(S(), k, Write)
      ensures old(numfree) <= numfree + need + 1
    {
      hide FreeList, Counted, Exclusive, Abs, May, Must, InArea;
      if k in ptes && ptes[k].w {
        EntryAllows(S(), k, Write);
        return Ready;
      }
      var f := CompleteMap(k.space, k.Va(), Write, need);
      assert PageOf(k.space, k.Va()) == k;
      if f.Fixed? {
        EntryAllows(S(), k, Write);
        return Ready;
      }
      return if Must(tables, k, Write) then Starved else Denied;
    }

    // copyout(): all bytes are in place, or those before the page that it could not write.
    method CopyOut(a: int, dstva: Word, src: seq<int>, need: (nat, nat, int) -> nat, j: nat)
      returns (o: Outcome)
      requires Valid() && UserEntries(ptes) && a in tables
      modifies this, refs, freelist, mem
      ensures Valid() && UserEntries(ptes)
      ensures PutOk(old(ModelOf(S())), a, dstva, src, o, ModelOf(S()))
      ensures PutsBytes(old(ModelOf(S())), ModelOf(S()), a, dstva, src, o)
      ensures o.NoMemory? ==> CopyShort(old(S()), j, a, dstva, o.n, Write, S(), need)
      ensures old(numfree) <= numfree + CopyFor(need, j, dstva / PGSIZE, PagesIn(dstva, |src|))
    {
      hide FreeList, Counted, Exclusive, InAreas, Abs, Spliced, WritePage, UserEntries, AllMay, May, Must;
      hide NeedsPage, CopyFor, PagesIn, PutsBytes, WellFormed, PutOk, CopyShort;
      MachineIsWellFormed(S());
      ghost var m := Abs(S());
      SplicedNothing(m, a, dstva);
      PagesAreFull(S());
      if dstva + |src| > MAXVA {
        PutTooFar(Model(m, tables), a, dstva, src);
        return Refused(0);
      }
      MayNothing(tables, a, dstva, Write);
      var at := 0;
      ghost var turns := 0;
      while at < |src|
        invariant 0 <= at <= |src| && Valid() && UserEntries(ptes) && tables == old(tables)
        invariant Abs(S()) == Spliced(m, a, dstva, src[..at])
        invariant AllMay(tables, a, dstva, at, Write)
        invariant 0 <= turns <= PagesIn(dstva, |src|)
        invariant at < |src| ==> (dstva + at) / PGSIZE == dstva / PGSIZE + turns
        invariant old(numfree) <= numfree + CopyFor(need, j, dstva / PGSIZE, turns)
      {
        var v := (dstva + at) / PGSIZE;
        CopyTurn(dstva, at, |src|, turns);
        CopyForMore(need, j, dstva / PGSIZE, turns, PagesIn(dstva, |src|));
        var n := Min(PGSIZE - (dstva + at - v * PGSIZE), |src| - at);
        var r := PutPage(Key(a, v), m, dstva, src, at, at + n, need(j, 0, v));
        if r != Ready {
          o := if r == Denied then Refused(at) else NoMemory(at);
          PutEnds(Model(m, tables), a, dstva, src, at, o);
          if r == Starved { RunsShort(old(S()), j, a, dstva, at, turns, S(), need); }
          return;
        }
        at := at + n;
        turns := turns + 1;
      }
      assert src[..|src|] == src;
      CopyForGrows(need, j, dstva / PGSIZE, turns, PagesIn(dstva, |src|));
      PutEnds(Model(m, tables), a, dstva, src, |src|, Ok);
      return Ok;
    }

    // One page of copyout().
    method PutPage(k: Key, ghost m: Memory, dstva: Word, src: seq<int>, from: nat, to: nat, need: nat)
      returns (r: PageResult)
      requires Valid() && UserEntries(ptes) && k.space in tables && 0 <= k.Va() < MAXVA
      requires from <= to <= |src| && k.Va() <= dstva + from && dstva + to <= k.Va() + PGSIZE
      requires forall h :: h in m ==> |m[h]| == PGSIZE
      requires Abs(S()) == Spliced(m, k.space, dstva, src[..from]) && AllMay(tables, k.space, dstva, from, Write)
      modifies this, refs, freelist, mem
      ensures Valid() && UserEntries(ptes) && tables == old(tables)
      ensures r == Ready ==>
                Abs(S()) == Spliced(m, k.space, dstva, src[..to]) && AllMay(tables, k.space, dstva, to, Write)
      ensures r != Ready ==> Abs(S()) == old(Abs(S()))
      ensures r == Denied ==> !Must(tables, k, Write)
      ensures r == Starved ==> old(numfree) <= need && numfree == 0 && NeedsPage(S(), k, Write)
      ensures old(numfree) <= numfree + need + 1
    {
      hide FreeList, Counted, Exclusive, InAreas, Abs, Spliced, AllMay, May, Must, NeedsPage;
      r := MakeWritable(k, need);
      if r == Ready {
        MayMore(tables, k.space, dstva, from, to - from, k.vpn, Write);
        WriteChunk(k, m, dstva, src, from, to);
      }
    }

    method WriteChunk(k: Key, ghost m: Memory, dstva: Word, src: seq<int>, from: nat, to: nat)
      requires Valid() && k in ptes && ptes[k].w && from <= to <= |src|
      requires k.Va() <= dstva + from && dstva + to <= k.Va() + PGSIZE
      requires forall h :: h in m ==> |m[h]| == PGSIZE
      requires Abs(S()) == Spliced(m, k.space, dstva, src[..from])
      modifies mem
      ensures Valid() && Abs(S()) == Spliced(m, k.space, dstva, src[..to])
    {
      hide FreeList, Counted, Exclusive, Abs, Spliced, WritePage;
      var data := WritePage(mem[ptes[k].ppn], k.Va(), dstva + from, src[from..to]);
      PagesAreFull(S());
      EntriesArePresent(S());
      SplicedKeys(m, k.space, dstva, src[..from]);
      EntryInAbs(S(), k);
      SplicedStep(m, k.space, dstva, src, from, to, k.vpn);
      StorePage(k, data);
    }

    // copyin(): the bytes at srcva, as the simple model has them.
    method CopyIn(a: int, srcva: Word, len: nat, need: (nat, nat, int) -> nat, j: nat) returns (o: Outcome)
      requires Valid() && UserEntries(ptes) && a in tables
      modifies this, refs, freelist, mem
      ensures Valid() && UserEntries(ptes) && ModelOf(S()) == old(ModelOf(S()))
      ensures GetOk(ModelOf(S()), a, srcva, len, o)
      ensures o.Refused? ==> PageOf(a, srcva + o.n) !in ptes
      ensures o.NoMemory? ==> CopyShort(old(S()), j, a, srcva, o.n, Read, S(), need)
      ensures old(numfree) <= numfree + CopyFor(need, j, srcva / PGSIZE, PagesIn(srcva, len))
    {
      hide FreeList, Counted, Exclusive, InAreas, Abs, Reads, UserEntries, Must, NeedsPage, CopyFor, PagesIn, GetFirst;
      ghost var m := Abs(S());
      var data := [];
      ReadsNothing(m, a, srcva);
      ghost var turns := 0;
      while |data| < len
        invariant |data| <= len && Valid() && UserEntries(ptes) && tables == old(tables) && Abs(S()) == m
        invariant Reads(m, a, srcva, data)
        invariant 0 <= turns <= PagesIn(srcva, len)
        invariant |data| < len ==> (srcva + |data|) / PGSIZE == srcva / PGSIZE + turns
        invariant old(numfree) <= numfree + CopyFor(need, j, srcva / PGSIZE, turns)
      {
        var here := srcva + |data|;
        var v := here / PGSIZE;
        CopyTurn(srcva, |data|, len, turns);
        CopyForMore(need, j, srcva / PGSIZE, turns, PagesIn(srcva, len));
        GotAll(ModelOf(S()), a, srcva, data);
        if v * PGSIZE >= MAXVA {
          TooHigh(tables, ptes, Key(a, v), Read);
          return Refused(|data|);
        }
        var r := MakeReadable(Key(a, v), need(j, 0, v));
        if r == Denied { return Refused(|data|); }
        if r == Starved { return NoMemory(|data|); }
        var off := here - v * PGSIZE;
        var n := Min(PGSIZE - off, len - |data|);
        EntryInAbs(S(), Key(a, v));
        var page := mem[ptes[Key(a, v)].ppn];
        ReadsChunk(m, a, srcva, data, v, page, off, n);
        data := data + page[off..off + n];
        turns := turns + 1;
      }
      CopyForGrows(need, j, srcva / PGSIZE, turns, PagesIn(srcva, len));
      return Got(data);
    }

    // Make sure page k is in memory: copyin() reads any user page that is.
    method MakeReadable(k: Key, need: nat) returns (r: PageResult)
      requires Valid() && UserEntries(ptes) && k.space in tables && 0 <= k.Va() < MAXVA
      modifies this, refs, freelist, mem
      ensures Valid() && UserEntries(ptes) && ModelOf(S()) == old(ModelOf(S()))
      ensures r == Ready ==> k in ptes
      ensures r == Denied ==> !Must(tables, k, Read) && k !in ptes
      ensures r == Starved ==> old(numfree) <= need && numfree == 0 && NeedsPage(S(), k, Read)
      ensures old(numfree) <= numfree + need + 1
    {
      hide FreeList, Counted, Exclusive, InAreas, Abs, Must;
      if k in ptes && ptes[k].u { return Ready; }
      var f := CompleteMap(k.space, k.Va(), Read, need);
      assert PageOf(k.space, k.Va()) == k;
      if f.Fixed? { return Ready; }
      return if Must(tables, k, Read) then Starved else Denied;
    }

    // A user access: the entry grants it, or usertrap() calls uvm_completemap() for the page.
    method TouchPage(a: int, va: Word, acc: Access, need: (nat, nat, int) -> nat, j: nat) returns (o: Outcome)
      requires Valid() && UserEntries(ptes)
      modifies this, refs, freelist, mem
      ensures Valid() && UserEntries(ptes) && ModelOf(S()) == old(ModelOf(S()))
      ensures o == Ok || o == Refused(0) || o == NoMemory(0)
      ensures o == Ok ==> PageOf(a, va) in ptes && Has(ptes[PageOf(a, va)], acc) && May(tables, PageOf(a, va), acc)
      ensures o == Refused(0) ==> !Must(tables, PageOf(a, va), acc)
      ensures o == NoMemory(0) ==> CopyShort(old(S()), j, a, va, 0, acc, S(), need)
      ensures old(numfree) <= numfree + CopyFor(need, j, va / PGSIZE, 1)
    {
      hide FreeList, Counted, Exclusive, Abs, May, Must, InArea;
      var k := PageOf(a, va);
      if k in ptes && Has(ptes[k], acc) {
        EntryAllows(S(), k, acc);
        return Ok;
      }
      if a !in tables {
        NoSpace(tables, k, acc);
        return Refused(0);
      }
      var f := CompleteMap(a, Down(va), acc, need(j, 0, k.vpn));
      assert PageOf(a, Down(va)) == k;
      PagesForMore(need, j, 0, k.vpn, 0, 1);
      if f.Fixed? {
        EntryAllows(S(), k, acc);
        return Ok;
      }
      return if Must(tables, k, acc) then NoMemory(0) else Refused(0);
    }

    // A user's load of a byte.
    method LoadByte(a: int, va: Word, need: (nat, nat, int) -> nat, j: nat) returns (o: Outcome)
      requires Valid() && UserEntries(ptes)
      modifies this, refs, freelist, mem
      ensures Valid() && UserEntries(ptes) && Follows(old(ModelOf(S())), Load(a, va), o, ModelOf(S()))
      ensures o.NoMemory? ==> CopyShort(old(S()), j, a, va, 0, Read, S(), need)
      ensures old(numfree) <= numfree + CopyFor(need, j, va / PGSIZE, 1)
    {
      hide FreeList, Counted, Exclusive, InAreas, Abs, May, Must, UserEntries, CopyShort, CopyFor, Reads;
      o := TouchPage(a, va, Read, need, j);
      if o == Ok {
        var k := PageOf(a, va);
        EntryInAbs(S(), k);
        var page := mem[ptes[k].ppn];
        var off := va - k.Va();
        ReadsNothing(Abs(S()), a, va);
        ReadsChunk(Abs(S()), a, va, [], k.vpn, page, off, 1);
        assert [] + page[off..off + 1] == [page[off]];
        o := Got([page[off]]);
      }
    }

    // A user's store of a byte.
    method StoreByte(a: int, va: Word, b: int, need: (nat, nat, int) -> nat, j: nat) returns (o: Outcome)
      requires Valid() && UserEntries(ptes)
      modifies this, refs, freelist, mem
      ensures Valid() && UserEntries(ptes) && Follows(old(ModelOf(S())), Store(a, va, b), o, ModelOf(S()))
      ensures WroteBytes(old(ModelOf(S())), ModelOf(S()), a, va, if o == Ok then [b] else [])
      ensures o.NoMemory? ==> CopyShort(old(S()), j, a, va, 0, Write, S(), need)
      ensures old(numfree) <= numfree + CopyFor(need, j, va / PGSIZE, 1)
    {
      hide FreeList, Counted, Exclusive, InAreas, Abs, May, Must, UserEntries, CopyShort, CopyFor, Spliced, WritePage;
      hide WroteBytes, WellFormed;
      MachineIsWellFormed(S());
      ghost var m := Abs(S());
      SplicedNothing(m, a, va);
      PagesAreFull(S());
      o := TouchPage(a, va, Write, need, j);
      if o == Ok {
        assert [b][..0] == [] && [b][..1] == [b];
        WriteChunk(PageOf(a, va), m, va, [b], 0, 1);
      }
      StoreBytes(old(ModelOf(S())), a, va, b, o, ModelOf(S()));
    }

    // ---------- whole runs ----------

    // uvm_new(): an address space without areas.
    method NewSpace(a: int, slots: nat)
      requires Valid() && a !in tables
      modifies this`tables
      ensures Valid() && tables == old(tables)[a := seq(slots, i => None)]
      ensures Abs(S()) == old(Abs(S()))
    {
      hide FreeList, Counted, Exclusive;
      ghost var s := S();
      NewSpaceKeeps(s, a, slots);
      tables := tables[a := seq(slots, i => None)];
      assert S() == WithTable(s, a, seq(slots, i => None));
    }

    // One event, number j of a run.
    method Step(e: Event, need: (nat, nat, int) -> nat, j: nat) returns (o: Outcome)
      requires Shape() && Good(S())
      modifies this, refs, freelist, mem
      ensures Shape() && StepOk(old(S()), j, e, o, S(), need)
    {
      hide FreeList, Counted, Exclusive, InAreas, Abs, MapZeros, Unmapped, Zeroed, Forked, Spliced;
      hide UserEntries, PutOk, GetOk, May, Must, CopyShort, CopyFor, CanMap, CanCut, CutOk, GrowOk, TablesFor, Areas;
      hide Clonable, Reads, WroteBytes, PutsBytes, NeedsPage, PagesIn;
      match e
      case Create(a, slots) =>
        if a in tables { return Refused(0); }
        NewSpace(a, slots);
        return Ok;
      case Touch(a, va, acc) =>
        o := TouchPage(a, va, acc, need, j);
      case Load(a, va) =>
        o := LoadByte(a, va, need, j);
      case Store(a, va, b) =>
        o := StoreByte(a, va, b, need, j);
      case Put(a, va, src) =>
        if a !in tables { PutNowhere(ModelOf(S()), a, va, src); return Refused(0); }
        o := CopyOut(a, va, src, need, j);
      case Get(a, va, len) =>
        if a !in tables { GetNowhere(ModelOf(S()), a, va, len); return Refused(0); }
        o := CopyIn(a, va, len, need, j);
      case Map(a, addr, length, perm, pool) =>
        if a !in tables { MapNowhere(tables, a, addr, length, pool); return Refused(0); }
        var ok := MapArea(a, addr, length, perm, pool);
        return if ok then Ok else Refused(0);
      case Cut(a, addr, length) =>
        if a !in tables { return Refused(0); }
        ghost var m := ModelOf(S());
        var ok := UnmapArea(a, addr, length);
        o := if ok then Ok else Panicked;
        CutEnds(m, a, addr, length, ok, ModelOf(S()));
      case Grow(a, h, n) =>
        if a !in tables { return Refused(0); }
        o := GrowHeapArea(a, h, n);
      case Fork(p, c, unused) =>
        if !Forkable(tables, p, c) { return Refused(0); }
        var r := Dup(p, c, unused, need, j);
        return match r case DupDone => Ok case DupShort => NoMemory(0) case DupPanic => Panicked;
    }

    /** Over every run of user accesses, copies, maps, unmaps, changes of the heap and forks on any number
        of address spaces, the states ss of the machine follow the simple model event by event, up to
        a panic, a fork that runs out of memory or an area that is not sound. */
    method Run(es: seq<Event>, need: (nat, nat, int) -> nat) returns (os: seq<Outcome>, ghost ss: seq<State>)
      requires Shape() && Good(S())
      modifies this, refs, freelist, mem
      ensures Shape() && |os| <= |es| && |ss| == |os| + 1 && ss[0] == old(S()) && ss[|os|] == S()
      ensures forall i :: 0 <= i < |os| ==> StepOk(ss[i], i, es[i], os[i], ss[i + 1], need)
      ensures forall i :: 0 <= i < |os| - 1 ==> !Stops(es[i], os[i])
      ensures |os| < |es| ==> 0 < |os| && Stops(es[|os| - 1], os[|os| - 1])
    {
      hide Good, StepOk, Stops;
      os, ss := [], [S()];
      while |os| < |es|
        invariant Shape() && Good(S()) && |os| <= |es| && |ss| == |os| + 1
        invariant ss[0] == old(S()) && ss[|os|] == S()
        invariant forall i :: 0 <= i < |os| ==> StepOk(ss[i], i, es[i], os[i], ss[i + 1], need) && !Stops(es[i], os[i])
      {
        var j := |os|;
        var o := Step(es[j], need, j);
        os, ss := os + [o], ss + [S()];
        if Stops(es[j], o) { return; }
        StepIsGood(ss[j], j, es[j], o, S(), need);
      }
    }
  }

  lemma StepIsGood(s: State, j: nat, e: Event, o: Outcome, s': State, need: (nat, nat, int) -> nat)
    requires StepOk(s, j, e, o, s', need) && !Stops(e, o)
    ensures Good(s')
  {
  }

  predicate SameEntry(p: map<Key, Pte>, q: map<Key, Pte>, k: Key) {
    (k in p <==> k in q) && (k in p ==> p[k] == q[k])
  }

  // The order of the stores in uvm_completemap(): the entry moves, then the old page is freed.
  lemma MoveEntry(s: State, k: Key, e: Pte)
    requires Shaped(s) && k in s.ptes
    ensures Freed(s.(ptes := s.ptes[k := e], owned := s.owned - {e.ppn}), s.ptes[k].ppn)
         == Install(Drop(s, k), k, e)
  {
    assert (s.ptes - {k})[k := e] == s.ptes[k := e];
  }

  // ---------- entries and the accesses they grant ----------

  // An entry grants no more than its area allows.
  lemma EntryAllows(s: State, k: Key, acc: Access)
    requires Inv(s) && UserEntries(s.ptes) && k in s.ptes && Has(s.ptes[k], acc)
    ensures May(s.tables, k, acc)
  {
    hide FreeList, Counted, Exclusive;
    assert InArea(s.tables, k, s.ptes[k]);
    var i :| CoveredBy(s.tables[k.space], i, k.Va()) && Grants(s.tables[k.space][i].value.perm, s.ptes[k]);
  }

  lemma TooHigh(tables: map<int, Table>, ptes: map<Key, Pte>, k: Key, acc: Access)
    requires UserEntries(ptes) && k.Va() >= MAXVA
    ensures !Must(tables, k, acc) && k !in ptes
  {
  }

  lemma NoSpace(tables: map<int, Table>, k: Key, acc: Access)
    requires k.space !in tables
    ensures !Must(tables, k, acc)
  {
  }

  lemma MayNothing(tables: map<int, Table>, a: int, va: int, acc: Access)
    ensures AllMay(tables, a, va, 0, acc)
  {
  }

  // The next n bytes lie in page v.
  lemma MayMore(tables: map<int, Table>, a: int, va: nat, at: nat, n: nat, v: int, acc: Access)
    requires AllMay(tables, a, va, at, acc) && May(tables, Key(a, v), acc)
    requires v * PGSIZE <= va + at && va + at + n <= v * PGSIZE + PGSIZE
    ensures AllMay(tables, a, va, at + n, acc)
  {
    forall x | va <= x < va + at + n
      ensures MayByte(tables, a, x, acc)
    {
      if va + at <= x { assert x / PGSIZE == v; }
    }
  }

  // One turn of a copy of len bytes, at the next page.
  lemma CopyTurn(va: nat, at: nat, len: nat, turns: nat)
    requires at < len && (va + at) / PGSIZE == va / PGSIZE + turns
    ensures var v := (va + at) / PGSIZE;
            var n := Min(PGSIZE - (va + at - v * PGSIZE), len - at);
            && v * PGSIZE <= va + at < v * PGSIZE + PGSIZE && 0 < n && turns < PagesIn(va, len)
            && (at + n < len ==> (va + (at + n)) / PGSIZE == va / PGSIZE + turns + 1)
  {
    assert (va + at) / PGSIZE <= (va + len - 1) / PGSIZE;
  }

  // copyout() after `at` bytes.
  lemma PutEnds(m: Model, a: int, va: Word, src: seq<int>, at: nat, o: Outcome)
    requires a in m.tables && va + |src| <= MAXVA && at <= |src| && AllMay(m.tables, a, va, at, Write) && WellFormed(m)
    requires if at == |src| then o == Ok
             else o == NoMemory(at) || (o == Refused(at) && !Must(m.tables, PageOf(a, va + at), Write))
    ensures var m' := m.(mem := Spliced(m.mem, a, va, src[..at]));
            PutOk(m, a, va, src, o, m') && PutsBytes(m, m', a, va, src, o)
  {
    hide WellFormed, Spliced, AllMay, Must, PutsBytes;
    PutBytes(m, a, va, src, o, m.(mem := Spliced(m.mem, a, va, src[..at])));
  }

  // copyout() stops for want of memory.
  lemma RunsShort(s: State, j: nat, a: int, va: nat, at: nat, turns: nat, s': State, need: (nat, nat, int) -> nat)
    requires s'.free == [] && (va + at) / PGSIZE == va / PGSIZE + turns
    requires NeedsPage(s', Key(a, (va + at) / PGSIZE), Write) && |s.free| < CopyFor(need, j, va / PGSIZE, turns + 1)
    ensures CopyShort(s, j, a, va, at, Write, s', need)
  {
    hide NeedsPage, CopyFor;
  }

  lemma PutTooFar(m: Model, a: int, va: Word, src: seq<int>)
    requires va + |src| > MAXVA && WellFormed(m)
    ensures PutOk(m, a, va, src, Refused(0), m) && PutsBytes(m, m, a, va, src, Refused(0))
  {
    PutBytes(m, a, va, src, Refused(0), m);
  }

  lemma PutNowhere(m: Model, a: int, va: Word, src: seq<int>)
    requires a !in m.tables
    ensures PutOk(m, a, va, src, Refused(0), m)
  {
  }

  lemma GetNowhere(m: Model, a: int, va: Word, len: nat)
    requires a !in m.tables
    ensures GetOk(m, a, va, len, Refused(0))
  {
  }

  lemma MapNowhere(tables: map<int, Table>, a: int, addr: Word, length: Word, pool: bool)
    requires a !in tables
    ensures !CanMap(tables, a, addr, length, pool)
  {
  }

  // ---------- areas ----------

  lemma WithinPart(a: int, lo: int, mid: int, hi: int)
    requires mid <= hi
    ensures forall k :: Within(k, a, lo, mid) ==> Within(k, a, lo, hi)
  {
  }

  // uvm_map() keeps the invariant exactly for a sound area.
  lemma MapKeeps(s: State, a: int, k: nat, v: Vma)
    requires Inv(s) && a in s.tables && k < |s.tables[a]| && s.tables[a][k].None?
    requires RangeFree(s.tables[a], v.start, v.length)
    ensures var s' := WithTable(s, a, s.tables[a][k := Some(v)]);
            && Shaped(s) && Shaped(s') && (Inv(s') <==> v.Sound())
            && Abs(s') == MapZeros(Abs(s), a, v.Lo(), v.Hi())
  {
    hide FreeList, Counted, Exclusive, Abs, MapZeros, Gains, RangeFree;
    var t := s.tables[a][k := Some(v)];
    MapGains(s.tables[a], k, v);
    if v.Sound() {
      GainKeeps(s, a, t, k, v.Lo(), v.Hi());
    } else {
      EntriesArePresent(s);
      GainAbs(s, a, t, v.Lo(), v.Hi());
      assert a in WithTable(s, a, t).tables && !ValidTable(t);
    }
  }

  lemma CutEnds(m: Model, a: int, addr: Word, length: Word, ok: bool, m': Model)
    requires a in m.tables && (ok <==> CanCut(m.tables[a], addr, length))
    requires if ok then m' == AfterCut(m, a, addr, length) else m' == m
    ensures CutOk(m, a, addr, length, if ok then Ok else Panicked, m')
  {
  }

  // ---------- fork ----------

  // Entries k and, if there is one, k' after one turn of pgt_clone().
  ghost function OneProtected(ptes: map<Key, Pte>, k: Key, k': Key): map<Key, Pte> {
    if k in ptes then ptes[k := ptes[k].(w := false)][k' := ptes[k].(w := false)] else ptes
  }

  // The entries of p in [lo, hi) have lost PTE_W, and c has the same ones.
  ghost predicate Protected(q: map<Key, Pte>, r: map<Key, Pte>, p: int, c: int, lo: int, hi: int) {
    && (forall k :: k in r <==> k in q || (Within(k, c, lo, hi) && Key(p, k.vpn) in q))
    && (forall k :: k in r ==>
          r[k] == if Within(k, c, lo, hi) && Key(p, k.vpn) in q then q[Key(p, k.vpn)].(w := false)
                  else if Within(k, p, lo, hi) then q[k].(w := false) else q[k])
  }

  lemma ProtectedNone(q: map<Key, Pte>, p: int, c: int, lo: int)
    ensures Protected(q, q, p, c, lo, lo)
  {
  }

  lemma ProtectedStep(q: map<Key, Pte>, r: map<Key, Pte>, p: int, c: int, lo: int, hi: int, n: int)
    requires Protected(q, r, p, c, lo, n * PGSIZE) && lo <= n * PGSIZE < hi && p != c && NoEntries(q, c, lo, hi)
    ensures Protected(q, OneProtected(r, Key(p, n), Key(c, n)), p, c, lo, (n + 1) * PGSIZE)
  {
    WithinStep(p, lo, n);
    WithinStep(c, lo, n);
    assert Key(c, n) !in q;
    assert Key(p, n) in r <==> Key(p, n) in q;
  }

  lemma ProtectedUser(q: map<Key, Pte>, r: map<Key, Pte>, p: int, c: int, lo: int, hi: int)
    requires Protected(q, r, p, c, lo, hi)
    ensures UserEntries(q) ==> UserEntries(r)
  {
  }

  lemma FewerUser(q: map<Key, Pte>)
    ensures forall r: map<Key, Pte> ::
      UserEntries(q) && (forall k :: k in r ==> k in q && r[k] == q[k]) ==> UserEntries(r)
  {
  }

  lemma {:induction false} PagesForMore(need: (nat, nat, int) -> nat, j: nat, i: nat, v: int, n: nat, all: nat)
    requires n < all
    ensures PagesFor(need, j, i, v, n) + need(j, i, v + n) == PagesFor(need, j, i, v, n + 1)
    ensures PagesFor(need, j, i, v, n + 1) <= PagesFor(need, j, i, v, all)
    decreases all - n
  {
    if n + 1 < all { PagesForMore(need, j, i, v, n + 1, all); }
  }

  lemma CopyForMore(need: (nat, nat, int) -> nat, j: nat, v: int, n: nat, all: nat)
    requires n < all
    ensures CopyFor(need, j, v, n) + need(j, 0, v + n) + 1 == CopyFor(need, j, v, n + 1) <= CopyFor(need, j, v, all)
  {
    PagesForMore(need, j, 0, v, n, all);
  }

  lemma CopyForGrows(need: (nat, nat, int) -> nat, j: nat, v: int, n: nat, all: nat)
    requires n <= all
    ensures CopyFor(need, j, v, n) <= CopyFor(need, j, v, all)
  {
    if n < all { PagesForMore(need, j, 0, v, n, all); }
  }

  lemma NothingFor(need: (nat, nat, int) -> nat, j: nat, t: Table)
    ensures TablesFor(need, j, t, 0) == 0 && Areas(t[..0]) == 0
  {
  }

  // What the first i areas need and area i needs, against what all need.
  lemma MoreFor(need: (nat, nat, int) -> nat, j: nat, t: Table, i: nat)
    requires i < |t|
    ensures TablesFor(need, j, t, i + 1) == TablesFor(need, j, t, i) + AreaFor(need, j, t, i)
    ensures TablesFor(need, j, t, i + 1) <= TablesFor(need, j, t, |t|)
    ensures Areas(t[..i + 1]) == Areas(t[..i]) + if t[i].Some? then 1 else 0
    ensures Areas(t[..i + 1]) <= Areas(t)
    ensures AreaFor(need, j, t, i) == 0 || t[i].Some?
  {
    assert t[..i + 1][..i] == t[..i];
    TablesGrow(need, j, t, i + 1);
    AreasGrow(t, i + 1);
  }

  lemma {:induction false} TablesGrow(need: (nat, nat, int) -> nat, j: nat, t: Table, i: nat)
    requires i <= |t|
    ensures TablesFor(need, j, t, i) <= TablesFor(need, j, t, |t|)
    decreases |t| - i
  {
    if i < |t| { TablesGrow(need, j, t, i + 1); }
  }

  lemma {:induction false} AreasGrow(t: Table, i: nat)
    requires i <= |t|
    ensures Areas(t[..i]) <= Areas(t)
    decreases |t| - i
  {
    if i < |t| {
      assert t[..i + 1][..i] == t[..i];
      AreasGrow(t, i + 1);
    } else {
      assert t[..i] == t;
    }
  }

  lemma SameArea(tables: map<int, Table>, k: Key, e: Pte, e': Pte)
    requires InArea(tables, k, e) && e'.r == e.r && e'.w == e.w && e'.x == e.x
    ensures InArea(tables, k, e')
  {
    var i :| CoveredBy(tables[k.space], i, k.Va()) && Grants(tables[k.space][i].value.perm, e);
    assert CoveredBy(tables[k.space], i, k.Va()) && Grants(tables[k.space][i].value.perm, e');
  }

  // What the area found for a fault says about the entry there.
  lemma FaultArea(s: State, k: Key, i: nat)
    requires Inv(s) && k.space in s.tables && 0 <= k.Va() < WORD
    requires var t := s.tables[k.space];
             i < |t| && t[i].Some? && t[i].value.Contains(k.Va())
    ensures var p := s.tables[k.space][i].value.perm;
            && (forall ppn, u :: InArea(s.tables, k, Pte(ppn, p.r, p.w, p.x, u)))
            && (k in s.ptes ==> Grants(p, s.ptes[k]))
            && (k in s.ptes && p.w ==> InArea(s.tables, k, s.ptes[k].(w := true)))
  {
    var t := s.tables[k.space];
    ContainedIsCovered(t, k.Va(), i);
    var p := t[i].value.perm;
    forall ppn, u
      ensures InArea(s.tables, k, Pte(ppn, p.r, p.w, p.x, u))
    {
      assert CoveredBy(t, i, k.Va()) && Grants(p, Pte(ppn, p.r, p.w, p.x, u));
    }
    if k in s.ptes {
      var j :| CoveredBy(t, j, k.Va()) && Grants(t[j].value.perm, s.ptes[k]);
      OneAreaCovers(t, i, j, k.Va());
      if p.w { assert CoveredBy(t, i, k.Va()) && Grants(p, s.ptes[k].(w := true)); }
    }
  }
}
