/**
 The virtual memory areas of a process (kernel/uvm.c): which page ranges they cover, and the
 operations that add, shrink and remove them.  Addresses are 64-bit words, so sums wrap.
 */
module VmaTable {
  import opened Options

  const PGSIZE := 4096
  const WORD := 0x1_0000_0000_0000_0000
  const MAXVA := 0x40_0000_0000
  const TRAPFRAME := MAXVA - 2 * PGSIZE
  const START_VMAS_ADDR := TRAPFRAME / 2

  type Word = x: int | 0 <= x < WORD

  // PTE_R, PTE_W and PTE_X.
  datatype Perm = Perm(r: bool, w: bool, x: bool)

  datatype Vma = Vma(start: Word, length: Word, perm: Perm)
  {
    function End(): Word {
      Add(start, length)
    }

    // The page range covered: [Lo, Hi).
    function Lo(): Word {
      Down(start)
    }

    function Hi(): Word {
      Up(End())
    }

    // The rounded-up end does not wrap around.
    predicate Fits() {
      start + length + PGSIZE <= WORD
    }

    predicate Contains(va: int) {
      start <= va < End()
    }

    // The page range has every page of the bytes that the area contains.
    predicate Sound() {
      start < End() ==> Fits()
    }
  }

  // uvm->vma[]: a null pointer is None.
  type Table = seq<Option<Vma>>

  function Add(a: Word, b: Word): Word {
    if a + b < WORD then a + b else a + b - WORD
  }

  function Sub(a: Word, b: Word): Word {
    if b <= a then a - b else a - b + WORD
  }

  // PGROUNDDOWN and PGROUNDUP.
  function Down(a: Word): (r: Word)
    ensures r <= a < r + PGSIZE && Aligned(r)
  {
    a / PGSIZE * PGSIZE
  }

  function Up(a: Word): (r: Word)
    ensures Aligned(r)
    ensures a + PGSIZE <= WORD ==> a <= r < a + PGSIZE
  {
    Down(Add(a, PGSIZE - 1))
  }

  predicate Aligned(a: int) {
    a % PGSIZE == 0
  }

  // An int argument where the callee takes a uint64.
  function ToWord(n: int): Word {
    n % WORD
  }

  lemma RoundingIsMonotone(a: Word, b: Word)
    requires a <= b && b + PGSIZE <= WORD
    ensures Down(a) <= Down(b) && Up(a) <= Up(b)
    ensures Aligned(a) ==> Down(a) == a == Up(a)
  {
    assert a / PGSIZE <= b / PGSIZE;
    assert (a + PGSIZE - 1) / PGSIZE <= (b + PGSIZE - 1) / PGSIZE;
    if Aligned(a) { assert (a + PGSIZE - 1) / PGSIZE == a / PGSIZE; }
  }

  function Max(a: int, b: int): int {
    if b > a then b else a
  }

  function Min(a: int, b: int): int {
    if b < a then b else a
  }

  // vma_intersect() on two page ranges.
  predicate Overlap(lo1: int, hi1: int, lo2: int, hi2: int) {
    Max(lo1, lo2) < Min(hi1, hi2)
  }

  lemma OverlapIsSharedAddress(lo1: int, hi1: int, lo2: int, hi2: int)
    ensures Overlap(lo1, hi1, lo2, hi2) <==> exists a :: InRange(lo1, hi1, a) && InRange(lo2, hi2, a)
  {
    if Overlap(lo1, hi1, lo2, hi2) {
      assert InRange(lo1, hi1, Max(lo1, lo2)) && InRange(lo2, hi2, Max(lo1, lo2));
    }
  }

  predicate InRange(lo: int, hi: int, a: int) {
    lo <= a < hi
  }

  ghost predicate ValidTable(t: Table) {
    && (forall i :: 0 <= i < |t| && t[i].Some? ==> t[i].value.Sound())
    && Apart(t)
  }

  ghost predicate Apart(t: Table) {
    forall i, j :: 0 <= i < j < |t| && t[i].Some? && t[j].Some? ==>
      !Overlap(t[i].value.Lo(), t[i].value.Hi(), t[j].value.Lo(), t[j].value.Hi())
  }

  // The page range of [a, a + length) meets no area.
  predicate RangeFree(t: Table, a: Word, length: Word) {
    forall i :: 0 <= i < |t| && t[i].Some? ==>
      !Overlap(Down(a), Up(Add(a, length)), t[i].value.Lo(), t[i].value.Hi())
  }

  // ---------- scans ----------

  method Va2Vma(t: Table, va: Word) returns (r: Option<nat>)
    ensures r.Some? ==> r.value < |t| && t[r.value].Some? && t[r.value].value.Contains(va)
    ensures r.None? <==> forall i :: 0 <= i < |t| && t[i].Some? ==> !t[i].value.Contains(va)
    ensures r == Find(t, va)
  {
    var i := 0;
    while i < |t|
      invariant 0 <= i <= |t|
      invariant forall j :: 0 <= j < i && t[j].Some? ==> !t[j].value.Contains(va)
    {
      if t[i].Some? && t[i].value.Contains(va) {
        FindIs(t, va, i);
        return Some(i);
      }
      i := i + 1;
    }
    FindNone(t, va);
    return None;
  }

  function Find(t: Table, va: Word): (r: Option<nat>)
    ensures r.Some? ==> r.value < |t| && t[r.value].Some? && t[r.value].value.Contains(va)
  {
    if t == [] then None
    else
      var n := |t| - 1;
      var front := Find(t[..n], va);
      if front.Some? then front
      else if t[n].Some? && t[n].value.Contains(va) then Some(n) else None
  }

  lemma {:induction false} FindIs(t: Table, va: Word, i: nat)
    requires i < |t| && t[i].Some? && t[i].value.Contains(va)
    requires forall j :: 0 <= j < i && t[j].Some? ==> !t[j].value.Contains(va)
    ensures Find(t, va) == Some(i)
  {
    var n := |t| - 1;
    if i == n {
      FindNone(t[..n], va);
    } else {
      FindIs(t[..n], va, i);
    }
  }

  lemma {:induction false} FindNone(t: Table, va: Word)
    requires forall j :: 0 <= j < |t| && t[j].Some? ==> !t[j].value.Contains(va)
    ensures Find(t, va) == None
  {
    if t != [] {
      FindNone(t[..|t| - 1], va);
    }
  }

  method IsRangeFree(t: Table, vastart: Word, length: Word) returns (free: bool)
    ensures free <==> RangeFree(t, vastart, length)
  {
    var i := 0;
    while i < |t|
      invariant 0 <= i <= |t|
      invariant RangeFree(t[..i], vastart, length)
    {
      if t[i].Some? {
        var l := Max(Down(vastart), Down(t[i].value.start));
        var r := Min(Up(Add(vastart, length)), Up(Add(t[i].value.start, t[i].value.length)));
        if l < r { return false; }
      }
      assert t[..i + 1] == t[..i] + [t[i]];
      i := i + 1;
    }
    assert t[..|t|] == t;
    return true;
  }

  // ---------- getfreevrange ----------

  // The next candidate: the least area end above prev, or MAXVA.
  ghost predicate IsNextEnd(t: Table, n: nat, prev: Word, addr: Word)
    requires n <= |t|
  {
    && Aligned(addr) && prev < addr <= MAXVA
    && (forall i :: 0 <= i < n && t[i].Some? && prev < t[i].value.Hi() ==> addr <= t[i].value.Hi())
    && (addr == MAXVA || exists i :: 0 <= i < n && t[i].Some? && t[i].value.Hi() == addr)
  }

  method NextEnd(t: Table, prev: Word) returns (addr: Word)
    requires prev < MAXVA
    ensures IsNextEnd(t, |t|, prev, addr)
  {
    addr := MAXVA;
    var i := 0;
    while i < |t|
      invariant 0 <= i <= |t|
      invariant IsNextEnd(t, i, prev, addr)
    {
      if t[i].Some? {
        var endvma := Up(Add(t[i].value.start, t[i].value.length));
        if endvma > prev {
          addr := Min(addr, endvma);
        }
      }
      i := i + 1;
    }
    addr := Up(addr);
  }

  // An area in the way of prev is in the way of everything up to its end.
  lemma Blocked(t: Table, prev: Word, a: Word, next: Word, length: Word)
    requires 0 < length < 0x8000_0000 && Aligned(prev) && prev <= a < next <= MAXVA
    requires IsNextEnd(t, |t|, prev, next) && !RangeFree(t, prev, length)
    ensures !RangeFree(t, a, length)
  {
    var i :| 0 <= i < |t| && t[i].Some? &&
             Overlap(Down(prev), Up(Add(prev, length)), t[i].value.Lo(), t[i].value.Hi());
    BlockedBy(prev, a, next, length, t[i].value.Lo(), t[i].value.Hi());
  }

  lemma BlockedBy(prev: Word, a: Word, next: Word, length: Word, lo: int, hi: int)
    requires 0 < length < 0x8000_0000 && Aligned(prev) && prev <= a < next <= MAXVA
    requires Overlap(Down(prev), Up(Add(prev, length)), lo, hi) && (prev < hi ==> next <= hi)
    ensures Overlap(Down(a), Up(Add(a, length)), lo, hi)
  {
    RoundingIsMonotone(prev, a);
    RoundingIsMonotone(prev + length, a + length);
    assert Down(a) <= a < a + length <= Up(a + length);
  }

  /** getfreevrange() is exact first fit for every length an int can hold: the least address
      from START_VMAS_ADDR on whose page range is free, and 0 only when there is none below
      MAXVA.  A length of zero or less needs no pages, so it always gets the first address. */
  method GetFreeVRange(t: Table, length: int) returns (r: Word)
    requires -0x8000_0000 <= length < 0x8000_0000
    ensures r != 0 ==>
              && START_VMAS_ADDR <= r && Aligned(r) && r + length <= MAXVA
              && RangeFree(t, r, ToWord(length))
              && forall a: Word :: START_VMAS_ADDR <= a < r ==> !RangeFree(t, a, ToWord(length))
    ensures r == 0 ==> forall a: Word :: START_VMAS_ADDR <= a && a + length <= MAXVA ==>
                                           !RangeFree(t, a, ToWord(length))
    ensures length <= 0 ==> r == START_VMAS_ADDR
  {
    var n := ToWord(length);
    var addr: Word := START_VMAS_ADDR;
    while true
      invariant START_VMAS_ADDR <= addr && Aligned(addr) && addr + length <= MAXVA
      invariant length <= 0 ==> addr == START_VMAS_ADDR
      invariant forall a: Word :: START_VMAS_ADDR <= a < addr ==> !RangeFree(t, a, n)
      decreases MAXVA - addr
    {
      var free := IsRangeFree(t, addr, n);
      if free { return addr; }
      if length <= 0 { NothingNeeded(t, length); }
      var prev := addr;
      addr := NextEnd(t, prev);
      forall a: Word | prev <= a < addr
        ensures !RangeFree(t, a, n)
      {
        Blocked(t, prev, a, addr, n);
      }
      if addr + length > MAXVA { break; }
    }
    return 0;
  }

  lemma NothingNeeded(t: Table, length: int)
    requires -0x8000_0000 <= length <= 0
    ensures RangeFree(t, START_VMAS_ADDR, ToWord(length))
  {
    var a: Word := START_VMAS_ADDR;
    assert Add(a, ToWord(length)) == a + length;
    RoundingIsMonotone(a + length, a);
    assert Aligned(a);
  }

  // ---------- adding, cutting and growing areas ----------

  // Address a lies in the page range of some area.
  ghost predicate Covered(t: Table, a: int) {
    exists i :: CoveredBy(t, i, a)
  }

  ghost predicate CoveredBy(t: Table, i: int, a: int) {
    0 <= i < |t| && t[i].Some? && InRange(t[i].value.Lo(), t[i].value.Hi(), a)
  }

  lemma OneAreaCovers(t: Table, i: int, j: int, a: int)
    requires ValidTable(t) && CoveredBy(t, i, a) && CoveredBy(t, j, a)
    ensures i == j
  {
    OverlapIsSharedAddress(t[i].value.Lo(), t[i].value.Hi(), t[j].value.Lo(), t[j].value.Hi());
    OverlapIsSharedAddress(t[j].value.Lo(), t[j].value.Hi(), t[i].value.Lo(), t[i].value.Hi());
  }

  /** The page range of an area holds all of its bytes exactly when its rounded-up end does
      not wrap. */
  lemma CoversItsBytesExactly(v: Vma)
    requires 0 < v.length
    ensures (forall va :: v.start <= va < v.start + v.length ==> InRange(v.Lo(), v.Hi(), va))
        <==> v.Fits()
  {
    if !v.Fits() {
      var last := v.start + v.length - 1;
      assert !InRange(v.Lo(), v.Hi(), v.start) || !InRange(v.Lo(), v.Hi(), last);
    }
  }

  /** Otherwise it covers the page of its start, if the sum of start and length wraps round to
      the same page, and else no page at all. */
  lemma WrappedCovers(v: Vma)
    requires !v.Fits()
    ensures var one := v.start + v.length >= WORD && Down(v.start) < v.End() <= WORD - PGSIZE;
            forall a :: InRange(v.Lo(), v.Hi(), a) <==> one && InRange(Down(v.start), Down(v.start) + PGSIZE, a)
  {
    if v.End() > WORD - PGSIZE {
      assert v.Hi() == 0;
    }
  }

  /** uvm_map() accepts w beside v although both contain a byte exactly when their bytes meet and
      one of them is not sound: an area whose rounded-up end alone wraps has an empty page range. */
  lemma AcceptsApartExactly(v: Vma, w: Vma)
    ensures RangeFree([Some(v)], w.start, w.length) && (exists va: Word :: v.Contains(va) && w.Contains(va))
       <==> Overlap(v.start, v.End(), w.start, w.End()) && !(v.Sound() && w.Sound())
  {
    var t := [Some(v)];
    assert t[0].Some? && t[0].value == v;
    if Overlap(v.start, v.End(), w.start, w.End()) {
      var va: Word := Max(v.start, w.start);
      assert v.Contains(va) && w.Contains(va);
      if v.Sound() && w.Sound() {
        PageOfByte(v, va);
        PageOfByte(w, va);
        OverlapIsSharedAddress(w.Lo(), w.Hi(), v.Lo(), v.Hi());
      } else {
        UnsoundCoversNothing(v);
        UnsoundCoversNothing(w);
      }
    }
  }

  lemma UnsoundCoversNothing(v: Vma)
    ensures !v.Sound() ==> v.Hi() == 0
  {
  }

  // Two areas that uvm_map() accepts one after the other, and that both contain address 0x2000.
  lemma TwoAreasShareByte()
    ensures var t := [Some(Vma(0x1000, WORD - 0x1800, Perm(true, true, false)))];
            var w := Vma(0x2000, 0x1000, Perm(true, false, false));
            RangeFree(t, w.start, w.length) && t[0].value.Contains(0x2000) && w.Contains(0x2000)
  {
    var v := Vma(0x1000, WORD - 0x1800, Perm(true, true, false));
    assert v.Hi() == 0;
  }

  // The first null pointer.
  function NullSlot(t: Table): (r: Option<nat>)
    ensures r.Some? ==> r.value < |t| && t[r.value].None? && forall j :: 0 <= j < r.value ==> t[j].Some?
    ensures r.None? ==> forall j :: 0 <= j < |t| ==> t[j].Some?
  {
    if t == [] then None
    else
      var n := |t| - 1;
      var front := NullSlot(t[..n]);
      if front.Some? then front
      else
        assert forall j :: 0 <= j < n ==> t[..n][j] == t[j];
        if t[n].None? then Some(n) else None
  }

  // The slot vmaalloc() takes.
  method FirstNull(t: Table) returns (r: Option<nat>)
    ensures r == NullSlot(t)
  {
    var i := 0;
    while i < |t|
      invariant 0 <= i <= |t|
      invariant forall j :: 0 <= j < i ==> t[j].Some?
    {
      if t[i].None? { return Some(i); }
      i := i + 1;
    }
    return None;
  }

  // The table afterwards covers what it covered before and the pages in [lo, hi), which
  // were not covered.
  ghost predicate Gains(t: Table, t': Table, lo: int, hi: int) {
    && (forall a :: Covered(t', a) <==> Covered(t, a) || InRange(lo, hi, a))
    && (forall a :: InRange(lo, hi, a) ==> !Covered(t, a))
  }

  // The table afterwards covers what it covered before except the pages in [lo, hi).
  ghost predicate Loses(t: Table, t': Table, lo: int, hi: int) {
    && (forall a :: Covered(t', a) <==> Covered(t, a) && !InRange(lo, hi, a))
    && (forall a :: InRange(lo, hi, a) ==> Covered(t, a))
  }

  lemma MapGains(t: Table, k: nat, v: Vma)
    requires ValidTable(t) && k < |t| && t[k].None? && RangeFree(t, v.start, v.length)
    ensures var t' := t[k := Some(v)];
            Gains(t, t', v.Lo(), v.Hi()) && (ValidTable(t') <==> v.Sound())
  {
    var t' := t[k := Some(v)];
    forall i | 0 <= i < |t| && t[i].Some?
      ensures !Overlap(v.Lo(), v.Hi(), t[i].value.Lo(), t[i].value.Hi())
    {
    }
    forall a | InRange(v.Lo(), v.Hi(), a)
      ensures !Covered(t, a) && CoveredBy(t', k, a)
    {
      if Covered(t, a) {
        var i :| CoveredBy(t, i, a);
        OverlapIsSharedAddress(v.Lo(), v.Hi(), t[i].value.Lo(), t[i].value.Hi());
      }
    }
    forall a
      ensures Covered(t', a) <==> Covered(t, a) || InRange(v.Lo(), v.Hi(), a)
    {
      if Covered(t, a) {
        var i :| CoveredBy(t, i, a);
        assert CoveredBy(t', i, a);
      }
      if Covered(t', a) && !InRange(v.Lo(), v.Hi(), a) {
        var i :| CoveredBy(t', i, a);
        assert CoveredBy(t, i, a);
      }
    }
  }

  // Replacing an area by a smaller one, or by nothing.
  lemma ShrinkLoses(t: Table, k: nat, w: Option<Vma>, lo: int, hi: int)
    requires ValidTable(t) && k < |t| && t[k].Some?
    requires w.Some? ==> w.value.Sound()
    requires forall a :: (w.Some? && InRange(w.value.Lo(), w.value.Hi(), a))
                      <==> InRange(t[k].value.Lo(), t[k].value.Hi(), a) && !InRange(lo, hi, a)
    requires forall a :: InRange(lo, hi, a) ==> InRange(t[k].value.Lo(), t[k].value.Hi(), a)
    ensures ValidTable(t[k := w]) && Loses(t, t[k := w], lo, hi)
  {
    var t' := t[k := w];
    forall i | 0 <= i < |t| && i != k && t[i].Some? && w.Some?
      ensures !Overlap(w.value.Lo(), w.value.Hi(), t[i].value.Lo(), t[i].value.Hi())
    {
      OverlapIsSharedAddress(w.value.Lo(), w.value.Hi(), t[i].value.Lo(), t[i].value.Hi());
      OverlapIsSharedAddress(t[k].value.Lo(), t[k].value.Hi(), t[i].value.Lo(), t[i].value.Hi());
    }
    forall a
      ensures Covered(t', a) <==> Covered(t, a) && !InRange(lo, hi, a)
      ensures InRange(lo, hi, a) ==> Covered(t, a)
    {
      if InRange(lo, hi, a) { assert CoveredBy(t, k, a); }
      if Covered(t', a) {
        var i :| CoveredBy(t', i, a);
        assert CoveredBy(t, i, a);
        if InRange(lo, hi, a) { OneAreaCovers(t, i, k, a); }
      }
      if Covered(t, a) && !InRange(lo, hi, a) {
        var i :| CoveredBy(t, i, a);
        assert CoveredBy(t', i, a);
      }
    }
  }

  // The area left of v once [addr, addr + length) is unmapped, and the pages whose entries go.
  datatype Cut = Cut(area: Option<Vma>, lo: Word, hi: Word)
  {
    // The range that pgt_deallocunmap() does not panic on.
    predicate Regular() {
      lo <= hi <= MAXVA
    }
  }

  // The modes uvm_unmap() accepts; at the start of an area it takes any length.
  predicate CanUnmap(v: Vma, addr: Word, length: Word) {
    v.Contains(addr) && (addr == v.start || Add(addr, length) == v.End())
  }

  function Unmap(v: Vma, addr: Word, length: Word): Cut
    requires CanUnmap(v, addr, length)
  {
    if v.length == length then
      Cut(None, Down(addr), Up(Add(addr, length)))
    else if addr == v.start then
      Cut(Some(v.(start := Add(v.start, length), length := Sub(v.length, length))),
          Down(addr), Down(Add(addr, length)))
    else
      Cut(Some(v.(length := Sub(v.length, length))), Up(addr), Up(Add(addr, length)))
  }

  // The end of the pages that the area loses: a length beyond the area reaches into others.
  function Lost(v: Vma, c: Cut): int {
    Min(c.hi, v.Hi())
  }

  /** Unmapping a whole area, a prefix or a suffix drops exactly the pages that no remaining
      byte of the area lies in. */
  lemma UnmapLoses(t: Table, k: nat, addr: Word, length: Word)
    requires ValidTable(t) && k < |t| && t[k].Some? && CanUnmap(t[k].value, addr, length)
    requires Unmap(t[k].value, addr, length).Regular()
    ensures var c := Unmap(t[k].value, addr, length);
            ValidTable(t[k := c.area]) && Loses(t, t[k := c.area], c.lo, Lost(t[k].value, c))
  {
    var v := t[k].value;
    var c := Unmap(v, addr, length);
    UnmapCuts(v, addr, length);
    ShrinkLoses(t, k, c.area, c.lo, Lost(v, c));
  }

  lemma UnmapCuts(v: Vma, addr: Word, length: Word)
    requires v.Sound() && CanUnmap(v, addr, length) && Unmap(v, addr, length).Regular()
    ensures var c := Unmap(v, addr, length);
            && (c.area.Some? ==> c.area.value.Sound() && c.area.value.perm == v.perm)
            && (forall a :: (c.area.Some? && InRange(c.area.value.Lo(), c.area.value.Hi(), a))
                         <==> InRange(v.Lo(), v.Hi(), a) && !InRange(c.lo, Lost(v, c), a))
            && (forall a :: InRange(c.lo, Lost(v, c), a) ==> InRange(v.Lo(), v.Hi(), a))
            && Aligned(c.lo) && Aligned(c.hi) && c.lo <= c.hi
  {
    hide Down, Up, Aligned;
    RoundingIsMonotone(v.start, addr);
    if length <= v.length {
      RoundingIsMonotone(addr, addr + length);
      RoundingIsMonotone(addr + length, v.End());
    } else if addr + length < WORD {
      RoundingIsMonotone(v.start, v.End());
    }
  }

  // Within an area, only its own pages go.
  lemma UnmapWithin(v: Vma, addr: Word, length: Word)
    requires v.Sound() && CanUnmap(v, addr, length) && length <= v.length
    ensures var c := Unmap(v, addr, length);
            c.lo <= c.hi <= v.Hi() && Lost(v, c) == c.hi
  {
    RoundingIsMonotone(v.start, addr);
    RoundingIsMonotone(addr, addr + length);
    RoundingIsMonotone(addr + length, v.End());
  }

  // ---------- the heap ----------

  datatype Grown = NoRoom | Unchanged | Larger(t: Table) | Smaller(addr: Word, length: Word)

  type Int = n: int | -0x8000_0000 <= n < 0x8000_0000

  // -n as an int: the least one is its own negation.
  function Neg(n: Int): Int {
    if n == -0x8000_0000 then n else -n
  }

  function Longer(v: Vma, n: nat): Vma
    requires n < WORD
  {
    v.(length := Add(v.length, n))
  }

  // uvm_growheap() on the area in slot h: a larger table, or the range it then passes to
  // uvm_unmap(). The test of the length is on unsigned numbers, so a heap of less than a page
  // passes it.
  method GrowHeap(t: Table, h: nat, n: Int) returns (r: Grown)
    requires h < |t| && t[h].Some?
    ensures r.Larger? ==> 0 < n && CanGrow(t, h, n) && r.t == t[h := Some(Longer(t[h].value, n))]
    ensures r.Smaller? ==>
              && n < 0 && !TooShort(t[h].value, n)
              && r.addr == Add(t[h].value.End(), ToWord(n)) && r.length == ToWord(Neg(n))
    ensures r.NoRoom? <==> (n < 0 && TooShort(t[h].value, n)) || (n > 0 && !CanGrow(t, h, n))
    ensures r.Unchanged? <==> n == 0
  {
    var heap := t[h].value;
    if n > 0 {
      var end := heap.End();
      if Add(end, n) < end || Add(end, n) > TRAPFRAME { return NoRoom; }
      var heap' := Longer(heap, n);
      var i := 0;
      while i < |t|
        invariant 0 <= i <= |t|
        invariant forall j :: 0 <= j < i && j != h && t[j].Some? ==>
                    !Overlap(heap'.Lo(), heap'.Hi(), t[j].value.Lo(), t[j].value.Hi())
      {
        if t[i].Some? && i != h {
          if Overlap(heap'.Lo(), heap'.Hi(), t[i].value.Lo(), t[i].value.Hi()) { return NoRoom; }
        }
        i := i + 1;
      }
      return Larger(t[h := Some(heap')]);
    } else if n < 0 {
      if Sub(heap.length, PGSIZE) < ToWord(Neg(n)) { return NoRoom; }
      return Smaller(Add(heap.End(), ToWord(n)), ToWord(Neg(n)));
    }
    return Unchanged;
  }

  // The test by which the heap keeps a page.
  predicate TooShort(v: Vma, n: Int) {
    Sub(v.length, PGSIZE) < ToWord(Neg(n))
  }

  predicate CanGrow(t: Table, h: nat, n: nat)
    requires h < |t| && t[h].Some? && n < WORD
  {
    t[h].value.End() + n <= TRAPFRAME && ClearAbove(t, h, Longer(t[h].value, n))
  }

  // No other area meets the page range of w.
  predicate ClearAbove(t: Table, h: nat, w: Vma) {
    forall j :: 0 <= j < |t| && j != h && t[j].Some? ==>
      !Overlap(w.Lo(), w.Hi(), t[j].value.Lo(), t[j].value.Hi())
  }

  lemma LongerEnds(v: Vma, n: nat)
    requires v.Sound() && v.End() + n <= TRAPFRAME
    ensures var w := Longer(v, n);
            w.Sound() && w.End() == v.End() + n && w.Lo() == v.Lo() && v.Hi() <= w.Hi() <= MAXVA
  {
    RoundingIsMonotone(v.End(), v.End() + n);
    RoundingIsMonotone(v.End() + n, TRAPFRAME);
  }

  lemma GrowGains(t: Table, h: nat, n: nat)
    requires ValidTable(t) && h < |t| && t[h].Some? && n < WORD && CanGrow(t, h, n)
    ensures var v, w := t[h].value, Longer(t[h].value, n);
            ValidTable(t[h := Some(w)]) && Gains(t, t[h := Some(w)], Max(v.Lo(), v.Hi()), w.Hi())
  {
    hide Down, Up, Aligned;
    var v, w := t[h].value, Longer(t[h].value, n);
    var t' := t[h := Some(w)];
    LongerEnds(v, n);
    var lo := Max(v.Lo(), v.Hi());
    forall i | 0 <= i < |t| && i != h && t[i].Some?
      ensures !Overlap(t[i].value.Lo(), t[i].value.Hi(), w.Lo(), w.Hi())
    {
    }
    forall a
      ensures Covered(t', a) <==> Covered(t, a) || InRange(lo, w.Hi(), a)
      ensures InRange(lo, w.Hi(), a) ==> !Covered(t, a)
    {
      if Covered(t, a) {
        var i :| CoveredBy(t, i, a);
        assert CoveredBy(t', i, a);
        if InRange(lo, w.Hi(), a) {
          OverlapIsSharedAddress(w.Lo(), w.Hi(), t[i].value.Lo(), t[i].value.Hi());
        }
      }
      if InRange(lo, w.Hi(), a) { assert CoveredBy(t', h, a); }
      if Covered(t', a) && !InRange(lo, w.Hi(), a) {
        var i :| CoveredBy(t', i, a);
        assert CoveredBy(t, i, a);
      }
    }
  }

  // A page that a byte of an area lies in is in the area's page range.
  lemma ContainedIsCovered(t: Table, va: Word, i: nat)
    requires i < |t| && t[i].Some? && t[i].value.Contains(va) && t[i].value.Sound() && Aligned(va)
    ensures CoveredBy(t, i, va)
  {
    RoundingIsMonotone(t[i].value.start, va);
  }

  lemma FindUnique(t: Table, va: Word, i: nat)
    requires ValidTable(t) && i < |t| && t[i].Some? && t[i].value.Contains(va)
    ensures Find(t, va) == Some(i)
  {
    forall j | 0 <= j < i && t[j].Some?
      ensures !t[j].value.Contains(va)
    {
      if t[j].value.Contains(va) {
        PageOfByte(t[j].value, va);
        PageOfByte(t[i].value, va);
        OneAreaCovers(t, i, j, Down(va));
      }
    }
    FindIs(t, va, i);
  }

  lemma PageOfByte(v: Vma, va: Word)
    requires v.Sound() && v.Contains(va)
    ensures InRange(v.Lo(), v.Hi(), Down(va))
  {
    RoundingIsMonotone(v.start, va);
  }
}
