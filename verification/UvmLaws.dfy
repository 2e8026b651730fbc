/**
 What follows from the simple model of UvmSpec: address spaces are private, where the model leaves
 a choice, what uvm_unmap() does to other areas, and when the heap keeps a page.
 */
module UvmLaws {
  import opened Options
  import opened VmaTable
  import opened CowModel
  import opened UvmSpec

  // ---------- address spaces are private ----------

  // The address space an event changes.
  function Space(e: Event): int {
    match e
    case Create(a, _) => a
    case Touch(a, _, _) => a
    case Load(a, _) => a
    case Store(a, _, _) => a
    case Put(a, _, _) => a
    case Get(a, _, _) => a
    case Map(a, _, _, _, _) => a
    case Cut(a, _, _) => a
    case Grow(a, _, _) => a
    case Fork(_, c, _) => c
  }

  ghost predicate SameSpace(m: Model, m': Model, b: int) {
    && (b in m.tables <==> b in m'.tables) && (b in m.tables ==> m'.tables[b] == m.tables[b])
    && forall v :: (Key(b, v) in m.mem <==> Key(b, v) in m'.mem)
                   && (Key(b, v) in m.mem ==> m'.mem[Key(b, v)] == m.mem[Key(b, v)])
  }

  // An event leaves every other address space as it is; a fork leaves the parent's too.
  lemma OthersStay(m: Model, e: Event, o: Outcome, m': Model, b: int)
    requires Follows(m, e, o, m') && !Stops(e, o) && b != Space(e)
    ensures SameSpace(m, m', b)
  {
  }

  // The models a run goes through.
  ghost predicate FollowsRun(ms: seq<Model>, es: seq<Event>, os: seq<Outcome>) {
    && |ms| == |os| + 1 && |os| <= |es|
    && forall i :: 0 <= i < |os| ==> Follows(ms[i], es[i], os[i], ms[i + 1]) && !Stops(es[i], os[i])
  }

  // The states of a machine that takes only such steps.
  ghost predicate MachineRun(ss: seq<State>, es: seq<Event>, os: seq<Outcome>, need: (nat, nat, int) -> nat) {
    && |ss| == |os| + 1 && |os| <= |es| && Good(ss[0])
    && forall i :: 0 <= i < |os| ==> StepOk(ss[i], i, es[i], os[i], ss[i + 1], need) && !Stops(es[i], os[i])
  }

  lemma MachineFollows(ss: seq<State>, es: seq<Event>, os: seq<Outcome>, need: (nat, nat, int) -> nat)
    requires MachineRun(ss, es, os, need)
    ensures forall i :: 0 <= i < |ss| ==> Shaped(ss[i])
    ensures FollowsRun(seq(|ss|, i requires 0 <= i < |ss| => ModelOf(ss[i])), es, os)
  {
    forall i | 0 <= i < |ss|
      ensures Shaped(ss[i])
    {
      if i > 0 { assert StepOk(ss[i - 1], i - 1, es[i - 1], os[i - 1], ss[i - 1 + 1], need); }
    }
  }

  /** Whatever the others do, an address space keeps its areas and its bytes until an event of
      its own. */
  lemma {:induction false} RunLeavesOthers(ms: seq<Model>, es: seq<Event>, os: seq<Outcome>, b: int, n: nat)
    requires FollowsRun(ms, es, os) && n <= |os|
    requires forall i :: 0 <= i < n ==> Space(es[i]) != b
    ensures SameSpace(ms[0], ms[n], b)
  {
    if n > 0 {
      RunLeavesOthers(ms, es, os, b, n - 1);
      assert Follows(ms[n - 1], es[n - 1], os[n - 1], ms[n - 1 + 1]);
      OthersStay(ms[n - 1], es[n - 1], os[n - 1], ms[n], b);
      assert forall v :: Key(b, v) in ms[0].mem <==> Key(b, v) in ms[n - 1].mem;
    }
  }

  // ---------- what the model leaves open ----------

  // copyin() need not look at a permission: what is there may be read.
  ghost predicate ReadableRange(m: Model, a: int, va: Word, len: nat) {
    forall x :: va <= x < va + len && HasByte(m.mem, a, x) ==> MayByte(m.tables, a, x, Read)
  }

  /** Page-aligned areas leave no choice: memory apart, the model decides what an event does. For
      copyin() the areas in the range must allow reading. */
  lemma Determined(m: Model, e: Event, o1: Outcome, m1: Model, o2: Outcome, m2: Model)
    requires Follows(m, e, o1, m1) && Follows(m, e, o2, m2)
    requires forall a :: a in m.tables ==> AlignedStarts(m.tables[a])
    requires e.Get? ==> ReadableRange(m, e.a, e.va, e.len)
    requires !o1.NoMemory? && !o2.NoMemory? && !(e.Fork? && o1.Panicked?)
    ensures o1 == o2 && m1 == m2
  {
    hide MapZeros, Unmapped, Zeroed, Forked, Spliced, Reads, May, Must, AllMay, AlignedStarts, ReadableRange;
    match e
    case Touch(a, va, acc) => MayDecides(m.tables, PageOf(a, va), acc);
    case Load(a, va) =>
      MayDecides(m.tables, PageOf(a, va), Read);
      if o1.Got? && o2.Got? { ReadsOnce(m.mem, a, va, o1.data, o2.data); }
    case Store(a, va, _) => MayDecides(m.tables, PageOf(a, va), Write);
    case Put(a, va, src) =>
      if a in m.tables && va + |src| <= MAXVA { PutDetermined(m, a, va, src, o1, m1, o2, m2); }
    case Get(a, va, len) =>
      if a in m.tables { GetDetermined(m, a, va, len, o1, o2); }
    case _ =>
  }

  lemma MayDecides(tables: map<int, Table>, k: Key, acc: Access)
    requires forall a :: a in tables ==> AlignedStarts(tables[a])
    ensures May(tables, k, acc) ==> Must(tables, k, acc)
  {
    if May(tables, k, acc) { MayIsMust(tables, k, acc); }
  }

  lemma GetDetermined(m: Model, a: int, va: Word, len: nat, o1: Outcome, o2: Outcome)
    requires GetOk(m, a, va, len, o1) && GetOk(m, a, va, len, o2) && !o1.NoMemory? && !o2.NoMemory?
    requires a in m.tables && AlignedStarts(m.tables[a]) && ReadableRange(m, a, va, len)
    ensures o1 == o2
  {
    hide May, Must, AlignedStarts, Reads, GetFirst, ReadableRange;
    if o1.Got? && o2.Got? {
      ReadsOnce(m.mem, a, va, o1.data, o2.data);
    } else {
      if o1.Got? { GotAll(m, a, va, o1.data); }
      if o2.Got? { GotAll(m, a, va, o2.data); }
      var n1, n2 := Bytes(o1, len), Bytes(o2, len);
      if n1 < n2 { GetStops(m, a, va, len, n1, n2); }
      if n2 < n1 { GetStops(m, a, va, len, n2, n1); }
    }
  }

  lemma GotAll(m: Model, a: int, va: Word, data: seq<int>)
    requires Reads(m.mem, a, va, data)
    ensures GetFirst(m, a, va, |data|)
  {
    forall x | va <= x < va + |data|
      ensures HasByte(m.mem, a, x)
    {
      assert ByteAt(m.mem, a, va + (x - va), data[x - va]);
    }
  }

  lemma GetStops(m: Model, a: int, va: Word, len: nat, n: nat, more: nat)
    requires GetFirst(m, a, va, more) && n < more <= len && a in m.tables && AlignedStarts(m.tables[a])
    requires ReadableRange(m, a, va, len)
    ensures Must(m.tables, PageOf(a, va + n), Read)
  {
    assert HasByte(m.mem, a, va + n);
    assert MayByte(m.tables, a, va + n, Read);
    MayIsMust(m.tables, PageOf(a, va + n), Read);
  }

  // A page of an area that grants only writing: copyin() reads it if it is in memory, and is
  // refused it if not. The model does not tell.
  lemma GetOfWriteOnly()
    ensures var k := Key(7, 1);
            var t := [Some(Vma(0x1000, 0x1000, Perm(false, true, false)))];
            var m := Model(imap[k := ZERO], map[7 := t]);
            && AlignedStarts(t) && Follows(m, Get(7, 0x1000, 1), Got([0]), m)
            && Follows(m, Get(7, 0x1000, 1), Refused(0), m)
  {
    var k := Key(7, 1);
    var t := [Some(Vma(0x1000, 0x1000, Perm(false, true, false)))];
    var m := Model(imap[k := ZERO], map[7 := t]);
    FindIs(t, 0x1000, 0);
    assert Find(m.tables[7], PageOf(7, 0x1000).Va()) == Some(0);
    assert ByteAt(m.mem, 7, 0x1000, 0);
  }

  lemma PutDetermined(m: Model, a: int, va: Word, src: seq<int>,
                      o1: Outcome, m1: Model, o2: Outcome, m2: Model)
    requires PutOk(m, a, va, src, o1, m1) && PutOk(m, a, va, src, o2, m2) && !o1.NoMemory? && !o2.NoMemory?
    requires a in m.tables && va + |src| <= MAXVA && AlignedStarts(m.tables[a])
    ensures o1 == o2 && m1 == m2
  {
    hide Spliced, May, Must, AllMay, AlignedStarts;
    var n1, n2 := Bytes(o1, |src|), Bytes(o2, |src|);
    if n1 < n2 { PutStops(m, a, va, n1, n2); }
    if n2 < n1 { PutStops(m, a, va, n2, n1); }
  }

  function Bytes(o: Outcome, all: nat): nat {
    if o.Refused? then o.n else all
  }

  // A copy is not refused a page that another copy writes.
  lemma PutStops(m: Model, a: int, va: Word, n: nat, more: nat)
    requires AllMay(m.tables, a, va, more, Write) && n < more && a in m.tables && AlignedStarts(m.tables[a])
    ensures Must(m.tables, PageOf(a, va + n), Write)
  {
    assert MayByte(m.tables, a, va + n, Write);
    MayIsMust(m.tables, PageOf(a, va + n), Write);
  }

  lemma ReadsOnce(m: Memory, a: int, va: Word, x: seq<int>, y: seq<int>)
    requires Reads(m, a, va, x) && Reads(m, a, va, y) && |x| == |y|
    ensures x == y
  {
    forall i | 0 <= i < |x|
      ensures x[i] == y[i]
    {
      assert ByteAt(m, a, va + i, x[i]) && ByteAt(m, a, va + i, y[i]);
    }
  }

  // ---------- unmapping ----------

  // A cut of slot i leaves the pages of the other areas as they are.
  ghost predicate LeavesOthers(m: Model, a: int, addr: Word, length: Word)
    requires a in m.tables && CanCut(m.tables[a], addr, length)
  {
    forall j, v :: j != Find(m.tables[a], addr).value && CoveredBy(m.tables[a], j, v * PGSIZE) ==>
      SamePage(m, AfterCut(m, a, addr, length), Key(a, v))
  }

  ghost predicate SamePage(m: Model, m': Model, k: Key) {
    (k in m.mem <==> k in m'.mem) && (k in m.mem ==> m'.mem[k] == m.mem[k])
  }

  /** uvm_unmap() leaves the pages of every other area alone, whatever they hold, exactly when the
      range that it passes to pgt_deallocunmap() meets none of them. */
  lemma CutLeavesOthersExactly(tables: map<int, Table>, a: int, addr: Word, length: Word)
    requires a in tables && ValidTable(tables[a]) && CanCut(tables[a], addr, length)
    ensures var t := tables[a];
            var i := Find(t, addr).value;
            var c := Unmap(t[i].value, addr, length);
            ((forall mem: Memory :: LeavesOthers(Model(mem, tables), a, addr, length))
             <==> (forall j :: 0 <= j < |t| && j != i && t[j].Some? ==>
                     !Overlap(c.lo, c.hi, t[j].value.Lo(), t[j].value.Hi())))
  {
    var t := tables[a];
    var i := Find(t, addr).value;
    var c := Unmap(t[i].value, addr, length);
    UnmapCuts(t[i].value, addr, length);
    if j :| 0 <= j < |t| && j != i && t[j].Some? && Overlap(c.lo, c.hi, t[j].value.Lo(), t[j].value.Hi()) {
      var x := Max(c.lo, t[j].value.Lo());
      var k := Key(a, x / PGSIZE);
      assert k.Va() == x;
      var m := Model(imap[k := Filled(1)], tables);
      CutZeroes(m, a, addr, length, i, j, k);
    } else {
      forall mem: Memory
        ensures LeavesOthers(Model(mem, tables), a, addr, length)
      {
        CutSpares(Model(mem, tables), a, addr, length);
      }
    }
  }

  lemma CutZeroes(m: Model, a: int, addr: Word, length: Word, i: nat, j: int, k: Key)
    requires a in m.tables && CanCut(m.tables[a], addr, length) && i == Find(m.tables[a], addr).value != j
    requires var c := Unmap(m.tables[a][i].value, addr, length);
             CoveredBy(m.tables[a], j, k.Va()) && InRange(c.lo, c.hi, k.Va())
    requires k.space == a && k in m.mem && m.mem[k] == Filled(1)
    ensures !LeavesOthers(m, a, addr, length)
  {
    assert CoveredBy(m.tables[a], j, k.vpn * PGSIZE) && k == Key(a, k.vpn);
    assert Filled(1)[0] != ZERO[0];
    assert !SamePage(m, AfterCut(m, a, addr, length), Key(a, k.vpn));
  }

  lemma CutSpares(m: Model, a: int, addr: Word, length: Word)
    requires a in m.tables && ValidTable(m.tables[a]) && CanCut(m.tables[a], addr, length)
    requires var t := m.tables[a];
             var i := Find(t, addr).value;
             var c := Unmap(t[i].value, addr, length);
             forall j :: 0 <= j < |t| && j != i && t[j].Some? ==>
               !Overlap(c.lo, c.hi, t[j].value.Lo(), t[j].value.Hi())
    ensures LeavesOthers(m, a, addr, length)
  {
    var t := m.tables[a];
    var i := Find(t, addr).value;
    var c := Unmap(t[i].value, addr, length);
    forall j, v | j != i && CoveredBy(t, j, v * PGSIZE)
      ensures SamePage(m, AfterCut(m, a, addr, length), Key(a, v))
    {
      OverlapIsSharedAddress(c.lo, c.hi, t[j].value.Lo(), t[j].value.Hi());
      assert !InRange(c.lo, c.hi, v * PGSIZE);
    }
  }

  // Two neighbouring pages, each an area: unmapping two pages from the first on zeroes the second,
  // whose area stays.
  lemma CutZeroesNeighbour()
    ensures var rw := Perm(true, true, false);
            var t := [Some(Vma(0x1000, 0x1000, rw)), Some(Vma(0x2000, 0x1000, rw))];
            var m := Model(imap[Key(7, 1) := Filled(1), Key(7, 2) := Filled(1)], map[7 := t]);
            && ValidTable(t) && CanCut(t, 0x1000, 0x2000)
            && var m' := AfterCut(m, 7, 0x1000, 0x2000);
               m'.tables[7][1] == t[1] && Key(7, 2) in m'.mem && m'.mem[Key(7, 2)] == ZERO
  {
    var rw := Perm(true, true, false);
    var v := Vma(0x1000, 0x1000, rw);
    var t := [Some(v), Some(Vma(0x2000, 0x1000, rw))];
    FindIs(t, 0x1000, 0);
    assert Unmap(v, 0x1000, 0x2000).lo == 0x1000 && Unmap(v, 0x1000, 0x2000).hi == 0x3000;
    assert Key(7, 2).Va() == 0x2000;
  }

  /** What is left of the area contains no byte exactly when the length is beyond it and does not
      wrap; where the sum wraps, the area has grown downwards. */
  lemma CutRemainderExactly(v: Vma, addr: Word, length: Word)
    requires v.Sound() && CanUnmap(v, addr, length) && Unmap(v, addr, length).Regular()
    ensures var left := Unmap(v, addr, length).area;
            && (left.Some? <==> length != v.length)
            && (left.Some? ==>
                  && ((forall va: Word :: !left.value.Contains(va))
                        <==> v.length < length && v.start + length < WORD)
                  && ((exists va: Word :: left.value.Contains(va) && !v.Contains(va))
                        <==> v.start + length >= WORD))
  {
    var left := Unmap(v, addr, length).area;
    if left.Some? {
      var w := left.value;
      assert w.Contains(w.start) <==> w.start < w.End();
      assert w.End() == v.End() || w.End() == addr;
    }
  }

  // An area that unmapping makes larger.
  lemma CutEnlarges()
    ensures var v := Vma(0x1800, 0x1000, Perm(true, true, false));
            && CanCut([Some(v)], 0x1800, WORD - 0x400)
            && Unmap(v, 0x1800, WORD - 0x400).area == Some(v.(start := 0x1400, length := 0x1400))
  {
    var v := Vma(0x1800, 0x1000, Perm(true, true, false));
    FindIs([Some(v)], 0x1800, 0);
    var c := Unmap(v, 0x1800, WORD - 0x400);
    assert c.lo == 0x1000 == c.hi;
  }

  // ---------- the heap ----------

  // An area that sbrk() can work on: at least a page long, and below MAXVA.
  predicate HasHeap(tables: map<int, Table>, a: int, h: nat) {
    a in tables && IsHeap(tables[a], h)
  }

  predicate IsHeap(t: Table, h: nat) {
    h < |t| && t[h].Some? && PGSIZE <= t[h].value.length && t[h].value.Fits() && t[h].value.Hi() <= MAXVA
  }

  // On such a heap sbrk() changes the length, or refuses what would not fit or not leave a page,
  // and the least int, whose negation is itself.
  predicate CanResize(t: Table, h: nat, n: Int)
    requires IsHeap(t, h)
  {
    if n > 0 then CanGrow(t, h, n) else -0x8000_0000 < n && t[h].value.length + n >= PGSIZE
  }

  ghost function Resized(m: Model, a: int, h: nat, n: Int): Model
    requires HasHeap(m.tables, a, h) && CanResize(m.tables[a], h, n)
  {
    var t := m.tables[a];
    var v := t[h].value;
    var w := v.(length := v.length + n);
    Model(if v.Hi() <= w.Hi() then MapZeros(m.mem, a, v.Hi(), w.Hi()) else Unmapped(m.mem, a, w.Hi(), v.Hi()),
          m.tables[a := t[h := Some(w)]])
  }

  /** uvm_growheap() with its unsigned arithmetic and its call of uvm_unmap() is just that. */
  lemma GrowsSimply(m: Model, a: int, h: nat, n: Int, o: Outcome, m': Model)
    requires HasHeap(m.tables, a, h) && ValidTable(m.tables[a])
    ensures GrowOk(m, a, h, n, o, m') <==>
      if CanResize(m.tables[a], h, n) then o == Ok && m' == Resized(m, a, h, n) else o == Refused(0) && m' == m
  {
    hide MapZeros, Unmapped, Zeroed, Down, Up, Aligned, ValidTable, CanCut, AfterCut;
    var v := m.tables[a][h].value;
    if n > 0 {
      if CanGrow(m.tables[a], h, n) { LengthensHeap(m, a, h, n); }
    } else if n < 0 {
      if CanResize(m.tables[a], h, n) { ShrinksHeap(m, a, h, n); }
    } else {
      MapNoZeros(m.mem, a, v.Hi());
      assert m.tables[a][h := Some(v.(length := v.length + 0))] == m.tables[a];
    }
  }

  lemma AreaSound(t: Table, h: nat)
    requires ValidTable(t) && h < |t| && t[h].Some?
    ensures t[h].value.Sound()
  {
  }

  lemma LengthensHeap(m: Model, a: int, h: nat, n: Int)
    requires HasHeap(m.tables, a, h) && ValidTable(m.tables[a]) && n > 0 && CanGrow(m.tables[a], h, n)
    ensures WithLonger(m, a, h, n) == Resized(m, a, h, n)
  {
    hide MapZeros, Unmapped, Down, Up, Aligned;
    var v := m.tables[a][h].value;
    RoundingIsMonotone(v.start, v.End());
    LongerEnds(v, n);
  }

  // sbrk() of a negative number cuts the end off the heap.
  lemma ShrinksHeap(m: Model, a: int, h: nat, n: Int)
    requires HasHeap(m.tables, a, h) && ValidTable(m.tables[a]) && n < 0 && CanResize(m.tables[a], h, n)
    ensures var addr := Add(m.tables[a][h].value.End(), ToWord(n));
            && !TooShort(m.tables[a][h].value, n) && CanCut(m.tables[a], addr, ToWord(Neg(n)))
            && AfterCut(m, a, addr, ToWord(Neg(n))) == Resized(m, a, h, n)
  {
    hide MapZeros, Unmapped, Zeroed, Down, Up, Aligned, Find, ValidTable;
    var t := m.tables[a];
    var v := t[h].value;
    var addr := v.End() + n;
    assert Add(v.End(), ToWord(n)) == addr && ToWord(Neg(n)) == -n;
    FindUnique(t, addr, h);
    UnmapWithin(v, addr, -n);
    var c := Unmap(v, addr, -n);
    assert c.area == Some(v.(length := v.length + n)) && c.lo == c.area.value.Hi() && c.hi == v.Hi();
    UnmapZeroed(m.mem, a, c.lo, c.hi);
    MapNoZeros(m.mem, a, v.Hi());
  }

  // e does not unmap in the heap in slot h of a, and sbrk() works on that slot.
  predicate SparesHeap(m: Model, e: Event, a: int, h: nat) {
    && (e.Cut? && e.a == a && a in m.tables ==> Find(m.tables[a], e.addr) != Some(h))
    && (e.Grow? && e.a == a ==> e.h == h)
  }

  ghost predicate SoundHeap(tables: map<int, Table>, a: int, h: nat) {
    HasHeap(tables, a, h) && ValidTable(tables[a])
  }

  lemma ShrinkKeepsHeap(t: Table, h: nat, n: nat)
    requires ValidTable(t) && IsHeap(t, h) && 0 < n <= t[h].value.length - PGSIZE
    ensures var t' := t[h := Some(t[h].value.(length := t[h].value.length - n))];
            ValidTable(t') && IsHeap(t', h)
  {
    hide Down, Up, Aligned;
    var v := t[h].value;
    var addr := v.End() - n;
    UnmapWithin(v, addr, n);
    assert Unmap(v, addr, n).area == Some(v.(length := v.length - n));
    UnmapLoses(t, h, addr, n);
    RoundingIsMonotone(addr, v.End());
  }

  lemma GrowKeepsHeap(m: Model, a: int, h: nat, n: Int)
    requires SoundHeap(m.tables, a, h) && CanResize(m.tables[a], h, n)
    ensures SoundHeap(Resized(m, a, h, n).tables, a, h)
  {
    hide MapZeros, Unmapped, Down, Up, Aligned, ValidTable;
    var t := m.tables[a];
    var v := t[h].value;
    if n > 0 {
      AreaSound(t, h);
      LongerEnds(v, n);
      GrowGains(t, h, n);
    } else if n < 0 {
      ShrinkKeepsHeap(t, h, -n);
    } else {
      assert t[h := Some(v.(length := v.length + 0))] == t;
    }
  }

  // An address space with an area is not new.
  lemma InUse(tables: map<int, Table>, p: int, a: int, h: nat)
    requires HasHeap(tables, a, h)
    ensures !Forkable(tables, p, a)
  {
  }

  lemma StepKeepsHeap(m: Model, e: Event, o: Outcome, m': Model, a: int, h: nat)
    requires Follows(m, e, o, m') && !Stops(e, o) && SoundHeap(m.tables, a, h) && SparesHeap(m, e, a, h)
    ensures SoundHeap(m'.tables, a, h)
  {
    hide MapZeros, Unmapped, Zeroed, Forked, Spliced, Reads, May, Must, AllMay;
    if Space(e) != a {
      OthersStay(m, e, o, m', a);
    } else {
      match e
      case Map(_, addr, length, perm, pool) =>
        if CanMap(m.tables, a, addr, length, pool) {
          MapGains(m.tables[a], NullSlot(m.tables[a]).value, Vma(addr, length, perm));
        }
      case Cut(_, addr, length) =>
        UnmapLoses(m.tables[a], Find(m.tables[a], addr).value, addr, length);
      case Grow(_, _, n) =>
        GrowsSimply(m, a, h, n, o, m');
        if CanResize(m.tables[a], h, n) { GrowKeepsHeap(m, a, h, n); }
      case Fork(p, _, _) =>
        InUse(m.tables, p, a, h);
      case _ =>
    }
  }

  /** The heap keeps at least a page over every run in which no unmap starts in it. */
  lemma {:induction false} HeapStays(ms: seq<Model>, es: seq<Event>, os: seq<Outcome>, a: int, h: nat, n: nat)
    requires FollowsRun(ms, es, os) && n <= |os| && SoundHeap(ms[0].tables, a, h)
    requires forall i :: 0 <= i < n ==> SparesHeap(ms[i], es[i], a, h)
    ensures SoundHeap(ms[n].tables, a, h)
  {
    if n > 0 {
      HeapStays(ms, es, os, a, h, n - 1);
      assert Follows(ms[n - 1], es[n - 1], os[n - 1], ms[n - 1 + 1]);
      StepKeepsHeap(ms[n - 1], es[n - 1], os[n - 1], ms[n], a, h);
    }
  }

  /** An unmap that starts in the heap leaves it a heap exactly when a page of it remains, or when
      the sum of its start and the length wraps. */
  lemma CutKeepsHeapExactly(t: Table, h: nat, addr: Word, length: Word)
    requires ValidTable(t) && IsHeap(t, h) && Find(t, addr) == Some(h) && CanCut(t, addr, length)
    ensures IsHeap(t[h := Unmap(t[h].value, addr, length).area], h) <==>
            length + PGSIZE <= t[h].value.length || t[h].value.start + length >= WORD
  {
    var v := t[h].value;
    UnmapCuts(v, addr, length);
    if length <= v.length {
      RoundingIsMonotone(addr, v.End());
    }
  }

  // Half of a heap of one page is unmapped. Then sbrk() of minus a page passes the test that is to
  // leave a page, and panics.
  lemma CutBreaksHeap()
    ensures var t := [Some(Vma(0x3000, 0x1000, Perm(true, true, true)))];
            var m := Model(imap[], map[7 := t]);
            && SoundHeap(m.tables, 7, 0) && CanCut(t, 0x3000, 0x800)
            && var m' := AfterCut(m, 7, 0x3000, 0x800);
               !HasHeap(m'.tables, 7, 0) && Follows(m', Grow(7, 0, -0x1000), Panicked, m')
  {
    var v := Vma(0x3000, 0x1000, Perm(true, true, true));
    var t := [Some(v)];
    FindIs(t, 0x3000, 0);
    assert v.Hi() == 0x4000;
    var c := Unmap(v, 0x3000, 0x800);
    assert c == VmaTable.Cut(Some(Vma(0x3800, 0x800, v.perm)), 0x3000, 0x3000);
    var t' := t[0 := c.area];
    FindNone(t', 0x3000);
    assert Add(t'[0].value.End(), ToWord(-0x1000)) == 0x3000;
  }
}
