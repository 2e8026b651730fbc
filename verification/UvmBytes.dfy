/**
 What the events of UvmSpec do to single bytes: which byte of which address space reads as what
 before and after, and what permission an access needs.
 */
module UvmBytes {
  import opened Options
  import opened VmaTable
  import opened CowModel
  import opened UvmSpec
  import opened UvmLaws

  // An address space has a full page wherever an area covers one, and nowhere else.
  ghost predicate WellFormed(m: Model) {
    && (forall k :: k in m.mem <==> k.space in m.tables && Covered(m.tables[k.space], k.Va()))
    && (forall k :: k in m.mem ==> |m.mem[k]| == PGSIZE)
  }

  lemma MachineIsWellFormed(s: State)
    requires Shaped(s)
    ensures WellFormed(ModelOf(s))
  {
    PagesAreFull(s);
  }

  // The byte at x of space b reads as it did, or is as absent.
  ghost predicate KeepsByte(m: Model, m': Model, b: int, x: nat) {
    forall v :: ByteAt(m'.mem, b, x, v) <==> ByteAt(m.mem, b, x, v)
  }

  ghost predicate NoByte(m: Model, b: int, x: nat) {
    forall v :: !ByteAt(m.mem, b, x, v)
  }

  // ---------- writing ----------

  // The bytes src are at va of space a, and every other byte of every space is as it was.
  ghost predicate WroteBytes(m: Model, m': Model, a: int, va: nat, src: seq<int>) {
    && (forall i :: 0 <= i < |src| ==> ByteAt(m'.mem, a, va + i, src[i]))
    && (forall b, x: nat :: !(b == a && va <= x < va + |src|) ==> KeepsByte(m, m', b, x))
  }

  lemma MayIsThere(m: Model, a: int, va: nat, n: nat, x: nat)
    requires WellFormed(m) && AllMay(m.tables, a, va, n, Write) && va <= x < va + n
    ensures PageOf(a, x) in m.mem && |m.mem[PageOf(a, x)]| == PGSIZE
  {
    assert MayByte(m.tables, a, x, Write);
    var k := PageOf(a, x);
    var i :| CoveredBy(m.tables[k.space], i, k.Va());
  }

  lemma SplicedByte(mem: Memory, a: int, va: nat, src: seq<int>, b: int, x: nat)
    requires PageOf(b, x) in mem && |mem[PageOf(b, x)]| == PGSIZE
    ensures var v := if b == a && va <= x < va + |src| then src[x - va] else mem[PageOf(b, x)][x % PGSIZE];
            ByteAt(Spliced(mem, a, va, src), b, x, v)
  {
    var k := PageOf(b, x);
    assert k.Va() + x % PGSIZE == x;
  }

  lemma SplicedBytes(m: Model, m': Model, a: int, va: nat, src: seq<int>)
    requires WellFormed(m) && AllMay(m.tables, a, va, |src|, Write)
    requires m'.mem == Spliced(m.mem, a, va, src)
    ensures WroteBytes(m, m', a, va, src)
  {
    forall i | 0 <= i < |src|
      ensures ByteAt(m'.mem, a, va + i, src[i])
    {
      MayIsThere(m, a, va, |src|, va + i);
      SplicedByte(m.mem, a, va, src, a, va + i);
    }
    forall b, x: nat | !(b == a && va <= x < va + |src|)
      ensures KeepsByte(m, m', b, x)
    {
      if PageOf(b, x) in m.mem { SplicedByte(m.mem, a, va, src, b, x); }
    }
  }

  // How many bytes copyout() wrote.
  function Written(o: Outcome, all: nat): nat {
    match o
    case Ok => all
    case Refused(n) => n
    case NoMemory(n) => n
    case _ => 0
  }

  ghost predicate PutsBytes(m: Model, m': Model, a: int, va: nat, src: seq<int>, o: Outcome) {
    Written(o, |src|) <= |src| && WroteBytes(m, m', a, va, src[..Written(o, |src|)])
  }

  /** copyout() writes its bytes, or those before the page at which it stops, and nothing else. */
  lemma PutBytes(m: Model, a: int, va: Word, src: seq<int>, o: Outcome, m': Model)
    requires WellFormed(m) && Follows(m, Put(a, va, src), o, m')
    ensures PutsBytes(m, m', a, va, src, o)
    ensures o == Ok ==> Reads(m'.mem, a, va, src)
  {
    var n := Written(o, |src|);
    if a in m.tables && va + |src| <= MAXVA {
      SplicedBytes(m, m', a, va, src[..n]);
      if o == Ok { assert src[..n] == src; }
    }
  }

  /** A store writes its byte and nothing else. */
  lemma StoreBytes(m: Model, a: int, va: Word, b: int, o: Outcome, m': Model)
    requires WellFormed(m) && Follows(m, Store(a, va, b), o, m')
    ensures WroteBytes(m, m', a, va, if o == Ok then [b] else [])
  {
    if o == Ok {
      assert AllMay(m.tables, a, va, 1, Write) by {
        forall x | va <= x < va + 1 ensures MayByte(m.tables, a, x, Write) { }
      }
      SplicedBytes(m, m', a, va, [b]);
    }
  }

  // A load after a store gives the byte stored.
  lemma StoreThenLoad(m: Model, a: int, va: Word, b: int, m': Model, data: seq<int>, m'': Model)
    requires WellFormed(m) && Follows(m, Store(a, va, b), Ok, m') && Follows(m', Load(a, va), Got(data), m'')
    ensures data == [b] && m'' == m'
  {
    StoreBytes(m, a, va, b, Ok, m');
    assert ByteAt(m'.mem, a, va + 0, [b][0]) && ByteAt(m'.mem, a, va + 0, data[0]);
  }

  // A copyin() after a copyout() gives the bytes copied.
  lemma PutThenGet(m: Model, a: int, va: Word, src: seq<int>, m': Model, data: seq<int>, m'': Model)
    requires WellFormed(m) && Follows(m, Put(a, va, src), Ok, m') && Follows(m', Get(a, va, |src|), Got(data), m'')
    ensures data == src && m'' == m'
  {
    PutBytes(m, a, va, src, Ok, m');
    ReadsOnce(m'.mem, a, va, data, src);
  }

  // ---------- areas ----------

  // Bytes [lo, hi) of space a are new zeros, and every other byte is as it was.
  ghost predicate NewZeros(m: Model, m': Model, a: int, lo: int, hi: int) {
    forall b, x: nat ::
      if b == a && lo <= x < hi then NoByte(m, b, x) && ByteAt(m'.mem, b, x, 0) else KeepsByte(m, m', b, x)
  }

  lemma PageInRange(lo: int, hi: int, x: nat)
    requires Aligned(lo) && Aligned(hi)
    ensures lo <= x < hi <==> InRange(lo, hi, x / PGSIZE * PGSIZE)
  {
  }

  lemma ZerosBytes(m: Model, m': Model, a: int, lo: int, hi: int)
    requires Aligned(lo) && Aligned(hi) && m'.mem == MapZeros(m.mem, a, lo, hi)
    requires forall k :: k in m.mem ==> !Within(k, a, lo, hi)
    ensures NewZeros(m, m', a, lo, hi)
  {
    forall b, x: nat
      ensures if b == a && lo <= x < hi then NoByte(m, b, x) && ByteAt(m'.mem, b, x, 0) else KeepsByte(m, m', b, x)
    {
      PageInRange(lo, hi, x);
      assert Within(PageOf(b, x), a, lo, hi) <==> b == a && lo <= x < hi;
    }
  }

  /** uvm_map() adds the area's pages as zeros. */
  lemma MapBytes(m: Model, a: int, addr: Word, length: Word, perm: Perm, pool: bool, m': Model)
    requires WellFormed(m) && Follows(m, Map(a, addr, length, perm, pool), Ok, m')
    requires ValidTable(m.tables[a])
    ensures var v := Vma(addr, length, perm); NewZeros(m, m', a, v.Lo(), v.Hi())
  {
    var v, t := Vma(addr, length, perm), m.tables[a];
    MapGains(t, NullSlot(t).value, v);
    ZerosBytes(m, m', a, v.Lo(), v.Hi());
  }

  /** After a fork the child reads what the parent reads, and nobody else's bytes change. */
  lemma ForkBytes(m: Model, p: int, c: int, unused: nat, m': Model)
    requires Follows(m, Fork(p, c, unused), Ok, m')
    ensures forall x: nat, v :: ByteAt(m'.mem, c, x, v) <==> ByteAt(m.mem, p, x, v)
    ensures forall b, x: nat :: b != c ==> KeepsByte(m, m', b, x)
  {
  }

  /** uvm_unmap() takes the area's pages away, zeroes what else lies in the range, and leaves every
      other byte. */
  lemma CutBytes(m: Model, a: int, addr: Word, length: Word, m': Model)
    requires Follows(m, Event.Cut(a, addr, length), Ok, m') && a in m.tables && ValidTable(m.tables[a]) && WellFormed(m)
    ensures CanCut(m.tables[a], addr, length)
    ensures var v := m.tables[a][Find(m.tables[a], addr).value].value;
            var c := Unmap(v, addr, length);
            forall b, x: nat ::
              if b == a && c.lo <= x < Lost(v, c) then NoByte(m', b, x)
              else if b == a && c.lo <= x < c.hi then
                (exists w :: ByteAt(m.mem, b, x, w)) ==> ByteAt(m'.mem, b, x, 0)
              else KeepsByte(m, m', b, x)
  {
    var v := m.tables[a][Find(m.tables[a], addr).value].value;
    var c := Unmap(v, addr, length);
    UnmapCuts(v, addr, length);
    forall b, x: nat
      ensures if b == a && c.lo <= x < Lost(v, c) then NoByte(m', b, x)
              else if b == a && c.lo <= x < c.hi then
                (exists w :: ByteAt(m.mem, b, x, w)) ==> ByteAt(m'.mem, b, x, 0)
              else KeepsByte(m, m', b, x)
    {
      PageInRange(c.lo, c.hi, x);
      PageInRange(c.lo, Lost(v, c), x);
      assert Within(PageOf(b, x), a, c.lo, c.hi) <==> b == a && c.lo <= x < c.hi;
      assert Within(PageOf(b, x), a, c.lo, Lost(v, c)) <==> b == a && c.lo <= x < Lost(v, c);
    }
  }

  // Bytes [lo, hi) of space a are gone, and every other byte is as it was.
  ghost predicate LosesBytes(m: Model, m': Model, a: int, lo: int, hi: int) {
    forall b, x: nat :: if b == a && lo <= x < hi then NoByte(m', b, x) else KeepsByte(m, m', b, x)
  }

  lemma UnmappedBytes(m: Model, m': Model, a: int, lo: int, hi: int)
    requires Aligned(lo) && Aligned(hi) && m'.mem == Unmapped(m.mem, a, lo, hi)
    ensures LosesBytes(m, m', a, lo, hi)
  {
    forall b, x: nat
      ensures if b == a && lo <= x < hi then NoByte(m', b, x) else KeepsByte(m, m', b, x)
    {
      PageInRange(lo, hi, x);
      assert Within(PageOf(b, x), a, lo, hi) <==> b == a && lo <= x < hi;
    }
  }

  /** sbrk() adds zeros above the heap, or takes its last pages away. */
  lemma GrowBytes(m: Model, a: int, h: nat, n: Int, m': Model)
    requires WellFormed(m) && SoundHeap(m.tables, a, h) && Follows(m, Grow(a, h, n), Ok, m')
    ensures HasHeap(m'.tables, a, h)
    ensures var v, w := m.tables[a][h].value, m'.tables[a][h].value;
            && w == v.(length := w.length) && w.length == v.length + n
            && (v.Hi() <= w.Hi() ==> NewZeros(m, m', a, v.Hi(), w.Hi()))
            && (w.Hi() < v.Hi() ==> LosesBytes(m, m', a, w.Hi(), v.Hi()))
  {
    hide GrowOk, WellFormed, ValidTable, CanResize, MapZeros, Unmapped, LosesBytes, NewZeros;
    GrowsSimply(m, a, h, n, Ok, m');
    GrowKeepsHeap(m, a, h, n);
    var v, w := m.tables[a][h].value, m'.tables[a][h].value;
    if v.Hi() <= w.Hi() {
      GrowIsNew(m, a, h, n);
      ZerosBytes(m, m', a, v.Hi(), w.Hi());
    } else {
      UnmappedBytes(m, m', a, w.Hi(), v.Hi());
    }
  }

  lemma GrowIsNew(m: Model, a: int, h: nat, n: Int)
    requires WellFormed(m) && SoundHeap(m.tables, a, h) && CanResize(m.tables[a], h, n)
    ensures var v := m.tables[a][h].value;
            var w := v.(length := v.length + n);
            forall k :: k in m.mem ==> !Within(k, a, v.Hi(), w.Hi())
  {
    var t := m.tables[a];
    var v := t[h].value;
    if n > 0 {
      GrowGains(t, h, n);
      LongerEnds(v, n);
      RoundingIsMonotone(v.start, v.End());
    } else {
      RoundingIsMonotone(v.End() + n, v.End());
    }
  }

  // ---------- permissions ----------

  // An area with exactly these permissions covers the page of x.
  ghost predicate HasPerms(t: Table, x: nat, perm: Perm) {
    exists i :: HasPermsBy(t, i, x, perm)
  }

  ghost predicate HasPermsBy(t: Table, i: int, x: nat, perm: Perm) {
    CoveredBy(t, i, x / PGSIZE * PGSIZE) && t[i].value.perm == perm
  }

  /** uvm_map() gives its pages the permissions asked for, and no other page any. */
  lemma MapPerms(m: Model, a: int, addr: Word, length: Word, perm: Perm, pool: bool, m': Model, x: nat, p: Perm)
    requires Follows(m, Map(a, addr, length, perm, pool), Ok, m')
    ensures a in m.tables && a in m'.tables
    ensures var v := Vma(addr, length, perm);
            HasPerms(m'.tables[a], x, p) <==> HasPerms(m.tables[a], x, p) || (v.Lo() <= x < v.Hi() && p == perm)
  {
    var v, t, t' := Vma(addr, length, perm), m.tables[a], m'.tables[a];
    var k := NullSlot(t).value;
    PageInRange(v.Lo(), v.Hi(), x);
    forall i
      ensures HasPermsBy(t', i, x, p) <==> if i == k then v.Lo() <= x < v.Hi() && p == perm else HasPermsBy(t, i, x, p)
    {
    }
    assert !HasPermsBy(t, k, x, p);
    if v.Lo() <= x < v.Hi() && p == perm { assert HasPermsBy(t', k, x, p); }
    if i :| HasPermsBy(t, i, x, p) { assert HasPermsBy(t', i, x, p); }
  }

  /** uvm_unmap() takes the permissions of the pages that the area loses away, and changes no other. */
  lemma CutPerms(m: Model, a: int, addr: Word, length: Word, m': Model, x: nat, p: Perm)
    requires Follows(m, Event.Cut(a, addr, length), Ok, m') && a in m.tables && ValidTable(m.tables[a])
    ensures a in m'.tables && CanCut(m.tables[a], addr, length)
    ensures var v := m.tables[a][Find(m.tables[a], addr).value].value;
            var c := Unmap(v, addr, length);
            HasPerms(m'.tables[a], x, p) <==> HasPerms(m.tables[a], x, p) && !(c.lo <= x < Lost(v, c))
  {
    var t, t' := m.tables[a], m'.tables[a];
    var k := Find(t, addr).value;
    var c := Unmap(t[k].value, addr, length);
    UnmapCuts(t[k].value, addr, length);
    assert t' == t[k := c.area];
    hide Follows, AfterCut, ValidTable;
    forall i ensures HasPermsBy(t', i, x, p) <==> HasPermsBy(t, i, x, p) && !(c.lo <= x < Lost(t[k].value, c)) {
      CutAreaPerms(t, k, c, i, x, p);
    }
    hide HasPermsBy;
  }

  lemma CutAreaPerms(t: Table, k: nat, c: VmaTable.Cut, i: int, x: nat, p: Perm)
    requires ValidTable(t) && k < |t| && t[k].Some? && Aligned(c.lo) && Aligned(Lost(t[k].value, c))
    requires c.area.Some? ==> c.area.value.perm == t[k].value.perm
    requires forall y :: (c.area.Some? && InRange(c.area.value.Lo(), c.area.value.Hi(), y))
                      <==> InRange(t[k].value.Lo(), t[k].value.Hi(), y) && !InRange(c.lo, Lost(t[k].value, c), y)
    requires forall y :: InRange(c.lo, Lost(t[k].value, c), y) ==> InRange(t[k].value.Lo(), t[k].value.Hi(), y)
    ensures HasPermsBy(t[k := c.area], i, x, p) <==> HasPermsBy(t, i, x, p) && !(c.lo <= x < Lost(t[k].value, c))
  {
    PageInRange(c.lo, Lost(t[k].value, c), x);
    hide ValidTable, Aligned, Down, Up;
    if c.lo <= x < Lost(t[k].value, c) && CoveredBy(t, i, x / PGSIZE * PGSIZE) {
      OneAreaCovers(t, i, k, x / PGSIZE * PGSIZE);
    }
  }

  predicate Includes(perm: Perm, need: Perm) {
    (need.r ==> perm.r) && (need.w ==> perm.w) && (need.x ==> perm.x)
  }

  // Some area that covers the page of x has these permissions.
  ghost predicate Permits(t: Table, x: nat, need: Perm) {
    exists i :: CoveredBy(t, i, x / PGSIZE * PGSIZE) && Includes(t[i].value.perm, need)
  }

  // An area that contains the first byte of the page of x has them.
  ghost predicate Entitles(t: Table, x: nat, need: Perm) {
    exists i :: 0 <= i < |t| && ContainsPage(t, i, x) && Includes(t[i].value.perm, need)
  }

  predicate ContainsPage(t: Table, i: int, x: nat)
    requires 0 <= i < |t|
  {
    t[i].Some? && t[i].value.Contains(x / PGSIZE * PGSIZE)
  }

  function Needed(e: Event): Perm {
    match e
    case Load(_, _) => Perm(true, false, false)
    case Store(_, _, _) => Perm(false, true, false)
    case Touch(_, _, acc) => Perm(acc == Read, acc == Write, acc == Exec)
    case _ => Perm(false, false, false)
  }

  /** A load needs an area with PTE_R, a store one with PTE_W, an instruction fetch one with PTE_X;
      and it is refused only where there is no such area. */
  lemma AccessNeeds(m: Model, e: Event, o: Outcome, m': Model)
    requires (e.Load? || e.Store? || e.Touch?) && Follows(m, e, o, m')
    ensures o == Ok || o.Got? ==> e.a in m.tables && Permits(m.tables[e.a], e.va, Needed(e))
    ensures o.Refused? && e.a in m.tables && ValidTable(m.tables[e.a]) && e.va < MAXVA ==>
              !Entitles(m.tables[e.a], e.va, Needed(e))
  {
    var k := PageOf(e.a, e.va);
    if o == Ok || o.Got? {
      var i :| CoveredBy(m.tables[k.space], i, k.Va());
    } else if o.Refused? && e.a in m.tables && ValidTable(m.tables[e.a]) && e.va < MAXVA {
      var t := m.tables[e.a];
      if i :| 0 <= i < |t| && ContainsPage(t, i, e.va) && Includes(t[i].value.perm, Needed(e)) {
        FindUnique(t, k.Va(), i);
      }
    }
  }
}
