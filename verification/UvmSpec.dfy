/**
 What the memory system calls, faults and kernel copies of kernel/uvm.c do, said of the simple
 model: every address space has its areas and a private memory of its own.  The model knows
 neither physical pages nor reference counts; that memory may run out is all it sees of them.
 */
module UvmSpec {
  import opened Options
  import opened VmaTable
  import opened CowModel

  datatype Access = Read | Write | Exec

  predicate Allows(perm: Perm, acc: Access) {
    match acc
    case Read => perm.r
    case Write => perm.w
    case Exec => perm.x
  }

  datatype Model = Model(mem: Memory, tables: map<int, Table>)

  // pool: an area is unused; a fork may take as many as are unused.
  datatype Event =
    | Create(a: int, slots: nat)
    | Touch(a: int, va: Word, acc: Access)
    | Load(a: int, va: Word)
    | Store(a: int, va: Word, b: int)
    | Put(a: int, va: Word, src: seq<int>)
    | Get(a: int, va: Word, len: nat)
    | Map(a: int, addr: Word, length: Word, perm: Perm, pool: bool)
    | Cut(a: int, addr: Word, length: Word)
    | Grow(a: int, h: nat, n: Int)
    | Fork(p: int, c: int, unused: nat)

  // n is the number of bytes that a copy had done.
  datatype Outcome = Ok | Got(data: seq<int>) | Refused(n: nat) | NoMemory(n: nat) | Panicked

  function PageOf(a: int, va: int): Key {
    Key(a, va / PGSIZE)
  }

  // ---------- which pages may be used ----------

  // uvm_completemap() looks for an area that contains the first byte of the page.
  predicate Must(tables: map<int, Table>, k: Key, acc: Access) {
    && k.space in tables && 0 <= k.Va() < MAXVA
    && var i := Find(tables[k.space], k.Va());
       i.Some? && Allows(tables[k.space][i.value].value.perm, acc)
  }

  // The page lies in the page range of an area that allows the access.
  ghost predicate May(tables: map<int, Table>, k: Key, acc: Access) {
    && k.space in tables && 0 <= k.Va() < MAXVA
    && exists i :: CoveredBy(tables[k.space], i, k.Va()) && Allows(tables[k.space][i].value.perm, acc)
  }

  ghost predicate AllMay(tables: map<int, Table>, a: int, va: int, n: nat, acc: Access) {
    forall x :: va <= x < va + n ==> MayByte(tables, a, x, acc)
  }

  ghost predicate MayByte(tables: map<int, Table>, a: int, x: int, acc: Access) {
    May(tables, PageOf(a, x), acc)
  }

  lemma MustIsMay(tables: map<int, Table>, k: Key, acc: Access)
    requires Must(tables, k, acc) && ValidTable(tables[k.space])
    ensures May(tables, k, acc)
  {
    ContainedIsCovered(tables[k.space], k.Va(), Find(tables[k.space], k.Va()).value);
  }

  // The areas of exec() and mmap() start at page boundaries.
  ghost predicate AlignedStarts(t: Table) {
    ValidTable(t) && forall i :: 0 <= i < |t| && t[i].Some? ==> Aligned(t[i].value.start)
  }

  lemma MayIsMust(tables: map<int, Table>, k: Key, acc: Access)
    requires May(tables, k, acc) && AlignedStarts(tables[k.space])
    ensures Must(tables, k, acc)
  {
    var t := tables[k.space];
    var i: nat :| CoveredBy(t, i, k.Va()) && Allows(t[i].value.perm, acc);
    var v := t[i].value;
    AlignedCovers(v, k.vpn);
    FindUnique(t, k.Va(), i);
  }

  lemma AlignedCovers(v: Vma, vpn: int)
    requires v.Sound() && Aligned(v.start) && InRange(v.Lo(), v.Hi(), vpn * PGSIZE)
    ensures v.Contains(vpn * PGSIZE)
  {
    assert v.Lo() == v.start;
  }

  // ---------- copies ----------

  // copyout(): all bytes, or those before a page that it is refused or has no memory for.
  ghost predicate PutOk(m: Model, a: int, va: Word, src: seq<int>, o: Outcome, m': Model) {
    if a !in m.tables || va + |src| > MAXVA then o == Refused(0) && m' == m
    else
      match o
      case Ok => PutFirst(m, a, va, src, |src|, m')
      case Refused(n) => n < |src| && PutFirst(m, a, va, src, n, m') && !Must(m.tables, PageOf(a, va + n), Write)
      case NoMemory(n) => n < |src| && PutFirst(m, a, va, src, n, m')
      case _ => false
  }

  ghost predicate PutFirst(m: Model, a: int, va: Word, src: seq<int>, n: nat, m': Model)
    requires n <= |src|
  {
    m' == m.(mem := Spliced(m.mem, a, va, src[..n])) && AllMay(m.tables, a, va, n, Write)
  }

  // copyin(): the bytes that the model has there, or those before a page that it is refused or
  // has no memory for. A page that is in memory is read in any case.
  ghost predicate GetOk(m: Model, a: int, va: Word, len: nat, o: Outcome) {
    if a !in m.tables then o == Refused(0)
    else
      match o
      case Got(data) => |data| == len && Reads(m.mem, a, va, data)
      case Refused(n) => n < len && GetFirst(m, a, va, n) && !Must(m.tables, PageOf(a, va + n), Read)
      case NoMemory(n) => n < len && GetFirst(m, a, va, n)
      case _ => false
  }

  ghost predicate GetFirst(m: Model, a: int, va: Word, n: nat) {
    forall x :: va <= x < va + n ==> HasByte(m.mem, a, x)
  }

  ghost predicate HasByte(mem: Memory, a: int, x: int) {
    PageOf(a, x) in mem
  }

  // A user access that does what `done` says, or changes nothing.
  ghost predicate TouchOk(m: Model, k: Key, acc: Access, o: Outcome, m': Model, done: bool) {
    match o
    case Refused(n) => n == 0 && !Must(m.tables, k, acc) && m' == m
    case NoMemory(n) => n == 0 && m' == m
    case _ => May(m.tables, k, acc) && done
  }

  // ---------- areas ----------

  predicate CanMap(tables: map<int, Table>, a: int, addr: Word, length: Word, pool: bool) {
    a in tables && RangeFree(tables[a], addr, length) && NullSlot(tables[a]).Some? && pool
  }

  ghost function Mapped(m: Model, a: int, v: Vma): Model
    requires a in m.tables && NullSlot(m.tables[a]).Some?
  {
    var t := m.tables[a];
    Model(MapZeros(m.mem, a, v.Lo(), v.Hi()), m.tables[a := t[NullSlot(t).value := Some(v)]])
  }

  // uvm_unmap() does not panic.
  predicate CanCut(t: Table, addr: Word, length: Word) {
    var i := Find(t, addr);
    i.Some? && CanUnmap(t[i.value].value, addr, length) && Unmap(t[i.value].value, addr, length).Regular()
  }

  ghost predicate CutOk(m: Model, a: int, addr: Word, length: Word, o: Outcome, m': Model)
    requires a in m.tables
  {
    if CanCut(m.tables[a], addr, length) then o == Ok && m' == AfterCut(m, a, addr, length)
    else o == Panicked && m' == m
  }

  ghost function AfterCut(m: Model, a: int, addr: Word, length: Word): Model
    requires a in m.tables && CanCut(m.tables[a], addr, length)
  {
    var t := m.tables[a];
    var i := Find(t, addr).value;
    var c := Unmap(t[i].value, addr, length);
    Model(Unmapped(Zeroed(m.mem, a, c.lo, c.hi), a, c.lo, Lost(t[i].value, c)), m.tables[a := t[i := c.area]])
  }

  // sbrk() of n on the heap in slot h. Without a heap sys_sbrk() panics.
  ghost predicate GrowOk(m: Model, a: int, h: nat, n: Int, o: Outcome, m': Model)
    requires a in m.tables
  {
    var t := m.tables[a];
    if h >= |t| || t[h].None? then o == Panicked && m' == m
    else if n > 0 then
      if CanGrow(t, h, n) then o == Ok && m' == WithLonger(m, a, h, n) else o == Refused(0) && m' == m
    else if n < 0 then
      if TooShort(t[h].value, n) then o == Refused(0) && m' == m
      else CutOk(m, a, Add(t[h].value.End(), ToWord(n)), ToWord(Neg(n)), o, m')
    else o == Ok && m' == m
  }

  ghost function WithLonger(m: Model, a: int, h: nat, n: nat): Model
    requires a in m.tables && h < |m.tables[a]| && m.tables[a][h].Some? && n < WORD
  {
    var v := m.tables[a][h].value;
    var w := Longer(v, n);
    Model(MapZeros(m.mem, a, Max(v.Lo(), v.Hi()), w.Hi()), m.tables[a := m.tables[a][h := Some(w)]])
  }

  // ---------- fork ----------

  // c is new, and p is not c.
  predicate Forkable(tables: map<int, Table>, p: int, c: int) {
    p in tables && c in tables && p != c && tables[c] == ChildTable(tables[p], 0)
  }

  // pgt_clone() does not panic.
  predicate Clonable(t: Table) {
    forall i :: 0 <= i < |t| && t[i].Some? ==> t[i].value.Lo() <= t[i].value.Hi() <= MAXVA
  }

  // ---------- all events ----------

  ghost predicate Follows(m: Model, e: Event, o: Outcome, m': Model) {
    match e
    case Create(a, slots) =>
      if a in m.tables then o == Refused(0) && m' == m
      else o == Ok && m' == m.(tables := m.tables[a := seq(slots, i => None)])
    case Touch(a, va, acc) => TouchOk(m, PageOf(a, va), acc, o, m', o == Ok && m' == m)
    case Load(a, va) =>
      TouchOk(m, PageOf(a, va), Read, o, m',
              o.Got? && |o.data| == 1 && Reads(m.mem, a, va, o.data) && m' == m)
    case Store(a, va, b) =>
      TouchOk(m, PageOf(a, va), Write, o, m', o == Ok && m' == m.(mem := Spliced(m.mem, a, va, [b])))
    case Put(a, va, src) => PutOk(m, a, va, src, o, m')
    case Get(a, va, len) => m' == m && GetOk(m, a, va, len, o)
    case Map(a, addr, length, perm, pool) =>
      if CanMap(m.tables, a, addr, length, pool) then o == Ok && m' == Mapped(m, a, Vma(addr, length, perm))
      else o == Refused(0) && m' == m
    case Cut(a, addr, length) =>
      if a !in m.tables then o == Refused(0) && m' == m else CutOk(m, a, addr, length, o, m')
    case Grow(a, h, n) =>
      if a !in m.tables then o == Refused(0) && m' == m else GrowOk(m, a, h, n, o, m')
    case Fork(p, c, _) =>
      if !Forkable(m.tables, p, c) then o == Refused(0) && m' == m
      else if !Clonable(m.tables[p]) then o == Panicked || o == NoMemory(0)
      else (o == Ok && m' == Model(Forked(m.mem, p, c), m.tables[c := m.tables[p]])) || o == NoMemory(0)
  }

  // uvm_map() has accepted an area some of whose bytes are in no area's page range.
  predicate Spoils(e: Event, o: Outcome) {
    e.Map? && o.Ok? && !Vma(e.addr, e.length, e.perm).Sound()
  }

  // After a panic, a fork that ran out of memory or such an area, nothing more is said.
  predicate Stops(e: Event, o: Outcome) {
    o.Panicked? || (e.Fork? && o.NoMemory?) || Spoils(e, o)
  }

  // ---------- the machine follows the model ----------

  ghost function ModelOf(s: State): Model
    requires Shaped(s)
  {
    Model(Abs(s), s.tables)
  }

  // Every entry is a user page below MAXVA.
  ghost predicate UserEntries(ptes: map<Key, Pte>) {
    forall k :: k in ptes ==> ptes[k].u && 0 <= k.Va() < MAXVA
  }

  ghost predicate Good(s: State) {
    Inv(s) && UserEntries(s.ptes)
  }

  // Page k needs a physical page before it can be used.
  ghost predicate NeedsPage(s: State, k: Key, acc: Access) {
    k !in s.ptes || (acc.Write? && 0 <= s.ptes[k].ppn < |s.refs| && s.refs[s.ptes[k].ppn] != 1)
  }

  // How many page-table pages are missing on the paths to pages [v, v + n) of area i; event j.
  function PagesFor(need: (nat, nat, int) -> nat, j: nat, i: nat, v: int, n: nat): nat {
    if n == 0 then 0 else PagesFor(need, j, i, v, n - 1) + need(j, i, v + n - 1)
  }

  // How many in all for the first i areas of a table, and how many areas these are.
  function TablesFor(need: (nat, nat, int) -> nat, j: nat, t: Table, i: nat): nat
    requires i <= |t|
  {
    if i == 0 then 0
    else TablesFor(need, j, t, i - 1) + AreaFor(need, j, t, i - 1)
  }

  function AreaFor(need: (nat, nat, int) -> nat, j: nat, t: Table, i: nat): nat
    requires i < |t|
  {
    if t[i].None? || t[i].value.Hi() < t[i].value.Lo() then 0
    else
      var v := t[i].value;
      PagesFor(need, j, i, v.Lo() / PGSIZE, v.Hi() / PGSIZE - v.Lo() / PGSIZE)
  }

  function Areas(t: Table): nat {
    if t == [] then 0 else Areas(t[..|t| - 1]) + if t[|t| - 1].Some? then 1 else 0
  }

  // What a copy needs to get to page v + n - 1: a page at each, and the page-table pages.
  function CopyFor(need: (nat, nat, int) -> nat, j: nat, v: int, n: nat): nat {
    PagesFor(need, j, 0, v, n) + n
  }

  // A copy from address va was stopped after n bytes.
  ghost predicate CopyShort(s: State, j: nat, a: int, va: nat, n: nat, acc: Access, s': State,
                            need: (nat, nat, int) -> nat) {
    && s'.free == [] && NeedsPage(s', PageOf(a, va + n), acc)
    && |s.free| < CopyFor(need, j, va / PGSIZE, (va + n) / PGSIZE - va / PGSIZE + 1)
  }

  // Memory is really short: no page is left and the event needs one, and it needed more than
  // there were.
  ghost predicate Short(s: State, j: nat, e: Event, n: nat, s': State, need: (nat, nat, int) -> nat) {
    match e
    case Touch(a, va, acc) => CopyShort(s, j, a, va, 0, acc, s', need)
    case Load(a, va) => CopyShort(s, j, a, va, 0, Read, s', need)
    case Store(a, va, _) => CopyShort(s, j, a, va, 0, Write, s', need)
    case Put(a, va, _) => CopyShort(s, j, a, va, n, Write, s', need)
    case Get(a, va, _) => CopyShort(s, j, a, va, n, Read, s', need)
    case Fork(p, _, unused) =>
      p in s.tables && (|s.free| < TablesFor(need, j, s.tables[p], |s.tables[p]|) || unused < Areas(s.tables[p]))
    case _ => false
  }

  // How many pages a range of bytes lies in.
  function PagesIn(va: nat, len: nat): nat {
    if len == 0 then 0 else (va + len - 1) / PGSIZE - va / PGSIZE + 1
  }

  // No event uses up more pages than it needs; one that changes areas uses none.
  ghost predicate Frugal(s: State, j: nat, e: Event, o: Outcome, s': State, need: (nat, nat, int) -> nat) {
    match e
    case Touch(_, va, _) => |s.free| <= |s'.free| + CopyFor(need, j, va / PGSIZE, 1)
    case Load(_, va) => |s.free| <= |s'.free| + CopyFor(need, j, va / PGSIZE, 1)
    case Store(_, va, _) => |s.free| <= |s'.free| + CopyFor(need, j, va / PGSIZE, 1)
    case Put(_, va, src) => |s.free| <= |s'.free| + CopyFor(need, j, va / PGSIZE, PagesIn(va, |src|))
    case Get(_, va, len) => |s.free| <= |s'.free| + CopyFor(need, j, va / PGSIZE, PagesIn(va, len))
    case Fork(p, _, _) =>
      o.Ok? && p in s.tables ==> |s.free| <= |s'.free| + TablesFor(need, j, s.tables[p], |s.tables[p]|)
    case _ => |s.free| <= |s'.free|
  }

  // copyin() is refused no page that is in memory.
  ghost predicate RefusedAbsent(s: State, e: Event, o: Outcome, s': State) {
    e.Get? && e.a in s.tables && o.Refused? ==> PageOf(e.a, e.va + o.n) !in s'.ptes
  }

  ghost predicate StepOk(s: State, j: nat, e: Event, o: Outcome, s': State, need: (nat, nat, int) -> nat) {
    && Good(s) && Shaped(s') && (Good(s') <==> !Spoils(e, o))
    && Follows(ModelOf(s), e, o, ModelOf(s')) && RefusedAbsent(s, e, o, s')
    && (o.NoMemory? ==> Short(s, j, e, o.n, s', need)) && Frugal(s, j, e, o, s', need)
  }
}
