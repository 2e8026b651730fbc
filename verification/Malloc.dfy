/**
 malloc(), free() and morecore() (user/umalloc.c) over memory that holds the block headers.
 Addresses count headers of 16 bytes.
 */
module Malloc {
  import opened Options
  import opened FreeList

  const HEADER: nat := 16
  const MIN_GROW: nat := 4096
  const UINT_LIMIT: nat := 0x1_0000_0000
  const INT_LIMIT: nat := 0x8000_0000

  // The block's own header and the fewest further ones that hold nbytes.
  function NUnits(nbytes: nat): (n: nat)
    ensures n > 0 && (n - 1) * HEADER >= nbytes && (nbytes > 0 ==> (n - 2) * HEADER < nbytes)
  {
    (nbytes + HEADER - 1) / HEADER + 1
  }

  // morecore() asks for what is needed, but for no less than 4096 headers.
  function GrowBy(n: nat): (m: nat)
    ensures n <= m && MIN_GROW <= m && (m == n || m == MIN_GROW)
  {
    if n < MIN_GROW then MIN_GROW else n
  }

  // The value of x as a C int.
  function ToInt(x: nat): int {
    var w := x % UINT_LIMIT;
    if w < INT_LIMIT then w else w - UINT_LIMIT
  }

  // By how many headers the break moves in morecore(n): the argument of sbrk() is an int.
  function Given(n: nat): (g: int)
    ensures g * HEADER == ToInt(GrowBy(n) * HEADER) && g <= GrowBy(n)
    ensures g == GrowBy(n) <==> GrowBy(n) * HEADER < INT_LIMIT
  {
    var w := ToInt(GrowBy(n) * HEADER);
    assert w == GrowBy(n) * HEADER - ((GrowBy(n) * HEADER - w) / UINT_LIMIT) * UINT_LIMIT;
    w / HEADER
  }

  // The blocks in use: apart from one another and from the free list.
  ghost predicate LiveApart(live: map<int, nat>, bs: seq<Block>) {
    && (forall a :: a in live ==> live[a] > 0 && Clear(bs, Block(a, live[a])))
    && (forall a, b :: a in live && b in live && a != b ==> Disjoint(live, a, b))
  }

  predicate Disjoint(live: map<int, nat>, a: int, b: int)
    requires a in live && b in live
  {
    a + live[a] <= b || b + live[b] <= a
  }

  // The blocks in use have their sizes in their headers and lie between base and the break.
  ghost predicate LiveIn(live: map<int, nat>, mem: map<int, Header>, base: int, brk: int) {
    forall a :: a in live ==> base < a && a + live[a] <= brk && a in mem && mem[a].size == live[a]
  }

  ghost predicate FreeIn(bs: seq<Block>, base: int, brk: int) {
    |bs| > 0 && bs[0].addr == base < brk && forall i :: 0 <= i < |bs| ==> End(bs[i]) <= brk
  }

  // A block in use is no free block's header.
  lemma LiveAway(live: map<int, nat>, bs: seq<Block>, base: int, a: int, i: nat)
    requires LiveApart(live, bs) && a in live && Ordered(bs) && i < |bs| && bs[0].addr == base < a
    ensures a != bs[i].addr
  {
    if a == bs[i].addr {
      assert InFree(bs, a);
    }
  }

  // free() of the block at bp keeps the other blocks in use where they were.
  lemma FreeKeepsLive(live: map<int, nat>, bs: seq<Block>, t: nat, bp: int)
    requires LiveApart(live, bs) && bp in live && t < |bs|
    ensures LiveApart(live - {bp}, Insert(bs, t, Block(bp, live[bp])))
  {
    var b := Block(bp, live[bp]);
    var r := Insert(bs, t, b);
    forall a | a in live && a != bp ensures Clear(r, Block(a, live[a])) {
      var x := Block(a, live[a]);
      forall u | a <= u < End(x) ensures !InFree(r, u) {
        InsertUnits(bs, t, b, u);
        assert Clear(bs, x);
        assert Disjoint(live, a, bp);
      }
    }
  }

  lemma FreeKeepsIn(mem: map<int, Header>, live: map<int, nat>, bs: seq<Block>, t: nat, bp: int, base: int, brk: int)
    requires LiveApart(live, bs) && bp in live && t < |bs| && Ordered(bs) && bs[0].addr == base
    requires LiveIn(live, mem, base, brk) && bs[t].addr in mem && mem[bs[t].addr].ptr in mem
    ensures LiveIn(live - {bp}, Freed(mem, bs[t].addr, bp), base, brk)
  {
    forall a | a in live && a != bp ensures a != bs[t].addr { LiveAway(live, bs, base, a, t); }
  }

  lemma FreeKeepsFree(bs: seq<Block>, t: nat, b: Block, base: int, brk: int)
    requires FreeIn(bs, base, brk) && Ordered(bs) && t < |bs| && End(b) <= brk && b.addr > base
    ensures FreeIn(Insert(bs, t, b), base, brk)
    ensures var r := Insert(bs, t, b);
            var g := if End(bs[t]) == b.addr then t else t + 1;
            t < |r| && r[t].addr == bs[t].addr && g < |r| && r[g].size >= b.size
  {
    var r := Insert(bs, t, b);
    assert r[0].addr == base;
    forall i | 0 <= i < |r| ensures End(r[i]) <= brk {
      if End(bs[t]) == b.addr {
        if i > t { assert r[i] in Rest(bs, t, b); }
      } else {
        if i > t + 1 { assert r[i] in Rest(bs, t, b); }
      }
    }
  }

  lemma LiveFacts(live: map<int, nat>, mem: map<int, Header>, bs: seq<Block>, base: int, brk: int, a: int)
    requires LiveApart(live, bs) && LiveIn(live, mem, base, brk) && a in live
    ensures a in mem && mem[a].size == live[a] > 0 && base < a && a + live[a] <= brk
    ensures Clear(bs, Block(a, live[a]))
  {
  }

  lemma FreeKeeps(mem: map<int, Header>, live: map<int, nat>, bs: seq<Block>, t: nat, bp: int, base: int, brk: int)
    requires Ordered(bs) && Linked(mem, bs) && FreeIn(bs, base, brk)
    requires LiveApart(live, bs) && LiveIn(live, mem, base, brk)
    requires bp in live && Between(bs, t, Block(bp, live[bp]))
    ensures bp in mem && bs[t].addr in mem && mem[bs[t].addr].ptr in mem
    ensures var r := Insert(bs, t, Block(bp, live[bp])); var m := Freed(mem, bs[t].addr, bp);
            && Ordered(r) && Linked(m, r) && FreeIn(r, base, brk)
            && LiveApart(live - {bp}, r) && LiveIn(live - {bp}, m, base, brk)
            && t < |r| && r[t].addr == bs[t].addr
            && (forall u :: InFree(r, u) <==> InFree(bs, u) || bp <= u < bp + live[bp])
            && (exists g :: t <= g <= t + 1 && g < |r| && r[g].size >= live[bp])
  {
    var b := Block(bp, live[bp]);
    LiveFacts(live, mem, bs, base, brk, bp);
    assert bs[0].addr == base;
    hide LiveApart, LiveIn, Clear, InFree, Ordered, Linked, FreeIn, Insert, Freed;
    FreedLinks(mem, bs, t, b);
    InsertOrdered(bs, t, b);
    FreeKeepsLive(live, bs, t, bp);
    FreeKeepsIn(mem, live, bs, t, bp, base, brk);
    FreeKeepsFree(bs, t, b, base, brk);
    forall u ensures InFree(Insert(bs, t, b), u) <==> InFree(bs, u) || bp <= u < End(b) {
      InsertUnits(bs, t, b, u);
    }
  }

  // The units taken off block i are apart from every block in use.
  lemma TakenApart(live: map<int, nat>, bs: seq<Block>, i: nat, n: nat, a: int)
    requires Ordered(bs) && LiveApart(live, bs) && i < |bs| && 0 < n <= bs[i].size && a in live
    ensures var b := Taken(bs, i, n); a + live[a] <= b.addr || End(b) <= a
  {
    var b := Taken(bs, i, n);
    var u := if a <= b.addr then b.addr else a;
    assert Clear(bs, Block(a, live[a]));
    if a < End(b) && b.addr < a + live[a] {
      TakeUnits(bs, i, n, u);
    }
  }

  lemma TakeKeepsLive(live: map<int, nat>, bs: seq<Block>, i: nat, n: nat)
    requires Ordered(bs) && LiveApart(live, bs) && i < |bs| && 0 < n <= bs[i].size
    ensures Taken(bs, i, n).addr !in live
    ensures LiveApart(live[Taken(bs, i, n).addr := n], Take(bs, i, n))
  {
    hide Ordered;
    var b, r := Taken(bs, i, n), Take(bs, i, n);
    forall a | a in live ensures a + live[a] <= b.addr || End(b) <= a { TakenApart(live, bs, i, n, a); }
    var l := live[b.addr := n];
    forall a | a in l ensures Clear(r, Block(a, l[a])) {
      forall u | a <= u < a + l[a] ensures !InFree(r, u) {
        TakeUnits(bs, i, n, u);
        assert a in live ==> Clear(bs, Block(a, live[a]));
      }
    }
    forall x, y | x in l && y in l && x != y ensures Disjoint(l, x, y) {
      if x in live && y in live { assert Disjoint(live, x, y); }
    }
  }

  lemma TakeKeepsIn(mem: map<int, Header>, live: map<int, nat>, bs: seq<Block>, i: nat, n: nat, base: int, brk: int)
    requires Ordered(bs) && FreeIn(bs, base, brk) && LiveApart(live, bs) && LiveIn(live, mem, base, brk)
    requires 0 < i < |bs| && 0 < n <= bs[i].size && Taken(bs, i, n).addr !in live
    requires bs[i].addr in mem && bs[i - 1].addr in mem && mem[bs[i].addr].size == bs[i].size
    ensures var b := Taken(bs, i, n);
            LiveIn(live[b.addr := n], Cut(mem, bs[i - 1].addr, bs[i].addr, n), base, brk)
    ensures FreeIn(Take(bs, i, n), base, brk)
  {
    forall a | a in live ensures a != bs[i].addr && a != bs[i - 1].addr {
      LiveAway(live, bs, base, a, i);
      LiveAway(live, bs, base, a, i - 1);
    }
    assert bs[0].addr < bs[i].addr;
  }

  // malloc() of n units from block i.
  lemma TakeKeeps(mem: map<int, Header>, live: map<int, nat>, bs: seq<Block>, i: nat, n: nat, base: int, brk: int)
    requires Ordered(bs) && Linked(mem, bs) && FreeIn(bs, base, brk)
    requires LiveApart(live, bs) && LiveIn(live, mem, base, brk)
    requires 0 < i < |bs| && 0 < n <= bs[i].size
    ensures bs[i].addr in mem && bs[i - 1].addr in mem && mem[bs[i].addr].size == bs[i].size
    ensures var r := Take(bs, i, n); var m := Cut(mem, bs[i - 1].addr, bs[i].addr, n); var b := Taken(bs, i, n);
            && Ordered(r) && Linked(m, r) && FreeIn(r, base, brk) && b.addr !in live
            && LiveApart(live[b.addr := n], r) && LiveIn(live[b.addr := n], m, base, brk)
            && (forall u :: InFree(r, u) <==> InFree(bs, u) && !(b.addr <= u < End(b)))
            && (forall u :: b.addr <= u < End(b) ==> InFree(bs, u))
            && i - 1 < |r| && r[i - 1].addr == bs[i - 1].addr
  {
    hide LiveApart, LiveIn, InFree, Ordered, Linked, FreeIn, Cut;
    CutLinks(mem, bs, i, n);
    TakeOrdered(bs, i, n);
    TakeKeepsLive(live, bs, i, n);
    TakeKeepsIn(mem, live, bs, i, n, base, brk);
    var b := Taken(bs, i, n);
    forall u ensures InFree(Take(bs, i, n), u) <==> InFree(bs, u) && !(b.addr <= u < End(b))
      ensures b.addr <= u < End(b) ==> InFree(bs, u)
    {
      TakeUnits(bs, i, n, u);
    }
  }

  // Memory above the break is a block in use once its size is written.
  lemma GrowKeeps(mem: map<int, Header>, live: map<int, nat>, bs: seq<Block>, base: int, brk: int, n: nat, h: Header)
    requires Ordered(bs) && Linked(mem, bs) && FreeIn(bs, base, brk)
    requires LiveApart(live, bs) && LiveIn(live, mem, base, brk) && n > 0 && h.size == n
    ensures brk !in live
    ensures Linked(mem[brk := h], bs) && FreeIn(bs, base, brk + n)
    ensures LiveApart(live[brk := n], bs) && LiveIn(live[brk := n], mem[brk := h], base, brk + n)
  {
    ChainFrame(mem, bs, bs[0].addr, brk, h);
  }

  lemma HigherTop(mem: map<int, Header>, live: map<int, nat>, bs: seq<Block>, base: int, top: int, brk: int)
    requires FreeIn(bs, base, top) && LiveIn(live, mem, base, top) && top <= brk
    ensures FreeIn(bs, base, brk) && LiveIn(live, mem, base, brk)
  {
  }

  // Unit u belongs to a block in use.
  ghost predicate InLive(live: map<int, nat>, u: int) {
    exists a :: a in live && a <= u < a + live[a]
  }

  lemma LiveWithout(live: map<int, nat>, a: int, u: int)
    requires a in live
    ensures InLive(live, u) <==> InLive(live - {a}, u) || a <= u < a + live[a]
  {
    var l := live - {a};
    if InLive(live, u) {
      var b :| b in live && b <= u < b + live[b];
      assert b != a ==> b in l && l[b] == live[b];
    }
    if InLive(l, u) {
      var b :| b in l && b <= u < b + l[b];
      assert b in live && live[b] == l[b];
    }
  }

  lemma LiveWith(live: map<int, nat>, a: int, n: nat, u: int)
    requires a !in live
    ensures InLive(live[a := n], u) <==> InLive(live, u) || a <= u < a + n
  {
    var l := live[a := n];
    LiveWithout(l, a, u);
    assert l - {a} == live;
  }

  // Unit u is free or in use.
  ghost predicate OwnsUnit(bs: seq<Block>, live: map<int, nat>, u: int) {
    InFree(bs, u) || InLive(live, u)
  }

  // With the free list bs' the allocator owns the units [lo, hi) besides those it had with bs.
  ghost predicate Gains(bs: seq<Block>, bs': seq<Block>, live: map<int, nat>, lo: int, hi: int) {
    forall u :: OwnsUnit(bs', live, u) <==> OwnsUnit(bs, live, u) || lo <= u < hi
  }

  // The allocator then owns exactly what sbrk() gave it iff the size is below 2^31 bytes.
  lemma GrowthIsExact(bs: seq<Block>, bs': seq<Block>, live: map<int, nat>, mem: map<int, Header>,
                      base: int, top: int, brk: int, n: nat)
    requires FreeIn(bs, base, top) && LiveIn(live, mem, base, top) && top <= brk
    requires forall u :: InFree(bs', u) <==> InFree(bs, u) || brk <= u < brk + GrowBy(n)
    ensures Gains(bs, bs', live, brk, brk + Given(n)) <==> GrowBy(n) * HEADER < INT_LIMIT
  {
    var u := brk + GrowBy(n) - 1;
    assert OwnsUnit(bs', live, u) && !OwnsUnit(bs, live, u);
  }

  // malloc() of 2^32 - 1 bytes grows the heap by one header and puts 2^28 + 1 in the list: one of
  // its free headers is at the break. And malloc() of 0xffffefe0 bytes lowers the break.
  lemma WrappedRequests()
    ensures var n := NUnits(0xffff_ffff);
            var bs := Insert([Block(0, 0)], 0, Block(1, GrowBy(n)));
            var brk := 1 + Given(n);
            brk == 2 && Ordered(bs) && InFree(bs, brk)
    ensures Given(NUnits(0xffff_efe0)) == -0x101
  {
    var bs, b := [Block(0, 0)], Block(1, GrowBy(NUnits(0xffff_ffff)));
    InsertOrdered(bs, 0, b);
    InsertUnits(bs, 0, b, 2);
  }

  // How many steps along the circular list of n blocks lead from k to f.
  function Steps(k: nat, f: nat, n: nat): nat
    requires k < n && f < n
  {
    if k <= f then f - k else n - k + f
  }

  ghost predicate HasRoom(bs: seq<Block>, n: nat) {
    exists i :: 0 <= i < |bs| && bs[i].size >= n
  }

  // Blocks already passed on the way from f round to k are too small.
  ghost predicate Passed(bs: seq<Block>, k: nat, f: nat, n: nat)
    requires k < |bs| && f < |bs|
  {
    forall i: nat :: i < |bs| && Steps(i, f, |bs|) > Steps(k, f, |bs|) ==> bs[i].size < n
  }

  // A large enough block lies ahead.
  ghost predicate Ahead(bs: seq<Block>, k: nat, f: nat, n: nat)
    requires k < |bs| && f < |bs|
  {
    exists i: nat :: i < |bs| && Steps(i, f, |bs|) <= Steps(k, f, |bs|) && bs[i].size >= n
  }

  function Succ(k: nat, n: nat): nat
    requires k < n
    ensures Succ(k, n) < n
  {
    if k + 1 < n then k + 1 else 0
  }

  function Pred(k: nat, n: nat): nat
    requires k < n
    ensures Pred(k, n) < n
  {
    if k > 0 then k - 1 else n - 1
  }

  lemma LinkOf(mem: map<int, Header>, bs: seq<Block>, k: nat)
    requires Linked(mem, bs) && k < |bs|
    ensures bs[k].addr in mem && mem[bs[k].addr] == Header(bs[Succ(k, |bs|)].addr, bs[k].size)
  {
    assert LinkAt(mem, bs, k, bs[0].addr);
  }

  lemma SameAddress(bs: seq<Block>, k: nat, f: nat)
    requires Ordered(bs) && k < |bs| && f < |bs|
    ensures bs[k].addr == bs[f].addr <==> k == f
    ensures bs[k].size > 0 <==> k > 0
  {
    if k < f { assert End(bs[k]) < bs[f].addr; }
    if f < k { assert End(bs[f]) < bs[k].addr; }
  }

  // A step of the search, from a block that is too small.
  lemma SearchStep(bs: seq<Block>, k: nat, f: nat, n: nat)
    requires k < |bs| && f < |bs| && bs[k].size < n
    ensures k != f ==> Steps(Succ(k, |bs|), f, |bs|) < Steps(k, f, |bs|)
    ensures k != f && Passed(bs, k, f, n) ==> Passed(bs, Succ(k, |bs|), f, n)
    ensures k != f && Ahead(bs, k, f, n) ==> Ahead(bs, Succ(k, |bs|), f, n)
    ensures k == f && Passed(bs, k, f, n) ==> !HasRoom(bs, n)
    ensures k == f ==> !Ahead(bs, k, f, n)
  {
  }

  lemma StartsAhead(bs: seq<Block>, f: nat, g: nat, n: nat)
    requires f <= g <= f + 1 && g < |bs| && bs[g].size >= n
    ensures Ahead(bs, Succ(f, |bs|), f, n)
  {
    assert Steps(g, f, |bs|) <= Steps(Succ(f, |bs|), f, |bs|);
  }

  lemma NoUnits(bs: seq<Block>, n: nat)
    requires n > 0 && forall i :: 0 <= i < |bs| ==> bs[i].size == 0
    ensures !HasRoom(bs, n) && forall u :: !InFree(bs, u)
  {
  }

  lemma StartsPassed(bs: seq<Block>, f: nat, n: nat)
    requires f < |bs|
    ensures Passed(bs, Succ(f, |bs|), f, n)
  {
  }

  // Unit u is in what malloc() asks sbrk() for at the break brk.
  ghost predicate InNew(bs: seq<Block>, nbytes: nat, brk: int, u: int) {
    !HasRoom(bs, NUnits(nbytes)) && brk <= u < brk + GrowBy(NUnits(nbytes))
  }

  // brk is the break. The blocks lie below top, which is the break at the last growth plus the
  // size that was asked for.
  class Heap {
    const base: int
    var freep: Option<int>
    var mem: map<int, Header>
    var brk: int
    ghost var top: int
    ghost var blocks: seq<Block>
    ghost var f: nat
    ghost var live: map<int, nat>

    ghost predicate Valid()
      reads this
    {
      && base < top
      && (freep.None? ==> blocks == [] && live == map[])
      && (freep.Some? ==> Started())
    }

    ghost predicate Started()
      reads this
    {
      && Ordered(blocks) && Linked(mem, blocks) && FreeIn(blocks, base, top)
      && f < |blocks| && freep == Some(blocks[f].addr)
      && LiveApart(live, blocks) && LiveIn(live, mem, base, top)
    }

    ghost predicate Owns(u: int)
      reads this
    {
      OwnsUnit(blocks, live, u)
    }

    ghost predicate Has(u: int)
      reads this
    {
      InFree(blocks, u)
    }

    constructor (base: int, brk: int)
      requires base < brk
      ensures Valid() && this.brk == brk == top && live == map[] && freep.None? && forall u :: !Has(u)
    {
      this.base, this.brk, freep, mem := base, brk, None, map[];
      blocks, f, live, top := [], 0, map[], brk;
    }

    // The search of free(): the block behind which b goes.
    method Find(bp: int, ghost b: Block) returns (p: int, ghost t: nat)
      requires Started() && b.addr == bp > base && b.size > 0 && Clear(blocks, b)
      ensures t < |blocks| && p == blocks[t].addr && Between(blocks, t, b)
    {
      hide LiveApart, LiveIn, Clear;
      ghost var goal := PlaceFor(blocks, b, 0);
      t := f;
      p := freep.value;
      assert LinkAt(mem, blocks, t, base);
      while !(bp > p && bp < mem[p].ptr)
        invariant t < |blocks| && p == blocks[t].addr && LinkAt(mem, blocks, t, base)
        decreases Steps(t, goal, |blocks|)
      {
        if p >= mem[p].ptr && (bp > p || bp < mem[p].ptr) { break; }
        p := mem[p].ptr;
        t := if t + 1 < |blocks| then t + 1 else 0;
        assert LinkAt(mem, blocks, t, base);
      }
    }

    // The writes of free().
    method Join(p: int, bp: int)
      requires p in mem && bp in mem && mem[p].ptr in mem
      modifies this`mem
      ensures mem == Freed(old(mem), p, bp)
    {
      var next := mem[p].ptr;
      if bp + mem[bp].size == next {
        mem := mem[bp := Header(mem[bp].ptr, mem[bp].size + mem[next].size)];
        mem := mem[bp := Header(mem[next].ptr, mem[bp].size)];
      } else {
        mem := mem[bp := Header(next, mem[bp].size)];
      }
      if p + mem[p].size == bp {
        mem := mem[p := Header(mem[p].ptr, mem[p].size + mem[bp].size)];
        mem := mem[p := Header(mem[bp].ptr, mem[p].size)];
      } else {
        mem := mem[p := Header(bp, mem[p].size)];
      }
    }

    // free(): the list gains exactly the block's units, and keeps no two touching blocks.
    method Free(bp: int)
      requires Started() && bp in live
      modifies this
      ensures Started() && live == old(live) - {bp} && brk == old(brk) && top == old(top)
      ensures forall u :: Has(u) <==> old(Has(u)) || bp <= u < bp + old(live)[bp]
      ensures forall u :: Owns(u) <==> old(Owns(u))
      ensures exists g :: f <= g <= f + 1 && g < |blocks| && blocks[g].size >= old(live)[bp]
    {
      hide LiveApart, LiveIn, Clear, InFree, Ordered, Linked, FreeIn, Insert, Freed;
      LiveFacts(live, mem, blocks, base, top, bp);
      var p; ghost var t;
      p, t := Find(bp, Block(bp, live[bp]));
      FreeKeeps(mem, live, blocks, t, bp, base, top);
      forall u ensures InLive(live, u) <==> InLive(live - {bp}, u) || bp <= u < bp + live[bp] {
        LiveWithout(live, bp, u);
      }
      hide InLive;
      Join(p, bp);
      freep, f := Some(p), t;
      blocks := Insert(blocks, t, Block(bp, live[bp]));
      live := live - {bp};
    }

    // morecore(): sbrk() moves the break by Given(n), or fails. The list gains the block that was
    // asked for in either case, so it ends above the break unless the size is below 2^31 bytes.
    method MoreCore(n: nat, ok: bool) returns (p: Option<int>)
      requires Started() && top <= brk && n > 0
      modifies this
      ensures Started() && live == old(live) && (p.Some? <==> ok)
      ensures ok ==> p == freep && top == old(brk) + GrowBy(n) && brk == old(brk) + Given(n)
      ensures ok ==> forall u :: Has(u) <==> old(Has(u)) || old(brk) <= u < top
      ensures ok ==> exists g :: f <= g <= f + 1 && g < |blocks| && blocks[g].size >= n
      ensures !ok ==> brk == old(brk) && top == old(top) && blocks == old(blocks) && mem == old(mem)
                      && freep == old(freep)
      ensures ok ==> (top <= brk <==> GrowBy(n) * HEADER < INT_LIMIT)
      ensures ok ==> (Gains(old(blocks), blocks, live, old(brk), brk) <==> GrowBy(n) * HEADER < INT_LIMIT)
    {
      if !ok { return None; }
      hide LiveApart, LiveIn, Clear, InFree, InLive, Ordered, Linked, FreeIn, GrowBy, Given, ToInt;
      var nu, hp := GrowBy(n), brk;
      var h := Header(if hp in mem then mem[hp].ptr else 0, nu);
      HigherTop(mem, live, blocks, base, top, brk);
      GrowKeeps(mem, live, blocks, base, brk, nu, h);
      brk := brk + Given(n);
      top := hp + nu;
      mem := mem[hp := h];
      live := live[hp := nu];
      Free(hp);
      forall u ensures InFree(blocks, u) <==> InFree(old(blocks), u) || hp <= u < hp + nu {
        assert Has(u) <==> old(Has(u)) || hp <= u < hp + nu;
      }
      GrowthIsExact(old(blocks), blocks, old(live), old(mem), base, old(top), hp, n);
      p := freep;
    }

    // The first call makes base the only block of the list.
    method Start()
      requires Valid() && freep.None?
      modifies this
      ensures Started() && live == old(live) && brk == old(brk) && top == old(top) && blocks == [Block(base, 0)]
    {
      mem := mem[base := Header(base, 0)];
      freep := Some(base);
      blocks, f := [Block(base, 0)], 0;
      assert LinkAt(mem, blocks, 0, base);
    }

    // malloc() takes n units off block i, which is p, behind prev.
    method TakeBlock(prev: int, p: int, n: nat, ghost i: nat) returns (a: int)
      requires Started() && 0 < i < |blocks| && p == blocks[i].addr && prev == blocks[i - 1].addr
      requires 0 < n <= blocks[i].size
      modifies this
      ensures Started() && a == Taken(old(blocks), i, n).addr && a !in old(live) && live == old(live)[a := n]
      ensures brk == old(brk) && top == old(top)
      ensures forall u :: Has(u) <==> old(Has(u)) && !(a <= u < a + n)
      ensures forall u :: a <= u < a + n ==> old(Has(u))
    {
      hide LiveApart, LiveIn, Clear, InFree, Ordered, Linked, FreeIn, Take;
      TakeKeeps(mem, live, blocks, i, n, base, top);
      ghost var m := Cut(mem, prev, p, n);
      if mem[p].size == n {
        mem := mem[prev := Header(mem[p].ptr, mem[prev].size)];
        a := p;
      } else {
        mem := mem[p := Header(mem[p].ptr, mem[p].size - n)];
        a := p + mem[p].size;
        mem := mem[a := Header(if a in mem then mem[a].ptr else 0, n)];
      }
      assert mem == m;
      freep, f := Some(prev), i - 1;
      live := live[a := n];
      blocks := Take(blocks, i, n);
    }

    // malloc(): the block returned was free, or comes from one call of sbrk() made when no free
    // block was large enough; the call fails only if sbrk() does. The blocks stay below the break
    // exactly when none was asked for, or one of less than 2^31 bytes.
    method Malloc(nbytes: nat, ok: bool) returns (p: Option<int>)
      requires Valid() && top <= brk && nbytes < UINT_LIMIT
      modifies this
      ensures Valid()
      ensures p.None? ==> !ok && !HasRoom(old(blocks), NUnits(nbytes)) && live == old(live)
      ensures p.None? ==> forall u :: Has(u) <==> old(Has(u))
      ensures p.Some? ==> p.value - 1 !in old(live) && live == old(live)[p.value - 1 := NUnits(nbytes)]
      ensures p.None? || HasRoom(old(blocks), NUnits(nbytes)) ==> brk == old(brk) && top == old(top)
      ensures p.Some? && !HasRoom(old(blocks), NUnits(nbytes)) ==>
                brk == old(brk) + Given(NUnits(nbytes)) && top == old(brk) + GrowBy(NUnits(nbytes))
      ensures p.Some? ==> forall u :: Has(u) <==> (old(Has(u)) || InNew(old(blocks), nbytes, old(brk), u))
                                                  && !(p.value - 1 <= u < p.value - 1 + NUnits(nbytes))
      ensures p.Some? ==> forall u :: p.value - 1 <= u < p.value - 1 + NUnits(nbytes) ==>
                                        old(Has(u)) || InNew(old(blocks), nbytes, old(brk), u)
      ensures p.Some? ==> forall u :: Owns(u) <==> old(Owns(u)) || InNew(old(blocks), nbytes, old(brk), u)
      ensures p.None? ==> forall u :: Owns(u) <==> old(Owns(u))
      ensures top <= brk <==>
              p.None? || HasRoom(old(blocks), NUnits(nbytes)) || GrowBy(NUnits(nbytes)) * HEADER < INT_LIMIT
    {
      hide LiveApart, LiveIn, Clear, InFree, Ordered, Linked, FreeIn, Passed, Ahead, Steps, InLive;
      var n := NUnits(nbytes);
      if freep.None? {
        NoUnits(blocks, n);
        Start();
        NoUnits(blocks, n);
      }
      var prev := freep.value;
      ghost var k: nat := Succ(f, |blocks|);
      LinkOf(mem, blocks, f);
      var q := mem[prev].ptr;
      ghost var grew := false;
      StartsPassed(blocks, f, n);
      while true
        invariant Started() && k < |blocks| && q == blocks[k].addr && prev == blocks[Pred(k, |blocks|)].addr
        invariant live == old(live)
        invariant !grew ==> HasRoom(blocks, n) == HasRoom(old(blocks), n) && brk == old(brk) && top == old(top)
        invariant !grew ==> Passed(blocks, k, f, n) && forall u :: Has(u) <==> old(Has(u))
        invariant grew ==> Ahead(blocks, k, f, n) && !HasRoom(old(blocks), n)
        invariant grew ==> brk == old(brk) + Given(n) && top == old(brk) + GrowBy(n)
        invariant grew ==> forall u :: Has(u) <==> old(Has(u)) || old(brk) <= u < top
        decreases if grew then 0 else 1, Steps(k, f, |blocks|)
      {
        LinkOf(mem, blocks, k);
        SameAddress(blocks, k, f);
        if mem[q].size >= n {
          var a := TakeBlock(prev, q, n, k);
          forall u ensures InLive(live, u) <==> InLive(old(live), u) || a <= u < a + n {
            LiveWith(old(live), a, n, u);
          }
          assert forall u :: Owns(u) <==> Has(u) || InLive(live, u);
          assert forall u :: old(Owns(u)) <==> old(Has(u)) || InLive(old(live), u);
          return Some(a + 1);
        }
        SearchStep(blocks, k, f, n);
        if q == freep.value {
          assert !grew;
          var more := MoreCore(n, ok);
          if more.None? {
            assert forall u :: Owns(u) <==> Has(u) || InLive(live, u);
            assert forall u :: old(Owns(u)) <==> old(Has(u)) || InLive(old(live), u);
            return None;
          }
          q := more.value;
          ghost var g :| f <= g <= f + 1 && g < |blocks| && blocks[g].size >= n;
          StartsAhead(blocks, f, g, n);
          k, grew := f, true;
        }
        prev := q;
        LinkOf(mem, blocks, k);
        q := mem[q].ptr;
        k := Succ(k, |blocks|);
      }
    }
  }
}
