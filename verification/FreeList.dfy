/**
 The free list of malloc() and free() (user/umalloc.c) as a sequence of blocks in address order.
 Addresses and sizes count headers; block 0 is the empty block `base`, below the heap.
 */
module FreeList {
  datatype Block = Block(addr: int, size: nat)

  function End(b: Block): int {
    b.addr + b.size
  }

  // Blocks lie in address order and no two of them touch.
  ghost predicate Ordered(bs: seq<Block>) {
    && |bs| > 0 && bs[0].size == 0
    && (forall i :: 0 < i < |bs| ==> bs[i].size > 0)
    && (forall i, j :: 0 <= i < j < |bs| ==> End(bs[i]) < bs[j].addr)
  }

  // Unit u belongs to a block of the list.
  ghost predicate InFree(bs: seq<Block>, u: int) {
    exists i :: 0 <= i < |bs| && bs[i].addr <= u < End(bs[i])
  }

  // No block of the list shares a unit with b.
  ghost predicate Clear(bs: seq<Block>, b: Block) {
    forall u :: b.addr <= u < End(b) ==> !InFree(bs, u)
  }

  // ---------- free ----------

  // b goes between the blocks t and t + 1, if there are as many.
  ghost predicate Between(bs: seq<Block>, t: nat, b: Block) {
    t < |bs| && bs[t].addr < b.addr && (t + 1 < |bs| ==> b.addr < bs[t + 1].addr)
  }

  // There is such a place for every address above base.
  lemma {:induction false} PlaceFor(bs: seq<Block>, b: Block, k: nat) returns (t: nat)
    requires Ordered(bs) && Clear(bs, b) && b.size > 0 && k < |bs| && bs[k].addr < b.addr
    ensures Between(bs, t, b)
    decreases |bs| - k
  {
    t := k;
    if k + 1 < |bs| {
      assert b.addr != bs[k + 1].addr by {
        if b.addr == bs[k + 1].addr { assert InFree(bs, b.addr); }
      }
      if bs[k + 1].addr < b.addr { t := PlaceFor(bs, b, k + 1); }
    }
  }

  function JoinsUpper(bs: seq<Block>, t: nat, b: Block): bool {
    t + 1 < |bs| && End(b) == bs[t + 1].addr
  }

  function Upper(bs: seq<Block>, t: nat, b: Block): Block {
    if JoinsUpper(bs, t, b) then Block(b.addr, b.size + bs[t + 1].size) else b
  }

  function Rest(bs: seq<Block>, t: nat, b: Block): seq<Block>
    requires t < |bs|
  {
    if JoinsUpper(bs, t, b) then bs[t + 2..] else bs[t + 1..]
  }

  // The list after free(): b joined to the blocks it touches.
  function Insert(bs: seq<Block>, t: nat, b: Block): seq<Block>
    requires t < |bs|
  {
    var m := Upper(bs, t, b);
    if End(bs[t]) == b.addr then bs[..t] + [Block(bs[t].addr, bs[t].size + m.size)] + Rest(bs, t, b)
    else bs[..t + 1] + [m] + Rest(bs, t, b)
  }

  lemma InFreeConcat(a: seq<Block>, b: seq<Block>, u: int)
    ensures InFree(a + b, u) <==> InFree(a, u) || InFree(b, u)
  {
    var c := a + b;
    if InFree(a, u) {
      var i :| 0 <= i < |a| && a[i].addr <= u < End(a[i]);
      assert c[i] == a[i];
    }
    if InFree(b, u) {
      var i :| 0 <= i < |b| && b[i].addr <= u < End(b[i]);
      assert c[|a| + i] == b[i];
    }
  }

  lemma InFreeParts(a: seq<Block>, m: Block, c: seq<Block>, u: int)
    ensures InFree(a + [m] + c, u) <==> InFree(a, u) || m.addr <= u < End(m) || InFree(c, u)
  {
    InFreeConcat(a + [m], c, u);
    InFreeConcat(a, [m], u);
    assert [m][0] == m;
  }

  // b and the units of the rest are the joined block and the rest behind it.
  lemma RestUnits(bs: seq<Block>, t: nat, b: Block, u: int)
    requires t < |bs|
    ensures var m := Upper(bs, t, b);
            m.addr <= u < End(m) || InFree(Rest(bs, t, b), u) <==> b.addr <= u < End(b) || InFree(bs[t + 1..], u)
  {
    if JoinsUpper(bs, t, b) {
      assert bs[t + 1..] == [] + [bs[t + 1]] + bs[t + 2..];
      InFreeParts([], bs[t + 1], bs[t + 2..], u);
    }
  }

  // Freeing a block adds exactly its units to the free list.
  lemma InsertUnits(bs: seq<Block>, t: nat, b: Block, u: int)
    requires t < |bs|
    ensures InFree(Insert(bs, t, b), u) <==> InFree(bs, u) || b.addr <= u < End(b)
  {
    hide InFree;
    var m, rest := Upper(bs, t, b), Rest(bs, t, b);
    RestUnits(bs, t, b, u);
    assert bs == bs[..t] + [bs[t]] + bs[t + 1..];
    InFreeParts(bs[..t], bs[t], bs[t + 1..], u);
    if End(bs[t]) == b.addr {
      InFreeParts(bs[..t], Block(bs[t].addr, bs[t].size + m.size), rest, u);
    } else {
      InFreeParts(bs[..t + 1], m, rest, u);
      assert bs[..t + 1] == bs[..t] + [bs[t]] + [];
      InFreeParts(bs[..t], bs[t], [], u);
      assert !InFree([], u) by { InFreeNone(u); }
    }
  }

  lemma InFreeNone(u: int)
    ensures !InFree([], u)
  {
  }

  // A block put between two ordered lists.
  lemma OrderedParts(a: seq<Block>, m: Block, c: seq<Block>)
    requires |a| > 0 && Ordered(a) && End(a[|a| - 1]) < m.addr && m.size > 0
    requires forall i :: 0 <= i < |c| ==> c[i].size > 0 && End(m) < c[i].addr
    requires forall i, j :: 0 <= i < j < |c| ==> End(c[i]) < c[j].addr
    ensures Ordered(a + [m] + c)
  {
    var r := a + [m] + c;
    assert forall i :: 0 <= i < |a| ==> r[i] == a[i] && End(a[i]) < m.addr;
    assert r[|a|] == m;
    assert forall i :: |a| < i < |r| ==> r[i] == c[i - |a| - 1];
  }

  // Freeing keeps the order and leaves no two neighbours touching.
  lemma InsertOrdered(bs: seq<Block>, t: nat, b: Block)
    requires Ordered(bs) && Between(bs, t, b) && Clear(bs, b) && b.size > 0
    ensures Ordered(Insert(bs, t, b))
  {
    hide Ordered;
    var m, rest := Upper(bs, t, b), Rest(bs, t, b);
    RestOrdered(bs, t, b);
    OrderedFacts(bs, t);
    if End(bs[t]) == b.addr {
      if t > 0 { OrderedParts(bs[..t], Block(bs[t].addr, bs[t].size + m.size), rest); }
    } else {
      OrderedParts(bs[..t + 1], m, rest);
    }
  }

  lemma OrderedFacts(bs: seq<Block>, t: nat)
    requires Ordered(bs) && t < |bs|
    ensures Ordered(bs[..t + 1]) && (t > 0 ==> Ordered(bs[..t]) && End(bs[t - 1]) < bs[t].addr)
    ensures t == 0 ==> End(bs[t]) == bs[t].addr
  {
  }

  lemma ClearBetween(bs: seq<Block>, t: nat, b: Block)
    requires Between(bs, t, b) && Clear(bs, b) && b.size > 0
    ensures End(bs[t]) <= b.addr && (t + 1 < |bs| && bs[t + 1].size > 0 ==> End(b) <= bs[t + 1].addr)
  {
    if End(bs[t]) > b.addr {
      assert InFree(bs, b.addr);
    }
    if t + 1 < |bs| && bs[t + 1].size > 0 && End(b) > bs[t + 1].addr {
      assert InFree(bs, bs[t + 1].addr);
    }
  }

  lemma RestOrdered(bs: seq<Block>, t: nat, b: Block)
    requires Ordered(bs) && Between(bs, t, b) && Clear(bs, b) && b.size > 0
    ensures var m := Upper(bs, t, b); var rest := Rest(bs, t, b);
            && (forall i :: 0 <= i < |rest| ==> rest[i].size > 0 && End(m) < rest[i].addr)
            && (forall i, j :: 0 <= i < j < |rest| ==> End(rest[i]) < rest[j].addr)
    ensures End(bs[t]) <= b.addr && Upper(bs, t, b).addr == b.addr && Upper(bs, t, b).size > 0
  {
    ClearBetween(bs, t, b);
    hide Clear, InFree;
    var m, rest := Upper(bs, t, b), Rest(bs, t, b);
    forall i | 0 <= i < |rest|
      ensures rest[i].size > 0 && End(m) < rest[i].addr
    {
      var k := if JoinsUpper(bs, t, b) then i + t + 2 else i + t + 1;
      assert rest[i] == bs[k];
      assert bs[t + 1].addr <= bs[k].addr;
    }
  }

  // ---------- malloc ----------

  // n units from the tail of block i.
  function Taken(bs: seq<Block>, i: nat, n: nat): Block
    requires i < |bs|
  {
    Block(End(bs[i]) - n, n)
  }

  function Take(bs: seq<Block>, i: nat, n: nat): seq<Block>
    requires i < |bs| && n <= bs[i].size
  {
    if bs[i].size == n then bs[..i] + bs[i + 1..] else bs[i := Block(bs[i].addr, bs[i].size - n)]
  }

  // Allocating takes exactly the block's units off the free list.
  lemma TakeUnits(bs: seq<Block>, i: nat, n: nat, u: int)
    requires Ordered(bs) && i < |bs| && n <= bs[i].size
    ensures var b := Taken(bs, i, n); InFree(Take(bs, i, n), u) <==> InFree(bs, u) && !(b.addr <= u < End(b))
    ensures Taken(bs, i, n).addr <= u < End(Taken(bs, i, n)) ==> InFree(bs, u)
  {
    if bs[i].addr <= u < End(bs[i]) { OthersApart(bs, i, u); }
    hide Ordered;
    assert bs == bs[..i] + [bs[i]] + bs[i + 1..];
    InFreeParts(bs[..i], bs[i], bs[i + 1..], u);
    if bs[i].size == n {
      InFreeConcat(bs[..i], bs[i + 1..], u);
    } else {
      assert Take(bs, i, n) == bs[..i] + [Block(bs[i].addr, bs[i].size - n)] + bs[i + 1..];
      InFreeParts(bs[..i], Block(bs[i].addr, bs[i].size - n), bs[i + 1..], u);
    }
  }

  lemma OthersApart(bs: seq<Block>, i: nat, u: int)
    requires Ordered(bs) && i < |bs| && bs[i].addr <= u < End(bs[i])
    ensures !InFree(bs[..i], u) && !InFree(bs[i + 1..], u)
  {
    var a, c := bs[..i], bs[i + 1..];
    assert forall j :: 0 <= j < |a| ==> a[j] == bs[j] && End(a[j]) < bs[i].addr;
    assert forall j :: 0 <= j < |c| ==> c[j] == bs[i + 1 + j] && End(bs[i]) < c[j].addr;
  }

  lemma TakeOrdered(bs: seq<Block>, i: nat, n: nat)
    requires Ordered(bs) && 0 < i < |bs| && n <= bs[i].size
    ensures Ordered(Take(bs, i, n))
  {
    var r := Take(bs, i, n);
    if bs[i].size == n {
      assert forall j :: 0 <= j < |r| ==> r[j] == if j < i then bs[j] else bs[j + 1];
    }
  }

  // ---------- the list is determined by its units ----------

  // Blocks k of two lists that agree before k and have the same units.
  lemma SameStart(a: seq<Block>, b: seq<Block>, k: nat)
    requires Ordered(a) && Ordered(b) && 0 < k < |a| && k <= |b| && a[..k] == b[..k]
    requires forall u :: InFree(a, u) ==> InFree(b, u)
    ensures k < |b| && b[k].addr <= a[k].addr
  {
    var u := a[k].addr;
    assert InFree(a, u);
    forall j | 0 <= j < k ensures End(b[j]) < u {
      assert a[..k][j] == a[j] && b[..k][j] == b[j];
    }
    var j :| 0 <= j < |b| && b[j].addr <= u < End(b[j]);
    if k < j { assert End(b[k]) < b[j].addr; }
  }

  lemma SameEnd(a: seq<Block>, b: seq<Block>, k: nat)
    requires Ordered(a) && Ordered(b) && 0 < k < |a| && k < |b| && a[k].addr == b[k].addr
    requires forall u :: InFree(b, u) ==> InFree(a, u)
    ensures End(b[k]) <= End(a[k])
  {
    var u := End(a[k]);
    forall j | 0 <= j < |a| ensures !(a[j].addr <= u < End(a[j])) {
      if j < k { assert End(a[j]) < a[k].addr; }
      if k < j { assert End(a[k]) < a[j].addr; }
    }
    assert !InFree(b, u);
    assert !(b[k].addr <= u < End(b[k]));
  }

  lemma {:induction false} SameFrom(a: seq<Block>, b: seq<Block>, k: nat)
    requires Ordered(a) && Ordered(b) && 0 < k <= |a| && k <= |b| && a[..k] == b[..k]
    requires forall u :: InFree(a, u) <==> InFree(b, u)
    ensures a == b
    decreases |a| - k
  {
    hide Ordered, InFree;
    if k < |a| || k < |b| {
      if k < |a| { SameStart(a, b, k); }
      if k < |b| { SameStart(b, a, k); }
      SameEnd(a, b, k);
      SameEnd(b, a, k);
      assert a[k] == b[k];
      assert a[..k + 1] == a[..k] + [a[k]] && b[..k + 1] == b[..k] + [b[k]];
      SameFrom(a, b, k + 1);
    } else {
      assert a == a[..k] && b == b[..k];
    }
  }

  // Two lists over the same base with the same free units are the same list.
  lemma Canonical(a: seq<Block>, b: seq<Block>)
    requires Ordered(a) && Ordered(b) && a[0].addr == b[0].addr
    requires forall u :: InFree(a, u) <==> InFree(b, u)
    ensures a == b
  {
    assert a[..1] == [a[0]] && b[..1] == [b[0]];
    SameFrom(a, b, 1);
  }

  // Freeing what was just allocated restores the list, wherever the block came from.
  lemma FreeUndoesMalloc(bs: seq<Block>, i: nat, n: nat, t: nat)
    requires Ordered(bs) && 0 < i < |bs| && 0 < n <= bs[i].size
    requires Between(Take(bs, i, n), t, Taken(bs, i, n))
    ensures Insert(Take(bs, i, n), t, Taken(bs, i, n)) == bs
  {
    var r, b := Take(bs, i, n), Taken(bs, i, n);
    TakeOrdered(bs, i, n);
    var s := Insert(r, t, b);
    assert s[0].addr == r[0].addr == bs[0].addr;
    hide Ordered, InFree, Take, Insert;
    forall u ensures InFree(s, u) <==> InFree(bs, u)
      ensures b.addr <= u < End(b) ==> !InFree(r, u)
    {
      TakeUnits(bs, i, n, u);
      InsertUnits(r, t, b, u);
    }
    InsertOrdered(r, t, b);
    Canonical(s, bs);
  }

  // ---------- the headers in memory ----------

  datatype Header = Header(ptr: int, size: nat)

  function First(bs: seq<Block>, next: int): int {
    if |bs| > 0 then bs[0].addr else next
  }

  // The headers of bs point each to the next, and the last to `next`.
  ghost predicate Chain(mem: map<int, Header>, bs: seq<Block>, next: int) {
    forall i :: 0 <= i < |bs| ==> LinkAt(mem, bs, i, next)
  }

  predicate LinkAt(mem: map<int, Header>, bs: seq<Block>, i: nat, next: int)
    requires i < |bs|
  {
    bs[i].addr in mem && mem[bs[i].addr] == Header(if i + 1 < |bs| then bs[i + 1].addr else next, bs[i].size)
  }

  // The headers form the circular list bs.
  ghost predicate Linked(mem: map<int, Header>, bs: seq<Block>) {
    |bs| > 0 && Chain(mem, bs, bs[0].addr)
  }

  lemma ChainConcat(mem: map<int, Header>, a: seq<Block>, c: seq<Block>, next: int)
    ensures Chain(mem, a + c, next) <==> Chain(mem, a, First(c, next)) && Chain(mem, c, next)
  {
    var r := a + c;
    forall i: nat | i < |a| ensures LinkAt(mem, r, i, next) <==> LinkAt(mem, a, i, First(c, next)) {
      assert r[i] == a[i];
      assert i + 1 < |r| ==> r[i + 1] == if i + 1 < |a| then a[i + 1] else c[0];
    }
    forall i: nat | i < |c| ensures LinkAt(mem, r, |a| + i, next) <==> LinkAt(mem, c, i, next) {
      assert r[|a| + i] == c[i];
      assert i + 1 < |c| ==> r[|a| + i + 1] == c[i + 1];
    }
    if Chain(mem, a, First(c, next)) && Chain(mem, c, next) {
      forall i | 0 <= i < |r| ensures LinkAt(mem, r, i, next) {
        if i >= |a| { assert LinkAt(mem, c, i - |a|, next); }
      }
    }
  }

  lemma ChainParts(mem: map<int, Header>, a: seq<Block>, m: Block, c: seq<Block>, next: int)
    ensures Chain(mem, a + [m] + c, next) <==>
      && Chain(mem, a, m.addr) && Chain(mem, c, next)
      && m.addr in mem && mem[m.addr] == Header(First(c, next), m.size)
  {
    ChainConcat(mem, a + [m], c, next);
    ChainConcat(mem, a, [m], First(c, next));
    assert [m][0] == m;
    assert Chain(mem, [m], First(c, next)) <==> LinkAt(mem, [m], 0, First(c, next));
  }

  // A write elsewhere.
  lemma ChainFrame(mem: map<int, Header>, bs: seq<Block>, next: int, x: int, h: Header)
    requires Chain(mem, bs, next) && forall i :: 0 <= i < |bs| ==> bs[i].addr != x
    ensures Chain(mem[x := h], bs, next)
  {
    var m := mem[x := h];
    forall i: nat | i < |bs| ensures LinkAt(m, bs, i, next) {
      assert LinkAt(mem, bs, i, next);
    }
  }

  // What free() writes once it has found the block p to put bp behind: bp joins its upper
  // neighbour, and then p.
  function FreedUpper(mem: map<int, Header>, p: int, bp: int): map<int, Header>
    requires p in mem && bp in mem && mem[p].ptr in mem
  {
    var n := mem[p].ptr;
    if bp + mem[bp].size == n then mem[bp := Header(mem[n].ptr, mem[bp].size + mem[n].size)]
    else mem[bp := Header(n, mem[bp].size)]
  }

  function Freed(mem: map<int, Header>, p: int, bp: int): map<int, Header>
    requires p in mem && bp in mem && mem[p].ptr in mem
  {
    var m := FreedUpper(mem, p, bp);
    if p + m[p].size == bp then m[p := Header(m[bp].ptr, m[p].size + m[bp].size)]
    else m[p := Header(bp, m[p].size)]
  }

  lemma AddressesApart(bs: seq<Block>, t: nat, b: Block)
    requires Ordered(bs) && Between(bs, t, b)
    ensures forall i :: 0 <= i < |bs| ==> bs[i].addr != b.addr
    ensures forall i :: 0 <= i < |bs| && i != t ==> bs[i].addr != bs[t].addr
  {
    forall i | 0 <= i < |bs| ensures bs[i].addr != b.addr {
      if i > t + 1 { assert End(bs[t + 1]) < bs[i].addr; }
    }
  }

  // The writes of free() link the headers as the list with b in it.
  lemma FreedLinks(mem: map<int, Header>, bs: seq<Block>, t: nat, b: Block)
    requires Ordered(bs) && Between(bs, t, b) && Clear(bs, b) && b.size > 0
    requires Linked(mem, bs) && b.addr in mem && mem[b.addr].size == b.size
    ensures bs[t].addr in mem && mem[bs[t].addr].ptr in mem
    ensures Linked(Freed(mem, bs[t].addr, b.addr), Insert(bs, t, b))
  {
    AddressesApart(bs, t, b);
    hide Ordered, Clear;
    var base, p := bs[0].addr, bs[t].addr;
    var front, tail := bs[..t], bs[t + 1..];
    assert bs == front + [bs[t]] + tail;
    ChainParts(mem, front, bs[t], tail, base);
    assert LinkAt(mem, bs, 0, base);
    UpperLinks(mem, bs, t, b);
    hide Chain;
    var m, rest := Upper(bs, t, b), Rest(bs, t, b);
    var mem1 := FreedUpper(mem, p, b.addr);
    assert mem1 == mem[b.addr := mem1[b.addr]];
    ChainFrame(mem, front, p, b.addr, mem1[b.addr]);
    var mem2 := Freed(mem, p, b.addr);
    assert mem2 == mem1[p := mem2[p]];
    ChainFrame(mem1, front, p, p, mem2[p]);
    ChainFrame(mem1, rest, base, p, mem2[p]);
    if End(bs[t]) == b.addr {
      ChainParts(mem2, front, Block(p, bs[t].size + m.size), rest, base);
    } else {
      assert bs[..t + 1] == front + [bs[t]] + [];
      ChainParts(mem2, front, bs[t], [], b.addr);
      assert Chain(mem2, [], b.addr) by { ChainNone(mem2, b.addr); }
      ChainParts(mem2, bs[..t + 1], m, rest, base);
    }
  }

  lemma ChainNone(mem: map<int, Header>, next: int)
    ensures Chain(mem, [], next)
  {
  }

  lemma UpperLinks(mem: map<int, Header>, bs: seq<Block>, t: nat, b: Block)
    requires t < |bs| && bs[t].addr in mem && mem[bs[t].addr].ptr == First(bs[t + 1..], bs[0].addr)
    requires Chain(mem, bs[t + 1..], bs[0].addr) && bs[0].addr in mem && bs[0].addr < b.addr
    requires b.addr in mem && mem[b.addr].size == b.size
    requires forall i :: 0 <= i < |bs| ==> bs[i].addr != b.addr
    ensures mem[bs[t].addr].ptr in mem
    ensures var m := Upper(bs, t, b); var mem1 := FreedUpper(mem, bs[t].addr, b.addr);
            Chain(mem1, Rest(bs, t, b), bs[0].addr)
            && mem1[b.addr] == Header(First(Rest(bs, t, b), bs[0].addr), m.size)
  {
    var base, tail := bs[0].addr, bs[t + 1..];
    assert tail != [] ==> LinkAt(mem, tail, 0, base);
    var mem1 := FreedUpper(mem, bs[t].addr, b.addr);
    if JoinsUpper(bs, t, b) {
      assert tail == [] + [bs[t + 1]] + bs[t + 2..];
      ChainParts(mem, [], bs[t + 1], bs[t + 2..], base);
    }
    ChainFrame(mem, Rest(bs, t, b), base, b.addr, mem1[b.addr]);
  }

  // What malloc() writes when it takes n units off block p, behind prev.
  function Cut(mem: map<int, Header>, prev: int, p: int, n: nat): map<int, Header>
    requires p in mem && prev in mem && n <= mem[p].size
  {
    if mem[p].size == n then mem[prev := Header(mem[p].ptr, mem[prev].size)]
    else
      var rest := mem[p].size - n;
      var m := mem[p := Header(mem[p].ptr, rest)];
      m[p + rest := Header(if p + rest in m then m[p + rest].ptr else 0, n)]
  }

  lemma CutLinks(mem: map<int, Header>, bs: seq<Block>, i: nat, n: nat)
    requires Ordered(bs) && Linked(mem, bs) && 0 < i < |bs| && 0 < n <= bs[i].size
    ensures bs[i].addr in mem && bs[i - 1].addr in mem && mem[bs[i].addr].size == bs[i].size
    ensures Linked(Cut(mem, bs[i - 1].addr, bs[i].addr, n), Take(bs, i, n))
  {
    assert LinkAt(mem, bs, i, bs[0].addr) && LinkAt(mem, bs, i - 1, bs[0].addr);
    TakeOrdered(bs, i, n);
    hide Chain, Cut, Take, Ordered;
    if bs[i].size == n {
      CutWhole(mem, bs, i);
    } else {
      CutTail(mem, bs, i, n);
    }
  }

  lemma AddressesDiffer(bs: seq<Block>, i: nat, x: int)
    requires Ordered(bs) && i < |bs| && bs[i].addr <= x <= End(bs[i])
    ensures forall j :: 0 <= j < |bs| && j != i ==> bs[j].addr != x
  {
  }

  // The whole block goes.
  lemma CutWhole(mem: map<int, Header>, bs: seq<Block>, i: nat)
    requires Ordered(bs) && Linked(mem, bs) && 0 < i < |bs| && bs[i].addr in mem && bs[i - 1].addr in mem
    requires mem[bs[i].addr].size == bs[i].size
    ensures Linked(Cut(mem, bs[i - 1].addr, bs[i].addr, bs[i].size), Take(bs, i, bs[i].size))
  {
    AddressesDiffer(bs, i - 1, bs[i - 1].addr);
    hide Ordered, Chain;
    var base, p, prev := bs[0].addr, bs[i].addr, bs[i - 1].addr;
    var mem1 := Cut(mem, prev, p, bs[i].size);
    var front, tail := bs[..i], bs[i + 1..];
    assert bs == front + [bs[i]] + tail;
    ChainParts(mem, front, bs[i], tail, base);
    assert front == bs[..i - 1] + [bs[i - 1]] + [];
    ChainParts(mem, bs[..i - 1], bs[i - 1], [], p);
    ChainFrame(mem, bs[..i - 1], prev, prev, mem1[prev]);
    ChainFrame(mem, tail, base, prev, mem1[prev]);
    ChainNone(mem1, First(tail, base));
    ChainParts(mem1, bs[..i - 1], bs[i - 1], [], First(tail, base));
    ChainConcat(mem1, front, tail, base);
  }

  // The block keeps its start and loses n units.
  lemma CutTail(mem: map<int, Header>, bs: seq<Block>, i: nat, n: nat)
    requires Ordered(bs) && Linked(mem, bs) && 0 < i < |bs| && 0 < n < bs[i].size
    requires bs[i].addr in mem && bs[i - 1].addr in mem && mem[bs[i].addr].size == bs[i].size
    ensures Linked(Cut(mem, bs[i - 1].addr, bs[i].addr, n), Take(bs, i, n))
  {
    var base, p, prev := bs[0].addr, bs[i].addr, bs[i - 1].addr;
    var b := Block(p, bs[i].size - n);
    AddressesDiffer(bs, i, p);
    AddressesDiffer(bs, i, End(b));
    hide Ordered, Chain;
    var mem1 := Cut(mem, prev, p, n);
    var front, tail := bs[..i], bs[i + 1..];
    assert bs == front + [bs[i]] + tail;
    ChainParts(mem, front, bs[i], tail, base);
    var m := mem[p := mem1[p]];
    ChainFrame(mem, front, p, p, mem1[p]);
    ChainFrame(mem, tail, base, p, mem1[p]);
    ChainParts(m, front, b, tail, base);
    assert Take(bs, i, n) == front + [b] + tail;
    assert mem1 == m[End(b) := mem1[End(b)]];
    ChainFrame(m, Take(bs, i, n), base, End(b), mem1[End(b)]);
  }
}
