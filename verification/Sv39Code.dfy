/**
 pgt_walk(), pgt_map(), pgt_unmap_impl() and pgt_free() (kernel/pagetable.c) on table pages taken
 from and returned to a list of free pages.
 */
module Sv39Code {
  import opened Options
  import Seqs
  import opened Sv39
  import VmaTable

  // The lowest table that a walk for vpn has reached at this level.
  predicate Reached(role: Roles, p: nat, level: nat, vpn: nat)
    requires vpn < VPNS
  {
    p in role && match role[p]
                 case Root => level == 2
                 case Mid(i) => level == 1 && i == Px(2, vpn)
                 case Low(i, j, _) => level == 0 && i == Px(2, vpn) && j == Px(1, vpn)
  }

  // One level down from a table to the one its entry points to.
  lemma Descend(mem: Tables, role: Roles, root: nat, p: nat, level: nat, vpn: nat)
    requires Tree(mem, role, root) && vpn < VPNS && 0 < level <= 2 && Reached(role, p, level, vpn)
    ensures p in mem && |mem[p]| == ENTRIES && !mem[p][Px(level, vpn)].Leaf?
    ensures mem[p][Px(level, vpn)].Table? ==> Reached(role, mem[p][Px(level, vpn)].ppn, level - 1, vpn)
    ensures mem[p][Px(level, vpn)] == Invalid ==> Look(mem, root, vpn) == Invalid
    ensures role[p].Root? ==> p == root
  {
    assert PageOk(mem, role, root, p) && EntryOk(mem, role, p, Px(level, vpn));
    assert PageOk(mem, role, root, root);
  }

  function PageOf(e: Pte): seq<nat> {
    if e.Leaf? then [e.ppn] else []
  }

  // The pages mapped in [start, end), in address order.
  ghost function Mapped(mem: Tables, root: nat, start: nat, end: nat): seq<nat>
    requires start <= end <= VPNS
    decreases end
  {
    if start == end then []
    else Mapped(mem, root, start, end - 1) + PageOf(Look(mem, root, end - 1))
  }

  class PageTable {
    const root: nat
    var mem: Tables
    var free: seq<nat>
    ghost var role: Roles

    ghost predicate Valid()
      reads this
    {
      && Tree(mem, role, root)
      && Seqs.Distinct(free) && forall p :: p in free ==> p !in role
    }

    // pgt_new(), in a page from kalloc().
    constructor (root: nat, free: seq<nat>)
      requires Seqs.Distinct(free) && root !in free
      ensures Valid() && this.root == root && this.free == free && role.Keys == {root}
      ensures forall v: nat :: v < VPNS ==> Look(mem, root, v) == Invalid
    {
      this.root, this.free := root, free;
      mem, role := map[root := Blank()], map[root := Root];
    }

    // kalloc() of a page, cleared, for entry k of p.
    method Extend(p: nat, k: nat) returns (c: Option<nat>)
      requires Valid() && p in role && p in mem && k < |mem[p]| && mem[p][k] == Invalid
      requires !role[p].Low? && (role[p].Root? ==> k < 256)
      modifies this
      ensures Valid() && (c.None? <==> |old(free)| == 0)
      ensures c.None? ==> mem == old(mem) && role == old(role) && free == old(free)
      ensures c.Some? ==> role == old(role)[c.value := Child(p, old(role)[p], k)] && c.value !in old(role)
      ensures c.Some? ==> old(free) == free + [c.value]
      ensures forall v: nat :: v < VPNS ==> Look(mem, root, v) == old(Look(mem, root, v))
    {
      hide Tree;
      if |free| == 0 { return None; }
      var page := free[|free| - 1];
      assert free == free[..|free| - 1] + [page];
      AttachKeeps(mem, role, root, p, k, page);
      role := role[page := Child(p, role[p], k)];
      free := free[..|free| - 1];
      mem := mem[page := Blank()];
      mem := mem[p := mem[p][k := Table(page)]];
      c := Some(page);
    }

    // pgt_walk(): the lowest table for vpn.
    method Walk(vpn: nat, alloc: bool) returns (r: Option<nat>)
      requires Valid() && vpn < VPNS
      modifies this
      ensures Valid() && (r.Some? ==> IsLow(role, r.value, vpn))
      ensures !alloc ==> mem == old(mem) && role == old(role) && free == old(free)
      ensures r.None? ==> Look(mem, root, vpn) == Invalid
      ensures alloc && r.None? ==> free == []
      ensures role.Keys + Seqs.Elements(free) == old(role.Keys + Seqs.Elements(free))
      ensures forall v: nat :: v < VPNS ==> Look(mem, root, v) == old(Look(mem, root, v))
    {
      hide Tree, Look, Seqs.Distinct;
      var level, p := 2, root;
      assert Reached(role, p, level, vpn) by { RootReached(mem, role, root, vpn); }
      while level > 0
        invariant 0 <= level <= 2 && Valid() && Reached(role, p, level, vpn)
        invariant !alloc ==> mem == old(mem) && role == old(role) && free == old(free)
        invariant role.Keys + Seqs.Elements(free) == old(role.Keys + Seqs.Elements(free))
        invariant forall v: nat :: v < VPNS ==> Look(mem, root, v) == old(Look(mem, root, v))
      {
        Descend(mem, role, root, p, level, vpn);
        var k := Px(level, vpn);
        if mem[p][k].Table? {
          p := mem[p][k].ppn;
        } else {
          if !alloc { return None; }
          var c := Extend(p, k);
          if c.None? { return None; }
          p := c.value;
        }
        level := level - 1;
      }
      r := Some(p);
    }

    // pgt_map(): adds exactly one mapping, or runs out of memory; `remap` is its panic.
    method Map(vpn: nat, ppn: nat, perm: VmaTable.Perm) returns (ok: bool, remap: bool)
      requires Valid() && vpn < VPNS && (perm.r || perm.w || perm.x)
      modifies this
      ensures Valid() && (remap <==> old(Look(mem, root, vpn)) != Invalid) && !(ok && remap)
      ensures ok ==> forall v: nat :: v < VPNS ==>
                       Look(mem, root, v) == if v == vpn then Leaf(ppn, perm) else old(Look(mem, root, v))
      ensures !ok ==> forall v: nat :: v < VPNS ==> Look(mem, root, v) == old(Look(mem, root, v))
      ensures !ok && !remap ==> free == []
      ensures role.Keys + Seqs.Elements(free) == old(role.Keys + Seqs.Elements(free))
    {
      hide Tree, Look, Seqs.Distinct;
      var p := Walk(vpn, true);
      if p.None? { return false, false; }
      LookThrough(mem, role, root, p.value, vpn);
      if mem[p.value][Px(0, vpn)] != Invalid { return false, true; }
      SetLeaf(mem, role, root, p.value, vpn, Leaf(ppn, perm));
      mem := mem[p.value := mem[p.value][Px(0, vpn) := Leaf(ppn, perm)]];
      return true, false;
    }

    // One turn of the loop of pgt_unmap_impl().
    method UnmapPage(v: nat, dealloc: bool) returns (released: seq<nat>)
      requires Valid() && v < VPNS
      modifies this
      ensures Valid() && role == old(role) && free == old(free)
      ensures forall w: nat :: w < VPNS ==>
                Look(mem, root, w) == if w == v then Invalid else old(Look(mem, root, w))
      ensures released == if dealloc then PageOf(old(Look(mem, root, v))) else []
    {
      hide Tree, Look, Seqs.Distinct;
      released := [];
      var p := Walk(v, false);
      if p.None? { return; }
      LookThrough(mem, role, root, p.value, v);
      NotTable(mem, role, root, p.value, Px(0, v));
      var e := mem[p.value][Px(0, v)];
      if e == Invalid { return; }
      if dealloc { released := [e.ppn]; }
      SetLeaf(mem, role, root, p.value, v, Invalid);
      mem := mem[p.value := mem[p.value][Px(0, v) := Invalid]];
    }

    // pgt_unmap_impl(): removes exactly the range; `released` are the pages given to kfree().
    method Unmap(start: nat, end: nat, dealloc: bool) returns (released: seq<nat>)
      requires Valid() && start <= end <= VPNS
      modifies this
      ensures Valid() && role == old(role) && free == old(free)
      ensures forall v: nat :: v < VPNS ==>
                Look(mem, root, v) == if start <= v < end then Invalid else old(Look(mem, root, v))
      ensures released == if dealloc then Mapped(old(mem), root, start, end) else []
    {
      hide Tree, Look, Seqs.Distinct;
      released := [];
      var v: nat := start;
      while v < end
        invariant start <= v <= end && Valid() && role == old(role) && free == old(free)
        invariant forall w: nat :: w < VPNS ==>
                    Look(mem, root, w) == if start <= w < v then Invalid else old(Look(mem, root, w))
        invariant released == if dealloc then Mapped(old(mem), root, start, v) else []
      {
        var page := UnmapPage(v, dealloc);
        released := released + page;
        v := v + 1;
      }
    }

    // pgt_free() of the table page p; m is the memory before anything was freed.
    method FreeTable(p: nat, level: nat, ghost m: Tables)
      requires Tree(m, role, root) && p in role && level == Level(role[p]) && NoLeaves(m, role)
      requires Same(mem, m, role, p)
      modifies this`mem, this`free
      ensures free == old(free) + Order(m, p, level, 0)
      ensures mem.Keys == old(mem.Keys)
      ensures forall q :: q in mem && !(q in role && Below(role, p, 0, q)) ==> mem[q] == old(mem)[q]
      decreases level
    {
      hide Tree, NoLeaves, Below, Order;
      TableFacts(m, role, root, p);
      var k: nat := 0;
      ghost var done: seq<nat> := [];
      while k < ENTRIES
        invariant k <= ENTRIES && free == old(free) + done && Order(m, p, level, 0) == done + Order(m, p, level, k)
        invariant mem.Keys == old(mem.Keys) && p in mem && |mem[p]| == ENTRIES
        invariant forall j :: k <= j < ENTRIES ==> mem[p][j] == m[p][j]
        invariant forall q :: q in role && q != p && Below(role, p, k, q) ==> q in mem && q in m && mem[q] == m[q]
        invariant forall q :: q in mem && !(q in role && Below(role, p, 0, q)) ==> mem[q] == old(mem)[q]
      {
        var pte := mem[p][k];
        OrderStep(m, role, root, p, level, k);
        FreeFrame(m, role, root, p, k);
        if pte.Table? {
          FreeTable(pte.ppn, level - 1, m);
          mem := mem[p := mem[p][k := Invalid]];
          done := done + Order(m, pte.ppn, level - 1, 0);
        } else if pte.Leaf? {
          assert false;
        }
        k := k + 1;
      }
      OrderEnd(m, p, level);
      free := free + [p];
    }

    // pgt_free() of a table without mappings: every table page is freed exactly once.
    method Free()
      requires Valid() && forall v: nat :: v < VPNS ==> Look(mem, root, v) == Invalid
      modifies this`mem, this`free
      ensures Seqs.Distinct(free) && old(free) <= free
      ensures forall p :: p in free[|old(free)|..] <==> p in role
    {
      hide Tree, Look, Order, NoLeaves, Same, Seqs.Distinct;
      FreeOnce(mem, role, root, free);
      FreeTable(root, 2, mem);
    }
  }

  lemma FreeOnce(mem: Tables, role: Roles, root: nat, free: seq<nat>)
    requires Tree(mem, role, root) && Seqs.Distinct(free) && forall p :: p in free ==> p !in role
    requires forall v: nat :: v < VPNS ==> Look(mem, root, v) == Invalid
    ensures root in role && Level(role[root]) == 2 && NoLeaves(mem, role) && Same(mem, mem, role, root)
    ensures var all := free + Order(mem, root, 2, 0);
            Seqs.Distinct(all) && free <= all && forall p :: p in all[|free|..] <==> p in role
  {
    hide Order, Seqs.Distinct;
    NoneMapped(mem, role, root);
    SameAtFirst(mem, role, root);
    OrderPages(mem, role, root, root, 0);
    var order := Order(mem, root, 2, 0);
    assert forall p :: p in order <==> p in role by { RootAbove(mem, role, root); }
    Seqs.DistinctConcat(free, order);
    assert (free + order)[|free|..] == order;
  }

  lemma RootAbove(mem: Tables, role: Roles, root: nat)
    requires Tree(mem, role, root)
    ensures forall p :: p in role <==> Below(role, root, 0, p)
  {
    forall p | p in role ensures Below(role, root, 0, p) { assert PageOk(mem, role, root, p); }
  }

  lemma SameAtFirst(mem: Tables, role: Roles, root: nat)
    requires Tree(mem, role, root)
    ensures Same(mem, mem, role, root)
  {
    forall q | q in role ensures q in mem { assert PageOk(mem, role, root, q); }
  }

  // A tree without mappings has no leaf entry.
  lemma NoneMapped(m: Tables, role: Roles, root: nat)
    requires Tree(m, role, root) && forall v: nat :: v < VPNS ==> Look(m, root, v) == Invalid
    ensures NoLeaves(m, role)
  {
    forall q: nat, k: nat | q in role && q in m && k < |m[q]| ensures !m[q][k].Leaf? {
      assert PageOk(m, role, root, q) && EntryOk(m, role, q, k);
      if role[q].Low? {
        assert PageOk(m, role, root, role[q].up);
        var v := role[q].i * 0x4_0000 + role[q].j * 512 + k;
        PxOf(role[q].i, role[q].j, k);
        LookThrough(m, role, root, q, v);
      }
    }
  }

  lemma PxOf(i: nat, j: nat, k: nat)
    requires i < 256 && j < ENTRIES && k < ENTRIES
    ensures var v := i * 0x4_0000 + j * 512 + k; v < VPNS && Px(2, v) == i && Px(1, v) == j && Px(0, v) == k
  {
    var v := i * 0x4_0000 + j * 512 + k;
    assert v == (i * 512 + j) * 512 + k;
    assert v / 512 == i * 512 + j;
    assert (i * 512 + j) / 512 == i && (i * 512 + j) % 512 == j;
  }

  // Memory still has m's tables below p.
  ghost predicate Same(mem: Tables, m: Tables, role: Roles, p: nat)
    requires p in role
  {
    forall q :: q in role && Below(role, p, 0, q) ==> q in mem && q in m && mem[q] == m[q]
  }

  ghost predicate NoLeaves(m: Tables, role: Roles) {
    forall q: nat, k: nat :: q in role && q in m && k < |m[q]| ==> !m[q][k].Leaf?
  }

  lemma OrderEnd(m: Tables, p: nat, level: nat)
    ensures Order(m, p, level, ENTRIES) == [p]
  {
  }

  lemma TableFacts(m: Tables, role: Roles, root: nat, p: nat)
    requires Tree(m, role, root) && p in role
    ensures p in m && |m[p]| == ENTRIES && Below(role, p, 0, p)
  {
    assert PageOk(m, role, root, p);
  }

  // Entry k of p, when pgt_free() looks at it.
  lemma OrderStep(m: Tables, role: Roles, root: nat, p: nat, level: nat, k: nat)
    requires Tree(m, role, root) && p in role && level == Level(role[p]) && NoLeaves(m, role) && k < ENTRIES
    ensures p in m && |m[p]| == ENTRIES && !m[p][k].Leaf?
    ensures m[p][k].Table? ==> level > 0 && m[p][k].ppn in role && Level(role[m[p][k].ppn]) == level - 1
    ensures m[p][k].Table? ==>
              Order(m, p, level, k) == Order(m, m[p][k].ppn, level - 1, 0) + Order(m, p, level, k + 1)
    ensures !m[p][k].Table? ==> Order(m, p, level, k) == Order(m, p, level, k + 1)
  {
    assert PageOk(m, role, root, p) && EntryOk(m, role, p, k);
  }

  // What hangs below entry k of p is apart from p and from what hangs below the later entries.
  lemma FreeFrame(m: Tables, role: Roles, root: nat, p: nat, k: nat)
    requires Tree(m, role, root) && p in role && k < ENTRIES && p in m && |m[p]| == ENTRIES
    ensures m[p][k].Table? ==> m[p][k].ppn in role && !Below(role, m[p][k].ppn, 0, p)
    ensures m[p][k].Table? ==> forall q :: q in role && Below(role, m[p][k].ppn, 0, q) ==>
              Below(role, p, k, q) && Below(role, p, 0, q) && !Below(role, p, k + 1, q) && q in m
    ensures forall q :: q in role && Below(role, p, k + 1, q) ==> Below(role, p, k, q)
  {
    assert PageOk(m, role, root, p) && EntryOk(m, role, p, k);
    forall q | q in role ensures Below(role, p, k + 1, q) ==> Below(role, p, k, q) {
      BelowSplit(m, role, root, p, k, q);
      assert PageOk(m, role, root, q);
    }
    if m[p][k].Table? {
      forall q | q in role && Below(role, m[p][k].ppn, 0, q)
        ensures Below(role, p, k, q) && Below(role, p, 0, q) && !Below(role, p, k + 1, q) && q in m
      {
        BelowSplit(m, role, root, p, k, q);
        assert PageOk(m, role, root, q);
      }
    }
  }

  lemma RootReached(mem: Tables, role: Roles, root: nat, vpn: nat)
    requires Tree(mem, role, root) && vpn < VPNS
    ensures Reached(role, root, 2, vpn)
  {
  }

  lemma NotTable(mem: Tables, role: Roles, root: nat, p: nat, k: nat)
    requires Tree(mem, role, root) && p in role && role[p].Low? && k < ENTRIES
    ensures p in mem && |mem[p]| == ENTRIES && !mem[p][k].Table?
  {
    assert PageOk(mem, role, root, p) && EntryOk(mem, role, p, k);
  }
}
