/**
 The three-level page table of Sv39 (kernel/pagetable.c, section 4.4 of the RISC-V Privileged
 Architecture specification) in physical pages, and the flat map from virtual to physical pages
 that it stands for.  Virtual pages are numbered below MAXVA / PGSIZE.
 */
module Sv39 {
  import Seqs
  import VmaTable

  const ENTRIES: nat := 512
  const VPNS: nat := 0x400_0000

  // An entry is invalid, points to a lower table (no permission), or maps a page.
  datatype Pte = Invalid | Table(ppn: nat) | Leaf(ppn: nat, perm: VmaTable.Perm)

  // PX(level, va) for va == vpn * PGSIZE.
  function Px(level: nat, vpn: nat): (k: nat)
    requires level <= 2 && vpn < VPNS
    ensures k < ENTRIES && (level == 2 ==> k < 256)
  {
    if level == 2 then vpn / 0x4_0000 else if level == 1 then vpn / 512 % 512 else vpn % 512
  }

  // The three indices determine the page.
  lemma PxInjective(v: nat, w: nat)
    requires v < VPNS && w < VPNS
    requires Px(2, v) == Px(2, w) && Px(1, v) == Px(1, w) && Px(0, v) == Px(0, w)
    ensures v == w
  {
    PxSum(v);
    PxSum(w);
  }

  lemma PxSum(v: nat)
    requires v < VPNS
    ensures v == Px(2, v) * 0x4_0000 + Px(1, v) * 512 + Px(0, v)
  {
    assert v / 512 / 512 == v / 0x4_0000;
  }

  // The same on the bits of an address, as the macros of kernel/riscv.h compute it.
  function PxBits(level: bv64, va: bv64): bv64
    requires level <= 2
  {
    (va >> (12 + 9 * level) as bv7) & 0x1FF
  }

  const MAXVA: bv64 := 0x40_0000_0000

  lemma PxBitsInjective(v: bv64, w: bv64)
    requires v < MAXVA && w < MAXVA && v & 0xFFF == 0 && w & 0xFFF == 0
    requires PxBits(2, v) == PxBits(2, w) && PxBits(1, v) == PxBits(1, w) && PxBits(0, v) == PxBits(0, w)
    ensures v == w
  {
  }

  function Pa2Pte(pa: bv64): bv64 {
    (pa >> 12) << 10
  }

  function Pte2Pa(pte: bv64): bv64 {
    (pte >> 10) << 12
  }

  // A page-aligned physical address comes back out of an entry, whatever its flag bits.
  lemma PteRoundTrip(pa: bv64, flags: bv64)
    requires pa & 0xFFF == 0 && pa < 0x100_0000_0000_0000 && flags < 0x400
    ensures Pte2Pa(Pa2Pte(pa) | flags) == pa && (Pa2Pte(pa) | flags) & 0x3FF == flags
  {
  }

  // ---------- the tree in memory ----------

  type Tables = map<nat, seq<Pte>>

  // The place of a table page: the root, entry i of the root, or entry j of the table page `up`
  // that is entry i of the root.
  datatype Role = Root | Mid(i: nat) | Low(i: nat, j: nat, up: nat)

  type Roles = map<nat, Role>

  function Child(p: nat, r: Role, k: nat): Role {
    match r
    case Root => Mid(k)
    case Mid(i) => Low(i, k, p)
    case Low(_, _, _) => Root
  }

  // Entry k of table page p leads to the page whose place it is, or maps a page at the lowest level.
  predicate EntryOk(mem: Tables, role: Roles, p: nat, k: nat)
    requires p in role && p in mem && k < |mem[p]|
  {
    match mem[p][k]
    case Invalid => true
    case Table(c) => !role[p].Low? && c in role && role[c] == Child(p, role[p], k)
    case Leaf(_, _) => role[p].Low?
  }

  // The entry that p's place names points to p.
  predicate ParentOk(mem: Tables, role: Roles, root: nat, p: nat)
    requires p in role
  {
    match role[p]
    case Root => p == root
    case Mid(i) => i < 256 && root in mem && i < |mem[root]| && mem[root][i] == Table(p)
    case Low(i, j, up) => up in role && role[up] == Mid(i) && up in mem && j < |mem[up]| && mem[up][j] == Table(p)
  }

  predicate PageOk(mem: Tables, role: Roles, root: nat, p: nat)
    requires p in role
  {
    && p in mem && |mem[p]| == ENTRIES && ParentOk(mem, role, root, p)
    && forall k: nat :: k < ENTRIES ==> EntryOk(mem, role, p, k)
  }

  ghost predicate Tree(mem: Tables, role: Roles, root: nat) {
    && root in role && role[root] == Root
    && forall p :: p in role ==> PageOk(mem, role, root, p)
  }

  // ---------- the flat map ----------

  // What a walk from table page p at the level of its place finds for vpn.
  function LookLow(mem: Tables, p: nat, vpn: nat): Pte
    requires vpn < VPNS
  {
    if p in mem && |mem[p]| == ENTRIES && !mem[p][Px(0, vpn)].Table? then mem[p][Px(0, vpn)] else Invalid
  }

  function LookMid(mem: Tables, p: nat, vpn: nat): Pte
    requires vpn < VPNS
  {
    if p in mem && |mem[p]| == ENTRIES && mem[p][Px(1, vpn)].Table? then LookLow(mem, mem[p][Px(1, vpn)].ppn, vpn)
    else Invalid
  }

  // The mapping of virtual page vpn.
  function Look(mem: Tables, root: nat, vpn: nat): Pte
    requires vpn < VPNS
  {
    if root in mem && |mem[root]| == ENTRIES && mem[root][Px(2, vpn)].Table?
    then LookMid(mem, mem[root][Px(2, vpn)].ppn, vpn)
    else Invalid
  }

  // Page p is the lowest table for vpn.
  predicate IsLow(role: Roles, p: nat, vpn: nat)
    requires vpn < VPNS
  {
    p in role && role[p].Low? && role[p].i == Px(2, vpn) && role[p].j == Px(1, vpn)
  }

  lemma LookThrough(mem: Tables, role: Roles, root: nat, p: nat, vpn: nat)
    requires Tree(mem, role, root) && vpn < VPNS && IsLow(role, p, vpn)
    ensures p in mem && |mem[p]| == ENTRIES && Look(mem, root, vpn) == mem[p][Px(0, vpn)]
  {
    var up := role[p].up;
    assert PageOk(mem, role, root, p) && PageOk(mem, role, root, up) && PageOk(mem, role, root, root);
    assert EntryOk(mem, role, p, Px(0, vpn));
  }

  // Writing a leaf, or clearing one, changes that page's mapping and no other.
  lemma SetLeaf(mem: Tables, role: Roles, root: nat, p: nat, vpn: nat, e: Pte)
    requires Tree(mem, role, root) && vpn < VPNS && IsLow(role, p, vpn) && !e.Table?
    requires p in mem && |mem[p]| == ENTRIES
    ensures var m := mem[p := mem[p][Px(0, vpn) := e]];
            && Tree(m, role, root)
            && forall v: nat :: v < VPNS ==> Look(m, root, v) == if v == vpn then e else Look(mem, root, v)
  {
    var m := mem[p := mem[p][Px(0, vpn) := e]];
    forall q | q in role ensures PageOk(m, role, root, q) {
      assert PageOk(mem, role, root, q);
      forall k: nat | k < ENTRIES ensures EntryOk(m, role, q, k) { assert EntryOk(mem, role, q, k); }
    }
    forall v: nat | v < VPNS ensures Look(m, root, v) == if v == vpn then e else Look(mem, root, v) {
      LeafElsewhere(mem, m, role, root, p, vpn, e, v);
    }
  }

  lemma LeafElsewhere(mem: Tables, m: Tables, role: Roles, root: nat, p: nat, vpn: nat, e: Pte, v: nat)
    requires Tree(mem, role, root) && Tree(m, role, root) && vpn < VPNS && v < VPNS && IsLow(role, p, vpn) && !e.Table?
    requires p in mem && |mem[p]| == ENTRIES && m == mem[p := mem[p][Px(0, vpn) := e]]
    ensures Look(m, root, v) == if v == vpn then e else Look(mem, root, v)
  {
    LookThrough(m, role, root, p, vpn);
    if v != vpn {
      if IsLow(role, p, v) {
        LookThrough(m, role, root, p, v);
        LookThrough(mem, role, root, p, v);
        if Px(0, v) == Px(0, vpn) { PxInjective(v, vpn); }
      } else {
        assert PageOk(mem, role, root, root) && EntryOk(mem, role, root, Px(2, v));
        if mem[root][Px(2, v)].Table? {
          var q := mem[root][Px(2, v)].ppn;
          assert PageOk(mem, role, root, q) && EntryOk(mem, role, q, Px(1, v));
        }
      }
    }
  }

  // ---------- a new table ----------

  function Blank(): (s: seq<Pte>)
    ensures |s| == ENTRIES && forall k :: 0 <= k < ENTRIES ==> s[k] == Invalid
  {
    seq(ENTRIES, i => Invalid)
  }

  // The blank page c becomes what entry k of p points to.
  function Attach(mem: Tables, p: nat, k: nat, c: nat): Tables
    requires p in mem && k < |mem[p]|
  {
    mem[c := Blank()][p := mem[p][k := Table(c)]]
  }

  lemma AttachKeeps(mem: Tables, role: Roles, root: nat, p: nat, k: nat, c: nat)
    requires Tree(mem, role, root) && p in role && p in mem && k < |mem[p]| && mem[p][k] == Invalid
    requires !role[p].Low? && c !in role && (role[p].Root? ==> k < 256)
    ensures Tree(Attach(mem, p, k, c), role[c := Child(p, role[p], k)], root)
    ensures forall v: nat :: v < VPNS ==> Look(Attach(mem, p, k, c), root, v) == Look(mem, root, v)
  {
    var m, r := Attach(mem, p, k, c), role[c := Child(p, role[p], k)];
    assert PageOk(mem, role, root, p) && PageOk(mem, role, root, root);
    forall q | q in r ensures PageOk(m, r, root, q) {
      if q != c { assert PageOk(mem, role, root, q); }
      forall j: nat | j < ENTRIES ensures EntryOk(m, r, q, j) {
        if q != c { assert EntryOk(mem, role, q, j); }
      }
    }
    forall v: nat | v < VPNS ensures Look(m, root, v) == Look(mem, root, v) {
      AttachLook(mem, role, root, p, k, c, v);
    }
  }

  lemma AttachLook(mem: Tables, role: Roles, root: nat, p: nat, k: nat, c: nat, v: nat)
    requires Tree(mem, role, root) && p in role && p in mem && k < |mem[p]| && mem[p][k] == Invalid
    requires !role[p].Low? && c !in role && v < VPNS
    ensures Look(Attach(mem, p, k, c), root, v) == Look(mem, root, v)
  {
    assert PageOk(mem, role, root, root) && EntryOk(mem, role, root, Px(2, v));
    assert PageOk(mem, role, root, p);
    if mem[root][Px(2, v)].Table? {
      var q := mem[root][Px(2, v)].ppn;
      assert PageOk(mem, role, root, q) && EntryOk(mem, role, q, Px(1, v));
    }
  }

  // ---------- freeing the tree ----------

  // The order in which pgt_free() frees the table pages from entry k of p on, and p itself.
  function Order(mem: Tables, p: nat, level: nat, k: nat): seq<nat>
    decreases level, ENTRIES - k
  {
    if p !in mem || |mem[p]| != ENTRIES || k >= ENTRIES then [p]
    else (if mem[p][k].Table? && level > 0 then Order(mem, mem[p][k].ppn, level - 1, 0) else [])
         + Order(mem, p, level, k + 1)
  }

  function Level(r: Role): nat {
    if r.Root? then 2 else if r.Mid? then 1 else 0
  }

  // q is p, or hangs below an entry of p from k on.
  predicate Below(role: Roles, p: nat, k: nat, q: nat)
    requires p in role
  {
    q in role && (q == p || match role[p]
                            case Root => !role[q].Root? && role[q].i >= k
                            case Mid(_) => role[q].Low? && role[q].up == p && role[q].j >= k
                            case Low(_, _, _) => false)
  }

  lemma {:induction false} OrderPages(mem: Tables, role: Roles, root: nat, p: nat, k: nat)
    requires Tree(mem, role, root) && p in role && k <= ENTRIES
    ensures forall q :: q in Order(mem, p, Level(role[p]), k) <==> Below(role, p, k, q)
    ensures Seqs.Distinct(Order(mem, p, Level(role[p]), k))
    decreases Level(role[p]), ENTRIES - k
  {
    hide Seqs.Distinct, Below;
    assert PageOk(mem, role, root, p);
    if k < ENTRIES {
      assert EntryOk(mem, role, p, k);
      OrderPages(mem, role, root, p, k + 1);
      var tail := Order(mem, p, Level(role[p]), k + 1);
      var r := Order(mem, p, Level(role[p]), k);
      if mem[p][k].Table? {
        var c := mem[p][k].ppn;
        OrderPages(mem, role, root, c, 0);
        var head := Order(mem, c, Level(role[c]), 0);
        assert r == head + tail;
        forall q ensures q in r <==> Below(role, p, k, q) {
          BelowSplit(mem, role, root, p, k, q);
        }
        forall q | q in head ensures q !in tail {
          BelowSplit(mem, role, root, p, k, q);
        }
        Seqs.DistinctConcat(head, tail);
      } else {
        assert r == tail;
        forall q ensures Below(role, p, k, q) <==> Below(role, p, k + 1, q) {
          BelowSplit(mem, role, root, p, k, q);
        }
      }
    } else {
      forall q ensures Below(role, p, k, q) <==> q == p { BelowNone(mem, role, root, p, q); }
      DistinctOne(p);
    }
  }

  lemma BelowNone(mem: Tables, role: Roles, root: nat, p: nat, q: nat)
    requires Tree(mem, role, root) && p in role
    ensures Below(role, p, ENTRIES, q) <==> q == p
  {
    if q in role {
      assert PageOk(mem, role, root, q);
      if role[q].Low? { assert PageOk(mem, role, root, role[q].up); }
    }
  }

  lemma DistinctOne(p: nat)
    ensures Seqs.Distinct([p])
  {
  }

  // What is below p from entry k on is below the page at entry k, or below p from k + 1 on.
  lemma BelowSplit(mem: Tables, role: Roles, root: nat, p: nat, k: nat, q: nat)
    requires Tree(mem, role, root) && p in role && k < ENTRIES && p in mem && |mem[p]| == ENTRIES
    requires mem[p][k].Table? ==> mem[p][k].ppn in role
    ensures mem[p][k].Table? ==>
              (Below(role, p, k, q) <==> Below(role, mem[p][k].ppn, 0, q) || Below(role, p, k + 1, q))
    ensures mem[p][k].Table? ==> !(Below(role, mem[p][k].ppn, 0, q) && Below(role, p, k + 1, q))
    ensures !mem[p][k].Table? ==> (Below(role, p, k, q) <==> Below(role, p, k + 1, q))
  {
    assert PageOk(mem, role, root, p) && EntryOk(mem, role, p, k);
    if q in role {
      assert PageOk(mem, role, root, q);
      if role[q].Low? { assert PageOk(mem, role, root, role[q].up); }
    }
  }
}
