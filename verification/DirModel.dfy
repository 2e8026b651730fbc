/**
 Directories and link counts (kernel/sysfile.c, kernel/fs.c) as a transition system over inodes.
 create() and unlink() hold the locks of every inode they change until they have acquired all of
 them, so each is one step; link() raises the count in one step and writes the entry in another.
 */
module DirModel {
  import Seqs

  datatype Kind = FREE | DIR | FILE | DEVICE

  datatype Dirent = Dirent(inum: nat, name: string)

  datatype Inode = Inode(kind: Kind, nlink: nat, entries: seq<Dirent>)

  // refs counts the C pointers to an inode; pending the links that are made but not yet entered.
  datatype State = State(inodes: seq<Inode>, refs: seq<nat>, pending: seq<nat>)

  const ROOT: nat := 1

  predicate Shaped(s: State) {
    |s.inodes| == |s.refs| == |s.pending| > ROOT
  }

  // A directory that is still in the tree.
  predicate Linked(s: State, d: nat) {
    d < |s.inodes| && s.inodes[d].kind == DIR && s.inodes[d].nlink > 0
  }

  // Slot k of directory d is an entry that counts as a link to i.
  predicate Counts(s: State, d: nat, k: nat, i: nat) {
    Linked(s, d) && k < |s.inodes[d].entries| && s.inodes[d].entries[k].inum == i
    && s.inodes[d].entries[k].name != "."
  }

  ghost function Names(s: State, i: nat): set<(nat, nat)> {
    set d: nat, k: nat | d < |s.inodes| && k < |s.inodes[d].entries| && Counts(s, d, k, i) :: (d, k)
  }

  lemma InNames(s: State, i: nat, d: nat, k: nat)
    ensures (d, k) in Names(s, i) <==> Counts(s, d, k, i)
  {
  }

  // ---------- counting ----------

  lemma NamesSame(s: State, t: State, i: nat)
    requires forall d: nat, k: nat :: Counts(s, d, k, i) <==> Counts(t, d, k, i)
    ensures Names(s, i) == Names(t, i)
  {
    forall x: (nat, nat) ensures x in Names(s, i) <==> x in Names(t, i) {
      InNames(s, i, x.0, x.1);
      InNames(t, i, x.0, x.1);
    }
  }

  // t has one more entry for i than s, at slot e of directory c.
  lemma NamesMore(s: State, t: State, i: nat, c: nat, e: nat)
    requires forall d: nat, k: nat :: Counts(t, d, k, i) <==> Counts(s, d, k, i) || (d == c && k == e)
    requires !Counts(s, c, e, i)
    ensures |Names(t, i)| == |Names(s, i)| + 1
  {
    forall x: (nat, nat) ensures x in Names(t, i) <==> x in Names(s, i) + {(c, e)} {
      InNames(s, i, x.0, x.1);
      InNames(t, i, x.0, x.1);
    }
    InNames(s, i, c, e);
    assert Names(t, i) == Names(s, i) + {(c, e)};
  }

  lemma NamesNone(s: State, i: nat, d: nat, k: nat)
    requires |Names(s, i)| == 0
    ensures !Counts(s, d, k, i)
  {
    InNames(s, i, d, k);
  }

  lemma NamesOne(s: State, i: nat, c: nat, e: nat)
    requires Counts(s, c, e, i) && forall d: nat, k: nat :: Counts(s, d, k, i) ==> d == c && k == e
    ensures |Names(s, i)| == 1
  {
    forall x: (nat, nat) ensures x in Names(s, i) <==> x in {(c, e)} {
      InNames(s, i, x.0, x.1);
    }
    assert Names(s, i) == {(c, e)};
  }

  // ---------- invariant ----------

  // The first two entries of a directory are "." and "..", and live names are unique.
  ghost predicate DirShape(es: seq<Dirent>, i: nat) {
    && |es| >= 2 && es[0] == Dirent(i, ".") && es[1].name == ".." && es[1].inum != 0
    && (forall k :: 2 <= k < |es| && es[k].inum != 0 ==> es[k].name != "." && es[k].name != "..")
    && (forall k, l :: 0 <= k < l < |es| && es[k].inum != 0 && es[l].inum != 0 ==> es[k].name != es[l].name)
  }

  predicate Empty(es: seq<Dirent>) {
    forall k :: 2 <= k < |es| ==> es[k].inum == 0
  }

  ghost predicate InodeOk(s: State, i: nat)
    requires Shaped(s) && i < |s.inodes|
  {
    var p := s.inodes[i];
    && (p.kind == FREE ==> p.nlink == 0 && p.entries == [] && s.refs[i] == 0)
    && (p.kind == DIR ==> DirShape(p.entries, i) && s.pending[i] == 0 && (p.nlink == 0 ==> Empty(p.entries)))
  }

  // Slot k of d, from the third on, names an inode other than the root; a directory so named has
  // d for its parent and no second name.
  ghost predicate EntryOk(s: State, d: nat, k: nat, c: nat)
    requires Shaped(s)
  {
    k >= 2 && c > 0 && Counts(s, d, k, c) ==>
      && c < |s.inodes| && c != ROOT
      && (s.inodes[c].kind == DIR ==>
            && |s.inodes[c].entries| >= 2 && s.inodes[c].entries[1].inum == d
            && forall l: nat :: l >= 2 && Counts(s, d, l, c) ==> l == k)
  }

  // A linked directory other than the root is in its parent.
  ghost predicate HasParent(s: State, e: nat) {
    Linked(s, e) && e != ROOT && |s.inodes[e].entries| >= 2 ==>
      exists k: nat :: k >= 2 && Counts(s, s.inodes[e].entries[1].inum, k, e)
  }

  // n steps through ".." entries of linked directories lead from d to the root.
  ghost predicate Climbs(s: State, d: nat, n: nat)
    decreases n
  {
    if n == 0 then d == ROOT
    else
      && Linked(s, d) && d != ROOT && |s.inodes[d].entries| >= 2
      && Climbs(s, s.inodes[d].entries[1].inum, n - 1)
  }

  ghost predicate Rooted(s: State, d: nat) {
    Linked(s, d) ==> exists n: nat :: Climbs(s, d, n)
  }

  ghost predicate RootOk(s: State) {
    Linked(s, ROOT) && |s.inodes[ROOT].entries| >= 2 && s.inodes[ROOT].entries[1].inum == ROOT
  }

  ghost predicate CountOk(s: State, i: nat)
    requires Shaped(s) && i < |s.inodes|
  {
    s.inodes[i].nlink == |Names(s, i)| + s.pending[i]
  }

  ghost predicate Tree(s: State)
    requires Shaped(s)
  {
    && RootOk(s) && s.inodes[0].kind == FREE
    && (forall i: nat :: i < |s.inodes| ==> InodeOk(s, i))
    && (forall d: nat, k: nat, c: nat :: EntryOk(s, d, k, c))
    && (forall e: nat :: HasParent(s, e))
    && (forall e: nat :: Rooted(s, e))
  }

  // Every link count is the number of entries in the tree, other than ".", that name the inode,
  // and of links still to be entered.
  ghost predicate Counted(s: State)
    requires Shaped(s)
  {
    forall i: nat :: 0 < i < |s.inodes| ==> CountOk(s, i)
  }

  ghost predicate Inv(s: State) {
    Shaped(s) && Tree(s) && Counted(s)
  }

  // In t the linked directories other than c are still linked, with the same parents, and c is
  // nobody's parent.
  ghost predicate KeepsParents(s: State, t: State, c: nat)
    requires Shaped(s)
  {
    c != ROOT && forall x: nat :: Linked(s, x) && x != c ==> KeepsParent(s, t, c, x)
  }

  ghost predicate KeepsParent(s: State, t: State, c: nat, x: nat)
    requires Shaped(s) && Linked(s, x)
  {
    var es := s.inodes[x].entries;
    && Linked(t, x) && |es| >= 2 && |t.inodes[x].entries| >= 2
    && t.inodes[x].entries[1].inum == es[1].inum && es[1].inum != c
  }

  lemma {:induction false} StillClimbs(s: State, t: State, c: nat, d: nat, n: nat)
    requires Shaped(s) && KeepsParents(s, t, c) && d != c && Climbs(s, d, n)
    ensures Climbs(t, d, n)
    decreases n
  {
    if n > 0 {
      assert KeepsParent(s, t, c, d);
      StillClimbs(s, t, c, s.inodes[d].entries[1].inum, n - 1);
    }
  }

  lemma StillRooted(s: State, t: State, c: nat, d: nat)
    requires Shaped(s) && KeepsParents(s, t, c) && d != c && Linked(s, d) && Rooted(s, d)
    ensures Rooted(t, d)
  {
    var n: nat :| Climbs(s, d, n);
    StillClimbs(s, t, c, d, n);
  }

  // An empty directory is nobody's parent.
  lemma EmptyHasNoChild(s: State, c: nat, x: nat)
    requires Inv(s) && c < |s.inodes| && Empty(s.inodes[c].entries) && c != ROOT && Linked(s, x)
    ensures |s.inodes[x].entries| >= 2 && s.inodes[x].entries[1].inum != c
  {
    assert InodeOk(s, x) && HasParent(s, x) && RootOk(s);
  }

  // ---------- steps ----------

  function FindFrom(es: seq<Dirent>, name: string, k: nat): (r: nat)
    requires k <= |es|
    ensures k <= r <= |es|
    ensures r < |es| ==> es[r].inum != 0 && es[r].name == name
    ensures forall j :: k <= j < r ==> es[j].inum == 0 || es[j].name != name
    decreases |es| - k
  {
    if k == |es| || (es[k].inum != 0 && es[k].name == name) then k else FindFrom(es, name, k + 1)
  }

  // dirlookup(): the slot of the entry, or the number of slots.
  function Find(es: seq<Dirent>, name: string): nat {
    FindFrom(es, name, 0)
  }

  function SpaceFrom(es: seq<Dirent>, k: nat): (r: nat)
    requires k <= |es|
    ensures k <= r <= |es| && (r < |es| ==> es[r].inum == 0) && forall j :: k <= j < r ==> es[j].inum != 0
    decreases |es| - k
  {
    if k == |es| || es[k].inum == 0 then k else SpaceFrom(es, k + 1)
  }

  // The slot that dirlink() writes.
  function Space(es: seq<Dirent>): nat {
    SpaceFrom(es, 0)
  }

  function Put(es: seq<Dirent>, k: nat, e: Dirent): seq<Dirent>
    requires k <= |es|
  {
    if k < |es| then es[k := e] else es + [e]
  }

  function SetInode(s: State, i: nat, p: Inode): State
    requires i < |s.inodes|
  {
    s.(inodes := s.inodes[i := p])
  }

  function SetLinks(s: State, i: nat, n: nat): State
    requires i < |s.inodes|
  {
    SetInode(s, i, s.inodes[i].(nlink := n))
  }

  // dirlink() of a name that is not there.
  function Enter(s: State, d: nat, name: string, i: nat): State
    requires d < |s.inodes|
  {
    var es := s.inodes[d].entries;
    SetInode(s, d, s.inodes[d].(entries := Put(es, Space(es), Dirent(i, name))))
  }

  function Ref(s: State, i: nat): State
    requires i < |s.refs|
  {
    s.(refs := s.refs[i := s.refs[i] + 1])
  }

  // create() of name in d, as inode i.
  function Create(s: State, d: nat, name: string, kind: Kind, i: nat): State
    requires Shaped(s) && d < |s.inodes| && i < |s.inodes|
  {
    var dots := if kind == DIR then [Dirent(i, "."), Dirent(d, "..")] else [];
    var t := SetInode(s, i, Inode(kind, 1, dots));
    var u := if kind == DIR then SetLinks(t, d, t.inodes[d].nlink + 1) else t;
    Ref(Enter(u, d, name, i), i)
  }

  predicate CanCreate(s: State, d: nat, name: string, kind: Kind, i: nat) {
    && d < |s.inodes| && s.inodes[d].kind == DIR && kind != FREE
    && Find(s.inodes[d].entries, name) == |s.inodes[d].entries|
    && 0 < i < |s.inodes| && s.inodes[i].kind == FREE
  }

  // The slot dirlink() uses is not one of the dots, and its use keeps names unique.
  lemma PutShape(es: seq<Dirent>, d: nat, name: string, i: nat)
    requires DirShape(es, d) && d > 0 && Find(es, name) == |es|
    ensures Space(es) >= 2 && DirShape(Put(es, Space(es), Dirent(i, name)), d)
  {
    var k := Space(es);
    var r := Put(es, k, Dirent(i, name));
    assert k >= 2 by { assert es[0].inum != 0 && es[1].inum != 0; }
    assert forall j :: 0 <= j < |es| && j != k ==> r[j] == es[j];
    assert r[k] == Dirent(i, name);
    assert name != "." by { assert es[0].name == "."; }
    assert name != ".." by { assert es[1].name == ".."; }
  }

  // What create() changes.
  lemma CreateFacts(s: State, d: nat, name: string, kind: Kind, i: nat)
    requires Shaped(s) && CanCreate(s, d, name, kind, i)
    ensures var t := Create(s, d, name, kind, i); var es := s.inodes[d].entries;
            && Shaped(t) && |t.inodes| == |s.inodes| && t.pending == s.pending
            && (forall x: nat :: x < |s.inodes| && x != d && x != i ==> t.inodes[x] == s.inodes[x])
            && (forall x: nat :: x < |s.inodes| && x != i ==> t.refs[x] == s.refs[x])
            && t.inodes[i].kind == kind && t.inodes[i].nlink == 1
            && t.inodes[i].entries == (if kind == DIR then [Dirent(i, "."), Dirent(d, "..")] else [])
            && t.inodes[d] == Inode(DIR, s.inodes[d].nlink + (if kind == DIR then 1 else 0),
                                    Put(es, Space(es), Dirent(i, name)))
  {
  }

  lemma CreateCounts(s: State, d: nat, name: string, kind: Kind, i: nat, x: nat, k: nat, j: nat)
    requires Inv(s) && CanCreate(s, d, name, kind, i) && Linked(s, d) && j > 0
    ensures Counts(Create(s, d, name, kind, i), x, k, j) <==>
      || Counts(s, x, k, j)
      || (x == d && k == Space(s.inodes[d].entries) && j == i)
      || (kind == DIR && x == i && k == 1 && j == d)
  {
    CreateFacts(s, d, name, kind, i);
    assert InodeOk(s, d);
    PutShape(s.inodes[d].entries, d, name, i);
    hide Inv, Create;
    var es := s.inodes[d].entries;
    var r := Put(es, Space(es), Dirent(i, name));
    assert forall l: nat :: l < |es| && l != Space(es) ==> r[l] == es[l];
    assert r[Space(es)] == Dirent(i, name) && name != "." by { assert r[0].name == "."; }
  }

  // ---------- create() keeps the invariant in a linked directory ----------

  // An inode without links is named by no entry of the tree.
  lemma Unnamed(s: State, i: nat)
    requires Inv(s) && 0 < i < |s.inodes| && s.inodes[i].nlink == 0
    ensures s.pending[i] == 0 && forall d: nat, k: nat :: !Counts(s, d, k, i)
  {
    assert CountOk(s, i);
    forall d: nat, k: nat ensures !Counts(s, d, k, i) { NamesNone(s, i, d, k); }
  }

  lemma CreateInodes(s: State, d: nat, name: string, kind: Kind, i: nat, x: nat)
    requires Inv(s) && CanCreate(s, d, name, kind, i) && Linked(s, d) && x < |s.inodes|
    ensures InodeOk(Create(s, d, name, kind, i), x)
  {
    CreateFacts(s, d, name, kind, i);
    assert InodeOk(s, d) && InodeOk(s, x) && InodeOk(s, i);
    PutShape(s.inodes[d].entries, d, name, i);
    Unnamed(s, i);
    hide Inv, Create;
  }

  lemma CreateEntries(s: State, d: nat, name: string, kind: Kind, i: nat, x: nat, k: nat, c: nat)
    requires Inv(s) && CanCreate(s, d, name, kind, i) && Linked(s, d)
    ensures EntryOk(Create(s, d, name, kind, i), x, k, c)
  {
    CreateFacts(s, d, name, kind, i);
    var t := Create(s, d, name, kind, i);
    assert InodeOk(s, d) && InodeOk(s, i) && EntryOk(s, x, k, c) && RootOk(s);
    PutShape(s.inodes[d].entries, d, name, i);
    Unnamed(s, i);
    if c > 0 {
      forall l: nat
        ensures Counts(t, x, l, c) <==> (Counts(s, x, l, c)
                || (x == d && l == Space(s.inodes[d].entries) && c == i) || (kind == DIR && x == i && l == 1 && c == d))
      {
        CreateCounts(s, d, name, kind, i, x, l, c);
      }
    }
    hide Inv, Create, Counts;
  }

  lemma CreateParents(s: State, d: nat, name: string, kind: Kind, i: nat, x: nat)
    requires Inv(s) && CanCreate(s, d, name, kind, i) && Linked(s, d)
    ensures HasParent(Create(s, d, name, kind, i), x)
  {
    CreateFacts(s, d, name, kind, i);
    assert InodeOk(s, d) && HasParent(s, x);
    PutShape(s.inodes[d].entries, d, name, i);
    var t := Create(s, d, name, kind, i);
    var k0 := Space(s.inodes[d].entries);
    if x == i {
      CreateCounts(s, d, name, kind, i, d, k0, i);
    } else if Linked(s, x) && x != ROOT && x < |s.inodes| {
      assert InodeOk(s, x);
      var q := s.inodes[x].entries[1].inum;
      var k: nat :| k >= 2 && Counts(s, q, k, x);
      CreateCounts(s, d, name, kind, i, q, k, x);
      assert t.inodes[x].entries[1] == s.inodes[x].entries[1];
    }
  }

  // The new directory is one step below its parent.
  lemma CreateRooted(s: State, d: nat, name: string, kind: Kind, i: nat, x: nat)
    requires Inv(s) && CanCreate(s, d, name, kind, i) && Linked(s, d)
    ensures Rooted(Create(s, d, name, kind, i), x)
  {
    CreateFacts(s, d, name, kind, i);
    assert InodeOk(s, d) && InodeOk(s, i) && RootOk(s);
    PutShape(s.inodes[d].entries, d, name, i);
    var t := Create(s, d, name, kind, i);
    forall y: nat | Linked(s, y) && y != 0 ensures KeepsParent(s, t, 0, y) { assert InodeOk(s, y); }
    assert Rooted(s, d) && Rooted(s, x);
    hide Create, Counted, InodeOk, EntryOk, HasParent;
    if x == i && kind == DIR {
      var n: nat :| Climbs(s, d, n);
      StillClimbs(s, t, 0, d, n);
      assert Climbs(t, i, n + 1);
    } else if Linked(t, x) {
      assert Linked(s, x);
      StillRooted(s, t, 0, x);
    }
  }

  lemma CreateCount(s: State, d: nat, name: string, kind: Kind, i: nat, j: nat)
    requires Inv(s) && CanCreate(s, d, name, kind, i) && Linked(s, d) && 0 < j < |s.inodes|
    ensures CountOk(Create(s, d, name, kind, i), j)
  {
    CreateFacts(s, d, name, kind, i);
    var t := Create(s, d, name, kind, i);
    assert CountOk(s, j) && InodeOk(s, i);
    Unnamed(s, i);
    forall x: nat, k: nat
      ensures Counts(t, x, k, j) <==> (Counts(s, x, k, j)
                || (x == d && k == Space(s.inodes[d].entries) && j == i) || (kind == DIR && x == i && k == 1 && j == d))
    {
      CreateCounts(s, d, name, kind, i, x, k, j);
    }
    hide Inv, Create, Counts;
    if j == i {
      NamesMore(s, t, j, d, Space(s.inodes[d].entries));
    } else if kind == DIR && j == d {
      assert !Counts(s, i, 1, d) by { FreeCounts(s, i, 1, d); }
      NamesMore(s, t, j, i, 1);
    } else {
      NamesSame(s, t, j);
    }
  }

  lemma FreeCounts(s: State, i: nat, k: nat, j: nat)
    requires i < |s.inodes| && s.inodes[i].kind == FREE
    ensures !Counts(s, i, k, j)
  {
  }

  lemma CreateKeeps(s: State, d: nat, name: string, kind: Kind, i: nat)
    requires Inv(s) && CanCreate(s, d, name, kind, i) && Linked(s, d)
    ensures Inv(Create(s, d, name, kind, i))
  {
    var t := Create(s, d, name, kind, i);
    CreateFacts(s, d, name, kind, i);
    assert RootOk(s) && InodeOk(s, ROOT) && InodeOk(s, d);
    PutShape(s.inodes[d].entries, d, name, i);
    forall x: nat, k: nat, c: nat ensures EntryOk(t, x, k, c) { CreateEntries(s, d, name, kind, i, x, k, c); }
    forall x: nat | x < |t.inodes| ensures InodeOk(t, x) { CreateInodes(s, d, name, kind, i, x); }
    forall x: nat ensures HasParent(t, x) { CreateParents(s, d, name, kind, i, x); }
    forall x: nat ensures Rooted(t, x) { CreateRooted(s, d, name, kind, i, x); }
    forall x: nat | 0 < x < |t.inodes| ensures CountOk(t, x) { CreateCount(s, d, name, kind, i, x); }
  }

  // ---------- link() ----------

  // Nothing changes but references, and link counts together with the links still to be entered.
  ghost predicate SameTree(s: State, t: State)
    requires Shaped(s)
  {
    && Shaped(t) && |t.inodes| == |s.inodes|
    && forall x: nat :: x < |s.inodes| ==> SameInode(s, t, x)
  }

  predicate SameInode(s: State, t: State, x: nat)
    requires Shaped(s) && Shaped(t) && |t.inodes| == |s.inodes| && x < |s.inodes|
  {
    var p, q := s.inodes[x], t.inodes[x];
    && q.kind == p.kind && q.entries == p.entries && q.nlink - t.pending[x] == p.nlink - s.pending[x]
    && (p.kind == DIR ==> q.nlink == p.nlink) && (p.kind == FREE ==> q.nlink == 0 && t.refs[x] == 0)
  }

  // The linked directories and their parents are the same.
  lemma SameRooted(s: State, t: State)
    requires Inv(s) && Shaped(t) && |t.inodes| == |s.inodes|
    requires forall x: nat :: Linked(s, x) <==> Linked(t, x)
    requires forall x: nat :: Linked(s, x) && |s.inodes[x].entries| >= 2 ==>
               |t.inodes[x].entries| >= 2 && t.inodes[x].entries[1] == s.inodes[x].entries[1]
    ensures forall x: nat :: Rooted(t, x)
  {
    forall y: nat | Linked(s, y) && y != 0 ensures KeepsParent(s, t, 0, y) { assert InodeOk(s, y); }
    forall x: nat ensures Rooted(t, x) {
      if Linked(s, x) {
        assert Rooted(s, x);
        StillRooted(s, t, 0, x);
      }
    }
  }

  lemma SameTreeKeeps(s: State, t: State)
    requires Inv(s) && SameTree(s, t)
    ensures Inv(t)
  {
    forall d: nat, k: nat, i: nat ensures Counts(s, d, k, i) <==> Counts(t, d, k, i) {
      if d < |s.inodes| { assert SameInode(s, t, d); }
    }
    assert RootOk(s) && SameInode(s, t, ROOT) && SameInode(s, t, 0);
    forall x: nat | x < |t.inodes| ensures InodeOk(t, x) { assert InodeOk(s, x) && SameInode(s, t, x); }
    forall d: nat, k: nat, c: nat ensures EntryOk(t, d, k, c) {
      assert EntryOk(s, d, k, c);
      if c < |s.inodes| { assert SameInode(s, t, c); }
    }
    forall x: nat ensures HasParent(t, x) {
      assert HasParent(s, x);
      if x < |s.inodes| { assert SameInode(s, t, x); }
    }
    forall x: nat
      ensures (Linked(s, x) <==> Linked(t, x)) && (Linked(s, x) ==> t.inodes[x].entries == s.inodes[x].entries)
    {
      if x < |s.inodes| { assert SameInode(s, t, x); }
    }
    SameRooted(s, t);
    forall x: nat | 0 < x < |t.inodes| ensures CountOk(t, x) {
      assert CountOk(s, x) && SameInode(s, t, x);
      NamesSame(s, t, x);
    }
  }

  // link() before it has found the new directory: it keeps a reference to i.
  function LinkBegin(s: State, i: nat): State
    requires Shaped(s) && i < |s.inodes|
  {
    Ref(SetLinks(s, i, s.inodes[i].nlink + 1).(pending := s.pending[i := s.pending[i] + 1]), i)
  }

  predicate CanLinkBegin(s: State, i: nat) {
    i < |s.inodes| && s.inodes[i].kind != DIR && s.inodes[i].kind != FREE
  }

  // link() when there is no such directory, or the name is taken.
  function LinkBad(s: State, i: nat): State
    requires Shaped(s) && i < |s.inodes| && s.inodes[i].nlink > 0 && s.pending[i] > 0
  {
    SetLinks(s, i, s.inodes[i].nlink - 1).(pending := s.pending[i := s.pending[i] - 1])
  }

  // link() when it enters the name.
  function LinkEnd(s: State, d: nat, name: string, i: nat): State
    requires Shaped(s) && d < |s.inodes| && i < |s.inodes| && s.pending[i] > 0
  {
    Enter(s, d, name, i).(pending := s.pending[i := s.pending[i] - 1])
  }

  predicate CanLinkEnd(s: State, d: nat, name: string, i: nat) {
    && d < |s.inodes| && s.inodes[d].kind == DIR && Find(s.inodes[d].entries, name) == |s.inodes[d].entries|
    && 0 < i < |s.inodes| && i < |s.pending| && s.pending[i] > 0
  }

  lemma LinkEndCounts(s: State, d: nat, name: string, i: nat, x: nat, k: nat, j: nat)
    requires Inv(s) && CanLinkEnd(s, d, name, i) && Linked(s, d) && j > 0
    ensures Counts(LinkEnd(s, d, name, i), x, k, j) <==>
      Counts(s, x, k, j) || (x == d && k == Space(s.inodes[d].entries) && j == i)
  {
    var t := LinkEnd(s, d, name, i);
    assert InodeOk(s, d);
    PutShape(s.inodes[d].entries, d, name, i);
    hide Inv;
    var es := s.inodes[d].entries;
    var r := t.inodes[d].entries;
    assert forall l: nat :: l < |es| && l != Space(es) ==> r[l] == es[l];
    assert r[Space(es)] == Dirent(i, name) && name != "." by { assert r[0].name == "."; }
  }

  lemma LinkEndKeeps(s: State, d: nat, name: string, i: nat)
    requires Inv(s) && CanLinkEnd(s, d, name, i) && Linked(s, d)
    ensures Inv(LinkEnd(s, d, name, i))
  {
    var t := LinkEnd(s, d, name, i);
    var k0 := Space(s.inodes[d].entries);
    assert InodeOk(s, d) && InodeOk(s, i) && RootOk(s) && InodeOk(s, ROOT) && CountOk(s, i);
    PutShape(s.inodes[d].entries, d, name, i);
    assert !Counts(s, d, k0, i);
    forall x: nat, k: nat, j: nat | j > 0
      ensures Counts(t, x, k, j) <==> (Counts(s, x, k, j) || (x == d && k == k0 && j == i))
    {
      LinkEndCounts(s, d, name, i, x, k, j);
    }
    assert forall x: nat :: x < |t.inodes| && x != d ==> t.inodes[x] == s.inodes[x];
    assert t.inodes[d].entries[1] == s.inodes[d].entries[1];
    forall x: nat | x < |t.inodes| ensures InodeOk(t, x) { assert InodeOk(s, x); }
    LinkEndTree(s, t, d, i, k0);
    forall x: nat | 0 < x < |t.inodes| ensures CountOk(t, x) {
      assert CountOk(s, x);
      if x == i { NamesMore(s, t, i, d, k0); } else { NamesSame(s, t, x); }
    }
  }

  lemma LinkEndTree(s: State, t: State, d: nat, i: nat, k0: nat)
    requires Inv(s) && Shaped(t) && |t.inodes| == |s.inodes|
    requires 0 < i < |s.inodes| && s.inodes[i].kind != DIR
    requires forall x: nat, k: nat, j: nat :: j > 0 ==>
               (Counts(t, x, k, j) <==> (Counts(s, x, k, j) || (x == d && k == k0 && j == i)))
    requires forall x: nat :: x < |t.inodes| ==>
               t.inodes[x].kind == s.inodes[x].kind && t.inodes[x].nlink == s.inodes[x].nlink
               && (|s.inodes[x].entries| >= 2 ==>
                     |t.inodes[x].entries| >= 2 && t.inodes[x].entries[1] == s.inodes[x].entries[1])
    ensures forall x: nat, k: nat, c: nat :: EntryOk(t, x, k, c)
    ensures forall x: nat :: HasParent(t, x)
    ensures forall x: nat :: Rooted(t, x)
  {
    assert RootOk(s);
    SameRooted(s, t);
    hide Counts;
    forall x: nat, k: nat, c: nat ensures EntryOk(t, x, k, c) {
      assert EntryOk(s, x, k, c);
    }
    forall x: nat ensures HasParent(t, x) {
      assert HasParent(s, x);
      if x < |s.inodes| { assert InodeOk(s, x); }
    }
  }

  // ---------- unlink() ----------

  // unlink() of slot k of d; it keeps a reference to the inode named there.
  function Unlink(s: State, d: nat, k: nat): State
    requires Shaped(s) && d < |s.inodes| && k < |s.inodes[d].entries|
    requires var c := s.inodes[d].entries[k].inum; c < |s.inodes| && c != d && s.inodes[c].nlink > 0
    requires s.inodes[s.inodes[d].entries[k].inum].kind == DIR ==> s.inodes[d].nlink > 0
  {
    var c := s.inodes[d].entries[k].inum;
    var t := SetInode(s, d, s.inodes[d].(entries := s.inodes[d].entries[k := Dirent(0, "")]));
    var u := if s.inodes[c].kind == DIR then SetLinks(t, d, t.inodes[d].nlink - 1) else t;
    Ref(SetLinks(u, c, u.inodes[c].nlink - 1), c)
  }

  predicate CanUnlink(s: State, d: nat, name: string) {
    && d < |s.inodes| && s.inodes[d].kind == DIR && name != "." && name != ".."
    && Find(s.inodes[d].entries, name) < |s.inodes[d].entries|
    && var c := s.inodes[d].entries[Find(s.inodes[d].entries, name)].inum;
       c < |s.inodes| ==> s.inodes[c].kind == DIR ==> Empty(s.inodes[c].entries)
  }

  // What unlink() finds has a link: its panic is never reached.
  lemma UnlinkTarget(s: State, d: nat, name: string)
    requires Inv(s) && d < |s.inodes| && s.inodes[d].kind == DIR && name != "." && name != ".."
    requires Find(s.inodes[d].entries, name) < |s.inodes[d].entries|
    ensures var k := Find(s.inodes[d].entries, name); var c := s.inodes[d].entries[k].inum;
            && k >= 2 && Linked(s, d) && Counts(s, d, k, c) && 0 < c < |s.inodes| && c != ROOT
            && s.inodes[c].nlink > 0 && s.inodes[c].kind != FREE
            && (s.inodes[c].kind == DIR && Empty(s.inodes[c].entries) ==> c != d)
  {
    var es := s.inodes[d].entries;
    var k := Find(es, name);
    var c := es[k].inum;
    assert InodeOk(s, d);
    assert k >= 2 by { assert es[0].name == "." && es[1].name == ".."; }
    assert EntryOk(s, d, k, c);
    assert CountOk(s, c) && InodeOk(s, c);
    InNames(s, c, d, k);
    assert |Names(s, c)| > 0 by { if Names(s, c) == {} { assert false; } }
  }

  // An empty directory is named once, and its parent has a link besides its "..".
  lemma NamedOnce(s: State, d: nat, k: nat, c: nat)
    requires Inv(s) && k >= 2 && 0 < c && d > 0 && Counts(s, d, k, c) && c < |s.inodes|
    requires s.inodes[c].kind == DIR && Empty(s.inodes[c].entries) && s.inodes[c].nlink > 0
    ensures s.inodes[c].nlink == 1 && s.inodes[d].nlink >= 2 && Counts(s, c, 1, d)
  {
    assert InodeOk(s, c) && InodeOk(s, d) && EntryOk(s, d, k, c) && CountOk(s, c) && CountOk(s, d);
    forall x: nat, l: nat | Counts(s, x, l, c) ensures x == d && l == k {
      assert InodeOk(s, x) && EntryOk(s, x, l, c) && HasParent(s, x) && RootOk(s);
      assert forall m: nat :: m >= 2 ==> !Counts(s, c, m, x);
      assert l >= 2;
    }
    NamesOne(s, c, d, k);
    ParentLinks(s, d, c);
  }

  lemma ParentLinks(s: State, d: nat, c: nat)
    requires Inv(s) && Linked(s, d) && d > 0 && Counts(s, c, 1, d) && c != ROOT
    ensures s.inodes[d].nlink >= 2
  {
    assert InodeOk(s, d) && HasParent(s, d) && RootOk(s) && CountOk(s, d) && InodeOk(s, ROOT);
    var q, m: nat := ROOT, 1;
    if d != ROOT {
      q := s.inodes[d].entries[1].inum;
      m :| m >= 2 && Counts(s, q, m, d);
    }
    InNames(s, d, c, 1);
    InNames(s, d, q, m);
    assert {(c, 1), (q, m)} <= Names(s, d);
    assert |{(c, 1), (q, m)}| == 2;
    Seqs.Subset({(c, 1), (q, m)}, Names(s, d));
  }

  // Slot k of d names c, a file or an empty directory.
  ghost predicate Removable(s: State, d: nat, k: nat, c: nat)
    requires Shaped(s)
  {
    && k >= 2 && d > 0 && 0 < c < |s.inodes| && c != ROOT && c != d && Counts(s, d, k, c)
    && s.inodes[c].nlink > 0 && s.inodes[c].kind != FREE
    && (s.inodes[c].kind == DIR ==> s.inodes[c].nlink == 1 && s.inodes[d].nlink >= 2 && Counts(s, c, 1, d)
                                    && Empty(s.inodes[c].entries))
  }

  lemma UnlinkFacts(s: State, d: nat, k: nat, c: nat)
    requires Shaped(s) && Removable(s, d, k, c)
    ensures var t := Unlink(s, d, k); var isDir := s.inodes[c].kind == DIR;
            && Shaped(t) && |t.inodes| == |s.inodes| && t.pending == s.pending
            && (forall x: nat :: x < |s.inodes| && x != d && x != c ==> t.inodes[x] == s.inodes[x])
            && (forall x: nat :: x < |s.inodes| && x != c ==> t.refs[x] == s.refs[x])
            && t.inodes[c] == s.inodes[c].(nlink := s.inodes[c].nlink - 1)
            && t.inodes[d].entries == s.inodes[d].entries[k := Dirent(0, "")] && t.inodes[d].kind == DIR
            && t.inodes[d].nlink == s.inodes[d].nlink - (if isDir then 1 else 0)
  {
  }

  lemma UnlinkCounts(s: State, d: nat, k: nat, c: nat, x: nat, l: nat, j: nat)
    requires Inv(s) && Removable(s, d, k, c) && j > 0
    ensures Counts(Unlink(s, d, k), x, l, j) <==>
      Counts(s, x, l, j) && !(x == d && l == k) && !(s.inodes[c].kind == DIR && x == c && l == 1 && j == d)
  {
    UnlinkFacts(s, d, k, c);
    assert InodeOk(s, c) && InodeOk(s, d);
    hide Inv, Unlink;
    var es := s.inodes[d].entries;
    var r := es[k := Dirent(0, "")];
    assert forall m: nat :: m < |es| && m != k ==> r[m] == es[m];
  }

  lemma UnlinkInodes(s: State, d: nat, k: nat, c: nat, x: nat)
    requires Inv(s) && Removable(s, d, k, c) && x < |s.inodes|
    ensures InodeOk(Unlink(s, d, k), x)
  {
    UnlinkFacts(s, d, k, c);
    assert InodeOk(s, x) && InodeOk(s, d) && InodeOk(s, c);
    hide Inv, Unlink;
    var es := s.inodes[d].entries;
    var r := es[k := Dirent(0, "")];
    assert forall m: nat :: m < |es| && m != k ==> r[m] == es[m];
    assert DirShape(r, d);
  }

  lemma UnlinkTree(s: State, d: nat, k: nat, c: nat)
    requires Inv(s) && Removable(s, d, k, c)
    ensures Shaped(Unlink(s, d, k)) && RootOk(Unlink(s, d, k))
    ensures forall x: nat, l: nat, j: nat :: EntryOk(Unlink(s, d, k), x, l, j)
    ensures forall x: nat :: HasParent(Unlink(s, d, k), x)
  {
    var t := Unlink(s, d, k);
    UnlinkFacts(s, d, k, c);
    assert RootOk(s) && InodeOk(s, ROOT) && InodeOk(s, d);
    forall x: nat, l: nat, j: nat | j > 0
      ensures Counts(t, x, l, j) <==> (Counts(s, x, l, j) && !(x == d && l == k)
                && !(s.inodes[c].kind == DIR && x == c && l == 1 && j == d))
    {
      UnlinkCounts(s, d, k, c, x, l, j);
    }
    hide Unlink, Counts;
    forall x: nat, l: nat, j: nat ensures EntryOk(t, x, l, j) { assert EntryOk(s, x, l, j); }
    forall x: nat ensures HasParent(t, x) {
      assert HasParent(s, x);
      if Linked(t, x) {
        assert InodeOk(s, x);
        UnlinkOther(s, d, k, c, x);
      }
    }
  }

  // No linked directory climbs through the empty directory that goes.
  lemma UnlinkRooted(s: State, d: nat, k: nat, c: nat, x: nat)
    requires Inv(s) && Removable(s, d, k, c)
    ensures Rooted(Unlink(s, d, k), x)
  {
    var t := Unlink(s, d, k);
    UnlinkFacts(s, d, k, c);
    var z := if s.inodes[c].kind == DIR then c else 0;
    assert InodeOk(s, d) && InodeOk(s, c);
    forall y: nat | Linked(s, y) && y != z ensures KeepsParent(s, t, z, y) {
      assert InodeOk(s, y);
      if z == c { EmptyHasNoChild(s, c, y); }
    }
    assert Rooted(s, x);
    if Linked(t, x) {
      assert Linked(s, x);
      StillRooted(s, t, z, x);
    }
  }

  // A slot names one inode.
  lemma UnlinkOther(s: State, d: nat, k: nat, c: nat, x: nat)
    requires Counts(s, d, k, c) && x != c
    ensures !Counts(s, d, k, x)
  {
  }

  lemma UnlinkCount(s: State, d: nat, k: nat, c: nat, j: nat)
    requires Inv(s) && Removable(s, d, k, c) && 0 < j < |s.inodes|
    ensures CountOk(Unlink(s, d, k), j)
  {
    var t := Unlink(s, d, k);
    UnlinkFacts(s, d, k, c);
    assert CountOk(s, j);
    forall x: nat, l: nat
      ensures Counts(t, x, l, j) <==> (Counts(s, x, l, j) && !(x == d && l == k)
                && !(s.inodes[c].kind == DIR && x == c && l == 1 && j == d))
    {
      UnlinkCounts(s, d, k, c, x, l, j);
    }
    if j != c { UnlinkOther(s, d, k, c, j); }
    if j == c {
      NamesMore(t, s, j, d, k);
    } else if j == d && s.inodes[c].kind == DIR {
      NamesMore(t, s, j, c, 1);
    } else {
      NamesSame(s, t, j);
    }
  }

  lemma UnlinkKeeps(s: State, d: nat, name: string)
    requires Inv(s) && CanUnlink(s, d, name)
    ensures var k := Find(s.inodes[d].entries, name); var c := s.inodes[d].entries[k].inum;
            Removable(s, d, k, c) && Inv(Unlink(s, d, k))
  {
    var k := Find(s.inodes[d].entries, name);
    var c := s.inodes[d].entries[k].inum;
    UnlinkTarget(s, d, name);
    assert d > 0;
    if s.inodes[c].kind == DIR { NamedOnce(s, d, k, c); }
    UnlinkRest(s, d, k, c);
  }

  lemma UnlinkRest(s: State, d: nat, k: nat, c: nat)
    requires Inv(s) && Removable(s, d, k, c)
    ensures Inv(Unlink(s, d, k))
  {
    var t := Unlink(s, d, k);
    UnlinkFacts(s, d, k, c);
    UnlinkTree(s, d, k, c);
    forall x: nat ensures Rooted(t, x) { UnlinkRooted(s, d, k, c, x); }
    forall x: nat | x < |t.inodes| ensures InodeOk(t, x) { UnlinkInodes(s, d, k, c, x); }
    forall x: nat | 0 < x < |t.inodes| ensures CountOk(t, x) { UnlinkCount(s, d, k, c, x); }
  }

  // ---------- iput() ----------

  // iput(): the last reference to an inode without links frees it, if its copy is valid.
  function Iput(s: State, i: nat, valid: bool): State
    requires Shaped(s) && i < |s.inodes| && s.refs[i] > 0
  {
    var t := if s.refs[i] == 1 && valid && s.inodes[i].nlink == 0
             then SetInode(s, i, s.inodes[i].(kind := FREE, entries := [])) else s;
    t.(refs := t.refs[i := t.refs[i] - 1])
  }

  lemma IputKeeps(s: State, i: nat, valid: bool)
    requires Inv(s) && i < |s.inodes| && s.refs[i] > 0
    ensures Inv(Iput(s, i, valid))
  {
    var t := Iput(s, i, valid);
    assert InodeOk(s, i) && RootOk(s);
    if s.refs[i] == 1 && valid && s.inodes[i].nlink == 0 {
      assert i != 0;
      Unnamed(s, i);
      FreeKeeps(s, t, i);
    } else {
      forall x: nat | x < |s.inodes| ensures SameInode(s, t, x) { assert InodeOk(s, x); }
      SameTreeKeeps(s, t);
    }
  }

  lemma FreeKeeps(s: State, t: State, i: nat)
    requires Inv(s) && Shaped(t) && 0 < i < |s.inodes| && s.inodes[i].nlink == 0
    requires t == s.(inodes := s.inodes[i := Inode(FREE, 0, [])], refs := s.refs[i := 0])
    ensures Inv(t)
  {
    Unnamed(s, i);
    assert InodeOk(s, i) && RootOk(s);
    forall d: nat, k: nat, j: nat ensures Counts(s, d, k, j) <==> Counts(t, d, k, j) {
    }
    forall x: nat | x < |t.inodes| ensures InodeOk(t, x) { assert InodeOk(s, x); }
    forall d: nat, k: nat, c: nat ensures EntryOk(t, d, k, c) { assert EntryOk(s, d, k, c); }
    forall x: nat ensures HasParent(t, x) { assert HasParent(s, x); }
    SameRooted(s, t);
    forall x: nat | 0 < x < |t.inodes| ensures CountOk(t, x) {
      assert CountOk(s, x);
      NamesSame(s, t, x);
    }
  }

  // iput() frees an inode, contents and all, exactly when it drops the last reference to a valid
  // copy, nothing in the tree names the inode and no link to it is under way.
  lemma IputFrees(s: State, i: nat, valid: bool)
    requires Inv(s) && 0 < i < |s.inodes| && s.refs[i] > 0
    ensures var t := Iput(s, i, valid);
            t.inodes[i].kind == FREE <==>
              s.refs[i] == 1 && valid && s.pending[i] == 0 && forall d: nat, k: nat :: !Counts(s, d, k, i)
    ensures var t := Iput(s, i, valid);
            if t.inodes[i].kind == FREE then t.inodes[i] == Inode(FREE, 0, []) && t.refs[i] == 0
            else t.inodes[i] == s.inodes[i] && t.refs[i] == s.refs[i] - 1
    ensures var t := Iput(s, i, valid);
            |t.inodes| == |s.inodes| && |t.refs| == |s.refs|
            && forall x: nat :: x < |s.inodes| && x != i ==> t.inodes[x] == s.inodes[x] && t.refs[x] == s.refs[x]
  {
    assert InodeOk(s, i) && CountOk(s, i);
    if s.inodes[i].nlink == 0 { Unnamed(s, i); }
    if forall d: nat, k: nat :: !Counts(s, d, k, i) { NamesEmpty(s, i); }
  }

  // ---------- exactly when create() and link() keep the counts ----------

  // Making a file or directory keeps the invariant iff the parent is still in the tree.
  lemma CreateExactly(s: State, d: nat, name: string, kind: Kind, i: nat)
    requires Inv(s) && CanCreate(s, d, name, kind, i)
    ensures Inv(Create(s, d, name, kind, i)) <==> s.inodes[d].nlink > 0
  {
    if s.inodes[d].nlink > 0 {
      CreateKeeps(s, d, name, kind, i);
    } else {
      var t := Create(s, d, name, kind, i);
      CreateFacts(s, d, name, kind, i);
      assert InodeOk(s, d) && InodeOk(s, i);
      Unnamed(s, i);
      Unnamed(s, d);
      if kind == DIR {
        PutShape(s.inodes[d].entries, d, name, i);
        var q := s.inodes[d].entries[1].inum;
        assert Linked(t, d) && t.inodes[d].entries[1].inum == q;
        forall k: nat | k >= 2 ensures !Counts(t, q, k, d) {
          OrphanCounts(s, d, name, i, q, k);
        }
        assert !HasParent(t, d) by { assert RootOk(s); }
      } else {
        forall x: nat, k: nat ensures !Counts(t, x, k, i) { assert !Counts(s, x, k, i); }
        NamesEmpty(t, i);
        assert !CountOk(t, i);
      }
    }
  }

  lemma NamesEmpty(s: State, i: nat)
    requires forall d: nat, k: nat :: !Counts(s, d, k, i)
    ensures |Names(s, i)| == 0
  {
    forall x: (nat, nat) ensures x !in Names(s, i) { InNames(s, i, x.0, x.1); }
    assert Names(s, i) == {};
  }

  // No slot but ".." names the unlinked directory d, even once it has a new subdirectory.
  lemma OrphanCounts(s: State, d: nat, name: string, i: nat, x: nat, k: nat)
    requires Inv(s) && CanCreate(s, d, name, DIR, i) && s.inodes[d].nlink == 0 && k >= 2
    ensures !Counts(Create(s, d, name, DIR, i), x, k, d)
  {
    CreateFacts(s, d, name, DIR, i);
    assert InodeOk(s, d);
    Unnamed(s, d);
    assert !Counts(s, x, k, d);
    hide Inv, Create;
    var es := s.inodes[d].entries;
    var r := Put(es, Space(es), Dirent(i, name));
    assert forall l: nat :: 2 <= l < |r| ==> r[l].inum == 0 || r[l].inum == i;
  }

  lemma LinkEndExactly(s: State, d: nat, name: string, i: nat)
    requires Inv(s) && CanLinkEnd(s, d, name, i)
    ensures Inv(LinkEnd(s, d, name, i)) <==> s.inodes[d].nlink > 0
  {
    if s.inodes[d].nlink > 0 {
      LinkEndKeeps(s, d, name, i);
    } else {
      var t := LinkEnd(s, d, name, i);
      assert CountOk(s, i);
      forall x: nat, k: nat ensures Counts(s, x, k, i) <==> Counts(t, x, k, i) {
      }
      NamesSame(s, t, i);
      assert !CountOk(t, i);
    }
  }

  // ---------- whole runs ----------

  datatype Event =
    | DoCreate(d: nat, name: string, kind: Kind, i: nat)
    | DoLinkBegin(i: nat)
    | DoLinkEnd(d: nat, name: string, i: nat)
    | DoLinkBad(i: nat)
    | DoUnlink(d: nat, name: string)
    | DoGet(i: nat)
    | DoPut(i: nat, valid: bool)

  predicate Enabled(s: State, e: Event) {
    Shaped(s) && match e
    case DoCreate(d, name, kind, i) => CanCreate(s, d, name, kind, i)
    case DoLinkBegin(i) => CanLinkBegin(s, i)
    case DoLinkEnd(d, name, i) => CanLinkEnd(s, d, name, i)
    case DoLinkBad(i) => 0 < i < |s.inodes| && s.pending[i] > 0
    case DoUnlink(d, name) => CanUnlink(s, d, name)
    case DoGet(i) => i < |s.inodes| && s.inodes[i].kind != FREE
    case DoPut(i, _) => i < |s.inodes| && s.refs[i] > 0
  }

  datatype Outcome = Panic | Done(state: State)

  // unlink() panics on an inode without links; a count is never taken below zero.
  function UnlinkStep(s: State, d: nat, k: nat): Outcome
    requires Shaped(s) && d < |s.inodes| && k < |s.inodes[d].entries|
  {
    var c := s.inodes[d].entries[k].inum;
    if c >= |s.inodes| || c == d || s.inodes[c].nlink < 1 || (s.inodes[c].kind == DIR && s.inodes[d].nlink < 1)
    then Panic
    else Done(Unlink(s, d, k))
  }

  function Step(s: State, e: Event): Outcome
    requires Enabled(s, e)
  {
    match e
    case DoCreate(d, name, kind, i) => Done(Create(s, d, name, kind, i))
    case DoLinkBegin(i) => Done(LinkBegin(s, i))
    case DoLinkEnd(d, name, i) => Done(LinkEnd(s, d, name, i))
    case DoLinkBad(i) => if s.inodes[i].nlink < 1 then Panic else Done(LinkBad(s, i))
    case DoUnlink(d, name) => UnlinkStep(s, d, Find(s.inodes[d].entries, name))
    case DoGet(i) => Done(Ref(s, i))
    case DoPut(i, valid) => Done(Iput(s, i, valid))
  }

  // The parent in which a step makes an entry is still in the tree.
  predicate ParentLinked(s: State, e: Event) {
    (e.DoCreate? || e.DoLinkEnd?) ==> Linked(s, e.d)
  }

  lemma StepKeeps(s: State, e: Event)
    requires Inv(s) && Enabled(s, e) && ParentLinked(s, e)
    ensures Step(s, e).Done? && Inv(Step(s, e).state)
  {
    match e
    case DoCreate(d, name, kind, i) => CreateKeeps(s, d, name, kind, i);
    case DoLinkBegin(i) => PlainKeeps(s, LinkBegin(s, i), i);
    case DoLinkEnd(d, name, i) => LinkEndKeeps(s, d, name, i);
    case DoLinkBad(i) =>
      assert CountOk(s, i) && InodeOk(s, i);
      PlainKeeps(s, LinkBad(s, i), i);
    case DoUnlink(d, name) => UnlinkKeeps(s, d, name);
    case DoGet(i) => PlainKeeps(s, Ref(s, i), i);
    case DoPut(i, valid) => IputKeeps(s, i, valid);
  }

  lemma PlainKeeps(s: State, t: State, i: nat)
    requires Inv(s) && i < |s.inodes| && s.inodes[i].kind != FREE
    requires t == Ref(s, i) || (s.inodes[i].kind != DIR && t == LinkBegin(s, i))
             || (s.pending[i] > 0 && s.inodes[i].nlink > 0 && t == LinkBad(s, i))
    ensures Inv(t)
  {
    assert InodeOk(s, i);
    forall x: nat | x < |s.inodes| ensures SameInode(s, t, x) { assert InodeOk(s, x); }
    SameTreeKeeps(s, t);
  }

  ghost predicate IsRun(run: seq<State>, events: seq<Event>) {
    && |run| == |events| + 1
    && forall i: nat :: i < |events| ==>
         Enabled(run[i], events[i]) && ParentLinked(run[i], events[i]) && Done(run[i + 1]) == Step(run[i], events[i])
  }

  // Over any interleaving of system calls every link count stays exact.
  lemma {:induction false} RunKeeps(run: seq<State>, events: seq<Event>, n: nat)
    requires IsRun(run, events) && Inv(run[0]) && n < |run|
    ensures Inv(run[n])
  {
    if n > 0 {
      RunKeeps(run, events, n - 1);
      assert Done(run[n - 1 + 1]) == Step(run[n - 1], events[n - 1]);
      StepKeeps(run[n - 1], events[n - 1]);
    }
  }

  // When no link() is half done, a link count is the number of entries that name the inode.
  lemma QuiescentCount(run: seq<State>, events: seq<Event>, n: nat, i: nat)
    requires IsRun(run, events) && Inv(run[0]) && n < |run| && 0 < i < |run[n].inodes|
    requires forall x: nat :: x < |run[n].pending| ==> run[n].pending[x] == 0
    ensures run[n].inodes[i].nlink == |Names(run[n], i)|
  {
    RunKeeps(run, events, n);
    assert CountOk(run[n], i);
  }

  // ---------- the file system that mkfs makes ----------

  // The root directory with its dots, one entry per file and zeros up to the next block; the
  // files have the inodes after the root's.
  function Mkfs(names: seq<string>, pad: nat, free: nat): State {
    var files := seq(|names|, j requires 0 <= j < |names| => Dirent(j + 2, names[j]));
    var root := [Dirent(ROOT, "."), Dirent(ROOT, "..")] + files + seq(pad, j => Dirent(0, ""));
    var n := |names| + 2 + free;
    State([Inode(FREE, 0, []), Inode(DIR, 1, root)] + seq(|names|, j => Inode(FILE, 1, []))
          + seq(free, j => Inode(FREE, 0, [])),
          seq(n, j => 0), seq(n, j => 0))
  }

  ghost predicate FileNames(names: seq<string>) {
    && (forall j :: 0 <= j < |names| ==> names[j] != "." && names[j] != "..")
    && Seqs.Distinct(names)
  }

  lemma MkfsCounts(names: seq<string>, pad: nat, free: nat, d: nat, k: nat, i: nat)
    requires i > 0
    ensures Counts(Mkfs(names, pad, free), d, k, i) <==>
      d == ROOT && ((k == 1 && i == ROOT) || (2 <= k < |names| + 2 && i == k && names[k - 2] != "."))
  {
  }

  lemma MkfsCount(names: seq<string>, pad: nat, free: nat, i: nat)
    requires FileNames(names) && 0 < i < |names| + 2 + free
    ensures CountOk(Mkfs(names, pad, free), i)
  {
    var s := Mkfs(names, pad, free);
    forall d: nat, k: nat
      ensures Counts(s, d, k, i) <==>
        d == ROOT && ((k == 1 && i == ROOT) || (2 <= k < |names| + 2 && i == k && names[k - 2] != "."))
    {
      MkfsCounts(names, pad, free, d, k, i);
    }
    if i == ROOT {
      NamesOne(s, i, ROOT, 1);
    } else if i < |names| + 2 {
      NamesOne(s, i, ROOT, i);
    } else {
      NamesEmpty(s, i);
    }
  }

  lemma MkfsOk(names: seq<string>, pad: nat, free: nat)
    requires FileNames(names)
    ensures Inv(Mkfs(names, pad, free))
  {
    var s := Mkfs(names, pad, free);
    var es := s.inodes[ROOT].entries;
    assert DirShape(es, ROOT) by {
      forall k, l | 0 <= k < l < |es| && es[k].inum != 0 && es[l].inum != 0
        ensures es[k].name != es[l].name
      {
        if k >= 2 { assert es[k].name == names[k - 2] && es[l].name == names[l - 2]; }
      }
    }
    forall i: nat | 0 < i < |s.inodes| ensures CountOk(s, i) { MkfsCount(names, pad, free, i); }
    forall d: nat, k: nat, c: nat ensures EntryOk(s, d, k, c) {
      if c > 0 { MkfsCounts(names, pad, free, d, k, c); }
    }
    assert Climbs(s, ROOT, 0);
  }

  // So it goes from the file system of mkfs on: counts are exact, and from every directory in
  // the tree the ".." entries lead up to the root.
  lemma FromMkfs(names: seq<string>, pad: nat, free: nat, run: seq<State>, events: seq<Event>, n: nat)
    requires FileNames(names) && IsRun(run, events) && run[0] == Mkfs(names, pad, free) && n < |run|
    ensures Inv(run[n])
    ensures forall d: nat :: Rooted(run[n], d)
  {
    MkfsOk(names, pad, free);
    RunKeeps(run, events, n);
  }

  // ---------- the unlinked parent, concretely ----------

  // A small file system: the root's third entry, inode 2, and the references to both.
  function Small(links: nat, third: Dirent, two: Inode, r1: nat, r2: nat): State {
    var root := Inode(DIR, links, [Dirent(1, "."), Dirent(1, ".."), third]);
    State([Inode(FREE, 0, []), root, two, Inode(FREE, 0, [])], [0, r1, r2, 0], [0, 0, 0, 0])
  }

  function Gone(links: nat): Inode {
    Inode(DIR, links, [Dirent(2, "."), Dirent(1, "..")])
  }

  // A directory removed while a process has it as its current directory.
  function Orphaned(): State {
    Small(1, Dirent(0, ""), Gone(0), 1, 1)
  }

  lemma OrphanedOk()
    ensures Inv(Orphaned())
  {
    var s := Orphaned();
    assert Counts(s, 1, 1, 1);
    NamesOne(s, 1, 1, 1);
    NamesEmpty(s, 2);
    NamesEmpty(s, 3);
    forall i: nat | 0 < i < |s.inodes| ensures CountOk(s, i) {
      assert i == 1 || i == 2 || i == 3;
    }
    assert DirShape(s.inodes[1].entries, 1) && DirShape(s.inodes[2].entries, 2);
    assert Climbs(s, ROOT, 0);
  }

  lemma SmallMkfs()
    ensures Mkfs([], 1, 2) == Small(1, Dirent(0, ""), Inode(FREE, 0, []), 0, 0)
  {
    var s, t := Mkfs([], 1, 2), Small(1, Dirent(0, ""), Inode(FREE, 0, []), 0, 0);
    assert s.inodes[1].entries == t.inodes[1].entries;
    assert s.inodes == t.inodes && s.refs == t.refs && s.pending == t.pending;
  }

  lemma SmallCreate()
    ensures var s := Small(1, Dirent(0, ""), Inode(FREE, 0, []), 1, 0);
            CanCreate(s, 1, "d", DIR, 2) && Create(s, 1, "d", DIR, 2) == Small(2, Dirent(2, "d"), Gone(1), 1, 1)
  {
    var s, t := Small(1, Dirent(0, ""), Inode(FREE, 0, []), 1, 0), Small(2, Dirent(2, "d"), Gone(1), 1, 1);
    MakesD(s.inodes[1].entries, t.inodes[1].entries);
    CreateFacts(s, 1, "d", DIR, 2);
    var u := Create(s, 1, "d", DIR, 2);
    assert forall i: nat :: i < 4 ==> u.inodes[i] == t.inodes[i];
    assert u.inodes == t.inodes && u.refs == t.refs;
  }

  lemma SmallUnlink()
    ensures var s := Small(2, Dirent(2, "d"), Gone(1), 1, 1);
            && CanUnlink(s, 1, "d") && Find(s.inodes[1].entries, "d") == 2
            && UnlinkStep(s, 1, 2) == Done(Small(1, Dirent(0, ""), Gone(0), 1, 2))
  {
    var s, t := Small(2, Dirent(2, "d"), Gone(1), 1, 1), Small(1, Dirent(0, ""), Gone(0), 1, 2);
    MakesD(t.inodes[1].entries, s.inodes[1].entries);
    assert s.inodes[1].entries[2 := Dirent(0, "")] == t.inodes[1].entries;
    assert Unlink(s, 1, 2).inodes == t.inodes && Unlink(s, 1, 2).refs == t.refs;
  }

  // That state is reached from a new file system: a process makes the directory, keeps its
  // reference, and removes the name.
  lemma OrphanedReached()
    ensures var events := [DoGet(1), DoCreate(1, "d", DIR, 2), DoUnlink(1, "d"), DoPut(2, true)];
            exists run :: IsRun(run, events) && run[0] == Mkfs([], 1, 2) && run[4] == Orphaned()
  {
    var s0, s1 := Mkfs([], 1, 2), Small(1, Dirent(0, ""), Inode(FREE, 0, []), 1, 0);
    var s2, s3 := Small(2, Dirent(2, "d"), Gone(1), 1, 1), Small(1, Dirent(0, ""), Gone(0), 1, 2);
    SmallMkfs();
    SmallCreate();
    SmallUnlink();
    assert Ref(s0, 1) == s1;
    assert Iput(s3, 2, true) == Orphaned();
    hide Mkfs, Create, CanCreate, CanUnlink, UnlinkStep, Iput, Orphaned, Find;
    var run := [s0, s1, s2, s3, Orphaned()];
    var events := [DoGet(1), DoCreate(1, "d", DIR, 2), DoUnlink(1, "d"), DoPut(2, true)];
    forall i: nat | i < 4
      ensures Enabled(run[i], events[i]) && ParentLinked(run[i], events[i])
      ensures Done(run[i + 1]) == Step(run[i], events[i])
    {
      assert i == 0 || i == 1 || i == 2 || i == 3;
    }
    assert IsRun(run, events);
  }

  lemma MakesD(es: seq<Dirent>, fs: seq<Dirent>)
    requires es == [Dirent(1, "."), Dirent(1, ".."), Dirent(0, "")] && fs == es[2 := Dirent(2, "d")]
    ensures Find(es, "d") == 3 && Space(es) == 2 && Put(es, 2, Dirent(2, "d")) == fs && Find(fs, "d") == 2
  {
    assert FindFrom(es, "d", 2) == 3 && FindFrom(es, "d", 1) == 3;
    assert FindFrom(fs, "d", 2) == 2 && FindFrom(fs, "d", 1) == 2;
    assert SpaceFrom(es, 2) == 2 && SpaceFrom(es, 1) == 2;
  }

  // A file made there has a link count of one and no entry in the tree.
  lemma CreateInOrphan()
    ensures CanCreate(Orphaned(), 2, "f", FILE, 3) && !Inv(Create(Orphaned(), 2, "f", FILE, 3))
  {
    OrphanedOk();
    var s := Orphaned();
    assert Find(s.inodes[2].entries, "f") == 2 by {
      assert s.inodes[2].entries[0].name != "f" && s.inodes[2].entries[1].name != "f";
    }
    CreateExactly(s, 2, "f", FILE, 3);
  }
}
