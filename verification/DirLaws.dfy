/**
 What the directory calls of kernel/sysfile.c do to the names a lookup finds.
 */
module DirLaws {
  import opened DirModel

  // Directory d has a live entry that calls inode i by the name.
  ghost predicate Has(s: State, d: nat, name: string, i: nat) {
    d < |s.inodes| && i > 0 && Dirent(i, name) in s.inodes[d].entries
  }

  // dirlookup() finds a name just where a live entry has it, and finds that entry's inode.
  lemma LookupHas(s: State, d: nat, name: string, i: nat)
    requires Inv(s) && d < |s.inodes| && s.inodes[d].kind == DIR
    ensures var es := s.inodes[d].entries; var k := Find(es, name);
            Has(s, d, name, i) <==> k < |es| && es[k].inum == i
  {
    assert InodeOk(s, d);
    hide Inv;
    var es := s.inodes[d].entries;
    if Has(s, d, name, i) {
      var j :| 0 <= j < |es| && es[j] == Dirent(i, name);
    }
  }

  lemma PutHas(es: seq<Dirent>, e: Dirent, x: Dirent)
    requires x.inum > 0
    ensures x in Put(es, Space(es), e) <==> x in es || x == e
  {
    var k := Space(es);
    var r := Put(es, k, e);
    assert r[k] == e;
    if x in es {
      var j :| 0 <= j < |es| && es[j] == x;
      assert r[j] == x;
    }
  }

  // create() adds its name, and the dots of a new directory, and no other.
  lemma CreateNames(s: State, d: nat, name: string, kind: Kind, i: nat, x: nat, n: string, j: nat)
    requires Inv(s) && CanCreate(s, d, name, kind, i)
    ensures Has(Create(s, d, name, kind, i), x, n, j) <==>
      || Has(s, x, n, j)
      || (x == d && n == name && j == i)
      || (kind == DIR && x == i && ((n == "." && j == i) || (n == ".." && j == d)))
  {
    assert InodeOk(s, i) && InodeOk(s, d) && s.inodes[0].kind == FREE;
    hide Inv;
    CreateFacts(s, d, name, kind, i);
    hide Create;
    if x == d && j > 0 { PutHas(s.inodes[d].entries, Dirent(i, name), Dirent(j, n)); }
  }

  // link() adds its name and no other.
  lemma LinkNames(s: State, d: nat, name: string, i: nat, x: nat, n: string, j: nat)
    requires Inv(s) && CanLinkEnd(s, d, name, i)
    ensures Has(LinkEnd(s, d, name, i), x, n, j) <==> Has(s, x, n, j) || (x == d && n == name && j == i)
  {
    hide Inv;
    if x == d && j > 0 { PutHas(s.inodes[d].entries, Dirent(i, name), Dirent(j, n)); }
  }

  // unlink() takes its name away and no other.
  lemma UnlinkNames(s: State, d: nat, name: string, x: nat, n: string, j: nat)
    requires Inv(s) && CanUnlink(s, d, name)
    requires UnlinkStep(s, d, Find(s.inodes[d].entries, name)).Done?
    ensures var t := UnlinkStep(s, d, Find(s.inodes[d].entries, name)).state;
            Has(t, x, n, j) <==> Has(s, x, n, j) && !(x == d && n == name)
  {
    assert InodeOk(s, d);
    var es := s.inodes[d].entries;
    var k := Find(es, name);
    if x == d && j > 0 { CutHas(es, d, name, Dirent(j, n)); }
    hide Inv;
  }

  lemma CutHas(es: seq<Dirent>, d: nat, name: string, x: Dirent)
    requires DirShape(es, d) && Find(es, name) < |es| && x.inum > 0
    ensures x in es[Find(es, name) := Dirent(0, "")] <==> x in es && x.name != name
  {
    var k := Find(es, name);
    var r := es[k := Dirent(0, "")];
    if x in es {
      var j :| 0 <= j < |es| && es[j] == x;
      assert x.name != name ==> r[j] == x;
    }
  }

  // No lookup in c finds anything but the dots.
  ghost predicate OnlyDots(s: State, c: nat) {
    forall n: string, j: nat :: Has(s, c, n, j) ==> n == "." || n == ".."
  }

  lemma EmptyIsOnlyDots(s: State, c: nat)
    requires Inv(s) && c < |s.inodes| && s.inodes[c].kind == DIR
    ensures Empty(s.inodes[c].entries) <==> OnlyDots(s, c)
  {
    assert InodeOk(s, c);
    hide Inv;
    var es := s.inodes[c].entries;
    forall n: string, j: nat | Empty(es) && Has(s, c, n, j) ensures n == "." || n == ".." {
      var k :| 0 <= k < |es| && es[k] == Dirent(j, n);
    }
    if OnlyDots(s, c) {
      forall k | 2 <= k < |es| ensures es[k].inum == 0 {
        assert es[k].inum > 0 ==> Has(s, c, es[k].name, es[k].inum);
      }
    }
  }

  // What unlink() may unlink.
  ghost predicate Unlinkable(s: State, c: nat) {
    c < |s.inodes| && s.inodes[c].kind != FREE && (s.inodes[c].kind == DIR ==> OnlyDots(s, c))
  }

  // unlink() succeeds exactly for a name, other than the dots, of a file or of a directory in which
  // only the dots are left.
  lemma UnlinksExactly(s: State, d: nat, name: string)
    requires Inv(s) && d < |s.inodes| && s.inodes[d].kind == DIR
    ensures CanUnlink(s, d, name) && UnlinkStep(s, d, Find(s.inodes[d].entries, name)).Done? <==>
      name != "." && name != ".." && exists c: nat :: Has(s, d, name, c) && Unlinkable(s, c)
  {
    var es := s.inodes[d].entries;
    var k := Find(es, name);
    if name != "." && name != ".." {
      forall c: nat ensures Has(s, d, name, c) <==> k < |es| && es[k].inum == c { LookupHas(s, d, name, c); }
      if k < |es| {
        UnlinkTarget(s, d, name);
        var c := es[k].inum;
        if s.inodes[c].kind == DIR { EmptyIsOnlyDots(s, c); }
        hide Inv;
        assert CanUnlink(s, d, name) <==> Unlinkable(s, c);
      }
    }
  }

  // A step changes the names of a directory only if it creates, links, unlinks or frees there.
  lemma StepNames(s: State, e: Event, x: nat, n: string, j: nat)
    requires Inv(s) && Enabled(s, e) && Step(s, e).Done?
    requires Has(Step(s, e).state, x, n, j) != Has(s, x, n, j)
    ensures || (e.DoCreate? && !Has(s, x, n, j)
                && ((x == e.d && n == e.name && j == e.i) || (e.kind == DIR && x == e.i)))
            || (e.DoLinkEnd? && !Has(s, x, n, j) && x == e.d && n == e.name && j == e.i)
            || (e.DoUnlink? && Has(s, x, n, j) && x == e.d && n == e.name)
            || (e.DoPut? && Has(s, x, n, j) && x == e.i && s.inodes[x].nlink == 0 && s.refs[x] == 1)
  {
    hide Inv;
    match e
    case DoCreate(d, name, kind, i) => CreateNames(s, d, name, kind, i, x, n, j);
    case DoLinkEnd(d, name, i) => LinkNames(s, d, name, i, x, n, j);
    case DoUnlink(d, name) => UnlinkNames(s, d, name, x, n, j);
    case _ =>
  }
}
