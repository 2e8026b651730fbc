/**
 The directory calls of kernel/sysfile.c and kernel/fs.c: dirlookup(), dirlink(), ialloc(), iput(),
 create(), sys_link() and sys_unlink() on inodes updated in place.
 */
module DirCode {
  import opened DirModel

  datatype Made = Refused | NoInodes | Existing(i: nat) | Fresh(i: nat)

  // create() of a file that is there, or of a device.
  predicate Reopens(inodes: seq<Inode>, d: nat, name: string, kind: Kind)
    requires d < |inodes|
  {
    var es := inodes[d].entries;
    var k := Find(es, name);
    && k < |es| && kind == FILE && es[k].inum < |inodes|
    && (inodes[es[k].inum].kind == FILE || inodes[es[k].inum].kind == DEVICE)
  }

  // The state in which create() enters the name.
  lemma CreateSteps(s: State, t: State, d: nat, name: string, kind: Kind, i: nat)
    requires Shaped(s) && Shaped(t) && CanCreate(s, d, name, kind, i) && |t.inodes| == |s.inodes|
    requires t.refs == s.refs[i := s.refs[i] + 1] && t.pending == s.pending
    requires forall x: nat :: x < |s.inodes| && x != d && x != i ==> t.inodes[x] == s.inodes[x]
    requires t.inodes[i] == Inode(kind, 1, if kind == DIR then [Dirent(i, "."), Dirent(d, "..")] else [])
    requires t.inodes[d] == s.inodes[d].(nlink := s.inodes[d].nlink + if kind == DIR then 1 else 0)
    ensures Enter(t, d, name, i) == Create(s, d, name, kind, i)
  {
    assert Enter(t, d, name, i).inodes == Create(s, d, name, kind, i).inodes;
  }

  class Dirs {
    var inodes: seq<Inode>
    var refs: seq<nat>
    ghost var pending: seq<nat>

    ghost function S(): State
      reads this
    {
      State(inodes, refs, pending)
    }

    ghost predicate Valid()
      reads this
    {
      Inv(S())
    }

    predicate IsDir(d: nat)
      reads this
    {
      d < |inodes| && inodes[d].kind == DIR
    }

    constructor (s: State)
      requires Inv(s)
      ensures S() == s
    {
      inodes, refs, pending := s.inodes, s.refs, s.pending;
    }

    // dirlookup(): the first live entry with the name.
    method Dirlookup(d: nat, name: string) returns (k: nat)
      requires IsDir(d)
      ensures k == Find(inodes[d].entries, name)
    {
      var es := inodes[d].entries;
      k := 0;
      while k < |es|
        invariant k <= |es| && Find(es, name) == FindFrom(es, name, k)
      {
        if es[k].inum != 0 && es[k].name == name { return; }
        k := k + 1;
      }
    }

    // isdirempty(): no live entry besides the dots.
    method IsDirEmpty(c: nat) returns (b: bool)
      requires c < |inodes|
      ensures b == Empty(inodes[c].entries)
    {
      var es := inodes[c].entries;
      var k := 2;
      while k < |es|
        invariant k >= 2 && forall j :: 2 <= j < k && j < |es| ==> es[j].inum == 0
      {
        if es[k].inum != 0 { return false; }
        k := k + 1;
      }
      return true;
    }

    // dirlink(): refuses a name that is there, and else writes the first free slot.
    method Dirlink(d: nat, name: string, i: nat) returns (ok: bool)
      requires IsDir(d)
      modifies this`inodes
      ensures ok <==> Find(old(inodes)[d].entries, name) == |old(inodes)[d].entries|
      ensures S() == if ok then Enter(old(S()), d, name, i) else old(S())
    {
      var es := inodes[d].entries;
      var k := Dirlookup(d, name);
      if k < |es| { return false; }
      k := 0;
      while k < |es|
        invariant k <= |es| && Space(es) == SpaceFrom(es, k)
      {
        if es[k].inum == 0 { break; }
        k := k + 1;
      }
      assert k == Space(es);
      inodes := inodes[d := inodes[d].(entries := Put(es, k, Dirent(i, name)))];
      return true;
    }

    // ialloc(): the first free inode, zeroed; 0 stands for its panic.
    method Ialloc(kind: Kind) returns (i: nat)
      requires |inodes| > 1 && |refs| == |inodes|
      modifies this`inodes, this`refs
      ensures |inodes| == |old(inodes)|
      ensures i == 0 ==> S() == old(S()) && forall j :: 1 <= j < |inodes| ==> inodes[j].kind != FREE
      ensures i != 0 ==> i < |inodes| && old(inodes)[i].kind == FREE
                         && forall j :: 1 <= j < i ==> old(inodes)[j].kind != FREE
      ensures i != 0 ==> inodes == old(inodes)[i := Inode(kind, 0, [])] && refs == old(refs)[i := old(refs)[i] + 1]
    {
      i := 1;
      while i < |inodes|
        invariant 1 <= i <= |inodes| && inodes == old(inodes) && refs == old(refs)
        invariant forall j :: 1 <= j < i ==> inodes[j].kind != FREE
      {
        if inodes[i].kind == FREE {
          inodes := inodes[i := Inode(kind, 0, [])];
          refs := refs[i := refs[i] + 1];
          return;
        }
        i := i + 1;
      }
      i := 0;
    }

    // iput()
    method Drop(i: nat, valid: bool)
      requires Valid() && i < |inodes| && refs[i] > 0
      modifies this
      ensures S() == Iput(old(S()), i, valid) && Valid()
    {
      IputKeeps(S(), i, valid);
      if refs[i] == 1 && valid && inodes[i].nlink == 0 {
        inodes := inodes[i := inodes[i].(entries := [])];
        inodes := inodes[i := inodes[i].(kind := FREE)];
      }
      refs := refs[i := refs[i] - 1];
      assert S().inodes == Iput(old(S()), i, valid).inodes;
    }

    // The "." and ".." of a new directory: neither dirlink() fails.
    method Dots(i: nat, d: nat)
      requires IsDir(i) && i > 0 && inodes[i].entries == []
      modifies this`inodes
      ensures inodes == old(inodes)[i := old(inodes)[i].(entries := [Dirent(i, "."), Dirent(d, "..")])]
    {
      var a := Dirlink(i, ".", i);
      assert inodes[i].entries == [Dirent(i, ".")];
      assert "."[0] == ".."[0] && |"."| != |".."|;
      assert Find(inodes[i].entries, "..") == 1;
      var b := Dirlink(i, "..", d);
      assert inodes[i].entries == [Dirent(i, "."), Dirent(d, "..")];
      assert inodes == old(inodes)[i := inodes[i]];
    }

    // create(), once nameiparent() has found d.
    method Create(d: nat, name: string, kind: Kind) returns (r: Made)
      requires Valid() && IsDir(d) && kind != FREE
      modifies this
      ensures r.Fresh? ==>
                CanCreate(old(S()), d, name, kind, r.i) && S() == DirModel.Create(old(S()), d, name, kind, r.i)
      ensures r.Fresh? ==> (Valid() <==> old(inodes)[d].nlink > 0)
      ensures r.Fresh? ==> r.i < |inodes| && inodes[r.i].kind == kind && inodes[r.i].nlink == 1
      ensures r.Fresh? || r.Existing? ==> r.i < |old(refs)| && refs == old(refs)[r.i := old(refs)[r.i] + 1]
      ensures r.Existing? <==> Reopens(old(inodes), d, name, kind)
      ensures r.Existing? ==> r.i > 0 && Dirent(r.i, name) in old(inodes)[d].entries
      ensures r.Existing? ==> r.i < |inodes| && (inodes[r.i].kind == FILE || inodes[r.i].kind == DEVICE)
      ensures r.Existing? ==> r.i < |old(refs)| && S() == Ref(old(S()), r.i) && Valid()
      ensures r.Fresh? ==> forall j :: 1 <= j < r.i ==> old(inodes)[j].kind != FREE
      ensures r.Refused? <==> Find(old(inodes)[d].entries, name) < |old(inodes)[d].entries|
                              && !Reopens(old(inodes), d, name, kind)
      ensures r.NoInodes? <==> Find(old(inodes)[d].entries, name) == |old(inodes)[d].entries|
                               && forall j :: 1 <= j < |old(inodes)| ==> old(inodes)[j].kind != FREE
      ensures r.Refused? || r.NoInodes? ==> S() == old(S())
    {
      hide Tree, Counted;
      var es := inodes[d].entries;
      var k := Dirlookup(d, name);
      if k < |es| {
        var i := es[k].inum;
        if kind == FILE && i < |inodes| && (inodes[i].kind == FILE || inodes[i].kind == DEVICE) {
          PlainKeeps(S(), Ref(S(), i), i);
          refs := refs[i := refs[i] + 1];
          return Existing(i);
        }
        return Refused;
      }
      var i := Ialloc(kind);
      if i == 0 { return NoInodes; }
      CreateExactly(old(S()), d, name, kind, i);
      inodes := inodes[i := inodes[i].(nlink := 1)];
      if kind == DIR {
        inodes := inodes[d := inodes[d].(nlink := inodes[d].nlink + 1)];
        Dots(i, d);
      }
      ghost var t := S();
      var ok := Dirlink(d, name, i);
      CreateSteps(old(S()), t, d, name, kind, i);
      return Fresh(i);
    }

    // sys_link() on the old name: only files and devices, which keep a reference.
    method Link(i: nat) returns (ok: bool)
      requires Valid() && i < |inodes| && inodes[i].kind != FREE
      modifies this
      ensures Valid() && (ok <==> old(inodes)[i].kind != DIR)
      ensures ok ==> i < |inodes| && inodes[i].nlink == old(inodes)[i].nlink + 1 && refs[i] == old(refs)[i] + 1
      ensures S() == if ok then LinkBegin(old(S()), i) else old(S())
    {
      if inodes[i].kind == DIR { return false; }
      PlainKeeps(S(), LinkBegin(S(), i), i);
      inodes := inodes[i := inodes[i].(nlink := inodes[i].nlink + 1)];
      refs := refs[i := refs[i] + 1];
      pending := pending[i := pending[i] + 1];
      ok := true;
    }

    // sys_link() on the new name: enter it, or take the link back.
    method LinkName(d: nat, name: string, i: nat) returns (ok: bool)
      requires Valid() && 0 < i < |inodes| && pending[i] > 0
      modifies this
      ensures ok <==> CanLinkEnd(old(S()), d, name, i)
      ensures ok ==> S() == LinkEnd(old(S()), d, name, i) && (Valid() <==> old(inodes)[d].nlink > 0)
      ensures i < |inodes| && (ok ==> inodes[i].nlink == old(inodes)[i].nlink) && refs == old(refs)
      ensures i < |pending| && pending[i] == old(pending)[i] - 1
      ensures !ok ==> old(inodes)[i].nlink > 0 && S() == LinkBad(old(S()), i) && Valid()
    {
      ghost var s := S();
      assert CountOk(s, i) && InodeOk(s, i);
      ok := d < |inodes| && inodes[d].kind == DIR;
      if ok { ok := Dirlink(d, name, i); }
      if ok {
        LinkEndExactly(s, d, name, i);
      } else {
        PlainKeeps(s, LinkBad(s, i), i);
        inodes := inodes[i := inodes[i].(nlink := inodes[i].nlink - 1)];
      }
      pending := pending[i := pending[i] - 1];
    }

    // sys_unlink(), once nameiparent() has found d; its panic is not reached.
    method Unlink(d: nat, name: string) returns (ok: bool)
      requires Valid() && IsDir(d)
      modifies this
      ensures Valid() && (ok <==> CanUnlink(old(S()), d, name))
      ensures ok ==> Find(old(inodes)[d].entries, name) < |old(inodes)[d].entries|
      ensures ok ==> Done(S()) == UnlinkStep(old(S()), d, Find(old(inodes)[d].entries, name))
      ensures ok ==> var c := old(inodes)[d].entries[Find(old(inodes)[d].entries, name)].inum;
                     c < |inodes| == |old(inodes)| == |old(refs)| && inodes[c].nlink == old(inodes)[c].nlink - 1
                     && inodes[c].kind == old(inodes)[c].kind && refs == old(refs)[c := old(refs)[c] + 1]
      ensures !ok ==> S() == old(S())
    {
      if name == "." || name == ".." { return false; }
      var k := Dirlookup(d, name);
      if k == |inodes[d].entries| { return false; }
      ghost var s := S();
      UnlinkTarget(s, d, name);
      var c := inodes[d].entries[k].inum;
      assert inodes[c].nlink >= 1;
      if inodes[c].kind == DIR {
        var e := IsDirEmpty(c);
        if !e { return false; }
      }
      UnlinkKeeps(s, d, name);
      inodes := inodes[d := inodes[d].(entries := inodes[d].entries[k := Dirent(0, "")])];
      if inodes[c].kind == DIR {
        inodes := inodes[d := inodes[d].(nlink := inodes[d].nlink - 1)];
      }
      inodes := inodes[c := inodes[c].(nlink := inodes[c].nlink - 1)];
      refs := refs[c := refs[c] + 1];
      assert S() == DirModel.Unlink(s, d, k);
      ok := true;
    }
  }
}
