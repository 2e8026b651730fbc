/**
 binit(), bget(), bread(), bwrite(), brelse(), bpin() and bunpin() (kernel/bio.c) on a list linked
 through the arrays next and prev; buffer 0 is the list's head.
 */
module BioCode {
  import opened Options
  import Seqs
  import opened BioModel

  class BufferCache {
    const next: array<nat>
    const prev: array<nat>
    var bufs: seq<Buf>
    var disk: Disk
    ghost var lru: seq<nat>
    ghost var held: set<nat>
    ghost var logged: set<nat>
    ghost var handles: seq<nat>

    ghost function S(): State
      reads this
    {
      State(bufs, disk, lru, held, logged, handles)
    }

    ghost predicate Shaped()
      reads this, next, prev
    {
      next != prev && next.Length == prev.Length == |bufs| && Linked(next[..], prev[..], lru)
    }

    ghost predicate Valid()
      reads this, next, prev
    {
      Shaped() && Inv(S())
    }

    // The list operations of binit() and brelse(): b becomes the most recently used.
    method Push(b: nat)
      requires Shaped() && 0 < b < |bufs| && b !in lru
      modifies this`lru, next, prev
      ensures Shaped() && lru == [b] + old(lru)
    {
      hide Linked;
      PushKeeps(next[..], prev[..], lru, b);
      next[b] := next[0];
      prev[b] := 0;
      prev[next[0]] := b;
      next[0] := b;
      lru := [b] + lru;
    }

    method Unlink(b: nat)
      requires Shaped() && b in lru
      modifies this`lru, next, prev
      ensures Shaped() && lru == Without(old(lru), Place(old(lru), b)) && b !in lru && 0 < b < |bufs|
    {
      ghost var p := Place(lru, b);
      assert 0 < lru[p] < next.Length;
      UnlinkKeeps(next[..], prev[..], lru, p);
      hide Linked;
      prev[next[b]] := prev[b];
      next[prev[b]] := next[b];
      lru := Without(lru, p);
    }

    // binit() of n buffers.
    constructor (n: nat, disk: Disk)
      ensures Valid() && Start(S()) && |bufs| == n + 1 && this.disk == disk && fresh(next) && fresh(prev)
    {
      this.disk, held, logged, lru := disk, {}, {}, [];
      next, prev := new nat[n + 1](_ => 0), new nat[n + 1](_ => 0);
      bufs := seq(n + 1, _ => Buf(0, 0, false, 0, 0));
      handles := seq(n + 1, _ => 0);
      new;
      assert LinkAt(next[..], prev[..], lru, 0);
      var b := 1;
      while b < n + 1
        invariant 1 <= b <= n + 1 && Shaped() && next.Length == n + 1 && fresh(next) && fresh(prev)
        invariant bufs == seq(n + 1, _ => Buf(0, 0, false, 0, 0)) && handles == seq(n + 1, _ => 0)
        invariant held == {} && logged == {} && this.disk == disk
        invariant forall x :: x in lru <==> 0 < x < b
      {
        Push(b);
        b := b + 1;
      }
      RunKeeps([S()], [], 0);
    }

    // The search of bget() for a cached block, from the most recently used end.
    method FindCached(dev: nat, blk: nat) returns (b: nat, ghost k: nat)
      requires Valid()
      ensures k == Cached(S(), dev, blk) && b == At(lru, k + 1) && (b != 0 <==> k < |lru|)
    {
      assert |handles| == |bufs|;
      hide Inv, Linked;
      k := 0;
      NextOf(next[..], prev[..], lru, k);
      b := next[0];
      while b != 0
        invariant k <= |lru| && b == At(lru, k + 1) && b < |bufs| && (b != 0 <==> k < |lru|)
        invariant Cached(S(), dev, blk) == CachedFrom(S(), dev, blk, k)
        decreases |lru| - k
      {
        if bufs[b].dev == dev && bufs[b].blk == blk { return; }
        NextOf(next[..], prev[..], lru, k + 1);
        b := next[b];
        k := k + 1;
      }
    }

    // The search of bget() for a buffer to recycle, from the least recently used end.
    method FindIdle() returns (b: nat, ghost k: nat)
      requires Valid()
      ensures k == Idle(S()) && b == At(lru, k) && (b != 0 <==> k > 0)
    {
      assert |handles| == |bufs|;
      hide Inv, Linked;
      k := |lru|;
      NextOf(next[..], prev[..], lru, k);
      b := prev[0];
      while b != 0
        invariant k <= |lru| && b == At(lru, k) && b < |bufs| && (b != 0 <==> k > 0)
        invariant Idle(S()) == IdleBefore(S(), k)
        decreases k
      {
        if bufs[b].ref == 0 { return; }
        NextOf(next[..], prev[..], lru, k - 1);
        b := prev[b];
        k := k - 1;
      }
    }

    // bget() up to its acquiresleep(); None is its panic, with every buffer in use.
    method Bget(dev: nat, blk: nat) returns (r: Option<nat>)
      requires Valid() && dev > 0
      modifies this
      ensures Valid() && (r.Some? <==> old(Enabled(S(), Get(dev, blk))))
      ensures r.Some? ==> S() == old(Step(S(), Get(dev, blk))) && IsBuf(S(), r.value) && Same(S(), r.value, dev, blk)
                          && handles[r.value] > 0
      ensures r.None? ==> S() == old(S()) && forall b: nat :: IsBuf(S(), b) ==> bufs[b].ref > 0
    {
      hide Inv, Linked, Enabled, Step, Same;
      ghost var s := S();
      var b; ghost var k;
      b, k := FindCached(dev, blk);
      if b != 0 {
        GetHit(s, dev, blk);
        bufs := bufs[b := bufs[b].(ref := bufs[b].ref + 1)];
        handles := handles[b := handles[b] + 1];
        return Some(b);
      }
      b, k := FindIdle();
      if b != 0 {
        GetMiss(s, dev, blk);
        bufs := bufs[b := bufs[b].(dev := dev)];
        bufs := bufs[b := bufs[b].(blk := blk)];
        bufs := bufs[b := bufs[b].(valid := false)];
        bufs := bufs[b := bufs[b].(ref := 1)];
        handles := handles[b := 1];
        assert S() == Recycle(s, b, dev, blk);
        return Some(b);
      }
      GetNone(s, dev, blk);
      return None;
    }

    // acquiresleep(&b->lock)
    method Acquire(b: nat)
      requires Valid() && IsBuf(S(), b) && b !in held && handles[b] > 0
      modifies this
      ensures Valid() && S() == old(Step(S(), Lock(b)))
    {
      StepKeeps(S(), Lock(b));
      hide Inv, Linked;
      held := held + {b};
    }

    // bread() once it has the buffer: the contents are those on disk, or those pinned by the log.
    method Load(b: nat)
      requires Valid() && IsBuf(S(), b) && b in held
      modifies this
      ensures Valid() && bufs[b].valid
      ensures disk == old(disk) && bufs[b].dev == old(bufs)[b].dev && bufs[b].blk == old(bufs)[b].blk
      ensures !old(bufs)[b].valid ==> bufs[b].data == Read(disk, bufs[b].dev, bufs[b].blk)
      ensures old(bufs)[b].valid ==> bufs[b].data == old(bufs)[b].data
      ensures S() == if old(bufs)[b].valid then old(S()) else old(Step(S(), Fill(b)))
    {
      hide Linked;
      if !bufs[b].valid {
        StepKeeps(S(), Fill(b));
        hide Inv;
        bufs := bufs[b := bufs[b].(data := Read(disk, bufs[b].dev, bufs[b].blk))];
        bufs := bufs[b := bufs[b].(valid := true)];
        assert handles == handles[b := handles[b]];
        assert bufs == old(Step(S(), Fill(b))).bufs;
      }
    }

    // bwrite()
    method Bwrite(b: nat)
      requires Valid() && IsBuf(S(), b) && b in held
      modifies this
      ensures Valid() && S() == old(Step(S(), Write(b))) && Agrees(S(), b)
    {
      StepKeeps(S(), Write(b));
      hide Inv, Linked;
      disk := disk[(bufs[b].dev, bufs[b].blk) := bufs[b].data];
    }

    // bpin() by log_write()
    method Bpin(b: nat)
      requires Valid() && IsBuf(S(), b) && b in held && b !in logged
      modifies this
      ensures Valid() && S() == old(Step(S(), Pin(b)))
    {
      StepKeeps(S(), Pin(b));
      hide Inv, Linked;
      bufs := bufs[b := bufs[b].(ref := bufs[b].ref + 1)];
      logged := logged + {b};
      assert handles == handles[b := handles[b]];
    }

    // bunpin() by install_trans(), which has just written the buffer
    method Bunpin(b: nat)
      requires Valid() && IsBuf(S(), b) && b in held && b in logged && Agrees(S(), b)
      modifies this
      ensures Valid() && old(Enabled(S(), Unpin(b))) && S() == old(Step(S(), Unpin(b)))
    {
      assert BufOk(S(), b);
      StepKeeps(S(), Unpin(b));
      hide Inv, Linked;
      bufs := bufs[b := bufs[b].(ref := bufs[b].ref - 1)];
      logged := logged - {b};
      assert handles == handles[b := handles[b]];
    }

    // brelse() of a buffer that was written, is pinned, or was not changed.
    method Brelse(b: nat)
      requires Valid() && IsBuf(S(), b) && b in held && (b in logged || Agrees(S(), b))
      modifies this, next, prev
      ensures Valid() && disk == old(disk) && held == old(held) - {b} && logged == old(logged)
      ensures bufs == old(bufs)[b := old(bufs)[b].(ref := old(bufs)[b].ref - 1)]
      ensures b in old(lru) && old(bufs)[b].ref > 0
      ensures lru == if old(bufs)[b].ref == 1 then Front(old(lru), b) else old(lru)
    {
      ghost var s := S();
      ghost var u := Step(s, Unlock(b));
      ReleaseKeeps(s, b);
      hide Inv, Linked, Step, Enabled;
      held := held - {b};
      bufs := bufs[b := bufs[b].(ref := bufs[b].ref - 1)];
      handles := handles[b := handles[b] - 1];
      if bufs[b].ref == 0 {
        Unlink(b);
        Push(b);
      }
    }
  }

  lemma ReleaseKeeps(s: State, b: nat)
    requires Inv(s) && IsBuf(s, b) && b in s.held && (b in s.logged || Agrees(s, b))
    ensures b in s.lru && s.bufs[b].ref > 0 && s.handles[b] > 0 && Enabled(s, Unlock(b))
    ensures var u := s.(held := s.held - {b}); u == Step(s, Unlock(b)) && Inv(Dropped(u, b))
  {
    var u := s.(held := s.held - {b});
    assert BufOk(s, b);
    StepKeeps(s, Unlock(b));
    StepKeeps(u, Drop(b));
  }

  lemma GetHit(s: State, dev: nat, blk: nat)
    requires Inv(s) && dev > 0 && Cached(s, dev, blk) < |s.lru|
    ensures var b := s.lru[Cached(s, dev, blk)];
            Enabled(s, Get(dev, blk)) && IsBuf(s, b) && Step(s, Get(dev, blk)) == Hit(s, b)
            && Inv(Hit(s, b)) && Same(Hit(s, b), b, dev, blk)
  {
    assert s.lru[Cached(s, dev, blk)] in s.lru;
    StepKeeps(s, Get(dev, blk));
  }

  lemma GetMiss(s: State, dev: nat, blk: nat)
    requires Inv(s) && dev > 0 && Cached(s, dev, blk) == |s.lru| && Idle(s) > 0
    ensures var b := s.lru[Idle(s) - 1];
            Enabled(s, Get(dev, blk)) && IsBuf(s, b) && Step(s, Get(dev, blk)) == Recycle(s, b, dev, blk)
            && Inv(Recycle(s, b, dev, blk)) && Same(Recycle(s, b, dev, blk), b, dev, blk)
  {
    RecycledIsIdle(s, dev, blk);
    StepKeeps(s, Get(dev, blk));
  }

  lemma GetNone(s: State, dev: nat, blk: nat)
    requires Inv(s) && Cached(s, dev, blk) == |s.lru| && Idle(s) == 0
    ensures !Enabled(s, Get(dev, blk)) && forall b: nat :: IsBuf(s, b) ==> s.bufs[b].ref > 0
  {
    forall a: nat | IsBuf(s, a) ensures s.bufs[a].ref > 0 { assert a in s.lru; }
  }

  lemma NextOf(next: seq<nat>, prev: seq<nat>, lru: seq<nat>, i: nat)
    requires Linked(next, prev, lru) && i <= |lru|
    ensures At(lru, i) < |next| && At(lru, i + 1) < |prev| == |next|
    ensures next[At(lru, i)] == At(lru, i + 1) && prev[At(lru, i + 1)] == At(lru, i)
    ensures At(lru, i) == 0 <==> i == 0
    ensures At(lru, i + 1) == 0 <==> i == |lru|
  {
    assert LinkAt(next, prev, lru, i);
  }
}
