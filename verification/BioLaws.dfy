/**
 What the buffer cache is for, over whole runs: a buffer has the data last changed or written for
 its block, and the buffer given away is the one released longest ago.
 */
module BioLaws {
  import opened BioModel
  import Seqs

  // ---------- the data of a block ----------

  predicate Touches(s: State, e: Event, dev: nat, blk: nat) {
    (e.Change? || e.Write?) && IsBuf(s, e.b) && Same(s, e.b, dev, blk)
  }

  function Data(s: State, e: Event): int
    requires (e.Change? || e.Write?) && IsBuf(s, e.b)
  {
    if e.Change? then e.data else s.bufs[e.b].data
  }

  // The data last changed or written for the block in the first n steps; if none was, what the
  // disk had at the start.
  ghost function Last(run: seq<State>, events: seq<Event>, n: nat, dev: nat, blk: nat): int
    requires |run| == |events| + 1 && n <= |events|
  {
    if n == 0 then Read(run[0].disk, dev, blk)
    else if Touches(run[n - 1], events[n - 1], dev, blk) then Data(run[n - 1], events[n - 1])
    else Last(run, events, n - 1, dev, blk)
  }

  predicate HasIt(s: State, b: nat, dev: nat, blk: nat) {
    IsBuf(s, b) && Same(s, b, dev, blk) && s.bufs[b].valid
  }

  // v is in every valid buffer of the block, and on disk if there is no such buffer.
  ghost predicate Holds(s: State, dev: nat, blk: nat, v: int) {
    && (forall b: nat :: HasIt(s, b, dev, blk) ==> s.bufs[b].data == v)
    && ((forall b: nat :: !HasIt(s, b, dev, blk)) ==> Read(s.disk, dev, blk) == v)
  }

  // No buffer changes but for its references.
  lemma SameHolds(s: State, t: State, dev: nat, blk: nat, v: int)
    requires Holds(s, dev, blk, v) && |t.bufs| == |s.bufs| && |t.handles| == |s.handles| && t.disk == s.disk
    requires forall b: nat :: b < |s.bufs| ==> t.bufs[b].(ref := s.bufs[b].ref) == s.bufs[b]
    ensures Holds(t, dev, blk, v)
  {
    forall b: nat ensures HasIt(t, b, dev, blk) == HasIt(s, b, dev, blk) {
      if b < |s.bufs| { assert t.bufs[b].(ref := s.bufs[b].ref) == s.bufs[b]; }
    }
  }

  lemma RecycleHolds(s: State, e: Event, dev: nat, blk: nat, v: int)
    requires Inv(s) && e.Get? && Enabled(s, e) && Cached(s, e.dev, e.blk) == |s.lru|
    requires dev > 0 && Holds(s, dev, blk, v)
    ensures Holds(Step(s, e), dev, blk, v)
  {
    RecycledIsIdle(s, e.dev, e.blk);
    var t, b := Step(s, e), s.lru[Idle(s) - 1];
    assert BufOk(s, b);
    forall a: nat ensures HasIt(t, a, dev, blk) <==> a != b && HasIt(s, a, dev, blk) { }
    if HasIt(s, b, dev, blk) {
      forall a: nat | a != b ensures !HasIt(s, a, dev, blk) {
        if IsBuf(s, a) && s.bufs[a].dev > 0 { assert !Same(s, a, s.bufs[b].dev, s.bufs[b].blk); }
      }
      assert s.bufs[b].data == v;
    }
  }

  // The one buffer of the block is b.
  lemma Alone(s: State, b: nat, dev: nat, blk: nat)
    requires Inv(s) && IsBuf(s, b) && Same(s, b, dev, blk) && dev > 0
    ensures forall a: nat :: a != b ==> !HasIt(s, a, dev, blk)
  {
    forall a: nat | a != b ensures !HasIt(s, a, dev, blk) {
      if IsBuf(s, a) && s.bufs[a].dev > 0 { assert !Same(s, a, s.bufs[b].dev, s.bufs[b].blk); }
    }
  }

  lemma DataHolds(s: State, e: Event, dev: nat, blk: nat, v: int)
    requires Inv(s) && (e.Fill? || e.Change? || e.Write?) && Enabled(s, e) && dev > 0 && Holds(s, dev, blk, v)
    ensures Holds(Step(s, e), dev, blk, if Touches(s, e, dev, blk) then Data(s, e) else v)
  {
    var t, b := Step(s, e), e.b;
    if Same(s, b, dev, blk) { Alone(s, b, dev, blk); }
    hide Inv, Enabled;
    forall a: nat | a != b ensures HasIt(t, a, dev, blk) == HasIt(s, a, dev, blk) { }
    if !Same(s, b, dev, blk) {
      assert !HasIt(t, b, dev, blk) && !HasIt(s, b, dev, blk);
    } else {
      assert e.Change? ==> HasIt(t, b, dev, blk);
      assert e.Fill? ==> !HasIt(s, b, dev, blk) && HasIt(t, b, dev, blk);
    }
  }

  lemma StepHolds(s: State, e: Event, dev: nat, blk: nat, v: int)
    requires Inv(s) && Enabled(s, e) && dev > 0 && Holds(s, dev, blk, v)
    ensures Holds(Step(s, e), dev, blk, if Touches(s, e, dev, blk) then Data(s, e) else v)
  {
    if e.Fill? || e.Change? || e.Write? {
      DataHolds(s, e, dev, blk, v);
    } else if e.Get? && Cached(s, e.dev, e.blk) == |s.lru| {
      RecycleHolds(s, e, dev, blk, v);
    } else {
      RefsOnly(s, e);
      SameHolds(s, Step(s, e), dev, blk, v);
    }
  }

  lemma RefsOnly(s: State, e: Event)
    requires Inv(s) && Enabled(s, e) && !e.Fill? && !e.Change? && !e.Write?
    requires e.Get? ==> Cached(s, e.dev, e.blk) < |s.lru|
    ensures var t := Step(s, e); |t.bufs| == |s.bufs| && |t.handles| == |s.handles| && t.disk == s.disk
    ensures var t := Step(s, e); forall b: nat :: b < |s.bufs| ==> t.bufs[b].(ref := s.bufs[b].ref) == s.bufs[b]
  {
    if e.Get? { assert s.lru[Cached(s, e.dev, e.blk)] in s.lru; }
  }

  lemma {:induction false} RunHolds(run: seq<State>, events: seq<Event>, n: nat, dev: nat, blk: nat)
    requires IsRun(run, events) && n < |run| && dev > 0
    ensures Holds(run[n], dev, blk, Last(run, events, n, dev, blk))
  {
    if n > 0 {
      RunHolds(run, events, n - 1, dev, blk);
      RunKeeps(run, events, n - 1);
      assert run[n - 1 + 1] == Step(run[n - 1], events[n - 1]);
      StepHolds(run[n - 1], events[n - 1], dev, blk, Last(run, events, n - 1, dev, blk));
    } else {
      forall b: nat ensures !HasIt(run[0], b, dev, blk) { }
    }
  }

  // Whenever bread() can return a buffer, it has the data last changed or written for its block.
  lemma BreadReturnsLast(run: seq<State>, events: seq<Event>, n: nat, b: nat)
    requires IsRun(run, events) && n < |run| && IsBuf(run[n], b)
    requires run[n].bufs[b].valid && run[n].bufs[b].dev > 0
    ensures run[n].bufs[b].data == Last(run, events, n, run[n].bufs[b].dev, run[n].bufs[b].blk)
  {
    RunHolds(run, events, n, run[n].bufs[b].dev, run[n].bufs[b].blk);
    assert HasIt(run[n], b, run[n].bufs[b].dev, run[n].bufs[b].blk);
  }

  // The disk is behind only in blocks that have a valid buffer somebody holds or the log has pinned.
  lemma DiskHasLast(run: seq<State>, events: seq<Event>, n: nat, dev: nat, blk: nat)
    requires IsRun(run, events) && n < |run| && dev > 0
    requires forall b: nat :: b in run[n].held || b in run[n].logged ==> !HasIt(run[n], b, dev, blk)
    ensures Read(run[n].disk, dev, blk) == Last(run, events, n, dev, blk)
  {
    RunHolds(run, events, n, dev, blk);
    RunKeeps(run, events, n);
    if b: nat :| HasIt(run[n], b, dev, blk) {
      assert BufOk(run[n], b);
    }
  }

  // ---------- which buffer is given away ----------

  // The step that let go of the last reference to b, counted from 1; 0 if there was none.
  ghost function Freed(run: seq<State>, events: seq<Event>, n: nat, b: nat): (k: nat)
    requires |run| == |events| + 1 && n <= |events|
    ensures k <= n
  {
    if n == 0 then 0
    else if LetsGo(run[n], events[n - 1]) && events[n - 1].b == b then n
    else Freed(run, events, n - 1, b)
  }

  predicate LetsGo(t: State, e: Event) {
    e.Drop? && IsBuf(t, e.b) && t.bufs[e.b].ref == 0
  }

  ghost predicate Newest(run: seq<State>, events: seq<Event>, n: nat)
    requires |run| == |events| + 1 && n <= |events|
  {
    forall i, j :: 0 <= i < j < |run[n].lru| ==>
      Freed(run, events, n, run[n].lru[i]) >= Freed(run, events, n, run[n].lru[j])
  }

  lemma {:induction false} RunNewest(run: seq<State>, events: seq<Event>, n: nat)
    requires IsRun(run, events) && n < |run|
    ensures Newest(run, events, n)
  {
    hide Inv, Enabled, Step, Front;
    if n > 0 {
      RunNewest(run, events, n - 1);
      RunKeeps(run, events, n - 1);
      assert run[n - 1 + 1] == Step(run[n - 1], events[n - 1]);
      StepOrder(run[n - 1], events[n - 1]);
      hide IsRun, Newest;
      if LetsGo(run[n], events[n - 1]) { FrontNewest(run, events, n); } else { KeepNewest(run, events, n); }
    }
  }

  lemma StepOrder(s: State, e: Event)
    requires Inv(s) && Enabled(s, e)
    ensures Seqs.Distinct(s.lru)
    ensures var t := Step(s, e); if LetsGo(t, e) then e.b in s.lru && t.lru == Front(s.lru, e.b) else t.lru == s.lru
  {
  }

  // The front is as new as can be, and the others keep their order.
  lemma FrontNewest(run: seq<State>, events: seq<Event>, n: nat)
    requires |run| == |events| + 1 && 0 < n <= |events| && Newest(run, events, n - 1)
    requires LetsGo(run[n], events[n - 1]) && events[n - 1].b in run[n - 1].lru
    requires Seqs.Distinct(run[n - 1].lru) && run[n].lru == Front(run[n - 1].lru, events[n - 1].b)
    ensures Newest(run, events, n)
  {
    var was, now, b := run[n - 1].lru, run[n].lru, events[n - 1].b;
    var p := Place(was, b);
    forall i, j | 0 <= i < j < |now|
      ensures Freed(run, events, n, now[i]) >= Freed(run, events, n, now[j])
    {
      if i > 0 {
        var x, y := if i - 1 < p then i - 1 else i, if j - 1 < p then j - 1 else j;
        assert now[i] == was[x] && now[j] == was[y] && was[x] != b && was[y] != b;
        assert Freed(run, events, n - 1, was[x]) >= Freed(run, events, n - 1, was[y]);
      }
    }
  }

  lemma KeepNewest(run: seq<State>, events: seq<Event>, n: nat)
    requires |run| == |events| + 1 && 0 < n <= |events| && Newest(run, events, n - 1)
    requires !LetsGo(run[n], events[n - 1]) && run[n].lru == run[n - 1].lru
    ensures Newest(run, events, n)
  {
    hide LetsGo;
    forall b: nat ensures Freed(run, events, n, b) == Freed(run, events, n - 1, b) { }
  }

  // A miss recycles the unreferenced buffer furthest down the list.
  lemma MissTakesLast(s: State, e: Event, a: nat) returns (i: nat, j: nat)
    requires Inv(s) && e.Get? && Enabled(s, e) && IsBuf(s, a) && s.bufs[a].ref == 0
    requires forall b: nat :: IsBuf(s, b) ==> !Same(s, b, e.dev, e.blk)
    ensures i <= j < |s.lru| && s.lru[i] == a && IsBuf(s, s.lru[j]) && s.bufs[s.lru[j]].ref == 0
    ensures var t := Step(s, e); IsBuf(t, s.lru[j]) && Same(t, s.lru[j], e.dev, e.blk)
  {
    assert forall k: nat :: k < |s.lru| ==> s.lru[k] in s.lru;
    RecycledIsIdle(s, e.dev, e.blk);
    assert a in s.lru;
    i :| i < |s.lru| && s.lru[i] == a;
    j := Idle(s) - 1;
  }

  // bget() gives away an unreferenced buffer, and none was let go of before it.
  lemma RecyclesOldest(run: seq<State>, events: seq<Event>, n: nat, a: nat)
    requires IsRun(run, events) && n < |events| && events[n].Get?
    requires forall b: nat :: IsBuf(run[n], b) ==> !Same(run[n], b, events[n].dev, events[n].blk)
    requires IsBuf(run[n], a) && run[n].bufs[a].ref == 0
    ensures exists b: nat :: IsBuf(run[n], b) && run[n].bufs[b].ref == 0
                             && IsBuf(run[n + 1], b) && Same(run[n + 1], b, events[n].dev, events[n].blk)
                             && Freed(run, events, n, b) <= Freed(run, events, n, a)
  {
    hide Step, Inv, Enabled;
    RunNewest(run, events, n);
    RunKeeps(run, events, n);
    assert Enabled(run[n], events[n]) && run[n + 1] == Step(run[n], events[n]);
    var i, j := MissTakesLast(run[n], events[n], a);
    hide IsRun;
    assert Freed(run, events, n, run[n].lru[j]) <= Freed(run, events, n, a);
  }
}
