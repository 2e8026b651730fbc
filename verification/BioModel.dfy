/**
 The buffer cache (kernel/bio.c) with the pinning of the log (kernel/log.c): a doubly linked list
 through a head, buffer 0, and the steps of processes that get, lock, change, write, pin and
 release buffers.
 */
module BioModel {
  import Seqs

  // ---------- the list ----------

  // Place i of the ring that starts and ends at the head.
  function At(lru: seq<nat>, i: nat): nat
    requires i <= |lru| + 1
  {
    if 1 <= i <= |lru| then lru[i - 1] else 0
  }

  predicate LinkAt(next: seq<nat>, prev: seq<nat>, lru: seq<nat>, i: nat)
    requires i <= |lru|
  {
    && At(lru, i) < |next| && At(lru, i + 1) < |prev|
    && next[At(lru, i)] == At(lru, i + 1) && prev[At(lru, i + 1)] == At(lru, i)
  }

  // next leads from the head through lru back to the head, and prev the other way.
  ghost predicate Linked(next: seq<nat>, prev: seq<nat>, lru: seq<nat>) {
    && |next| == |prev| > 0 && Seqs.Distinct(lru)
    && (forall k :: 0 <= k < |lru| ==> 0 < lru[k] < |next|)
    && forall i: nat :: i <= |lru| ==> LinkAt(next, prev, lru, i)
  }

  function Without(lru: seq<nat>, p: nat): seq<nat>
    requires p < |lru|
  {
    lru[..p] + lru[p + 1..]
  }

  // b->next->prev = b->prev; b->prev->next = b->next
  lemma UnlinkKeeps(next: seq<nat>, prev: seq<nat>, lru: seq<nat>, p: nat)
    requires Linked(next, prev, lru) && p < |lru|
    ensures var b := lru[p]; b < |next| && next[b] < |prev| && prev[b] < |next|
    ensures var b := lru[p]; Linked(next[prev[b] := next[b]], prev[next[b] := prev[b]], Without(lru, p))
    ensures lru[p] !in Without(lru, p)
  {
    var b, r := lru[p], Without(lru, p);
    assert LinkAt(next, prev, lru, p) && LinkAt(next, prev, lru, p + 1);
    var n, q := next[prev[b] := next[b]], prev[next[b] := prev[b]];
    assert forall k :: 0 <= k < |r| ==> r[k] == if k < p then lru[k] else lru[k + 1];
    forall i: nat | i <= |r| ensures LinkAt(n, q, r, i) {
      var j := if i < p then i else i + 1;
      assert LinkAt(next, prev, lru, j);
      PlacesApart(lru, i, p);
      PlacesApart(lru, i + 1, p);
      PlacesApart(lru, i + 1, p + 2);
      PlacesApart(lru, i + 2, p + 2);
    }
  }

  // Places of the ring, other than its two ends, hold different buffers.
  lemma PlacesApart(lru: seq<nat>, i: nat, j: nat)
    requires Seqs.Distinct(lru) && forall k :: 0 <= k < |lru| ==> lru[k] > 0
    ensures i != j && i <= |lru| + 1 && j <= |lru| + 1 && At(lru, i) == At(lru, j) ==>
            (i == 0 && j == |lru| + 1) || (j == 0 && i == |lru| + 1)
  {
  }

  // b->next = head.next; b->prev = &head; head.next->prev = b; head.next = b
  lemma PushKeeps(next: seq<nat>, prev: seq<nat>, lru: seq<nat>, b: nat)
    requires Linked(next, prev, lru) && 0 < b < |next| && b !in lru
    ensures next[0] < |prev|
    ensures Linked(next[b := next[0]][0 := b], prev[b := 0][next[0] := b], [b] + lru)
  {
    var r := [b] + lru;
    assert LinkAt(next, prev, lru, 0);
    var n, q := next[b := next[0]][0 := b], prev[b := 0][next[0] := b];
    Seqs.DistinctConcat([b], lru);
    assert forall k :: 0 <= k < |lru| ==> r[k + 1] == lru[k];
    forall i: nat | i <= |r| ensures LinkAt(n, q, r, i) {
      if i > 0 {
        assert LinkAt(next, prev, lru, i - 1);
        assert i >= 2 ==> At(lru, i - 1) != 0;
        assert At(lru, i - 1) != b && At(lru, i) != b;
        PlacesApart(lru, i, 1);
      }
    }
  }

  // ---------- buffers ----------

  datatype Buf = Buf(dev: nat, blk: nat, valid: bool, data: int, ref: nat)

  type Disk = map<(nat, nat), int>

  // lru is the order of the list.  held are the buffers whose sleep lock is taken, logged those
  // that log_write() has pinned, and handles counts the processes between bget() and brelse().
  datatype State = State(bufs: seq<Buf>, disk: Disk, lru: seq<nat>, held: set<nat>, logged: set<nat>,
                         handles: seq<nat>)

  function Read(disk: Disk, dev: nat, blk: nat): int {
    if (dev, blk) in disk then disk[(dev, blk)] else 0
  }

  predicate IsBuf(s: State, b: nat) {
    0 < b < |s.bufs| == |s.handles|
  }

  function Pins(s: State, b: nat): nat {
    if b in s.logged then 1 else 0
  }

  // What a buffer that nobody holds and the log has not pinned must be.
  predicate Agrees(s: State, b: nat)
    requires IsBuf(s, b)
  {
    s.bufs[b].valid && s.bufs[b].dev > 0 ==> s.bufs[b].data == Read(s.disk, s.bufs[b].dev, s.bufs[b].blk)
  }

  predicate BufOk(s: State, b: nat)
    requires IsBuf(s, b)
  {
    && s.bufs[b].ref == s.handles[b] + Pins(s, b)
    && (b in s.held ==> s.handles[b] > 0)
    && (b !in s.held && b !in s.logged ==> Agrees(s, b))
    && (s.bufs[b].ref > 0 ==> s.bufs[b].dev > 0)
  }

  predicate Same(s: State, a: nat, dev: nat, blk: nat)
    requires IsBuf(s, a)
  {
    s.bufs[a].dev == dev && s.bufs[a].blk == blk
  }

  // At most one buffer has a given block of a device.
  ghost predicate Unique(s: State) {
    forall a: nat, b: nat :: IsBuf(s, a) && IsBuf(s, b) && a != b && s.bufs[a].dev > 0 ==>
      !Same(s, a, s.bufs[b].dev, s.bufs[b].blk)
  }

  ghost predicate Order(s: State) {
    Seqs.Distinct(s.lru) && forall b: nat :: b in s.lru <==> 0 < b < |s.bufs|
  }

  ghost predicate Inv(s: State) {
    && |s.bufs| == |s.handles| > 0 && Order(s) && Unique(s)
    && forall b: nat :: IsBuf(s, b) ==> BufOk(s, b)
  }

  // ---------- steps ----------

  datatype Event =
    | Get(dev: nat, blk: nat)          // bget() up to its acquiresleep()
    | Lock(b: nat)                     // acquiresleep()
    | Fill(b: nat)                     // bread() of a buffer that is not valid
    | Change(b: nat, data: int)        // the holder writes to b->data
    | Write(b: nat)                    // bwrite()
    | Pin(b: nat)                      // log_write() of a new block
    | Unpin(b: nat)                    // install_trans() after its bwrite()
    | Unlock(b: nat)                   // brelse(): releasesleep()
    | Drop(b: nat)                     // brelse(): the rest

  function CachedFrom(s: State, dev: nat, blk: nat, k: nat): (r: nat)
    requires k <= |s.lru|
    ensures k <= r <= |s.lru|
    ensures r < |s.lru| && IsBuf(s, s.lru[r]) ==> Same(s, s.lru[r], dev, blk)
    ensures forall j :: k <= j < r && IsBuf(s, s.lru[j]) ==> !Same(s, s.lru[j], dev, blk)
    decreases |s.lru| - k
  {
    if k == |s.lru| || (IsBuf(s, s.lru[k]) && Same(s, s.lru[k], dev, blk)) then k
    else CachedFrom(s, dev, blk, k + 1)
  }

  // The place, from the most recently used end, of the buffer with the block; |lru| if there is none.
  function Cached(s: State, dev: nat, blk: nat): nat {
    CachedFrom(s, dev, blk, 0)
  }

  function IdleBefore(s: State, k: nat): (r: nat)
    requires k <= |s.lru|
    ensures r <= k
    ensures r > 0 && IsBuf(s, s.lru[r - 1]) ==> s.bufs[s.lru[r - 1]].ref == 0
    ensures forall j :: r <= j < k && IsBuf(s, s.lru[j]) ==> s.bufs[s.lru[j]].ref > 0
  {
    if k == 0 || (IsBuf(s, s.lru[k - 1]) && s.bufs[s.lru[k - 1]].ref == 0) then k else IdleBefore(s, k - 1)
  }

  // One past the place of the least recently used buffer without references; 0 if there is none.
  function Idle(s: State): nat {
    IdleBefore(s, |s.lru|)
  }

  function SetBuf(s: State, b: nat, x: Buf, n: nat): State
    requires IsBuf(s, b)
  {
    s.(bufs := s.bufs[b := x], handles := s.handles[b := n])
  }

  function Hit(s: State, b: nat): State
    requires IsBuf(s, b)
  {
    SetBuf(s, b, s.bufs[b].(ref := s.bufs[b].ref + 1), s.handles[b] + 1)
  }

  function Recycle(s: State, b: nat, dev: nat, blk: nat): State
    requires IsBuf(s, b)
  {
    SetBuf(s, b, s.bufs[b].(dev := dev, blk := blk, valid := false, ref := 1), 1)
  }

  function Place(lru: seq<nat>, b: nat): (p: nat)
    requires b in lru
    ensures p < |lru| && lru[p] == b
  {
    if lru[0] == b then 0 else 1 + Place(lru[1..], b)
  }

  function Front(lru: seq<nat>, b: nat): seq<nat>
    requires b in lru
  {
    [b] + Without(lru, Place(lru, b))
  }

  // brelse() without its releasesleep(): the last reference makes the buffer the most recently used.
  ghost function Dropped(s: State, b: nat): State
    requires IsBuf(s, b) && s.handles[b] > 0 && s.bufs[b].ref > 0 && b in s.lru
  {
    var t := SetBuf(s, b, s.bufs[b].(ref := s.bufs[b].ref - 1), s.handles[b] - 1);
    if t.bufs[b].ref == 0 then t.(lru := Front(s.lru, b)) else t
  }

  // A buffer is changed only by its holder, who writes it or has it pinned before letting go.
  ghost predicate Enabled(s: State, e: Event) {
    |s.bufs| == |s.handles| && Order(s) && match e
    case Get(dev, blk) => dev > 0 && (Cached(s, dev, blk) < |s.lru| || Idle(s) > 0)
    case Lock(b) => IsBuf(s, b) && b !in s.held && s.handles[b] > 0
    case Fill(b) => IsBuf(s, b) && b in s.held && !s.bufs[b].valid
    case Change(b, _) => IsBuf(s, b) && b in s.held && s.bufs[b].valid
    case Write(b) => IsBuf(s, b) && b in s.held
    case Pin(b) => IsBuf(s, b) && b in s.held && b !in s.logged
    case Unpin(b) => IsBuf(s, b) && b in s.held && b in s.logged && s.bufs[b].ref > 0 && Agrees(s, b)
    case Unlock(b) => IsBuf(s, b) && b in s.held && (b in s.logged || Agrees(s, b))
    case Drop(b) => IsBuf(s, b) && b in s.lru && s.bufs[b].ref > 0 && s.handles[b] > if b in s.held then 1 else 0
  }

  ghost function Step(s: State, e: Event): State
    requires Enabled(s, e)
  {
    match e
    case Get(dev, blk) =>
      var k := Cached(s, dev, blk);
      if k < |s.lru| then assert s.lru[k] in s.lru; Hit(s, s.lru[k])
      else assert s.lru[Idle(s) - 1] in s.lru; Recycle(s, s.lru[Idle(s) - 1], dev, blk)
    case Lock(b) => s.(held := s.held + {b})
    case Fill(b) =>
      SetBuf(s, b, s.bufs[b].(valid := true, data := Read(s.disk, s.bufs[b].dev, s.bufs[b].blk)), s.handles[b])
    case Change(b, data) => SetBuf(s, b, s.bufs[b].(data := data), s.handles[b])
    case Write(b) => s.(disk := s.disk[(s.bufs[b].dev, s.bufs[b].blk) := s.bufs[b].data])
    case Pin(b) => SetBuf(s, b, s.bufs[b].(ref := s.bufs[b].ref + 1), s.handles[b]).(logged := s.logged + {b})
    case Unpin(b) => SetBuf(s, b, s.bufs[b].(ref := s.bufs[b].ref - 1), s.handles[b]).(logged := s.logged - {b})
    case Unlock(b) => s.(held := s.held - {b})
    case Drop(b) => Dropped(s, b)
  }

  // ---------- what every step keeps ----------

  // One buffer changes, but not which block it has.
  lemma SetKeeps(s: State, t: State, b: nat)
    requires Inv(s) && IsBuf(s, b) && |t.bufs| == |t.handles| == |s.bufs| && t.lru == s.lru && t.disk == s.disk
    requires forall a: nat :: IsBuf(s, a) && a != b ==> t.bufs[a] == s.bufs[a] && t.handles[a] == s.handles[a]
    requires forall a: nat :: a != b ==> (a in t.held <==> a in s.held) && (a in t.logged <==> a in s.logged)
    requires t.bufs[b].dev == s.bufs[b].dev && t.bufs[b].blk == s.bufs[b].blk && BufOk(t, b)
    ensures Inv(t)
  {
    forall a: nat, c: nat | IsBuf(t, a) && IsBuf(t, c) && a != c && t.bufs[a].dev > 0
      ensures !Same(t, a, t.bufs[c].dev, t.bufs[c].blk)
    {
      assert !Same(s, a, s.bufs[c].dev, s.bufs[c].blk);
    }
    forall a: nat | IsBuf(t, a) ensures BufOk(t, a) { assert BufOk(s, a); }
    assert Order(t);
  }

  lemma WriteKeeps(s: State, b: nat)
    requires Inv(s) && IsBuf(s, b) && b in s.held
    ensures Inv(Step(s, Write(b)))
  {
    var t := Step(s, Write(b));
    forall a: nat | IsBuf(t, a) ensures BufOk(t, a) {
      assert BufOk(s, a) && BufOk(s, b);
      if a != b && s.bufs[a].dev > 0 { assert !Same(s, a, s.bufs[b].dev, s.bufs[b].blk); }
    }
    assert Unique(t) by {
      forall a: nat, c: nat | IsBuf(t, a) && IsBuf(t, c) && a != c && t.bufs[a].dev > 0
        ensures !Same(t, a, t.bufs[c].dev, t.bufs[c].blk)
      {
        assert !Same(s, a, s.bufs[c].dev, s.bufs[c].blk);
      }
    }
  }

  // What bget() recycles is neither held, nor pinned, nor referenced.
  lemma RecycledIsIdle(s: State, dev: nat, blk: nat)
    requires Inv(s) && dev > 0 && Cached(s, dev, blk) == |s.lru| && Idle(s) > 0
    ensures var b := s.lru[Idle(s) - 1];
            IsBuf(s, b) && s.bufs[b].ref == 0 && s.handles[b] == 0 && b !in s.held && b !in s.logged
    ensures forall a: nat :: IsBuf(s, a) ==> !Same(s, a, dev, blk)
  {
    var b := s.lru[Idle(s) - 1];
    assert b in s.lru;
    assert BufOk(s, b);
    forall a: nat | IsBuf(s, a) ensures !Same(s, a, dev, blk) {
      assert a in s.lru;
      var k :| 0 <= k < |s.lru| && s.lru[k] == a;
    }
  }

  lemma RecycleKeeps(s: State, dev: nat, blk: nat)
    requires Inv(s) && dev > 0 && Cached(s, dev, blk) == |s.lru| && Idle(s) > 0
    ensures Inv(Step(s, Get(dev, blk)))
  {
    RecycledIsIdle(s, dev, blk);
    var t := Step(s, Get(dev, blk));
    var b := s.lru[Idle(s) - 1];
    forall a: nat | IsBuf(t, a) ensures BufOk(t, a) { assert BufOk(s, a); }
    forall a: nat, c: nat | IsBuf(t, a) && IsBuf(t, c) && a != c && t.bufs[a].dev > 0
      ensures !Same(t, a, t.bufs[c].dev, t.bufs[c].blk)
    {
      if a != b && c != b { assert !Same(s, a, s.bufs[c].dev, s.bufs[c].blk); }
      if a == b { assert !Same(s, c, dev, blk); }
      if c == b { assert !Same(s, a, dev, blk); }
    }
    assert Order(t);
  }

  lemma FrontOrder(s: State, b: nat)
    requires Order(s) && b in s.lru
    ensures Order(s.(lru := Front(s.lru, b)))
  {
    var p := Place(s.lru, b);
    var r := Without(s.lru, p);
    assert forall k :: 0 <= k < |r| ==> r[k] == if k < p then s.lru[k] else s.lru[k + 1];
    Seqs.DistinctConcat([b], r);
    forall x: nat ensures x in [b] + r <==> x in s.lru {
      if x in s.lru && x != b {
        var k :| 0 <= k < |s.lru| && s.lru[k] == x;
        assert r[if k < p then k else k - 1] == x;
      }
    }
  }

  lemma DropKeeps(s: State, b: nat)
    requires Inv(s) && Enabled(s, Drop(b))
    ensures Inv(Step(s, Drop(b)))
  {
    assert BufOk(s, b);
    var t := SetBuf(s, b, s.bufs[b].(ref := s.bufs[b].ref - 1), s.handles[b] - 1);
    SetKeeps(s, t, b);
    if t.bufs[b].ref == 0 {
      FrontOrder(t, b);
      var u := t.(lru := Front(t.lru, b));
      forall a: nat | IsBuf(u, a) ensures BufOk(u, a) { assert BufOk(t, a); }
      forall a: nat, c: nat | IsBuf(u, a) && IsBuf(u, c) && a != c && u.bufs[a].dev > 0
        ensures !Same(u, a, u.bufs[c].dev, u.bufs[c].blk)
      {
        assert !Same(t, a, t.bufs[c].dev, t.bufs[c].blk);
      }
    }
  }

  lemma StepKeeps(s: State, e: Event)
    requires Inv(s) && Enabled(s, e)
    ensures Inv(Step(s, e))
  {
    match e
    case Get(dev, blk) =>
      var k := Cached(s, dev, blk);
      if k < |s.lru| {
        assert s.lru[k] in s.lru && BufOk(s, s.lru[k]);
        SetKeeps(s, Step(s, e), s.lru[k]);
      } else {
        RecycleKeeps(s, dev, blk);
      }
    case Write(b) => WriteKeeps(s, b);
    case Drop(b) => DropKeeps(s, b);
    case _ => OwnKeeps(s, e, e.b);
  }

  // The steps of the process that has b.
  lemma OwnKeeps(s: State, e: Event, b: nat)
    requires Inv(s) && Enabled(s, e) && !e.Get? && !e.Write? && !e.Drop? && e.b == b
    ensures Inv(Step(s, e))
  {
    assert BufOk(s, b);
    var t := Step(s, e);
    assert BufOk(t, b);
    hide Inv, BufOk;
    SetKeeps(s, t, b);
  }

  // ---------- whole runs ----------

  // After binit(): n buffers, none of them with a block.
  ghost predicate Start(s: State) {
    && |s.bufs| == |s.handles| > 0 && Order(s) && s.held == {} && s.logged == {}
    && forall b: nat :: IsBuf(s, b) ==> s.bufs[b].dev == 0 && s.bufs[b].ref == 0 && s.handles[b] == 0
  }

  ghost predicate IsRun(run: seq<State>, events: seq<Event>) {
    && |run| == |events| + 1 && Start(run[0])
    && forall n: nat :: n < |events| ==> Enabled(run[n], events[n]) && run[n + 1] == Step(run[n], events[n])
  }

  lemma {:induction false} RunKeeps(run: seq<State>, events: seq<Event>, n: nat)
    requires IsRun(run, events) && n < |run|
    ensures Inv(run[n])
  {
    if n > 0 {
      RunKeeps(run, events, n - 1);
      assert run[n - 1 + 1] == Step(run[n - 1], events[n - 1]);
      StepKeeps(run[n - 1], events[n - 1]);
    } else {
      forall b: nat | IsBuf(run[0], b) ensures BufOk(run[0], b) { }
    }
  }

  // A valid buffer that is neither held nor pinned by the log has the contents of its disk block.
  lemma CacheAgrees(run: seq<State>, events: seq<Event>, n: nat, b: nat)
    requires IsRun(run, events) && n < |run| && IsBuf(run[n], b)
    requires run[n].bufs[b].valid && run[n].bufs[b].dev > 0 && b !in run[n].held && b !in run[n].logged
    ensures run[n].bufs[b].data == Read(run[n].disk, run[n].bufs[b].dev, run[n].bufs[b].blk)
  {
    RunKeeps(run, events, n);
    assert BufOk(run[n], b);
  }

  // No block is cached twice.
  lemma OneCopy(run: seq<State>, events: seq<Event>, n: nat, a: nat, b: nat)
    requires IsRun(run, events) && n < |run| && IsBuf(run[n], a) && IsBuf(run[n], b)
    requires run[n].bufs[a].dev > 0 && Same(run[n], a, run[n].bufs[b].dev, run[n].bufs[b].blk)
    ensures a == b
  {
    RunKeeps(run, events, n);
  }

  lemma StepBlock(s: State, e: Event, b: nat)
    requires Inv(s) && Enabled(s, e) && IsBuf(s, b) && (s.handles[b] > 0 || b in s.logged)
    ensures IsBuf(Step(s, e), b) && Same(Step(s, e), b, s.bufs[b].dev, s.bufs[b].blk)
  {
    assert BufOk(s, b);
    if e.Get? {
      var k := Cached(s, e.dev, e.blk);
      if k < |s.lru| {
        assert s.lru[k] in s.lru;
      } else {
        RecycledIsIdle(s, e.dev, e.blk);
      }
    }
  }

  // While a process has a buffer, or the log has pinned it, it keeps its block.
  lemma KeepsItsBlock(run: seq<State>, events: seq<Event>, n: nat, b: nat)
    requires IsRun(run, events) && n < |events| && IsBuf(run[n], b)
    requires run[n].handles[b] > 0 || b in run[n].logged
    ensures IsBuf(run[n + 1], b) && Same(run[n + 1], b, run[n].bufs[b].dev, run[n].bufs[b].blk)
  {
    RunKeeps(run, events, n);
    assert Enabled(run[n], events[n]) && run[n + 1] == Step(run[n], events[n]);
    StepBlock(run[n], events[n], b);
  }
}
