/**
 The virtqueue of kernel/virtio_disk.c (sections 2.6 and 5.2 of the VIRTIO 1.1 specification) as a
 transition system: the driver under vdisk_lock, the interrupt handler's loop turn by turn, and a
 device that fetches chains in ring order and completes them in any order.
 */
module VirtioModel {
  import opened Options
  import Seqs

  const NUM: nat := 8
  const WRAP: nat := 0x1_0000
  const PENDING: nat := 0xFF

  datatype Desc = Desc(next: nat, more: bool)

  datatype Info = Info(b: Option<nat>, status: nat)

  // busy holds the buffers with b->disk set.  availIdx, usedIdx, seen (the driver's used_idx) and
  // last (the device's place in the avail ring) are 16-bit counters.
  datatype Disk = Disk(free: seq<bool>, desc: seq<Desc>, avail: seq<nat>, availIdx: nat, used: seq<nat>, usedIdx: nat,
                       seen: nat, info: seq<Info>, busy: set<nat>, last: nat, working: set<nat>)

  // A request: its serial number, its buffer and its second and third descriptor.
  datatype Req = Req(id: nat, b: nat, i1: nat, i2: nat)

  // What happened so far: the requests by head descriptor, those the device has not fetched, those
  // completed that the driver has not seen, those seen, the head of every
  // request ever made, by serial number, and the order in which requests were seen.
  // owner names the head of the chain that a descriptor is in.
  datatype History = History(reqs: map<nat, Req>, owner: seq<Option<nat>>, queued: seq<nat>, done: seq<nat>,
                             woken: set<nat>, heads: seq<nat>, finished: seq<nat>)

  // ---------- rings ----------

  // Entries from idx on, modulo the ring's size, are q.
  ghost predicate Window(ring: seq<nat>, idx: nat, q: seq<nat>) {
    |ring| == NUM && |q| <= NUM && forall k: nat :: k < |q| ==> ring[Slot(idx, k)] == q[k]
  }

  function Slot(idx: nat, k: nat): (i: nat)
    ensures i < NUM
  {
    (idx + k) % NUM
  }

  function Inc(i: nat): nat {
    (i + 1) % WRAP
  }

  // The counter `end` is n entries after idx, around the 16-bit wrap.
  predicate Ahead(idx: nat, end: nat, n: nat) {
    idx < WRAP && end == (idx + n) % WRAP
  }

  lemma Wraps(i: nat)
    ensures (i % WRAP) % NUM == i % NUM
  {
  }

  // The counters differ exactly when there is an entry to look at.
  lemma AheadMoves(idx: nat, end: nat, n: nat)
    requires Ahead(idx, end, n) && n <= NUM
    ensures idx == end <==> n == 0
  {
  }

  // Adding an entry at the end of a window that is not full overwrites none of its entries.
  lemma WindowPush(ring: seq<nat>, idx: nat, end: nat, q: seq<nat>, x: nat)
    requires Window(ring, idx, q) && |q| < NUM && Ahead(idx, end, |q|)
    ensures forall k: nat :: k < |q| ==> Slot(idx, k) != end % NUM
    ensures Window(ring[end % NUM := x], idx, q + [x]) && Ahead(idx, Inc(end), |q| + 1)
  {
    Wraps(idx + |q|);
    forall k: nat | k < |q| ensures Slot(idx, k) != end % NUM { Apart(idx, k, |q|); }
    var r, qx := ring[end % NUM := x], q + [x];
    forall k: nat | k < |qx| ensures r[Slot(idx, k)] == qx[k] {
    }
  }

  lemma Apart(idx: nat, k: nat, n: nat)
    requires k < n < NUM
    ensures (idx + k) % NUM != (idx + n) % NUM
  {
  }

  lemma SlotInc(idx: nat, k: nat)
    ensures Slot(Inc(idx), k) == Slot(idx, k + 1)
  {
  }

  lemma WindowPop(ring: seq<nat>, idx: nat, end: nat, q: seq<nat>)
    requires Window(ring, idx, q) && |q| > 0 && Ahead(idx, end, |q|)
    ensures ring[idx % NUM] == q[0] && Window(ring, Inc(idx), q[1..]) && Ahead(Inc(idx), end, |q| - 1)
  {
    assert ring[Slot(idx, 0)] == q[0];
    var rest := q[1..];
    forall k: nat | k < |rest| ensures ring[Slot(Inc(idx), k)] == rest[k] {
      SlotInc(idx, k);
      assert ring[Slot(idx, k + 1)] == q[k + 1];
    }
  }

  // ---------- invariant ----------

  ghost predicate Shaped(s: Disk, h: History) {
    |s.free| == |s.desc| == |s.info| == |h.owner| == NUM
  }

  // The request with head a has a chain of three descriptors of its own and its buffer.
  ghost predicate ReqOk(s: Disk, h: History, a: nat)
    requires Shaped(s, h) && a in h.reqs
  {
    var r := h.reqs[a];
    && a < NUM && r.i1 < NUM && r.i2 < NUM && a != r.i1 && a != r.i2 && r.i1 != r.i2
    && h.owner[a] == h.owner[r.i1] == h.owner[r.i2] == Some(a)
    && s.desc[a] == Desc(r.i1, true) && s.desc[r.i1] == Desc(r.i2, true) && !s.desc[r.i2].more
    && s.info[a].b == Some(r.b) && (r.b in s.busy <==> a !in h.woken)
    && r.id < |h.heads| && (r.id in h.finished <==> a in h.woken)
    && (a in h.done ==> s.info[a].status == 0)
  }

  // A descriptor is free exactly when it is in no chain.
  ghost predicate DescOk(s: Disk, h: History, i: nat)
    requires Shaped(s, h) && i < NUM
  {
    && (s.free[i] <==> h.owner[i].None?) && (s.free[i] ==> s.desc[i] == Desc(0, false))
    && (h.owner[i].Some? ==> var a := h.owner[i].value;
                             a in h.reqs && (i == a || i == h.reqs[a].i1 || i == h.reqs[a].i2))
  }

  // Every request is in exactly one phase.
  ghost predicate Phases(s: Disk, h: History) {
    && Seqs.Distinct(h.queued) && Seqs.Distinct(h.done)
    && (forall a :: a in h.reqs <==> a in h.queued || a in s.working || a in h.done || a in h.woken)
    && (forall a :: a in h.queued ==> a !in s.working && a !in h.done && a !in h.woken)
    && (forall a :: a in s.working ==> a !in h.done && a !in h.woken)
    && (forall a :: a in h.done ==> a !in h.woken)
  }

  ghost predicate Rings(s: Disk, h: History) {
    && Window(s.avail, s.last, h.queued) && Ahead(s.last, s.availIdx, |h.queued|)
    && Window(s.used, s.seen, h.done) && Ahead(s.seen, s.usedIdx, |h.done|)
  }

  // Serial numbers and buffers are distinct, and no request has finished twice.
  ghost predicate Serial(h: History) {
    && (forall a, b :: a in h.reqs && b in h.reqs && a != b ==>
          h.reqs[a].id != h.reqs[b].id && h.reqs[a].b != h.reqs[b].b)
    && Seqs.Distinct(h.finished) && forall n :: n in h.finished ==> n < |h.heads|
  }

  // Every request ever made is outstanding or has finished.
  ghost predicate Accounted(h: History) {
    forall n: nat :: n < |h.heads| ==> n in h.finished || (h.heads[n] in h.reqs && h.reqs[h.heads[n]].id == n)
  }

  ghost predicate Inv(s: Disk, h: History) {
    && Shaped(s, h) && Phases(s, h) && Rings(s, h) && Serial(h) && Accounted(h)
    && (forall a :: a in h.reqs ==> ReqOk(s, h, a))
    && (forall i: nat :: i < NUM ==> DescOk(s, h, i))
  }

  // ---------- steps ----------

  // virtio_disk_rw() on descriptors i0, i1, i2, up to the notification.
  function Submit(s: Disk, b: nat, i0: nat, i1: nat, i2: nat): Disk
    requires |s.free| == |s.desc| == |s.info| == |s.avail| == NUM && i0 < NUM && i1 < NUM && i2 < NUM
  {
    s.(free := s.free[i0 := false][i1 := false][i2 := false],
       desc := s.desc[i0 := Desc(i1, true)][i1 := Desc(i2, true)][i2 := Desc(0, false)],
       info := s.info[i0 := Info(Some(b), PENDING)],
       busy := s.busy + {b},
       avail := s.avail[s.availIdx % NUM := i0],
       availIdx := Inc(s.availIdx))
  }

  ghost function Submitted(h: History, b: nat, i0: nat, i1: nat, i2: nat): History
    requires |h.owner| == NUM && i0 < NUM && i1 < NUM && i2 < NUM
  {
    h.(reqs := h.reqs[i0 := Req(|h.heads|, b, i1, i2)],
       owner := h.owner[i0 := Some(i0)][i1 := Some(i0)][i2 := Some(i0)],
       queued := h.queued + [i0], heads := h.heads + [i0])
  }

  // The three descriptors are free and the buffer is in no request.
  ghost predicate CanSubmit(s: Disk, h: History, b: nat, i0: nat, i1: nat, i2: nat) {
    && |s.free| == NUM && i0 < NUM && i1 < NUM && i2 < NUM && i0 != i1 && i0 != i2 && i1 != i2
    && s.free[i0] && s.free[i1] && s.free[i2]
    && forall a :: a in h.reqs ==> h.reqs[a].b != b
  }

  lemma SubmitRings(s: Disk, h: History, b: nat, i0: nat, i1: nat, i2: nat)
    requires Inv(s, h) && CanSubmit(s, h, b, i0, i1, i2)
    ensures i0 !in h.reqs && i1 !in h.reqs && i2 !in h.reqs && |h.queued| < NUM == |s.avail|
    ensures Rings(Submit(s, b, i0, i1, i2), Submitted(h, b, i0, i1, i2))
  {
    assert DescOk(s, h, i0) && DescOk(s, h, i1) && DescOk(s, h, i2);
    forall a | a in h.reqs ensures a != i0 && a != i1 && a != i2 && a < NUM { assert ReqOk(s, h, a); }
    hide Window, Ahead;
    var more := [i0, i1, i2];
    Seqs.DistinctConcat(h.queued, more);
    var all := h.queued + more;
    forall i | 0 <= i < |all| ensures 0 <= all[i] < NUM { if i < |h.queued| { assert all[i] in h.queued; } }
    Seqs.Pigeonhole(all, NUM);
    WindowPush(s.avail, s.last, s.availIdx, h.queued, i0);
  }

  lemma SubmitKeeps(s: Disk, h: History, b: nat, i0: nat, i1: nat, i2: nat)
    requires Inv(s, h) && CanSubmit(s, h, b, i0, i1, i2)
    ensures Inv(Submit(s, b, i0, i1, i2), Submitted(h, b, i0, i1, i2))
  {
    hide Rings, ReqOk, DescOk, Serial, Accounted, Phases;
    SubmitRings(s, h, b, i0, i1, i2);
    var t, g := Submit(s, b, i0, i1, i2), Submitted(h, b, i0, i1, i2);
    forall a | a in g.reqs ensures ReqOk(t, g, a) { SubmitReq(s, h, b, i0, i1, i2, a); }
    forall i: nat | i < NUM ensures DescOk(t, g, i) { SubmitDesc(s, h, b, i0, i1, i2, i); }
    SubmitPhases(s, h, i0, g);
    PhasesSame(s, t, g);
    SubmitSerial(s, h, b, i0, i1, i2);
  }

  lemma SubmitSerial(s: Disk, h: History, b: nat, i0: nat, i1: nat, i2: nat)
    requires Inv(s, h) && CanSubmit(s, h, b, i0, i1, i2)
    ensures Serial(Submitted(h, b, i0, i1, i2)) && Accounted(Submitted(h, b, i0, i1, i2))
  {
    SubmitRings(s, h, b, i0, i1, i2);
    forall a | a in h.reqs ensures h.reqs[a].id < |h.heads| { assert ReqOk(s, h, a); }
  }

  lemma SubmitReq(s: Disk, h: History, b: nat, i0: nat, i1: nat, i2: nat, a: nat)
    requires Inv(s, h) && CanSubmit(s, h, b, i0, i1, i2) && (a in h.reqs || a == i0)
    ensures ReqOk(Submit(s, b, i0, i1, i2), Submitted(h, b, i0, i1, i2), a)
  {
    SubmitRings(s, h, b, i0, i1, i2);
    PhaseOf(s, h, i0);
    assert |h.heads| !in h.finished;
    if a in h.reqs {
      assert ReqOk(s, h, a);
      assert DescOk(s, h, i0) && DescOk(s, h, i1) && DescOk(s, h, i2);
      SubmitOld(s, h, b, i0, i1, i2, a);
    } else {
      hide Inv, Rings, Phases;
    }
  }

  lemma SubmitOld(s: Disk, h: History, b: nat, i0: nat, i1: nat, i2: nat, a: nat)
    requires Shaped(s, h) && |s.avail| == NUM && CanSubmit(s, h, b, i0, i1, i2) && a in h.reqs && ReqOk(s, h, a)
    requires h.owner[i0].None? && h.owner[i1].None? && h.owner[i2].None? && a != i0
    ensures ReqOk(Submit(s, b, i0, i1, i2), Submitted(h, b, i0, i1, i2), a)
  {
    var r := h.reqs[a];
    assert i0 != r.i1 && i0 != r.i2 && i1 != a && i1 != r.i1 && i1 != r.i2 && i2 != a && i2 != r.i1 && i2 != r.i2;
  }

  lemma SubmitDesc(s: Disk, h: History, b: nat, i0: nat, i1: nat, i2: nat, i: nat)
    requires Inv(s, h) && CanSubmit(s, h, b, i0, i1, i2) && i < NUM
    ensures DescOk(Submit(s, b, i0, i1, i2), Submitted(h, b, i0, i1, i2), i)
  {
    assert DescOk(s, h, i);
    SubmitRings(s, h, b, i0, i1, i2);
    hide Inv, Rings;
  }

  lemma PhaseOf(s: Disk, h: History, a: nat)
    requires Phases(s, h) && a !in h.reqs
    ensures a !in h.queued && a !in s.working && a !in h.done && a !in h.woken
  {
  }

  lemma SubmitPhases(s: Disk, h: History, i0: nat, g: History)
    requires Phases(s, h) && i0 !in h.reqs
    requires g.reqs.Keys == h.reqs.Keys + {i0} && g.queued == h.queued + [i0] && g.done == h.done && g.woken == h.woken
    ensures Phases(s, g)
  {
    Seqs.DistinctConcat(h.queued, [i0]);
    hide Seqs.Distinct;
    assert forall a :: a in g.queued <==> a in h.queued || a == i0;
    forall a ensures a in g.reqs <==> a in g.queued || a in s.working || a in g.done || a in g.woken {
      assert a in g.reqs <==> a in h.reqs || a == i0;
    }
  }

  // The device takes the next chain from the avail ring.
  function Fetch(s: Disk): Disk
    requires |s.avail| == NUM
  {
    s.(working := s.working + {s.avail[s.last % NUM]}, last := Inc(s.last))
  }

  ghost function Fetched(h: History): History
    requires |h.queued| > 0
  {
    h.(queued := h.queued[1..])
  }

  lemma FetchKeeps(s: Disk, h: History)
    requires Inv(s, h) && s.last != s.availIdx
    ensures |h.queued| > 0 && Inv(Fetch(s), Fetched(h))
  {
    AheadMoves(s.last, s.availIdx, |h.queued|);
    WindowPop(s.avail, s.last, s.availIdx, h.queued);
    var t, g := Fetch(s), Fetched(h);
    var a0 := h.queued[0];
    assert h.queued == [a0] + g.queued;
    FetchPhases(s, h, t, g, a0);
    hide Rings, Phases, Window, Ahead;
    forall a | a in g.reqs ensures ReqOk(t, g, a) { assert ReqOk(s, h, a); }
    forall i: nat | i < NUM ensures DescOk(t, g, i) { assert DescOk(s, h, i); }
    assert Rings(t, g) by { FetchRings(s, h); }
  }

  lemma FetchRings(s: Disk, h: History)
    requires Rings(s, h) && |h.queued| > 0
    ensures |s.avail| == NUM && Rings(Fetch(s), Fetched(h))
  {
    WindowPop(s.avail, s.last, s.availIdx, h.queued);
  }

  lemma FetchPhases(s: Disk, h: History, t: Disk, g: History, a0: nat)
    requires Phases(s, h) && h.queued == [a0] + g.queued
    requires g == h.(queued := g.queued) && t.working == s.working + {a0}
    ensures Phases(t, g)
  {
    assert h.queued[0] == a0 && forall k :: 0 <= k < |g.queued| ==> g.queued[k] == h.queued[k + 1];
    assert a0 in h.queued;
    assert forall k :: 0 <= k < |g.queued| ==> g.queued[k] != a0;
    assert forall a :: a in h.queued <==> a == a0 || a in g.queued;
  }

  // The device is done with the chain a: it writes the status and a used ring entry.
  function Complete(s: Disk, a: nat): Disk
    requires |s.used| == |s.info| == NUM && a < NUM
  {
    s.(info := s.info[a := s.info[a].(status := 0)], used := s.used[s.usedIdx % NUM := a],
       usedIdx := Inc(s.usedIdx), working := s.working - {a})
  }

  ghost function Completed(h: History, a: nat): History {
    h.(done := h.done + [a])
  }

  lemma CompleteKeeps(s: Disk, h: History, a: nat)
    requires Inv(s, h) && a in s.working
    ensures a < NUM && |h.done| < NUM && Inv(Complete(s, a), Completed(h, a))
  {
    assert a in h.reqs && ReqOk(s, h, a);
    CompleteRings(s, h, a);
    var t, g := Complete(s, a), Completed(h, a);
    CompletePhases(s, h, t, g, a);
    hide Rings, Phases;
    forall x | x in g.reqs ensures ReqOk(t, g, x) { assert ReqOk(s, h, x); }
    forall i: nat | i < NUM ensures DescOk(t, g, i) { assert DescOk(s, h, i); }
  }

  lemma CompleteRings(s: Disk, h: History, a: nat)
    requires Inv(s, h) && a in s.working && a < NUM
    ensures |h.done| < NUM && Rings(Complete(s, a), Completed(h, a))
  {
    Seqs.DistinctConcat(h.done, [a]);
    var all := h.done + [a];
    forall i | 0 <= i < |all| ensures 0 <= all[i] < NUM {
      if i < |h.done| { assert all[i] in h.done && ReqOk(s, h, all[i]); }
    }
    Seqs.Pigeonhole(all, NUM);
    WindowPush(s.used, s.seen, s.usedIdx, h.done, a);
  }

  lemma CompletePhases(s: Disk, h: History, t: Disk, g: History, a: nat)
    requires Phases(s, h) && a in s.working && t.working == s.working - {a} && g == h.(done := h.done + [a])
    ensures Phases(t, g)
  {
    Seqs.DistinctConcat(h.done, [a]);
    assert forall x :: x in g.done <==> x in h.done || x == a;
  }

  // One turn of the loop in virtio_disk_intr(): None is its panic.
  function Intr(s: Disk): Option<Disk>
    requires |s.used| == |s.info| == NUM
  {
    var id := s.used[s.seen % NUM];
    if id >= NUM || s.info[id].status != 0 || s.info[id].b.None? then None
    else Some(s.(busy := s.busy - {s.info[id].b.value}, seen := Inc(s.seen)))
  }

  ghost function Woke(h: History): History
    requires |h.done| > 0 && h.done[0] in h.reqs
  {
    h.(done := h.done[1..], woken := h.woken + {h.done[0]}, finished := h.finished + [h.reqs[h.done[0]].id])
  }

  // The handler finds a completed request that it has not seen, with its buffer.
  lemma IntrFinds(s: Disk, h: History)
    requires Inv(s, h) && s.seen != s.usedIdx
    ensures |h.done| > 0 && h.done[0] in h.reqs && s.used[s.seen % NUM] == h.done[0] < NUM
    ensures var r := h.reqs[h.done[0]];
            && s.info[h.done[0]] == Info(Some(r.b), 0) && r.id !in h.finished && h.done[0] !in h.woken
            && Intr(s) == Some(s.(busy := s.busy - {r.b}, seen := Inc(s.seen)))
  {
    AheadMoves(s.seen, s.usedIdx, |h.done|);
    WindowPop(s.used, s.seen, s.usedIdx, h.done);
    assert h.done[0] in h.done;
    assert ReqOk(s, h, h.done[0]);
  }

  lemma IntrKeeps(s: Disk, h: History)
    requires Inv(s, h) && s.seen != s.usedIdx
    ensures Intr(s).Some? && |h.done| > 0 && h.done[0] in h.reqs && Inv(Intr(s).value, Woke(h))
  {
    IntrFinds(s, h);
    var t, g := Intr(s).value, Woke(h);
    var a0 := h.done[0];
    assert h.done == [a0] + g.done;
    IntrPhases(s, h, t, g, a0);
    WindowPop(s.used, s.seen, s.usedIdx, h.done);
    assert Rings(t, g) by { hide Window, Ahead; }
    assert Serial(g) by { IntrSerial(s, h); }
    assert Accounted(g);
    hide Rings, Phases, Serial, Accounted;
    forall a | a in g.reqs ensures ReqOk(t, g, a) { IntrReq(s, h, a); }
    forall i: nat | i < NUM ensures DescOk(t, g, i) { assert DescOk(s, h, i); }
  }

  lemma IntrSerial(s: Disk, h: History)
    requires Inv(s, h) && |h.done| > 0 && h.done[0] in h.reqs && h.reqs[h.done[0]].id !in h.finished
    ensures Serial(Woke(h))
  {
    assert ReqOk(s, h, h.done[0]);
    Seqs.DistinctConcat(h.finished, [h.reqs[h.done[0]].id]);
  }

  lemma IntrReq(s: Disk, h: History, a: nat)
    requires Inv(s, h) && s.seen != s.usedIdx && a in h.reqs
    ensures Intr(s).Some? && |h.done| > 0 && h.done[0] in h.reqs && ReqOk(Intr(s).value, Woke(h), a)
  {
    IntrFinds(s, h);
    assert ReqOk(s, h, a);
    var a0 := h.done[0];
    assert a != a0 ==> h.reqs[a].id != h.reqs[a0].id && h.reqs[a].b != h.reqs[a0].b;
    assert forall k :: 1 <= k < |h.done| ==> h.done[k] != a0;
    assert forall x :: x in h.done[1..] ==> x in h.done && x != a0;
    hide Inv, Phases, Rings, Intr;
  }

  lemma IntrPhases(s: Disk, h: History, t: Disk, g: History, a0: nat)
    requires Phases(s, h) && h.done == [a0] + g.done && t.working == s.working
    requires g.reqs == h.reqs && g.queued == h.queued && g.woken == h.woken + {a0}
    ensures Phases(t, g)
  {
    assert h.done[0] == a0 && forall k :: 0 <= k < |g.done| ==> g.done[k] == h.done[k + 1];
    assert a0 in h.done;
    assert forall k :: 0 <= k < |g.done| ==> g.done[k] != a0;
    assert forall a :: a in h.done <==> a == a0 || a in g.done;
  }

  // The end of virtio_disk_rw(): the chain from a is freed.
  function Finish(s: Disk, a: nat, i1: nat, i2: nat): Disk
    requires |s.free| == |s.desc| == |s.info| == NUM && a < NUM && i1 < NUM && i2 < NUM
  {
    s.(info := s.info[a := s.info[a].(b := None)],
       free := s.free[a := true][i1 := true][i2 := true],
       desc := s.desc[a := Desc(0, false)][i1 := Desc(0, false)][i2 := Desc(0, false)])
  }

  ghost function Finished(h: History, a: nat): History
    requires a in h.reqs && |h.owner| == NUM && a < NUM && h.reqs[a].i1 < NUM && h.reqs[a].i2 < NUM
  {
    h.(reqs := h.reqs - {a}, owner := h.owner[a := None][h.reqs[a].i1 := None][h.reqs[a].i2 := None],
       woken := h.woken - {a})
  }

  lemma FinishKeeps(s: Disk, h: History, a: nat)
    requires Inv(s, h) && a in h.woken
    ensures a in h.reqs && ReqOk(s, h, a)
    ensures Inv(Finish(s, a, h.reqs[a].i1, h.reqs[a].i2), Finished(h, a))
  {
    hide Rings, Phases, Serial, DescOk, ReqOk, Accounted;
    WokenReq(s, h, a);
    var t, g := Finish(s, a, h.reqs[a].i1, h.reqs[a].i2), Finished(h, a);
    FinishPhases(s, h, a, g);
    PhasesSame(s, t, g);
    FinishRings(s, h, t, g);
    FinishSerial(h, a, g);
    forall x | x in g.reqs ensures ReqOk(t, g, x) { FinishReq(s, h, a, x); }
    forall i: nat | i < NUM ensures DescOk(t, g, i) { FinishDesc(s, h, a, i); }
  }

  lemma WokenReq(s: Disk, h: History, a: nat)
    requires Inv(s, h) && a in h.woken
    ensures a in h.reqs && ReqOk(s, h, a) && h.reqs[a].id in h.finished
    ensures a < NUM && h.reqs[a].i1 < NUM && h.reqs[a].i2 < NUM
  {
    assert a in h.reqs && ReqOk(s, h, a);
  }

  lemma PhasesSame(s: Disk, t: Disk, g: History)
    requires Phases(s, g) && t.working == s.working
    ensures Phases(t, g)
  {
  }

  lemma FinishSerial(h: History, a: nat, g: History)
    requires Serial(h) && Accounted(h) && a in h.reqs && h.reqs[a].id in h.finished
    requires g.reqs == h.reqs - {a} && g.finished == h.finished && g.heads == h.heads
    ensures Serial(g) && Accounted(g)
  {
    hide Seqs.Distinct;
  }

  lemma FinishRings(s: Disk, h: History, t: Disk, g: History)
    requires Rings(s, h) && g.queued == h.queued && g.done == h.done
    requires t.avail == s.avail && t.last == s.last && t.availIdx == s.availIdx
    requires t.used == s.used && t.seen == s.seen && t.usedIdx == s.usedIdx
    ensures Rings(t, g)
  {
  }

  lemma FinishPhases(s: Disk, h: History, a: nat, g: History)
    requires Phases(s, h) && a in h.woken
    requires g.reqs.Keys == h.reqs.Keys - {a} && g.queued == h.queued && g.done == h.done && g.woken == h.woken - {a}
    ensures Phases(s, g)
  {
    hide Seqs.Distinct;
    forall x ensures x in g.reqs <==> x in g.queued || x in s.working || x in g.done || x in g.woken {
      assert x in g.reqs <==> x in h.reqs && x != a;
    }
  }

  lemma FinishReq(s: Disk, h: History, a: nat, x: nat)
    requires Inv(s, h) && a in h.woken && x in h.reqs && x != a && a in h.reqs && ReqOk(s, h, a)
    ensures ReqOk(Finish(s, a, h.reqs[a].i1, h.reqs[a].i2), Finished(h, a), x)
  {
    assert ReqOk(s, h, x);
    hide Inv, Phases, Rings;
    var q, r := h.reqs[a], h.reqs[x];
    assert x != q.i1 && x != q.i2 && r.i1 != a && r.i1 != q.i1 && r.i1 != q.i2;
    assert r.i2 != a && r.i2 != q.i1 && r.i2 != q.i2;
  }

  lemma FinishDesc(s: Disk, h: History, a: nat, i: nat)
    requires Inv(s, h) && a in h.woken && a in h.reqs && ReqOk(s, h, a) && i < NUM
    ensures DescOk(Finish(s, a, h.reqs[a].i1, h.reqs[a].i2), Finished(h, a), i)
  {
    assert DescOk(s, h, i);
    hide Inv, Phases, Rings;
  }

  // ---------- whole runs ----------

  datatype Event =
    | DoSubmit(b: nat, i0: nat, i1: nat, i2: nat) | DoFetch | DoComplete(a: nat) | DoIntr | DoFinish(a: nat)

  datatype State = State(s: Disk, h: History)

  // After virtio_disk_init().
  ghost predicate Start(x: State) {
    && |x.s.free| == |x.s.desc| == |x.s.info| == |x.s.avail| == |x.s.used| == NUM
    && (forall i :: 0 <= i < NUM ==> x.s.free[i] && x.s.desc[i] == Desc(0, false))
    && x.s.availIdx == x.s.usedIdx == x.s.seen == x.s.last == 0 && x.s.busy == {} && x.s.working == {}
    && x.h == History(map[], [None, None, None, None, None, None, None, None], [], [], {}, [], [])
  }

  ghost predicate Next(x: State, e: Event, y: State) {
    match e
    case DoSubmit(b, i0, i1, i2) =>
      && CanSubmit(x.s, x.h, b, i0, i1, i2) && |x.s.desc| == |x.s.info| == |x.s.avail| == |x.h.owner| == NUM
      && y == State(Submit(x.s, b, i0, i1, i2), Submitted(x.h, b, i0, i1, i2))
    case DoFetch =>
      && x.s.last != x.s.availIdx && |x.s.avail| == NUM && |x.h.queued| > 0
      && y == State(Fetch(x.s), Fetched(x.h))
    case DoComplete(a) =>
      && a in x.s.working && a < NUM && |x.s.used| == |x.s.info| == NUM
      && y == State(Complete(x.s, a), Completed(x.h, a))
    case DoIntr =>
      && x.s.seen != x.s.usedIdx && |x.s.used| == |x.s.info| == NUM && Intr(x.s).Some?
      && |x.h.done| > 0 && x.h.done[0] in x.h.reqs && y == State(Intr(x.s).value, Woke(x.h))
    case DoFinish(a) =>
      && a in x.h.woken && Shaped(x.s, x.h) && a in x.h.reqs && ReqOk(x.s, x.h, a)
      && y == State(Finish(x.s, a, x.h.reqs[a].i1, x.h.reqs[a].i2), Finished(x.h, a))
  }

  lemma NextKeeps(x: State, e: Event, y: State)
    requires Inv(x.s, x.h) && Next(x, e, y)
    ensures Inv(y.s, y.h)
  {
    hide Inv;
    match e
    case DoSubmit(b, i0, i1, i2) => SubmitKeeps(x.s, x.h, b, i0, i1, i2);
    case DoFetch => FetchKeeps(x.s, x.h);
    case DoComplete(a) => CompleteKeeps(x.s, x.h, a);
    case DoIntr => IntrKeeps(x.s, x.h);
    case DoFinish(a) => FinishKeeps(x.s, x.h, a);
  }

  ghost predicate IsRun(run: seq<State>, events: seq<Event>) {
    && |run| == |events| + 1 && Start(run[0])
    && forall n: nat :: n < |events| ==> Next(run[n], events[n], run[n + 1])
  }

  lemma {:induction false} RunKeeps(run: seq<State>, events: seq<Event>, n: nat)
    requires IsRun(run, events) && n < |run|
    ensures Inv(run[n].s, run[n].h)
  {
    if n > 0 {
      RunKeeps(run, events, n - 1);
      assert Next(run[n - 1], events[n - 1], run[n - 1 + 1]);
      NextKeeps(run[n - 1], events[n - 1], run[n]);
    }
  }

  // Requests in flight own disjoint triples of descriptors, and the others are free.
  lemma ChainsDisjoint(run: seq<State>, events: seq<Event>, n: nat, a: nat, b: nat)
    requires IsRun(run, events) && n < |run| && a in run[n].h.reqs && b in run[n].h.reqs && a != b
    ensures var q, r := run[n].h.reqs[a], run[n].h.reqs[b]; {a, q.i1, q.i2} !! {b, r.i1, r.i2}
  {
    RunKeeps(run, events, n);
    assert ReqOk(run[n].s, run[n].h, a) && ReqOk(run[n].s, run[n].h, b);
  }

  lemma FreeExactly(run: seq<State>, events: seq<Event>, n: nat, i: nat)
    requires IsRun(run, events) && n < |run| && i < NUM
    ensures |run[n].s.free| == NUM
    ensures run[n].s.free[i] <==>
      forall a :: a in run[n].h.reqs ==> i != a && i != run[n].h.reqs[a].i1 && i != run[n].h.reqs[a].i2
  {
    var s, h := run[n].s, run[n].h;
    RunKeeps(run, events, n);
    assert DescOk(s, h, i);
    forall a | a in h.reqs && (i == a || i == h.reqs[a].i1 || i == h.reqs[a].i2) ensures !s.free[i] {
      assert ReqOk(s, h, a);
    }
  }

  // Entry i of the ring is v, before and after.
  predicate Holds(before: seq<nat>, after: seq<nat>, i: nat, v: nat) {
    i < |before| && i < |after| && before[i] == after[i] == v
  }

  // Whatever the order of completions, the driver and the device overwrite no ring entry that the
  // other has still to read.
  lemma NothingOverwritten(run: seq<State>, events: seq<Event>, n: nat, k: nat)
    requires IsRun(run, events) && n < |events|
    ensures var x, y := run[n], run[n + 1];
            && (k < |x.h.queued| && events[n] != DoFetch ==>
                  Holds(x.s.avail, y.s.avail, Slot(x.s.last, k), x.h.queued[k]))
            && (k < |x.h.done| && events[n] != DoIntr ==>
                  Holds(x.s.used, y.s.used, Slot(x.s.seen, k), x.h.done[k]))
  {
    var x, y := run[n], run[n + 1];
    RunKeeps(run, events, n);
    assert Next(x, events[n], y);
    if events[n].DoSubmit? {
      SubmitRings(x.s, x.h, events[n].b, events[n].i0, events[n].i1, events[n].i2);
      WindowPush(x.s.avail, x.s.last, x.s.availIdx, x.h.queued, events[n].i0);
    } else if events[n].DoComplete? {
      CompleteRings(x.s, x.h, events[n].a);
      WindowPush(x.s.used, x.s.seen, x.s.usedIdx, x.h.done, events[n].a);
    }
  }

  // The handler never panics: what it finds is a request that it sees for the first time.
  lemma IntrNeverPanics(run: seq<State>, events: seq<Event>, n: nat)
    requires IsRun(run, events) && n < |run| && run[n].s.seen != run[n].s.usedIdx
    ensures |run[n].s.used| == |run[n].s.info| == NUM && Intr(run[n].s).Some?
    ensures |run[n].h.done| > 0 && run[n].h.done[0] in run[n].h.reqs
    ensures run[n].h.reqs[run[n].h.done[0]].id !in run[n].h.finished
  {
    RunKeeps(run, events, n);
    IntrFinds(run[n].s, run[n].h);
  }

  // Every request completes exactly once: no serial number is seen twice, and once nothing is
  // outstanding each has been seen.
  lemma ExactlyOnce(run: seq<State>, events: seq<Event>, n: nat)
    requires IsRun(run, events) && n < |run|
    ensures Seqs.Distinct(run[n].h.finished)
    ensures run[n].h.reqs == map[] ==> forall id: nat :: id in run[n].h.finished <==> id < |run[n].h.heads|
  {
    RunKeeps(run, events, n);
  }

  // A request for the buffer that the handler has not seen completed.
  ghost predicate InFlight(h: History, a: nat, b: nat) {
    a in h.reqs && h.reqs[a].b == b && a !in h.woken
  }

  ghost predicate BusyInFlight(x: State) {
    forall b: nat :: b in x.s.busy ==> exists a: nat :: InFlight(x.h, a, b)
  }

  lemma NextBusy(x: State, e: Event, y: State)
    requires Inv(x.s, x.h) && Next(x, e, y) && BusyInFlight(x)
    ensures BusyInFlight(y)
  {
    if e.DoSubmit? {
      SubmitRings(x.s, x.h, e.b, e.i0, e.i1, e.i2);
      assert InFlight(y.h, e.i0, e.b);
    }
    forall b: nat | b in y.s.busy && b in x.s.busy ensures exists a: nat :: InFlight(y.h, a, b) {
      var a: nat :| InFlight(x.h, a, b);
      StaysInFlight(x, e, y, a, b);
    }
  }

  lemma StaysInFlight(x: State, e: Event, y: State, a: nat, b: nat)
    requires Inv(x.s, x.h) && Next(x, e, y) && InFlight(x.h, a, b) && b in y.s.busy
    ensures InFlight(y.h, a, b)
  {
    match e
    case DoSubmit(c, i0, i1, i2) => SubmitRings(x.s, x.h, c, i0, i1, i2);
    case DoIntr => IntrFinds(x.s, x.h);
    case _ =>
  }

  // b->disk is set exactly while a request for the buffer is in flight: the wait of
  // virtio_disk_rw() ends when the handler has seen that request, and not before.
  lemma BusyExactly(run: seq<State>, events: seq<Event>, n: nat, b: nat)
    requires IsRun(run, events) && n < |run|
    ensures b in run[n].s.busy <==> exists a: nat :: InFlight(run[n].h, a, b)
  {
    RunBusy(run, events, n);
    RunKeeps(run, events, n);
    forall a: nat | InFlight(run[n].h, a, b) ensures b in run[n].s.busy { assert ReqOk(run[n].s, run[n].h, a); }
  }

  lemma {:induction false} RunBusy(run: seq<State>, events: seq<Event>, n: nat)
    requires IsRun(run, events) && n < |run|
    ensures BusyInFlight(run[n])
  {
    if n > 0 {
      RunBusy(run, events, n - 1);
      RunKeeps(run, events, n - 1);
      assert Next(run[n - 1], events[n - 1], run[n - 1 + 1]);
      NextBusy(run[n - 1], events[n - 1], run[n]);
    }
  }
}
