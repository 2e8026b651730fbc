/**
 The driver half of kernel/virtio_disk.c as methods that update one Disk value: alloc_desc(),
 free_desc(), free_chain(), alloc3_desc(), virtio_disk_rw() on both sides of its wait, and
 virtio_disk_intr(); and the device.
 */
module VirtioCode {
  import opened Options
  import Seqs
  import opened VirtioModel

  // How many descriptors are free from k on.
  function Count(free: seq<bool>, k: nat): nat
    requires k <= |free|
    decreases |free| - k
  {
    if k == |free| then 0 else (if free[k] then 1 else 0) + Count(free, k + 1)
  }

  lemma {:induction false} CountUpdate(free: seq<bool>, i: nat, k: nat, v: bool)
    requires i < |free| && k <= |free|
    ensures Count(free[i := v], k) ==
            Count(free, k) + (if k <= i then (if v then 1 else 0) - (if free[i] then 1 else 0) else 0)
    decreases |free| - k
  {
    if k < |free| { CountUpdate(free, i, k + 1, v); }
  }

  lemma {:induction false} CountNone(free: seq<bool>, k: nat)
    requires k <= |free| && forall j :: k <= j < |free| ==> !free[j]
    ensures Count(free, k) == 0
    decreases |free| - k
  {
    if k < |free| { CountNone(free, k + 1); }
  }

  lemma StartOk(x: State)
    requires VirtioModel.Start(x)
    ensures Inv(x.s, x.h)
  {
    RunKeeps([x], [], 0);
  }

  // What the device does while the driver runs.
  datatype DeviceAct = TakeNext | Complete(head: nat)

  class Driver {
    var disk: Disk
    ghost var hist: History

    ghost predicate Valid()
      reads this
    {
      Inv(disk, hist)
    }

    // virtio_disk_init()
    constructor ()
      ensures VirtioModel.Start(State(disk, hist)) && Valid()
    {
      var zeros := [0, 0, 0, 0, 0, 0, 0, 0];
      disk := Disk(seq(NUM, i => true), seq(NUM, i => Desc(0, false)), zeros, 0, zeros, 0, 0,
                   seq(NUM, i => Info(None, 0)), {}, 0, {});
      hist := History(map[], [None, None, None, None, None, None, None, None], [], [], {}, [], []);
      new;
      StartOk(State(disk, hist));
    }

    // alloc_desc(): the first free descriptor, or NUM.
    method AllocDesc() returns (i: nat)
      requires |disk.free| == NUM
      modifies this`disk
      ensures i <= NUM && (i < NUM ==> old(disk).free[i] && disk == old(disk).(free := old(disk).free[i := false]))
      ensures i == NUM ==> disk == old(disk) && Count(disk.free, 0) == 0
    {
      i := 0;
      while i < NUM
        invariant i <= NUM && disk == old(disk) && forall j :: 0 <= j < i ==> !disk.free[j]
      {
        if disk.free[i] {
          disk := disk.(free := disk.free[i := false]);
          return;
        }
        i := i + 1;
      }
      CountNone(disk.free, 0);
    }

    // free_desc() of a descriptor in use.
    method FreeDesc(i: nat)
      requires |disk.free| == |disk.desc| == NUM && i < NUM && !disk.free[i]
      modifies this`disk
      ensures disk == old(disk).(desc := old(disk).desc[i := Desc(0, false)], free := old(disk).free[i := true])
    {
      disk := disk.(desc := disk.desc[i := Desc(0, false)]);
      disk := disk.(free := disk.free[i := true]);
    }

    // alloc3_desc() gives back what it got; d is the disk before.
    method Undo(idx: seq<nat>, ghost d: Disk)
      requires |disk.free| == |disk.desc| == |d.free| == NUM && disk == d.(free := disk.free)
      requires forall k :: 0 <= k < |idx| ==> idx[k] < NUM && d.free[idx[k]] && !disk.free[idx[k]]
      requires forall k :: 0 <= k < |idx| ==> d.desc[idx[k]] == Desc(0, false)
      requires Seqs.Distinct(idx) && forall j :: 0 <= j < NUM && j !in idx ==> disk.free[j] == d.free[j]
      modifies this`disk
      ensures disk == d
    {
      var j := 0;
      while j < |idx|
        invariant j <= |idx| && |disk.free| == NUM && disk == d.(free := disk.free)
        invariant forall k :: 0 <= k < j ==> disk.free[idx[k]]
        invariant forall k :: j <= k < |idx| ==> !disk.free[idx[k]]
        invariant forall i :: 0 <= i < NUM && i !in idx ==> disk.free[i] == d.free[i]
      {
        FreeDesc(idx[j]);
        assert disk.desc == d.desc;
        j := j + 1;
      }
      assert disk.free == d.free;
    }

    // alloc3_desc(): three free descriptors, or none if there are not three.
    method Alloc3() returns (ok: bool, i0: nat, i1: nat, i2: nat)
      requires |disk.free| == |disk.desc| == NUM
      requires forall i :: 0 <= i < NUM && disk.free[i] ==> disk.desc[i] == Desc(0, false)
      modifies this`disk
      ensures ok <==> Count(old(disk).free, 0) >= 3
      ensures !ok ==> disk == old(disk)
      ensures ok ==> i0 < NUM && i1 < NUM && i2 < NUM && i0 != i1 && i0 != i2 && i1 != i2
                     && old(disk).free[i0] && old(disk).free[i1] && old(disk).free[i2]
                     && disk == old(disk).(free := old(disk).free[i0 := false][i1 := false][i2 := false])
    {
      ghost var d := disk;
      var idx: seq<nat> := [];
      var i := 0;
      while i < 3
        invariant i == |idx| <= 3 && |disk.free| == NUM && disk == d.(free := disk.free)
        invariant forall k :: 0 <= k < i ==> idx[k] < NUM && d.free[idx[k]] && !disk.free[idx[k]]
        invariant Seqs.Distinct(idx)
        invariant forall j :: 0 <= j < NUM && j !in idx ==> disk.free[j] == d.free[j]
        invariant Count(disk.free, 0) == Count(d.free, 0) - i
      {
        ghost var f := disk.free;
        var k := AllocDesc();
        if k == NUM {
          Undo(idx, d);
          return false, 0, 0, 0;
        }
        CountUpdate(f, k, 0, false);
        idx := idx + [k];
        i := i + 1;
      }
      i0, i1, i2 := idx[0], idx[1], idx[2];
      assert disk.free == d.free[i0 := false][i1 := false][i2 := false];
      ok := true;
    }

    // virtio_disk_rw() up to its wait: false if it has to sleep for descriptors.
    method Start(b: nat) returns (ok: bool, i0: nat)
      requires Valid() && forall a :: a in hist.reqs ==> hist.reqs[a].b != b
      modifies this
      ensures Valid() && (ok <==> Count(old(disk).free, 0) >= 3)
      ensures !ok ==> disk == old(disk) && hist == old(hist)
      ensures ok ==> i0 in hist.reqs && i0 !in old(hist).reqs && hist.reqs[i0].b == b
                     && Next(State(old(disk), old(hist)), DoSubmit(b, i0, hist.reqs[i0].i1, hist.reqs[i0].i2),
                             State(disk, hist))
    {
      ghost var s, h := disk, hist;
      assert forall i: nat :: i < NUM && s.free[i] ==> DescOk(s, h, i);
      var i1, i2;
      ok, i0, i1, i2 := Alloc3();
      if !ok { return; }
      SubmitRings(s, h, b, i0, i1, i2);
      SubmitKeeps(s, h, b, i0, i1, i2);
      disk := disk.(desc := disk.desc[i0 := Desc(i1, true)]);
      disk := disk.(desc := disk.desc[i1 := Desc(i2, true)]);
      disk := disk.(desc := disk.desc[i2 := Desc(0, false)]);
      disk := disk.(info := disk.info[i0 := Info(Some(b), PENDING)], busy := disk.busy + {b});
      disk := disk.(avail := disk.avail[disk.availIdx % NUM := i0]);
      disk := disk.(availIdx := Inc(disk.availIdx));
      hist := Submitted(h, b, i0, i1, i2);
    }

    // free_chain(): frees the three descriptors of a's chain; neither panic of free_desc() is reached.
    method FreeChain(a: nat, ghost i1: nat, ghost i2: nat)
      requires |disk.free| == |disk.desc| == NUM && a < NUM && i1 < NUM && i2 < NUM
      requires a != i1 && a != i2 && i1 != i2 && !disk.free[a] && !disk.free[i1] && !disk.free[i2]
      requires disk.desc[a] == Desc(i1, true) && disk.desc[i1] == Desc(i2, true) && !disk.desc[i2].more
      modifies this`disk
      ensures var d := old(disk);
              disk == d.(free := d.free[a := true][i1 := true][i2 := true],
                         desc := d.desc[a := Desc(0, false)][i1 := Desc(0, false)][i2 := Desc(0, false)])
    {
      ghost var d := disk;
      ghost var chain := [a, i1, i2];
      ghost var k: nat := 0;
      var i := a;
      while true
        invariant k < 3 && i == chain[k] && |disk.free| == |disk.desc| == NUM
        invariant forall m :: k <= m < 3 ==> !disk.free[chain[m]] && disk.desc[chain[m]] == d.desc[chain[m]]
        invariant k == 0 ==> disk == d
        invariant k == 1 ==> disk == d.(free := d.free[a := true], desc := d.desc[a := Desc(0, false)])
        invariant k == 2 ==> disk == d.(free := d.free[a := true][i1 := true],
                                        desc := d.desc[a := Desc(0, false)][i1 := Desc(0, false)])
        decreases 3 - k
      {
        var more, next := disk.desc[i].more, disk.desc[i].next;
        FreeDesc(i);
        if !more { break; }
        i := next;
        k := k + 1;
      }
    }

    // The end of virtio_disk_rw(), once b->disk is clear.
    method End(a: nat)
      requires Valid() && a in hist.woken
      modifies this
      ensures Valid() && Next(State(old(disk), old(hist)), DoFinish(a), State(disk, hist))
    {
      ghost var s, h := disk, hist;
      FinishKeeps(s, h, a);
      ghost var r := h.reqs[a];
      assert DescOk(s, h, a) && DescOk(s, h, r.i1) && DescOk(s, h, r.i2);
      hide Inv;
      disk := disk.(info := disk.info[a := disk.info[a].(b := None)]);
      FreeChain(a, r.i1, r.i2);
      hist := Finished(h, a);
    }

    // virtio_disk_intr(), while the device does device[t] at turn t: when it returns it has seen
    // every request that the device has done, each once.
    method Interrupt(device: seq<seq<DeviceAct>>)
      requires Valid()
      modifies this
      ensures Valid() && disk.seen == disk.usedIdx && hist.done == [] && hist.reqs == old(hist).reqs
      ensures forall a :: a in hist.woken <==> a in hist.reqs && a !in hist.queued && a !in disk.working
      ensures old(hist).woken <= hist.woken && forall a :: a in old(hist).done ==> a in hist.woken
      ensures |hist.finished| - |old(hist).finished| == |hist.woken| - |old(hist).woken|
    {
      var t := 0;
      while disk.seen != disk.usedIdx
        invariant 0 <= t <= |device| && Valid() && hist.reqs == old(hist).reqs && old(hist).woken <= hist.woken
        invariant forall a :: a in old(hist).done ==> a in hist.woken || a in hist.done
        invariant |hist.finished| - |old(hist).finished| == |hist.woken| - |old(hist).woken|
        decreases |device| - t, |hist.done|
      {
        if t < |device| {
          AheadMoves(disk.seen, disk.usedIdx, |hist.done|);
          DeviceWork(device[t]);
          t := t + 1;
          AheadMoves(disk.seen, disk.usedIdx, |hist.done|);
        }
        SeeOne();
      }
      AheadMoves(disk.seen, disk.usedIdx, |hist.done|);
    }

    // One turn of the handler's loop.
    method SeeOne()
      requires Valid() && disk.seen != disk.usedIdx
      modifies this
      ensures Valid() && Next(State(old(disk), old(hist)), DoIntr, State(disk, hist))
      ensures |old(hist).done| > 0 && old(hist).done[0] in old(hist).reqs && hist == Woke(old(hist))
      ensures old(hist).done[0] !in old(hist).woken
    {
      IntrFinds(disk, hist);
      IntrKeeps(disk, hist);
      hide Inv;
      var id := disk.used[disk.seen % NUM];
      assert disk.info[id].status == 0;
      var b := disk.info[id].b.value;
      disk := disk.(busy := disk.busy - {b});
      disk := disk.(seen := Inc(disk.seen));
      assert hist.done == [hist.done[0]] + hist.done[1..];
      hist := Woke(hist);
    }

    // The device takes chains and completes chains, where it can.
    method DeviceWork(acts: seq<DeviceAct>)
      requires Valid()
      modifies this
      ensures Valid() && disk.seen == old(disk).seen && hist.reqs == old(hist).reqs
      ensures hist.woken == old(hist).woken && hist.finished == old(hist).finished
      ensures |old(hist).done| <= |hist.done| && forall a :: a in old(hist).done ==> a in hist.done
    {
      for i := 0 to |acts|
        invariant Valid() && disk.seen == old(disk).seen && hist.reqs == old(hist).reqs
        invariant hist.woken == old(hist).woken && hist.finished == old(hist).finished
        invariant |old(hist).done| <= |hist.done| && forall a :: a in old(hist).done ==> a in hist.done
      {
        match acts[i]
        case TakeNext =>
          var got := DeviceFetch();
        case Complete(a) =>
          if a in disk.working { DeviceComplete(a); }
      }
    }

    // The device takes the next chain, if there is one.
    method DeviceFetch() returns (got: bool)
      requires Valid()
      modifies this
      ensures Valid() && (got <==> |old(hist).queued| > 0)
      ensures got ==> Next(State(old(disk), old(hist)), DoFetch, State(disk, hist))
      ensures !got ==> disk == old(disk) && hist == old(hist)
    {
      AheadMoves(disk.last, disk.availIdx, |hist.queued|);
      got := disk.last != disk.availIdx;
      if got {
        FetchKeeps(disk, hist);
        disk, hist := Fetch(disk), Fetched(hist);
      }
    }

    // The device completes any chain it works on.
    method DeviceComplete(a: nat)
      requires Valid() && a in disk.working
      modifies this
      ensures Valid() && Next(State(old(disk), old(hist)), DoComplete(a), State(disk, hist))
    {
      CompleteKeeps(disk, hist, a);
      disk, hist := VirtioModel.Complete(disk, a), Completed(hist, a);
    }
  }
}
