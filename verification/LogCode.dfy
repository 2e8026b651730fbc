/**
 The code of kernel/log.c: loops that read, copy and write blocks, and the counters kept
 under log.lock.  Each method is proved to issue exactly the block writes of RedoLog and to
 take exactly the steps of LogReservation.
 */
module LogCode {
  import opened Options
  import opened Seqs
  import opened RedoLog
  import R = LogReservation

  type Buffers = map<int, Block>

  // `dirty` holds the buffers changed since the last commit; every other cached block equals
  // its disk block.  `pins` are the references held by bpin().
  datatype Memory = Memory(disk: Disk, dirty: Buffers, pins: multiset<int>, c: R.State)

  // Each logged block has one pin and one changed buffer, and nothing else has any.
  ghost predicate Pinned(g: Geometry, dirty: Buffers, pins: multiset<int>, bs: seq<int>) {
    && pins == multiset(bs)
    && dirty.Keys == Elements(bs)
    && forall b :: b in dirty ==> |dirty[b]| == g.words
  }

  ghost predicate ValidMemory(g: Geometry, c: R.Config, m: Memory) {
    && c.logSize == g.logSize && c.nlog == g.nlog
    && ValidDisk(g, m.disk) && Logged(g, m.disk) == []
    && R.Inv(c, m.c) && ValidBlocks(g, m.c.blocks)
    && Pinned(g, m.dirty, m.pins, m.c.blocks)
  }

  // The logged blocks with their cached contents.
  function Contents(bs: seq<int>, dirty: Buffers): (r: seq<Block>)
    requires forall i :: 0 <= i < |bs| ==> bs[i] in dirty
    ensures |r| == |bs|
    ensures forall i :: 0 <= i < |bs| ==> r[i] == dirty[bs[i]]
  {
    if bs == [] then [] else
      var n := |bs| - 1;
      Contents(bs[..n], dirty) + [dirty[bs[n]]]
  }

  ghost function Pending(g: Geometry, m: Memory): Txn
    requires Pinned(g, m.dirty, m.pins, m.c.blocks)
  {
    Txn(m.c.blocks, Contents(m.c.blocks, m.dirty))
  }

  // Every home block as bread() returns it.
  ghost function Visible(g: Geometry, m: Memory): HomeMap {
    map b | 0 <= b < |m.disk| && !g.InLog(b) :: if b in m.dirty then m.dirty[b] else m.disk[b]
  }

  // ---------- effect of the operations on the memory ----------

  lemma VisibleIsOverlay(g: Geometry, c: R.Config, m: Memory)
    requires ValidMemory(g, c, m)
    ensures var t := Pending(g, m);
            ValidTxn(g, t) && Visible(g, m) == Overlay(Home(g, m.disk), t.blocks, t.data)
  {
    hide Overlay, Distinct, Contents, R.Inv;
    var t := Pending(g, m);
    PinnedAre(g, m.dirty, m.pins, m.c.blocks);
    OverlayAt(Home(g, m.disk), t.blocks, t.data);
    hide Pinned, ValidMemory, Logged;
    var h, r := Home(g, m.disk), Overlay(Home(g, m.disk), t.blocks, t.data);
    forall b ensures b in Visible(g, m) <==> b in r { }
    forall b | b in r ensures Visible(g, m)[b] == r[b] {
      if b in t.blocks {
        var i :| 0 <= i < |t.blocks| && t.blocks[i] == b;
        assert r[t.blocks[i]] == t.data[i];
      } else {
        assert r[b] == h[b];
      }
    }
  }

  lemma PinnedAre(g: Geometry, dirty: Buffers, pins: multiset<int>, bs: seq<int>)
    requires Pinned(g, dirty, pins, bs)
    ensures forall b :: b in bs <==> b in dirty
    ensures forall b :: b in dirty ==> |dirty[b]| == g.words
  {
    forall b ensures b in bs <==> b in dirty { assert b in Elements(bs) <==> b in dirty.Keys; }
  }

  /** A commit puts on disk what readers of the cache saw, and readers see no change. */
  lemma CommitKeepsVisible(g: Geometry, c: R.Config, m: Memory)
    requires ValidMemory(g, c, m) && m.c.committing
    ensures var ws := CommitWrites(g, m.disk[g.start], Pending(g, m));
            var m' := Memory(Apply(m.disk, ws), map[], multiset{},
                             m.c.(blocks := [], committing := false));
            && ValidMemory(g, c, m')
            && Home(g, m'.disk) == Visible(g, m') == Visible(g, m)
  {
    hide Apply, Contents, Visible, Home, R.Inv, Distinct;
    var t := Pending(g, m);
    var ws := CommitWrites(g, m.disk[g.start], t);
    VisibleIsOverlay(g, c, m);
    CommitCut(g, m.disk, t, |ws|);
    TakeAll(ws);
    R.CommitKeepsInv(c, m.c);
    EmptyMemory(g, Memory(Apply(m.disk, ws), map[], multiset{}, m.c.(blocks := [], committing := false)));
  }

  lemma BootIsValid(g: Geometry, c: R.Config, d: Disk)
    requires c.logSize == g.logSize && c.nlog == g.nlog && ValidDisk(g, d)
    ensures var m := Memory(Apply(d, RecoveryWrites(g, d)), map[], multiset{}, R.Initial(c));
            ValidMemory(g, c, m) && Visible(g, m) == Durable(g, d)
  {
    RecoveryDone(g, d);
    hide Apply, RecoveryWrites, ValidDisk, Durable, R.Inv;
    EmptyMemory(g, Memory(Apply(d, RecoveryWrites(g, d)), map[], multiset{}, R.Initial(c)));
    InitialInv(c);
  }

  lemma InitialInv(c: R.Config)
    ensures R.Inv(c, R.Initial(c)) && R.Initial(c).blocks == []
  {
    hide R.Inv;
    assert R.Run(c, []) == Some(R.Initial(c));
    R.ReservationHolds(c, []);
  }

  lemma EmptyMemory(g: Geometry, m: Memory)
    requires g.Valid() && m.dirty == map[] && m.pins == multiset{} && m.c.blocks == []
    ensures ValidBlocks(g, m.c.blocks) && Pinned(g, m.dirty, m.pins, m.c.blocks)
    ensures Visible(g, m) == Home(g, m.disk)
  {
  }

  // The memory after log_write() has accepted block b.
  ghost function AfterWrite(m: Memory, p: nat, b: int, data: Block): Memory
    requires p < |m.c.used| && m.c.used[p].Some?
  {
    Memory(m.disk, m.dirty[b := data],
           if b in m.c.blocks then m.pins else m.pins + multiset{b}, R.Appended(m.c, p, b))
  }

  lemma WriteKeepsPinned(g: Geometry, dirty: Buffers, pins: multiset<int>, bs: seq<int>,
                         b: int, data: Block)
    requires Pinned(g, dirty, pins, bs) && |data| == g.words
    ensures b in bs ==> Pinned(g, dirty[b := data], pins, bs)
    ensures b !in bs ==> Pinned(g, dirty[b := data], pins + multiset{b}, bs + [b])
  {
  }

  lemma VisibleWrite(g: Geometry, m: Memory, p: nat, b: int, data: Block)
    requires p < |m.c.used| && m.c.used[p].Some? && 0 <= b < |m.disk| && !g.InLog(b)
    ensures Visible(g, AfterWrite(m, p, b, data)) == Visible(g, m)[b := data]
  {
  }

  lemma WriteKeepsValid(g: Geometry, c: R.Config, m: Memory, p: nat, b: int, data: Block)
    requires ValidMemory(g, c, m) && R.MayAppend(c, m.c, p, b) && !R.LogFull(c, m.c)
    requires 0 <= b < g.size && !g.InLog(b) && |data| == g.words
    ensures ValidMemory(g, c, AfterWrite(m, p, b, data))
    ensures Visible(g, AfterWrite(m, p, b, data)) == Visible(g, m)[b := data]
  {
    R.AppendKeepsInv(c, m.c, p, b);
    WriteKeepsPinned(g, m.dirty, m.pins, m.c.blocks, b, data);
    VisibleWrite(g, m, p, b, data);
    assert ValidBlocks(g, R.Appended(m.c, p, b).blocks);
  }

  // What log_write() stores, with and without absorption.
  lemma WriteStores(g: Geometry, c: R.Config, m: Memory, p: nat, b: int, data: Block)
    requires ValidMemory(g, c, m) && R.MayAppend(c, m.c, p, b)
    ensures R.Outstanding(m.c.used) >= 1
    ensures !R.LogFull(c, m.c) ==> R.Outstanding(AfterWrite(m, p, b, data).c.used) == R.Outstanding(m.c.used)
    ensures b in m.c.blocks ==> AfterWrite(m, p, b, data) == m.(dirty := m.dirty[b := data])
    ensures b !in m.c.blocks ==>
              AfterWrite(m, p, b, data) ==
              Memory(m.disk, m.dirty[b := data], m.pins + multiset{b},
                     m.c.(blocks := m.c.blocks + [b], used := m.c.used[p := Some(m.c.used[p].value + 1)]))
  {
    R.AppendKeepsInv(c, m.c, p, b);
  }

  // The pins install_trans() has yet to drop; a recovery holds none.
  function Left(recovering: bool, lh: seq<int>, tail: nat): seq<int>
    requires tail <= |lh|
  {
    if recovering then [] else lh[tail..]
  }

  lemma Unpin(g: Geometry, dirty: Buffers, pins: multiset<int>, bs: seq<int>, i: nat)
    requires i < |bs| && Distinct(bs) && Pinned(g, dirty, pins, bs[i..])
    ensures Pinned(g, dirty - {bs[i]}, pins - multiset{bs[i]}, bs[i + 1..])
  {
    assert bs[i..] == [bs[i]] + bs[i + 1..];
  }

  // What one turn of write_log() adds to the writes so far.
  lemma LogTurn(g: Geometry, d: Disk, w: seq<Write>, t: Txn, tail: nat)
    requires tail < |t.data|
    ensures var move := Write(g.start + tail + 1, t.data[tail]);
            && Apply(d, LogWrites(g, t, tail + 1)) == Put(Apply(d, LogWrites(g, t, tail)), move)
            && w + LogWrites(g, t, tail + 1) == w + LogWrites(g, t, tail) + [move]
  {
    hide Apply, Put;
    var move := Write(g.start + tail + 1, t.data[tail]);
    ApplySnoc(d, LogWrites(g, t, tail), move);
    Assoc(w, LogWrites(g, t, tail), [move]);
  }

  lemma InstallStart(d: Disk, w: seq<Write>, t: Txn)
    requires |t.data| == |t.blocks|
    ensures Apply(d, InstallWrites(t, 0)) == d && w + InstallWrites(t, 0) == w
  {
  }

  // What one turn of install_trans() adds to the writes so far.
  lemma InstallTurn(g: Geometry, d: Disk, w: seq<Write>, t: Txn, tail: nat)
    requires g.Valid() && |d| == g.size && ValidBlocks(g, t.blocks) && |t.data| == |t.blocks| && tail < |t.blocks|
    requires t.data == Slots(g, d, |t.blocks|)
    ensures var e := Apply(d, InstallWrites(t, tail)); var move := Write(t.blocks[tail], t.data[tail]);
            && Apply(d, InstallWrites(t, tail + 1)) == Put(e, move) && g.start + tail + 1 < |e|
            && w + InstallWrites(t, tail + 1) == w + InstallWrites(t, tail) + [move]
            && e[g.start + tail + 1] == t.data[tail] && 0 <= t.blocks[tail] < |e| && Distinct(t.blocks)
  {
    InstallKeepsLog(g, d, t, tail);
    assert g.InLog(g.start + tail + 1);
    var move := Write(t.blocks[tail], t.data[tail]);
    hide Apply;
    ApplySnoc(d, InstallWrites(t, tail), move);
    Assoc(w, InstallWrites(t, tail), [move]);
  }

  // ---------- the code ----------

  datatype LogWriteResult = Written | PanicTooBig

  class Log {
    const g: Geometry
    const c: R.Config

    var disk: Disk
    var dirty: Buffers
    var pins: multiset<int>
    var lh: seq<int>
    var outstanding: int
    var committing: bool

    // New blocks added by the operation each process is in.
    ghost var used: seq<Option<nat>>
    // Every block write issued since boot.
    ghost var writes: seq<Write>

    ghost function Mem(): Memory
      reads this
    {
      Memory(disk, dirty, pins, R.State(lh, used, committing))
    }

    ghost predicate Valid()
      reads this
    {
      ValidMemory(g, c, Mem()) && outstanding == R.Outstanding(used)
    }

    // initlog(): a machine that has just booted on disk d.
    constructor (g: Geometry, c: R.Config, d: Disk)
      requires c.logSize == g.logSize && c.nlog == g.nlog && ValidDisk(g, d)
      ensures this.g == g && this.c == c
      ensures Valid() && lh == [] && !committing
      ensures writes == RecoveryWrites(g, d) && disk == Apply(d, writes)
      ensures Visible(g, Mem()) == Durable(g, d)
    {
      this.g, this.c := g, c;
      disk, dirty, pins, lh, outstanding, committing := d, map[], multiset{}, [], 0, false;
      used, writes := R.Initial(c).used, [];
      new;
      RecoverFromLog();
      assert [] + RecoveryWrites(g, d) == RecoveryWrites(g, d);
      BootIsValid(g, c, d);
      R.NobodyYet(c.nproc, c.maxOp);
    }

    method Bwrite(addr: int, data: Block)
      requires 0 <= addr < |disk|
      modifies this`disk, this`writes
      ensures disk == Put(old(disk), Write(addr, data))
      ensures writes == old(writes) + [Write(addr, data)]
    {
      disk := disk[addr := data];
      writes := writes + [Write(addr, data)];
    }

    // Copy modified blocks from cache to log.
    method WriteLog(ghost t: Txn)
      requires g.start + |lh| < |disk| && t.blocks == lh && |t.data| == |lh|
      requires forall i :: 0 <= i < |lh| ==> lh[i] in dirty && t.data[i] == dirty[lh[i]]
      modifies this`disk, this`writes
      ensures writes == old(writes) + LogWrites(g, t, |lh|)
      ensures disk == Apply(old(disk), LogWrites(g, t, |lh|))
    {
      ghost var d, w := disk, writes;
      assert w + LogWrites(g, t, 0) == w && Apply(d, LogWrites(g, t, 0)) == d;
      hide Apply, LogWrites, Put;
      var tail := 0;
      while tail < |lh|
        invariant 0 <= tail <= |lh|
        invariant disk == Apply(d, LogWrites(g, t, tail))
        invariant writes == w + LogWrites(g, t, tail)
      {
        var from := dirty[lh[tail]];
        LogTurn(g, d, w, t, tail);
        Bwrite(g.start + tail + 1, from);
        tail := tail + 1;
      }
    }

    // Write in-memory log header to disk.
    method WriteHead()
      requires g.start < |disk| && 1 + |lh| < |disk[g.start]|
      modifies this`disk, this`writes
      ensures writes == old(writes) + [HeadWrite(g, old(disk[g.start]), lh)]
      ensures disk == Put(old(disk), HeadWrite(g, old(disk[g.start]), lh))
    {
      var old_ := disk[g.start];
      var hb := old_[0 := |lh|];
      var i := 0;
      while i < |lh|
        invariant 0 <= i <= |lh|
        invariant hb == [|lh|] + lh[..i] + old_[1 + i..]
      {
        hb := hb[1 + i := lh[i]];
        i := i + 1;
      }
      assert hb == HeaderBlock(old_, lh);
      Bwrite(g.start, hb);
    }

    // Read the log header from disk into the in-memory log header.
    method ReadHead()
      requires ValidDisk(g, disk)
      modifies this`lh
      ensures lh == Logged(g, disk)
    {
      var hb := disk[g.start];
      var i := 0;
      lh := [];
      while i < hb[0]
        invariant 0 <= i <= hb[0]
        invariant lh == hb[1..1 + i]
      {
        lh := lh + [hb[1 + i]];
        i := i + 1;
      }
    }

    // One turn of install_trans(): copy a slot to its home block and drop the pin.
    method InstallBlock(tail: nat, recovering: bool)
      requires tail < |lh| && Distinct(lh) && 0 <= lh[tail] < |disk| && g.start + tail + 1 < |disk|
      requires Pinned(g, dirty, pins, Left(recovering, lh, tail))
      modifies this`disk, this`writes, this`dirty, this`pins
      ensures disk == Put(old(disk), Write(lh[tail], old(disk[g.start + tail + 1])))
      ensures writes == old(writes) + [Write(lh[tail], old(disk[g.start + tail + 1]))]
      ensures Pinned(g, dirty, pins, Left(recovering, lh, tail + 1))
    {
      var lbuf := disk[g.start + tail + 1];
      var home := lh[tail];
      Bwrite(home, lbuf);
      if !recovering {
        Unpin(g, dirty, pins, lh, tail);
        pins := pins - multiset{home};
        dirty := dirty - {home};
      }
    }

    // Copy committed blocks from log to their home location.
    method InstallTrans(recovering: bool, ghost t: Txn)
      requires g.Valid() && |disk| == g.size && ValidBlocks(g, lh)
      requires t.blocks == lh && |t.data| == |lh| && t.data == Slots(g, disk, |lh|)
      requires Pinned(g, dirty, pins, Left(recovering, lh, 0))
      modifies this`disk, this`writes, this`dirty, this`pins
      ensures writes == old(writes) + InstallWrites(t, |lh|)
      ensures disk == Apply(old(disk), InstallWrites(t, |lh|))
      ensures Pinned(g, dirty, pins, [])
    {
      hide Apply, Pinned, InstallWrites, Put, Distinct, ValidBlocks, Slots;
      ghost var d, w := disk, writes;
      InstallStart(d, w, t);
      var tail := 0;
      while tail < |lh|
        invariant 0 <= tail <= |lh|
        invariant disk == Apply(d, InstallWrites(t, tail))
        invariant writes == w + InstallWrites(t, tail)
        invariant Pinned(g, dirty, pins, Left(recovering, lh, tail))
      {
        InstallTurn(g, d, w, t, tail);
        InstallBlock(tail, recovering);
        tail := tail + 1;
      }
      assert Left(recovering, lh, |lh|) == [];
    }

    // install_trans() followed by clearing the header, the last part of both commit() and
    // recover_from_log().
    method InstallAndClear(recovering: bool, ghost t: Txn)
      requires g.Valid() && |disk| == g.size && |disk[g.start]| == g.words
      requires ValidBlocks(g, lh) && t == Txn(lh, Slots(g, disk, |lh|))
      requires Pinned(g, dirty, pins, Left(recovering, lh, 0))
      modifies this`disk, this`writes, this`dirty, this`pins, this`lh
      ensures writes == old(writes) + BackWrites(g, old(disk[g.start]), t)
      ensures disk == Apply(old(disk), BackWrites(g, old(disk[g.start]), t))
      ensures lh == [] && Pinned(g, dirty, pins, [])
    {
      ghost var d, w, n := disk, writes, |lh|;
      ghost var clear := HeadWrite(g, d[g.start], []);
      InstallTrans(recovering, t);
      InstallKeepsLog(g, d, t, n);
      lh := [];
      WriteHead();
      ApplySnoc(d, InstallWrites(t, n), clear);
      Assoc(w, InstallWrites(t, n), [clear]);
    }

    method RecoverFromLog()
      requires ValidDisk(g, disk) && Pinned(g, dirty, pins, [])
      modifies this`disk, this`writes, this`dirty, this`pins, this`lh
      ensures writes == old(writes) + RecoveryWrites(g, old(disk))
      ensures disk == Apply(old(disk), RecoveryWrites(g, old(disk)))
      ensures lh == [] && Pinned(g, dirty, pins, [])
    {
      ghost var t := LoggedTxn(g, disk);
      ReadHead();
      InstallAndClear(true, t);
    }

    // write_log() and write_head(): once this returns the transaction is committed.
    method WriteFront(ghost t: Txn)
      requires ValidDisk(g, disk) && ValidTxn(g, t) && lh == t.blocks
      requires 1 + |lh| < |disk[g.start]|
      requires forall i :: 0 <= i < |lh| ==> lh[i] in dirty && t.data[i] == dirty[lh[i]]
      modifies this`disk, this`writes
      ensures writes == old(writes) + FrontWrites(g, old(disk[g.start]), t)
      ensures disk == Apply(old(disk), FrontWrites(g, old(disk[g.start]), t))
    {
      ghost var d, w, n := disk, writes, |lh|;
      ghost var head := HeadWrite(g, d[g.start], lh);
      LogPhaseKeeps(g, d, t, n);
      WriteLog(t);
      WriteHead();
      ApplySnoc(d, LogWrites(g, t, n), head);
      Assoc(w, LogWrites(g, t, n), [head]);
    }

    method WriteAndInstall(ghost t: Txn)
      requires ValidDisk(g, disk) && ValidTxn(g, t) && lh == t.blocks && lh != []
      requires 1 + |lh| < |disk[g.start]|
      requires forall i :: 0 <= i < |lh| ==> lh[i] in dirty && t.data[i] == dirty[lh[i]]
      requires Pinned(g, dirty, pins, lh)
      modifies this`disk, this`writes, this`dirty, this`pins, this`lh
      ensures writes == old(writes) + CommitWrites(g, old(disk[g.start]), t)
      ensures disk == Apply(old(disk), CommitWrites(g, old(disk[g.start]), t))
      ensures lh == [] && Pinned(g, dirty, pins, [])
    {
      ghost var d, w, front := disk, writes, FrontWrites(g, disk[g.start], t);
      ghost var back := BackWrites(g, HeaderBlock(d[g.start], t.blocks), t);
      HeadWritten(g, d, t);
      WriteFront(t);
      assert Left(false, lh, 0) == lh;
      InstallAndClear(false, t);
      ApplyConcat(d, front, back);
      Assoc(w, front, back);
    }

    method Commit()
      requires Valid() && committing
      modifies this`disk, this`writes, this`dirty, this`pins, this`lh, this`committing
      ensures writes == old(writes) + CommitWrites(g, old(disk[g.start]), old(Pending(g, Mem())))
      ensures disk == Apply(old(disk), CommitWrites(g, old(disk[g.start]), old(Pending(g, Mem()))))
      ensures Valid() && Mem().c == old(Mem().c).(blocks := [], committing := false)
      // The home blocks on disk now hold what readers of the cache saw before.
      ensures Home(g, disk) == Visible(g, Mem()) == old(Visible(g, Mem()))
    {
      ghost var t := Pending(g, Mem());
      CommitKeepsVisible(g, c, Mem());
      VisibleIsOverlay(g, c, Mem());
      if |lh| > 0 {
        WriteAndInstall(t);
      }
      assert dirty == map[] && pins == multiset{};
      committing := false;
    }

    // begin_op(), up to the point where it either enters or sleeps.
    method BeginOp(p: nat) returns (entered: bool)
      requires Valid() && p < |used| && used[p].None?
      modifies this`outstanding, this`used
      ensures Valid() && Visible(g, Mem()) == old(Visible(g, Mem()))
      ensures entered <==> !old(committing) && R.Fits(c, old(Mem().c))
      ensures Mem().c == if entered then old(Mem().c).(used := old(used)[p := Some(0)])
                         else old(Mem().c)
    {
      if committing {
        entered := false;
      } else if |lh| + (outstanding + 1) * c.maxOp > c.logSize {
        entered := false;
      } else {
        R.BeginKeepsInv(c, Mem().c, p);
        outstanding := outstanding + 1;
        used := used[p := Some(0)];
        entered := true;
      }
    }

    // Log absorption: the position of b in the header, or its length.
    method Absorb(b: int) returns (i: nat)
      ensures i <= |lh| && (i == |lh| <==> b !in lh)
    {
      i := 0;
      while i < |lh|
        invariant 0 <= i <= |lh|
        invariant b !in lh[..i]
      {
        if lh[i] == b { return; }
        i := i + 1;
      }
    }

    // log_write() of block b by process p, which has put data in the buffer.
    method LogWrite(p: nat, b: int, data: Block) returns (r: LogWriteResult)
      requires Valid() && R.MayAppend(c, Mem().c, p, b)
      requires 0 <= b < g.size && !g.InLog(b) && |data| == g.words
      modifies this`lh, this`pins, this`dirty, this`used
      ensures Valid()
      ensures r == if R.LogFull(c, old(Mem().c)) then PanicTooBig else Written
      ensures Mem() == if r == Written then AfterWrite(old(Mem()), p, b, data) else old(Mem())
      ensures r == Written ==> Visible(g, Mem()) == old(Visible(g, Mem()))[b := data]
    {
      hide ValidMemory, Visible, AfterWrite, R.Appended, R.Outstanding;
      WriteStores(g, c, Mem(), p, b, data);
      if |lh| >= c.logSize || |lh| >= c.nlog - 1 {
        return PanicTooBig;
      }
      if outstanding < 1 {
        assert false;
      }
      WriteKeepsValid(g, c, Mem(), p, b, data);
      ghost var m' := AfterWrite(Mem(), p, b, data);
      var i := Absorb(b);
      dirty := dirty[b := data];
      if i == |lh| {
        lh := lh + [b];
        pins := pins + multiset{b};
        used := used[p := Some(used[p].value + 1)];
      }
      assert Mem() == m';
      r := Written;
    }

    // end_op(), up to the point where the last operation calls commit().
    method EndOp(p: nat) returns (doCommit: bool)
      requires Valid() && p < |used| && used[p].Some?
      modifies this`outstanding, this`used, this`committing
      ensures Valid() && Visible(g, Mem()) == old(Visible(g, Mem()))
      ensures Mem().c == R.Ended(old(Mem().c), p) && doCommit == committing
    {
      R.EndKeepsInv(c, Mem().c, p);
      outstanding := outstanding - 1;
      used := used[p := None];
      if committing {
        assert false;
      }
      doCommit := outstanding == 0;
      committing := doCommit;
    }
  }
}
