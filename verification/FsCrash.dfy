/**
 File writes over the redo log (kernel/file.c, kernel/fs.c and kernel/log.c together): groups of
 writei() calls are committed as transactions, and the machine may stop at any block write.
 */
module FsCrash {
  import opened FsModel
  import opened FsSpace
  import opened FsImage
  import opened FsCode
  import opened Seqs
  import Log = RedoLog

  // One writei(): it put data at off of file inum, passed the blocks lg to log_write(), and left
  // the file system `after`.
  datatype Op = Op(inum: int, off: nat, data: seq<int>, lg: set<int>, after: Fs)

  ghost predicate OpOk(s: Fs, op: Op) {
    && Inv(s) && Inv(op.after) && op.inum in s.inodes
    && WriteDone(s, op.after, op.inum, op.off, op.data)
    && Logs(s, op.after, op.inum, op.lg) && s.l.IBlock(op.inum) in op.lg
    && LogsIn(s.l, op.lg - {s.l.IBlock(op.inum)})
  }

  // writei() is such an operation.
  method WriteOp(f: FileSystem, inum: int, off: nat, src: seq<int>, good: nat)
    returns (r: WriteResult, ghost op: Op)
    requires f.Valid() && inum in f.inodes && off < UINT && |src| < UINT && f.logged == {}
    requires forall i :: 0 <= i < |src| ==> 0 <= src[i] < 256
    modifies f.used, f.blocks, f`inodes, f`logged
    ensures f.Valid() && op == Op(inum, off, if r.Count? && r.n <= |src| then src[..r.n] else [], f.logged, f.S())
    ensures r.Count? ==> r.n <= |src| && OpOk(old(f.S()), op) && (|src| <= CHUNK ==> |op.lg| <= MAXOPBLOCKS)
  {
    hide Inv, WriteDone, Logs, LogsIn, TooFew, TookRange, Copies, Tried;
    r := f.Writei(inum, off, src, good);
    op := Op(inum, off, if r.Count? && r.n <= |src| then src[..r.n] else [], f.logged, f.S());
  }

  // ---------- groups of operations ----------

  function After(s: Fs, ops: seq<Op>): Fs {
    if ops == [] then s else ops[|ops| - 1].after
  }

  ghost predicate OpsOk(s: Fs, ops: seq<Op>) {
    ops == [] || (var n := |ops| - 1; OpsOk(s, ops[..n]) && OpOk(After(s, ops[..n]), ops[n]))
  }

  function AllLogged(ops: seq<Op>): set<int> {
    if ops == [] then {} else AllLogged(ops[..|ops| - 1]) + ops[|ops| - 1].lg
  }

  // t is the transaction that commits ops: every logged block once, as it is after all of them.
  ghost predicate Commits(g: Log.Geometry, heads: Heads, s: Fs, ops: seq<Op>, t: Log.Txn) {
    && |t.data| == |t.blocks| && Elements(t.blocks) == AllLogged(ops) && Shaped(After(s, ops))
    && forall i :: 0 <= i < |t.blocks| ==> HasBlock(Image(g, After(s, ops), heads), t.blocks[i], t.data[i])
  }

  ghost predicate HasBlock(h: Log.HomeMap, b: int, data: Block) {
    b in h && h[b] == data
  }

  lemma OpKeeps(g: Log.Geometry, heads: Heads, s: Fs, op: Op)
    requires OpOk(s, op) && Placed(g, s)
    ensures Shaped(s) && Shaped(op.after) && Placed(g, op.after)
    ensures Image(g, op.after, heads).Keys == Image(g, s, heads).Keys
    ensures forall b :: b in Image(g, s, heads) && b !in op.lg ==>
              HasBlock(Image(g, op.after, heads), b, Image(g, s, heads)[b])
  {
    InvShape(s);
    InvShape(op.after);
    hide Inv, WriteDone, Logs, LogsIn;
    LogsPlaces(g, s, op.after, op.inum, op.lg);
    forall b | b in Image(g, s, heads) && b !in op.lg
      ensures HasBlock(Image(g, op.after, heads), b, Image(g, s, heads)[b])
    {
      ImageKept(g, s, op.after, heads, op.inum, op.lg, b);
    }
  }

  lemma LogsPlaces(g: Log.Geometry, s: Fs, s': Fs, inum: int, lg: set<int>)
    requires Logs(s, s', inum, lg) && Placed(g, s)
    ensures Placed(g, s') && s'.l == s.l
  {
  }

  // A block that no operation of a group logged is the same before and after it.
  lemma {:induction false} OpsKeep(g: Log.Geometry, heads: Heads, s: Fs, ops: seq<Op>)
    requires Inv(s) && OpsOk(s, ops) && Placed(g, s)
    ensures var s' := After(s, ops);
            && Shaped(s) && Shaped(s') && Inv(s') && Placed(g, s')
            && Image(g, s', heads).Keys == Image(g, s, heads).Keys
            && forall b :: b in Image(g, s, heads) && b !in AllLogged(ops) ==>
                 HasBlock(Image(g, s', heads), b, Image(g, s, heads)[b])
  {
    hide Inv, OpOk, Image;
    InvShape(s);
    if ops != [] {
      var n := |ops| - 1;
      OpsKeep(g, heads, s, ops[..n]);
      OpKeeps(g, heads, After(s, ops[..n]), ops[n]);
      OpInv(After(s, ops[..n]), ops[n]);
    }
  }

  lemma OpInv(s: Fs, op: Op)
    requires OpOk(s, op)
    ensures Inv(op.after)
  {
  }

  // ---------- transactions ----------

  lemma {:induction false} OverlayIs(h: Log.HomeMap, h': Log.HomeMap, blocks: seq<int>, data: seq<Block>)
    requires |blocks| == |data| && h'.Keys == h.Keys
    requires forall i :: 0 <= i < |blocks| ==> HasBlock(h', blocks[i], data[i])
    ensures Log.Overlay(h, blocks, data).Keys == h.Keys
    ensures forall b :: b in h ==>
              Log.Overlay(h, blocks, data)[b] == if b in Elements(blocks) then h'[b] else h[b]
  {
    if blocks != [] {
      var n := |blocks| - 1;
      OverlayIs(h, h', blocks[..n], data[..n]);
      assert HasBlock(h', blocks[n], data[n]);
      assert blocks == blocks[..n] + [blocks[n]];
    }
  }

  /** Committing a group turns the image of the file system before it into that after it. */
  lemma CommitsImage(g: Log.Geometry, heads: Heads, s: Fs, ops: seq<Op>, t: Log.Txn)
    requires Inv(s) && OpsOk(s, ops) && Placed(g, s) && Commits(g, heads, s, ops, t)
    ensures Shaped(s) && Shaped(After(s, ops)) && Inv(After(s, ops)) && Placed(g, After(s, ops))
    ensures Log.Overlay(Image(g, s, heads), t.blocks, t.data) == Image(g, After(s, ops), heads)
  {
    hide Inv, OpsOk, Image, Placed;
    OpsKeep(g, heads, s, ops);
    var h, h' := Image(g, s, heads), Image(g, After(s, ops), heads);
    OverlayIs(h, h', t.blocks, t.data);
    forall b | b in h
      ensures Log.Overlay(h, t.blocks, t.data)[b] == h'[b]
    {
      if b !in AllLogged(ops) { assert HasBlock(h', b, h[b]); }
    }
  }

  // ---------- contents ----------

  // The bytes of file i after these operations.
  function Written(c: seq<int>, i: int, ops: seq<Op>): seq<int> {
    if ops == [] then c
    else
      var op := ops[|ops| - 1];
      var d := Written(c, i, ops[..|ops| - 1]);
      if op.inum == i && op.off <= |d| then Spliced(d, op.off, op.data) else d
  }

  lemma {:induction false} WrittenMore(c: seq<int>, i: int, a: seq<Op>, b: seq<Op>)
    ensures Written(c, i, a + b) == Written(Written(c, i, a), i, b)
  {
    if b == [] {
      assert a + b == a;
    } else {
      var n := |b| - 1;
      assert (a + b)[..|a| + n] == a + b[..n];
      WrittenMore(c, i, a, b[..n]);
    }
  }

  // File i of s has the bytes c.
  ghost predicate Holds(s: Fs, i: int, c: seq<int>) {
    Shaped(s) && i in s.inodes && s.inodes[i].size <= MAXBYTES && Contents(s, i) == c
  }

  lemma OpHolds(s: Fs, op: Op, i: int, c: seq<int>)
    requires OpOk(s, op) && Holds(s, i, c)
    ensures Holds(op.after, i, if op.inum == i && op.off <= |c| then Spliced(c, op.off, op.data) else c)
  {
    hide Inv, Logs, LogsIn;
    InvShape(op.after);
  }

  lemma {:induction false} OpsHold(s: Fs, ops: seq<Op>, i: int, c: seq<int>)
    requires OpsOk(s, ops) && Holds(s, i, c)
    ensures Holds(After(s, ops), i, Written(c, i, ops))
  {
    hide OpOk, Holds;
    if ops != [] {
      var n := |ops| - 1;
      OpsHold(s, ops[..n], i, c);
      OpHolds(After(s, ops[..n]), ops[n], i, Written(c, i, ops[..n]));
    }
  }

  // ---------- runs with crashes ----------

  // The transaction's header reached the disk.
  predicate IsCommitted(e: Log.Event) {
    e.Commit? && |e.t.blocks| < e.k
  }

  ghost predicate FsStep(g: Log.Geometry, heads: Heads, s: Fs, e: Log.Event, ops: seq<Op>, s': Fs) {
    if e.Commit? then
      OpsOk(s, ops) && Commits(g, heads, s, ops, e.t) && s' == if IsCommitted(e) then After(s, ops) else s
    else s' == s
  }

  // The machine goes through ms; its disk starts as the image of fs[0]. The file system that is
  // durable after i events is fs[i], and a commit is of the operations in groups[i].
  ghost predicate CrashRun(g: Log.Geometry, heads: Heads, ms: seq<Log.Machine>, es: seq<Log.Event>,
                           fs: seq<Fs>, groups: seq<seq<Op>>) {
    && Log.IsRun(g, ms, es) && |fs| == |ms| && |groups| == |es|
    && Inv(fs[0]) && Placed(g, fs[0]) && Log.Durable(g, ms[0].disk) == Image(g, fs[0], heads)
    && forall i :: 0 <= i < |es| ==> FsStep(g, heads, fs[i], es[i], groups[i], fs[i + 1])
  }

  // The operations of the groups that were committed.
  function Committed(es: seq<Log.Event>, groups: seq<seq<Op>>): seq<Op>
    requires |es| == |groups|
  {
    if es == [] then []
    else
      var n := |es| - 1;
      Committed(es[..n], groups[..n]) + if IsCommitted(es[n]) then groups[n] else []
  }

  lemma CrashStep(g: Log.Geometry, heads: Heads, m: Log.Machine, e: Log.Event, s: Fs, ops: seq<Op>, s': Fs)
    requires Log.Ready(g, m) && Log.Enabled(g, m, e) && Inv(s) && Placed(g, s) && FsStep(g, heads, s, e, ops, s')
    requires Log.Durable(g, m.disk) == Image(g, s, heads)
    ensures var m' := Log.Next(g, m, e);
            Log.Ready(g, m') && Inv(s') && Placed(g, s') && Log.Durable(g, m'.disk) == Image(g, s', heads)
  {
    hide Inv, Placed, Image, OpsOk, Commits;
    Log.StepRefines(g, m, e);
    if e.Commit? && IsCommitted(e) {
      CommitsImage(g, heads, s, ops, e.t);
      CommitSizes(g, heads, s, ops, e.t);
    }
  }

  lemma CommitSizes(g: Log.Geometry, heads: Heads, s: Fs, ops: seq<Op>, t: Log.Txn)
    requires Commits(g, heads, s, ops, t)
    ensures |t.data| == |t.blocks|
  {
  }

  /** A crash at any block write: what a boot finds is the image of a file system that satisfies the
      invariant, and whose files have the bytes of exactly the writes in the committed groups, in
      order. While the machine is up, that image is on the home blocks. */
  lemma {:induction false} CrashSafe(g: Log.Geometry, heads: Heads, ms: seq<Log.Machine>, es: seq<Log.Event>,
                                     fs: seq<Fs>, groups: seq<seq<Op>>, n: nat)
    requires CrashRun(g, heads, ms, es, fs, groups) && n <= |es|
    ensures Log.Ready(g, ms[n]) && Inv(fs[n]) && Placed(g, fs[n])
    ensures Log.Durable(g, ms[n].disk) == Image(g, fs[n], heads)
    ensures ms[n].up ==> Log.Home(g, ms[n].disk) == Image(g, fs[n], heads)
    ensures forall i, c :: Holds(fs[0], i, c) ==> Holds(fs[n], i, Written(c, i, Committed(es[..n], groups[..n])))
  {
    hide Inv, Placed, Image, Holds, OpsOk, Commits;
    if n > 0 {
      CrashSafe(g, heads, ms, es, fs, groups, n - 1);
      var k := n - 1;
      assert FsStep(g, heads, fs[k], es[k], groups[k], fs[k + 1]);
      CrashStep(g, heads, ms[k], es[k], fs[k], groups[k], fs[n]);
      forall i, c | Holds(fs[0], i, c)
        ensures Holds(fs[n], i, Written(c, i, Committed(es[..n], groups[..n])))
      {
        assert es[..n][..k] == es[..k] && groups[..n][..k] == groups[..k];
        var done := Committed(es[..k], groups[..k]);
        if IsCommitted(es[k]) {
          OpsHold(fs[k], groups[k], i, Written(c, i, done));
          WrittenMore(c, i, done, groups[k]);
        } else {
          assert done + [] == done;
        }
      }
    } else {
      assert es[..0] == [] && groups[..0] == [];
    }
    if ms[n].up { HomeIsDurable(g, ms[n]); }
  }

  // So inodes, bitmap and data blocks read at a boot are those of that file system.
  lemma BootReads(g: Log.Geometry, heads: Heads, ms: seq<Log.Machine>, es: seq<Log.Event>,
                  fs: seq<Fs>, groups: seq<seq<Op>>, n: nat)
    requires CrashRun(g, heads, ms, es, fs, groups) && n <= |es|
    ensures Log.Ready(g, ms[n])
    ensures var h, s := Log.Durable(g, ms[n].disk), fs[n];
            && (forall i :: i in s.inodes ==> 0 <= i && HasInode(h, s.l, i, s.inodes[i]))
            && (forall b: nat :: b < s.l.size ==> b < |s.used| && HasBit(h, s.l, b, s.used[b]))
            && (forall b :: s.l.data <= b < s.l.size ==> 0 <= b < |s.blocks| && HasBlock(h, b, s.blocks[b]))
  {
    CrashSafe(g, heads, ms, es, fs, groups, n);
    hide CrashRun, Inv, Placed, Image, HasInode, HasBit;
    InvShape(fs[n]);
    forall i | i in fs[n].inodes ensures fs[n].inodes[i].size < UINT { SizeIsBounded(fs[n], i); }
    ImageReadsBack(g, fs[n], heads);
  }

  lemma HomeIsDurable(g: Log.Geometry, m: Log.Machine)
    requires Log.Ready(g, m) && m.up
    ensures Log.Home(g, m.disk) == Log.Durable(g, m.disk)
  {
  }
}
