/**
 The redo log of kernel/log.c as a protocol over single-block disk writes.

 A disk is a sequence of blocks and a block a sequence of words.  The log region holds a
 header block, which lists home block numbers, followed by one slot per listed block.
 A crash may happen between any two block writes, and wipes everything but the disk.
 */
module RedoLog {
  import opened Seqs

  type Block = seq<int>
  type Disk = seq<Block>
  type HomeMap = map<int, Block>

  // `start` and `nlog` come from the superblock, `logSize` is LOGSIZE,
  // `size` is the number of blocks and `words` the number of words in a block.
  datatype Geometry = Geometry(start: nat, nlog: nat, size: nat, words: nat, logSize: nat)
  {
    predicate Valid() {
      1 + logSize < words && start + nlog <= size && 0 < nlog
    }

    predicate InLog(b: int) {
      start <= b < start + nlog
    }
  }

  // One block write as issued by bwrite().
  datatype Write = Write(addr: int, data: Block)

  // A group commit: block numbers in the order of first log_write(), and the cached contents.
  datatype Txn = Txn(blocks: seq<int>, data: seq<Block>)

  ghost predicate ValidBlocks(g: Geometry, bs: seq<int>) {
    && |bs| <= g.logSize
    && |bs| < g.nlog
    && Distinct(bs)
    && forall i :: 0 <= i < |bs| ==> 0 <= bs[i] < g.size && !g.InLog(bs[i])
  }

  ghost predicate ValidTxn(g: Geometry, t: Txn) {
    && ValidBlocks(g, t.blocks)
    && |t.data| == |t.blocks|
    && forall i :: 0 <= i < |t.data| ==> |t.data[i]| == g.words
  }

  ghost predicate Shaped(g: Geometry, d: Disk) {
    |d| == g.size && forall b :: 0 <= b < |d| ==> |d[b]| == g.words
  }

  // ---------- the header block: a count and that many block numbers ----------

  function HeaderBlocks(b: Block): seq<int>
    requires 0 < |b| && 0 <= b[0] < |b|
  {
    b[1..1 + b[0]]
  }

  // write_head() updates the count and the first n entries; the rest of the block stays.
  function HeaderBlock(old_: Block, bs: seq<int>): Block
    requires 1 + |bs| <= |old_|
  {
    [|bs|] + bs + old_[1 + |bs|..]
  }

  lemma HeaderRoundTrip(old_: Block, bs: seq<int>)
    requires 1 + |bs| < |old_|
    ensures var b := HeaderBlock(old_, bs);
            |b| == |old_| && b[0] == |bs| && HeaderBlocks(b) == bs
  {
  }

  ghost predicate ValidDisk(g: Geometry, d: Disk) {
    && g.Valid() && Shaped(g, d)
    && 0 <= d[g.start][0] < g.words
    && ValidBlocks(g, HeaderBlocks(d[g.start]))
  }

  function Logged(g: Geometry, d: Disk): seq<int>
    requires ValidDisk(g, d)
  {
    HeaderBlocks(d[g.start])
  }

  // ---------- what the disk means ----------

  function Home(g: Geometry, d: Disk): HomeMap {
    map b | 0 <= b < |d| && !g.InLog(b) :: d[b]
  }

  function Overlay(h: HomeMap, blocks: seq<int>, data: seq<Block>): HomeMap
    requires |blocks| == |data|
  {
    if blocks == [] then h
    else
      var n := |blocks| - 1;
      Overlay(h, blocks[..n], data[..n])[blocks[n] := data[n]]
  }

  function Slots(g: Geometry, d: Disk, n: nat): seq<Block>
    requires g.start + n < |d|
  {
    d[g.start + 1..g.start + 1 + n]
  }

  // The transaction a boot finds in the log.
  function LoggedTxn(g: Geometry, d: Disk): Txn
    requires ValidDisk(g, d)
  {
    var bs := Logged(g, d);
    Txn(bs, Slots(g, d, |bs|))
  }

  // A disk as mkfs leaves it, with a zero in the header, has an empty log.
  lemma FormattedDisk(g: Geometry, d: Disk)
    requires g.Valid() && Shaped(g, d) && d[g.start][0] == 0
    ensures ValidDisk(g, d) && Logged(g, d) == [] && Durable(g, d) == Home(g, d)
  {
    assert HeaderBlocks(d[g.start]) == [];
  }

  // The contents of every home block once a boot has replayed the log.
  function Durable(g: Geometry, d: Disk): HomeMap
    requires ValidDisk(g, d)
  {
    var t := LoggedTxn(g, d);
    Overlay(Home(g, d), t.blocks, t.data)
  }

  // ---------- the writes the code issues ----------

  function LogWrites(g: Geometry, t: Txn, k: nat): (ws: seq<Write>)
    requires k <= |t.data|
    ensures |ws| == k
  {
    if k == 0 then [] else LogWrites(g, t, k - 1) + [Write(g.start + k, t.data[k - 1])]
  }

  function InstallWrites(t: Txn, k: nat): (ws: seq<Write>)
    requires k <= |t.data| == |t.blocks|
    ensures |ws| == k
  {
    if k == 0 then [] else InstallWrites(t, k - 1) + [Write(t.blocks[k - 1], t.data[k - 1])]
  }

  function HeadWrite(g: Geometry, old_: Block, bs: seq<int>): Write
    requires 1 + |bs| <= |old_|
  {
    Write(g.start, HeaderBlock(old_, bs))
  }

  // write_log() and write_head().
  function FrontWrites(g: Geometry, head: Block, t: Txn): seq<Write>
    requires |t.data| == |t.blocks| && 1 + |t.blocks| < |head|
  {
    LogWrites(g, t, |t.data|) + [HeadWrite(g, head, t.blocks)]
  }

  // install_trans() and write_head() with n == 0.
  function BackWrites(g: Geometry, head: Block, t: Txn): seq<Write>
    requires |t.data| == |t.blocks| && 1 < |head|
  {
    InstallWrites(t, |t.data|) + [HeadWrite(g, head, [])]
  }

  // commit().
  function CommitWrites(g: Geometry, head: Block, t: Txn): seq<Write>
    requires |t.data| == |t.blocks| && 1 + |t.blocks| < |head|
  {
    if t.blocks == [] then []
    else FrontWrites(g, head, t) + BackWrites(g, HeaderBlock(head, t.blocks), t)
  }

  // recover_from_log().
  function RecoveryWrites(g: Geometry, d: Disk): seq<Write>
    requires ValidDisk(g, d)
  {
    BackWrites(g, d[g.start], LoggedTxn(g, d))
  }

  function Put(d: Disk, w: Write): (r: Disk)
    ensures |r| == |d|
  {
    if 0 <= w.addr < |d| then d[w.addr := w.data] else d
  }

  function Apply(d: Disk, ws: seq<Write>): (r: Disk)
    ensures |r| == |d|
  {
    if ws == [] then d else Put(Apply(d, ws[..|ws| - 1]), ws[|ws| - 1])
  }

  lemma ApplySnoc(d: Disk, ws: seq<Write>, w: Write)
    ensures Apply(d, ws + [w]) == Put(Apply(d, ws), w)
  {
    assert (ws + [w])[..|ws|] == ws;
  }

  lemma {:induction false} ApplyConcat(d: Disk, a: seq<Write>, b: seq<Write>)
    ensures Apply(d, a + b) == Apply(Apply(d, a), b)
    decreases |b|
  {
    if b == [] {
      assert a + b == a;
    } else {
      var n := |b| - 1;
      assert (a + b)[..|a + b| - 1] == a + b[..n];
      ApplyConcat(d, a, b[..n]);
    }
  }

  // ---------- the effect of each phase, cut after k writes ----------

  lemma {:induction false} LogPhase(g: Geometry, d: Disk, t: Txn, k: nat)
    requires g.Valid() && |d| == g.size && k <= |t.data| < g.nlog
    ensures var e := Apply(d, LogWrites(g, t, k));
            forall b :: 0 <= b < |d| ==>
              e[b] == if g.start < b <= g.start + k then t.data[b - g.start - 1] else d[b]
  {
    if k > 0 {
      LogPhase(g, d, t, k - 1);
      ApplySnoc(d, LogWrites(g, t, k - 1), Write(g.start + k, t.data[k - 1]));
      assert Apply(d, LogWrites(g, t, k))
          == Apply(d, LogWrites(g, t, k - 1))[g.start + k := t.data[k - 1]];
    }
  }

  lemma {:induction false} LogPrefix(g: Geometry, t: Txn, n: nat, k: nat)
    requires k <= n <= |t.data|
    ensures LogWrites(g, t, n)[..k] == LogWrites(g, t, k)
  {
    if k < n {
      LogPrefix(g, t, n - 1, k);
      TakeShort(LogWrites(g, t, n - 1), [Write(g.start + n, t.data[n - 1])], k);
    }
  }

  // write_log(), cut anywhere, changes neither the header nor a home block.
  lemma LogPhaseKeeps(g: Geometry, d: Disk, t: Txn, k: nat)
    requires ValidDisk(g, d) && ValidTxn(g, t) && k <= |t.data|
    ensures var e := Apply(d, LogWrites(g, t, k));
            && ValidDisk(g, e) && e[g.start] == d[g.start] && Home(g, e) == Home(g, d)
            && Slots(g, e, k) == t.data[..k]
  {
    hide Apply, LogWrites, Distinct;
    LogPhase(g, d, t, k);
  }

  lemma InstallOne(d: Disk, c: Disk, t: Txn, k: nat)
    requires 0 < k <= |t.data| == |t.blocks| && Distinct(t.blocks) && |c| == |d|
    requires forall i :: 0 <= i < |t.blocks| ==> 0 <= t.blocks[i] < |d|
    requires forall b :: 0 <= b < |d| && b !in t.blocks[..k - 1] ==> c[b] == d[b]
    requires forall i :: 0 <= i < k - 1 ==> c[t.blocks[i]] == t.data[i]
    ensures var e := Put(c, Write(t.blocks[k - 1], t.data[k - 1]));
            && (forall b :: 0 <= b < |d| && b !in t.blocks[..k] ==> e[b] == d[b])
            && (forall i :: 0 <= i < k ==> e[t.blocks[i]] == t.data[i])
  {
    assert t.blocks[..k] == t.blocks[..k - 1] + [t.blocks[k - 1]];
  }

  lemma {:induction false} InstallPhase(g: Geometry, d: Disk, t: Txn, k: nat)
    requires |d| == g.size && ValidBlocks(g, t.blocks) && k <= |t.data| == |t.blocks|
    ensures var e := Apply(d, InstallWrites(t, k));
            && (forall b :: 0 <= b < |d| && b !in t.blocks[..k] ==> e[b] == d[b])
            && (forall i :: 0 <= i < k ==> e[t.blocks[i]] == t.data[i])
  {
    if k > 0 {
      hide Apply;
      InstallPhase(g, d, t, k - 1);
      ApplySnoc(d, InstallWrites(t, k - 1), Write(t.blocks[k - 1], t.data[k - 1]));
      InstallOne(d, Apply(d, InstallWrites(t, k - 1)), t, k);
    }
  }

  lemma {:induction false} InstallPrefix(t: Txn, n: nat, k: nat)
    requires k <= n <= |t.data| == |t.blocks|
    ensures InstallWrites(t, n)[..k] == InstallWrites(t, k)
  {
    if k < n {
      InstallPrefix(t, n - 1, k);
      TakeShort(InstallWrites(t, n - 1), [Write(t.blocks[n - 1], t.data[n - 1])], k);
    }
  }

  // install_trans(), cut anywhere, leaves the log region alone.
  lemma InstallKeepsLog(g: Geometry, d: Disk, t: Txn, k: nat)
    requires g.Valid() && |d| == g.size && ValidBlocks(g, t.blocks) && k <= |t.data| == |t.blocks|
    ensures var e := Apply(d, InstallWrites(t, k));
            forall b :: g.InLog(b) ==> e[b] == d[b]
  {
    InstallPhase(g, d, t, k);
  }

  lemma {:induction false} OverlayAt(h: HomeMap, blocks: seq<int>, data: seq<Block>)
    requires |blocks| == |data| && Distinct(blocks)
    ensures var r := Overlay(h, blocks, data);
            && (forall b :: b in r <==> b in h || b in blocks)
            && (forall b :: b in h && b !in blocks ==> r[b] == h[b])
            && (forall i :: 0 <= i < |blocks| ==> blocks[i] in r && r[blocks[i]] == data[i])
  {
    if blocks != [] {
      var n := |blocks| - 1;
      OverlayAt(h, blocks[..n], data[..n]);
      OverlayOne(h, Overlay(h, blocks[..n], data[..n]), blocks, data);
    }
  }

  lemma OverlayOne(h: HomeMap, c: HomeMap, blocks: seq<int>, data: seq<Block>)
    requires |blocks| == |data| > 0 && Distinct(blocks)
    requires var n := |blocks| - 1;
             && (forall b :: b in c <==> b in h || b in blocks[..n])
             && (forall b :: b in h && b !in blocks[..n] ==> c[b] == h[b])
             && (forall i :: 0 <= i < n ==> blocks[..n][i] in c && c[blocks[..n][i]] == data[..n][i])
    ensures var n := |blocks| - 1; var r := c[blocks[n] := data[n]];
            && (forall b :: b in r <==> b in h || b in blocks)
            && (forall b :: b in h && b !in blocks ==> r[b] == h[b])
            && (forall i :: 0 <= i < |blocks| ==> blocks[i] in r && r[blocks[i]] == data[i])
  {
    var n := |blocks| - 1;
    var front := blocks[..n];
    assert blocks == front + [blocks[n]];
    forall b ensures b in blocks <==> b in front || b == blocks[n] { }
    forall i | 0 <= i < n ensures blocks[i] in c && c[blocks[i]] == data[i] {
      assert front[i] == blocks[i] && data[..n][i] == data[i];
    }
  }

  // Blocks an overlay is about to replace may already hold their new contents.
  lemma OverlayAbsorbs(h: HomeMap, h': HomeMap, blocks: seq<int>, data: seq<Block>, k: nat)
    requires |blocks| == |data| && Distinct(blocks) && k <= |blocks|
    requires h'.Keys == h.Keys && (forall i :: 0 <= i < |blocks| ==> blocks[i] in h)
    requires forall b :: b in h && b !in blocks[..k] ==> h'[b] == h[b]
    requires forall i :: 0 <= i < k ==> h'[blocks[i]] == data[i]
    ensures Overlay(h', blocks, data) == Overlay(h, blocks, data)
    ensures k == |blocks| ==> h' == Overlay(h, blocks, data)
  {
    hide Overlay, Distinct;
    var r, r' := Overlay(h, blocks, data), Overlay(h', blocks, data);
    forall b
      ensures b in r <==> b in r'
      ensures b in r <==> b in h'
      ensures b in r ==> r'[b] == r[b] && (k == |blocks| ==> h'[b] == r[b])
    {
      OverlayAbsorbsAt(h, h', blocks, data, k, b);
    }
  }

  lemma OverlayAbsorbsAt(h: HomeMap, h': HomeMap, blocks: seq<int>, data: seq<Block>, k: nat, b: int)
    requires |blocks| == |data| && Distinct(blocks) && k <= |blocks|
    requires h'.Keys == h.Keys && (forall i :: 0 <= i < |blocks| ==> blocks[i] in h)
    requires b in h && b !in blocks[..k] ==> h'[b] == h[b]
    requires forall i :: 0 <= i < k ==> h'[blocks[i]] == data[i]
    ensures var r, r' := Overlay(h, blocks, data), Overlay(h', blocks, data);
            && (b in r <==> b in h) && (b in r' <==> b in h) && (b in h' <==> b in h)
            && (b in h ==> r'[b] == r[b] && (k == |blocks| ==> h'[b] == r[b]))
  {
    hide Overlay, Distinct;
    OverlayAt(h, blocks, data);
    OverlayAt(h', blocks, data);
    assert b in h'.Keys <==> b in h.Keys;
    if b in blocks {
      var i :| 0 <= i < |blocks| && blocks[i] == b;
    } else {
      assert b !in blocks[..k];
    }
  }

  lemma InstallKeepsLogged(g: Geometry, d: Disk, k: nat)
    requires ValidDisk(g, d) && k <= |Logged(g, d)|
    ensures var t := LoggedTxn(g, d);
            var e := Apply(d, InstallWrites(t, k));
            && ValidTxn(g, t)
            && ValidDisk(g, e) && e[g.start] == d[g.start] && LoggedTxn(g, e) == t
  {
    hide Apply, InstallWrites, Distinct;
    var t := LoggedTxn(g, d);
    var e := Apply(d, InstallWrites(t, k));
    InstallPhase(g, d, t, k);
    InstallKeepsLog(g, d, t, k);
    assert Shaped(g, e) by {
      forall b | 0 <= b < |e| && b in t.blocks[..k]
        ensures |e[b]| == g.words
      {
        var i :| 0 <= i < k && t.blocks[i] == b;
        assert e[t.blocks[i]] == t.data[i];
      }
    }
    assert Slots(g, e, |t.blocks|) == t.data;
  }

  // Installing any prefix of a logged transaction does not change what the disk means.
  lemma InstallKeepsDurable(g: Geometry, d: Disk, k: nat)
    requires ValidDisk(g, d) && k <= |Logged(g, d)|
    ensures var t := LoggedTxn(g, d);
            var e := Apply(d, InstallWrites(t, k));
            && ValidDisk(g, e) && e[g.start] == d[g.start]
            && Durable(g, e) == Durable(g, d)
            && (k == |t.blocks| ==> Home(g, e) == Durable(g, d))
  {
    var t := LoggedTxn(g, d);
    InstallKeepsLogged(g, d, k);
    InstallPhase(g, d, t, k);
    OverlayAbsorbs(Home(g, d), Home(g, Apply(d, InstallWrites(t, k))), t.blocks, t.data, k);
  }

  // write_head() makes the given block numbers the logged ones and touches nothing else.
  lemma HeadPhase(g: Geometry, d: Disk, bs: seq<int>)
    requires ValidDisk(g, d) && ValidBlocks(g, bs)
    ensures var e := Put(d, HeadWrite(g, d[g.start], bs));
            && ValidDisk(g, e) && Logged(g, e) == bs && Home(g, e) == Home(g, d)
            && Slots(g, e, |bs|) == Slots(g, d, |bs|)
  {
    HeaderRoundTrip(d[g.start], bs);
  }

  // ---------- crash atomicity of one commit and of one recovery ----------

  /** Recovery cut after k block writes keeps the meaning of the disk; a full recovery
      empties the log and leaves that meaning in the home blocks. */
  lemma RecoveryCut(g: Geometry, d: Disk, k: nat)
    requires ValidDisk(g, d) && k <= |RecoveryWrites(g, d)|
    ensures var e := Apply(d, RecoveryWrites(g, d)[..k]);
            && ValidDisk(g, e)
            && Durable(g, e) == Durable(g, d)
            && (k == |RecoveryWrites(g, d)| ==> Logged(g, e) == [])
  {
    var t := LoggedTxn(g, d);
    var n := |t.blocks|;
    if k <= n {
      InstallKeepsDurable(g, d, k);
      TakeShort(InstallWrites(t, n), [HeadWrite(g, d[g.start], [])], k);
      InstallPrefix(t, n, k);
    } else {
      TakeAll(RecoveryWrites(g, d));
      RecoveryDone(g, d);
    }
  }

  lemma RecoveryDone(g: Geometry, d: Disk)
    requires ValidDisk(g, d)
    ensures var e := Apply(d, RecoveryWrites(g, d));
            ValidDisk(g, e) && Logged(g, e) == [] && Durable(g, e) == Home(g, e) == Durable(g, d)
  {
    var t := LoggedTxn(g, d);
    var n := |t.blocks|;
    InstallKeepsDurable(g, d, n);
    ApplySnoc(d, InstallWrites(t, n), HeadWrite(g, d[g.start], []));
    HeadPhase(g, Apply(d, InstallWrites(t, n)), []);
  }

  // The disk once the header of t is written, before any install.
  lemma HeadWritten(g: Geometry, d: Disk, t: Txn)
    requires ValidDisk(g, d) && ValidTxn(g, t)
    ensures var e := Apply(d, FrontWrites(g, d[g.start], t));
            && ValidDisk(g, e)
            && e[g.start] == HeaderBlock(d[g.start], t.blocks)
            && LoggedTxn(g, e) == t
            && Home(g, e) == Home(g, d)
  {
    var n := |t.data|;
    LogPhaseKeeps(g, d, t, n);
    TakeAll(t.data);
    ApplySnoc(d, LogWrites(g, t, n), HeadWrite(g, d[g.start], t.blocks));
    HeadPhase(g, Apply(d, LogWrites(g, t, n)), t.blocks);
  }

  lemma CommitCutBeforeHead(g: Geometry, d: Disk, t: Txn, k: nat)
    requires ValidDisk(g, d) && Logged(g, d) == [] && ValidTxn(g, t)
    requires k <= |t.blocks| && t.blocks != []
    ensures var e := Apply(d, CommitWrites(g, d[g.start], t)[..k]);
            ValidDisk(g, e) && Durable(g, e) == Home(g, d)
  {
    var n := |t.data|;
    var front := FrontWrites(g, d[g.start], t);
    TakeShort(front, BackWrites(g, HeaderBlock(d[g.start], t.blocks), t), k);
    TakeShort(LogWrites(g, t, n), [HeadWrite(g, d[g.start], t.blocks)], k);
    LogPrefix(g, t, n, k);
    LogPhaseKeeps(g, d, t, k);
  }

  lemma CommitCutAfterHead(g: Geometry, d: Disk, t: Txn, k: nat)
    requires ValidDisk(g, d) && Logged(g, d) == [] && ValidTxn(g, t)
    requires t.blocks != [] && |t.blocks| < k <= |CommitWrites(g, d[g.start], t)|
    ensures var e := Apply(d, CommitWrites(g, d[g.start], t)[..k]);
            && ValidDisk(g, e)
            && Durable(g, e) == Overlay(Home(g, d), t.blocks, t.data)
            && (k == |CommitWrites(g, d[g.start], t)| ==> Logged(g, e) == [])
  {
    hide Overlay, Home, Apply;
    var front := FrontWrites(g, d[g.start], t);
    HeadWritten(g, d, t);
    var c := Apply(d, front);
    var rest := RecoveryWrites(g, c);
    TakeLong(front, rest, k);
    ApplyConcat(d, front, rest[..k - |front|]);
    RecoveryCut(g, c, k - |front|);
  }

  /** A commit cut after k block writes leaves the old contents if the header has not been
      written, and the new contents from the header write on; a full commit empties the log. */
  lemma CommitCut(g: Geometry, d: Disk, t: Txn, k: nat)
    requires ValidDisk(g, d) && Logged(g, d) == [] && ValidTxn(g, t)
    requires k <= |CommitWrites(g, d[g.start], t)|
    ensures var e := Apply(d, CommitWrites(g, d[g.start], t)[..k]);
            && ValidDisk(g, e)
            && Durable(g, e) == (if k <= |t.blocks| then Home(g, d)
                                 else Overlay(Home(g, d), t.blocks, t.data))
            && (k == |CommitWrites(g, d[g.start], t)| ==> Logged(g, e) == [])
  {
    if t.blocks == [] {
      assert CommitWrites(g, d[g.start], t)[..k] == [];
    } else if k <= |t.blocks| {
      CommitCutBeforeHead(g, d, t, k);
    } else {
      CommitCutAfterHead(g, d, t, k);
    }
  }

  // ---------- whole runs ----------

  // A commit or a boot-time recovery, each cut after the given number of block writes.
  // A cut before the last write is a crash; PowerLoss is a crash between operations.
  datatype Event = Commit(t: Txn, k: nat) | Recover(k: nat) | PowerLoss

  // `up` says that no recovery is due: the machine runs and may commit.
  datatype Machine = Machine(disk: Disk, up: bool)

  ghost predicate Ready(g: Geometry, m: Machine) {
    ValidDisk(g, m.disk) && (m.up ==> Logged(g, m.disk) == [])
  }

  ghost predicate Enabled(g: Geometry, m: Machine, e: Event)
    requires ValidDisk(g, m.disk)
  {
    match e
    case Commit(t, k) => m.up && ValidTxn(g, t) && k <= |CommitWrites(g, m.disk[g.start], t)|
    case Recover(k) => !m.up && k <= |RecoveryWrites(g, m.disk)|
    case PowerLoss => true
  }

  ghost function Next(g: Geometry, m: Machine, e: Event): Machine
    requires ValidDisk(g, m.disk) && Enabled(g, m, e)
  {
    match e
    case Commit(t, k) =>
      var ws := CommitWrites(g, m.disk[g.start], t);
      Machine(Apply(m.disk, ws[..k]), k == |ws|)
    case Recover(k) =>
      var ws := RecoveryWrites(g, m.disk);
      Machine(Apply(m.disk, ws[..k]), k == |ws|)
    case PowerLoss => Machine(m.disk, false)
  }

  // The specification: one map of home blocks, changed by a transaction exactly when its
  // header write happened.
  function NextSpec(h: HomeMap, e: Event): HomeMap {
    if e.Commit? && |e.t.blocks| < e.k && |e.t.blocks| == |e.t.data|
    then Overlay(h, e.t.blocks, e.t.data)
    else h
  }

  lemma StepRefines(g: Geometry, m: Machine, e: Event)
    requires Ready(g, m) && Enabled(g, m, e)
    ensures Ready(g, Next(g, m, e))
    ensures Durable(g, Next(g, m, e).disk) == NextSpec(Durable(g, m.disk), e)
  {
    match e
    case Commit(t, k) => CommitCut(g, m.disk, t, k);
    case Recover(k) => RecoveryCut(g, m.disk, k);
    case PowerLoss =>
  }

  ghost predicate IsRun(g: Geometry, ms: seq<Machine>, es: seq<Event>) {
    && |ms| == |es| + 1
    && Ready(g, ms[0])
    && forall i :: 0 <= i < |es| ==>
         ValidDisk(g, ms[i].disk) && Enabled(g, ms[i], es[i]) && ms[i + 1] == Next(g, ms[i], es[i])
  }

  function RunSpec(h: HomeMap, es: seq<Event>): HomeMap {
    if es == [] then h else NextSpec(RunSpec(h, es[..|es| - 1]), es[|es| - 1])
  }

  /** Crash atomicity: over every run of commits and recoveries, each cut anywhere, a boot
      would find exactly the transactions whose header reached the disk, each as a whole and
      in order; and whenever the machine is up, the home blocks already hold that state. */
  lemma {:induction false} CrashAtomicity(g: Geometry, ms: seq<Machine>, es: seq<Event>)
    requires IsRun(g, ms, es)
    ensures var m := ms[|es|];
            && Ready(g, m)
            && Durable(g, m.disk) == RunSpec(Durable(g, ms[0].disk), es)
            && (m.up ==> Home(g, m.disk) == RunSpec(Durable(g, ms[0].disk), es))
  {
    if es != [] {
      var n := |es| - 1;
      assert IsRun(g, ms[..n + 1], es[..n]);
      CrashAtomicity(g, ms[..n + 1], es[..n]);
      StepRefines(g, ms[n], es[n]);
    }
  }
}
