/**
 The code of kernel/fs.c for block allocation, block maps, reading, writing and truncating
 files, and the loop of filewrite() in kernel/file.c.
 */
module FsCode {
  import opened Options
  import opened Seqs
  import opened FsModel
  import opened FsSpace


  // Refused is the return value -1, Panicked is panic("balloc: out of blocks").
  datatype WriteResult = Refused | Count(n: nat) | Panicked

  datatype ChunkResult = Copied | NoCopy | NoBlock

  class FileSystem {
    const l: Layout
    const used: array<bool>
    const blocks: array<Block>
    var inodes: map<int, Inode>
    // The blocks passed to log_write() in the running operation.
    ghost var logged: set<int>

    ghost predicate Shape()
      reads this
    {
      l.Valid() && used.Length == blocks.Length == l.size
    }

    ghost function S(): Fs
      reads this, used, blocks
    {
      Fs(l, used[..], blocks[..], inodes)
    }

    ghost predicate Valid()
      reads this, used, blocks
    {
      Shape() && Inv(S())
    }

    // An image without files, as mkfs starts from: only the metadata blocks are in use.
    constructor (l: Layout, inums: set<int>)
      requires l.Valid()
      ensures this.l == l && Valid() && logged == {} && inodes.Keys == inums
      ensures forall i :: i in inodes ==> inodes[i] == EMPTY
      ensures fresh(used) && fresh(blocks)
    {
      this.l := l;
      used := new bool[l.size](b => b < l.data);
      blocks := new Block[l.size](_ => Zeros());
      inodes := map i | i in inums :: EMPTY;
      logged := {};
      new;
      NoFiles(S());
    }

    // balloc(): the first free block, marked and zeroed.
    method Balloc() returns (r: Option<nat>)
      requires Shape()
      modifies used, blocks, this`logged
      ensures r.Some? ==>
                && IsFree(old(S()), r.value) && S() == Marked(old(S()), r.value)
                && logged == old(logged) + {l.BBlock(r.value), r.value}
                && forall c :: 0 <= c < r.value ==> old(used[c])
      ensures r.None? ==> S() == old(S()) && logged == old(logged) && forall c :: 0 <= c < l.size ==> used[c]
    {
      var b := 0;
      while b < l.size
        invariant 0 <= b
        invariant S() == old(S()) && logged == old(logged)
        invariant forall c :: 0 <= c < b && c < l.size ==> used[c]
      {
        var bi := 0;
        while bi < BPB && b + bi < l.size
          invariant 0 <= bi <= BPB
          invariant S() == old(S()) && logged == old(logged)
          invariant forall c :: 0 <= c < b + bi && c < l.size ==> used[c]
        {
          if !used[b + bi] {
            used[b + bi] := true;
            blocks[b + bi] := Zeros();
            logged := logged + {l.BBlock(b + bi), b + bi};
            return Some(b + bi);
          }
          bi := bi + 1;
        }
        b := b + BPB;
      }
      return None;
    }

    // bfree() of a block that is in use.
    method Bfree(b: nat)
      requires Shape() && b < l.size && used[b]
      modifies used, this`logged
      ensures used[..] == old(used[..])[b := false] && logged == old(logged) + {l.BBlock(b)}
    {
      if !used[b] {
        assert false;
      }
      used[b] := false;
      logged := logged + {l.BBlock(b)};
    }

    // bmap() for a direct block.
    method BmapDirect(inum: int, bn: nat) returns (r: Option<nat>, ghost maps: set<int>)
      requires Valid() && inum in inodes && bn < NDIRECT
      modifies used, blocks, this`inodes, this`logged
      ensures Valid() && Grew(old(S()), S())
      ensures r.Some? ==> At(S(), Slot(inum, bn)) == r.value != 0
      ensures r.Some? ==> logged <= old(logged) + maps + {r.value}
      ensures |maps| <= if old(At(S(), Slot(inum, bn))) == 0 then 1 else 0
      ensures if r.Some? then GotBlock(old(S()), S(), Slot(inum, bn))
              else old(FreeCount(used[..])) == 0 && old(At(S(), Slot(inum, bn))) == 0
      ensures old(logged) <= logged && Logs(old(S()), S(), inum, logged)
      ensures LogsIn(l, old(logged)) ==> LogsIn(l, logged)
    {
      hide Separate, Exact, MetaUsed, NoHoles, Grew, GotBlock, Logs, LogsIn;
      ghost var s := S();
      maps := {};
      var addr := inodes[inum].addrs[bn];
      SameIsGrowth(s);
      LogsNothing(s, inum, logged);
      FreeCountNone(used[..]);
      if addr == 0 {
        var b := Balloc();
        if b.None? { return None, {}; }
        addr := b.value;
        GiveDirectGave(s, inum, bn, addr);
        GaveIsGrowth(s, GiveDirect(s, inum, bn, addr), Slot(inum, bn), addr);
        GaveGot(s, GiveDirect(s, inum, bn, addr), Slot(inum, bn), addr);
        LogsDirect(s, inum, bn, addr, old(logged));
        AllocLogs(s, old(logged), addr);
        inodes := inodes[inum := inodes[inum].(addrs := inodes[inum].addrs[bn := addr])];
        assert S() == GiveDirect(s, inum, bn, addr);
        maps := {l.BBlock(addr)};
      } else {
        SlotInRange(s, Slot(inum, bn));
        HadBlock(s, Slot(inum, bn));
      }
      return Some(addr), maps;
    }

    // Load the indirect block, allocating if necessary.
    method Indirect(inum: int) returns (ok: bool, ghost maps: set<int>)
      requires Valid() && inum in inodes
      modifies used, blocks, this`inodes, this`logged
      ensures Valid() && Grew(old(S()), S())
      ensures ok ==> inodes[inum].addrs[NDIRECT] != 0
      ensures ok ==> logged <= old(logged) + maps + {inodes[inum].addrs[NDIRECT]}
      ensures |maps| <= if old(inodes)[inum].addrs[NDIRECT] == 0 then 1 else 0
      ensures if ok then GotBlock(old(S()), S(), Slot(inum, MAXFILE))
              else old(FreeCount(used[..])) == 0 && old(At(S(), Slot(inum, MAXFILE))) == 0
      ensures old(logged) <= logged && Logs(old(S()), S(), inum, logged)
      ensures LogsIn(l, old(logged)) ==> LogsIn(l, logged)
    {
      hide Separate, Exact, MetaUsed, NoHoles, Grew, GotBlock, Logs, LogsIn;
      ghost var s := S();
      SameIsGrowth(s);
      LogsNothing(s, inum, logged);
      FreeCountNone(used[..]);
      maps := {};
      if inodes[inum].addrs[NDIRECT] == 0 {
        var b := Balloc();
        if b.None? { return false, {}; }
        GiveIndirectGave(s, inum, b.value);
        GaveIsGrowth(s, GiveIndirect(s, inum, b.value), Slot(inum, MAXFILE), b.value);
        GaveGot(s, GiveIndirect(s, inum, b.value), Slot(inum, MAXFILE), b.value);
        LogsIndirect(s, inum, b.value, old(logged));
        AllocLogs(s, old(logged), b.value);
        inodes := inodes[inum := inodes[inum].(addrs := inodes[inum].addrs[NDIRECT := b.value])];
        assert S() == GiveIndirect(s, inum, b.value);
        maps := {l.BBlock(b.value)};
      } else {
        HadBlock(s, Slot(inum, MAXFILE));
      }
      return true, maps;
    }

    // Entry j of the indirect block, allocating if necessary.
    method Entry(inum: int, j: nat) returns (r: Option<nat>, ghost maps: set<int>)
      requires Valid() && inum in inodes && j < NINDIRECT && inodes[inum].addrs[NDIRECT] != 0
      modifies used, blocks, this`logged
      ensures Valid() && Grew(old(S()), S())
      ensures r.Some? ==> At(S(), Slot(inum, NDIRECT + j)) == r.value != 0
      ensures r.Some? ==> logged <= old(logged) + maps + {r.value, inodes[inum].addrs[NDIRECT]}
      ensures |maps| <= if old(At(S(), Slot(inum, NDIRECT + j))) == 0 then 1 else 0
      ensures if r.Some? then GotBlock(old(S()), S(), Slot(inum, NDIRECT + j))
              else old(FreeCount(used[..])) == 0 && old(At(S(), Slot(inum, NDIRECT + j))) == 0
      ensures old(logged) <= logged && Logs(old(S()), S(), inum, logged)
      ensures LogsIn(l, old(logged)) ==> LogsIn(l, logged)
    {
      hide Separate, Exact, MetaUsed, NoHoles, Grew, GotBlock, Logs, LogsIn;
      ghost var s := S();
      SameIsGrowth(s);
      LogsNothing(s, inum, logged);
      FreeCountNone(used[..]);
      maps := {};
      var ind := inodes[inum].addrs[NDIRECT];
      var addr := Word(blocks[ind], j);
      if addr == 0 {
        var b := Balloc();
        if b.None? { return None, {}; }
        addr := b.value;
        GiveEntryGave(s, inum, j, addr);
        GaveIsGrowth(s, GiveEntry(s, inum, j, addr), Slot(inum, NDIRECT + j), addr);
        GaveGot(s, GiveEntry(s, inum, j, addr), Slot(inum, NDIRECT + j), addr);
        LogsEntry(s, inum, j, addr, old(logged));
        AllocLogs(s, old(logged), addr);
        SlotLogs(s, logged, Slot(inum, MAXFILE));
        blocks[ind] := PutWord(blocks[ind], j, addr);
        assert S() == GiveEntry(s, inum, j, addr);
        logged := logged + {ind};
        maps := {l.BBlock(addr)};
      } else {
        SlotInRange(s, Slot(inum, NDIRECT + j));
        HadBlock(s, Slot(inum, NDIRECT + j));
      }
      return Some(addr), maps;
    }

    // bmap(): the block number of block bn of the file.  The blocks logged are the block, the
    // indirect block, and one bitmap block for each block allocated.
    method Bmap(inum: int, bn: nat) returns (r: Option<nat>, ghost maps: set<int>)
      requires Valid() && inum in inodes && bn < MAXFILE
      modifies used, blocks, this`inodes, this`logged
      ensures Valid() && Grew(old(S()), S())
      ensures r.Some? ==> At(S(), Slot(inum, bn)) == r.value != 0
      ensures r.Some? ==> logged <= old(logged) + maps + {r.value} + IndirectOf(inodes[inum])
      ensures |maps| <= (if old(At(S(), Slot(inum, bn))) == 0 then 1 else 0)
                      + (if old(inodes)[inum].addrs[NDIRECT] == 0 && inodes[inum].addrs[NDIRECT] != 0 then 1 else 0)
      // It finds no block exactly when fewer are free than it needs.
      ensures r.None? <==> old(FreeCount(used[..])) < old(NeedOf(S(), inum, bn))
      ensures r.Some? ==> Took(old(S()), S(), inum, bn)
      ensures old(logged) <= logged && Logs(old(S()), S(), inum, logged)
      ensures LogsIn(l, old(logged)) ==> LogsIn(l, logged)
    {
      hide Separate, Exact, MetaUsed, NoHoles, Grew, Shaped, At, GotBlock, Took, Logs, LogsIn;
      ghost var s := S();
      if bn < NDIRECT {
        r, maps := BmapDirect(inum, bn);
        DirectNeeds(s, S(), inum, bn, r.Some?);
      } else {
        r, maps := BmapIndirect(inum, bn);
      }
    }

    method BmapIndirect(inum: int, bn: nat) returns (r: Option<nat>, ghost maps: set<int>)
      requires Valid() && inum in inodes && NDIRECT <= bn < MAXFILE
      modifies used, blocks, this`inodes, this`logged
      ensures Valid() && Grew(old(S()), S())
      ensures r.Some? ==> At(S(), Slot(inum, bn)) == r.value != 0
      ensures r.Some? ==> logged <= old(logged) + maps + {r.value} + IndirectOf(inodes[inum])
      ensures |maps| <= (if old(At(S(), Slot(inum, bn))) == 0 then 1 else 0)
                      + (if old(inodes)[inum].addrs[NDIRECT] == 0 && inodes[inum].addrs[NDIRECT] != 0 then 1 else 0)
      ensures r.None? <==> old(FreeCount(used[..])) < old(NeedOf(S(), inum, bn))
      ensures r.Some? ==> Took(old(S()), S(), inum, bn)
      ensures old(logged) <= logged && Logs(old(S()), S(), inum, logged)
      ensures LogsIn(l, old(logged)) ==> LogsIn(l, logged)
    {
      hide Separate, Exact, MetaUsed, NoHoles, Grew, Shaped, At, GotBlock, Took, Logs, LogsIn;
      ghost var s, lg := S(), logged;
      var ok;
      ok, maps := Indirect(inum);
      if !ok {
        NoIndirect(s, inum, bn);
        return None, {};
      }
      ghost var s1, m1, lg1 := S(), maps, logged;
      EntryWasEmpty(s, s1, inum, bn);
      r, maps := Entry(inum, bn - NDIRECT);
      IndirectNeeds(s, s1, S(), inum, bn, r.Some?);
      LogsMore(s, s1, S(), inum, lg1, logged);
      GrewTransitive(s, s1, S());
      GrewKeepsIndirect(s1, S(), inum);
      UnionSize(maps, m1);
      maps := maps + m1;
    }

    // One turn of writei(): find the block, copy the chunk in, log the block.
    method PutChunk(inum: int, off: nat, chunk: seq<int>, copies: bool)
      returns (r: ChunkResult, ghost a: int, ghost maps: set<int>)
      requires Valid() && inum in inodes && off < MAXFILE * BSIZE && off % BSIZE + |chunk| <= BSIZE
      requires forall i :: 0 <= i < |chunk| ==> 0 <= chunk[i] < 256
      modifies used, blocks, this`inodes, this`logged
      ensures Valid() && Kept(old(S()), S())
      ensures r == NoCopy ==> !copies && Grew(old(S()), S())
      ensures r == Copied ==> copies && Wrote(old(S()), S(), inum, off, chunk)
      ensures r != NoBlock ==> Has(S(), inum, off / BSIZE)
      ensures r != NoBlock ==> logged <= old(logged) + maps + {a} + IndirectOf(inodes[inum])
      ensures |maps| <= (if old(Has(S(), inum, off / BSIZE)) then 0 else 1)
                      + (if old(inodes)[inum].addrs[NDIRECT] == 0 && inodes[inum].addrs[NDIRECT] != 0 then 1 else 0)
      ensures r == NoBlock <==> old(FreeCount(used[..])) < old(NeedOf(S(), inum, off / BSIZE))
      ensures r != NoBlock ==> Took(old(S()), S(), inum, off / BSIZE) && (r == Copied <==> copies)
      ensures old(logged) <= logged && Logs(old(S()), S(), inum, logged)
      ensures LogsIn(l, old(logged)) ==> LogsIn(l, logged)
    {
      hide Separate, Exact, MetaUsed, NoHoles, Wrote, SameBytes, Took, Logs, LogsIn;
      ghost var s := S();
      var addr;
      addr, maps := Bmap(inum, off / BSIZE);
      a := 0;
      if addr.None? { return NoBlock, 0, maps; }
      a := addr.value;
      if !copies { return NoCopy, a, maps; }
      ghost var s1, lg1 := S(), logged;
      WriteBlockWrote(s1, inum, off, chunk);
      WroteAfterGrowth(s, s1, WriteBlock(s1, a, Laid(s1.blocks[a], off % BSIZE, chunk)), inum, off, chunk);
      blocks[addr.value] := Laid(blocks[addr.value], off % BSIZE, chunk);
      assert S() == WriteBlock(s1, a, Laid(s1.blocks[a], off % BSIZE, chunk));
      logged := logged + {a};
      SlotLogs(s1, lg1, Slot(inum, off / BSIZE));
      TookWrote(s, s1, S(), inum, off / BSIZE);
      LogsBlock(s1, a, Laid(s1.blocks[a], off % BSIZE, chunk), inum, logged);
      LogsMore(s, s1, S(), inum, lg1, logged);
      return Copied, a, maps;
    }

    // One turn of that loop.  `good` bytes of the source can be copied; the loop stops at the
    // first chunk that reaches beyond them.
    method WriteTurn(ghost s: Fs, inum: int, off: nat, src: seq<int>, at: nat, good: nat, ghost t: Tally)
      returns (r: ChunkResult, m: nat, ghost t': Tally)
      requires Valid() && Writing(s, S(), logged, inum, off, src, at, t)
      requires at < |src| && Counting(t, off, at, |src|) && AtChunk(off, at)
      requires Taking(s, S(), logged, inum, off, at)
      requires off + |src| <= MAXFILE * BSIZE && forall i :: 0 <= i < |src| ==> 0 <= src[i] < 256
      modifies used, blocks, this`inodes, this`logged
      ensures Valid() && Kept(s, S()) && m == Least(|src| - at, BSIZE - (off + at) % BSIZE)
      ensures r == NoBlock <==> NoneFor(s, inum, off, BlocksIn(off, at) + 1)
      ensures r != NoBlock ==> (r == Copied <==> at + m <= good) && Taking(s, S(), logged, inum, off, at + m)
      ensures r == NoCopy ==> Writing(s, S(), logged, inum, off, src, at, t')
      ensures r == Copied ==> Writing(s, S(), logged, inum, off, src, at + m, t')
      ensures r != NoBlock ==> Counting(t', off, at + m, |src|) && Counted(t', off, |src|)
    {
      hide Kept, Inv, Writing, Has, IndirectOf, Counting, Counted, Grew, Wrote;
      hide Took, Logs, LogsIn, Taking, NoneFor, NeedOf;
      m := Least(|src| - at, BSIZE - (off + at) % BSIZE);
      ghost var s1, lg := S(), logged;
      WritingFacts(s, s1, lg, inum, off, src, at, t);
      ghost var a, maps;
      r, a, maps := PutChunk(inum, off + at, src[at..at + m], at + m <= good);
      ghost var s2 := S();
      InvShapes(s, s1, s2);
      KeptTransitive(s, s1, s2);
      KeptInodes(s1, s2);
      ChunkBlock(off, at);
      TurnTakes(s, s1, s2, lg, logged, inum, off, at, m, |src|, r != NoBlock);
      t' := t;
      if r == NoBlock { return; }
      t' := TurnNext(s, s1, s2, lg, logged, inum, off, src, at, m, t, a, maps, r == Copied);
    }

    method WriteLoop(inum: int, off: nat, src: seq<int>, good: nat)
      returns (tot: Option<nat>, ghost t: Tally)
      requires Valid() && inum in inodes && off <= inodes[inum].size && off + |src| <= MAXFILE * BSIZE
      requires logged == {} && forall i :: 0 <= i < |src| ==> 0 <= src[i] < 256
      modifies used, blocks, this`inodes, this`logged
      ensures Valid() && Kept(old(S()), S())
      ensures tot.None? <==> TooFew(old(S()), inum, off, |src|, good)
      ensures tot.Some? ==>
                && tot.value == Copies(off, |src|, good)
                && TookRange(old(S()), S(), inum, off / BSIZE, Tried(off, |src|, good))
                && Logs(old(S()), S(), inum, logged) && LogsIn(l, logged)
                && Writing(old(S()), S(), logged, inum, off, src, tot.value, t) && Counted(t, off, |src|)
    {
      hide Separate, Exact, MetaUsed, NoHoles, Wrote, Filled, Kept, IndirectOf, Counting, Counted, Writing;
      hide TookRange, Logs, LogsIn, Taking, NoneFor, TooFew, AtChunk, Tried, Copies, BlocksIn;
      ghost var s := S();
      t := Tally(0, {}, 0, {}, 0);
      NothingCounted(off, |src|);
      StartLoop(inum, off, src);
      StartTaking(s, logged, inum, off);
      var at := 0;
      while at < |src|
        invariant 0 <= at <= |src| && at <= good && Valid() && Kept(s, S())
        invariant Writing(s, S(), logged, inum, off, src, at, t) && Taking(s, S(), logged, inum, off, at)
        invariant Counting(t, off, at, |src|) && Counted(t, off, |src|)
        invariant at < |src| ==> AtChunk(off, at)
      {
        var r, m;
        r, m, t := WriteTurn(s, inum, off, src, at, good, t);
        ChunkBlocks(off, at, m, |src|);
        if r == NoBlock {
          StopsShort(s, inum, off, at, |src|, good);
          return None, t;
        }
        if r == NoCopy {
          StopsBad(s, S(), logged, inum, off, at, m, |src|, good);
          return Some(at), t;
        }
        at := at + m;
      }
      StopsDone(s, S(), logged, inum, off, |src|, good);
      return Some(at), t;
    }

    lemma StartLoop(inum: int, off: nat, src: seq<int>)
      requires Valid() && inum in inodes && off <= inodes[inum].size && logged == {}
      ensures Writing(S(), S(), logged, inum, off, src, 0, Tally(0, {}, 0, {}, 0)) && Kept(S(), S())
    {
      StartWriting(S(), inum, off);
      assert src[..0] == [];
    }

    // writei(): -1 for a hole or a file that would be too large, else the bytes written.
    method Writei(inum: int, off: nat, src: seq<int>, good: nat) returns (r: WriteResult)
      requires Valid() && inum in inodes && off < UINT && |src| < UINT && logged == {}
      requires forall i :: 0 <= i < |src| ==> 0 <= src[i] < 256
      modifies used, blocks, this`inodes, this`logged
      ensures Valid() && inodes.Keys == old(inodes.Keys)
      ensures r == Refused <==> off > old(inodes)[inum].size || off + |src| > MAXFILE * BSIZE
      ensures r == Refused ==> S() == old(S()) && logged == {}
      // balloc() panics exactly when fewer blocks are free than the write needs.
      ensures r == Panicked <==> r != Refused && TooFew(old(S()), inum, off, |src|, good)
      ensures r.Count? ==>
                && r.n == Copies(off, |src|, good) <= |src|
                && WriteDone(old(S()), S(), inum, off, src[..r.n])
                && TookRange(old(S()), S(), inum, off / BSIZE, Tried(off, |src|, good))
                // Every block that differs is logged.
                && Logs(old(S()), S(), inum, logged) && l.IBlock(inum) in logged
                && LogsIn(l, logged - {l.IBlock(inum)})
                && (|src| <= CHUNK ==> |logged| <= MAXOPBLOCKS)
    {
      hide Separate, Exact, MetaUsed, NoHoles, Wrote, Filled, At, SameBytes, Counted, WriteDone;
      hide TookRange, Logs, LogsIn, TooFew, Tried, Copies;
      if off > inodes[inum].size || off + |src| >= UINT { return Refused; }
      if off + |src| > MAXFILE * BSIZE { return Refused; }
      ghost var s := S();
      var tot;
      ghost var t;
      tot, t := WriteLoop(inum, off, src, good);
      if tot.None? { return Panicked; }
      ghost var s1 := S();
      var end := off + tot.value;
      FinishWriting(s, s1, inum, off, src[..tot.value]);
      if end > inodes[inum].size {
        inodes := inodes[inum := inodes[inum].(size := end)];
      }
      assert S() == SetSize(s1, inum, Larger(s1.inodes[inum].size, end));
      TookResized(s, s1, inum, off / BSIZE, Tried(off, |src|, good), inodes[inum].size);
      LogsResized(s, s1, inum, inodes[inum].size, logged, l.IBlock(inum));
      LogsInLess(l, logged, l.IBlock(inum));
      logged := logged + {l.IBlock(inum)};
      if |src| <= CHUNK {
        TransactionBound(t, off, |src|, IndirectOf(inodes[inum]), l.IBlock(inum));
        Subset(logged, t.data + t.maps + IndirectOf(inodes[inum]) + {l.IBlock(inum)});
      }
      return Count(tot.value);
    }

    // filewrite() on an inode: one transaction for every three blocks of bytes.  `done` bytes
    // are written and the file offset has moved past them; `off` is the new offset.
    method FileWrite(inum: int, start: nat, src: seq<int>, good: nat)
      returns (r: WriteResult, off: nat, done: nat)
      requires Valid() && inum in inodes && start + |src| < UINT
      requires forall i :: 0 <= i < |src| ==> 0 <= src[i] < 256
      modifies used, blocks, this`inodes, this`logged
      ensures Valid() && inodes.Keys == old(inodes.Keys)
      // balloc() panics exactly when fewer blocks are free than all the calls of writei() need.
      ensures r.Panicked? <==> TooFew(old(S()), inum, start, Allowed(old(inodes)[inum].size, start, |src|), good)
      ensures !r.Panicked? ==>
                && done == FileCopies(start, Allowed(old(inodes)[inum].size, start, |src|), good) <= |src|
                && off == start + done && (r == if done == |src| then Count(|src|) else Refused)
                && (done > 0 ==> WriteDone(old(S()), S(), inum, start, src[..done]))
                && (done == 0 ==> forall i :: i in inodes ==> SameFile(old(S()), S(), i))
    {
      hide Inv, WriteDone, SameFile;
      hide Between, FileEnds, TooFew, TookRange, Tried, Copies, FileCopies, Allowed, Logs;
      var max := (MAXOPBLOCKS - 1 - 1 - 2) / 2 * BSIZE;
      assert max == CHUNK;
      ghost var s := S();
      FileStarts(s, inum, start, |src|, good);
      done, off := 0, start;
      while done < |src|
        invariant 0 <= done <= |src| && off == start + done && Valid() && inodes.Keys == s.inodes.Keys
        invariant done > 0 ==> WriteDone(s, S(), inum, start, src[..done])
        invariant done == 0 ==> forall i :: i in inodes ==> SameFile(s, S(), i)
        invariant start <= s.inodes[inum].size ==> off <= inodes[inum].size
        invariant start > s.inodes[inum].size ==> inodes[inum].size == s.inodes[inum].size
        invariant Between(s, S(), inum, start, |src|, good, done) && done <= good
      {
        var n1 := Least(|src| - done, max);
        logged := {};
        ghost var s1 := S();
        var w := Writei(inum, off, src[done..done + n1], good - done);
        CallEnds(s, s1, S(), inum, start, |src|, good, done, n1, w);
        if w.Panicked? { return Panicked, off, done; }
        assert |logged| <= MAXOPBLOCKS;
        var n := if w.Count? then w.n else 0;
        assert src[done..done + n1][..n] == src[done..done + n];
        WriteMore(s, s1, S(), inum, start, src, done, n, w.Refused?);
        off := off + n;
        done := done + n;
        if n != n1 {
          FileEndsSo(s, inum, start, |src|, good, done);
          return Refused, off, done;
        }
      }
      assert src[..|src|] == src;
      AllWritten(s, S(), inum, start, |src|, good);
      r := Count(|src|);
    }

    // readi(): the bytes from off on, as far as the file goes; or -1, with a part of them, when
    // the destination takes only good bytes.
    method Readi(inum: int, off: nat, n: nat, good: nat) returns (r: int, data: seq<int>)
      requires Valid() && inum in inodes && off < UINT && n < UINT
      ensures inodes[inum].size <= MAXFILE * BSIZE
      ensures ReadOk(Contents(S(), inum), off, n, good, r, data)
    {
      SizeIsBounded(S(), inum);
      ghost var c := Contents(S(), inum);
      hide Inv, Byte, Contents;
      if off > inodes[inum].size || off + n >= UINT { return 0, []; }
      var end := Least(off + n, inodes[inum].size);
      assert off <= end <= |c|;
      hide ReadOk, IsSlice, Least;
      NoSlice(c, off);
      data := [];
      while off + |data| < end
        invariant off + |data| <= end && |data| <= good
        invariant IsSlice(c, off, data)
      {
        var at := off + |data|;
        var chunk := ReadBlock(inum, at, end, c);
        if |data| + |chunk| > good {
          ReadEnds(c, off, n, good, data);
          return -1, data;
        }
        SliceMore(c, off, data, chunk);
        data := data + chunk;
      }
      ReadEnds(c, off, n, good, data);
      r := |data|;
    }

    // One turn of that loop: the bytes up to the end of the block.
    method ReadBlock(inum: int, at: nat, end: nat, ghost c: seq<int>) returns (chunk: seq<int>)
      requires Valid() && inum in inodes && at < end <= inodes[inum].size <= MAXFILE * BSIZE
      requires c == Contents(S(), inum)
      ensures 0 < |chunk| <= end - at && IsSlice(c, at, chunk)
    {
      hide Separate, Exact, MetaUsed;
      var m := Least(end - at, BSIZE - at % BSIZE);
      assert Filled(S(), inum, inodes[inum].size);
      assert Has(S(), inum, at / BSIZE);
      var a := Lookup(inum, at / BSIZE);
      chunk := blocks[a][at % BSIZE..at % BSIZE + m];
      ReadChunk(S(), inum, at, m, chunk);
    }

    // bmap() of a block that is present.
    method Lookup(inum: int, bn: nat) returns (a: nat)
      requires Valid() && inum in inodes && Has(S(), inum, bn)
      ensures a == At(S(), Slot(inum, bn)) && 0 < a < l.size
    {
      hide Exact, MetaUsed, NoHoles;
      SlotInRange(S(), Slot(inum, bn));
      if bn < NDIRECT {
        a := inodes[inum].addrs[bn];
      } else {
        a := Word(blocks[inodes[inum].addrs[NDIRECT]], bn - NDIRECT);
      }
    }

    // itrunc(): free the direct blocks, the entries of the indirect block, and that block.
    method Itrunc(inum: int)
      requires Valid() && inum in inodes
      modifies used, this`inodes, this`logged
      ensures Valid() && inodes == old(inodes)[inum := EMPTY]
      ensures FreedFirst(old(S()), used[..], inum, MAXFILE + 1) && blocks[..] == old(blocks[..])
      ensures forall i :: i in inodes && i != inum ==> SameBytes(old(S()), S(), i)
    {
      hide Separate, Exact, MetaUsed, NoHoles, FreedFirst, SameBytes, At;
      ghost var s := S();
      FreeDirect(inum);
      var ind := inodes[inum].addrs[NDIRECT];
      if ind != 0 {
        FreeEntries(s, inum, ind);
        inodes := inodes[inum := inodes[inum].(addrs := inodes[inum].addrs[NDIRECT := 0])];
      } else {
        FreedEmpty(s, used[..], inum);
      }
      inodes := inodes[inum := inodes[inum].(size := 0)];
      assert inodes[inum].addrs == EMPTY.addrs;
      assert S() == s.(used := used[..], inodes := s.inodes[inum := EMPTY]);
      TruncateKeeps(s, inum, used[..]);
      logged := logged + {l.IBlock(inum)};
    }

    method FreeDirect(inum: int)
      requires Valid() && inum in inodes
      modifies used, this`inodes, this`logged
      ensures FreedFirst(old(S()), used[..], inum, NDIRECT)
      ensures inodes == old(inodes)[inum := ClearedAddrs(old(inodes)[inum], NDIRECT)]
    {
      hide Separate, Exact, MetaUsed, NoHoles, FreedFirst, At;
      ghost var s := S();
      FreedNone(s, inum);
      var n := 0;
      while n < NDIRECT
        invariant 0 <= n <= NDIRECT && FreedFirst(s, used[..], inum, n)
        invariant inum in inodes && inodes == s.inodes[inum := ClearedAddrs(s.inodes[inum], n)]
      {
        FreeNext(s, used[..], inum, n);
        DirectSlot(s, inum, n);
        if inodes[inum].addrs[n] != 0 {
          Bfree(inodes[inum].addrs[n]);
          inodes := inodes[inum := inodes[inum].(addrs := inodes[inum].addrs[n := 0])];
        }
        n := n + 1;
      }
    }

    method FreeEntries(ghost s: Fs, inum: int, ind: nat)
      requires Inv(s) && inum in s.inodes && s.inodes[inum].addrs[NDIRECT] == ind != 0
      requires Shape() && s.l == l && s.blocks == blocks[..] && FreedFirst(s, used[..], inum, NDIRECT)
      modifies used, this`logged
      ensures FreedFirst(s, used[..], inum, MAXFILE + 1)
    {
      hide Separate, Exact, MetaUsed, NoHoles, FreedFirst, At;
      var j := 0;
      while j < NINDIRECT
        invariant 0 <= j <= NINDIRECT && FreedFirst(s, used[..], inum, NDIRECT + j)
      {
        FreeNext(s, used[..], inum, NDIRECT + j);
        EntrySlot(s, inum, j);
        var a := Word(blocks[ind], j);
        if a != 0 {
          Bfree(a);
        }
        j := j + 1;
      }
      FreeNext(s, used[..], inum, MAXFILE);
      IndirectSlot(s, inum);
      Bfree(ind);
    }
  }

  // data is what c has from off on.
  predicate IsSlice(c: seq<int>, off: nat, data: seq<int>) {
    off + |data| <= |c| && data == c[off..off + |data|]
  }

  lemma NoSlice(c: seq<int>, off: nat)
    requires off <= |c|
    ensures IsSlice(c, off, [])
  {
  }

  lemma SliceMore(c: seq<int>, off: nat, a: seq<int>, b: seq<int>)
    requires IsSlice(c, off, a) && IsSlice(c, off + |a|, b)
    ensures IsSlice(c, off, a + b)
  {
    assert c[off..off + |a|] + c[off + |a|..off + |a| + |b|] == c[off..off + |a| + |b|];
  }

  lemma NoFiles(s: Fs)
    requires s.l.Valid() && |s.used| == |s.blocks| == s.l.size
    requires forall b :: 0 <= b < s.l.size ==> s.used[b] == (b < s.l.data) && s.blocks[b] == Zeros()
    requires forall i :: i in s.inodes ==> s.inodes[i] == EMPTY
    ensures Inv(s)
  {
    forall x | IsSlot(s.inodes, x) ensures Shaped(s) && At(s, x) == 0 { }
  }

  // A write of src at off has happened, and nothing else.
  ghost predicate WriteDone(s: Fs, s': Fs, inum: int, off: nat, src: seq<int>)
    requires Inv(s) && Inv(s') && inum in s.inodes
  {
    && off <= s.inodes[inum].size <= MAXFILE * BSIZE
    && s'.inodes.Keys == s.inodes.Keys && s'.inodes[inum].size <= MAXFILE * BSIZE
    && Contents(s', inum) == Spliced(Contents(s, inum), off, src)
    && forall i :: i in s.inodes && i != inum ==>
         && s.inodes[i].size == s'.inodes[i].size <= MAXFILE * BSIZE
         && Contents(s', i) == Contents(s, i)
  }

  // What readi() returns and copies of a file with contents c.
  predicate ReadOk(c: seq<int>, off: nat, n: nat, good: nat, r: int, data: seq<int>) {
    if off > |c| || off + n >= UINT then r == 0 && data == []
    else
      var end := Least(off + n, |c|);
      && r == (if end - off <= good then end - off else -1)
      && off + |data| <= end && IsSlice(c, off, data)
      && (r >= 0 ==> |data| == r) && (r < 0 ==> |data| <= good)
  }

  // The loop of readi() ends.
  lemma ReadEnds(c: seq<int>, off: nat, n: nat, good: nat, data: seq<int>)
    requires off <= |c| && off + n < UINT && |data| <= good
    requires off + |data| <= Least(off + n, |c|) && IsSlice(c, off, data)
    ensures off + |data| == Least(off + n, |c|) ==> ReadOk(c, off, n, good, |data|, data)
    ensures Least(off + n, |c|) - off > good ==> ReadOk(c, off, n, good, -1, data)
  {
  }

  // The file has the same size and bytes.
  ghost predicate SameFile(s: Fs, s': Fs, i: int)
    requires Inv(s) && Inv(s') && i in s.inodes && i in s'.inodes
  {
    && s'.inodes[i].size == s.inodes[i].size <= MAXFILE * BSIZE
    && Contents(s', i) == Contents(s, i)
  }

  lemma EachSame(s: Fs)
    requires Inv(s)
    ensures forall i :: i in s.inodes ==> SameFile(s, s, i)
  {
    forall i | i in s.inodes
      ensures SameFile(s, s, i)
    {
      SizeIsBounded(s, i);
    }
  }

  // Two writes in a row.
  lemma WriteMore(s: Fs, s1: Fs, s2: Fs, inum: int, start: nat, src: seq<int>, done: nat, n: nat, refused: bool)
    requires Inv(s) && Inv(s1) && Inv(s2) && inum in s.inodes && done + n <= |src|
    requires s1.inodes.Keys == s.inodes.Keys == s2.inodes.Keys
    requires done > 0 ==> WriteDone(s, s1, inum, start, src[..done])
    requires done == 0 ==> forall i :: i in s.inodes ==> SameFile(s, s1, i)
    requires if refused then n == 0 && s2 == s1
             else WriteDone(s1, s2, inum, start + done, src[done..done + n])
    ensures done + n > 0 ==> WriteDone(s, s2, inum, start, src[..done + n])
    ensures done + n == 0 ==> forall i :: i in s.inodes ==> SameFile(s, s2, i)
    ensures !refused ==> start + done + n <= s2.inodes[inum].size
  {
    hide Separate, Exact, MetaUsed, NoHoles, At, Byte, Contents, Shaped;
    if !refused {
      var c := Contents(s, inum);
      if done > 0 {
        SplicedTwice(c, start, src[..done], src[done..done + n]);
        assert src[..done] + src[done..done + n] == src[..done + n];
      } else {
        assert SameFile(s, s1, inum);
        assert src[..0 + n] == src[0..0 + n];
        if n == 0 { SplicedNothing(c, start); }
      }
      forall i | i in s.inodes && i != inum
        ensures SameFile(s, s2, i)
      {
        if done == 0 { assert SameFile(s, s1, i); }
      }
    }
  }

  lemma SplicedTwice(c: seq<int>, off: nat, a: seq<int>, b: seq<int>)
    requires off <= |c|
    ensures off + |a| <= |Spliced(c, off, a)|
    ensures Spliced(Spliced(c, off, a), off + |a|, b) == Spliced(c, off, a + b)
  {
    var d := Spliced(c, off, a);
    var e, f := Spliced(d, off + |a|, b), Spliced(c, off, a + b);
    assert d[..off + |a|] == c[..off] + a;
    if off + |a| + |b| < |c| {
      assert d[off + |a| + |b|..] == c[off + |a| + |b|..];
    }
    Assoc(c[..off], a, b);
  }

  lemma SplicedNothing(c: seq<int>, off: nat)
    requires off <= |c|
    ensures Spliced(c, off, []) == c
  {
  }

  lemma FinishWriting(s: Fs, s1: Fs, inum: int, off: nat, src: seq<int>)
    requires Inv(s) && Inv(s1) && inum in s.inodes && Kept(s, s1) && off <= s.inodes[inum].size
    requires Wrote(s, s1, inum, off, src) && Filled(s1, inum, off + |src|)
    ensures inum in s1.inodes
    ensures var s2 := SetSize(s1, inum, Larger(s1.inodes[inum].size, off + |src|));
            Inv(s2) && s2.inodes.Keys == s.inodes.Keys && WriteDone(s, s2, inum, off, src)
  {
    hide Separate, Exact, MetaUsed, Wrote, Filled, At, SameBytes, Contents;
    var s2 := SetSize(s1, inum, Larger(s1.inodes[inum].size, off + |src|));
    SetSizeKeeps(s1, inum, Larger(s1.inodes[inum].size, off + |src|));
    SameBytesWrote(s, s1, s2, inum, off, src);
    WroteIsSpliced(s, s2, inum, off, src);
  }

  lemma ReadChunk(s: Fs, inum: int, at: nat, m: nat, chunk: seq<int>)
    requires Shaped(s) && inum in s.inodes && at + m <= s.inodes[inum].size <= MAXFILE * BSIZE
    requires at % BSIZE + m <= BSIZE && at < MAXFILE * BSIZE
    requires var a := At(s, Slot(inum, at / BSIZE));
             0 < a < s.l.size && chunk == s.blocks[a][at % BSIZE..at % BSIZE + m]
    ensures chunk == Contents(s, inum)[at..at + m]
  {
    forall i | 0 <= i < m
      ensures chunk[i] == Contents(s, inum)[at..at + m][i]
    {
      assert (at + i) / BSIZE == at / BSIZE && (at + i) % BSIZE == at % BSIZE + i;
    }
  }

  // The addresses once the first n direct ones have been cleared.
  function ClearedAddrs(ip: Inode, n: nat): (r: Inode)
    requires |ip.addrs| == NDIRECT + 1 && n <= NDIRECT
    ensures |r.addrs| == NDIRECT + 1
  {
    ip.(addrs := seq(n, i => 0) + ip.addrs[n..])
  }

  lemma FreedNone(s: Fs, inum: int)
    requires Shaped(s) && inum in s.inodes
    ensures FreedFirst(s, s.used, inum, 0) && ClearedAddrs(s.inodes[inum], 0) == s.inodes[inum]
  {
    assert ClearedAddrs(s.inodes[inum], 0).addrs == s.inodes[inum].addrs;
  }

  lemma FreedEmpty(s: Fs, used: seq<bool>, inum: int)
    requires Shaped(s) && inum in s.inodes && s.inodes[inum].addrs[NDIRECT] == 0
    requires FreedFirst(s, used, inum, NDIRECT)
    ensures FreedFirst(s, used, inum, MAXFILE + 1)
  {
    forall b | 0 <= b < |used|
      ensures InFirst(s, inum, MAXFILE + 1, b) <==> InFirst(s, inum, NDIRECT, b)
    {
      if InFirst(s, inum, NDIRECT, b) {
        var m :| 0 <= m < NDIRECT && At(s, Slot(inum, m)) == b;
        assert 0 <= m < MAXFILE + 1 && At(s, Slot(inum, m)) == b;
      }
    }
  }

  lemma DirectSlot(s: Fs, inum: int, n: nat)
    requires Shaped(s) && inum in s.inodes && n < NDIRECT
    ensures At(s, Slot(inum, n)) == s.inodes[inum].addrs[n] == ClearedAddrs(s.inodes[inum], n).addrs[n]
    ensures var a := ClearedAddrs(s.inodes[inum], n);
            && ClearedAddrs(s.inodes[inum], n + 1) == a.(addrs := a.addrs[n := 0])
            && (a.addrs[n] == 0 ==> ClearedAddrs(s.inodes[inum], n + 1) == a)
  {
    var a := ClearedAddrs(s.inodes[inum], n);
    assert a.addrs[n := 0] == ClearedAddrs(s.inodes[inum], n + 1).addrs;
  }

  lemma EntrySlot(s: Fs, inum: int, j: nat)
    requires Shaped(s) && inum in s.inodes && s.inodes[inum].addrs[NDIRECT] != 0 && j < NINDIRECT
    ensures At(s, Slot(inum, NDIRECT + j)) == Word(s.blocks[s.inodes[inum].addrs[NDIRECT]], j)
  {
  }

  lemma IndirectSlot(s: Fs, inum: int)
    requires Shaped(s) && inum in s.inodes
    ensures At(s, Slot(inum, MAXFILE)) == s.inodes[inum].addrs[NDIRECT]
  {
  }

  // The blocks an operation has logged: data blocks, one for each turn of the loop, and a
  // bitmap block for each of the `added` data blocks and the indirect block allocated.
  datatype Tally = Tally(turns: nat, data: set<int>, added: nat, maps: set<int>, indirects: nat)

  function Next(t: Tally, a: int, maps: set<int>, added: bool, indirect: bool): Tally {
    Tally(t.turns + 1, t.data + {a}, t.added + (if added then 1 else 0), t.maps + maps,
          t.indirects + if indirect then 1 else 0)
  }

  // An unaligned write finds its first block present.
  function Slop(off: nat): nat {
    if off % BSIZE == 0 then 0 else 1
  }

  ghost predicate Counted(t: Tally, off: nat, n: nat) {
    && |t.data| <= t.turns && |t.maps| <= t.added + t.indirects && t.indirects <= 1
    && (t.turns == 0 ==> t.added == 0)
    && (t.turns > 0 ==> t.added + Slop(off) <= t.turns && (off / BSIZE + t.turns - 1) * BSIZE < off + n)
  }

  // The same, before a turn of the loop: all chunks but the last end on a block boundary.
  ghost predicate Counting(t: Tally, off: nat, at: nat, n: nat) {
    && Counted(t, off, n)
    && (t.turns == 0 <==> at == 0)
    && (t.turns > 0 && at < n ==> off + at == (off / BSIZE + t.turns) * BSIZE)
  }

  lemma NothingCounted(off: nat, n: nat)
    ensures var t := Tally(0, {}, 0, {}, 0);
            Counting(t, off, 0, n) && Counted(t, off, n)
  {
  }

  lemma CountNext(t: Tally, a: int, maps: set<int>, added: bool, indirect: bool,
                  off: nat, at: nat, m: nat, n: nat)
    requires Counting(t, off, at, n) && at < n && m == Least(n - at, BSIZE - (off + at) % BSIZE)
    requires |maps| <= (if added then 1 else 0) + (if indirect then 1 else 0)
    requires at == 0 && off % BSIZE != 0 ==> !added
    requires indirect ==> t.indirects != 1
    ensures Counting(Next(t, a, maps, added, indirect), off, at + m, n) && 0 < m
    ensures Counted(Next(t, a, maps, added, indirect), off, n)
  {
    UnionSize(t.data, {a});
    UnionSize(t.maps, maps);
  }

  lemma UnionSize<T>(a: set<T>, b: set<T>)
    ensures |a + b| <= |a| + |b|
  {
    assert |a + b| == |a| + |b| - |a * b|;
  }

  /** A write of at most three blocks of bytes logs at most ten blocks: four data blocks of
      which three are new, the indirect block, four bitmap blocks, and the inode's block. */
  lemma TransactionBound(t: Tally, off: nat, n: nat, ind: set<int>, ib: int)
    requires Counted(t, off, n) && n <= CHUNK && |ind| <= 1
    ensures |t.data + t.maps + ind + {ib}| <= MAXOPBLOCKS
  {
    assert t.turns <= 3 + Slop(off);
    UnionSize(t.data, t.maps);
    UnionSize(t.data + t.maps, ind);
    UnionSize(t.data + t.maps + ind, {ib});
  }

  // The count comes to ten: four turns from the middle of a block on, with the indirect block and
  // three data blocks new and every new block in a bitmap block of its own.
  lemma TenBlocks()
    ensures var t := Tally(4, {1, 2, 3, 4}, 3, {5, 6, 7, 8}, 1);
            Counted(t, 1, 3 * BSIZE) && |t.data + t.maps + {9} + {10}| == MAXOPBLOCKS
  {
    hide Counted, Counting, Next;
    var n := 3 * BSIZE;
    var t0, t1, t2 := Tally(0, {}, 0, {}, 0), Tally(1, {1}, 0, {}, 0), Tally(2, {1, 2}, 1, {5, 6}, 1);
    var t3 := Tally(3, {1, 2, 3}, 2, {5, 6, 7}, 1);
    FourTurns();
    NothingCounted(1, n);
    CountNext(t0, 1, {}, false, false, 1, 0, BSIZE - 1, n);
    CountNext(t1, 2, {5, 6}, true, true, 1, BSIZE - 1, BSIZE, n);
    CountNext(t2, 3, {7}, true, false, 1, 2 * BSIZE - 1, BSIZE, n);
    CountNext(t3, 4, {8}, true, false, 1, 3 * BSIZE - 1, 1, n);
    SizeOfTen();
  }

  lemma FourTurns()
    ensures Next(Tally(0, {}, 0, {}, 0), 1, {}, false, false) == Tally(1, {1}, 0, {}, 0)
    ensures Next(Tally(1, {1}, 0, {}, 0), 2, {5, 6}, true, true) == Tally(2, {1, 2}, 1, {5, 6}, 1)
    ensures Next(Tally(2, {1, 2}, 1, {5, 6}, 1), 3, {7}, true, false) == Tally(3, {1, 2, 3}, 2, {5, 6, 7}, 1)
    ensures Next(Tally(3, {1, 2, 3}, 2, {5, 6, 7}, 1), 4, {8}, true, false)
         == Tally(4, {1, 2, 3, 4}, 3, {5, 6, 7, 8}, 1)
  {
  }

  lemma SizeOfTen()
    ensures |{1, 2, 3, 4} + {5, 6, 7, 8} + {9} + {10}| == 10
  {
    var s := {1, 2, 3, 4} + {5, 6, 7, 8};
    assert |s| == |{1, 2, 3, 4}| + |{5, 6, 7, 8}|;
    assert |s + {9}| == |s| + 1;
    assert |s + {9} + {10}| == |s + {9}| + 1;
  }

  // The state of the loop of writei() that started in s, with `at` bytes written.
  ghost predicate Writing(s: Fs, s1: Fs, logged: set<int>, inum: int, off: nat, src: seq<int>, at: nat, t: Tally) {
    && Inv(s) && Inv(s1) && inum in s.inodes && Kept(s, s1)
    && at <= |src| && Wrote(s, s1, inum, off, src[..at]) && Filled(s1, inum, off + at)
    && logged <= t.data + t.maps + IndirectOf(s1.inodes[inum])
    && (t.indirects == 1 <==> s.inodes[inum].addrs[NDIRECT] == 0 != s1.inodes[inum].addrs[NDIRECT])
  }

  lemma WritingFacts(s: Fs, s1: Fs, logged: set<int>, inum: int, off: nat, src: seq<int>, at: nat, t: Tally)
    requires Writing(s, s1, logged, inum, off, src, at, t)
    ensures Inv(s) && Inv(s1) && Kept(s, s1) && inum in s.inodes && inum in s1.inodes
  {
    KeptInodes(s, s1);
  }

  lemma InvShapes(s: Fs, s1: Fs, s2: Fs)
    requires Inv(s) && Inv(s1) && Inv(s2)
    ensures Shaped(s) && Shaped(s1) && Shaped(s2)
  {
  }

  // What the loop has taken and logged after `at` bytes.
  ghost predicate Taking(s: Fs, s1: Fs, logged: set<int>, inum: int, off: nat, at: nat) {
    TookRange(s, s1, inum, off / BSIZE, BlocksIn(off, at)) && Logs(s, s1, inum, logged) && LogsIn(s.l, logged)
  }

  // There are not enough blocks for k blocks from off on.
  ghost predicate NoneFor(s: Fs, inum: int, off: nat, k: nat) {
    && Shaped(s) && inum in s.inodes && off / BSIZE + k <= MAXFILE
    && FreeCount(s.used) < NeedRange(s, inum, off / BSIZE, k)
  }

  lemma StartTaking(s: Fs, logged: set<int>, inum: int, off: nat)
    requires Shaped(s) && inum in s.inodes && off <= MAXFILE * BSIZE && logged == {}
    ensures Taking(s, s, logged, inum, off, 0) && AtChunk(off, 0)
  {
    TookNothing(s, inum, off / BSIZE);
    LogsNothing(s, inum, logged);
  }

  lemma TurnTakes(s: Fs, s1: Fs, s2: Fs, lg: set<int>, logged: set<int>, inum: int, off: nat, at: nat, m: nat,
                  n: nat, found: bool)
    requires Taking(s, s1, lg, inum, off, at) && AtChunk(off, at) && at < n && off + n <= MAXFILE * BSIZE
    requires m == Least(n - at, BSIZE - (off + at) % BSIZE) && Shaped(s1) && inum in s1.inodes
    requires found <==> NeedOf(s1, inum, (off + at) / BSIZE) <= FreeCount(s1.used)
    requires found ==> Took(s1, s2, inum, (off + at) / BSIZE)
    requires lg <= logged && Logs(s1, s2, inum, logged) && (LogsIn(s.l, lg) ==> LogsIn(s.l, logged))
    ensures found <==> !NoneFor(s, inum, off, BlocksIn(off, at) + 1)
    ensures found ==> Taking(s, s2, logged, inum, off, at + m)
  {
    hide Took, Logs, LogsIn;
    var p, k := off / BSIZE, BlocksIn(off, at);
    ChunkBlock(off, at);
    ChunkBlocks(off, at, m, n);
    NeedNext(s, s1, inum, p, k);
    LogsMore(s, s1, s2, inum, lg, logged);
    if found { TookNext(s, s1, s2, inum, p, k); }
  }

  // The loop ends: without a block, at a bad byte, or with all bytes.
  lemma StopsShort(s: Fs, inum: int, off: nat, at: nat, n: nat, good: nat)
    requires NoneFor(s, inum, off, BlocksIn(off, at) + 1) && AtChunk(off, at) && at < n && at <= good
    requires off + n <= MAXFILE * BSIZE
    ensures TooFew(s, inum, off, n, good)
  {
    var a := Least(n, good + 1);
    ChunkBlocks(off, at, 1, at + 1);
    BlocksGrow(off, at + 1, a);
    BlocksInFile(off, a);
    NeedGrows(s, inum, off / BSIZE, BlocksIn(off, at) + 1, BlocksIn(off, a));
  }

  lemma StopsBad(s: Fs, s1: Fs, logged: set<int>, inum: int, off: nat, at: nat, m: nat, n: nat, good: nat)
    requires Taking(s, s1, logged, inum, off, at + m) && AtChunk(off, at) && at < n && at <= good < at + m
    requires m == Least(n - at, BSIZE - (off + at) % BSIZE)
    ensures TookRange(s, s1, inum, off / BSIZE, Tried(off, n, good))
    ensures Logs(s, s1, inum, logged) && LogsIn(s.l, logged)
    ensures Copies(off, n, good) == at && !TooFew(s, inum, off, n, good)
  {
    BadChunk(off, at, m, n, good);
    ChunkBlocks(off, at, m, n);
  }

  lemma StopsDone(s: Fs, s1: Fs, logged: set<int>, inum: int, off: nat, n: nat, good: nat)
    requires Taking(s, s1, logged, inum, off, n) && n <= good
    ensures TookRange(s, s1, inum, off / BSIZE, Tried(off, n, good))
    ensures Logs(s, s1, inum, logged) && LogsIn(s.l, logged)
    ensures Copies(off, n, good) == n && !TooFew(s, inum, off, n, good)
  {
  }

  lemma LogsInLess(l: Layout, lg: set<int>, b: int)
    requires LogsIn(l, lg)
    ensures LogsIn(l, lg + {b} - {b})
  {
  }

  lemma LogsResized(s: Fs, s1: Fs, inum: int, size: nat, lg: set<int>, b: int)
    requires Logs(s, s1, inum, lg) && inum in s1.inodes
    ensures Logs(s, SetSize(s1, inum, size), inum, lg + {b})
  {
  }

  lemma FileStarts(s: Fs, inum: int, start: nat, n: nat, good: nat)
    requires Inv(s) && inum in s.inodes
    ensures Between(s, s, inum, start, n, good, 0) && forall i :: i in s.inodes ==> SameFile(s, s, i)
  {
    SizeIsBounded(s, inum);
    EachSame(s);
    BetweenStarts(s, inum, start, n, good);
  }

  // One call of writei() by filewrite().
  lemma CallEnds(s: Fs, s1: Fs, s2: Fs, inum: int, start: nat, n: nat, good: nat, done: nat, n1: nat, w: WriteResult)
    requires Between(s, s1, inum, start, n, good, done) && done < n && n1 == Least(n - done, CHUNK)
    requires inum in s1.inodes && inum in s.inodes
    requires start <= s.inodes[inum].size ==> start + done <= s1.inodes[inum].size
    requires start > s.inodes[inum].size ==> s1.inodes[inum].size == s.inodes[inum].size
    requires w == Refused <==> start + done > s1.inodes[inum].size || start + done + n1 > MAXFILE * BSIZE
    requires w == Panicked <==> w != Refused && TooFew(s1, inum, start + done, n1, good - done)
    requires w.Count? ==> w.n == Copies(start + done, n1, good - done)
    requires w.Count? ==> TookRange(s1, s2, inum, (start + done) / BSIZE, Tried(start + done, n1, good - done))
    ensures s.inodes[inum].size <= MAXBYTES
    ensures w.Panicked? ==> TooFew(s, inum, start, Allowed(s.inodes[inum].size, start, n), good)
    ensures w == Refused ==> FileEnds(s, inum, start, n, good, done)
    ensures w.Count? ==> if w.n == n1 then Between(s, s2, inum, start, n, good, done + n1) && done + n1 <= good
                         else FileEnds(s, inum, start, n, good, done + w.n)
  {
    hide TooFew, TookRange, FileEnds, Copies, FileCopies, Shaped, BlocksIn, Tried;
    if w == Refused {
      if start <= s.inodes[inum].size { NextFits(s.inodes[inum].size, start, n, done, n1); }
      AllDone(s, s1, inum, start, n, good, done);
    } else {
      CallNeeds(s, s1, inum, start, n, good, done, n1);
      if w.Count? { CallTook(s, s1, s2, inum, start, n, good, done, n1); }
    }
  }

  lemma FileEndsSo(s: Fs, inum: int, start: nat, n: nat, good: nat, done: nat)
    requires FileEnds(s, inum, start, n, good, done)
    ensures inum in s.inodes && s.inodes[inum].size <= MAXBYTES
    ensures var allowed := Allowed(s.inodes[inum].size, start, n);
            done == FileCopies(start, allowed, good) && !TooFew(s, inum, start, allowed, good)
  {
  }

  lemma AllWritten(s: Fs, s1: Fs, inum: int, start: nat, n: nat, good: nat)
    requires Between(s, s1, inum, start, n, good, n)
    ensures inum in s.inodes && s.inodes[inum].size <= MAXBYTES
    ensures var allowed := Allowed(s.inodes[inum].size, start, n);
            n == FileCopies(start, allowed, good) && !TooFew(s, inum, start, allowed, good)
  {
    if start <= s.inodes[inum].size { AllowedFits(s.inodes[inum].size, start, n); }
    AllDone(s, s1, inum, start, n, good, n);
  }

  // A turn that found block a for position off + at, and copied m bytes there or none.
  lemma TurnNext(s: Fs, s1: Fs, s2: Fs, lg: set<int>, logged: set<int>, inum: int, off: nat, src: seq<int>,
                 at: nat, m: nat, t: Tally, a: int, maps: set<int>, copied: bool) returns (t': Tally)
    requires Writing(s, s1, lg, inum, off, src, at, t) && at < |src| && Counting(t, off, at, |src|)
    requires m == Least(|src| - at, BSIZE - (off + at) % BSIZE) && at + m <= |src| && off + |src| <= MAXFILE * BSIZE
    requires Inv(s2) && Kept(s1, s2) && Kept(s, s2) && inum in s1.inodes && inum in s2.inodes
    requires if copied then Wrote(s1, s2, inum, off + at, src[at..at + m]) else Grew(s1, s2)
    requires Has(s2, inum, (off + at) / BSIZE) && logged <= lg + maps + {a} + IndirectOf(s2.inodes[inum])
    requires |maps| <= (if Has(s1, inum, (off + at) / BSIZE) then 0 else 1)
                     + (if s1.inodes[inum].addrs[NDIRECT] == 0 && s2.inodes[inum].addrs[NDIRECT] != 0 then 1 else 0)
    ensures Writing(s, s2, logged, inum, off, src, if copied then at + m else at, t')
    ensures Counting(t', off, at + m, |src|) && Counted(t', off, |src|)
  {
    hide Inv, Kept, Wrote, Filled, Grew, Has, IndirectOf, Counting, Counted;
    InvShapes(s, s1, s2);
    var added := !Has(s1, inum, (off + at) / BSIZE);
    FirstIsPresent(s1, inum, off, at);
    KeptIndirect(s, s1, s2, inum);
    var indirect := s1.inodes[inum].addrs[NDIRECT] == 0 != s2.inodes[inum].addrs[NDIRECT];
    CountNext(t, a, maps, added, indirect, off, at, m, |src|);
    t' := Next(t, a, maps, added, indirect);
    TurnWrites(s, s1, s2, inum, off, src, at, m, copied);
  }

  lemma TurnWrites(s: Fs, s1: Fs, s2: Fs, inum: int, off: nat, src: seq<int>, at: nat, m: nat, copied: bool)
    requires Shaped(s) && Shaped(s1) && Shaped(s2) && Kept(s, s1) && Kept(s1, s2) && inum in s.inodes
    requires inum in s1.inodes && at + m <= |src| && (off + at) % BSIZE + m <= BSIZE
    requires Wrote(s, s1, inum, off, src[..at]) && Filled(s1, inum, off + at)
    requires if copied then Wrote(s1, s2, inum, off + at, src[at..at + m]) else Grew(s1, s2)
    requires inum in s2.inodes && Has(s2, inum, (off + at) / BSIZE)
    ensures var to := if copied then at + m else at;
            Wrote(s, s2, inum, off, src[..to]) && Filled(s2, inum, off + to)
  {
    hide Kept, Wrote, Filled, Has, SameBytes;
    KeptInodes(s, s1);
    KeptInodes(s1, s2);
    KeptKeepsFilled(s1, s2, inum, off + at);
    if copied {
      WroteMore(s, s1, s2, inum, off, src, at, at + m);
      FilledNext(s2, inum, off + at, m);
    } else {
      SameBytesWrote(s, s1, s2, inum, off, src[..at]);
    }
  }

  lemma StartWriting(s: Fs, inum: int, off: nat)
    requires Inv(s) && inum in s.inodes && off <= s.inodes[inum].size
    ensures Kept(s, s) && Wrote(s, s, inum, off, []) && Filled(s, inum, off)
  {
    assert Filled(s, inum, s.inodes[inum].size);
  }

  lemma KeptInodes(s: Fs, s': Fs)
    requires Shaped(s) && Shaped(s') && Kept(s, s')
    ensures s'.inodes.Keys == s.inodes.Keys && s'.l == s.l
    ensures forall i :: i in s.inodes ==> s'.inodes[i].size == s.inodes[i].size
  {
  }

  lemma FirstIsPresent(s: Fs, inum: int, off: nat, at: nat)
    requires Shaped(s) && inum in s.inodes && Filled(s, inum, off + at)
    ensures (off + at) % BSIZE != 0 ==> Has(s, inum, (off + at) / BSIZE)
  {
    var n := (off + at) / BSIZE;
    if (off + at) % BSIZE != 0 { assert n * BSIZE < off + at; }
  }

  lemma FilledNext(s: Fs, inum: int, at: nat, m: nat)
    requires Shaped(s) && inum in s.inodes && Filled(s, inum, at) && Has(s, inum, at / BSIZE)
    requires at % BSIZE + m <= BSIZE
    ensures Filled(s, inum, at + m)
  {
    forall n | 0 <= n && n * BSIZE < at + m
      ensures Has(s, inum, n)
    {
      if n * BSIZE >= at { assert n == at / BSIZE; }
    }
  }

  lemma KeptIndirect(s: Fs, s1: Fs, s2: Fs, inum: int)
    requires Shaped(s) && Shaped(s1) && Shaped(s2) && Kept(s, s1) && Kept(s1, s2) && inum in s.inodes
    ensures inum in s1.inodes && inum in s2.inodes
    ensures s.inodes[inum].addrs[NDIRECT] != 0 ==> s1.inodes[inum].addrs[NDIRECT] == s.inodes[inum].addrs[NDIRECT]
    ensures s1.inodes[inum].addrs[NDIRECT] != 0 ==> s2.inodes[inum].addrs[NDIRECT] == s1.inodes[inum].addrs[NDIRECT]
    ensures IndirectOf(s1.inodes[inum]) <= IndirectOf(s2.inodes[inum])
  {
    assert At(s, Slot(inum, MAXFILE)) == s.inodes[inum].addrs[NDIRECT];
    assert At(s1, Slot(inum, MAXFILE)) == s1.inodes[inum].addrs[NDIRECT];
    assert At(s2, Slot(inum, MAXFILE)) == s2.inodes[inum].addrs[NDIRECT];
  }

  // The indirect block of an inode, if it has one.
  ghost function IndirectOf(ip: Inode): set<int>
    requires |ip.addrs| == NDIRECT + 1
  {
    if ip.addrs[NDIRECT] == 0 then {} else {ip.addrs[NDIRECT]}
  }

  // An indirect block that has just been allocated has no entries.
  lemma LogsBlock(s: Fs, a: int, data: Block, inum: int, lg: set<int>)
    requires 0 <= a < |s.blocks| && a in lg
    ensures Logs(s, WriteBlock(s, a, data), inum, lg)
  {
  }

  lemma HadBlock(s: Fs, x: Slot)
    requires Shaped(s) && IsSlot(s.inodes, x) && At(s, x) != 0
    ensures GotBlock(s, s, x)
  {
  }

  lemma DirectNeeds(s: Fs, s': Fs, inum: int, bn: nat, ok: bool)
    requires Shaped(s) && inum in s.inodes && bn < NDIRECT
    requires if ok then GotBlock(s, s', Slot(inum, bn)) else FreeCount(s.used) == 0 && At(s, Slot(inum, bn)) == 0
    ensures ok <==> NeedOf(s, inum, bn) <= FreeCount(s.used)
    ensures ok ==> Took(s, s', inum, bn)
  {
    if ok { TookDirect(s, s', inum, bn); }
  }

  lemma NoIndirect(s: Fs, inum: int, bn: nat)
    requires Shaped(s) && inum in s.inodes && NDIRECT <= bn < MAXFILE
    requires FreeCount(s.used) == 0 && At(s, Slot(inum, MAXFILE)) == 0
    ensures FreeCount(s.used) < NeedOf(s, inum, bn)
  {
  }

  lemma IndirectNeeds(s: Fs, s1: Fs, s2: Fs, inum: int, bn: nat, ok: bool)
    requires Shaped(s) && GotBlock(s, s1, Slot(inum, MAXFILE)) && NDIRECT <= bn < MAXFILE
    requires if ok then GotBlock(s1, s2, Slot(inum, bn)) else FreeCount(s1.used) == 0 && At(s1, Slot(inum, bn)) == 0
    ensures inum in s.inodes && (ok <==> NeedOf(s, inum, bn) <= FreeCount(s.used))
    ensures ok ==> Took(s, s2, inum, bn)
  {
    assert At(s1, Slot(inum, bn)) == At(s, Slot(inum, bn));
    if ok { TookIndirect(s, s1, s2, inum, bn); }
  }

  lemma EntryWasEmpty(s: Fs, s': Fs, inum: int, bn: nat)
    requires Shaped(s) && Shaped(s') && Grew(s, s') && inum in s.inodes && NDIRECT <= bn < MAXFILE
    ensures inum in s'.inodes && (At(s, Slot(inum, bn)) != 0 ==> At(s', Slot(inum, bn)) != 0)
  {
  }

  lemma GrewKeepsIndirect(s: Fs, s': Fs, inum: int)
    requires Shaped(s) && Shaped(s') && Grew(s, s') && inum in s.inodes && s.inodes[inum].addrs[NDIRECT] != 0
    ensures inum in s'.inodes && s'.inodes[inum].addrs[NDIRECT] == s.inodes[inum].addrs[NDIRECT]
  {
    assert At(s, Slot(inum, MAXFILE)) == s.inodes[inum].addrs[NDIRECT];
    assert At(s', Slot(inum, MAXFILE)) == s'.inodes[inum].addrs[NDIRECT];
  }

  lemma SameIsGrowth(s: Fs)
    requires Shaped(s)
    ensures Grew(s, s)
  {
  }

  lemma SlotInRange(s: Fs, x: Slot)
    requires Inv(s) && IsSlot(s.inodes, x) && At(s, x) != 0
    ensures 0 < At(s, x) < s.l.size
  {
  }
}
