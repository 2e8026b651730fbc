/**
 How many free blocks a write to a file takes (balloc(), bmap() and writei() of kernel/fs.c), and
 which blocks it has to log.
 */
module FsSpace {
  import opened FsModel

  // ---------- the bitmap ----------

  function FreeCount(used: seq<bool>): nat {
    if used == [] then 0
    else FreeCount(used[..|used| - 1]) + if used[|used| - 1] then 0 else 1
  }

  lemma {:induction false} FreeCountMark(used: seq<bool>, b: nat)
    requires b < |used| && !used[b]
    ensures FreeCount(used[b := true]) + 1 == FreeCount(used)
  {
    var n := |used| - 1;
    if b == n {
      assert used[b := true][..n] == used[..n];
    } else {
      assert used[b := true][..n] == used[..n][b := true];
      FreeCountMark(used[..n], b);
    }
  }

  lemma {:induction false} FreeCountNone(used: seq<bool>)
    ensures FreeCount(used) == 0 <==> forall b :: 0 <= b < |used| ==> used[b]
  {
    if used != [] {
      var n := |used| - 1;
      FreeCountNone(used[..n]);
      assert forall b :: 0 <= b < n ==> used[..n][b] == used[b];
    }
  }

  // ---------- what bmap() takes ----------

  function Missing(s: Fs, x: Slot): nat
    requires Shaped(s) && IsSlot(s.inodes, x)
  {
    if At(s, x) == 0 then 1 else 0
  }

  ghost predicate SameFiles(s: Fs, s': Fs) {
    Shaped(s) && Shaped(s') && s'.inodes.Keys == s.inodes.Keys
  }

  // Slot x has a block, which was taken off the bitmap if it had none; no other slot changed.
  ghost predicate GotBlock(s: Fs, s': Fs, x: Slot) {
    && SameFiles(s, s') && IsSlot(s.inodes, x) && At(s', x) != 0
    && FreeCount(s'.used) + Missing(s, x) == FreeCount(s.used)
    && forall y :: IsSlot(s.inodes, y) && y != x ==> At(s', y) == At(s, y)
  }

  lemma GaveGot(s: Fs, s': Fs, x: Slot, b: int)
    requires Shaped(s) && Shaped(s') && Gave(s, s', x, b)
    ensures GotBlock(s, s', x)
  {
    FreeCountMark(s.used, b);
  }

  // The blocks that bmap() of block bn has to find.
  function NeedOf(s: Fs, inum: int, bn: nat): nat
    requires Shaped(s) && inum in s.inodes && bn < MAXFILE
  {
    Missing(s, Slot(inum, bn)) + if bn >= NDIRECT then Missing(s, Slot(inum, MAXFILE)) else 0
  }

  // y is the slot of block bn, or of the indirect block on the way to it.
  predicate OnTheWay(inum: int, bn: nat, y: Slot) {
    y == Slot(inum, bn) || (bn >= NDIRECT && y == Slot(inum, MAXFILE))
  }

  ghost predicate Took(s: Fs, s': Fs, inum: int, bn: nat) {
    && SameFiles(s, s') && inum in s.inodes && bn < MAXFILE
    && FreeCount(s'.used) + NeedOf(s, inum, bn) == FreeCount(s.used)
    && (forall y :: IsSlot(s.inodes, y) && OnTheWay(inum, bn, y) ==> At(s', y) != 0)
    && (forall y :: IsSlot(s.inodes, y) && !OnTheWay(inum, bn, y) ==> At(s', y) == At(s, y))
  }

  lemma TookDirect(s: Fs, s': Fs, inum: int, bn: nat)
    requires GotBlock(s, s', Slot(inum, bn)) && bn < NDIRECT
    ensures Took(s, s', inum, bn)
  {
  }

  lemma TookIndirect(s: Fs, s1: Fs, s2: Fs, inum: int, bn: nat)
    requires GotBlock(s, s1, Slot(inum, MAXFILE)) && GotBlock(s1, s2, Slot(inum, bn)) && NDIRECT <= bn < MAXFILE
    ensures Took(s, s2, inum, bn)
  {
  }

  // Data written to blocks in slots leaves the slots.
  lemma TookWrote(s: Fs, s1: Fs, s2: Fs, inum: int, bn: nat)
    requires Took(s, s1, inum, bn) && SameFiles(s1, s2) && s2.used == s1.used
    requires forall y :: IsSlot(s1.inodes, y) ==> At(s2, y) == At(s1, y)
    ensures Took(s, s2, inum, bn)
  {
  }

  // ---------- what a run of blocks takes ----------

  // Block p + t is the first of the run that is reached through the indirect block.
  predicate Crosses(p: nat, t: nat) {
    p + t >= NDIRECT && (t == 0 || p + t == NDIRECT)
  }

  // The blocks missing for blocks p to p + k - 1 of a file, with the indirect block.
  function NeedRange(s: Fs, inum: int, p: nat, k: nat): nat
    requires Shaped(s) && inum in s.inodes && p + k <= MAXFILE
  {
    if k == 0 then 0
    else
      NeedRange(s, inum, p, k - 1) + Missing(s, Slot(inum, p + k - 1))
      + if Crosses(p, k - 1) then Missing(s, Slot(inum, MAXFILE)) else 0
  }

  // y is the slot of one of these blocks, or of the indirect block on the way to one.
  predicate InRun(inum: int, p: nat, k: nat, y: Slot) {
    y.inum == inum && (p <= y.n < p + k || (y.n == MAXFILE && k > 0 && p + k > NDIRECT))
  }

  ghost predicate TookRange(s: Fs, s': Fs, inum: int, p: nat, k: nat) {
    && SameFiles(s, s') && inum in s.inodes && p + k <= MAXFILE
    && FreeCount(s'.used) + NeedRange(s, inum, p, k) == FreeCount(s.used)
    && (forall y :: IsSlot(s.inodes, y) && InRun(inum, p, k, y) ==> At(s', y) != 0)
    && (forall y :: IsSlot(s.inodes, y) && !InRun(inum, p, k, y) ==> At(s', y) == At(s, y))
  }

  lemma TookNothing(s: Fs, inum: int, p: nat)
    requires Shaped(s) && inum in s.inodes && p <= MAXFILE
    ensures TookRange(s, s, inum, p, 0)
  {
  }

  // What the next block of the run needs.
  lemma NeedNext(s: Fs, s1: Fs, inum: int, p: nat, k: nat)
    requires TookRange(s, s1, inum, p, k) && p + k < MAXFILE
    ensures NeedRange(s, inum, p, k) + NeedOf(s1, inum, p + k) == NeedRange(s, inum, p, k + 1)
  {
    assert IsSlot(s.inodes, Slot(inum, p + k)) && !InRun(inum, p, k, Slot(inum, p + k));
    assert IsSlot(s.inodes, Slot(inum, MAXFILE));
  }

  lemma TookNext(s: Fs, s1: Fs, s2: Fs, inum: int, p: nat, k: nat)
    requires TookRange(s, s1, inum, p, k) && Took(s1, s2, inum, p + k)
    ensures TookRange(s, s2, inum, p, k + 1)
  {
    NeedNext(s, s1, inum, p, k);
    forall y | IsSlot(s.inodes, y)
      ensures InRun(inum, p, k + 1, y) ==> At(s2, y) != 0
      ensures !InRun(inum, p, k + 1, y) ==> At(s2, y) == At(s, y)
    {
      assert OnTheWay(inum, p + k, y) ==> InRun(inum, p, k + 1, y);
    }
  }

  lemma {:induction false} NeedGrows(s: Fs, inum: int, p: nat, k: nat, more: nat)
    requires Shaped(s) && inum in s.inodes && k <= more && p + more <= MAXFILE
    ensures NeedRange(s, inum, p, k) <= NeedRange(s, inum, p, more)
    decreases more
  {
    if k < more { NeedGrows(s, inum, p, k, more - 1); }
  }

  // A run that goes on where another ended, or in its last block.
  predicate Joins(p0: nat, k0: nat, p: nat, k: nat) {
    p == p0 + k0 || (k0 > 0 && k > 0 && p + 1 == p0 + k0)
  }

  lemma {:induction false} NeedJoins(s: Fs, s1: Fs, inum: int, p0: nat, k0: nat, p: nat, k: nat)
    requires TookRange(s, s1, inum, p0, k0) && p0 <= p && p + k <= MAXFILE && Joins(p0, k0, p, k)
    ensures NeedRange(s, inum, p0, k0) + NeedRange(s1, inum, p, k) == NeedRange(s, inum, p0, p + k - p0)
    decreases k
  {
    if k > 0 {
      var x, ind := Slot(inum, p + k - 1), Slot(inum, MAXFILE);
      assert IsSlot(s.inodes, x) && IsSlot(s.inodes, ind);
      if p + k > p0 + k0 {
        NeedJoins(s, s1, inum, p0, k0, p, k - 1);
        assert At(s1, x) == At(s, x);
      } else {
        assert InRun(inum, p0, k0, x) && NeedRange(s1, inum, p, 0) == 0;
      }
    }
  }

  lemma TookTogether(s: Fs, s1: Fs, s2: Fs, inum: int, p0: nat, k0: nat, p: nat, k: nat)
    requires TookRange(s, s1, inum, p0, k0) && TookRange(s1, s2, inum, p, k) && p0 <= p && Joins(p0, k0, p, k)
    ensures TookRange(s, s2, inum, p0, p + k - p0)
  {
    NeedJoins(s, s1, inum, p0, k0, p, k);
    forall y | IsSlot(s.inodes, y)
      ensures InRun(inum, p0, p + k - p0, y) ==> At(s2, y) != 0
      ensures !InRun(inum, p0, p + k - p0, y) ==> At(s2, y) == At(s, y)
    {
    }
  }

  // A change of size leaves the slots.
  lemma TookResized(s: Fs, s1: Fs, inum: int, p: nat, k: nat, size: nat)
    requires TookRange(s, s1, inum, p, k)
    ensures TookRange(s, SetSize(s1, inum, size), inum, p, k)
  {
    var s2 := SetSize(s1, inum, size);
    assert forall y :: IsSlot(s.inodes, y) ==> At(s2, y) == At(s1, y);
  }

  // How many blocks n bytes at off lie in.
  function BlocksIn(off: nat, n: nat): nat {
    if n == 0 then 0 else (off + n - 1) / BSIZE - off / BSIZE + 1
  }

  lemma BlocksInFile(off: nat, n: nat)
    requires off + n <= MAXFILE * BSIZE
    ensures off / BSIZE + BlocksIn(off, n) <= MAXFILE
  {
  }

  function Least(a: nat, b: nat): nat {
    if a < b then a else b
  }

  // The blocks that writei() looks up when `good` of the n source bytes can be read: it stops in
  // the block of the first bad byte.
  function Tried(off: nat, n: nat, good: nat): nat {
    BlocksIn(off, Least(n, good + 1))
  }

  // The bytes it has then copied: those before that block.
  function Copies(off: nat, n: nat, good: nat): nat {
    if n <= good then n
    else if (off + good) / BSIZE == off / BSIZE then 0
    else (off + good) / BSIZE * BSIZE - off
  }

  // The loop of writei() at a chunk: at its start, or where a block of the file starts.
  predicate AtChunk(off: nat, at: nat) {
    at == 0 || (off + at) % BSIZE == 0
  }

  lemma ChunkBlock(off: nat, at: nat)
    requires AtChunk(off, at)
    ensures (off + at) / BSIZE == off / BSIZE + BlocksIn(off, at)
  {
  }

  // One chunk of m bytes.
  lemma ChunkBlocks(off: nat, at: nat, m: nat, n: nat)
    requires AtChunk(off, at) && at < n && m == Least(n - at, BSIZE - (off + at) % BSIZE)
    ensures BlocksIn(off, at + m) == BlocksIn(off, at) + 1 && 0 < m && (at + m < n ==> AtChunk(off, at + m))
  {
    ChunkBlock(off, at);
  }

  lemma BlocksGrow(off: nat, n: nat, more: nat)
    requires n <= more
    ensures BlocksIn(off, n) <= BlocksIn(off, more)
  {
    if n > 0 { assert (off + n - 1) / BSIZE <= (off + more - 1) / BSIZE; }
  }

  // The chunk with the first bad byte.
  lemma BadChunk(off: nat, at: nat, m: nat, n: nat, good: nat)
    requires AtChunk(off, at) && at < n && m == Least(n - at, BSIZE - (off + at) % BSIZE) && at <= good < at + m
    ensures Tried(off, n, good) == BlocksIn(off, at) + 1 && Copies(off, n, good) == at
  {
    ChunkBlock(off, at);
    assert (off + good) / BSIZE == (off + at) / BSIZE;
  }

  // Least blocks are free than the write needs.
  ghost predicate TooFew(s: Fs, inum: int, off: nat, n: nat, good: nat) {
    && Shaped(s) && inum in s.inodes && off / BSIZE + Tried(off, n, good) <= MAXFILE
    && FreeCount(s.used) < NeedRange(s, inum, off / BSIZE, Tried(off, n, good))
  }

  // ---------- filewrite() ----------

  const MAXOPBLOCKS := 10
  const MAXBYTES := MAXFILE * BSIZE

  // The bytes that filewrite() gives to one writei(): (MAXOPBLOCKS - 1 - 1 - 2) / 2 blocks.
  const CHUNK := 3072

  // The bytes in the calls of writei() before the first one that is refused.
  function Allowed(size: nat, start: nat, n: nat): nat {
    if start > size || start > MAXBYTES then 0
    else if start + n <= MAXBYTES then n
    else (MAXBYTES - start) / CHUNK * CHUNK
  }

  // The bytes copied when `good` source bytes can be read: to the start of the last call, and in
  // it to the start of the block of the first bad byte.
  function FileCopies(start: nat, allowed: nat, good: nat): nat {
    if allowed <= good then allowed
    else Most(good / CHUNK * CHUNK, Copies(start, allowed, good))
  }

  function Most(a: nat, b: nat): nat {
    if a < b then b else a
  }

  // filewrite() between two calls of writei(), with `done` of n bytes written since s.
  ghost predicate Between(s: Fs, s1: Fs, inum: int, start: nat, n: nat, good: nat, done: nat) {
    && Shaped(s) && inum in s.inodes && s.inodes[inum].size <= MAXBYTES
    && done <= Allowed(s.inodes[inum].size, start, n) && done <= good && done <= n
    && (done % CHUNK == 0 || done == n)
    && (done > 0 ==> start <= s.inodes[inum].size)
    && (start <= s.inodes[inum].size ==> TookRange(s, s1, inum, start / BSIZE, BlocksIn(start, done)))
  }

  lemma BetweenStarts(s: Fs, inum: int, start: nat, n: nat, good: nat)
    requires Shaped(s) && inum in s.inodes && s.inodes[inum].size <= MAXBYTES
    ensures Between(s, s, inum, start, n, good, 0)
  {
    if start <= s.inodes[inum].size { TookNothing(s, inum, start / BSIZE); }
  }

  // How the next call, of n1 bytes, fits.
  lemma NextFits(size: nat, start: nat, n: nat, done: nat, n1: nat)
    requires size <= MAXBYTES && start <= size && done < n && done % CHUNK == 0 && n1 == Least(n - done, CHUNK)
    requires done <= Allowed(size, start, n)
    ensures start + done + n1 <= MAXBYTES ==> done + n1 <= Allowed(size, start, n)
    ensures start + done + n1 > MAXBYTES ==> done == Allowed(size, start, n)
    ensures start + done + n1 <= MAXBYTES && n1 < CHUNK ==> done + n1 == n
  {
    var c, q := (MAXBYTES - start) / CHUNK, done / CHUNK;
    assert done == q * CHUNK && c * CHUNK <= MAXBYTES - start < c * CHUNK + CHUNK;
  }

  // The blocks of the next call go on where the last ended.
  lemma NextJoins(start: nat, done: nat, m: nat)
    requires m > 0
    ensures var p0, k0, p, k := start / BSIZE, BlocksIn(start, done), (start + done) / BSIZE, BlocksIn(start + done, m);
            p0 <= p && Joins(p0, k0, p, k) && p + k - p0 == BlocksIn(start, done + m)
  {
  }

  // Tried blocks, counted from the start of the file write.
  lemma CallNeeds(s: Fs, s1: Fs, inum: int, start: nat, n: nat, good: nat, done: nat, n1: nat)
    requires Between(s, s1, inum, start, n, good, done) && done < n && n1 == Least(n - done, CHUNK)
    requires start <= s.inodes[inum].size && start + done + n1 <= MAXBYTES
    ensures TooFew(s1, inum, start + done, n1, good - done) ==>
              TooFew(s, inum, start, Allowed(s.inodes[inum].size, start, n), good)
  {
    hide TookRange, BlocksIn, NeedRange, Joins, Allowed, Shaped;
    var size, off, m := s.inodes[inum].size, start + done, Least(n1, good - done + 1);
    NextFits(size, start, n, done, n1);
    NextJoins(start, done, m);
    BlocksInFile(off, m);
    if TooFew(s1, inum, off, n1, good - done) {
      var all := Least(Allowed(size, start, n), good + 1);
      Balance(s, s1, inum, start / BSIZE, BlocksIn(start, done), off / BSIZE, BlocksIn(off, m));
      AllowedFits(size, start, n);
      BlocksGrow(start, done + m, all);
      BlocksInFile(start, all);
      NeedGrows(s, inum, start / BSIZE, BlocksIn(start, done + m), BlocksIn(start, all));
    }
  }

  lemma AllowedFits(size: nat, start: nat, n: nat)
    requires size <= MAXBYTES && start <= size
    ensures start + Allowed(size, start, n) <= MAXBYTES && Allowed(size, start, n) <= n
  {
  }

  lemma Balance(s: Fs, s1: Fs, inum: int, p0: nat, k0: nat, p: nat, k: nat)
    requires TookRange(s, s1, inum, p0, k0) && p0 <= p && p + k <= MAXFILE && Joins(p0, k0, p, k)
    ensures SameFiles(s, s1) && inum in s.inodes
    ensures FreeCount(s1.used) < NeedRange(s1, inum, p, k) ==>
              FreeCount(s.used) < NeedRange(s, inum, p0, p + k - p0)
  {
    NeedJoins(s, s1, inum, p0, k0, p, k);
  }

  // A call that wrote all its bytes, or stopped at a bad one.
  lemma CallTook(s: Fs, s1: Fs, s2: Fs, inum: int, start: nat, n: nat, good: nat, done: nat, n1: nat)
    requires Between(s, s1, inum, start, n, good, done) && done < n && n1 == Least(n - done, CHUNK)
    requires start <= s.inodes[inum].size && start + done + n1 <= MAXBYTES
    requires TookRange(s1, s2, inum, (start + done) / BSIZE, Tried(start + done, n1, good - done))
    ensures var n2 := Copies(start + done, n1, good - done);
            if n2 == n1 then Between(s, s2, inum, start, n, good, done + n1)
            else FileEnds(s, inum, start, n, good, done + n2)
  {
    hide TookRange, BlocksIn, NeedRange, Joins, Allowed, Copies, FileCopies, Shaped;
    var size, off, m := s.inodes[inum].size, start + done, Least(n1, good - done + 1);
    NextFits(size, start, n, done, n1);
    NextJoins(start, done, m);
    TookTogether(s, s1, s2, inum, start / BSIZE, BlocksIn(start, done), off / BSIZE, BlocksIn(off, m));
    CopiesAll(off, n1, good - done);
    if Copies(off, n1, good - done) < n1 {
      Enough(s, s2, inum, start / BSIZE, BlocksIn(start, good + 1));
      CopiesInCall(start, Allowed(size, start, n), good, done, n1);
    }
  }

  // writei() copies all bytes exactly if all can be read, and else stops at the start of the block
  // into which the first bad byte would go.
  lemma CopiesAll(off: nat, n: nat, good: nat)
    ensures var c := Copies(off, n, good);
            && c <= n && c <= good && (c == n <==> n <= good)
            && (c < n ==> (c == 0 || (off + c) % BSIZE == 0) && (off + c) / BSIZE == (off + good) / BSIZE)
  {
    if n > good && (off + good) / BSIZE != off / BSIZE { BlockStart((off + good) / BSIZE); }
  }

  lemma BlockStart(b: nat)
    ensures b * BSIZE % BSIZE == 0 && b * BSIZE / BSIZE == b
  {
  }

  // filewrite() writes all bytes exactly if it starts within the file, the end is within the
  // largest file, and all can be read.
  lemma WritesAll(size: nat, start: nat, n: nat, good: nat)
    requires size <= MAXBYTES
    ensures FileCopies(start, Allowed(size, start, n), good) == n <==>
      n == 0 || (start <= size && start + n <= MAXBYTES && n <= good)
  {
    var a := Allowed(size, start, n);
    CopiesAll(start, a, good);
    ChunkFloor(good);
    if start <= size { ChunkFloor(MAXBYTES - start); }
  }

  lemma ChunkFloor(x: nat)
    ensures 0 <= x / CHUNK * CHUNK <= x
  {
  }

  lemma CopiesInCall(start: nat, allowed: nat, good: nat, done: nat, n1: nat)
    requires done % CHUNK == 0 && done <= good < done + n1 <= allowed && n1 <= CHUNK
    ensures done + Copies(start + done, n1, good - done) == FileCopies(start, allowed, good)
  {
    var q := done / CHUNK;
    assert done == q * CHUNK && good / CHUNK == q;
    BlockStarts(start + done, start + good);
  }

  lemma BlockStarts(a: nat, b: nat)
    requires a <= b
    ensures a / BSIZE <= b / BSIZE
    ensures if a / BSIZE == b / BSIZE then b / BSIZE * BSIZE <= a else a < b / BSIZE * BSIZE
  {
  }

  lemma Enough(s: Fs, s': Fs, inum: int, p: nat, k: nat)
    requires TookRange(s, s', inum, p, k)
    ensures Shaped(s) && inum in s.inodes && p + k <= MAXFILE && NeedRange(s, inum, p, k) <= FreeCount(s.used)
  {
  }

  // filewrite() ends without a panic, with `done` bytes written.
  ghost predicate FileEnds(s: Fs, inum: int, start: nat, n: nat, good: nat, done: nat) {
    && Shaped(s) && inum in s.inodes && s.inodes[inum].size <= MAXBYTES
    && var allowed := Allowed(s.inodes[inum].size, start, n);
       done == FileCopies(start, allowed, good) && !TooFew(s, inum, start, allowed, good)
  }

  lemma AllDone(s: Fs, s1: Fs, inum: int, start: nat, n: nat, good: nat, done: nat)
    requires Between(s, s1, inum, start, n, good, done)
    requires done == Allowed(s.inodes[inum].size, start, n)
    ensures FileEnds(s, inum, start, n, good, done)
  {
    if start <= s.inodes[inum].size {
      Enough(s, s1, inum, start / BSIZE, BlocksIn(start, done));
    }
  }

  // ---------- what is logged ----------

  // Blocks that differ, and bitmap blocks with a bit that differs, are in lg; of the inodes only
  // inum may differ.
  ghost predicate Logs(s: Fs, s': Fs, inum: int, lg: set<int>) {
    && s'.l == s.l && |s'.used| == |s.used| && |s'.blocks| == |s.blocks| && s'.inodes.Keys == s.inodes.Keys
    && (forall i :: i in s.inodes && i != inum ==> s'.inodes[i] == s.inodes[i])
    && (forall b :: 0 <= b < |s.blocks| ==> s'.blocks[b] == s.blocks[b] || b in lg)
    && (forall b :: 0 <= b < |s.used| ==> s'.used[b] == s.used[b] || s.l.BBlock(b) in lg)
  }

  // Only bitmap and data blocks.
  ghost predicate LogsIn(l: Layout, lg: set<int>) {
    forall b :: b in lg ==> l.bmapstart <= b < l.size
  }

  lemma AllocLogs(s: Fs, lg: set<int>, b: int)
    requires Inv(s) && IsFree(s, b)
    ensures LogsIn(s.l, lg) ==> LogsIn(s.l, lg + {s.l.BBlock(b), b})
  {
    FreeIsUnowned(s, b);
    assert b / BPB <= (s.l.size - 1) / BPB;
  }

  lemma SlotLogs(s: Fs, lg: set<int>, x: Slot)
    requires Inv(s) && IsSlot(s.inodes, x) && At(s, x) != 0
    ensures LogsIn(s.l, lg) ==> LogsIn(s.l, lg + {At(s, x)})
  {
    assert 0 / BPB <= (s.l.size - 1) / BPB;
  }

  lemma LogsNothing(s: Fs, inum: int, lg: set<int>)
    ensures Logs(s, s, inum, lg)
  {
  }

  lemma LogsMore(s: Fs, s1: Fs, s2: Fs, inum: int, lg1: set<int>, lg2: set<int>)
    requires Logs(s, s1, inum, lg1) && Logs(s1, s2, inum, lg2) && lg1 <= lg2
    ensures Logs(s, s2, inum, lg2)
  {
  }

  lemma LogsDirect(s: Fs, inum: int, n: nat, b: int, lg: set<int>)
    requires Shaped(s) && inum in s.inodes && n < NDIRECT && 0 <= b < s.l.size
    ensures Logs(s, GiveDirect(s, inum, n, b), inum, lg + {s.l.BBlock(b), b})
  {
  }

  lemma LogsIndirect(s: Fs, inum: int, b: int, lg: set<int>)
    requires Shaped(s) && inum in s.inodes && 0 <= b < s.l.size
    ensures Logs(s, GiveIndirect(s, inum, b), inum, lg + {s.l.BBlock(b), b})
  {
  }

  lemma LogsEntry(s: Fs, inum: int, j: nat, b: int, lg: set<int>)
    requires Shaped(s) && inum in s.inodes && j < NINDIRECT && 0 <= b < s.l.size
    ensures Logs(s, GiveEntry(s, inum, j, b), inum, lg + {s.l.BBlock(b), b} + {s.inodes[inum].addrs[NDIRECT]})
  {
  }
}
