/**
 Files on disk blocks (kernel/fs.c): the block bitmap, direct and indirect block addresses,
 and the byte contents of every file.
 */
module FsModel {
  import opened Seqs

  const BSIZE := 1024
  const NDIRECT := 12
  const NINDIRECT := 256
  const MAXFILE := NDIRECT + NINDIRECT
  const BPB := 8 * BSIZE
  const IPB := 16
  const UINT := 0x1_0000_0000

  type Block = seq<int>

  // size, inodestart and bmapstart are the superblock's; data blocks start at `data`.
  datatype Layout = Layout(size: nat, inodestart: nat, bmapstart: nat, data: nat)
  {
    // The inode blocks, the bitmap blocks and the data blocks follow one another.
    predicate Valid() {
      0 < data <= size < UINT && inodestart <= bmapstart && BBlock(size - 1) < data
    }

    function BBlock(b: int): int {
      b / BPB + bmapstart
    }

    function IBlock(inum: int): int {
      inum / IPB + inodestart
    }
  }

  datatype Inode = Inode(size: nat, addrs: seq<int>)

  datatype Fs = Fs(l: Layout, used: seq<bool>, blocks: seq<Block>, inodes: map<int, Inode>)

  // ---------- words in a block ----------

  predicate IsBlock(b: Block) {
    |b| == BSIZE && forall i :: 0 <= i < BSIZE ==> 0 <= b[i] < 256
  }

  function Zeros(): (b: Block)
    ensures IsBlock(b) && forall i :: 0 <= i < BSIZE ==> b[i] == 0
  {
    seq(BSIZE, i => 0)
  }

  // The jth uint of a block, little endian.
  function Word(b: Block, j: int): int
    requires |b| == BSIZE && 0 <= j < NINDIRECT
  {
    b[4 * j] + 256 * (b[4 * j + 1] + 256 * (b[4 * j + 2] + 256 * b[4 * j + 3]))
  }

  function PutWord(b: Block, j: int, v: int): Block
    requires |b| == BSIZE && 0 <= j < NINDIRECT
  {
    b[4 * j := v % 256][4 * j + 1 := v / 256 % 256]
     [4 * j + 2 := v / 0x1_0000 % 256][4 * j + 3 := v / 0x100_0000 % 256]
  }

  lemma PutWordDigits(v: int)
    requires 0 <= v < UINT
    ensures v == v % 256 + 256 * (v / 256 % 256 + 256 * (v / 0x1_0000 % 256 + 256 * (v / 0x100_0000 % 256)))
  {
    assert v / 0x100_0000 % 256 == v / 0x100_0000;
    assert v / 0x1_0000 == v / 256 / 256 && v / 0x100_0000 == v / 256 / 256 / 256;
  }

  lemma WordRoundTrip(b: Block, j: int, v: int)
    requires IsBlock(b) && 0 <= j < NINDIRECT && 0 <= v < UINT
    ensures IsBlock(PutWord(b, j, v)) && Word(PutWord(b, j, v), j) == v
    ensures forall i :: 0 <= i < NINDIRECT && i != j ==> Word(PutWord(b, j, v), i) == Word(b, i)
  {
    PutWordDigits(v);
  }

  // ---------- slots ----------

  // A place that holds a block number: slot n < MAXFILE of a file is its nth block, slot
  // MAXFILE is its indirect block.
  datatype Slot = Slot(inum: int, n: int)

  predicate IsSlot(inodes: map<int, Inode>, x: Slot) {
    x.inum in inodes && 0 <= x.n <= MAXFILE
  }

  predicate Shaped(s: Fs) {
    && s.l.Valid() && |s.used| == |s.blocks| == s.l.size
    && (forall b :: 0 <= b < |s.blocks| ==> IsBlock(s.blocks[b]))
    && (forall i :: i in s.inodes ==> |s.inodes[i].addrs| == NDIRECT + 1)
    && (forall i :: i in s.inodes ==> 0 <= s.inodes[i].addrs[NDIRECT] < s.l.size)
  }

  // The block number in a slot, 0 if there is none.
  function At(s: Fs, x: Slot): int
    requires Shaped(s) && IsSlot(s.inodes, x)
  {
    var a := s.inodes[x.inum].addrs;
    if x.n < NDIRECT then a[x.n]
    else if x.n == MAXFILE then a[NDIRECT]
    else if a[NDIRECT] == 0 then 0
    else Word(s.blocks[a[NDIRECT]], x.n - NDIRECT)
  }

  // Slots hold numbers of used data blocks, and no two slots the same one.
  ghost predicate Separate(s: Fs)
    requires Shaped(s)
  {
    && (forall x :: IsSlot(s.inodes, x) && At(s, x) != 0 ==> s.l.data <= At(s, x) < s.l.size && s.used[At(s, x)])
    && (forall x, y :: IsSlot(s.inodes, x) && IsSlot(s.inodes, y) && At(s, x) == At(s, y) != 0 ==> x == y)
  }

  // The bitmap marks the metadata blocks and the blocks in slots, and nothing else.
  ghost predicate Exact(s: Fs)
    requires Shaped(s)
  {
    forall b :: 0 <= b < s.l.size && s.used[b] ==> b < s.l.data || InSlot(s, b)
  }

  ghost predicate InSlot(s: Fs, b: int)
    requires Shaped(s)
  {
    exists x :: IsSlot(s.inodes, x) && At(s, x) == b
  }

  ghost predicate MetaUsed(s: Fs)
    requires Shaped(s)
  {
    forall b :: 0 <= b < s.l.data ==> s.used[b]
  }

  predicate Has(s: Fs, inum: int, n: int)
    requires Shaped(s) && inum in s.inodes
  {
    0 <= n < MAXFILE && At(s, Slot(inum, n)) != 0
  }

  // Every block of the file that starts below `end` is present.
  ghost predicate Filled(s: Fs, inum: int, end: int)
    requires Shaped(s) && inum in s.inodes
  {
    forall n :: 0 <= n && n * BSIZE < end ==> Has(s, inum, n)
  }

  ghost predicate NoHoles(s: Fs)
    requires Shaped(s)
  {
    forall i :: i in s.inodes ==> Filled(s, i, s.inodes[i].size)
  }

  ghost predicate Inv(s: Fs) {
    Shaped(s) && Separate(s) && Exact(s) && MetaUsed(s) && NoHoles(s)
  }

  // ---------- contents ----------

  // Byte p of a file: absent blocks read as zeros.
  function Byte(s: Fs, inum: int, p: int): int
    requires Shaped(s) && inum in s.inodes && 0 <= p < MAXFILE * BSIZE
  {
    var a := At(s, Slot(inum, p / BSIZE));
    if 0 < a < s.l.size then s.blocks[a][p % BSIZE] else 0
  }

  // The bytes of a file up to its size.
  function Contents(s: Fs, inum: int): (c: seq<int>)
    requires Shaped(s) && inum in s.inodes && s.inodes[inum].size <= MAXFILE * BSIZE
    ensures |c| == s.inodes[inum].size
  {
    seq(s.inodes[inum].size, p requires 0 <= p < s.inodes[inum].size => Byte(s, inum, p))
  }

  ghost predicate SameBytes(s: Fs, s': Fs, inum: int)
    requires Shaped(s) && Shaped(s') && inum in s.inodes && inum in s'.inodes
  {
    forall p :: 0 <= p < MAXFILE * BSIZE ==> Byte(s', inum, p) == Byte(s, inum, p)
  }

  // ---------- one slot gets a block ----------

  // s' is s with the free block b, zeroed, in the empty slot x.
  ghost predicate Gave(s: Fs, s': Fs, x: Slot, b: int)
    requires Shaped(s) && Shaped(s')
  {
    && s'.l == s.l && s'.inodes.Keys == s.inodes.Keys
    && (forall i :: i in s.inodes ==> s'.inodes[i].size == s.inodes[i].size)
    && s.l.data <= b < s.l.size && !s.used[b] && s'.used == s.used[b := true]
    && IsSlot(s.inodes, x) && At(s, x) == 0 && At(s', x) == b
    && (forall y :: IsSlot(s.inodes, y) && y != x ==> At(s', y) == At(s, y))
  }

  lemma GaveKeepsFilled(s: Fs, s': Fs, x: Slot, b: int, inum: int, end: int)
    requires Shaped(s) && Shaped(s') && Gave(s, s', x, b) && inum in s.inodes && Filled(s, inum, end)
    ensures Filled(s', inum, end)
  {
    forall n | 0 <= n && n * BSIZE < end
      ensures Has(s', inum, n)
    {
      assert Has(s, inum, n);
    }
  }

  lemma GaveKeepsInv(s: Fs, s': Fs, x: Slot, b: int)
    requires Inv(s) && Shaped(s') && Gave(s, s', x, b)
    ensures Inv(s')
  {
    hide Filled;
    forall c | 0 <= c < s.l.size && s'.used[c] && c >= s.l.data
      ensures InSlot(s', c)
    {
      if c == b {
        assert IsSlot(s'.inodes, x) && At(s', x) == c;
      } else {
        assert InSlot(s, c);
        var y :| IsSlot(s.inodes, y) && At(s, y) == c;
        assert IsSlot(s'.inodes, y) && At(s', y) == c;
      }
    }
    forall i | i in s'.inodes
      ensures Filled(s', i, s'.inodes[i].size)
    {
      GaveKeepsFilled(s, s', x, b, i, s.inodes[i].size);
    }
  }

  // The three places a block number is stored in.

  function SetAddr(s: Fs, inum: int, k: int, b: int): Fs
    requires inum in s.inodes && 0 <= k < |s.inodes[inum].addrs|
  {
    s.(inodes := s.inodes[inum := s.inodes[inum].(addrs := s.inodes[inum].addrs[k := b])])
  }

  // balloc(): mark b and zero it.
  function Marked(s: Fs, b: int): Fs
    requires 0 <= b < |s.used| == |s.blocks|
  {
    s.(used := s.used[b := true], blocks := s.blocks[b := Zeros()])
  }

  function GiveDirect(s: Fs, inum: int, n: int, b: int): Fs
    requires Shaped(s) && inum in s.inodes && 0 <= n < NDIRECT && 0 <= b < s.l.size
  {
    SetAddr(Marked(s, b), inum, n, b)
  }

  function GiveIndirect(s: Fs, inum: int, b: int): Fs
    requires Shaped(s) && inum in s.inodes && 0 <= b < s.l.size
  {
    SetAddr(Marked(s, b), inum, NDIRECT, b)
  }

  function PutEntry(s: Fs, ind: int, j: int, b: int): Fs
    requires 0 <= ind < |s.blocks| && |s.blocks[ind]| == BSIZE && 0 <= j < NINDIRECT
  {
    s.(blocks := s.blocks[ind := PutWord(s.blocks[ind], j, b)])
  }

  function GiveEntry(s: Fs, inum: int, j: int, b: int): Fs
    requires Shaped(s) && inum in s.inodes && 0 <= j < NINDIRECT && 0 <= b < s.l.size
  {
    PutEntry(Marked(s, b), s.inodes[inum].addrs[NDIRECT], j, b)
  }

  ghost predicate IsFree(s: Fs, b: int) {
    0 <= b < |s.used| && !s.used[b]
  }

  // A free block is in no slot, and is not an indirect block.
  lemma FreeIsUnowned(s: Fs, b: int)
    requires Inv(s) && IsFree(s, b)
    ensures s.l.data <= b
    ensures forall x :: IsSlot(s.inodes, x) ==> At(s, x) != b
    ensures forall i :: i in s.inodes ==> s.inodes[i].addrs[NDIRECT] != b
  {
    forall i | i in s.inodes
      ensures s.inodes[i].addrs[NDIRECT] != b
    {
      assert IsSlot(s.inodes, Slot(i, MAXFILE)) && At(s, Slot(i, MAXFILE)) == s.inodes[i].addrs[NDIRECT];
    }
  }

  lemma ZerosHoldZeros(j: int)
    requires 0 <= j < NINDIRECT
    ensures IsBlock(Zeros()) && Word(Zeros(), j) == 0
  {
  }

  lemma GiveDirectGave(s: Fs, inum: int, n: int, b: int)
    requires Inv(s) && inum in s.inodes && 0 <= n < NDIRECT && At(s, Slot(inum, n)) == 0 && IsFree(s, b)
    ensures Shaped(GiveDirect(s, inum, n, b))
    ensures Gave(s, GiveDirect(s, inum, n, b), Slot(inum, n), b)
    ensures OnlyZeroed(s, GiveDirect(s, inum, n, b), b)
  {
    hide Exact, NoHoles;
    FreeIsUnowned(s, b);
    ZerosHoldZeros(0);
  }

  lemma GiveIndirectGave(s: Fs, inum: int, b: int)
    requires Inv(s) && inum in s.inodes && s.inodes[inum].addrs[NDIRECT] == 0 && IsFree(s, b)
    ensures Shaped(GiveIndirect(s, inum, b))
    ensures Gave(s, GiveIndirect(s, inum, b), Slot(inum, MAXFILE), b)
    ensures OnlyZeroed(s, GiveIndirect(s, inum, b), b)
  {
    hide Exact, NoHoles;
    FreeIsUnowned(s, b);
    ZerosHoldZeros(0);
    var s' := GiveIndirect(s, inum, b);
    forall y | IsSlot(s.inodes, y) && y != Slot(inum, MAXFILE)
      ensures At(s', y) == At(s, y)
    {
      if y.inum == inum && y.n >= NDIRECT { ZerosHoldZeros(y.n - NDIRECT); }
    }
  }

  lemma GiveEntryGave(s: Fs, inum: int, j: int, b: int)
    requires Inv(s) && inum in s.inodes && s.inodes[inum].addrs[NDIRECT] != 0
    requires 0 <= j < NINDIRECT && At(s, Slot(inum, NDIRECT + j)) == 0 && IsFree(s, b)
    ensures Shaped(GiveEntry(s, inum, j, b))
    ensures Gave(s, GiveEntry(s, inum, j, b), Slot(inum, NDIRECT + j), b)
    ensures OnlyZeroed(s, GiveEntry(s, inum, j, b), b)
  {
    hide Exact, NoHoles;
    FreeIsUnowned(s, b);
    ZerosHoldZeros(0);
    var ind := s.inodes[inum].addrs[NDIRECT];
    WordRoundTrip(s.blocks[ind], j, b);
    IndirectIsAlone(s, inum);
  }

  // No other file uses this file's indirect block.
  lemma IndirectIsAlone(s: Fs, inum: int)
    requires Shaped(s) && Separate(s) && inum in s.inodes && s.inodes[inum].addrs[NDIRECT] != 0
    ensures forall i :: i in s.inodes && i != inum ==>
              s.inodes[i].addrs[NDIRECT] != s.inodes[inum].addrs[NDIRECT]
    ensures forall i, n :: i in s.inodes && 0 <= n < MAXFILE ==>
              At(s, Slot(i, n)) != s.inodes[inum].addrs[NDIRECT]
  {
    assert At(s, Slot(inum, MAXFILE)) == s.inodes[inum].addrs[NDIRECT];
    forall i | i in s.inodes && i != inum
      ensures s.inodes[i].addrs[NDIRECT] != s.inodes[inum].addrs[NDIRECT]
    {
      assert At(s, Slot(i, MAXFILE)) == s.inodes[i].addrs[NDIRECT];
    }
  }

  // ---------- the bytes of the files ----------

  // Blocks other than b and indirect blocks are untouched, and b is zeroed.
  ghost predicate OnlyZeroed(s: Fs, s': Fs, b: int)
    requires Shaped(s) && Shaped(s') && s'.l == s.l
  {
    && 0 <= b < s.l.size && s'.blocks[b] == Zeros()
    && forall c :: 0 <= c < s.l.size && c != b && (forall i :: i in s.inodes ==> s.inodes[i].addrs[NDIRECT] != c)
         ==> s'.blocks[c] == s.blocks[c]
  }

  // A block in the slot of file data is not an indirect block.
  lemma DataIsNotIndirect(s: Fs, i: int, n: int)
    requires Shaped(s) && Separate(s) && i in s.inodes && 0 <= n < MAXFILE && At(s, Slot(i, n)) != 0
    ensures forall j :: j in s.inodes ==> s.inodes[j].addrs[NDIRECT] != At(s, Slot(i, n))
  {
    forall j | j in s.inodes
      ensures s.inodes[j].addrs[NDIRECT] != At(s, Slot(i, n))
    {
      assert At(s, Slot(j, MAXFILE)) == s.inodes[j].addrs[NDIRECT];
    }
  }

  /** Giving a slot a fresh block changes no byte of any file. */
  lemma GaveKeepsBytes(s: Fs, s': Fs, x: Slot, b: int, inum: int)
    requires Inv(s) && Shaped(s') && Gave(s, s', x, b) && OnlyZeroed(s, s', b) && inum in s.inodes
    ensures SameBytes(s, s', inum)
  {
    hide Exact, NoHoles, MetaUsed;
    forall p | 0 <= p < MAXFILE * BSIZE
      ensures Byte(s', inum, p) == Byte(s, inum, p)
    {
      var y := Slot(inum, p / BSIZE);
      var a := At(s, y);
      if y != x && a != 0 {
        DataIsNotIndirect(s, inum, p / BSIZE);
      }
    }
  }

  // ---------- writing data ----------

  function WriteBlock(s: Fs, a: int, data: Block): Fs
    requires 0 <= a < |s.blocks|
  {
    s.(blocks := s.blocks[a := data])
  }

  lemma WriteBlockKeeps(s: Fs, inum: int, n: int, data: Block)
    requires Inv(s) && inum in s.inodes && Has(s, inum, n) && IsBlock(data)
    ensures var a := At(s, Slot(inum, n));
            0 < a < s.l.size && Shaped(WriteBlock(s, a, data))
    ensures var s' := WriteBlock(s, At(s, Slot(inum, n)), data);
            && (forall y :: IsSlot(s.inodes, y) ==> At(s', y) == At(s, y))
            && Inv(s')
  {
    var a := At(s, Slot(inum, n));
    var s' := WriteBlock(s, a, data);
    DataIsNotIndirect(s, inum, n);
    assert forall y :: IsSlot(s.inodes, y) ==> At(s', y) == At(s, y);
    SameSlotsKeepInv(s, s');
  }

  lemma SameSlotsKeepInv(s: Fs, s': Fs)
    requires Inv(s) && Shaped(s') && s'.l == s.l && s'.used == s.used && s'.inodes == s.inodes
    requires forall y :: IsSlot(s.inodes, y) ==> At(s', y) == At(s, y)
    ensures Inv(s')
  {
    forall c | 0 <= c < s.l.size && s'.used[c] && c >= s.l.data
      ensures InSlot(s', c)
    {
      assert InSlot(s, c);
      var y :| IsSlot(s.inodes, y) && At(s, y) == c;
      assert At(s', y) == c;
    }
    forall i | i in s'.inodes
      ensures Filled(s', i, s'.inodes[i].size)
    {
      SameSlotsKeepFilled(s, s', i, s.inodes[i].size);
    }
  }

  lemma SameSlotsKeepFilled(s: Fs, s': Fs, inum: int, end: int)
    requires Shaped(s) && Shaped(s') && s'.inodes.Keys == s.inodes.Keys && inum in s.inodes
    requires forall y :: IsSlot(s.inodes, y) ==> At(s', y) == At(s, y)
    requires Filled(s, inum, end)
    ensures Filled(s', inum, end)
  {
    forall n | 0 <= n && n * BSIZE < end
      ensures Has(s', inum, n)
    {
      assert Has(s, inum, n);
    }
  }

  // s' is s with the bytes src at offset off of one file.
  ghost predicate Wrote(s: Fs, s': Fs, inum: int, off: nat, src: seq<int>)
    requires Shaped(s) && Shaped(s') && inum in s.inodes && s'.inodes.Keys == s.inodes.Keys
  {
    && (forall p :: 0 <= p < MAXFILE * BSIZE ==>
          Byte(s', inum, p) == if off <= p < off + |src| then src[p - off] else Byte(s, inum, p))
    && (forall i :: i in s.inodes && i != inum ==> SameBytes(s, s', i))
  }

  // The chunk laid over the block, from offset o in it.
  function Laid(b: Block, o: nat, chunk: seq<int>): Block
    requires o + |chunk| <= |b|
  {
    b[..o] + chunk + b[o + |chunk|..]
  }

  lemma WriteBlockWrote(s: Fs, inum: int, off: nat, chunk: seq<int>)
    requires Inv(s) && inum in s.inodes && Has(s, inum, off / BSIZE)
    requires off % BSIZE + |chunk| <= BSIZE && forall i :: 0 <= i < |chunk| ==> 0 <= chunk[i] < 256
    ensures var a := At(s, Slot(inum, off / BSIZE));
            && 0 < a < s.l.size && IsBlock(s.blocks[a])
            && var s' := WriteBlock(s, a, Laid(s.blocks[a], off % BSIZE, chunk));
               Inv(s') && Wrote(s, s', inum, off, chunk)
               && forall y :: IsSlot(s.inodes, y) ==> At(s', y) == At(s, y)
  {
    var n := off / BSIZE;
    var a := At(s, Slot(inum, n));
    assert 0 < a < s.l.size;
    var data := Laid(s.blocks[a], off % BSIZE, chunk);
    assert IsBlock(data);
    WriteBlockKeeps(s, inum, n, data);
    var s' := WriteBlock(s, a, data);
    forall i, p | i in s.inodes && 0 <= p < MAXFILE * BSIZE
      ensures Byte(s', i, p)
           == if i == inum && off <= p < off + |chunk| then chunk[p - off] else Byte(s, i, p)
    {
      LaidByte(s, inum, off, chunk, i, p);
    }
  }

  lemma LaidByte(s: Fs, inum: int, off: nat, chunk: seq<int>, i: int, p: int)
    requires Shaped(s) && Separate(s) && inum in s.inodes && Has(s, inum, off / BSIZE)
    requires off % BSIZE + |chunk| <= BSIZE && i in s.inodes && 0 <= p < MAXFILE * BSIZE
    requires 0 < At(s, Slot(inum, off / BSIZE)) < s.l.size
    requires var a := At(s, Slot(inum, off / BSIZE));
             var s' := WriteBlock(s, a, Laid(s.blocks[a], off % BSIZE, chunk));
             Shaped(s') && forall y :: IsSlot(s.inodes, y) ==> At(s', y) == At(s, y)
    ensures var a := At(s, Slot(inum, off / BSIZE));
            var s' := WriteBlock(s, a, Laid(s.blocks[a], off % BSIZE, chunk));
            Byte(s', i, p)
              == if i == inum && off <= p < off + |chunk| then chunk[p - off] else Byte(s, i, p)
  {
    var n, o := off / BSIZE, off % BSIZE;
    var a := At(s, Slot(inum, n));
    var y := Slot(i, p / BSIZE);
    if At(s, y) == a {
      assert y == Slot(inum, n);
      assert off <= p < off + |chunk| <==> o <= p % BSIZE < o + |chunk|;
    } else {
      assert y != Slot(inum, n);
    }
  }

  lemma WroteMore(s: Fs, s1: Fs, s2: Fs, inum: int, off: nat, src: seq<int>, k: nat, m: nat)
    requires Shaped(s) && Shaped(s1) && Shaped(s2) && inum in s.inodes
    requires s1.inodes.Keys == s.inodes.Keys == s2.inodes.Keys && k <= m <= |src|
    requires Wrote(s, s1, inum, off, src[..k]) && Wrote(s1, s2, inum, off + k, src[k..m])
    ensures Wrote(s, s2, inum, off, src[..m])
  {
    forall i | i in s.inodes && i != inum
      ensures SameBytes(s, s2, i)
    {
      assert SameBytes(s, s1, i) && SameBytes(s1, s2, i);
    }
  }

  lemma SameBytesWrote(s: Fs, s1: Fs, s2: Fs, inum: int, off: nat, src: seq<int>)
    requires Shaped(s) && Shaped(s1) && Shaped(s2) && inum in s.inodes
    requires s1.inodes.Keys == s.inodes.Keys == s2.inodes.Keys
    requires Wrote(s, s1, inum, off, src) && forall i :: i in s.inodes ==> SameBytes(s1, s2, i)
    ensures Wrote(s, s2, inum, off, src)
  {
    forall i | i in s.inodes && i != inum
      ensures SameBytes(s, s2, i)
    {
      assert SameBytes(s, s1, i) && SameBytes(s1, s2, i);
    }
    assert SameBytes(s1, s2, inum);
  }

  // ---------- the size ----------

  function SetSize(s: Fs, inum: int, size: nat): Fs
    requires inum in s.inodes
  {
    s.(inodes := s.inodes[inum := s.inodes[inum].(size := size)])
  }

  lemma SetSizeKeeps(s: Fs, inum: int, size: nat)
    requires Inv(s) && inum in s.inodes && Filled(s, inum, size)
    ensures Inv(SetSize(s, inum, size))
    ensures forall i :: i in s.inodes ==> SameBytes(s, SetSize(s, inum, size), i)
  {
    hide Filled;
    var s' := SetSize(s, inum, size);
    forall y | IsSlot(s.inodes, y)
      ensures IsSlot(s'.inodes, y) && At(s', y) == At(s, y)
    {
    }
    forall c | 0 <= c < s.l.size && s'.used[c] && c >= s.l.data
      ensures InSlot(s', c)
    {
      assert InSlot(s, c);
      var y :| IsSlot(s.inodes, y) && At(s, y) == c;
      assert IsSlot(s'.inodes, y) && At(s', y) == c;
    }
    forall i | i in s'.inodes
      ensures Filled(s', i, s'.inodes[i].size)
    {
      SameSlotsKeepFilled(s, s', i, s'.inodes[i].size);
    }
  }

  lemma SizeIsBounded(s: Fs, inum: int)
    requires Inv(s) && inum in s.inodes
    ensures s.inodes[inum].size <= MAXFILE * BSIZE
  {
    assert Filled(s, inum, s.inodes[inum].size) && !Has(s, inum, MAXFILE);
  }

  // The sequence c with src in place from off on, grown if need be.
  function Spliced(c: seq<int>, off: nat, src: seq<int>): seq<int>
    requires off <= |c|
  {
    if off + |src| < |c| then c[..off] + src + c[off + |src|..] else c[..off] + src
  }

  // The bytes written read back, and every other byte is as it was.
  lemma SplicedBytes(c: seq<int>, off: nat, src: seq<int>)
    requires off <= |c|
    ensures var d := Spliced(c, off, src); |d| == Larger(|c|, off + |src|) && d[off..off + |src|] == src
    ensures var d := Spliced(c, off, src);
            d[..off] == c[..off] && (off + |src| < |c| ==> d[off + |src|..] == c[off + |src|..])
  {
  }

  /** A write replaces exactly the bytes written, and leaves the other files alone. */
  lemma WroteIsSpliced(s: Fs, s': Fs, inum: int, off: nat, src: seq<int>)
    requires Inv(s) && Inv(s') && inum in s.inodes && s'.inodes.Keys == s.inodes.Keys
    requires Wrote(s, s', inum, off, src) && off <= s.inodes[inum].size
    requires s'.inodes[inum].size == Larger(s.inodes[inum].size, off + |src|)
    requires forall i :: i in s.inodes && i != inum ==> s'.inodes[i].size == s.inodes[i].size
    ensures s.inodes[inum].size <= MAXFILE * BSIZE && s'.inodes[inum].size <= MAXFILE * BSIZE
    ensures Contents(s', inum) == Spliced(Contents(s, inum), off, src)
    ensures forall i :: i in s.inodes && i != inum ==>
              s.inodes[i].size <= MAXFILE * BSIZE && Contents(s', i) == Contents(s, i)
  {
    hide Shaped, Separate, Exact, MetaUsed, NoHoles, Byte, At, Contents, Spliced;
    SizeIsBounded(s, inum);
    SizeIsBounded(s', inum);
    ContentsSpliced(s, s', inum, off, src);
    forall i | i in s.inodes && i != inum
      ensures s.inodes[i].size <= MAXFILE * BSIZE && Contents(s', i) == Contents(s, i)
    {
      SizeIsBounded(s, i);
      assert SameBytes(s, s', i);
      ContentsSame(s, s', i);
    }
  }

  lemma ContentsSame(s: Fs, s': Fs, i: int)
    requires Shaped(s) && Shaped(s') && i in s.inodes && i in s'.inodes && SameBytes(s, s', i)
    requires s'.inodes[i].size == s.inodes[i].size <= MAXFILE * BSIZE
    ensures Contents(s', i) == Contents(s, i)
  {
    hide Byte;
  }

  lemma ContentsSpliced(s: Fs, s': Fs, inum: int, off: nat, src: seq<int>)
    requires Shaped(s) && Shaped(s') && inum in s.inodes && s'.inodes.Keys == s.inodes.Keys
    requires Wrote(s, s', inum, off, src) && off <= s.inodes[inum].size
    requires s'.inodes[inum].size == Larger(s.inodes[inum].size, off + |src|) <= MAXFILE * BSIZE
    ensures Contents(s', inum) == Spliced(Contents(s, inum), off, src)
  {
    hide Shaped, Byte, SameBytes;
    var c, c' := Contents(s, inum), Contents(s', inum);
    var d := Spliced(c, off, src);
    assert |d| == |c'|;
    forall p | 0 <= p < |d|
      ensures d[p] == c'[p]
    {
      assert c'[p] == Byte(s', inum, p);
      if p < |c| { assert c[p] == Byte(s, inum, p); }
    }
  }

  function Larger(a: nat, b: nat): nat {
    if a < b then b else a
  }

  // ---------- truncation ----------

  // Block b is in one of the first n slots of the file.
  ghost predicate InFirst(s: Fs, inum: int, n: int, b: int)
    requires Shaped(s) && inum in s.inodes && n <= MAXFILE + 1
  {
    b != 0 && exists m :: 0 <= m < n && At(s, Slot(inum, m)) == b
  }

  // The bitmap once the first n slots of the file have been freed.
  ghost predicate FreedFirst(s: Fs, used: seq<bool>, inum: int, n: int)
    requires Shaped(s) && inum in s.inodes && n <= MAXFILE + 1
  {
    && |used| == |s.used|
    && forall b :: 0 <= b < |used| ==> (used[b] <==> s.used[b] && !InFirst(s, inum, n, b))
  }

  lemma FreeNext(s: Fs, used: seq<bool>, inum: int, n: int)
    requires Inv(s) && inum in s.inodes && 0 <= n <= MAXFILE && FreedFirst(s, used, inum, n)
    ensures var a := At(s, Slot(inum, n));
            if a == 0 then FreedFirst(s, used, inum, n + 1)
            else 0 < a < |used| && used[a] && FreedFirst(s, used[a := false], inum, n + 1)
  {
    hide Exact, MetaUsed, NoHoles;
    var a := At(s, Slot(inum, n));
    if a != 0 {
      assert IsSlot(s.inodes, Slot(inum, n));
      forall m | 0 <= m < n
        ensures At(s, Slot(inum, m)) != a
      {
        assert Slot(inum, m) != Slot(inum, n);
      }
    }
    forall b | 0 <= b < |used|
      ensures InFirst(s, inum, n + 1, b) <==> InFirst(s, inum, n, b) || (b == a && b != 0)
    {
      if InFirst(s, inum, n, b) {
        var m :| 0 <= m < n && At(s, Slot(inum, m)) == b;
        assert 0 <= m < n + 1 && At(s, Slot(inum, m)) == b;
      }
      if b == a && b != 0 { assert 0 <= n < n + 1 && At(s, Slot(inum, n)) == b; }
    }
  }

  const EMPTY := Inode(0, seq(NDIRECT + 1, i => 0))

  /** Truncating a file returns exactly its blocks to the bitmap and empties it; the other
      files keep their blocks and bytes. */
  lemma TruncateKeeps(s: Fs, inum: int, used: seq<bool>)
    requires Inv(s) && inum in s.inodes && FreedFirst(s, used, inum, MAXFILE + 1)
    ensures var s' := s.(used := used, inodes := s.inodes[inum := EMPTY]);
            && Inv(s')
            && (forall i :: i in s.inodes && i != inum ==> SameBytes(s, s', i))
            && (forall p :: 0 <= p < MAXFILE * BSIZE ==> Byte(s', inum, p) == 0)
  {
    var s' := s.(used := used, inodes := s.inodes[inum := EMPTY]);
    assert Shaped(s');
    forall y | IsSlot(s.inodes, y)
      ensures IsSlot(s'.inodes, y) && At(s', y) == if y.inum == inum then 0 else At(s, y)
    {
    }
    TruncateKeepsSlots(s, inum, used);
    forall i | i in s'.inodes
      ensures Filled(s', i, s'.inodes[i].size)
    {
      if i != inum {
        assert Filled(s, i, s.inodes[i].size);
        forall n | 0 <= n && n * BSIZE < s.inodes[i].size
          ensures Has(s', i, n)
        {
          assert Has(s, i, n);
        }
      }
    }
  }

  lemma TruncateKeepsSlots(s: Fs, inum: int, used: seq<bool>)
    requires Inv(s) && inum in s.inodes && FreedFirst(s, used, inum, MAXFILE + 1)
    requires var s' := s.(used := used, inodes := s.inodes[inum := EMPTY]);
             && Shaped(s')
             && forall y :: IsSlot(s.inodes, y) ==>
                  IsSlot(s'.inodes, y) && At(s', y) == if y.inum == inum then 0 else At(s, y)
    ensures var s' := s.(used := used, inodes := s.inodes[inum := EMPTY]);
            Separate(s') && Exact(s') && MetaUsed(s')
  {
    hide NoHoles;
    var s' := s.(used := used, inodes := s.inodes[inum := EMPTY]);
    forall x | IsSlot(s'.inodes, x) && At(s', x) != 0
      ensures s.l.data <= At(s', x) < s.l.size && used[At(s', x)]
    {
      forall m | 0 <= m < MAXFILE + 1
        ensures At(s, Slot(inum, m)) != At(s, x)
      {
        assert Slot(inum, m) != x;
      }
    }
    forall b | 0 <= b < s.l.size && used[b] && b >= s.l.data
      ensures InSlot(s', b)
    {
      assert InSlot(s, b);
      var y :| IsSlot(s.inodes, y) && At(s, y) == b;
      assert y == Slot(y.inum, y.n);
      assert IsSlot(s'.inodes, y) && At(s', y) == b;
    }
    forall b | 0 <= b < s.l.data
      ensures used[b]
    {
      assert forall m :: 0 <= m < MAXFILE + 1 ==> IsSlot(s.inodes, Slot(inum, m));
    }
  }

  // ---------- growth ----------

  // Blocks may have been added; no slot lost its block, and no size and no byte changed.
  ghost predicate Grew(s: Fs, s': Fs)
    requires Shaped(s) && Shaped(s')
  {
    Kept(s, s') && forall i :: i in s.inodes ==> SameBytes(s, s', i)
  }

  // No slot lost its block, and no size changed.
  ghost predicate Kept(s: Fs, s': Fs)
    requires Shaped(s) && Shaped(s')
  {
    && s'.l == s.l && s'.inodes.Keys == s.inodes.Keys
    && (forall i :: i in s.inodes ==> s'.inodes[i].size == s.inodes[i].size)
    && (forall y :: IsSlot(s.inodes, y) && At(s, y) != 0 ==> At(s', y) == At(s, y))
  }

  lemma KeptKeepsFilled(s: Fs, s': Fs, inum: int, end: int)
    requires Shaped(s) && Shaped(s') && Kept(s, s') && inum in s.inodes && Filled(s, inum, end)
    ensures Filled(s', inum, end)
  {
    forall n | 0 <= n && n * BSIZE < end
      ensures Has(s', inum, n)
    {
      assert Has(s, inum, n);
    }
  }

  lemma KeptTransitive(s: Fs, s1: Fs, s2: Fs)
    requires Shaped(s) && Shaped(s1) && Shaped(s2) && Kept(s, s1) && Kept(s1, s2)
    ensures Kept(s, s2)
  {
  }

  lemma GrewTransitive(s: Fs, s1: Fs, s2: Fs)
    requires Shaped(s) && Shaped(s1) && Shaped(s2) && Grew(s, s1) && Grew(s1, s2)
    ensures Grew(s, s2)
  {
    KeptTransitive(s, s1, s2);
    forall i | i in s.inodes
      ensures SameBytes(s, s2, i)
    {
      assert SameBytes(s, s1, i) && SameBytes(s1, s2, i);
    }
  }

  lemma GaveIsGrowth(s: Fs, s': Fs, x: Slot, b: int)
    requires Inv(s) && Shaped(s') && Gave(s, s', x, b) && OnlyZeroed(s, s', b)
    ensures Inv(s') && Grew(s, s')
  {
    hide Separate, Exact, MetaUsed, NoHoles, OnlyZeroed, SameBytes;
    GaveKeepsInv(s, s', x, b);
    forall i | i in s.inodes
      ensures SameBytes(s, s', i)
    {
      GaveKeepsBytes(s, s', x, b, i);
    }
  }

  lemma WroteAfterGrowth(s: Fs, s1: Fs, s2: Fs, inum: int, off: nat, src: seq<int>)
    requires Shaped(s) && Shaped(s1) && Shaped(s2) && inum in s.inodes
    requires s1.inodes.Keys == s.inodes.Keys == s2.inodes.Keys
    requires Grew(s, s1) && Wrote(s1, s2, inum, off, src)
    ensures Wrote(s, s2, inum, off, src)
  {
    assert SameBytes(s, s1, inum);
    forall i | i in s.inodes && i != inum
      ensures SameBytes(s, s2, i)
    {
      assert SameBytes(s, s1, i) && SameBytes(s1, s2, i);
    }
  }
}
