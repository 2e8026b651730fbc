/**
 The disk blocks that hold a file system (kernel/fs.h): dinodes of 64 bytes, 16 to a block, the
 bitmap with 8 blocks to a byte, and the data blocks.  The file system can be read back from
 them, and a write changes no block that it does not log.
 */
module FsImage {
  import opened FsModel
  import opened FsSpace
  import opened Seqs
  import RedoLog

  // For every inode, the bytes of its dinode before the size: type, device numbers and links.
  type Heads = map<int, seq<int>>

  const DINODE := 64

  // ---------- words and bits ----------

  // Byte t of v, little endian.
  function WordByte(v: int, t: nat): int
    decreases t
  {
    if t == 0 then v % 256 else WordByte(v / 256, t - 1)
  }

  function WordAt(b: Block, o: nat): int
    requires o + 4 <= |b|
  {
    b[o] + 256 * (b[o + 1] + 256 * (b[o + 2] + 256 * b[o + 3]))
  }

  lemma WordBytes(v: int)
    requires 0 <= v < UINT
    ensures v == WordByte(v, 0) + 256 * (WordByte(v, 1) + 256 * (WordByte(v, 2) + 256 * WordByte(v, 3)))
  {
    PutWordDigits(v);
    assert v / 256 / 256 == v / 0x1_0000 && v / 256 / 256 / 256 == v / 0x100_0000;
    assert WordByte(v, 2) == WordByte(v / 256, 1) == v / 0x1_0000 % 256;
    assert WordByte(v, 3) == WordByte(v / 256, 2) == WordByte(v / 256 / 256, 1) == v / 0x100_0000 % 256;
  }

  function Bit(used: seq<bool>, b: nat): int {
    if b < |used| && used[b] then 1 else 0
  }

  // n bits from b on, the lowest first.
  function Bits(used: seq<bool>, b: nat, n: nat): int
    decreases n
  {
    if n == 0 then 0 else Bit(used, b) + 2 * Bits(used, b + 1, n - 1)
  }

  function BitOf(x: int, t: nat): int
    decreases t
  {
    if t == 0 then x % 2 else BitOf(x / 2, t - 1)
  }

  lemma {:induction false} BitsRoundTrip(used: seq<bool>, b: nat, n: nat, t: nat)
    requires t < n
    ensures BitOf(Bits(used, b, n), t) == Bit(used, b + t)
    decreases n
  {
    if t > 0 { BitsRoundTrip(used, b + 1, n - 1, t - 1); }
  }

  lemma {:induction false} BitsSame(used: seq<bool>, used': seq<bool>, b: nat, n: nat)
    requires |used'| == |used|
    requires forall c :: b <= c < b + n && c < |used| ==> used'[c] == used[c]
    ensures Bits(used', b, n) == Bits(used, b, n)
    decreases n
  {
    if n > 0 { BitsSame(used, used', b + 1, n - 1); }
  }

  // ---------- blocks ----------

  function DinodeByte(ip: Inode, head: seq<int>, o: nat): int
    requires |ip.addrs| == NDIRECT + 1 && o < DINODE
  {
    if o < 8 then if o < |head| then head[o] else 0
    else if o < 12 then WordByte(ip.size, o - 8)
    else WordByte(ip.addrs[(o - 12) / 4], (o - 12) % 4)
  }

  // Byte o of inode block j.
  function InodeByte(s: Fs, heads: Heads, j: nat, o: nat): int
    requires Shaped(s)
  {
    var i := j * IPB + o / DINODE;
    if i in s.inodes then DinodeByte(s.inodes[i], if i in heads then heads[i] else [], o % DINODE) else 0
  }

  function InodeBlock(s: Fs, heads: Heads, j: nat): (b: Block)
    requires Shaped(s)
    ensures |b| == BSIZE
  {
    seq(BSIZE, o requires 0 <= o < BSIZE => InodeByte(s, heads, j, o))
  }

  function BitmapBlock(s: Fs, j: nat): (b: Block)
    ensures |b| == BSIZE
  {
    seq(BSIZE, o requires 0 <= o < BSIZE => Bits(s.used, j * BPB + 8 * o, 8))
  }

  function ImageBlock(s: Fs, heads: Heads, b: int): Block
    requires Shaped(s) && 0 <= b < s.l.size
  {
    if s.l.inodestart <= b < s.l.bmapstart then InodeBlock(s, heads, b - s.l.inodestart)
    else if s.l.bmapstart <= b < s.l.data then BitmapBlock(s, b - s.l.bmapstart)
    else s.blocks[b]
  }

  // The home blocks of a disk with the file system s.
  function Image(g: RedoLog.Geometry, s: Fs, heads: Heads): RedoLog.HomeMap
    requires Shaped(s)
  {
    map b | 0 <= b < s.l.size && !g.InLog(b) :: ImageBlock(s, heads, b)
  }

  // The log lies before the inode blocks, and the inodes lie in these.
  ghost predicate Placed(g: RedoLog.Geometry, s: Fs) {
    && g.Valid() && g.size == s.l.size && g.words == BSIZE && g.start + g.nlog <= s.l.inodestart
    && forall i :: i in s.inodes ==> 0 <= i && s.l.IBlock(i) < s.l.bmapstart
  }

  lemma BlockSize(s: Fs, heads: Heads, b: int)
    requires Shaped(s) && 0 <= b < s.l.size
    ensures |ImageBlock(s, heads, b)| == BSIZE
  {
  }

  // ---------- reading it back ----------

  function ReadInode(b: Block, k: nat): Inode
    requires |b| == BSIZE && k < IPB
  {
    Inode(Natural(WordAt(b, k * DINODE + 8)),
          seq(NDIRECT + 1, j requires 0 <= j < NDIRECT + 1 => WordAt(b, k * DINODE + 12 + 4 * j)))
  }

  function Natural(v: int): nat {
    if v < 0 then 0 else v
  }

  predicate ReadBit(b: Block, i: nat)
    requires |b| == BSIZE && i < BPB
  {
    BitOf(b[i / 8], i % 8) == 1
  }

  lemma AddrInRange(s: Fs, i: int, j: nat)
    requires Inv(s) && i in s.inodes && j < NDIRECT + 1
    ensures 0 <= s.inodes[i].addrs[j] < UINT
  {
    var x := Slot(i, if j < NDIRECT then j else MAXFILE);
    assert IsSlot(s.inodes, x) && At(s, x) == s.inodes[i].addrs[j];
  }

  lemma ReadsInodeWord(s: Fs, heads: Heads, j: nat, k: nat, o: nat, v: int)
    requires Shaped(s) && k < IPB && o + 4 <= DINODE && 0 <= v < UINT && j * IPB + k in s.inodes
    requires var i := j * IPB + k;
             forall t :: 0 <= t < 4 ==>
               DinodeByte(s.inodes[i], if i in heads then heads[i] else [], o + t) == WordByte(v, t)
    ensures WordAt(InodeBlock(s, heads, j), k * DINODE + o) == v
  {
    var b := InodeBlock(s, heads, j);
    forall t | 0 <= t < 4
      ensures b[k * DINODE + o + t] == WordByte(v, t)
    {
      assert (k * DINODE + o + t) / DINODE == k && (k * DINODE + o + t) % DINODE == o + t;
    }
    WordBytes(v);
  }

  lemma SizeBytes(ip: Inode, head: seq<int>)
    requires |ip.addrs| == NDIRECT + 1
    ensures forall t :: 0 <= t < 4 ==> DinodeByte(ip, head, 8 + t) == WordByte(ip.size, t)
  {
  }

  lemma AddrBytes(ip: Inode, head: seq<int>, n: nat)
    requires |ip.addrs| == NDIRECT + 1 && n < NDIRECT + 1
    ensures forall t :: 0 <= t < 4 ==> DinodeByte(ip, head, 12 + 4 * n + t) == WordByte(ip.addrs[n], t)
  {
    forall t | 0 <= t < 4
      ensures DinodeByte(ip, head, 12 + 4 * n + t) == WordByte(ip.addrs[n], t)
    {
      assert (12 + 4 * n + t - 12) / 4 == n && (12 + 4 * n + t - 12) % 4 == t;
    }
  }

  lemma ReadsInode(s: Fs, heads: Heads, i: nat)
    requires Inv(s) && i in s.inodes && s.inodes[i].size < UINT
    ensures ReadInode(InodeBlock(s, heads, i / IPB), i % IPB) == s.inodes[i]
  {
    hide Inv, InodeBlock, DinodeByte, WordAt;
    InvShape(s);
    var j, k := i / IPB, i % IPB;
    var ip := s.inodes[i];
    SizeBytes(ip, if i in heads then heads[i] else []);
    assert i == j * IPB + k;
    ReadsInodeWord(s, heads, j, k, 8, ip.size);
    var r := ReadInode(InodeBlock(s, heads, j), k);
    forall n: nat | n < NDIRECT + 1
      ensures r.addrs[n] == ip.addrs[n]
    {
      AddrInRange(s, i, n);
      AddrBytes(ip, if i in heads then heads[i] else [], n);
      ReadsInodeWord(s, heads, j, k, 12 + 4 * n, ip.addrs[n]);
    }
    assert r.addrs == ip.addrs;
  }

  lemma ReadsBit(s: Fs, b: nat)
    requires b < |s.used|
    ensures ReadBit(BitmapBlock(s, b / BPB), b % BPB) == s.used[b]
  {
    var j, i := b / BPB, b % BPB;
    BitsRoundTrip(s.used, j * BPB + 8 * (i / 8), 8, i % 8);
    assert j * BPB + 8 * (i / 8) + i % 8 == b;
  }

  // What a boot finds in the image h at inode i and at block b.
  ghost predicate HasInode(h: RedoLog.HomeMap, l: Layout, i: nat, ip: Inode) {
    var b := l.IBlock(i);
    b in h && |h[b]| == BSIZE && ReadInode(h[b], i % IPB) == ip
  }

  ghost predicate HasBit(h: RedoLog.HomeMap, l: Layout, b: nat, used: bool) {
    var m := l.BBlock(b);
    m in h && |h[m]| == BSIZE && ReadBit(h[m], b % BPB) == used
  }

  lemma InodeBack(g: RedoLog.Geometry, s: Fs, heads: Heads, i: int)
    requires Inv(s) && Placed(g, s) && i in s.inodes && s.inodes[i].size < UINT
    ensures 0 <= i && HasInode(Image(g, s, heads), s.l, i, s.inodes[i])
  {
    hide Inv, ReadInode, InodeBlock;
    InvShape(s);
    BlockSize(s, heads, s.l.IBlock(i));
    ReadsInode(s, heads, i);
  }

  lemma BitBack(g: RedoLog.Geometry, s: Fs, heads: Heads, b: nat)
    requires Inv(s) && Placed(g, s) && b < s.l.size
    ensures HasBit(Image(g, s, heads), s.l, b, s.used[b])
  {
    hide Inv, ReadBit, BitmapBlock;
    InvShape(s);
    assert 0 <= b / BPB <= (s.l.size - 1) / BPB;
    BlockSize(s, heads, s.l.BBlock(b));
    ReadsBit(s, b);
  }

  lemma DataBack(g: RedoLog.Geometry, s: Fs, heads: Heads, b: int)
    requires Inv(s) && Placed(g, s) && s.l.data <= b < s.l.size
    ensures b in Image(g, s, heads) && Image(g, s, heads)[b] == s.blocks[b]
  {
    assert s.l.bmapstart <= s.l.BBlock(s.l.size - 1);
  }

  /** The inodes, the bitmap and the data blocks can be read back from the image. */
  lemma ImageReadsBack(g: RedoLog.Geometry, s: Fs, heads: Heads)
    requires Inv(s) && Placed(g, s) && forall i :: i in s.inodes ==> s.inodes[i].size < UINT
    ensures forall i :: i in s.inodes ==> 0 <= i && HasInode(Image(g, s, heads), s.l, i, s.inodes[i])
    ensures forall b: nat :: b < s.l.size ==> HasBit(Image(g, s, heads), s.l, b, s.used[b])
    ensures forall b :: s.l.data <= b < s.l.size ==>
              b in Image(g, s, heads) && Image(g, s, heads)[b] == s.blocks[b]
  {
    hide Inv, Placed, HasInode, HasBit, Image;
    InvShape(s);
    forall b | s.l.data <= b < s.l.size
      ensures b in Image(g, s, heads) && Image(g, s, heads)[b] == s.blocks[b]
    {
      DataBack(g, s, heads, b);
    }
    forall i | i in s.inodes
      ensures 0 <= i && HasInode(Image(g, s, heads), s.l, i, s.inodes[i])
    {
      InodeBack(g, s, heads, i);
    }
    forall b: nat | b < s.l.size
      ensures HasBit(Image(g, s, heads), s.l, b, s.used[b])
    {
      BitBack(g, s, heads, b);
    }
  }

  lemma InvShape(s: Fs)
    requires Inv(s)
    ensures Shaped(s)
  {
  }

  // ---------- what a write changes ----------

  lemma InodeBlockKept(s: Fs, s': Fs, heads: Heads, inum: int, lg: set<int>, j: nat)
    requires Shaped(s) && Shaped(s') && Logs(s, s', inum, lg) && s.l.IBlock(inum) in lg
    requires s.l.inodestart + j !in lg
    ensures InodeBlock(s', heads, j) == InodeBlock(s, heads, j)
  {
    forall o: nat | o < BSIZE
      ensures InodeByte(s', heads, j, o) == InodeByte(s, heads, j, o)
    {
      var i := j * IPB + o / DINODE;
      assert i / IPB == j;
    }
  }

  lemma InBlock(j: nat, o: nat, c: int)
    requires o + 8 <= BPB && j * BPB + o <= c < j * BPB + o + 8
    ensures c / BPB == j
  {
  }

  lemma BitmapByteKept(s: Fs, s': Fs, inum: int, lg: set<int>, j: nat, o: nat)
    requires Logs(s, s', inum, lg) && s.l.bmapstart + j !in lg && o < BSIZE
    ensures Bits(s'.used, j * BPB + 8 * o, 8) == Bits(s.used, j * BPB + 8 * o, 8)
  {
    forall c | j * BPB + 8 * o <= c < j * BPB + 8 * o + 8 && c < |s.used|
      ensures s'.used[c] == s.used[c]
    {
      InBlock(j, 8 * o, c);
    }
    BitsSame(s.used, s'.used, j * BPB + 8 * o, 8);
  }

  lemma BitmapBlockKept(s: Fs, s': Fs, inum: int, lg: set<int>, j: nat)
    requires Logs(s, s', inum, lg) && s.l.bmapstart + j !in lg
    ensures BitmapBlock(s', j) == BitmapBlock(s, j)
  {
    hide Logs, Bits;
    forall o: nat | o < BSIZE
      ensures Bits(s'.used, j * BPB + 8 * o, 8) == Bits(s.used, j * BPB + 8 * o, 8)
    {
      BitmapByteKept(s, s', inum, lg, j, o);
    }
  }

  /** A block that is not logged is the same before and after. */
  lemma ImageKept(g: RedoLog.Geometry, s: Fs, s': Fs, heads: Heads, inum: int, lg: set<int>, b: int)
    requires Shaped(s) && Shaped(s') && Logs(s, s', inum, lg) && s.l.IBlock(inum) in lg
    requires b in Image(g, s, heads) && b !in lg
    ensures b in Image(g, s', heads) && Image(g, s', heads)[b] == Image(g, s, heads)[b]
  {
    hide InodeBlock, BitmapBlock;
    if s.l.inodestart <= b < s.l.bmapstart {
      InodeBlockKept(s, s', heads, inum, lg, b - s.l.inodestart);
    } else if s.l.bmapstart <= b < s.l.data {
      BitmapBlockKept(s, s', inum, lg, b - s.l.bmapstart);
    }
  }
}
