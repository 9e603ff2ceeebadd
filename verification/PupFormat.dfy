/**
  Formatting a volume (kernel/fs/pup.c): the layout, and that what is written is what a mount reads.

  The size of the bitmap is computed in 32 bits, and not by the rule its comment gives.  Counts of blocks
  are therefore split into how many times 2^20 they are and what is left, which is all the computation
  sees, and the layout is judged for every count there can be.
 */
module PupFormat {
  import opened Arithmetic
  import opened PupCache

  const BLOCK_SIZE: nat := 4096
  const WORD32: nat := 0x1_0000_0000

  /** The product is a 32-bit one, and wraps. */
  function BitmaskBlocks(blockCount: nat): nat {
    var n := blockCount * BLOCK_SIZE % WORD32 / (BLOCK_SIZE * 8 + 1);
    if n == 0 then 1 else n
  }

  function RoundUp4(n: nat): nat { (n + 3) - (n + 3) % 4 }

  /** Block 1 and node 0 of it. */
  const ROOT_NODE: nat := 0x100

  function Layout(blockCount: nat): Root {
    var bits := BitmaskBlocks(blockCount);
    Root(ROOT_NODE, 2, bits, RoundUp4(2 + bits), blockCount)
  }

  /** The root block, the root node's block, the bitmap and the allocatable blocks follow each other inside the volume. */
  predicate Fits(r: Root) {
    && RootBlock(r) == 1 && r.bitmaskStart == 2 && r.bitmaskBlocks >= 1
    && r.bitmaskStart + r.bitmaskBlocks <= r.allocStart <= r.blockCount
  }

  /** The bitmap has a bit for every allocatable block. */
  predicate EnoughBits(r: Root) { r.blockCount <= r.allocStart + r.bitmaskBlocks * BLOCK_SIZE * 8 }

  /** How many times 2^20 blocks there are, and how many more. */
  const WRAP: nat := 0x10_0000

  /** What the wrapped division leaves: it sees no more than the blocks beyond the last multiple of 2^20. */
  lemma BitmaskQuotient(blockCount: nat) returns (q: nat)
    ensures var r := blockCount % WRAP;
      q * 32769 <= r * 4096 < q * 32769 + 32769 && BitmaskBlocks(blockCount) == if q == 0 then 1 else q
  {
    var k, r := blockCount / WRAP, blockCount % WRAP;
    assert blockCount * 4096 == k * WORD32 + r * 4096;
    QuotientIs(WORD32, k, r * 4096);
    q := r * 4096 / 32769;
  }

  lemma RoundedUp(n: nat)
    ensures RoundUp4(n) % 4 == 0 && n <= RoundUp4(n) <= n + 3
    ensures RoundUp4(3) == 4
  {
    var q := (n + 3) / 4;
    assert RoundUp4(n) == q * 4 && n <= q * 4 <= n + 3;
    assert q * 4 % 4 == 0;
  }

  /** The root block, the root node's block and the bitmap follow each other, whatever the count. */
  lemma Regions(blockCount: nat)
    ensures var r := Layout(blockCount); RootBlock(r) == 1 && r.bitmaskStart == 2 && r.bitmaskBlocks >= 1
  {
    var q := BitmaskQuotient(blockCount);
    hide BitmaskBlocks, RoundUp4;
  }

  /** The layout fits exactly when there are at least four blocks, wrap or no wrap. */
  lemma LayoutFitsIff(blockCount: nat)
    ensures Fits(Layout(blockCount)) <==> blockCount >= 4
    ensures Layout(blockCount).allocStart % 4 == 0
  {
    var q := BitmaskQuotient(blockCount);
    RoundedUp(2 + BitmaskBlocks(blockCount));
    assert blockCount % WRAP <= blockCount;
    hide BitmaskBlocks, RoundUp4;
  }

  // ------------------------------------------------------------------ when the bitmap is large enough

  /** The quotient from which on the bitmap covers the blocks that the wrap has hidden. */
  function EnoughQuotient(k: nat): nat { 32 * k + 1 + 224 * k / 32761 }

  /** The number of blocks beyond k times 2^20 that gives this quotient. */
  function Threshold(k: nat): nat { (32769 * EnoughQuotient(k) + 4095) / 4096 }

  /**
    Every 585 times 2^20 blocks, the last few blocks of the least quotient are too many by some: the
    bitmap grows by a block for every eight or so blocks, and there is nothing to spare.
   */
  predicate Sliver(k: nat, r: nat) {
    k % 585 == 0 && Threshold(k) + 4 - k / 1170 <= r < Threshold(k) + 8
  }

  lemma ThresholdMeans(k: nat, r: nat, q: nat)
    requires q * 32769 <= r * 4096 < q * 32769 + 32769
    ensures r >= Threshold(k) <==> q >= EnoughQuotient(k)
    ensures q > EnoughQuotient(k) ==> r >= Threshold(k) + 8
  {
    var e := EnoughQuotient(k);
    hide EnoughQuotient;
    assert 4096 * Threshold(k) <= 32769 * e + 4095 < 4096 * Threshold(k) + 4096;
  }

  /** How the quotient measures against k times 2^20. */
  lemma EnoughMargin(k: nat) returns (j: nat, rem: nat)
    ensures 224 * k == 32761 * j + rem && rem < 32761 && (k < 4096 ==> j < 28)
    ensures EnoughQuotient(k) == 32 * k + 1 + j
    ensures 32761 * EnoughQuotient(k) == WRAP * k + 32761 - rem
  {
    j, rem := 224 * k / 32761, 224 * k % 32761;
  }

  lemma RemainderNotSmall(k: nat, j: nat, rem: nat)
    requires 0 < k < 4096 && j < 28 && 224 * k == 32761 * j + rem && rem < 32761
    ensures rem >= 5
  {
    var m, c, t := j / 4, j % 4, k - 146 * j;
    assert 224 * (t - m) == 4 * m + 57 * c + rem;
  }

  lemma RemainderNotLarge(k: nat, j: nat, rem: nat)
    requires 0 < k < 4096 && k % 585 != 0 && j < 28 && 224 * k == 32761 * j + rem && rem < 32761
    ensures rem <= 32724
  {
    // 32761 is 146 * 224 + 57, and 4 * 57 is 224 + 4: only the multiples of 585 come close from below.
    var s, m, c := 32761 - rem, (j + 1) / 4, (j + 1) % 4;
    var t := k - 146 * (j + 1);
    assert 224 * (t - m) == 4 * m + 57 * c - s;
    assert c == 0 && t == m ==> k == 585 * m;
  }

  /**
    With k times 2^20 blocks and r more, the bitmap has a bit for every allocatable block exactly when
    nothing wraps, or r reaches the threshold and is not in a sliver above it.
   */
  lemma EnoughBitsIff(blockCount: nat)
    requires blockCount < WORD32
    ensures var k, r := blockCount / WRAP, blockCount % WRAP;
      EnoughBits(Layout(blockCount)) <==> k == 0 || (r >= Threshold(k) && !Sliver(k, r))
  {
    var k, r := blockCount / WRAP, blockCount % WRAP;
    var q := BitmaskQuotient(blockCount);
    RoundedUp(2 + BitmaskBlocks(blockCount));
    ThresholdMeans(k, r, q);
    var j, rem := EnoughMargin(k);
    hide BitmaskBlocks, RoundUp4, Threshold, EnoughQuotient;
    if k > 0 {
      RemainderNotSmall(k, j, rem);
      if q == EnoughQuotient(k) {
        if k % 585 == 0 { AtSliver(blockCount, k, r, q); } else { RemainderNotLarge(k, j, rem); }
      }
    }
  }

  /** The seven multiples of 585 below 4096, with all that the comparison needs of them. */
  lemma SliverTable(m: nat)
    requires 1 <= m <= 7
    ensures var e := EnoughQuotient(585 * m);
      && Threshold(585 * m) == [149797, 299594, 449390, 599187, 748983, 898780, 1048576][m - 1]
      && e == [18724, 37448, 56172, 74896, 93620, 112344, 131068][m - 1] && RoundUp4(2 + e) == [18728, 37452, 56176, 74900, 93624, 112348, 131072][m - 1]
  {
    if m == 1 {} else if m == 2 {} else if m == 3 {} else if m == 4 {} else if m == 5 {} else if m == 6 {} else {}
  }

  lemma AtSliver(blockCount: nat, k: nat, r: nat, q: nat)
    requires blockCount == k * WRAP + r && 0 < k < 4096 && k % 585 == 0 && r < WRAP && q == EnoughQuotient(k)
    requires q * 32769 <= r * 4096 < q * 32769 + 32769
    requires BitmaskBlocks(blockCount) == q
    ensures EnoughBits(Layout(blockCount)) <==> !Sliver(k, r)
  {
    hide BitmaskBlocks, EnoughQuotient, Threshold, RoundUp4;
    var m := k / 585;
    assert k == 585 * m && 1 <= m <= 7;
    SliverTable(m);
    assert k / 1170 == m / 2;
  }

  /** Less sharply: short of 256 blocks for each wrap there are too few bits, from 257 and 8 more on there are enough. */
  lemma EnoughBitsBounds(blockCount: nat)
    requires WRAP <= blockCount < WORD32
    ensures var k, r := blockCount / WRAP, blockCount % WRAP;
      && (r < 256 * k ==> !EnoughBits(Layout(blockCount)))
      && (r >= 257 * k + 8 ==> EnoughBits(Layout(blockCount)))
  {
    hide Layout, Threshold, EnoughBits;
    var k := blockCount / WRAP;
    EnoughBitsIff(blockCount);
    ThresholdBounds(k);
    assert k % 585 == 0 ==> k >= 585;
  }

  lemma ThresholdBounds(k: nat)
    requires 0 < k < 4096
    ensures 256 * k + 8 <= Threshold(k) <= 257 * k + 8
    ensures k >= 585 ==> Threshold(k) + 8 <= 257 * k + 8
  {
    var j, rem := EnoughMargin(k);
    var e, h := EnoughQuotient(k), Threshold(k);
    hide EnoughQuotient;
    assert 4096 * h <= 32769 * e + 4095 < 4096 * h + 4096;
  }

  // ------------------------------------------------------------------ what formatting writes

  function LowBytes(n: nat, bytes: nat): (s: seq<nat>)
    ensures |s| == bytes && forall i :: 0 <= i < |s| ==> s[i] < 256
    decreases bytes
  {
    if bytes == 0 then [] else [n % 256] + LowBytes(n / 256, bytes - 1)
  }

  function Power256(bytes: nat): (w: nat)
    ensures w > 0
  {
    if bytes == 0 then 1 else 256 * Power256(bytes - 1)
  }

  /** Reading a word back at any place gives it, if it has no more bytes than were written. */
  lemma {:induction false} WordReadBack(before: Block, n: nat, bytes: nat, after: Block)
    requires n < Power256(bytes)
    ensures Word(before + LowBytes(n, bytes) + after, |before|, bytes) == n
    decreases bytes
  {
    if bytes > 0 {
      var low := LowBytes(n / 256, bytes - 1);
      WordReadBack(before + [n % 256], n / 256, bytes - 1, after);
      assert before + [n % 256] + low + after == before + LowBytes(n, bytes) + after;
    }
  }

  /** 24 characters of name and five 64-bit words, and what follows them. */
  function WithRoot(name: seq<nat>, r: Root, rest: Block): Block {
    name + (LowBytes(r.rootNode, 8) + (LowBytes(r.bitmaskStart, 8) + (LowBytes(r.bitmaskBlocks, 8)
    + (LowBytes(r.allocStart, 8) + (LowBytes(r.blockCount, 8) + rest)))))
  }

  const ROOT_BYTES: nat := 64

  predicate SmallRoot(r: Root) {
    r.rootNode < Power256(8) && r.bitmaskStart < Power256(8) && r.bitmaskBlocks < Power256(8)
    && r.allocStart < Power256(8) && r.blockCount < Power256(8)
  }

  lemma Together(x: Block, y: Block, z: Block)
    ensures (x + y) + z == x + (y + z)
  {
  }

  lemma RootReadBack(name: seq<nat>, r: Root, rest: Block)
    requires |name| == 24 && SmallRoot(r)
    ensures RootOf(WithRoot(name, r, rest)) == r
  {
    hide Power256, LowBytes, Word;
    var a, b, c, d, e := LowBytes(r.rootNode, 8), LowBytes(r.bitmaskStart, 8), LowBytes(r.bitmaskBlocks, 8),
                         LowBytes(r.allocStart, 8), LowBytes(r.blockCount, 8);
    var s := WithRoot(name, r, rest);
    var t1 := b + (c + (d + (e + rest)));
    var t2 := c + (d + (e + rest));
    var t3 := d + (e + rest);
    var t4 := e + rest;
    var p1, p2, p3, p4 := name + a, name + a + b, name + a + b + c, name + a + b + c + d;
    WordReadBack(name, r.rootNode, 8, t1);
    Together(name, a, t1);
    WordReadBack(p1, r.bitmaskStart, 8, t2);
    Together(p1, b, t2);
    WordReadBack(p2, r.bitmaskBlocks, 8, t3);
    Together(p2, c, t3);
    WordReadBack(p3, r.allocStart, 8, t4);
    Together(p3, d, t4);
    WordReadBack(p4, r.blockCount, 8, rest);
    Together(p4, e, rest);
  }

  /** The i-th byte is the one that counts 256^i: the least first. */
  lemma {:induction false} LowBytesAt(n: nat, bytes: nat, i: nat)
    requires i < bytes
    ensures LowBytes(n, bytes)[i] == n / Power256(i) % 256
    decreases bytes
  {
    if i > 0 {
      LowBytesAt(n / 256, bytes - 1, i - 1);
      DivideTwice(n, Power256(i - 1));
    }
  }

  lemma DivideTwice(n: nat, p: nat)
    requires p > 0
    ensures n / 256 / p == n / (256 * p)
  {
    var q, m := n / (256 * p), n % (256 * p);
    DivMod(n, 256 * p);
    var a, b := m / 256, m % 256;
    assert n == 256 * (p * q + a) + b by { assert 256 * p * q == 256 * (p * q); }
    QuotientIs(256, p * q + a, b);
    QuotientIs(p, q, a);
  }

  /** The bytes on the disk: the name, then the five words in this order, each with its least byte first. */
  lemma RootBytes(name: seq<nat>, r: Root, rest: Block, i: nat)
    requires |name| == 24 && i < 8
    ensures var s := WithRoot(name, r, rest);
      && |s| == 64 + |rest| && s[..24] == name && s[64..] == rest
      && s[24 + i] == r.rootNode / Power256(i) % 256 && s[32 + i] == r.bitmaskStart / Power256(i) % 256
      && s[40 + i] == r.bitmaskBlocks / Power256(i) % 256 && s[48 + i] == r.allocStart / Power256(i) % 256
      && s[56 + i] == r.blockCount / Power256(i) % 256
  {
    LowBytesAt(r.rootNode, 8, i);
    LowBytesAt(r.bitmaskStart, 8, i);
    LowBytesAt(r.bitmaskBlocks, 8, i);
    LowBytesAt(r.allocStart, 8, i);
    LowBytesAt(r.blockCount, 8, i);
    hide LowBytes, Power256;
    FiveWords(name, LowBytes(r.rootNode, 8), LowBytes(r.bitmaskStart, 8), LowBytes(r.bitmaskBlocks, 8),
              LowBytes(r.allocStart, 8), LowBytes(r.blockCount, 8), rest, i);
  }

  lemma FiveWords(name: Block, a: Block, b: Block, c: Block, d: Block, e: Block, rest: Block, i: nat)
    requires |name| == 24 && |a| == |b| == |c| == |d| == |e| == 8 && i < 8
    ensures var s := name + (a + (b + (c + (d + (e + rest)))));
      && |s| == 64 + |rest| && s[..24] == name && s[64..] == rest
      && s[24 + i] == a[i] && s[32 + i] == b[i] && s[40 + i] == c[i] && s[48 + i] == d[i] && s[56 + i] == e[i]
  {
    var t4 := e + rest;
    var t3 := d + t4;
    var t2 := c + t3;
    var t1 := b + t2;
    var t0 := a + t1;
    var s := name + t0;
    assert s[24 + i] == t0[i] == a[i] && s[32 + i] == t0[8 + i] == t1[i] == b[i];
    assert s[40 + i] == t1[8 + i] == t2[i] == c[i] && s[48 + i] == t2[8 + i] == t3[i] == d[i];
    assert s[56 + i] == t3[8 + i] == t4[i] == e[i] && s[64..] == rest;
  }

  function ZeroBlock(): (b: Block)
    ensures |b| == 4096 && forall i :: 0 <= i < |b| ==> b[i] == 0
  {
    seq(BLOCK_SIZE, _ => 0)
  }

  function Zeroes(count: nat): (s: seq<Block>)
    ensures |s| == count && forall i :: 0 <= i < count ==> s[i] == ZeroBlock()
  {
    seq(count, _ => ZeroBlock())
  }

  function Rest(b: Block): Block { if |b| >= ROOT_BYTES then b[ROOT_BYTES..] else [] }

  /** A block and the bitmap are cleared, the root goes in front of block 0, and the root node's block is written. */
  function Format(disk: Disk, name: seq<nat>, blockCount: nat, rootNodeBlock: Block): Disk {
    var r := Layout(blockCount);
    var d1 := WriteBlocks(disk, ROOT_NODE, [ZeroBlock()]);
    var d2 := WriteBlocks(d1, r.bitmaskStart, Zeroes(r.bitmaskBlocks));
    var d3 := WriteBlocks(d2, 0, [WithRoot(name, r, Rest(OnDisk(d2, 0)))]);
    WriteBlocks(d3, RootBlock(r), [rootNodeBlock])
  }

  lemma FormattedAt(disk: Disk, name: seq<nat>, blockCount: nat, rootNodeBlock: Block, b: nat)
    ensures var r := Layout(blockCount);
      OnDisk(Format(disk, name, blockCount, rootNodeBlock), b)
      == if b == 1 then rootNodeBlock
         else if b == 0 then WithRoot(name, r, Rest(OnDisk(disk, 0)))
         else if InBitmask(r, b) || b == ROOT_NODE then ZeroBlock()
         else OnDisk(disk, b)
  {
    var r := Layout(blockCount);
    Regions(blockCount);
    var d1 := WriteBlocks(disk, ROOT_NODE, [ZeroBlock()]);
    var d2 := WriteBlocks(d1, r.bitmaskStart, Zeroes(r.bitmaskBlocks));
    var d3 := WriteBlocks(d2, 0, [WithRoot(name, r, Rest(OnDisk(d2, 0)))]);
    WrittenAt(disk, ROOT_NODE, [ZeroBlock()], b);
    WrittenAt(disk, ROOT_NODE, [ZeroBlock()], 0);
    WrittenAt(d1, r.bitmaskStart, Zeroes(r.bitmaskBlocks), b);
    WrittenAt(d1, r.bitmaskStart, Zeroes(r.bitmaskBlocks), 0);
    WrittenAt(d2, 0, [WithRoot(name, r, Rest(OnDisk(d2, 0)))], b);
    WrittenAt(d3, RootBlock(r), [rootNodeBlock], b);
    hide OnDisk, WriteBlocks, WithRoot, Layout, Rest, EnoughBits;
  }

  /** Of block 0 only the root's 64 bytes are written. */
  lemma RestStays(disk: Disk, name: seq<nat>, blockCount: nat, rootNodeBlock: Block, i: nat)
    requires |name| == 24 && i >= 64
    ensures Byte(OnDisk(Format(disk, name, blockCount, rootNodeBlock), 0), i) == Byte(OnDisk(disk, 0), i)
  {
    FormattedAt(disk, name, blockCount, rootNodeBlock, 0);
    var r, b := Layout(blockCount), OnDisk(disk, 0);
    RootBytes(name, r, Rest(b), 0);
    var s := WithRoot(name, r, Rest(b));
    hide Format, Layout, WithRoot, OnDisk, EnoughBits, Power256;
    if i < |s| { assert s[i] == s[64..][i - 64]; }
  }

  lemma RootIsSmall(blockCount: nat)
    requires blockCount < WORD32
    ensures SmallRoot(Layout(blockCount))
  {
    var q := BitmaskQuotient(blockCount);
    RoundedUp(2 + BitmaskBlocks(blockCount));
    Power8();
    hide BitmaskBlocks, RoundUp4, Power256;
  }

  lemma Power8()
    ensures Power256(8) >= WORD32
  {
    assert Power256(4) == WORD32;
    assert Power256(5) >= Power256(4) && Power256(6) >= Power256(5);
    assert Power256(7) >= Power256(6) && Power256(8) >= Power256(7);
  }

  /**
    Formatting leaves alone what lies past the volume exactly when the volume has more than 256 blocks:
    the block it clears is not the root node's, since it takes the node's link for a block number.
   */
  lemma StaysInsideIff(name: seq<nat>, blockCount: nat, rootNodeBlock: Block)
    requires blockCount < WORD32
    ensures (forall disk: Disk, b: nat :: b >= blockCount ==> OnDisk(Format(disk, name, blockCount, rootNodeBlock), b) == OnDisk(disk, b))
       <==> blockCount > 256
  {
    if blockCount > ROOT_NODE {
      LayoutFitsIff(blockCount);
      forall disk: Disk, b: nat | b >= blockCount
        ensures OnDisk(Format(disk, name, blockCount, rootNodeBlock), b) == OnDisk(disk, b)
      {
        FormattedAt(disk, name, blockCount, rootNodeBlock, b);
        hide Format, OnDisk, RoundUp4, BitmaskBlocks, WithRoot, Rest, ZeroBlock;
      }
    } else {
      var disk: Disk := map[ROOT_NODE := []];
      FormattedAt(disk, name, blockCount, rootNodeBlock, ROOT_NODE);
      assert OnDisk(disk, ROOT_NODE) == [] && |ZeroBlock()| == BLOCK_SIZE;
      hide Format, Layout, WithRoot, Rest, ZeroBlock;
    }
  }

  lemma FormattedBitmap(disk: Disk, name: seq<nat>, blockCount: nat, rootNodeBlock: Block)
    ensures var r := Layout(blockCount);
      ReadBlocks(Format(disk, name, blockCount, rootNodeBlock), r.bitmaskStart, r.bitmaskBlocks) == Zeroes(r.bitmaskBlocks)
  {
    var d, r := Format(disk, name, blockCount, rootNodeBlock), Layout(blockCount);
    Regions(blockCount);
    hide Format, Layout, EnoughBits, OnDisk, ZeroBlock, WithRoot, Rest;
    forall b: nat | InBitmask(r, b) ensures OnDisk(d, b) == ZeroBlock() {
      FormattedAt(disk, name, blockCount, rootNodeBlock, b);
    }
  }

  /** A volume just formatted mounts with the layout it was given, nothing allocated, and its root node in place. */
  lemma FormatMounts(disk: Disk, name: seq<nat>, blockCount: nat, rootNodeBlock: Block)
    requires blockCount < WORD32 && |name| == 24
    ensures var v := Mount(Format(disk, name, blockCount, rootNodeBlock));
      && Mounted(v) && v.root == Layout(blockCount)
      && v.root.rootNode / 256 == 1 && v.root.rootNode % 256 == 0 && v.root.bitmaskStart == 2 && v.root.blockCount == blockCount
      && v.bitmask == Zeroes(v.root.bitmaskBlocks) && Contents(v, 1) == rootNodeBlock
      && forall b: nat :: b > 1 && !InBitmask(v.root, b) && b != 256 ==> Contents(v, b) == OnDisk(disk, b)
  {
    var d, r := Format(disk, name, blockCount, rootNodeBlock), Layout(blockCount);
    Regions(blockCount);
    RootIsSmall(blockCount);
    RootReadBack(name, r, Rest(OnDisk(disk, 0)));
    FormattedAt(disk, name, blockCount, rootNodeBlock, 0);
    FormattedAt(disk, name, blockCount, rootNodeBlock, 1);
    hide RootOf, WithRoot, OnDisk, Layout, Rest, EnoughBits, Format, Mount, SmallRoot, Good, ZeroBlock, Zeroes, Contents, ReadBlocks;
    MountShowsDisk(d);
    var v := Mount(d);
    FormattedBitmap(disk, name, blockCount, rootNodeBlock);
    forall b: nat | b > 1 && !InBitmask(r, b) && b != ROOT_NODE ensures Contents(v, b) == OnDisk(disk, b) {
      FormattedAt(disk, name, blockCount, rootNodeBlock, b);
    }
  }
}
