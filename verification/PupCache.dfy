/**
  The block cache of the PUP file system (kernel/fs/pup.c), one thread at a time: entries of four
  blocks, a bitmap held in memory beside them, and mounting and unmounting, which bring both up
  from the disk and back.
 */
module PupCache {

  const BLOCKS_PER_ENTRY: nat := 4

  /** A block is its bytes; what is not there is as good as zero. */
  type Block = seq<nat>

  type Disk = map<nat, Block>

  datatype Root = Root(rootNode: nat, bitmaskStart: nat, bitmaskBlocks: nat, allocStart: nat, blockCount: nat)

  datatype Entry = Entry(first: nat, buffer: seq<Block>)

  /** A mounted volume; cached lists the entries of the cache set in the order of their links. */
  datatype Volume = Volume(disk: Disk, root: Root, bitmask: seq<Block>, cached: seq<Entry>)

  // ------------------------------------------------------------------ the disk

  function OnDisk(disk: Disk, b: nat): Block { if b in disk then disk[b] else [] }

  function ReadBlocks(disk: Disk, first: nat, count: nat): (r: seq<Block>)
    ensures |r| == count && forall b :: first <= b < first + count ==> r[b - first] == OnDisk(disk, b)
  {
    seq(count, (i: nat) => OnDisk(disk, first + i))
  }

  function WriteBlocks(disk: Disk, first: nat, blocks: seq<Block>): Disk
    decreases |blocks|
  {
    if blocks == [] then disk else WriteBlocks(disk[first := blocks[0]], first + 1, blocks[1..])
  }

  lemma {:induction false} WrittenAt(disk: Disk, first: nat, blocks: seq<Block>, b: nat)
    ensures OnDisk(WriteBlocks(disk, first, blocks), b)
         == if first <= b < first + |blocks| then blocks[b - first] else OnDisk(disk, b)
    decreases |blocks|
  {
    if blocks != [] { WrittenAt(disk[first := blocks[0]], first + 1, blocks[1..], b); }
  }

  // ------------------------------------------------------------------ the root at the start of block 0

  function Byte(b: Block, i: nat): nat { if i < |b| then b[i] else 0 }

  function Word(b: Block, i: nat, bytes: nat): nat
    decreases bytes
  {
    if bytes == 0 then 0 else Byte(b, i) + 256 * Word(b, i + 1, bytes - 1)
  }

  /** After the 24 characters of the name come five words of 64 bits. */
  function RootOf(b: Block): Root {
    Root(Word(b, 24, 8), Word(b, 32, 8), Word(b, 40, 8), Word(b, 48, 8), Word(b, 56, 8))
  }

  // ------------------------------------------------------------------ the cache

  predicate Holds(e: Entry, b: nat) { e.first <= b <= e.first + (BLOCKS_PER_ENTRY - 1) }

  /** The first entry that holds the block, or the number of entries. */
  function FindEntry(cached: seq<Entry>, b: nat): (i: nat)
    ensures i <= |cached|
    ensures i < |cached| ==> Holds(cached[i], b)
    ensures forall j :: 0 <= j < i ==> !Holds(cached[j], b)
  {
    if cached == [] then 0 else if Holds(cached[0], b) then 0 else 1 + FindEntry(cached[1..], b)
  }

  lemma FoundBy(cached: seq<Entry>, k: nat, b: nat)
    requires k < |cached| && Holds(cached[k], b)
    ensures FindEntry(cached, b) <= k
  {
  }

  lemma {:induction false} SameFind(c: seq<Entry>, d: seq<Entry>, b: nat)
    requires |c| == |d| && forall i :: 0 <= i < |c| ==> c[i].first == d[i].first
    ensures FindEntry(c, b) == FindEntry(d, b)
  {
    if c != [] { SameFind(c[1..], d[1..], b); }
  }

  predicate GoodEntry(e: Entry) { e.first % BLOCKS_PER_ENTRY == 0 && |e.buffer| == BLOCKS_PER_ENTRY }

  /** Entries are aligned and of full size, and no block is cached twice. */
  ghost predicate Good(cached: seq<Entry>) {
    && (forall i :: 0 <= i < |cached| ==> GoodEntry(cached[i]))
    && (forall i, j :: 0 <= i < j < |cached| ==> cached[i].first != cached[j].first)
  }

  /** What a block contains: the cached copy, if there is one. */
  function Contents(v: Volume, b: nat): Block {
    var i := FindEntry(v.cached, b);
    if i < |v.cached| && b - v.cached[i].first < |v.cached[i].buffer| then v.cached[i].buffer[b - v.cached[i].first]
    else OnDisk(v.disk, b)
  }

  lemma OneHolder(cached: seq<Entry>, i: nat, j: nat, b: nat)
    requires Good(cached) && i < |cached| && j < |cached| && Holds(cached[i], b) && Holds(cached[j], b)
    ensures i == j
  {
    assert GoodEntry(cached[i]) && GoodEntry(cached[j]);
    SameEntry(cached[i].first, cached[j].first, b);
    assert i < j || j < i || i == j;
  }

  lemma SameEntry(f: nat, g: nat, b: nat)
    requires f % BLOCKS_PER_ENTRY == 0 && g % BLOCKS_PER_ENTRY == 0 && f <= b <= f + 3 && g <= b <= g + 3
    ensures f == g
  {
  }

  lemma ContentsCached(v: Volume, i: nat, b: nat)
    requires Good(v.cached) && i < |v.cached| && Holds(v.cached[i], b)
    ensures FindEntry(v.cached, b) == i && GoodEntry(v.cached[i]) && Contents(v, b) == v.cached[i].buffer[b - v.cached[i].first]
  {
    OneHolder(v.cached, FindEntry(v.cached, b), i, b);
    assert GoodEntry(v.cached[i]);
  }

  /** Brings a block's entry in, if it is not there yet. */
  function Load(v: Volume, b: nat): Volume {
    if FindEntry(v.cached, b) < |v.cached| then v
    else
      var first := b - b % BLOCKS_PER_ENTRY;
      v.(cached := v.cached + [Entry(first, ReadBlocks(v.disk, first, BLOCKS_PER_ENTRY))])
  }

  lemma LoadKeeps(v: Volume, b: nat)
    requires Good(v.cached)
    ensures Good(Load(v, b).cached) && forall x :: Contents(Load(v, b), x) == Contents(v, x)
    ensures FindEntry(Load(v, b).cached, b) < |Load(v, b).cached|
  {
    var w := Load(v, b);
    if FindEntry(v.cached, b) == |v.cached| {
      var e := w.cached[|v.cached|];
      forall i | 0 <= i < |v.cached| ensures v.cached[i].first != e.first {
        assert GoodEntry(v.cached[i]) && !Holds(v.cached[i], b);
      }
      assert Holds(e, b);
      hide Contents;
      forall x ensures Contents(w, x) == Contents(v, x) {
        LoadedContents(v, b, x);
      }
      FoundBy(w.cached, |v.cached|, b);
    }
  }

  lemma LoadedContents(v: Volume, b: nat, x: nat)
    requires Good(v.cached) && Good(Load(v, b).cached)
    ensures Contents(Load(v, b), x) == Contents(v, x)
  {
    var w := Load(v, b);
    hide Good;
    if FindEntry(v.cached, b) == |v.cached| {
      var i, j := FindEntry(v.cached, x), FindEntry(w.cached, x);
      assert forall k :: 0 <= k < |v.cached| ==> w.cached[k] == v.cached[k];
      if i < |v.cached| {
        ContentsCached(v, i, x);
        ContentsCached(w, i, x);
      } else if j < |w.cached| {
        assert j == |v.cached|;
        ContentsCached(w, j, x);
      }
    }
  }

  // ------------------------------------------------------------------ writing a block through the cache

  /** A caller that has loaded a block writes its cached copy. */
  function Write(v: Volume, b: nat, data: Block): Volume {
    var w := Load(v, b);
    var i := FindEntry(w.cached, b);
    if i < |w.cached| && b - w.cached[i].first < |w.cached[i].buffer| then
      w.(cached := w.cached[i := w.cached[i].(buffer := w.cached[i].buffer[b - w.cached[i].first := data])])
    else w
  }

  lemma WriteChangesOne(v: Volume, b: nat, data: Block)
    requires Good(v.cached)
    ensures Good(Write(v, b, data).cached)
    ensures forall x :: Contents(Write(v, b, data), x) == if x == b then data else Contents(v, x)
  {
    LoadKeeps(v, b);
    var w := Load(v, b);
    var i := FindEntry(w.cached, b);
    ContentsCached(w, i, b);
    hide Load;
    var z := Write(v, b, data);
    forall j | 0 <= j < |z.cached| ensures GoodEntry(z.cached[j]) { assert GoodEntry(w.cached[j]); }
    hide Contents;
    forall x ensures Contents(z, x) == if x == b then data else Contents(v, x) {
      WrittenContents(w, z, i, b, data, x);
    }
  }

  lemma WrittenContents(w: Volume, z: Volume, i: nat, b: nat, data: Block, x: nat)
    requires Good(w.cached) && Good(z.cached) && i < |w.cached| && Holds(w.cached[i], b)
    requires z == w.(cached := w.cached[i := w.cached[i].(buffer := w.cached[i].buffer[b - w.cached[i].first := data])])
    ensures Contents(z, x) == if x == b then data else Contents(w, x)
  {
    hide Good;
    FoundBy(w.cached, i, b);
    SameFind(w.cached, z.cached, x);
    var j := FindEntry(w.cached, x);
    if j < |w.cached| {
      ContentsCached(w, j, x);
      ContentsCached(z, j, x);
      if x == b { OneHolder(w.cached, i, j, b); }
    }
  }

  // ------------------------------------------------------------------ flushing

  /** The entries from i on are written to the disk, in order. */
  function StoreFrom(disk: Disk, cached: seq<Entry>, i: nat): Disk
    decreases |cached| - i
  {
    if i >= |cached| then disk else StoreFrom(WriteBlocks(disk, cached[i].first, cached[i].buffer), cached, i + 1)
  }

  function Flush(v: Volume): Volume { v.(disk := StoreFrom(v.disk, v.cached, 0)) }

  /** What StoreFrom leaves in a block: the buffer of its holder, or what was there. */
  lemma {:induction false} StoredAt(disk: Disk, cached: seq<Entry>, i: nat, b: nat)
    requires Good(cached) && i <= |cached|
    ensures var k := FindEntry(cached, b);
      OnDisk(StoreFrom(disk, cached, i), b)
      == if i <= k < |cached| && b - cached[k].first < |cached[k].buffer| then cached[k].buffer[b - cached[k].first] else OnDisk(disk, b)
    decreases |cached| - i
  {
    var k := FindEntry(cached, b);
    hide Good, OnDisk, WriteBlocks;
    if k < |cached| { EntryIsGood(cached, k); }
    if i < |cached| {
      EntryIsGood(cached, i);
      StoredAt(WriteBlocks(disk, cached[i].first, cached[i].buffer), cached, i + 1, b);
      WrittenAt(disk, cached[i].first, cached[i].buffer, b);
      if Holds(cached[i], b) { FoundBy(cached, i, b); OneHolder(cached, i, k, b); }
    }
  }

  lemma EntryIsGood(cached: seq<Entry>, i: nat)
    requires Good(cached) && i < |cached|
    ensures GoodEntry(cached[i])
  {
  }

  /** A flush changes no contents, and leaves on the disk exactly the contents. */
  lemma FlushKeeps(v: Volume)
    requires Good(v.cached)
    ensures forall b :: Contents(Flush(v), b) == Contents(v, b)
    ensures forall b :: OnDisk(Flush(v).disk, b) == Contents(v, b)
  {
    hide Good, OnDisk;
    forall b ensures Contents(Flush(v), b) == Contents(v, b) && OnDisk(Flush(v).disk, b) == Contents(v, b) {
      StoredAt(v.disk, v.cached, 0, b);
    }
  }

  // ------------------------------------------------------------------ mounting and unmounting

  /** The cache is flushed first, and with it the stale bitmap blocks it may hold; the bitmap goes over them. */
  function Unmount(v: Volume): Disk { WriteBlocks(Flush(v).disk, v.root.bitmaskStart, v.bitmask) }

  function RootBlock(r: Root): nat { r.rootNode / 256 }

  function Mount(disk: Disk): Volume {
    var root := RootOf(OnDisk(disk, 0));
    Load(Volume(disk, root, ReadBlocks(disk, root.bitmaskStart, root.bitmaskBlocks), []), RootBlock(root))
  }

  predicate InBitmask(r: Root, b: nat) { r.bitmaskStart <= b < r.bitmaskStart + r.bitmaskBlocks }

  /** The volume is what a mount of its own contents would give: nobody has overwritten the root. */
  ghost predicate Mounted(v: Volume) {
    && Good(v.cached) && |v.bitmask| == v.root.bitmaskBlocks
    && RootOf(Contents(v, 0)) == v.root && !InBitmask(v.root, 0)
  }

  lemma MountShowsDisk(disk: Disk)
    requires !InBitmask(RootOf(OnDisk(disk, 0)), 0)
    ensures var v := Mount(disk);
      && Mounted(v) && v.disk == disk && v.root == RootOf(OnDisk(disk, 0))
      && v.bitmask == ReadBlocks(disk, v.root.bitmaskStart, v.root.bitmaskBlocks)
      && |v.cached| == 1 && Holds(v.cached[0], v.root.rootNode / 256)
      && forall b :: Contents(v, b) == OnDisk(disk, b)
  {
    hide RootOf, OnDisk;
    var root := RootOf(OnDisk(disk, 0));
    var v := Volume(disk, root, ReadBlocks(disk, root.bitmaskStart, root.bitmaskBlocks), []);
    LoadKeeps(v, RootBlock(root));
    forall b ensures Contents(v, b) == OnDisk(disk, b) {
    }
  }

  /** What a block holds after a remount: outside the bitmap its contents, inside it the bitmap in memory. */
  function Saved(v: Volume, b: nat): Block {
    if InBitmask(v.root, b) && b - v.root.bitmaskStart < |v.bitmask| then v.bitmask[b - v.root.bitmaskStart]
    else Contents(v, b)
  }

  lemma UnmountSaves(v: Volume, b: nat)
    requires Mounted(v)
    ensures OnDisk(Unmount(v), b) == Saved(v, b)
  {
    hide RootOf, OnDisk, Good, Contents, Flush;
    FlushKeeps(v);
    WrittenAt(Flush(v).disk, v.root.bitmaskStart, v.bitmask, b);
  }

  /** Unmounting and mounting again brings back the root, the bitmap, and all contents outside the bitmap. */
  lemma RemountRestores(v: Volume)
    requires Mounted(v)
    ensures var w := Mount(Unmount(v));
      && Mounted(w) && w.root == v.root && w.bitmask == v.bitmask
      && forall b :: Contents(w, b) == Saved(v, b)
  {
    hide RootOf, OnDisk, Good, Contents, Unmount, Mount;
    var disk := Unmount(v);
    forall b ensures OnDisk(disk, b) == Saved(v, b) { UnmountSaves(v, b); }
    MountShowsDisk(disk);
    var w := Mount(disk);
    assert w.bitmask == v.bitmask by {
      forall i | 0 <= i < |v.bitmask| ensures w.bitmask[i] == v.bitmask[i] {
        assert w.bitmask[v.root.bitmaskStart + i - v.root.bitmaskStart] == OnDisk(disk, v.root.bitmaskStart + i);
      }
    }
  }

  // ------------------------------------------------------------------ whole runs

  datatype Op = Touch(b: nat) | Put(b: nat, data: Block) | Mark(i: nat, data: Block) | FlushAll | Remount

  function Do(v: Volume, op: Op): Volume {
    match op
    case Touch(b) => Load(v, b)
    case Put(b, data) => Write(v, b, data)
    case Mark(i, data) => if i < |v.bitmask| then v.(bitmask := v.bitmask[i := data]) else v
    case FlushAll => Flush(v)
    case Remount => Mount(Unmount(v))
  }

  function Run(v: Volume, ops: seq<Op>): Volume {
    if ops == [] then v else Do(Run(v, ops[..|ops| - 1]), ops[|ops| - 1])
  }

  /** Nobody writes the root's block, nor a bitmap block, through the cache. */
  predicate Tame(r: Root, op: Op) { op.Put? ==> op.b != 0 && !InBitmask(r, op.b) }

  function LastPut(ops: seq<Op>, b: nat, start: Block): Block {
    if ops == [] then start
    else
      var op := ops[|ops| - 1];
      if op.Put? && op.b == b then op.data else LastPut(ops[..|ops| - 1], b, start)
  }

  function LastMark(ops: seq<Op>, start: seq<Block>): seq<Block> {
    if ops == [] then start
    else
      var op := ops[|ops| - 1]; var s := LastMark(ops[..|ops| - 1], start);
      if op.Mark? && op.i < |s| then s[op.i := op.data] else s
  }

  lemma StepContents(v: Volume, op: Op, b: nat)
    requires Mounted(v) && Tame(v.root, op) && !InBitmask(v.root, b)
    ensures var w := Do(v, op);
      && Mounted(w) && w.root == v.root
      && Contents(w, b) == (if op.Put? && op.b == b then op.data else Contents(v, b))
      && w.bitmask == if op.Mark? && op.i < |v.bitmask| then v.bitmask[op.i := op.data] else v.bitmask
  {
    hide RootOf, OnDisk, Good, Unmount, Mount;
    match op
    case Touch(x) => LoadKeeps(v, x); LoadFields(v, x); hide Contents, Load;
    case Put(x, data) => WriteChangesOne(v, x, data); WriteFields(v, x, data); hide Contents, Write;
    case Mark(i, data) => SameContents(v, Do(v, op), b); SameContents(v, Do(v, op), 0); hide Contents;
    case FlushAll => FlushKeeps(v); hide Contents;
    case Remount => RemountRestores(v); hide Contents;
  }

  lemma SameContents(v: Volume, w: Volume, b: nat)
    requires w.cached == v.cached && w.disk == v.disk
    ensures Contents(w, b) == Contents(v, b)
  {
  }

  lemma LoadFields(v: Volume, x: nat)
    ensures Load(v, x).root == v.root && Load(v, x).bitmask == v.bitmask
  {
  }

  lemma WriteFields(v: Volume, x: nat, data: Block)
    ensures Write(v, x, data).root == v.root && Write(v, x, data).bitmask == v.bitmask
  {
  }

  /** Through any mix of loads, writes, flushes and remounts a block outside the bitmap holds what was last put there. */
  lemma {:induction false} RunContents(v: Volume, ops: seq<Op>, b: nat)
    requires Mounted(v) && !InBitmask(v.root, b) && forall i :: 0 <= i < |ops| ==> Tame(v.root, ops[i])
    ensures var w := Run(v, ops);
      && Mounted(w) && w.root == v.root && Contents(w, b) == LastPut(ops, b, Contents(v, b))
      && w.bitmask == LastMark(ops, v.bitmask)
    decreases |ops|
  {
    hide Mounted, Contents, Do, InBitmask, Tame;
    if ops != [] {
      var n := |ops| - 1;
      RunContents(v, ops[..n], b);
      assert Tame(v.root, ops[n]);
      StepContents(Run(v, ops[..n]), ops[n], b);
    }
  }

  // ------------------------------------------------------------------ the code on a volume in memory

  class MountedVolume {
    var disk: Disk
    var root: Root
    var bitmask: seq<Block>
    var cached: seq<Entry>

    ghost function View(): Volume
      reads this
    {
      Volume(disk, root, bitmask, cached)
    }

    /** Brings a volume up from its disk. */
    constructor FromDisk(disk: Disk)
      ensures View() == Mount(disk)
    {
      this.disk := disk;
      root := RootOf(OnDisk(disk, 0));
      bitmask := ReadBlocks(disk, RootOf(OnDisk(disk, 0)).bitmaskStart, RootOf(OnDisk(disk, 0)).bitmaskBlocks);
      cached := [];
      new;
      hide RootOf, Load;
      var i := FindOrLoadCacheEntry(RootBlock(root));
    }

    /** Walks the entries until one holds the block. */
    method FindCacheEntry(b: nat) returns (i: nat)
      ensures i == FindEntry(cached, b)
    {
      i := 0;
      while i < |cached| && !Holds(cached[i], b)
        invariant i <= |cached| && forall j :: 0 <= j < i ==> !Holds(cached[j], b)
      {
        i := i + 1;
      }
      if i < |cached| { FoundBy(cached, i, b); }
    }

    method FindOrLoadCacheEntry(b: nat) returns (i: nat)
      modifies this`cached
      ensures View() == Load(old(View()), b) && i == FindEntry(cached, b) < |cached|
    {
      i := FindCacheEntry(b);
      if i == |cached| {
        var first := b - b % BLOCKS_PER_ENTRY;
        ghost var before := cached;
        cached := cached + [Entry(first, ReadBlocks(disk, first, BLOCKS_PER_ENTRY))];
        FoundBy(cached, i, b);
        assert forall j :: 0 <= j < |before| ==> cached[j] == before[j];
      }
    }

    /** Copies blocks out of the cache, as much of each entry as is asked for at a time. */
    method PupRead(first: nat, count: nat) returns (data: seq<Block>)
      requires Good(cached)
      modifies this`cached
      ensures |data| == count && forall b: nat :: first <= b < first + count ==> data[b - first] == Contents(old(View()), b)
      ensures Good(cached) && forall b: nat :: Contents(View(), b) == Contents(old(View()), b)
    {
      hide Good, Contents, FindEntry, Load;
      ghost var v := View();
      data := [];
      var next: nat, left: nat := first, count;
      while left > 0
        invariant next == first + |data| && left + |data| == count && Good(cached)
        invariant forall b: nat :: Contents(View(), b) == Contents(v, b)
        invariant forall b: nat :: first <= b < next ==> data[b - first] == Contents(v, b)
        decreases left
      {
        ghost var w := View();
        LoadKeeps(w, next);
        var i := FindOrLoadCacheEntry(next);
        HeldByFind(cached, next);
        EntryIsGood(cached, i);
        var e := cached[i];
        var at := next - e.first;
        var size := if BLOCKS_PER_ENTRY - at > left then left else BLOCKS_PER_ENTRY - at;
        forall b: nat | next <= b < next + size ensures e.buffer[b - e.first] == Contents(v, b) {
          ContentsCached(View(), i, b);
        }
        data := data + e.buffer[at..at + size];
        next := next + size;
        left := left - size;
      }
    }

    /** Writes every entry of the cache back to the disk. */
    method FlushCache()
      modifies this`disk
      ensures View() == Flush(old(View()))
    {
      var i := 0;
      while i < |cached|
        invariant i <= |cached| && StoreFrom(disk, cached, i) == StoreFrom(old(disk), cached, 0)
      {
        disk := WriteBlocks(disk, cached[i].first, cached[i].buffer);
        i := i + 1;
      }
    }

    /** Flushes, and then writes the bitmap over whatever the cache had of it. */
    method UnmountVolume()
      modifies this`disk
      ensures disk == Unmount(old(View()))
    {
      FlushCache();
      disk := WriteBlocks(disk, root.bitmaskStart, bitmask);
    }
  }

  lemma HeldByFind(cached: seq<Entry>, b: nat)
    requires FindEntry(cached, b) < |cached|
    ensures Holds(cached[FindEntry(cached, b)], b)
  {
  }
}
