/**
  Two-level page maps (kernel/mem/pmap.c).  The kernel edits the tables through linear addresses at
  the top of memory: slot 0x3ff of the directory leads to a table whose entry i leads to table i,
  entry 0x3fe to itself and entry 0x3ff to the directory.  What a page map means is what the
  processor's own walk from the directory finds.
 */
module PageMap {
  import opened Bits

  const ENTRIES: nat := 1024
  const SELF: nat := 0x3fe                     // the entry by which the self table maps itself
  const DIRECTORY: nat := 0x3ff
  const TABLES_START: nat := 0xffc0_0000       // where the tables are mapped
  const REACH: nat := 0xff80_0000              // below this, no directory slot is one of the two special ones

  /** A physical frame, by its address. */
  datatype Frame = Frame(address: bv32)

  /** All physical frames, and which of them holds the directory. */
  datatype Memory = Memory(frames: map<Frame, seq<bv32>>, directory: Frame)

  datatype Status = Ok | Forbidden | InUse | NotInUse

  // ------------------------------------------------------------------ entries

  /** The bit by which the kernel knows an entry of its own; the processor ignores it. */
  predicate Used(e: bv32) { e & 0x200 != 0 }

  /** The bit the processor goes by. */
  predicate Live(e: bv32) { e & 1 != 0 }

  /** Kernel and processor take the entry alike. */
  predicate Marked(e: bv32) { Used(e) <==> Live(e) }

  predicate Big(e: bv32) { e & 0x80 != 0 }

  function FrameOf(e: bv32): Frame { Frame(e & 0xffff_f000) }

  predicate Aligned(f: Frame) { FrameOf(f.address) == f }

  /** An address with its flags, used, writable and present. */
  function Entry(address: bv32, flags: bv32): bv32 { address | (flags | 0x203) }

  predicate SmallFlags(flags: bv32) { flags & 0xffff_f000 == 0 && !Big(flags) }

  lemma TableEntry(frame: Frame, flags: bv32)
    requires Aligned(frame) && SmallFlags(flags)
    ensures Used(Entry(frame.address, flags)) && Live(Entry(frame.address, flags)) && !Big(Entry(frame.address, flags)) && FrameOf(Entry(frame.address, flags)) == frame
  {
  }

  /** An entry is never zero, so the test for an exhausted memory never succeeds. */
  lemma EntryIsUsed(address: bv32, flags: bv32)
    ensures Used(Entry(address, flags)) && Live(Entry(address, flags)) && Entry(address, flags) != 0
  {
  }

  lemma ZeroIsUnused()
    ensures !Used(0) && !Live(0)
  {
  }

  // ------------------------------------------------------------------ reading and writing through the self map

  function TableAt(m: Memory, f: Frame): seq<bv32> { if f in m.frames then m.frames[f] else [] }

  function At(s: seq<bv32>, i: nat): bv32 { if i < |s| then s[i] else 0 }

  function SelfFrame(m: Memory): Frame { FrameOf(At(TableAt(m, m.directory), DIRECTORY)) }

  /** The frame that the linear address of table i leads to. */
  function TableFrame(m: Memory, i: nat): Frame { FrameOf(At(TableAt(m, SelfFrame(m)), i)) }

  function Read(m: Memory, i: nat, k: nat): bv32 { At(TableAt(m, TableFrame(m, i)), k) }

  function Write(m: Memory, i: nat, k: nat, e: bv32): Memory {
    var f := TableFrame(m, i);
    if f in m.frames && k < |m.frames[f]| then m.(frames := m.frames[f := m.frames[f][k := e]]) else m
  }

  function Zeroes(): seq<bv32> { seq(ENTRIES, _ => 0) }

  // ------------------------------------------------------------------ addresses

  function Dir(a: nat): nat { a / 0x40_0000 }

  function Slot(a: nat): nat { a / 0x1000 % ENTRIES }

  function Page(a: nat): nat { a / 0x1000 }

  lemma PageIs(a: nat)
    ensures Page(a) == Dir(a) * ENTRIES + Slot(a) && Page(a) / ENTRIES == Dir(a) && Page(a) % ENTRIES == Slot(a)
    ensures a < REACH ==> Dir(a) < SELF && Page(a) < SELF * ENTRIES
    ensures a < TABLES_START ==> Dir(a) < DIRECTORY
    ensures Slot(a) < ENTRIES
  {
  }

  // ------------------------------------------------------------------ what the processor finds

  function DirEntry(m: Memory, d: nat): bv32 { At(TableAt(m, m.directory), d) }

  function Walk(m: Memory, d: nat, k: nat): bv32 {
    if Live(DirEntry(m, d)) then At(TableAt(m, FrameOf(DirEntry(m, d))), k) else 0
  }

  predicate Present(m: Memory, p: nat) { Live(Walk(m, p / ENTRIES, p % ENTRIES)) }

  /** The finite map from page to entry. */
  ghost function Mapped(m: Memory): map<nat, bv32> {
    map p: nat | p < SELF * ENTRIES && Present(m, p) :: Walk(m, p / ENTRIES, p % ENTRIES)
  }

  // ------------------------------------------------------------------ well-formed page maps

  predicate IsTable(m: Memory, f: Frame) { f in m.frames && |m.frames[f]| == ENTRIES }

  predicate SelfMapped(m: Memory) {
    && IsTable(m, m.directory) && IsTable(m, SelfFrame(m)) && SelfFrame(m) != m.directory
    && TableFrame(m, SELF) == SelfFrame(m) && TableFrame(m, DIRECTORY) == m.directory
    && Aligned(m.directory)
  }

  /** A used directory entry leads to a table of its own, and the self table leads there too. */
  predicate GoodDir(m: Memory, d: nat) {
    Used(DirEntry(m, d)) ==>
      && !Big(DirEntry(m, d)) && TableFrame(m, d) == FrameOf(DirEntry(m, d))
      && IsTable(m, TableFrame(m, d)) && TableFrame(m, d) != m.directory && TableFrame(m, d) != SelfFrame(m)
  }

  ghost predicate OwnTables(m: Memory) {
    forall d, e :: 0 <= d < e < SELF && Used(DirEntry(m, d)) && Used(DirEntry(m, e)) ==>
      FrameOf(DirEntry(m, d)) != FrameOf(DirEntry(m, e))
  }

  /** In the directory and in every table the two bits are set together. */
  ghost predicate BothBits(m: Memory) {
    && (forall d :: 0 <= d < SELF ==> Marked(DirEntry(m, d)))
    && (forall d, k :: 0 <= d < SELF && 0 <= k < ENTRIES ==> Marked(Walk(m, d, k)))
  }

  ghost predicate Valid(m: Memory) {
    && SelfMapped(m)
    && (forall d :: 0 <= d < SELF ==> GoodDir(m, d))
    && OwnTables(m)
    && BothBits(m)
    && !Used(DirEntry(m, SELF))
  }

  predicate Usable(m: Memory, f: Frame) {
    IsTable(m, f) && Aligned(f) && f != m.directory && f != SelfFrame(m)
  }

  /** A frame that the page map does not use. */
  ghost predicate Spare(m: Memory, f: Frame) {
    && Usable(m, f)
    && forall d :: 0 <= d < SELF && Used(DirEntry(m, d)) ==> FrameOf(DirEntry(m, d)) != f
  }

  // ------------------------------------------------------------------ the operations, as the code does them

  predicate OutOfBounds(a: nat) { a == 0 || a >= TABLES_START }

  /** The table is zeroed through its own linear address, once the self table leads to it. */
  function Cleared(m: Memory, d: nat): Memory {
    var f := TableFrame(m, d);
    if f in m.frames then m.(frames := m.frames[f := Zeroes()]) else m
  }

  function NewTable(m: Memory, d: nat, frame: Frame, flags: bv32): Memory {
    var e := Entry(frame.address, flags);
    Cleared(Write(Write(m, DIRECTORY, d, e), SELF, d, e), d)
  }

  function WithTable(m: Memory, d: nat, frame: Frame, flags: bv32): Memory {
    if Used(Read(m, DIRECTORY, d)) then m else NewTable(m, d, frame, flags)
  }

  function MapAddress(m: Memory, a: nat, address: bv32, flags: bv32, frame: Frame): (Memory, Status) {
    if OutOfBounds(a) then (m, Forbidden)
    else
      var n := WithTable(m, Dir(a), frame, flags);
      if Big(Read(n, DIRECTORY, Dir(a))) || Used(Read(n, Dir(a), Slot(a))) then (n, InUse)
      else (Write(n, Dir(a), Slot(a), Entry(address, flags)), Ok)
  }

  function UnmapAddress(m: Memory, a: nat): (Memory, Status) {
    if OutOfBounds(a) then (m, Forbidden)
    else if !Used(Read(m, DIRECTORY, Dir(a))) then (m, NotInUse)
    else if Big(Read(m, DIRECTORY, Dir(a))) then (Write(m, DIRECTORY, Dir(a), 0), Ok)
    else if !Used(Read(m, Dir(a), Slot(a))) then (m, NotInUse)
    else (Write(m, Dir(a), Slot(a), 0), Ok)
  }

  function PhysicalPage(m: Memory, a: nat): bv32 {
    if OutOfBounds(a) || !Used(Read(m, DIRECTORY, Dir(a))) then 0
    else if Big(Read(m, DIRECTORY, Dir(a))) then FrameOf(Read(m, DIRECTORY, Dir(a))).address
    else if Used(Read(m, Dir(a), Slot(a))) then FrameOf(Read(m, Dir(a), Slot(a))).address
    else 0
  }

  function IsMapped(m: Memory, a: nat): Status {
    if OutOfBounds(a) then Forbidden
    else if Used(Read(m, DIRECTORY, Dir(a))) && (Big(Read(m, DIRECTORY, Dir(a))) || Used(Read(m, Dir(a), Slot(a)))) then InUse
    else NotInUse
  }

  // ------------------------------------------------------------------ the self map shows what the processor sees

  lemma DirectoryRead(m: Memory, d: nat)
    requires SelfMapped(m)
    ensures Read(m, DIRECTORY, d) == DirEntry(m, d)
  {
    hide Used, Big, FrameOf;
  }

  lemma DirMarked(m: Memory, d: nat)
    requires Valid(m) && d < SELF
    ensures Used(DirEntry(m, d)) <==> Live(DirEntry(m, d))
  {
    hide Used, Live, DirEntry, Walk, GoodDir, OwnTables, SelfMapped;
    assert Marked(DirEntry(m, d));
  }

  lemma TableRead(m: Memory, d: nat, k: nat)
    requires Valid(m) && d < SELF && Used(DirEntry(m, d))
    ensures Read(m, d, k) == Walk(m, d, k) && !Big(DirEntry(m, d))
  {
    DirMarked(m, d);
    hide Used, Live, Big, FrameOf, OwnTables, SelfMapped, DirEntry, TableFrame;
    assert GoodDir(m, d);
  }

  lemma MappedAt(m: Memory, a: nat)
    requires Valid(m) && a < REACH
    ensures Page(a) in Mapped(m) <==> Used(Walk(m, Dir(a), Slot(a)))
    ensures Page(a) in Mapped(m) ==> Mapped(m)[Page(a)] == Walk(m, Dir(a), Slot(a))
  {
    PageIs(a);
    hide Walk, Used, Live, GoodDir, OwnTables, SelfMapped;
    assert Marked(Walk(m, Dir(a), Slot(a)));
  }

  /** The two queries agree with the map, at every address the directory reaches. */
  lemma QueriesAgree(m: Memory, a: nat)
    requires Valid(m) && 0 < a < REACH
    ensures IsMapped(m, a) == InUse <==> Walk(m, Dir(a), Slot(a)) & 1 != 0
    ensures IsMapped(m, a) == InUse <==> Walk(m, Dir(a), Slot(a)) & 0x200 != 0
    ensures IsMapped(m, a) == if Page(a) in Mapped(m) then InUse else NotInUse
    ensures PhysicalPage(m, a) == if Page(a) in Mapped(m) then FrameOf(Mapped(m)[Page(a)]).address else 0
  {
    PageIs(a);
    MappedAt(m, a);
    ZeroIsUnused();
    hide Used, Live, Big, FrameOf, OwnTables, SelfMapped, DirEntry, TableFrame, Mapped, GoodDir, Read;
    DirectoryRead(m, Dir(a));
    DirMarked(m, Dir(a));
    if Used(DirEntry(m, Dir(a))) { TableRead(m, Dir(a), Slot(a)); }
  }

  // ------------------------------------------------------------------ writing an entry of a table in use

  lemma TableWritten(m: Memory, d: nat, k: nat, e: bv32)
    requires Valid(m) && d < SELF && Used(DirEntry(m, d)) && k < ENTRIES
    ensures var f := FrameOf(DirEntry(m, d));
      && f in m.frames && |m.frames[f]| == ENTRIES && f != m.directory && f != SelfFrame(m)
      && Write(m, d, k, e) == m.(frames := m.frames[f := m.frames[f][k := e]])
  {
    hide OwnTables;
    assert GoodDir(m, d);
  }

  /** Changing a frame that is neither the directory nor the self table keeps both as they are. */
  lemma OtherFrame(m: Memory, f: Frame, s: seq<bv32>)
    requires f in m.frames && f != m.directory && f != SelfFrame(m) && |s| == |m.frames[f]|
    ensures var n := m.(frames := m.frames[f := s]);
      && SelfFrame(n) == SelfFrame(m) && (SelfMapped(m) ==> SelfMapped(n))
      && (forall d :: DirEntry(n, d) == DirEntry(m, d)) && (forall i :: TableFrame(n, i) == TableFrame(m, i))
      && (forall g :: IsTable(n, g) == IsTable(m, g))
  {
    hide FrameOf;
  }

  lemma OtherFrameKeeps(m: Memory, f: Frame, s: seq<bv32>)
    requires Valid(m) && f in m.frames && f != m.directory && f != SelfFrame(m) && |s| == |m.frames[f]|
    requires forall k :: 0 <= k < |s| ==> Marked(s[k])
    ensures Valid(m.(frames := m.frames[f := s]))
  {
    ZeroIsUnused();
    hide Used, Live, Big, FrameOf, DirEntry, TableFrame, SelfFrame, IsTable, SelfMapped;
    OtherFrame(m, f, s);
    var n := m.(frames := m.frames[f := s]);
    forall d, k | 0 <= d < SELF && 0 <= k < ENTRIES ensures Marked(Walk(n, d, k)) {
      assert Marked(Walk(m, d, k));
    }
    forall d | 0 <= d < SELF ensures GoodDir(n, d) {
      assert GoodDir(m, d);
    }
  }

  /** An entry written in one table changes the processor's walk at that page alone. */
  lemma WalkWritten(m: Memory, d: nat, k: nat, e: bv32, x: nat, y: nat)
    requires Valid(m) && d < SELF && Used(DirEntry(m, d)) && k < ENTRIES && x < SELF && y < ENTRIES
    ensures Walk(Write(m, d, k, e), x, y) == if x == d && y == k then e else Walk(m, x, y)
  {
    TableWritten(m, d, k, e);
    var f := FrameOf(DirEntry(m, d));
    OtherFrame(m, f, m.frames[f][k := e]);
    DirMarked(m, d);
    DirMarked(m, x);
    if Used(DirEntry(m, x)) && x != d { TablesApart(m, d, x); }
    hide Used, Live, Big, BothBits, FrameOf, DirEntry, TableFrame, SelfFrame, SelfMapped, Write, OwnTables, GoodDir;
  }

  lemma TablesApart(m: Memory, d: nat, x: nat)
    requires Valid(m) && d < SELF && x < SELF && Used(DirEntry(m, d)) && Used(DirEntry(m, x)) && x != d
    ensures FrameOf(DirEntry(m, d)) != FrameOf(DirEntry(m, x))
  {
    hide Used, FrameOf, DirEntry, SelfMapped, GoodDir, BothBits;
    assert d < x || x < d;
  }

  // ------------------------------------------------------------------ giving a directory slot a table

  /** The three writes that install a table end up in the directory, in the self table and in the new table. */
  ghost function Installed(m: Memory, d: nat, frame: Frame, e: bv32): Memory {
    if d < |TableAt(m, m.directory)| && d < |TableAt(m, SelfFrame(m))| then
      m.(frames := m.frames[m.directory := TableAt(m, m.directory)[d := e]]
                           [SelfFrame(m) := TableAt(m, SelfFrame(m))[d := e]]
                           [frame := Zeroes()])
    else m
  }

  lemma DirectoryWritten(m: Memory, d: nat, e: bv32)
    requires SelfMapped(m) && d < SELF
    ensures var n := Write(m, DIRECTORY, d, e);
      && n == m.(frames := m.frames[m.directory := m.frames[m.directory][d := e]])
      && SelfMapped(n) && SelfFrame(n) == SelfFrame(m) && TableAt(n, SelfFrame(n)) == TableAt(m, SelfFrame(m))
  {
    hide FrameOf;
  }

  lemma SelfWritten(m: Memory, d: nat, frame: Frame, e: bv32)
    requires SelfMapped(m) && d < SELF && FrameOf(e) == frame
    ensures var n := Write(m, SELF, d, e);
      && n == m.(frames := m.frames[SelfFrame(m) := m.frames[SelfFrame(m)][d := e]])
      && SelfMapped(n) && SelfFrame(n) == SelfFrame(m) && TableFrame(n, d) == frame
  {
    hide FrameOf;
  }

  lemma TableInstalled(m: Memory, d: nat, frame: Frame, flags: bv32)
    requires SelfMapped(m) && d < SELF && Usable(m, frame) && SmallFlags(flags)
    ensures NewTable(m, d, frame, flags) == Installed(m, d, frame, Entry(frame.address, flags))
  {
    var e := Entry(frame.address, flags);
    TableEntry(frame, flags);
    hide FrameOf, Entry, Used, Big, SelfMapped;
    DirectoryWritten(m, d, e);
    var n := Write(m, DIRECTORY, d, e);
    SelfWritten(n, d, frame, e);
    SelfMappedTables(m);
    hide Write, TableFrame, SelfFrame;
  }

  lemma SelfMappedTables(m: Memory)
    requires SelfMapped(m)
    ensures IsTable(m, m.directory) && IsTable(m, SelfFrame(m)) && SelfFrame(m) != m.directory
  {
  }

  lemma InstalledParts(m: Memory, d: nat, frame: Frame, e: bv32)
    requires SelfMapped(m) && d < SELF && IsTable(m, frame) && frame != m.directory && frame != SelfFrame(m)
    ensures var n := Installed(m, d, frame, e);
      && SelfMapped(n) && n.directory == m.directory && SelfFrame(n) == SelfFrame(m)
      && DirEntry(n, d) == e && TableFrame(n, d) == FrameOf(e) && TableAt(n, frame) == Zeroes()
      && (forall x :: x != d ==> DirEntry(n, x) == DirEntry(m, x) && TableFrame(n, x) == TableFrame(m, x))
      && (forall f :: IsTable(n, f) == IsTable(m, f))
      && (forall f :: f != m.directory && f != SelfFrame(m) && f != frame ==> TableAt(n, f) == TableAt(m, f))
  {
    hide FrameOf;
  }

  lemma InstalledKeeps(m: Memory, d: nat, frame: Frame, e: bv32)
    requires Valid(m) && d < SELF && Spare(m, frame) && Used(e) && Live(e) && !Big(e) && FrameOf(e) == frame && !Used(DirEntry(m, d))
    ensures Valid(Installed(m, d, frame, e))
  {
    hide FrameOf, Used, Live, Big, SelfMapped, Installed, DirEntry, TableFrame, SelfFrame, IsTable, TableAt, Walk, Marked;
    var n := Installed(m, d, frame, e);
    InstalledParts(m, d, frame, e);
    InstalledMarked(m, d, frame, e);
    forall x | 0 <= x < SELF ensures GoodDir(n, x) {
      assert GoodDir(m, x);
      if x != d && Used(DirEntry(m, x)) { assert FrameOf(DirEntry(m, x)) != frame; }
    }
    forall x, y | 0 <= x < y < SELF && Used(DirEntry(n, x)) && Used(DirEntry(n, y))
      ensures FrameOf(DirEntry(n, x)) != FrameOf(DirEntry(n, y))
    {
    }
  }

  lemma InstalledMarked(m: Memory, d: nat, frame: Frame, e: bv32)
    requires Valid(m) && d < SELF && Spare(m, frame) && Used(e) && Live(e) && FrameOf(e) == frame && !Used(DirEntry(m, d))
    ensures BothBits(Installed(m, d, frame, e))
  {
    hide FrameOf, Used, Live, SelfMapped, Installed, DirEntry, TableFrame, SelfFrame, IsTable, TableAt, Walk, GoodDir, OwnTables;
    var n := Installed(m, d, frame, e);
    InstalledParts(m, d, frame, e);
    forall x | 0 <= x < SELF ensures Marked(DirEntry(n, x)) {
      if x != d { assert Marked(DirEntry(m, x)); }
    }
    forall x, y | 0 <= x < SELF && 0 <= y < ENTRIES ensures Marked(Walk(n, x, y)) {
      InstalledWalk(m, d, frame, e, x, y);
      assert Marked(Walk(m, x, y));
    }
  }

  lemma InstalledWalk(m: Memory, d: nat, frame: Frame, e: bv32, x: nat, y: nat)
    requires Valid(m) && d < SELF && Spare(m, frame) && Live(e) && FrameOf(e) == frame && !Used(DirEntry(m, d)) && x < SELF
    ensures Walk(Installed(m, d, frame, e), x, y) == Walk(m, x, y)
  {
    ZeroIsUnused();
    DirMarked(m, d);
    DirMarked(m, x);
    hide FrameOf, Used, Live, SelfMapped, Installed, DirEntry, TableFrame, SelfFrame, IsTable, TableAt, OwnTables, Big, BothBits;
    InstalledParts(m, d, frame, e);
    if x != d && Used(DirEntry(m, x)) { assert GoodDir(m, x); }
  }

  /** Giving a slot a table keeps the page map well formed and changes nothing the processor sees. */
  lemma TableIsInvisible(m: Memory, d: nat, frame: Frame, flags: bv32)
    requires Valid(m) && d < SELF && SmallFlags(flags) && (Used(DirEntry(m, d)) || Spare(m, frame))
    ensures var n := WithTable(m, d, frame, flags);
      && Valid(n) && Mapped(n) == Mapped(m) && Used(DirEntry(n, d))
      && forall x: nat, y: nat :: x < SELF ==> Walk(n, x, y) == Walk(m, x, y)
  {
    DirectoryRead(m, d);
    if !Used(DirEntry(m, d)) {
      var e := Entry(frame.address, flags);
      TableInstalled(m, d, frame, flags);
      TableEntry(frame, flags);
      hide FrameOf, Used, Live, Big, SelfMapped, Installed, DirEntry, Entry, Walk, NewTable, Read, GoodDir, OwnTables, BothBits;
      InstalledKeeps(m, d, frame, e);
      InstalledParts(m, d, frame, e);
      var n := WithTable(m, d, frame, flags);
      forall x: nat, y: nat | x < SELF ensures Walk(n, x, y) == Walk(m, x, y) {
        InstalledWalk(m, d, frame, e, x, y);
      }
    }
  }

  // ------------------------------------------------------------------ mapping and unmapping refine the finite map

  lemma TableMarked(m: Memory, d: nat)
    requires Valid(m) && d < SELF && Used(DirEntry(m, d))
    ensures var f := FrameOf(DirEntry(m, d));
      f in m.frames && |m.frames[f]| == ENTRIES && forall k :: 0 <= k < ENTRIES ==> Marked(m.frames[f][k])
  {
    DirMarked(m, d);
    hide Used, Live, FrameOf, OwnTables, SelfMapped, DirEntry, TableFrame, Marked;
    assert GoodDir(m, d);
    var f := FrameOf(DirEntry(m, d));
    forall k | 0 <= k < ENTRIES ensures Marked(m.frames[f][k]) { assert Marked(Walk(m, d, k)); }
  }

  lemma EntryWrittenMap(m: Memory, a: nat, e: bv32)
    requires Valid(m) && a < REACH && Used(DirEntry(m, Dir(a))) && Marked(e)
    ensures var n := Write(m, Dir(a), Slot(a), e);
      Valid(n) && Mapped(n) == if Live(e) then Mapped(m)[Page(a) := e] else Mapped(m) - {Page(a)}
  {
    PageIs(a);
    var n := Write(m, Dir(a), Slot(a), e);
    TableWritten(m, Dir(a), Slot(a), e);
    var f := FrameOf(DirEntry(m, Dir(a)));
    TableMarked(m, Dir(a));
    OtherFrameKeeps(m, f, m.frames[f][Slot(a) := e]);
    hide Valid, Walk, Used, Live, Marked, Write, Dir, Slot, Page, DirEntry, FrameOf, Present;
    forall p: nat | p < SELF * ENTRIES
      ensures Present(n, p) <==> if p == Page(a) then Live(e) else Present(m, p)
      ensures Walk(n, p / ENTRIES, p % ENTRIES) == if p == Page(a) then e else Walk(m, p / ENTRIES, p % ENTRIES)
    {
      PageWritten(m, a, e, p);
    }
    MapsDiffer(m, n, Page(a), e);
  }

  lemma PageWritten(m: Memory, a: nat, e: bv32, p: nat)
    requires Valid(m) && a < REACH && Used(DirEntry(m, Dir(a))) && p < SELF * ENTRIES
    ensures var n := Write(m, Dir(a), Slot(a), e);
      && (Present(n, p) <==> if p == Page(a) then Live(e) else Present(m, p))
      && Walk(n, p / ENTRIES, p % ENTRIES) == if p == Page(a) then e else Walk(m, p / ENTRIES, p % ENTRIES)
  {
    PageIs(a);
    hide Valid, Walk, Used, Live, Write, Dir, Slot, Page, DirEntry, FrameOf;
    WalkWritten(m, Dir(a), Slot(a), e, p / ENTRIES, p % ENTRIES);
  }

  lemma MapsDiffer(m: Memory, n: Memory, page: nat, e: bv32)
    requires page < SELF * ENTRIES
    requires forall p: nat :: p < SELF * ENTRIES ==> (Present(n, p) <==> if p == page then Live(e) else Present(m, p))
    requires forall p: nat :: p < SELF * ENTRIES ==>
      Walk(n, p / ENTRIES, p % ENTRIES) == if p == page then e else Walk(m, p / ENTRIES, p % ENTRIES)
    ensures Mapped(n) == if Live(e) then Mapped(m)[page := e] else Mapped(m) - {page}
  {
    hide Walk, Live, Present;
  }

  /** Mapping succeeds exactly on pages that are not mapped, and adds that page and nothing else. */
  lemma MapRefines(m: Memory, a: nat, address: bv32, flags: bv32, frame: Frame)
    requires Valid(m) && 0 < a < REACH && SmallFlags(flags) && (Used(DirEntry(m, Dir(a))) || Spare(m, frame))
    ensures var (n, s) := MapAddress(m, a, address, flags, frame);
      && Valid(n) && s == (if Page(a) in Mapped(m) then InUse else Ok)
      && Mapped(n) == if Page(a) in Mapped(m) then Mapped(m) else Mapped(m)[Page(a) := Entry(address, flags)]
  {
    PageIs(a);
    TableIsInvisible(m, Dir(a), frame, flags);
    var n := WithTable(m, Dir(a), frame, flags);
    MappedAt(n, a);
    DirectoryRead(n, Dir(a));
    TableRead(n, Dir(a), Slot(a));
    EntryIsUsed(address, flags);
    EntryWrittenMap(n, a, Entry(address, flags));
    hide Valid, Used, Live, Big, Entry, Walk, Mapped, Read, Write, WithTable, Dir, Slot, Page;
  }

  /** Unmapping succeeds exactly on mapped pages, and takes away that page and nothing else. */
  lemma UnmapRefines(m: Memory, a: nat)
    requires Valid(m) && 0 < a < REACH
    ensures var (n, s) := UnmapAddress(m, a);
      && Valid(n) && s == (if Page(a) in Mapped(m) then Ok else NotInUse)
      && Mapped(n) == Mapped(m) - {Page(a)}
  {
    PageIs(a);
    MappedAt(m, a);
    ZeroIsUnused();
    DirectoryRead(m, Dir(a));
    if Used(DirEntry(m, Dir(a))) {
      TableRead(m, Dir(a), Slot(a));
      EntryWrittenMap(m, a, 0);
    }
    hide Valid, Used, Live, Big, Mapped, Read, Write, Dir, Slot, Page;
  }

  /** Null and the addresses of the tables themselves, and no others, are refused, and that changes nothing. */
  lemma ForbiddenChangesNothing(m: Memory, a: nat, address: bv32, flags: bv32, frame: Frame)
    ensures a == 0 || a >= 0xffc0_0000 ==>
      && MapAddress(m, a, address, flags, frame) == (m, Forbidden) && UnmapAddress(m, a) == (m, Forbidden)
      && PhysicalPage(m, a) == 0 && IsMapped(m, a) == Forbidden
    ensures 0 < a < 0xffc0_0000 ==>
      && MapAddress(m, a, address, flags, frame).1 != Forbidden && UnmapAddress(m, a).1 != Forbidden && IsMapped(m, a) != Forbidden
  {
    hide Read, Write, WithTable, Used, Big;
  }

  /** A slot that maps 4 MB at once: it is found mapped and no small page goes in, and unmapping clears that slot alone. */
  lemma BigPageIsWhole(m: Memory, a: nat, address: bv32, flags: bv32, frame: Frame, d: nat)
    requires SelfMapped(m) && 0 < a < REACH && DirEntry(m, Dir(a)) & 0x200 != 0 && DirEntry(m, Dir(a)) & 0x80 != 0
    ensures IsMapped(m, a) == InUse && PhysicalPage(m, a) == DirEntry(m, Dir(a)) & 0xffff_f000
    ensures MapAddress(m, a, address, flags, frame) == (m, InUse)
    ensures var (n, s) := UnmapAddress(m, a);
      s == Ok && SelfMapped(n) && DirEntry(n, d) == if d == Dir(a) then 0 else DirEntry(m, d)
  {
    PageIs(a);
    DirectoryRead(m, Dir(a));
    DirectoryWritten(m, Dir(a), 0);
    SelfMappedTables(m);
    hide Used, Big, SelfMapped, SelfFrame, Dir, Slot, Read, Write;
  }

  // ------------------------------------------------------------------ what a caller sees of it, in addresses and bits

  /** An entry carries the flags asked for and present, read/write and used, whatever the address. */
  lemma EntryCarries(address: bv32, flags: bv32)
    ensures Entry(address, flags) & flags == flags && Entry(address, flags) & 0x203 == 0x203
  {
  }

  /** With the address of a page, it carries no others, and the address. */
  lemma EntryIs(address: bv32, flags: bv32)
    requires WholePages(address as int) && SmallFlags(flags)
    ensures Entry(address, flags) & 0xfff == flags | 0x203 && FrameOf(Entry(address, flags)).address == address
  {
    PageBits(address);
    FlagBits(address, flags, 0x203);
    hide WholePages;
  }

  /** After a mapping every address of the page, and no other, translates to the entry's frame.  b is any address. */
  lemma MappingShows(m: Memory, a: nat, address: bv32, flags: bv32, frame: Frame, b: nat)
    requires Valid(m) && 0 < a < REACH && SmallFlags(flags) && (Used(DirEntry(m, Dir(a))) || Spare(m, frame))
    requires 0 < b < REACH
    ensures var (n, s) := MapAddress(m, a, address, flags, frame);
      && s == (if IsMapped(m, a) == InUse then InUse else Ok)
      && PhysicalPage(n, b) == (if s == Ok && b / 4096 == a / 4096 then FrameOf(Entry(address, flags)).address else PhysicalPage(m, b))
      && IsMapped(n, b) == (if b / 4096 == a / 4096 then InUse else IsMapped(m, b))
      && (s == Ok ==> Walk(n, Dir(a), Slot(a)) == Entry(address, flags))
  {
    hide Valid, Mapped, MapAddress, IsMapped, PhysicalPage, FrameOf, Entry, SmallFlags, Walk, Used, Dir, Slot, Spare, DirEntry;
    var n := MapAddress(m, a, address, flags, frame).0;
    MapRefines(m, a, address, flags, frame);
    QueriesAgree(m, a);
    QueriesAgree(m, b);
    QueriesAgree(n, b);
    MappedAt(n, a);
  }

  /** So it translates to the physical address it was given, and the processor finds there all the flags and no others. */
  lemma MappingTranslates(m: Memory, a: nat, address: bv32, flags: bv32, frame: Frame, b: nat)
    requires Valid(m) && 0 < a < 0xff80_0000 && flags & 0xffff_f080 == 0 && (Used(DirEntry(m, Dir(a))) || Spare(m, frame))
    requires address as int % 4096 == 0 && 0 < b < 0xff80_0000
    ensures var (n, s) := MapAddress(m, a, address, flags, frame);
      && s == (if IsMapped(m, a) == InUse then InUse else Ok)
      && PhysicalPage(n, b) == (if s == Ok && b / 4096 == a / 4096 then address else PhysicalPage(m, b))
      && IsMapped(n, b) == (if b / 4096 == a / 4096 then InUse else IsMapped(m, b))
      && (s == Ok ==> Walk(n, Dir(a), Slot(a)) & 0xfff == flags | 0x203)
  {
    assert WholePages(address as int) && SmallFlags(flags);
    hide Valid, MapAddress, IsMapped, PhysicalPage, FrameOf, Entry, SmallFlags, Walk, Used, Dir, Slot, Spare, WholePages, DirEntry;
    EntryIs(address, flags);
    MappingShows(m, a, address, flags, frame, b);
  }

  /** After an unmapping no address of the page translates, and every other as before. */
  lemma UnmappingTranslates(m: Memory, a: nat, b: nat)
    requires Valid(m) && 0 < a < REACH && 0 < b < REACH
    ensures var (n, s) := UnmapAddress(m, a);
      && s == (if IsMapped(m, a) == InUse then Ok else NotInUse)
      && PhysicalPage(n, b) == (if b / 4096 == a / 4096 then 0 else PhysicalPage(m, b))
      && IsMapped(n, b) == (if b / 4096 == a / 4096 then NotInUse else IsMapped(m, b))
  {
    hide Valid, Mapped, UnmapAddress, IsMapped, PhysicalPage, FrameOf;
    UnmapRefines(m, a);
    QueriesAgree(m, a);
    QueriesAgree(m, b);
    QueriesAgree(UnmapAddress(m, a).0, b);
  }

  // ------------------------------------------------------------------ whole runs

  datatype Op = Map(a: nat, address: bv32, flags: bv32, frame: Frame) | Unmap(a: nat)

  function Do(m: Memory, op: Op): Memory {
    match op
    case Map(a, address, flags, frame) => MapAddress(m, a, address, flags, frame).0
    case Unmap(a) => UnmapAddress(m, a).0
  }

  /** What an operation does to the finite map. */
  ghost function Meant(f: map<nat, bv32>, op: Op): map<nat, bv32> {
    match op
    case Map(a, address, flags, _) => if OutOfBounds(a) || Page(a) in f then f else f[Page(a) := Entry(address, flags)]
    case Unmap(a) => if OutOfBounds(a) then f else f - {Page(a)}
  }

  function Run(m: Memory, ops: seq<Op>): Memory {
    if ops == [] then m else Do(Run(m, ops[..|ops| - 1]), ops[|ops| - 1])
  }

  ghost function MeantRun(f: map<nat, bv32>, ops: seq<Op>): map<nat, bv32> {
    if ops == [] then f else Meant(MeantRun(f, ops[..|ops| - 1]), ops[|ops| - 1])
  }

  /**
    Addresses are outside the 4 MB that the code should refuse and does not, and the physical
    allocator supplies a spare frame whenever one is asked for.
   */
  ghost predicate Supplied(m: Memory, ops: seq<Op>) {
    ops == [] ||
    (Supplied(m, ops[..|ops| - 1]) &&
     var op := ops[|ops| - 1]; var b := Run(m, ops[..|ops| - 1]);
     OutOfBounds(op.a) ||
     (op.a < REACH && (op.Map? ==> SmallFlags(op.flags) && (Used(DirEntry(b, Dir(op.a))) || Spare(b, op.frame)))))
  }

  lemma StepRefines(m: Memory, op: Op)
    requires Valid(m) && (OutOfBounds(op.a) || op.a < REACH)
    requires op.Map? && !OutOfBounds(op.a) ==> SmallFlags(op.flags) && (Used(DirEntry(m, Dir(op.a))) || Spare(m, op.frame))
    ensures Valid(Do(m, op)) && Mapped(Do(m, op)) == Meant(Mapped(m), op)
  {
    hide Valid, Mapped, MapAddress, UnmapAddress, Page, Entry;
    match op
    case Map(a, address, flags, frame) =>
      if OutOfBounds(a) { ForbiddenChangesNothing(m, a, address, flags, frame); } else { MapRefines(m, a, address, flags, frame); }
    case Unmap(a) =>
      if OutOfBounds(a) { ForbiddenChangesNothing(m, a, 0, 0, m.directory); } else { UnmapRefines(m, a); }
  }

  /** After any run the tables mean exactly the finite map built by the same operations. */
  lemma {:induction false} RunRefines(m: Memory, ops: seq<Op>)
    requires Valid(m) && Supplied(m, ops)
    ensures Valid(Run(m, ops)) && Mapped(Run(m, ops)) == MeantRun(Mapped(m), ops)
    decreases |ops|
  {
    hide Valid, Mapped, Do, Meant, Used, Spare, DirEntry, SmallFlags;
    if ops != [] {
      RunRefines(m, ops[..|ops| - 1]);
      StepRefines(Run(m, ops[..|ops| - 1]), ops[|ops| - 1]);
    }
  }

  // ------------------------------------------------------------------ where the code falls short

  /** Writing the directory entry of the self table leaves the self table where it was. */
  lemma HoleDirectory(m: Memory, e: bv32)
    requires SelfMapped(m)
    ensures var n := Write(m, DIRECTORY, SELF, e);
      SelfMapped(n) && SelfFrame(n) == SelfFrame(m) && n.directory == m.directory && forall f :: IsTable(n, f) == IsTable(m, f)
  {
    hide FrameOf;
  }

  /** The next write makes the self table lead away from itself. */
  lemma HoleSelf(m: Memory, e: bv32)
    requires SelfMapped(m)
    ensures var n := Write(m, SELF, SELF, e);
      && SelfFrame(n) == SelfFrame(m) && TableFrame(n, SELF) == FrameOf(e) && TableFrame(n, DIRECTORY) == m.directory
      && n.directory == m.directory && forall f :: IsTable(n, f) == IsTable(m, f)
  {
    hide FrameOf;
  }

  /** A frame other than the self table's and the directory's can be rewritten without bringing the self map back. */
  lemma StillBroken(m: Memory, frame: Frame, s: seq<bv32>)
    requires SelfFrame(m) != frame && m.directory != frame && TableFrame(m, SELF) == frame && frame in m.frames
    ensures var n := m.(frames := m.frames[frame := s]);
      SelfFrame(n) == SelfFrame(m) && TableFrame(n, SELF) == frame && !SelfMapped(n) && TableFrame(n, DIRECTORY) == TableFrame(m, DIRECTORY)
  {
    hide FrameOf;
  }

  lemma MapBreaksSelfMap(m: Memory, a: nat, address: bv32, flags: bv32, frame: Frame)
    requires Valid(m) && REACH <= a < TABLES_START && SmallFlags(flags) && Usable(m, frame)
    ensures !SelfMapped(MapAddress(m, a, address, flags, frame).0)
  {
    var e := Entry(frame.address, flags);
    TableEntry(frame, flags);
    DirectoryRead(m, SELF);
    assert Dir(a) == SELF && Slot(a) < ENTRIES;
    hide FrameOf, Used, Big, Entry, Dir, Slot, OwnTables, GoodDir, DirEntry, SmallFlags;
    HoleDirectory(m, e);
    var m1 := Write(m, DIRECTORY, SELF, e);
    HoleSelf(m1, e);
    var m2 := Write(m1, SELF, SELF, e);
    hide Write;
    assert IsTable(m2, frame);
    StillBroken(m2, frame, Zeroes());
    var m3 := Cleared(m2, SELF);
    WrittenAgain(m3, frame, Slot(a), Entry(address, flags));
    hide SelfMapped, TableFrame, SelfFrame;
  }

  lemma WrittenAgain(m: Memory, frame: Frame, k: nat, e: bv32)
    requires SelfFrame(m) != frame && m.directory != frame && TableFrame(m, SELF) == frame && frame in m.frames
    ensures !SelfMapped(m) && !SelfMapped(Write(m, SELF, k, e))
  {
    hide FrameOf;
    if k < |m.frames[frame]| { StillBroken(m, frame, m.frames[frame][k := e]); }
  }

  /**
    A mapping keeps the tables reachable exactly when it is below the last directory slot before the
    self map; the code lets the 4 MB above that through.
   */
  lemma MapKeepsSelfMapIff(m: Memory, a: nat, address: bv32, flags: bv32, frame: Frame)
    requires Valid(m) && 0 < a < 0xffc0_0000 && SmallFlags(flags) && Spare(m, frame)
    ensures SelfMapped(MapAddress(m, a, address, flags, frame).0) <==> a < 0xff80_0000
  {
    hide MapAddress, SmallFlags, Mapped, Entry, Page;
    if a < REACH {
      MapRefines(m, a, address, flags, frame);
    } else {
      MapBreaksSelfMap(m, a, address, flags, frame);
    }
  }

  /**
    When physical memory is exhausted the allocator's null page is taken for a table, unnoticed.  The
    second time, two slots share it: mapping an address then wipes what the other slot had and maps
    the same page there.
   */
  lemma SharedTableAliases(m: Memory, a: nat, address: bv32, flags: bv32, d: nat, k: nat)
    requires Valid(m) && 0 < a < REACH && SmallFlags(flags) && d < SELF && d != Dir(a) && k < ENTRIES
    requires Used(DirEntry(m, d)) && !Used(DirEntry(m, Dir(a))) && Usable(m, FrameOf(DirEntry(m, d)))
    ensures var (n, s) := MapAddress(m, a, address, flags, FrameOf(DirEntry(m, d)));
      s == Ok && Walk(n, d, k) == if k == Slot(a) then Entry(address, flags) else 0
  {
    var frame := FrameOf(DirEntry(m, d));
    var e := Entry(frame.address, flags);
    PageIs(a);
    ZeroIsUnused();
    TableEntry(frame, flags);
    DirectoryRead(m, Dir(a));
    TableInstalled(m, Dir(a), frame, flags);
    InstalledParts(m, Dir(a), frame, e);
    var n := NewTable(m, Dir(a), frame, flags);
    DirectoryRead(n, Dir(a));
    DirMarked(m, d);
    AfterShared(n, Dir(a), Slot(a), d, frame, Entry(address, flags));
    hide Used, Live, Big, Entry, Dir, Slot, FrameOf, SelfMapped, Write, Read, NewTable, Walk, DirEntry, TableFrame, SelfFrame, Installed, OwnTables, GoodDir, BothBits;
  }

  lemma AfterShared(n: Memory, x: nat, y: nat, d: nat, frame: Frame, e: bv32)
    requires SelfMapped(n) && TableFrame(n, x) == frame && IsTable(n, frame) && TableAt(n, frame) == Zeroes() && y < ENTRIES
    requires frame != n.directory && frame != SelfFrame(n) && Live(DirEntry(n, d)) && FrameOf(DirEntry(n, d)) == frame
    ensures Read(n, x, y) == 0
    ensures forall k: nat :: k < ENTRIES ==> Walk(Write(n, x, y, e), d, k) == if k == y then e else 0
  {
    OtherFrame(n, frame, n.frames[frame][y := e]);
    hide FrameOf, Live, SelfMapped, TableFrame, SelfFrame, DirEntry;
  }

  /**
    Both together: with a frame that can hold a table at all, mapping does what it should exactly when no
    table is needed or no other slot has that frame for one.
   */
  lemma MapRefinesIff(m: Memory, a: nat, address: bv32, flags: bv32, frame: Frame)
    requires Valid(m) && 0 < a < REACH && SmallFlags(flags) && Usable(m, frame)
    ensures var (n, s) := MapAddress(m, a, address, flags, frame);
      (&& Valid(n) && s == (if Page(a) in Mapped(m) then InUse else Ok)
       && Mapped(n) == if Page(a) in Mapped(m) then Mapped(m) else Mapped(m)[Page(a) := Entry(address, flags)])
      <==> Used(DirEntry(m, Dir(a))) || Spare(m, frame)
  {
    hide MapAddress, SmallFlags, Mapped, Entry, Page, Valid, Spare;
    if Used(DirEntry(m, Dir(a))) || Spare(m, frame) {
      MapRefines(m, a, address, flags, frame);
    } else {
      SharedIsInvalid(m, a, address, flags, frame);
    }
  }

  lemma SharedIsInvalid(m: Memory, a: nat, address: bv32, flags: bv32, frame: Frame)
    requires Valid(m) && 0 < a < REACH && SmallFlags(flags) && Usable(m, frame)
    requires !Used(DirEntry(m, Dir(a))) && !Spare(m, frame)
    ensures !Valid(MapAddress(m, a, address, flags, frame).0)
  {
    var d :| 0 <= d < SELF && Used(DirEntry(m, d)) && FrameOf(DirEntry(m, d)) == frame;
    PageIs(a);
    DirectoryRead(m, Dir(a));
    ValidIsSelfMapped(m);
    hide Used, Big, Entry, Dir, Slot, FrameOf, SelfMapped, NewTable, Valid, DirEntry, Usable, Spare;
    NewTableParts(m, Dir(a), frame, flags);
    var n := NewTable(m, Dir(a), frame, flags);
    TwoForOne(n, d, Dir(a));
    hide Write, Read, TableFrame, SelfFrame;
    DirectoryKept(n, Dir(a), Slot(a), Entry(address, flags), frame);
    TwoForOne(Write(n, Dir(a), Slot(a), Entry(address, flags)), d, Dir(a));
  }

  lemma DirectoryKept(m: Memory, x: nat, k: nat, e: bv32, frame: Frame)
    requires TableFrame(m, x) == frame && frame in m.frames && frame != m.directory && frame != SelfFrame(m)
    ensures forall y :: DirEntry(Write(m, x, k, e), y) == DirEntry(m, y)
  {
    hide FrameOf;
    if k < |m.frames[frame]| { OtherFrame(m, frame, m.frames[frame][k := e]); }
  }

  lemma NewTableParts(m: Memory, x: nat, frame: Frame, flags: bv32)
    requires SelfMapped(m) && x < SELF && Usable(m, frame) && SmallFlags(flags)
    ensures var n := NewTable(m, x, frame, flags);
      && Used(DirEntry(n, x)) && FrameOf(DirEntry(n, x)) == frame && TableFrame(n, x) == frame
      && frame in n.frames && frame != n.directory && frame != SelfFrame(n)
      && forall y :: y != x ==> DirEntry(n, y) == DirEntry(m, y)
  {
    TableEntry(frame, flags);
    TableInstalled(m, x, frame, flags);
    InstalledParts(m, x, frame, Entry(frame.address, flags));
    hide Used, Big, Entry, FrameOf, SelfMapped, NewTable, Installed, DirEntry, TableFrame, SelfFrame;
  }

  lemma TwoForOne(m: Memory, d: nat, x: nat)
    requires d < SELF && x < SELF && d != x && Used(DirEntry(m, d)) && Used(DirEntry(m, x))
    requires FrameOf(DirEntry(m, d)) == FrameOf(DirEntry(m, x))
    ensures !Valid(m)
  {
    hide Used, FrameOf, DirEntry, SelfMapped, GoodDir, BothBits;
    assert d < x || x < d;
  }

  // ------------------------------------------------------------------ the code on the tables in place

  class ActivePageMap {
    var frames: map<Frame, seq<bv32>>
    const directory: Frame

    ghost function View(): Memory
      reads this
    {
      Memory(frames, directory)
    }

    constructor (frames: map<Frame, seq<bv32>>, directory: Frame)
      ensures this.frames == frames && this.directory == directory
    {
      this.frames := frames;
      this.directory := directory;
    }

    method Set(i: nat, k: nat, e: bv32)
      modifies this
      ensures View() == Write(old(View()), i, k, e)
    {
      var f := TableFrame(Memory(frames, directory), i);
      if f in frames && k < |frames[f]| {
        frames := frames[f := frames[f][k := e]];
      }
    }

    /** The loop that zeroes a new table through its linear address. */
    method ClearTable(d: nat, ghost frame: Frame)
      requires TableFrame(View(), d) == frame && IsTable(View(), frame)
      requires frame != directory && frame != SelfFrame(View())
      modifies this
      ensures View() == Cleared(old(View()), d)
    {
      ghost var m := View();
      hide FrameOf;
      var k := 0;
      while k < ENTRIES
        invariant k <= ENTRIES && IsTable(View(), frame)
        invariant frames == m.frames[frame := frames[frame]] && TableFrame(View(), d) == frame
        invariant forall j :: 0 <= j < k ==> frames[frame][j] == 0
      {
        ghost var s := frames[frame][k := 0];
        OtherFrame(m, frame, s);
        Set(d, k, 0);
        assert View() == m.(frames := m.frames[frame := s]);
        k := k + 1;
      }
      assert frames[frame] == Zeroes();
    }

    /** Maps a page; frame is what the physical allocator hands out if a table is needed. */
    method MapLinearAddress(a: nat, address: bv32, flags: bv32, frame: Frame) returns (s: Status)
      requires Valid(View()) && SmallFlags(flags)
      requires !OutOfBounds(a) ==> Used(DirEntry(View(), Dir(a))) || Usable(View(), frame)
      modifies this
      ensures (View(), s) == MapAddress(old(View()), a, address, flags, frame)
    {
      if a == 0 || a >= TABLES_START { return Forbidden; }
      PageIs(a);
      var d, k := Dir(a), Slot(a);
      DirectoryRead(View(), d);
      hide FrameOf, Used, Big, Entry, SmallFlags, Valid, Mapped, Cleared, TableFrame, SelfFrame, SelfMapped, DirEntry, Dir, Slot;
      if !Used(Read(Memory(frames, directory), DIRECTORY, d)) {
        InstallTable(d, frame, flags);
      }
      if Big(Read(Memory(frames, directory), DIRECTORY, d)) { return InUse; }
      if Used(Read(Memory(frames, directory), d, k)) { return InUse; }
      Set(d, k, Entry(address, flags));
      s := Ok;
    }

    method InstallTable(d: nat, frame: Frame, flags: bv32)
      requires Valid(View()) && SmallFlags(flags) && d < DIRECTORY && Usable(View(), frame)
      modifies this
      ensures View() == NewTable(old(View()), d, frame, flags)
    {
      var e := Entry(frame.address, flags);
      TableEntry(frame, flags);
      ValidIsSelfMapped(View());
      hide FrameOf, Used, Big, Entry, Cleared, Valid, SmallFlags, SelfMapped, SelfFrame, TableFrame;
      EntriesWritten(View(), d, frame, e);
      Set(DIRECTORY, d, e);
      Set(SELF, d, e);
      ClearTable(d, frame);
    }

    /** Unmaps a page. */
    method UnmapLinearAddress(a: nat) returns (s: Status)
      modifies this
      ensures (View(), s) == UnmapAddress(old(View()), a)
    {
      if a == 0 || a >= TABLES_START { return Forbidden; }
      var d, k := Dir(a), Slot(a);
      if !Used(Read(Memory(frames, directory), DIRECTORY, d)) { return NotInUse; }
      if !Big(Read(Memory(frames, directory), DIRECTORY, d)) {
        if !Used(Read(Memory(frames, directory), d, k)) { return NotInUse; }
        Set(d, k, 0);
      } else {
        Set(DIRECTORY, d, 0);
      }
      s := Ok;
    }
  }

  /** After both entries are written the table's own address leads to the new frame, even in the last slot. */
  lemma EntriesWritten(m: Memory, d: nat, frame: Frame, e: bv32)
    requires SelfMapped(m) && d < DIRECTORY && Usable(m, frame) && FrameOf(e) == frame
    ensures var n := Write(Write(m, DIRECTORY, d, e), SELF, d, e);
      TableFrame(n, d) == frame && IsTable(n, frame) && frame != n.directory && frame != SelfFrame(n)
  {
    hide FrameOf;
    if d == SELF {
      HoleDirectory(m, e);
      HoleSelf(Write(m, DIRECTORY, SELF, e), e);
    } else {
      DirectoryWritten(m, d, e);
      SelfWritten(Write(m, DIRECTORY, d, e), d, frame, e);
    }
  }

  lemma ValidIsSelfMapped(m: Memory)
    requires Valid(m)
    ensures SelfMapped(m)
  {
  }

  /** The tables as they are built at boot: empty but for the three entries of the self map. */
  lemma BootIsValid(frames: map<Frame, seq<bv32>>, directory: Frame, table: Frame, flags: bv32)
    requires SmallFlags(flags) && Aligned(directory) && Aligned(table) && directory != table && directory in frames && table in frames
    requires frames[directory] == Zeroes()[DIRECTORY := Entry(table.address, flags)]
    requires frames[table] == Zeroes()[DIRECTORY := Entry(directory.address, flags)][SELF := Entry(table.address, flags)]
    ensures Valid(Memory(frames, directory)) && Mapped(Memory(frames, directory)) == map[]
  {
    var m := Memory(frames, directory);
    TableEntry(table, flags);
    TableEntry(directory, flags);
    ZeroIsUnused();
    hide FrameOf, Used, Big, Entry;
    assert SelfFrame(m) == table;
    forall d: nat | d <= SELF ensures !Used(DirEntry(m, d)) {
    }
  }
}
