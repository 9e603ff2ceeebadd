/**
  Byte streams (kernel/io.c): a chain of buffers, one cursor for writing and one for reading.  A
  stream is never told to drop the buffers it has read, since that flag is masked off when it is made.
 */
module ByteStream {
  import opened Arithmetic

  type Byte = bv8

  /** A page less the two links. */
  const BUFFER: nat := 4088

  const WORD32: nat := 0x1_0000_0000

  /** readAt and writeAt say which buffers of the chain the two buffer pointers are at. */
  datatype Stream = Stream(chain: seq<seq<Byte>>, readAt: nat, writeAt: nat, readOffset: nat, writeOffset: nat, available: nat)

  function Blank(): seq<Byte> { seq(BUFFER, _ => 0) }

  function Copied(b: seq<Byte>, at: nat, d: seq<Byte>): seq<Byte> {
    if at + |d| <= |b| then b[..at] + d + b[at + |d|..] else b
  }

  /** Offsets and counts are 32-bit words. */
  function Wrapped(n: nat): nat { n % WORD32 }

  function Min(a: nat, b: nat): nat { if a < b then a else b }

  /** How much a round of either loop copies. */
  function Chunk(offset: nat, size: nat): (n: nat)
    ensures size > 0 ==> 0 < n <= size
    ensures offset % BUFFER + n <= BUFFER
  {
    Min(BUFFER - offset % BUFFER, size)
  }

  // ------------------------------------------------------------------ writing and reading, a chunk at a time

  /** A round of the writing loop; filling a buffer moves on to the next, which is made if it is missing. */
  function WriteChunk(s: Stream, d: seq<Byte>): Stream {
    if s.writeAt >= |s.chain| then s
    else
      var at := s.writeOffset % BUFFER;
      var full := at + |d| == BUFFER;
      var chain := s.chain[s.writeAt := Copied(s.chain[s.writeAt], at, d)];
      s.(chain := if full && s.writeAt + 1 >= |chain| then chain + [Blank()] else chain,
         writeAt := if full then s.writeAt + 1 else s.writeAt,
         writeOffset := Wrapped(s.writeOffset + |d|))
  }

  function WriteLoop(s: Stream, data: seq<Byte>): Stream
    decreases |data|
  {
    if data == [] then s
    else
      var n := Chunk(s.writeOffset, |data|);
      WriteLoop(WriteChunk(s, data[..n]), data[n..])
  }

  function Write(s: Stream, data: seq<Byte>): Stream {
    var w := WriteLoop(s, data);
    w.(available := Wrapped(s.available + |data|))
  }

  function ChunkRead(s: Stream, n: nat): seq<Byte> {
    var at := s.readOffset % BUFFER;
    if s.readAt < |s.chain| && at + n <= |s.chain[s.readAt]| then s.chain[s.readAt][at..at + n] else []
  }

  function ReadChunk(s: Stream, n: nat): Stream {
    s.(readAt := if s.readOffset % BUFFER + n == BUFFER then s.readAt + 1 else s.readAt, readOffset := Wrapped(s.readOffset + n))
  }

  function ReadLoop(s: Stream, size: nat): (Stream, seq<Byte>)
    decreases size
  {
    if size == 0 then (s, [])
    else
      var n := Chunk(s.readOffset, size);
      var (w, d) := ReadLoop(ReadChunk(s, n), size - n);
      (w, ChunkRead(s, n) + d)
  }

  function Read(s: Stream, size: nat): (Stream, seq<Byte>) {
    var n := Min(size, s.available);
    var (w, d) := ReadLoop(s, n);
    (w.(available := s.available - n), d)
  }

  // ------------------------------------------------------------------ a stream is the bytes written to it

  predicate Stored(chain: seq<seq<Byte>>, p: nat, b: Byte) {
    p / BUFFER < |chain| && p % BUFFER < |chain[p / BUFFER]| && chain[p / BUFFER][p % BUFFER] == b
  }

  /** The chain holds what was written; both buffer cursors sit at offset / buffer size. */
  ghost predicate Holds(s: Stream, written: seq<Byte>) {
    && |written| == s.writeOffset < WORD32 && s.readOffset <= s.writeOffset
    && s.writeAt == s.writeOffset / BUFFER < |s.chain| && s.readAt == s.readOffset / BUFFER
    && (forall i :: 0 <= i < |s.chain| ==> |s.chain[i]| == BUFFER)
    && (forall p: nat :: p < |written| ==> Stored(s.chain, p, written[p]))
  }

  ghost predicate Valid(s: Stream, written: seq<Byte>) {
    Holds(s, written) && s.available == s.writeOffset - s.readOffset
  }

  lemma CursorMoves(offset: nat, n: nat)
    requires offset % BUFFER + n <= BUFFER
    ensures (offset + n) / BUFFER == if offset % BUFFER + n == BUFFER then offset / BUFFER + 1 else offset / BUFFER
  {
  }

  lemma PlaceIn(offset: nat, i: nat)
    requires offset % BUFFER + i < BUFFER
    ensures (offset + i) / BUFFER == offset / BUFFER && (offset + i) % BUFFER == offset % BUFFER + i
  {
  }

  lemma ChunkWritten(s: Stream, d: seq<Byte>, written: seq<Byte>)
    requires Holds(s, written) && s.writeOffset % BUFFER + |d| <= BUFFER && |written| + |d| < WORD32
    ensures Holds(WriteChunk(s, d), written + d)
  {
    var w := WriteChunk(s, d);
    CursorMoves(s.writeOffset, |d|);
    forall p: nat | p < |written + d| ensures Stored(w.chain, p, (written + d)[p]) {
      ByteAfterWrite(s, d, written, p);
    }
    hide Stored;
  }

  lemma ByteAfterWrite(s: Stream, d: seq<Byte>, written: seq<Byte>, p: nat)
    requires Holds(s, written) && s.writeOffset % BUFFER + |d| <= BUFFER && p < |written + d|
    ensures Stored(WriteChunk(s, d).chain, p, (written + d)[p])
  {
    var at, b := s.writeOffset % BUFFER, s.writeAt;
    var w := WriteChunk(s, d);
    assert w.chain[b] == s.chain[b][..at] + d + s.chain[b][at + |d|..];
    if p < |written| {
      assert Stored(s.chain, p, written[p]);
      EarlierPlace(p, s.writeOffset);
    } else {
      var i: nat := p - s.writeOffset;
      PlaceIn(s.writeOffset, i);
      assert w.chain[b][at + i] == d[i];
    }
  }

  lemma EarlierPlace(p: nat, offset: nat)
    requires p < offset
    ensures p / BUFFER < offset / BUFFER || (p / BUFFER == offset / BUFFER && p % BUFFER < offset % BUFFER)
  {
  }

  lemma {:induction false} AllWritten(s: Stream, data: seq<Byte>, written: seq<Byte>)
    requires Holds(s, written) && |written| + |data| < WORD32
    ensures Holds(WriteLoop(s, data), written + data)
    ensures WriteLoop(s, data).available == s.available && WriteLoop(s, data).readOffset == s.readOffset
    decreases |data|
  {
    hide Holds, WriteChunk;
    if data == [] {
      assert written + data == written;
    } else {
      var n := Chunk(s.writeOffset, |data|);
      ChunkWritten(s, data[..n], written);
      ChunkLeaves(s, data[..n]);
      AllWritten(WriteChunk(s, data[..n]), data[n..], written + data[..n]);
      assert written + data[..n] + data[n..] == written + data;
    }
  }

  lemma ChunkLeaves(s: Stream, d: seq<Byte>)
    ensures WriteChunk(s, d).available == s.available && WriteChunk(s, d).readOffset == s.readOffset
  {
  }

  /** A chunk read is the bytes written there; the buffer it moves to exists. */
  lemma ChunkIsWritten(s: Stream, n: nat, written: seq<Byte>)
    requires Holds(s, written) && s.readOffset % BUFFER + n <= BUFFER && s.readOffset + n <= |written|
    ensures Holds(ReadChunk(s, n), written) && ReadChunk(s, n).readAt < |s.chain|
    ensures ChunkRead(s, n) == written[s.readOffset..s.readOffset + n]
  {
    CursorMoves(s.readOffset, n);
    Monotone(s.readOffset + n, s.writeOffset);
    ChunkBytes(s, n, written);
    hide Stored, ChunkRead;
  }

  lemma ChunkBytes(s: Stream, n: nat, written: seq<Byte>)
    requires Holds(s, written) && s.readOffset % BUFFER + n <= BUFFER && s.readOffset + n <= |written|
    ensures ChunkRead(s, n) == written[s.readOffset..s.readOffset + n]
  {
    Monotone(s.readOffset, s.writeOffset);
    var d := ChunkRead(s, n);
    forall i: nat | i < n ensures d[i] == written[s.readOffset + i] {
      PlaceIn(s.readOffset, i);
      assert Stored(s.chain, s.readOffset + i, written[s.readOffset + i]);
    }
  }

  lemma Monotone(a: nat, b: nat)
    requires a <= b
    ensures a / BUFFER <= b / BUFFER
  {
  }

  lemma Spliced(s: seq<Byte>, from: nat, n: nat, size: nat)
    requires n <= size && from + size <= |s|
    ensures s[from..from + n] + s[from + n..from + n + (size - n)] == s[from..from + size]
  {
  }

  lemma {:induction false} AllRead(s: Stream, size: nat, written: seq<Byte>)
    requires Holds(s, written) && s.readOffset + size <= |written|
    ensures var (w, d) := ReadLoop(s, size);
      && Holds(w, written) && d == written[s.readOffset..s.readOffset + size]
      && w.readOffset == s.readOffset + size && w.writeOffset == s.writeOffset && w.available == s.available
    decreases size
  {
    hide *;
    HoldsBelow(s, written);
    if size > 0 {
      var n := Chunk(s.readOffset, size);
      ChunkIsWritten(s, n, written);
      ReadMoves(s, n);
      AllRead(ReadChunk(s, n), size - n, written);
      ReadOn(s, size, ReadLoop(ReadChunk(s, n), size - n).0, written);
    } else {
      ReadLoopEnd(s);
    }
  }

  /** A chunk, and then the rest. */
  lemma ReadOn(s: Stream, size: nat, w: Stream, written: seq<Byte>)
    requires size > 0 && s.readOffset + size <= |written|
    requires var n, from := Chunk(s.readOffset, size), s.readOffset;
      && ChunkRead(s, n) == written[from..from + n]
      && ReadLoop(ReadChunk(s, n), size - n) == (w, written[from + n..from + n + (size - n)])
    ensures ReadLoop(s, size) == (w, written[s.readOffset..s.readOffset + size])
  {
    hide ChunkRead, ReadChunk, ReadLoop, Chunk;
    ReadLoopStep(s, size);
    Spliced(written, s.readOffset, Chunk(s.readOffset, size), size);
  }

  lemma WriteAppends(s: Stream, data: seq<Byte>, written: seq<Byte>)
    requires Valid(s, written) && |written| + |data| < WORD32
    ensures Valid(Write(s, data), written + data) && Write(s, data).readOffset == s.readOffset
  {
    hide WriteLoop, Write, Holds;
    AllWritten(s, data, written);
    WriteIs(s, data);
    HoldsCounts(s, written);
    HoldsCounts(WriteLoop(s, data), written + data);
    CountsApart(WriteLoop(s, data), written + data, s.available + |data|);
  }

  lemma CountsApart(s: Stream, written: seq<Byte>, available: nat)
    requires Holds(s, written) && available < WORD32
    ensures Holds(s.(available := Wrapped(available)), written) && Wrapped(available) == available
  {
    hide Stored;
  }

  lemma HoldsCounts(s: Stream, written: seq<Byte>)
    requires Holds(s, written)
    ensures s.writeOffset == |written| && s.readOffset <= |written|
  {
  }

  lemma ReadTakes(s: Stream, size: nat, written: seq<Byte>)
    requires Valid(s, written)
    ensures var (w, d) := Read(s, size);
      && Valid(w, written) && d == written[s.readOffset..w.readOffset]
      && w.readOffset == Min(s.readOffset + size, |written|)
  {
    AllRead(s, Min(size, s.available), written);
    hide ReadLoop, Stored;
  }

  // ------------------------------------------------------------------ whole runs

  datatype Op = Put(data: seq<Byte>) | Get(size: nat)

  function Fresh(): Stream { Stream([Blank()], 0, 0, 0, 0, 0) }

  function Run(ops: seq<Op>): (Stream, seq<Byte>) {
    if ops == [] then (Fresh(), [])
    else
      var (s, got) := Run(ops[..|ops| - 1]);
      match ops[|ops| - 1]
      case Put(data) => (Write(s, data), got)
      case Get(size) => var (w, d) := Read(s, size); (w, got + d)
  }

  function AllPut(ops: seq<Op>): seq<Byte> {
    if ops == [] then []
    else AllPut(ops[..|ops| - 1]) + (if ops[|ops| - 1].Put? then ops[|ops| - 1].data else [])
  }

  lemma {:induction false} PutsGrow(ops: seq<Op>)
    requires ops != []
    ensures |AllPut(ops[..|ops| - 1])| <= |AllPut(ops)|
  {
  }

  /** Whatever the mix of sizes, what comes out is what went in, in order, as far as it has been read. */
  lemma {:induction false} StreamIsFifo(ops: seq<Op>)
    requires |AllPut(ops)| < WORD32
    ensures var (s, got) := Run(ops);
      && Valid(s, AllPut(ops)) && got == AllPut(ops)[..s.readOffset] && s.available == |AllPut(ops)| - |got|
    decreases |ops|
  {
    hide Valid, Write, Read;
    if ops == [] {
      FreshIsValid();
    } else {
      PutsGrow(ops);
      var before := ops[..|ops| - 1];
      StreamIsFifo(before);
      var (s, got) := Run(before);
      ValidBounds(s, AllPut(before));
      var op := ops[|ops| - 1];
      if op.Put? {
        WriteAppends(s, op.data, AllPut(before));
      } else {
        ReadTakes(s, op.size, AllPut(before));
        assert AllPut(ops) == AllPut(before);
      }
      var (w, now) := Run(ops);
      ValidBounds(w, AllPut(ops));
      assert AllPut(ops)[..s.readOffset] == AllPut(before)[..s.readOffset];
    }
  }

  /** And every read gets the next bytes: as many as it asks for, or all there are. */
  lemma ReadGetsNext(ops: seq<Op>, size: nat)
    requires |AllPut(ops)| < WORD32
    ensures var (s, got) := Run(ops); var d := Read(s, size).1;
      if |got| + size <= |AllPut(ops)| then d == AllPut(ops)[|got|..|got| + size] else |got| <= |AllPut(ops)| && d == AllPut(ops)[|got|..]
  {
    var (s, got) := Run(ops);
    StreamIsFifo(ops);
    hide Run, Read, Valid, AllPut;
    NextBytes(s, size, AllPut(ops));
  }

  lemma NextBytes(s: Stream, size: nat, written: seq<Byte>)
    requires Valid(s, written)
    ensures s.readOffset <= |written|
    ensures Read(s, size).1 == if s.readOffset + size <= |written| then written[s.readOffset..s.readOffset + size] else written[s.readOffset..]
  {
    ValidBounds(s, written);
    ReadTakes(s, size, written);
    hide Read, Valid;
  }

  lemma ValidBounds(s: Stream, written: seq<Byte>)
    requires Valid(s, written)
    ensures s.readOffset <= |written| && s.available == |written| - s.readOffset
  {
  }

  lemma FreshIsValid()
    ensures Valid(Fresh(), [])
  {
  }

  // ------------------------------------------------------------------ what happens when the offsets wrap

  /** What came out is the beginning of what went in, and the rest is counted as available. */
  predicate Right(ops: seq<Op>) {
    var (s, got) := Run(ops);
    got <= AllPut(ops) && s.available == |AllPut(ops)| - |got|
  }

  lemma RunStep(ops: seq<Op>, op: Op)
    ensures Run(ops + [op]) == match op
      case Put(data) => (Write(Run(ops).0, data), Run(ops).1)
      case Get(size) => (Read(Run(ops).0, size).0, Run(ops).1 + Read(Run(ops).0, size).1)
    ensures AllPut(ops + [op]) == AllPut(ops) + if op.Put? then op.data else []
  {
    assert (ops + [op])[..|ops|] == ops;
    hide Write, Read;
  }

  function Zeroes(n: nat): (s: seq<Byte>)
    ensures |s| == n
  {
    seq(n, _ => 0)
  }

  /** Two writes of half of 2^32 bytes each: the count is zero again, and so are the offsets. */
  lemma CountWraps() returns (ops: seq<Op>)
    ensures |AllPut(ops)| == WORD32 && !Right(ops)
  {
    hide Write, Read, WriteLoop, Zeroes;
    var half := Zeroes(WORD32 / 2);
    ops := [] + [Put(half)] + [Put(half)];
    RunStep([], Put(half));
    RunStep([] + [Put(half)], Put(half));
    var s0, s1 := Fresh(), Write(Fresh(), half);
    WriteIs(s0, half);
    WriteIs(s1, half);
    LoopLeaves(s0, half);
    LoopLeaves(s1, half);
  }

  /** All runs of so many bytes at most are right exactly when that is fewer than 2^32. */
  lemma RightBelowWrapIff(total: nat)
    ensures (forall ops: seq<Op> :: |AllPut(ops)| <= total ==> Right(ops)) <==> total < 0x1_0000_0000
  {
    if total < WORD32 {
      forall ops: seq<Op> | |AllPut(ops)| <= total ensures Right(ops) {
        hide Run, AllPut;
        StreamIsFifo(ops);
        ValidBounds(Run(ops).0, AllPut(ops));
        hide Valid;
      }
    } else {
      var ops := CountWraps();
      hide Right, AllPut;
    }
  }

  /** The last multiple of the buffer size below 2^32, which is no multiple of it. */
  const LAP: nat := WORD32 - 32

  /** A write of one short chunk where a buffer begins, and one that follows, when the offset has gone past 2^32 between. */
  lemma SecondGoesBack(s: Stream, written: seq<Byte>)
    requires Valid(s, written) && |written| == LAP == s.readOffset
    ensures var w := Write(Write(s, Zeroes(33)), [1]);
      && w.available == 34 && w.readAt < |w.chain| && |w.chain[w.readAt]| == BUFFER && w.readOffset == LAP
      && w.chain[w.readAt][1] == 1
  {
    assert LAP % BUFFER == 0;
    ReadBufferThere(s, written);
    var d := Zeroes(33);
    hide Zeroes, Stored;
    OneChunk(s, d);
    var v := Write(s, d);
    OneChunk(v, [1]);
  }

  /** A write that stays inside the buffer it begins in. */
  lemma OneChunk(s: Stream, d: seq<Byte>)
    requires d != [] && s.writeOffset % BUFFER + |d| < BUFFER && s.writeAt < |s.chain|
    ensures var b := Copied(s.chain[s.writeAt], s.writeOffset % BUFFER, d);
      Write(s, d) == s.(chain := s.chain[s.writeAt := b], writeOffset := Wrapped(s.writeOffset + |d|), available := Wrapped(s.available + |d|))
  {
    assert Chunk(s.writeOffset, |d|) == |d| && d[..|d|] == d && d[|d|..] == [];
    WriteLoopStep(s, d);
    WriteLoopEnd(WriteChunk(s, d), []);
    hide WriteLoop;
  }

  /**
    Even when everything is read before the wrap, and little is outstanding after it, bytes can come out
    that did not go in there: the offset is past 2^32 again at 0, the place in the buffer is not.
   */
  lemma SlipsAfterWrap(lap: seq<Byte>)
    requires |lap| == LAP
    ensures var ops := [Put(lap), Get(LAP), Put(Zeroes(33)), Put([1]), Get(34)];
      var (_, got) := Run(ops);
      |got| == |AllPut(ops)| == LAP + 34 && got[LAP + 1] == 1 && AllPut(ops)[LAP + 1] == 0
  {
    hide Write, Read, Zeroes;
    var d := Zeroes(33);
    var o1, o2 := [] + [Put(lap)], [] + [Put(lap)] + [Get(LAP)];
    RunStep([], Put(lap));
    RunStep(o1, Get(LAP));
    RunStep(o2, Put(d));
    RunStep(o2 + [Put(d)], Put([1]));
    RunStep(o2 + [Put(d)] + [Put([1])], Get(34));
    assert AllPut(o2) == lap && AllPut(o1) == lap;
    StreamIsFifo(o1);
    StreamIsFifo(o2);
    var s1, s2 := Run(o1).0, Run(o2).0;
    ReadTakes(s1, LAP, lap);
    ValidBounds(s1, lap);
    ValidBounds(s2, lap);
    SecondGoesBack(s2, lap);
    var w := Write(Write(s2, d), [1]);
    ReadsOneChunk(w, 34);
    ZeroAt(33, 1);
    assert [Put(lap), Get(LAP), Put(d), Put([1]), Get(34)] == o2 + [Put(d)] + [Put([1])] + [Get(34)];
  }

  lemma ZeroAt(n: nat, i: nat)
    requires i < n
    ensures Zeroes(n)[i] == 0
  {
  }

  /** A read that stays inside the buffer it begins in. */
  lemma ReadsOneChunk(s: Stream, n: nat)
    requires 0 < n == s.available && s.readOffset % BUFFER + n < BUFFER && s.readAt < |s.chain| && |s.chain[s.readAt]| == BUFFER
    ensures Read(s, n).1 == s.chain[s.readAt][s.readOffset % BUFFER..s.readOffset % BUFFER + n]
  {
    ReadLoopStep(s, n);
    ReadLoopEnd(ReadChunk(s, n));
    hide ReadLoop;
  }

  // ------------------------------------------------------------------ the code on a stream in place

  datatype Status = Done | InvalidStream | BlockedStream | InvalidData | EmptyStream

  class StreamObject {
    var chain: seq<seq<Byte>>
    var readAt: nat
    var writeAt: nat
    var readOffset: nat
    var writeOffset: nat
    var available: nat
    var blocked: bool

    ghost function View(): Stream
      reads this
    {
      Stream(chain, readAt, writeAt, readOffset, writeOffset, available)
    }

    constructor ()
      ensures View() == Fresh() && !blocked
    {
      chain, readAt, writeAt, readOffset, writeOffset, available, blocked := [Blank()], 0, 0, 0, 0, 0, false;
    }

    /** A round of the writing loop. */
    method PutChunk(d: seq<Byte>)
      requires writeAt < |chain|
      modifies this
      ensures writeAt < |chain| && View() == WriteChunk(old(View()), d) && blocked == old(blocked)
    {
      var at, buffer := writeOffset % BUFFER, writeAt;
      if at + |d| == BUFFER {
        if writeAt + 1 >= |chain| { chain := chain + [Blank()]; }
        writeAt := writeAt + 1;
      }
      chain := chain[buffer := Copied(chain[buffer], at, d)];
      writeOffset := Wrapped(writeOffset + |d|);
    }
  }

  /** Writes all of the data, or says why not. */
  method WriteStreamData(s: StreamObject?, data: array?<Byte>, size: nat) returns (r: Status)
    requires s != null ==> s.writeAt < |s.chain|
    requires data != null ==> size <= data.Length
    modifies s
    ensures r == InvalidStream <==> s == null
    ensures r == InvalidData <==> s != null && (data == null || size == 0)
    ensures r == BlockedStream <==> s != null && data != null && size > 0 && s.blocked
    ensures s != null ==> s.View() == (if r == Done then Write(old(s.View()), data[..size]) else old(s.View()))
    ensures s != null ==> s.writeAt < |s.chain| && s.blocked == old(s.blocked)
  {
    if s == null { return InvalidStream; }
    if data == null || size == 0 { return InvalidData; }
    if s.blocked { return BlockedStream; }
    hide WriteLoop;
    WriteIs(s.View(), data[..size]);
    WriteAll(s, data[..size]);
    s.available := Wrapped(s.available + size);
    r := Done;
  }

  /** The writing loop. */
  method WriteAll(s: StreamObject, bytes: seq<Byte>)
    requires s.writeAt < |s.chain|
    modifies s
    ensures s.View() == WriteLoop(old(s.View()), bytes) && s.blocked == old(s.blocked) && s.available == old(s.available)
    ensures s.writeAt < |s.chain|
  {
    LoopLeaves(s.View(), bytes);
    hide WriteChunk, WriteLoop;
    var left := bytes;
    while left != []
      invariant s.writeAt < |s.chain| && s.blocked == old(s.blocked)
      invariant WriteLoop(s.View(), left) == WriteLoop(old(s.View()), bytes)
      decreases |left|
    {
      var n := Chunk(s.writeOffset, |left|);
      WriteLoopStep(s.View(), left);
      s.PutChunk(left[..n]);
      left := left[n..];
    }
    WriteLoopEnd(s.View(), left);
  }

  lemma {:induction false} LoopLeaves(s: Stream, data: seq<Byte>)
    ensures WriteLoop(s, data).available == s.available && WriteLoop(s, data).readOffset == s.readOffset
    decreases |data|
  {
    hide WriteChunk;
    if data != [] {
      var n := Chunk(s.writeOffset, |data|);
      ChunkLeaves(s, data[..n]);
      LoopLeaves(WriteChunk(s, data[..n]), data[n..]);
    }
  }

  /** Reads as much as there is of what is asked for, or says why not. */
  method ReadStreamData(s: StreamObject?, data: array?<Byte>, size: nat, ghost written: seq<Byte>) returns (r: Status, count: nat)
    requires s != null ==> Valid(s.View(), written)
    requires data != null ==> size <= data.Length
    modifies s, data
    ensures r == InvalidStream <==> s == null
    ensures r == BlockedStream <==> s != null && s.blocked
    ensures r == InvalidData <==> s != null && !s.blocked && (data == null || size == 0)
    ensures r == EmptyStream <==> s != null && !s.blocked && data != null && size > 0 && old(s.readOffset) == |written|
    ensures s != null ==> s.blocked == old(s.blocked) && (r != Done ==> s.View() == old(s.View()))
    ensures r == Done ==> s.View() == Read(old(s.View()), size).0 && count <= size && data[..count] == Read(old(s.View()), size).1
    ensures r == Done ==> data[count..] == old(data[count..])
  {
    count := 0;
    if s == null { return InvalidStream, 0; }
    if s.blocked { return BlockedStream, 0; }
    if data == null || size == 0 { return InvalidData, 0; }
    if s.readOffset == s.writeOffset { return EmptyStream, 0; }
    hide Holds, ReadLoop, Read;
    ReadFits(s.View(), size, written);
    ReadIs(s.View(), size);
    count := Min(size, s.available);
    var got := ReadAll(s, count, written);
    s.available := s.available - count;
    CopyOut(data, got);
    r := Done;
  }

  /** The reading loop. */
  method ReadAll(s: StreamObject, size: nat, ghost written: seq<Byte>) returns (got: seq<Byte>)
    requires Holds(s.View(), written) && s.readOffset + size <= |written|
    modifies s
    ensures s.View() == ReadLoop(old(s.View()), size).0 && got == ReadLoop(old(s.View()), size).1
    ensures |got| == size && s.blocked == old(s.blocked) && s.available == old(s.available)
  {
    ReadsWell(s.View(), size, written);
    hide Holds, ReadChunk, ChunkRead, ReadLoop, Reading, Chunk, Wrapped;
    got := [];
    var left: nat := size;
    ghost var v := s.View();
    ReadingBegins(v, size, written);
    while left > 0
      invariant Reading(v, size, s.View(), left, got, written) && s.blocked == old(s.blocked)
    {
      left, got := ReadRound(s, left, got, v, size, written);
    }
    ReadingEnds(v, size, s.View(), got, written);
  }

  /** A round of it. */
  method ReadRound(s: StreamObject, left: nat, got: seq<Byte>, ghost v: Stream, ghost size: nat, ghost written: seq<Byte>)
    returns (left': nat, got': seq<Byte>)
    requires left > 0 && Reading(v, size, s.View(), left, got, written)
    modifies s
    ensures left' < left && Reading(v, size, s.View(), left', got', written) && s.blocked == old(s.blocked)
  {
    hide Holds, ReadChunk, ChunkRead, Reading, Chunk, Wrapped;
    var n := Chunk(s.readOffset, left);
    ReadingStep(v, size, s.View(), left, got, written);
    var chunk := TakeChunk(s, n, written);
    left', got' := left - n, got + chunk;
  }

  lemma ChunkFits(offset: nat, size: nat)
    requires size > 0
    ensures 0 < Chunk(offset, size) <= size && offset % BUFFER + Chunk(offset, size) <= BUFFER
  {
  }

  lemma ReadsWell(s: Stream, size: nat, written: seq<Byte>)
    requires Holds(s, written) && s.readOffset + size <= |written|
    ensures |ReadLoop(s, size).1| == size && ReadLoop(s, size).0.available == s.available
  {
    AllRead(s, size, written);
    hide ReadLoop, Stored;
  }

  /** What is read and what is left to read make up the whole. */
  ghost predicate ReadsOn(s: Stream, size: nat, now: Stream, left: nat, got: seq<Byte>) {
    ReadLoop(now, left).0 == ReadLoop(s, size).0 && got + ReadLoop(now, left).1 == ReadLoop(s, size).1
  }

  lemma ReadsBegin(s: Stream, size: nat)
    ensures ReadsOn(s, size, s, size, [])
  {
    hide ReadLoop;
    assert [] + ReadLoop(s, size).1 == ReadLoop(s, size).1;
  }

  lemma ReadsStep(s: Stream, size: nat, now: Stream, left: nat, got: seq<Byte>)
    requires left > 0 && ReadsOn(s, size, now, left, got)
    ensures var n := Chunk(now.readOffset, left); ReadsOn(s, size, ReadChunk(now, n), left - n, got + ChunkRead(now, n))
  {
    ReadLoopStep(now, left);
    hide ReadLoop, ReadChunk, ChunkRead;
    var n := Chunk(now.readOffset, left);
    var chunk, rest := ChunkRead(now, n), ReadLoop(ReadChunk(now, n), left - n).1;
    assert got + (chunk + rest) == (got + chunk) + rest;
  }

  lemma ReadsEnd(s: Stream, size: nat, now: Stream, got: seq<Byte>)
    requires ReadsOn(s, size, now, 0, got)
    ensures ReadLoop(s, size).0 == now && ReadLoop(s, size).1 == got
  {
    ReadLoopEnd(now);
    hide ReadLoop;
    assert got + [] == got;
  }

  /** What the reading loop keeps. */
  ghost predicate Reading(s: Stream, size: nat, now: Stream, left: nat, got: seq<Byte>, written: seq<Byte>) {
    Holds(now, written) && now.readOffset + left <= |written| && ReadsOn(s, size, now, left, got)
  }

  lemma ReadingBegins(s: Stream, size: nat, written: seq<Byte>)
    requires Holds(s, written) && s.readOffset + size <= |written|
    ensures Reading(s, size, s, size, [], written)
  {
    hide Holds, ReadsOn;
    ReadsBegin(s, size);
  }

  lemma ReadingStep(s: Stream, size: nat, now: Stream, left: nat, got: seq<Byte>, written: seq<Byte>)
    requires left > 0 && Reading(s, size, now, left, got, written)
    ensures var n := Chunk(now.readOffset, left);
      && 0 < n <= left && now.readOffset % BUFFER + n <= BUFFER && now.readOffset + n <= |written| && Holds(now, written)
      && Reading(s, size, ReadChunk(now, n), left - n, got + ChunkRead(now, n), written)
  {
    var n := Chunk(now.readOffset, left);
    hide ReadsOn, Chunk, ChunkRead, ReadChunk;
    ChunkFits(now.readOffset, left);
    HoldsBelow(now, written);
    hide Holds;
    ChunkIsWritten(now, n, written);
    ReadsStep(s, size, now, left, got);
    ReadMoves(now, n);
  }

  lemma HoldsBelow(s: Stream, written: seq<Byte>)
    requires Holds(s, written)
    ensures |written| < WORD32
  {
  }

  lemma ReadMoves(s: Stream, n: nat)
    ensures s.readOffset + n < WORD32 ==> ReadChunk(s, n).readOffset == s.readOffset + n
    ensures ReadChunk(s, n).writeOffset == s.writeOffset && ReadChunk(s, n).available == s.available
  {
  }

  lemma ReadingEnds(s: Stream, size: nat, now: Stream, got: seq<Byte>, written: seq<Byte>)
    requires Reading(s, size, now, 0, got, written)
    ensures ReadLoop(s, size).0 == now && ReadLoop(s, size).1 == got
  {
    ReadsEnd(s, size, now, got);
  }

  /** What a round takes out of the buffer. */
  method TakeChunk(s: StreamObject, n: nat, ghost written: seq<Byte>) returns (d: seq<Byte>)
    requires Holds(s.View(), written) && s.readOffset % BUFFER + n <= BUFFER && s.readOffset + n <= |written|
    modifies s
    ensures s.View() == ReadChunk(old(s.View()), n) && s.blocked == old(s.blocked) && d == ChunkRead(old(s.View()), n)
    ensures Holds(s.View(), written) && s.readOffset == old(s.readOffset) + n
  {
    ChunkIsWritten(s.View(), n, written);
    ReadBufferThere(s.View(), written);
    hide Holds;
    var at, buffer := s.readOffset % BUFFER, s.chain[s.readAt];
    if at + n == BUFFER { s.readAt := s.readAt + 1; }
    d := buffer[at..at + n];
    s.readOffset := Wrapped(s.readOffset + n);
  }

  method CopyOut(data: array<Byte>, d: seq<Byte>)
    requires |d| <= data.Length
    modifies data
    ensures data[..|d|] == d && data[|d|..] == old(data[|d|..])
  {
    forall i | 0 <= i < |d| { data[i] := d[i]; }
  }

  /** What a read is cut down to is there to be read. */
  lemma ReadFits(s: Stream, size: nat, written: seq<Byte>)
    requires Valid(s, written)
    ensures Holds(s, written) && s.readOffset + Min(size, s.available) <= |written| == s.writeOffset
  {
  }

  lemma ReadBufferThere(s: Stream, written: seq<Byte>)
    requires Holds(s, written)
    ensures s.readAt < |s.chain| && |s.chain[s.readAt]| == BUFFER
  {
    Monotone(s.readOffset, s.writeOffset);
  }

  lemma WriteLoopStep(s: Stream, data: seq<Byte>)
    ensures data != [] ==> var n := Chunk(s.writeOffset, |data|); WriteLoop(s, data) == WriteLoop(WriteChunk(s, data[..n]), data[n..])
  {
  }

  lemma WriteLoopEnd(s: Stream, data: seq<Byte>)
    ensures data == [] ==> WriteLoop(s, data) == s
  {
  }

  lemma WriteIs(s: Stream, data: seq<Byte>)
    ensures Write(s, data) == WriteLoop(s, data).(available := Wrapped(s.available + |data|))
  {
    hide WriteLoop, Wrapped;
  }

  lemma ReadLoopStep(s: Stream, size: nat)
    ensures size > 0 ==> var n := Chunk(s.readOffset, size); var (w, d) := ReadLoop(ReadChunk(s, n), size - n);
      ReadLoop(s, size) == (w, ChunkRead(s, n) + d)
  {
  }

  lemma ReadLoopEnd(s: Stream)
    ensures ReadLoop(s, 0) == (s, [])
  {
  }

  lemma ReadIs(s: Stream, size: nat)
    ensures var n := Min(size, s.available);
      && Read(s, size).0 == ReadLoop(s, n).0.(available := s.available - n) && Read(s, size).1 == ReadLoop(s, n).1
  {
    hide ReadLoop;
  }
}
