/** The trace driver that checks an allocator, run against the allocator of this project: it never finds a bad range,
    and it finds the bytes of a resized block lost exactly where its own comparison cannot succeed. */
module MallocDriver {
  import Arith
  import opened Words
  import opened SizeClass
  import opened HeapSpec
  import opened HeapMem
  import opened Allocator
  import opened Coalescing

  // ---- bytes of the heap

  function Assemble(b0: Byte, b1: Byte, b2: Byte, b3: Byte): U32 {
    b0 + 256 * b1 + 0x1_0000 * b2 + 0x100_0000 * b3
  }

  /** The bytes of a word, least significant first. */
  function ByteOf(w: U32, k: nat): Byte
    requires k < 4
  {
    match k
    case 0 => w % 256
    case 1 => w / 256 % 256
    case 2 => w / 0x1_0000 % 256
    case _ => w / 0x100_0000 % 256
  }

  lemma AssembledBytes(b0: Byte, b1: Byte, b2: Byte, b3: Byte)
    ensures var w := Assemble(b0, b1, b2, b3);
            ByteOf(w, 0) == b0 && ByteOf(w, 1) == b1 && ByteOf(w, 2) == b2 && ByteOf(w, 3) == b3
  {
    var w := Assemble(b0, b1, b2, b3);
    Arith.Quotient(w, 256, b1 + 256 * b2 + 0x1_0000 * b3, b0);
    Arith.Quotient(w / 256, 256, b2 + 256 * b3, b1);
    Arith.Quotient(w, 0x1_0000, b2 + 256 * b3, b0 + 256 * b1);
    Arith.Quotient(w / 0x1_0000, 256, b3, b2);
    Arith.Quotient(w, 0x100_0000, b3, b0 + 256 * b1 + 0x1_0000 * b2);
    Arith.Quotient(b3, 256, 0, b3);
  }

  /** The word w with its first k bytes set to v. */
  function Filled(w: U32, k: nat, v: Byte): U32 {
    Assemble(if 0 < k then v else ByteOf(w, 0), if 1 < k then v else ByteOf(w, 1),
             if 2 < k then v else ByteOf(w, 2), if 3 < k then v else ByteOf(w, 3))
  }

  lemma FilledBytes(w: U32, k: nat, v: Byte, i: nat)
    requires i < 4
    ensures ByteOf(Filled(w, k, v), i) == if i < k then v else ByteOf(w, i)
  {
    hide Assemble, ByteOf;
    AssembledBytes(if 0 < k then v else ByteOf(w, 0), if 1 < k then v else ByteOf(w, 1),
                   if 2 < k then v else ByteOf(w, 2), if 3 < k then v else ByteOf(w, 3));
    assert i == 0 || i == 1 || i == 2 || i == 3;
  }

  /** Byte j of the payload at word p. */
  function PayloadByte(m: seq<U32>, p: nat, j: nat): Byte {
    if p + j / 4 < |m| then ByteOf(m[p + j / 4], j % 4) else 0
  }

  /** The first n bytes of the payload at p are v. */
  ghost predicate FilledWith(m: seq<U32>, p: nat, n: nat, v: Byte) {
    forall j {:trigger PayloadByte(m, p, j)} :: 0 <= j < n ==> p + j / 4 < |m| && PayloadByte(m, p, j) == v
  }

  /** A filled prefix survives when the words it lies in do. */
  lemma FilledCopied(m: seq<U32>, p: nat, m': seq<U32>, r: nat, n: nat, k: nat, v: Byte)
    requires FilledWith(m, p, k, v) && n <= k
    requires var w := (n + 3) / 4; p + w <= |m| && r + w <= |m'| && m'[r..r + w] == m[p..p + w]
    ensures FilledWith(m', r, n, v)
  {
    hide ByteOf;
    forall j | 0 <= j < n
      ensures r + j / 4 < |m'| && PayloadByte(m', r, j) == v
    {
      assert PayloadByte(m, p, j) == v;
      var w := (n + 3) / 4;
      assert m'[r + j / 4] == m'[r..r + w][j / 4] == m[p..p + w][j / 4] == m[p + j / 4];
    }
  }

  // ---- traces

  datatype Op = Alloc(id: nat, size: nat) | Resize(id: nat, size: nat) | Release(id: nat)

  datatype Verdict = Accepted | InitFailed | MallocFailed(op: int) | ReallocFailed(op: int)
                   | BadRange(op: int) | LostData(op: int)

  /** The traces in use: only ids that hold a block are resized or released, and no size overflows. */
  predicate WellFormed(ops: seq<Op>, live: set<nat>) {
    ops == [] || (Allowed(ops[0], live) && WellFormed(ops[1..], Next(ops[0], live)))
  }

  predicate Allowed(op: Op, live: set<nat>) {
    match op
    case Alloc(_, size) => size <= MAX_REQUEST
    case Resize(id, size) => id in live && size <= MAX_REQUEST
    case Release(id) => id in live
  }

  function Next(op: Op, live: set<nat>): set<nat> {
    match op
    case Alloc(id, _) => live + {id}
    case Resize(_, _) => live
    case Release(id) => live - {id}
  }

  /** A resizing whose block is filled with a byte that reads back as a negative character. */
  predicate Unrecognized(op: Op) { op.Resize? && op.id % 256 >= 128 }

  /** The first such resizing, or the length of the trace. */
  function FirstUnrecognized(trace: seq<Op>): nat {
    if trace == [] || Unrecognized(trace[0]) then 0 else 1 + FirstUnrecognized(trace[1..])
  }

  lemma {:induction false} FirstIs(trace: seq<Op>, i: nat)
    requires i <= |trace| && (forall j :: 0 <= j < i ==> !Unrecognized(trace[j]))
    requires i == |trace| || Unrecognized(trace[i])
    ensures FirstUnrecognized(trace) == i
  {
    if i > 0 {
      FirstIs(trace[1..], i - 1);
    }
  }

  lemma {:induction false} FirstAfter(trace: seq<Op>, i: nat)
    requires i <= |trace| && (forall j :: 0 <= j < i ==> !Unrecognized(trace[j]))
    ensures i <= FirstUnrecognized(trace) <= |trace|
  {
    if i > 0 {
      FirstAfter(trace[1..], i - 1);
    } else if trace != [] {
      FirstAfter(trace[1..], 0);
    }
  }

  predicate NoResize(trace: seq<Op>) { forall i :: 0 <= i < |trace| ==> !trace[i].Resize? }

  /** A request that the allocator answers with NULL: for 0 bytes, or with the memory exhausted. */
  ghost predicate Refused(b: Blocks, end: nat, capacity: nat, size: nat) {
    size == 0 || Exhausted(b, end, capacity, size)
  }

  /** A request of at least one byte for which neither a free block nor more memory is left. */
  ghost predicate Exhausted(b: Blocks, end: nat, capacity: nat, size: nat) {
    0 < size
    && (forall p {:trigger Fitting(b, p, Adjusted(size))} :: !Fitting(b, p, Adjusted(size)))
    && end + (if Adjusted(size) > CHUNKSIZE then Adjusted(size) else CHUNKSIZE) / 4 > capacity
  }

  lemma MallocNull(b: Blocks, end: nat, capacity: nat, size: nat, b': Blocks, end': nat)
    requires Malloced(b, end, capacity, size, b', end', NULL)
    ensures Refused(b', end', capacity, size)
  {
    hide Grown;
  }

  lemma ReallocNull(b: Blocks, end: nat, capacity: nat, p: nat, size: nat, b': Blocks, end': nat)
    requires p in b && Realloced(b, end, capacity, p, size, b', end', NULL)
    ensures Refused(b', end', capacity, size)
  {
    hide Grown, Malloced, Placed, Merge, Split, Freed;
    if size != 0 {
      MallocNull(b, end, capacity, size, b', end');
    }
  }

  /** Where a reallocated block ends up, no other live block was. */
  lemma ReallocApart(b: Blocks, end: nat, capacity: nat, p: nat, size: nat, b': Blocks, end': nat, r: int, q: nat)
    requires Tiles(b, end) && p in b && b[p].alloc && Realloced(b, end, capacity, p, size, b', end', r) && r != NULL
    requires q in b && b[q].alloc && q != p
    ensures r != q
  {
    hide Tiles, Malloced, Freed, Placed, Merge, Split;
    if r != p {
      var g: Blocks :| Malloced(b, end, capacity, size, g, end', r) && p in g && Freed(g, p, b');
      MallocedTiles(b, end, capacity, size, g, end', r);
      MallocDelivers(b, end, capacity, size, g, end', r);
      AnyFacts(b, end, q);
      AnyFacts(g, end', r);
    }
  }

  // ---- the driver's records

  /** The extent of a payload, in bytes from the start of the heap, hi included. */
  datatype Range = Range(lo: int, hi: int)

  predicate LiveAt(b: Blocks, p: int) { p in b && b[p].alloc && p != FIRST }

  predicate RangeOk(b: Blocks, r: Range) {
    && r.lo % 4 == 0 && LiveAt(b, r.lo / 4)
    && r.lo <= r.hi < r.lo + 4 * (b[r.lo / 4].words - 2)
  }

  predicate NoneAt(ranges: seq<Range>, lo: int) { forall r :: r in ranges ==> r.lo != lo }

  predicate Distinct(ranges: seq<Range>) {
    ranges == [] || (NoneAt(ranges[1..], ranges[0].lo) && Distinct(ranges[1..]))
  }

  /** The records describe payloads of distinct live blocks. */
  predicate RangesOk(b: Blocks, ranges: seq<Range>) {
    Distinct(ranges) && forall r :: r in ranges ==> RangeOk(b, r)
  }

  function Extent(p: nat, size: nat): Range { Range(4 * p, 4 * p + size - 1) }

  /** What the driver remembers of an id: its block, on record, filled with the low byte of the id. */
  ghost predicate IdOk(m: seq<U32>, ranges: seq<Range>, blocks: map<nat, nat>, sizes: map<nat, nat>, id: nat) {
    && id in blocks && id in sizes && 0 < sizes[id]
    && Extent(blocks[id], sizes[id]) in ranges
    && FilledWith(m, blocks[id], sizes[id], id % 256)
  }

  ghost predicate IdsOk(m: seq<U32>, ranges: seq<Range>, blocks: map<nat, nat>, sizes: map<nat, nat>, live: set<nat>) {
    && (forall id {:trigger IdOk(m, ranges, blocks, sizes, id)} :: id in live ==> IdOk(m, ranges, blocks, sizes, id))
    && (forall i, j :: i in live && j in live && i in blocks && j in blocks && i != j ==> blocks[i] != blocks[j])
  }

  function Without(ranges: seq<Range>, lo: int): seq<Range> {
    if ranges == [] then []
    else if ranges[0].lo == lo then ranges[1..]
    else [ranges[0]] + Without(ranges[1..], lo)
  }

  /** Removing a record keeps exactly the others. */
  lemma {:induction false} WithoutMembers(ranges: seq<Range>, lo: int)
    requires Distinct(ranges)
    ensures Distinct(Without(ranges, lo))
    ensures forall r {:trigger r in Without(ranges, lo)} {:trigger r in ranges} ::
              r in Without(ranges, lo) <==> r in ranges && r.lo != lo
  {
    if ranges != [] {
      assert ranges == [ranges[0]] + ranges[1..];
      if ranges[0].lo != lo {
        WithoutMembers(ranges[1..], lo);
      }
    }
  }

  /** What a kept payload was filled with, it still is. */
  lemma FilledKept(m: seq<U32>, b: Blocks, m': seq<U32>, b': Blocks, p: nat, n: nat, v: Byte)
    requires p in b && KeptAt(m, b, m', b', p) && FilledWith(m, p, n, v)
    requires n <= 4 * (b[p].words - 2) && p + b[p].words <= |m|
    ensures FilledWith(m', p, n, v)
  {
    hide ByteOf;
    assert m'[p..p + (n + 3) / 4] == m[p..p + (n + 3) / 4];
    FilledCopied(m, p, m', p, n, n, v);
  }

  /** A step that keeps the payloads of all recorded blocks but one keeps what the driver knows of all ids that do not
      hold that one. */
  lemma IdsKept(m: seq<U32>, b: Blocks, end: nat, m': seq<U32>, b': Blocks, ranges: seq<Range>, ranges': seq<Range>,
                blocks: map<nat, nat>, sizes: map<nat, nat>, live: set<nat>, p: nat)
    requires Tiles(b, end) && end <= |m| && RangesOk(b, ranges) && IdsOk(m, ranges, blocks, sizes, live)
    requires forall r :: r in ranges && r.lo != 4 * p ==> r in ranges'
    requires forall q {:trigger KeptAt(m, b, m', b', q)} :: q in b && b[q].alloc && q != p ==> KeptAt(m, b, m', b', q)
    requires forall id :: id in live && id in blocks ==> blocks[id] != p
    ensures IdsOk(m', ranges', blocks, sizes, live)
  {
    hide Tiles, KeptAt, FilledWith;
    forall id | id in live
      ensures IdOk(m', ranges', blocks, sizes, id)
    {
      assert IdOk(m, ranges, blocks, sizes, id);
      var q, r := blocks[id], Extent(blocks[id], sizes[id]);
      assert RangeOk(b, r) && r.lo / 4 == q;
      AnyFacts(b, end, q);
      FilledKept(m, b, m', b', q, sizes[id], id % 256);
    }
  }

  /** Recording a block for an id that no live id holds. */
  lemma IdAdded(m: seq<U32>, ranges: seq<Range>, blocks: map<nat, nat>, sizes: map<nat, nat>, live: set<nat>,
                id: nat, p: nat, size: nat)
    requires IdsOk(m, ranges, blocks, sizes, live - {id})
    requires 0 < size && Extent(p, size) in ranges && FilledWith(m, p, size, id % 256)
    requires forall i :: i in live && i != id && i in blocks ==> blocks[i] != p
    ensures IdsOk(m, ranges, blocks[id := p], sizes[id := size], live + {id})
  {
    hide FilledWith;
    forall i | i in live + {id}
      ensures IdOk(m, ranges, blocks[id := p], sizes[id := size], i)
    {
      if i != id {
        assert i in live - {id};
        assert IdOk(m, ranges, blocks, sizes, i);
      }
    }
  }

  // ---- memset and the check of its traces

  /** `memset` over a live payload. */
  method Fill(h: Heap, p: nat, size: nat, v: Byte)
    requires h.Valid() && LiveAt(h.b, p) && size <= 4 * (h.b[p].words - 2)
    modifies h.mem
    ensures h.Valid() && FilledWith(h.mem[..], p, size, v)
    ensures forall q {:trigger KeptAt(old(h.mem[..]), h.b, h.mem[..], h.b, q)} ::
              q in h.b && q != p ==> KeptAt(old(h.mem[..]), h.b, h.mem[..], h.b, q)
    ensures p + (size + 3) / 4 <= h.mem.Length
    ensures forall i :: p <= i < p + (size + 3) / 4 ==> h.mem[i] == Filled(old(h.mem[i]), size - 4 * (i - p), v)
  {
    hide Tiles, Tags, Lists, AllBut, Filled, FilledWith;
    ghost var m := h.mem[..];
    AnyFacts(h.b, h.brk, p);
    for i := p to p + (size + 3) / 4
      invariant SameOutside(m, h.mem[..], p, i)
      invariant forall t :: p <= t < i ==> h.mem[t] == Filled(m[t], size - 4 * (t - p), v)
    {
      h.mem[i] := Filled(h.mem[i], size - 4 * (i - p), v);
    }
    PayloadState(m, h.b, h.brk, h.lists, p, p, p + (size + 3) / 4, h.mem[..]);
    WordsFilled(m, h.mem[..], p, size, v);
  }

  lemma WordsFilled(m: seq<U32>, m': seq<U32>, p: nat, size: nat, v: Byte)
    requires |m'| == |m| && p + (size + 3) / 4 <= |m|
    requires forall t :: p <= t < p + (size + 3) / 4 ==> m'[t] == Filled(m[t], size - 4 * (t - p), v)
    ensures FilledWith(m', p, size, v)
  {
    hide Filled, ByteOf;
    forall j | 0 <= j < size
      ensures p + j / 4 < |m'| && PayloadByte(m', p, j) == v
    {
      FilledBytes(m[p + j / 4], size - 4 * (j / 4), v, j % 4);
    }
  }

  /** A byte as the driver reads it, through a pointer to signed characters. */
  function CharOf(b: Byte): int { if b < 128 then b else b - 256 }

  /** The driver's check that a resized block still holds the old bytes: it compares signed characters with the filling,
      so a filling of 128 or more is never recognized. */
  method StillFilled(h: Heap, p: nat, n: nat, v: Byte) returns (ok: bool)
    requires p + (n + 3) / 4 <= h.mem.Length
    ensures ok <==> n == 0 || (v < 128 && FilledWith(h.mem[..], p, n, v))
  {
    hide ByteOf;
    for j := 0 to n
      invariant j > 0 ==> v < 128
      invariant FilledWith(h.mem[..], p, j, v)
    {
      assert ByteOf(h.mem[p + j / 4], j % 4) == PayloadByte(h.mem[..], p, j);
      if CharOf(ByteOf(h.mem[p + j / 4], j % 4)) != v {
        return false;
      }
    }
    return true;
  }

  // ---- the driver

  /** A live block that no record mentions passes the driver's test of its range. */
  lemma NewRangeClear(b: Blocks, end: nat, ranges: seq<Range>, p: nat, size: nat)
    requires Tiles(b, end) && RangesOk(b, ranges) && NoneAt(ranges, 4 * p)
    requires LiveAt(b, p) && 0 < size <= 4 * (b[p].words - 2)
    ensures RangeClear(ranges, end, 4 * p, size) && RangesOk(b, [Extent(p, size)] + ranges)
  {
    hide Tiles;
    AnyFacts(b, end, p);
    forall r | r in ranges
      ensures !Meets(r, 4 * p, 4 * p + size - 1)
    {
      assert RangeOk(b, r) && r.lo != 4 * p;
      BlocksApart(b, end, p, r.lo / 4);
    }
    assert ([Extent(p, size)] + ranges)[1..] == ranges;
    assert forall r :: r in [Extent(p, size)] + ranges ==> r == Extent(p, size) || r in ranges;
  }

  /** Where a live block of b0 is recorded. */
  lemma RecordedLive(b: Blocks, ranges: seq<Range>, m: seq<U32>, blocks: map<nat, nat>, sizes: map<nat, nat>, id: nat)
    requires RangesOk(b, ranges) && IdOk(m, ranges, blocks, sizes, id)
    ensures LiveAt(b, blocks[id]) && sizes[id] <= 4 * (b[blocks[id]].words - 2)
  {
    assert RangeOk(b, Extent(blocks[id], sizes[id]));
  }

  /** A step from m0 to m1 that gives up at most block op, followed by filling block p, leaves the driver's knowledge of
      all ids in order when p is recorded for id. */
  lemma Rerecorded(m0: seq<U32>, b0: Blocks, end0: nat, m1: seq<U32>, b1: Blocks, m2: seq<U32>,
                   ranges: seq<Range>, ranges1: seq<Range>, blocks: map<nat, nat>, sizes: map<nat, nat>,
                   live: set<nat>, id: nat, op: nat, p: nat, size: nat)
    requires Tiles(b0, end0) && end0 <= |m0| && RangesOk(b0, ranges) && IdsOk(m0, ranges, blocks, sizes, live)
    requires forall q {:trigger KeptAt(m0, b0, m1, b1, q)} :: q in b0 && b0[q].alloc && q != op ==> KeptAt(m0, b0, m1, b1, q)
    requires forall q {:trigger KeptAt(m1, b1, m2, b1, q)} :: q in b1 && q != p ==> KeptAt(m1, b1, m2, b1, q)
    requires forall q {:trigger b0[q]} :: q in b0 && b0[q].alloc && q != op ==> q != p
    requires forall r :: r in ranges && r.lo != 4 * op ==> r in ranges1
    requires forall i :: i in live && i != id && i in blocks ==> blocks[i] != op
    requires 0 < size && FilledWith(m2, p, size, id % 256)
    ensures IdsOk(m2, [Extent(p, size)] + ranges1, blocks[id := p], sizes[id := size], live + {id})
  {
    hide Tiles, FilledWith, RangesOk;
    var rest, ranges2 := live - {id}, [Extent(p, size)] + ranges1;
    forall i | i in rest
      ensures IdOk(m0, ranges, blocks, sizes, i) && blocks[i] != p
    {
      assert IdOk(m0, ranges, blocks, sizes, i);
      RecordedLive(b0, ranges, m0, blocks, sizes, i);
    }
    forall q | q in b0 && b0[q].alloc && q != op
      ensures KeptAt(m0, b0, m2, b1, q)
    {
      assert KeptAt(m0, b0, m1, b1, q);
      assert KeptAt(m1, b1, m2, b1, q);
    }
    assert IdsOk(m0, ranges, blocks, sizes, rest);
    IdsKept(m0, b0, end0, m2, b1, ranges, ranges2, blocks, sizes, rest, op);
    IdAdded(m2, ranges2, blocks, sizes, live, id, p, size);
  }

  /** The records of kept blocks stay good, and none of them is at a block that none of them was at. */
  lemma RecordsStay(m0: seq<U32>, b0: Blocks, m1: seq<U32>, b1: Blocks, ranges: seq<Range>, ranges1: seq<Range>,
                    op: nat, p: nat)
    requires RangesOk(b0, ranges) && Distinct(ranges1)
    requires forall q {:trigger KeptAt(m0, b0, m1, b1, q)} :: q in b0 && b0[q].alloc && q != op ==> KeptAt(m0, b0, m1, b1, q)
    requires forall q {:trigger b0[q]} :: q in b0 && b0[q].alloc && q != op ==> q != p
    requires forall r :: r in ranges1 ==> r in ranges && r.lo != 4 * op
    ensures RangesOk(b1, ranges1) && NoneAt(ranges1, 4 * p)
  {
    forall r | r in ranges1
      ensures RangeOk(b1, r) && r.lo != 4 * p
    {
      assert RangeOk(b0, r);
      assert KeptAt(m0, b0, m1, b1, r.lo / 4);
    }
  }

  lemma DeliveredApart(b0: Blocks, end0: nat, b1: Blocks, end1: nat, p: nat)
    requires Tiles(b0, end0) && Tiles(b1, end1) && p in b1
    requires forall q :: q in b0 && b0[q].alloc ==> q + b0[q].words <= p || p + b1[p].words <= q
    ensures forall q {:trigger b0[q]} :: q in b0 && b0[q].alloc ==> q != p
  {
    hide Tiles;
    AnyFacts(b1, end1, p);
    forall q | q in b0 && b0[q].alloc
      ensures q != p
    {
      AnyFacts(b0, end0, q);
    }
  }

  lemma RecordedApart(b: Blocks, ranges: seq<Range>, p: nat)
    requires RangesOk(b, ranges) && forall q {:trigger b[q]} :: q in b && b[q].alloc ==> q != p
    ensures NoneAt(ranges, 4 * p)
  {
    forall r | r in ranges
      ensures r.lo != 4 * p
    {
      assert RangeOk(b, r);
    }
  }

  lemma IdsApart(b: Blocks, ranges: seq<Range>, m: seq<U32>, blocks: map<nat, nat>, sizes: map<nat, nat>,
                 live: set<nat>, p: nat)
    requires RangesOk(b, ranges) && IdsOk(m, ranges, blocks, sizes, live)
    requires forall q {:trigger b[q]} :: q in b && b[q].alloc ==> q != p
    ensures forall i :: i in live && i in blocks ==> blocks[i] != p
  {
    hide FilledWith, RangesOk;
    forall i | i in live && i in blocks
      ensures blocks[i] != p
    {
      assert IdOk(m, ranges, blocks, sizes, i);
      RecordedLive(b, ranges, m, blocks, sizes, i);
    }
  }

  lemma ResizedApart(b: Blocks, end: nat, capacity: nat, p: nat, size: nat, b': Blocks, end': nat, r: int)
    requires Tiles(b, end) && p in b && b[p].alloc && p != FIRST
    requires Realloced(b, end, capacity, p, size, b', end', r) && r != NULL
    ensures r != FIRST && 0 < size
    ensures forall q {:trigger b[q]} :: q in b && b[q].alloc && q != p ==> q != r
  {
    hide Tiles, Malloced, Freed, Placed, Merge, Split;
    forall q | q in b && b[q].alloc && q != p
      ensures q != r
    {
      ReallocApart(b, end, capacity, p, size, b', end', r, q);
    }
    assert FIRST in b && b[FIRST].alloc by { PrologueLive(b, end); }
  }

  lemma PrologueLive(b: Blocks, end: nat)
    requires Tiles(b, end)
    ensures FIRST in b && b[FIRST].alloc
  {
  }

  /** The kept words hold the bytes the driver looks for. */
  lemma StillThere(m0: seq<U32>, b0: Blocks, end0: nat, op: nat, oldsize: nat, size: nat, m1: seq<U32>, p: nat, v: Byte)
    requires Tiles(b0, end0) && end0 <= |m0| && LiveAt(b0, op) && oldsize <= 4 * (b0[op].words - 2) && 0 < size
    requires FilledWith(m0, op, oldsize, v) && ReallocKeeps(m0, b0[op].words - 2, op, size, m1, p)
    ensures var n := if size < oldsize then size else oldsize;
            FilledWith(m1, p, n, v) && p + (n + 3) / 4 <= |m1|
  {
    hide Tiles, FilledWith;
    AnyFacts(b0, end0, op);
    var n := if size < oldsize then size else oldsize;
    var w := (n + 3) / 4;
    var words := b0[op].words - 2;
    var k := if 4 * words <= size then words else (size + 3) / 4;
    assert w <= k;
    assert m1[p..p + w] == m1[p..p + k][..w];
    assert m0[op..op + w] == m0[op..op + k][..w];
    FilledCopied(m0, op, m1, p, n, oldsize, v);
  }

  lemma KnownId(m: seq<U32>, ranges: seq<Range>, blocks: map<nat, nat>, sizes: map<nat, nat>, live: set<nat>, id: nat)
    requires IdsOk(m, ranges, blocks, sizes, live) && id in live
    ensures IdOk(m, ranges, blocks, sizes, id)
  {
    hide FilledWith;
  }

  lemma OtherIds(m: seq<U32>, ranges: seq<Range>, blocks: map<nat, nat>, sizes: map<nat, nat>, live: set<nat>, id: nat)
    requires IdsOk(m, ranges, blocks, sizes, live) && id in live && id in blocks
    ensures forall i :: i in live && i != id && i in blocks ==> blocks[i] != blocks[id]
  {
    hide FilledWith;
  }

  lemma RangesDistinct(b: Blocks, ranges: seq<Range>)
    requires RangesOk(b, ranges)
    ensures Distinct(ranges)
  {
  }

  lemma NothingRecorded(b: Blocks, m: seq<U32>, blocks: map<nat, nat>, sizes: map<nat, nat>)
    ensures RangesOk(b, []) && IdsOk(m, [], blocks, sizes, {})
  {
  }

  datatype Outcome = Fine | NoMemory | Overlap | Lost

  class Driver {
    const heap: Heap
    var ranges: seq<Range>
    var blocks: map<nat, nat>
    var sizes: map<nat, nat>

    constructor (heap: Heap)
      ensures this.heap == heap && ranges == []
    {
      this.heap := heap;
      ranges := [];
      blocks := map[];
      sizes := map[];
    }

    /** The allocator is in order, and so are the driver's records of the ids in live. */
    ghost predicate Tracks(live: set<nat>)
      reads this, heap, heap.mem
    {
      && heap.Valid() && RangesOk(heap.b, ranges)
      && IdsOk(heap.mem[..], ranges, blocks, sizes, live)
    }

    /** The block just recorded for a resizing to the given size holds the bytes that the id was filled with. */
    ghost predicate KeptBytes(id: nat, size: nat)
      requires id in sizes
      reads this, heap, heap.mem
    {
      && ranges != [] && ranges[0].lo >= 0
      && FilledWith(heap.mem[..], ranges[0].lo / 4, if size < sizes[id] then size else sizes[id], id % 256)
    }

    /** `add_range`: alignment, heap bounds, and overlap with the recorded payloads. */
    method AddRange(lo: int, size: int) returns (ok: bool)
      requires 0 < size
      modifies this`ranges
      ensures ok <==> RangeClear(old(ranges), heap.brk, lo, size)
      ensures ranges == if ok then [Range(lo, lo + size - 1)] + old(ranges) else old(ranges)
    {
      var hi := lo + size - 1;
      if lo % 8 != 0 {
        return false;
      }
      if lo < 0 || lo > 4 * heap.brk - 1 || hi < 0 || hi > 4 * heap.brk - 1 {
        return false;
      }
      for i := 0 to |ranges|
        invariant ranges == old(ranges)
        invariant forall j :: 0 <= j < i ==> !Meets(ranges[j], lo, hi)
      {
        var p := ranges[i];
        if (lo >= p.lo && lo <= p.hi) || (hi >= p.lo && hi <= p.hi) {
          assert p in ranges && Meets(p, lo, hi);
          return false;
        }
      }
      ranges := [Range(lo, hi)] + ranges;
      return true;
    }

    /** `remove_range` */
    method RemoveRange(lo: int)
      modifies this`ranges
      ensures ranges == Without(old(ranges), lo)
    {
      var i := 0;
      while i < |ranges|
        invariant 0 <= i <= |ranges| && ranges == old(ranges)
        invariant Without(ranges, lo) == ranges[..i] + Without(ranges[i..], lo)
      {
        if ranges[i].lo == lo {
          ranges := ranges[..i] + ranges[i + 1..];
          return;
        }
        i := i + 1;
      }
      assert ranges[..i] == ranges;
    }

    /** An allocation request of the trace. */
    method DoAlloc(id: nat, size: nat, ghost live: set<nat>) returns (res: Outcome)
      requires Tracks(live) && size <= MAX_REQUEST
      modifies this, heap, heap.mem
      ensures res.Fine? || res.NoMemory?
      ensures res.Fine? ==> Tracks(live + {id})
      ensures res.NoMemory? ==> Refused(heap.b, heap.brk, heap.mem.Length, size)
      ensures NoAdjacentFree(old(heap.b)) ==> NoAdjacentFree(heap.b)
    {
      hide NoAdjacentFree, Tiles, Tags, Lists, AllBut, Malloced, RangeOk, Refused, IdsOk, FilledWith, KeptAt,
           RangeClear, Distinct;
      ghost var m0, b0, end0, ranges0 := heap.mem[..], heap.b, heap.brk, ranges;
      var p := heap.Malloc(size);
      if NoAdjacentFree(b0) {
        MallocKeepsCoalesced(b0, end0, heap.mem.Length, size, heap.b, heap.brk, p);
      }
      if p == NULL {
        MallocNull(b0, end0, heap.mem.Length, size, heap.b, heap.brk);
        return NoMemory;
      }
      ghost var m1, b1 := heap.mem[..], heap.b;
      MallocDelivers(b0, end0, heap.mem.Length, size, b1, heap.brk, p);
      DeliveredApart(b0, end0, b1, heap.brk, p);
      RecordedApart(b0, ranges, p);
      RecordsStay(m0, b0, m1, b1, ranges, ranges, p, p);
      IdsApart(b0, ranges, m0, blocks, sizes, live, p);
      NewRangeClear(b1, heap.brk, ranges, p, size);
      var ok := AddRange(4 * p, size);
      Fill(heap, p, size, id % 256);
      Rerecorded(m0, b0, end0, m1, b1, heap.mem[..], ranges0, ranges0, blocks, sizes, live, id, p, p, size);
      blocks := blocks[id := p];
      sizes := sizes[id := size];
      return if ok then Fine else Overlap;
    }

    /** The second half of a resizing, once the allocator has moved block op to p: the range is recorded anew, the old
        bytes are checked, and the block is filled again. */
    method Rerecord(id: nat, op: nat, p: nat, size: nat, ghost m0: seq<U32>, ghost b0: Blocks, ghost end0: nat,
                    ghost live: set<nat>) returns (res: Outcome)
      requires Tiles(b0, end0) && end0 <= |m0| && RangesOk(b0, ranges) && IdsOk(m0, ranges, blocks, sizes, live)
      requires id in live && id in blocks && id in sizes && blocks[id] == op && 0 < sizes[id]
      requires heap.Valid() && LiveAt(heap.b, p) && 0 < size <= 4 * (heap.b[p].words - 2)
      requires forall q {:trigger KeptAt(m0, b0, heap.mem[..], heap.b, q)} ::
                 q in b0 && b0[q].alloc && q != op ==> KeptAt(m0, b0, heap.mem[..], heap.b, q)
      requires forall q {:trigger b0[q]} :: q in b0 && b0[q].alloc && q != op ==> q != p
      requires var n := if size < sizes[id] then size else sizes[id];
               FilledWith(heap.mem[..], p, n, id % 256) && p + (n + 3) / 4 <= heap.mem.Length
      modifies this, heap.mem
      ensures res.Fine? || res.Lost?
      ensures res.Fine? ==> Tracks(live) && id % 256 < 128
      ensures res.Lost? ==> id % 256 >= 128 && id in sizes && KeptBytes(id, size)
    {
      hide Tiles, Tags, Lists, AllBut, RangeOk, FilledWith, KeptAt, RangeClear, Distinct, RangesOk, IdsOk;
      ghost var ranges0, m1 := ranges, heap.mem[..];
      OtherIds(m0, ranges0, blocks, sizes, live, id);
      RemoveRange(4 * op);
      RangesDistinct(b0, ranges0);
      WithoutMembers(ranges0, 4 * op);
      ghost var ranges1 := ranges;
      RecordsStay(m0, b0, m1, heap.b, ranges0, ranges1, op, p);
      NewRangeClear(heap.b, heap.brk, ranges1, p, size);
      var ok := AddRange(4 * p, size);
      var oldsize := if size < sizes[id] then size else sizes[id];
      var kept := StillFilled(heap, p, oldsize, id % 256);
      if !kept {
        assert ranges[0] == Extent(p, size);
        return Lost;
      }
      Fill(heap, p, size, id % 256);
      Rerecorded(m0, b0, end0, m1, heap.b, heap.mem[..], ranges0, ranges1, blocks, sizes, live, id, op, p, size);
      assert live + {id} == live;
      blocks := blocks[id := p];
      sizes := sizes[id := size];
      return if ok then Fine else Overlap;
    }

    /** A resizing request. */
    method DoResize(id: nat, size: nat, ghost live: set<nat>) returns (res: Outcome)
      requires Tracks(live) && id in live && size <= MAX_REQUEST
      modifies this, heap, heap.mem
      ensures !res.Overlap?
      ensures res.Fine? ==> Tracks(live) && id % 256 < 128
      ensures res.Lost? ==> id % 256 >= 128 && id in sizes && KeptBytes(id, size)
      ensures res.NoMemory? ==> Refused(heap.b, heap.brk, heap.mem.Length, size)
      ensures id in old(blocks) && old(blocks)[id] in old(heap.b)
      ensures NoAdjacentFree(old(heap.b)) ==>
                (NoAdjacentFree(heap.b) <==> !ShrinksBeforeFree(old(heap.b), old(blocks)[id], size))
    {
      hide NoAdjacentFree, ShrinksBeforeFree, Tiles, Tags, Lists, AllBut, Realloced, RangeOk, Refused, FilledWith, KeptAt,
           RangesOk, IdsOk, ReallocKeeps;
      ghost var m0, b0, end0 := heap.mem[..], heap.b, heap.brk;
      KnownId(m0, ranges, blocks, sizes, live, id);
      RecordedLive(b0, ranges, m0, blocks, sizes, id);
      var op := blocks[id];
      var p := heap.Realloc(op, size);
      if NoAdjacentFree(b0) {
        ReallocCoalescesUnlessShrinking(b0, end0, heap.mem.Length, op, size, heap.b, heap.brk, p);
      }
      if p == NULL {
        ReallocNull(b0, end0, heap.mem.Length, op, size, heap.b, heap.brk);
        return NoMemory;
      }
      ResizedApart(b0, end0, heap.mem.Length, op, size, heap.b, heap.brk, p);
      StillThere(m0, b0, end0, op, sizes[id], size, heap.mem[..], p, id % 256);
      res := Rerecord(id, op, p, size, m0, b0, end0, live);
    }

    /** A release. */
    method DoRelease(id: nat, ghost live: set<nat>)
      requires Tracks(live) && id in live
      modifies this, heap, heap.mem
      ensures Tracks(live - {id})
      ensures NoAdjacentFree(old(heap.b)) ==> NoAdjacentFree(heap.b)
    {
      hide NoAdjacentFree, Tiles, Tags, Lists, AllBut, RangeOk, FilledWith, KeptAt, Distinct, Freed;
      ghost var m0, b0, end0, ranges0 := heap.mem[..], heap.b, heap.brk, ranges;
      assert IdOk(m0, ranges, blocks, sizes, id);
      RecordedLive(b0, ranges, m0, blocks, sizes, id);
      var p := blocks[id];
      RemoveRange(4 * p);
      WithoutMembers(ranges0, 4 * p);
      heap.Free(p);
      if NoAdjacentFree(b0) {
        FreeCoalesces(b0, end0, p, heap.b);
      }
      RecordsStay(m0, b0, heap.mem[..], heap.b, ranges0, ranges, p, p);
      ghost var rest := live - {id};
      forall i | i in rest
        ensures IdOk(m0, ranges0, blocks, sizes, i)
      {
        assert i in live;
      }
      IdsKept(m0, b0, end0, heap.mem[..], heap.b, ranges0, ranges, blocks, sizes, rest, p);
    }

    /** `eval_mm_valid`. WHAT THE CHECK FINDS. For every trace, no range is ever bad. The run ends before the first
        resizing of a block with a filling of 128 or more only for too little memory: for the first chunk, or at a
        request of size 0 or one that no memory is left for. It ends at that resizing, unless that is refused itself,
        with the claim that bytes were lost, although they are all there. A trace without one is accepted unless memory
        fails. Without resizing, no two neighbouring blocks are both free at the end. */
    method EvalMmValid(trace: seq<Op>) returns (v: Verdict)
      requires WellFormed(trace, {}) && heap.mem.Length < 0x2000_0000
      modifies this, heap, heap.mem
      ensures v.InitFailed? <==> heap.mem.Length < 1044
      ensures !v.BadRange?
      ensures v.MallocFailed? ==> 0 <= v.op < FirstUnrecognized(trace) <= |trace| && trace[v.op].Alloc?
      ensures v.MallocFailed? ==> Refused(heap.b, heap.brk, heap.mem.Length, trace[v.op].size)
      ensures v.ReallocFailed? ==> 0 <= v.op <= FirstUnrecognized(trace) && v.op < |trace| && trace[v.op].Resize?
      ensures v.ReallocFailed? ==> Refused(heap.b, heap.brk, heap.mem.Length, trace[v.op].size)
      ensures v.LostData? <==> !v.InitFailed? && !v.MallocFailed? && !v.ReallocFailed? && FirstUnrecognized(trace) < |trace|
      ensures v.LostData? ==> v.op == FirstUnrecognized(trace) < |trace| && trace[v.op].Resize?
      ensures v.LostData? ==> trace[v.op].id in sizes && KeptBytes(trace[v.op].id, trace[v.op].size)
      ensures v.Accepted? ==> FirstUnrecognized(trace) == |trace| && heap.Valid()
      ensures !v.InitFailed? && NoResize(trace) ==> NoAdjacentFree(heap.b)
    {
      hide NoAdjacentFree, ShrinksBeforeFree, Refused, RangesOk, IdsOk, KeptBytes;
      heap.brk := 0;
      ranges := [];
      var r := heap.Init();
      if r < 0 {
        return InitFailed;
      }
      ghost var live: set<nat> := {};
      assert Tracks(live) by { NothingRecorded(heap.b, heap.mem[..], blocks, sizes); }
      for i := 0 to |trace|
        invariant Tracks(live) && WellFormed(trace[i..], live)
        invariant NoResize(trace) ==> NoAdjacentFree(heap.b)
        invariant forall j :: 0 <= j < i ==> !Unrecognized(trace[j])
      {
        FirstAfter(trace, i);
        assert trace[i..][0] == trace[i] && trace[i..][1..] == trace[i + 1..];
        match trace[i] {
        case Alloc(id, size) =>
          var res := DoAlloc(id, size, live);
          FirstAfter(trace, i + 1);
          if res != Fine {
            return if res.NoMemory? then MallocFailed(i) else BadRange(i);
          }
        case Resize(id, size) =>
          var res := DoResize(id, size, live);
          if res != Fine {
            if res.Lost? {
              FirstIs(trace, i);
            }
            return if res.NoMemory? then ReallocFailed(i) else if res.Overlap? then BadRange(i) else LostData(i);
          }
        case Release(id) =>
          DoRelease(id, live);
        }
        live := Next(trace[i], live);
      }
      FirstIs(trace, |trace|);
      return Accepted;
    }

    /** One request and its resizing under id 439, as in the trace `bash.rep`, are never accepted. */
    method ResizeUnderId439() returns (v: Verdict)
      requires heap.mem.Length < 0x2000_0000
      modifies this, heap, heap.mem
      ensures !v.Accepted?
      ensures v.InitFailed? || v == LostData(1) || Refused(heap.b, heap.brk, heap.mem.Length, 568)
              || Refused(heap.b, heap.brk, heap.mem.Length, 544)
    {
      hide Refused, KeptBytes;
      var trace := [Alloc(439, 544), Resize(439, 568)];
      assert WellFormed(trace, {}) by {
        assert trace[1..] == [Resize(439, 568)] && trace[1..][1..] == [];
      }
      FirstIs(trace, 1);
      v := EvalMmValid(trace);
    }
  }

  /** The driver's own test: it misses the case that the new payload lies around an old one. */
  predicate Meets(p: Range, lo: int, hi: int) {
    (p.lo <= lo <= p.hi) || (p.lo <= hi <= p.hi)
  }

  predicate RangeClear(ranges: seq<Range>, brk: int, lo: int, size: int) {
    && lo % 8 == 0 && 0 <= lo < 4 * brk && 0 <= lo + size - 1 < 4 * brk
    && forall r :: r in ranges ==> !Meets(r, lo, lo + size - 1)
  }

  /** Some byte of the new payload is recorded already, lies outside the heap, or the payload is not aligned. */
  ghost predicate BadPayload(ranges: seq<Range>, brk: int, lo: int, size: int) {
    || lo % 8 != 0 || lo < 0 || 4 * brk < lo + size
    || exists r :: r in ranges && SharesByte(r, lo, size)
  }

  predicate Within(lo: int, x: int, hi: int) { lo <= x <= hi }

  ghost predicate SharesByte(r: Range, lo: int, size: int) { exists x :: Within(r.lo, x, r.hi) && Within(lo, x, lo + size - 1) }

  /** The payload reaches beyond a recorded one on both sides. */
  predicate Around(r: Range, lo: int, size: int) { lo < r.lo && r.hi < lo + size - 1 }

  lemma SharesIff(r: Range, lo: int, size: int)
    requires r.lo <= r.hi && 0 < size
    ensures SharesByte(r, lo, size) <==> Meets(r, lo, lo + size - 1) || Around(r, lo, size)
  {
    if Meets(r, lo, lo + size - 1) || Around(r, lo, size) {
      var x := if r.lo <= lo <= r.hi then lo else if r.lo <= lo + size - 1 <= r.hi then lo + size - 1 else r.lo;
      assert Within(r.lo, x, r.hi) && Within(lo, x, lo + size - 1);
    }
  }

  /** WHAT THE RANGE TEST CATCHES: a bad payload is let through exactly if its only fault is to lie around recorded ones. */
  lemma TestMisses(ranges: seq<Range>, brk: int, lo: int, size: int)
    requires 0 < size && forall r :: r in ranges ==> r.lo <= r.hi
    ensures RangeClear(ranges, brk, lo, size) && BadPayload(ranges, brk, lo, size) <==>
            && lo % 8 == 0 && 0 <= lo && lo + size <= 4 * brk && (exists r :: r in ranges && Around(r, lo, size))
            && forall r :: r in ranges && SharesByte(r, lo, size) ==> Around(r, lo, size)
    ensures !BadPayload(ranges, brk, lo, size) ==> RangeClear(ranges, brk, lo, size)
  {
    hide SharesByte, Meets, Around;
    forall r | r in ranges
      ensures SharesByte(r, lo, size) <==> Meets(r, lo, lo + size - 1) || Around(r, lo, size)
      ensures !(Meets(r, lo, lo + size - 1) && Around(r, lo, size))
    {
      SharesIff(r, lo, size);
      NotBoth(r, lo, size);
    }
  }

  lemma NotBoth(r: Range, lo: int, size: int)
    ensures !(Meets(r, lo, lo + size - 1) && Around(r, lo, size))
  {
  }
}
