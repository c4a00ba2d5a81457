/** No two neighbouring blocks are both free: what keeps this and what does not. */
module Coalescing {
  import opened SizeClass
  import opened HeapSpec
  import opened HeapMem
  import opened Allocator

  /** The only neighbours that may both be free are p and the blocks next to it. */
  ghost predicate OnlyAround(b: Blocks, p: nat) {
    forall q: nat {:trigger IsFree(b, q)} ::
      IsFree(b, q) && q != p && q + b[q].words != p ==> !IsFree(b, q + b[q].words)
  }

  lemma OneBefore(b: Blocks, end: nat, q: nat, p: nat)
    requires Tiles(b, end) && q in b && p in b && q + b[q].words == p && HasPrev(b, p)
    ensures Before(b, p) == q
  {
    hide Tiles;
    var r := Before(b, p);
    if r != q {
      BlocksApart(b, end, q, r);
      AnyFacts(b, end, q);
      AnyFacts(b, end, r);
    }
  }

  /** Coalescing the one suspect block leaves no two free neighbours. */
  lemma CoalescingSettles(b: Blocks, end: nat, p: nat)
    requires Tiles(b, end) && IsFree(b, p) && HasPrev(b, p) && OnlyAround(b, p)
    ensures 0 < b[p].words && NoAdjacentFree(Coalesced(b, p))
  {
    hide Tiles, Coalesced, OnlyAround;
    AnyFacts(b, end, p);
    var b' := Coalesced(b, p);
    forall x: nat | IsFree(b', x)
      ensures !IsFree(b', x + b'[x].words)
    {
      SettledAt(b, end, p, x);
    }
  }

  lemma AroundAt(b: Blocks, p: nat, x: nat)
    requires OnlyAround(b, p) && IsFree(b, x) && x != p && x + b[x].words != p
    ensures !IsFree(b, x + b[x].words)
  {
  }

  lemma SettledAt(b: Blocks, end: nat, p: nat, x: nat)
    requires Tiles(b, end) && IsFree(b, p) && HasPrev(b, p) && OnlyAround(b, p) && 0 < b[p].words
    requires IsFree(Coalesced(b, p), x)
    ensures var b' := Coalesced(b, p); !IsFree(b', x + b'[x].words)
  {
    hide Tiles, Coalesced, CoalescedAt, OnlyAround;
    var b', r := Coalesced(b, p), CoalescedAt(b, p);
    CoalescedTiles(b, end, p);
    AnyFacts(b', end, x);
    var y := x + b'[x].words;
    CoalescedShapeAt(b, end, p, x);
    CoalescedShapeAt(b, end, p, y);
    if x != r {
      AroundAt(b, p, x);
      if y == r {
        SuspectFree(b, p);
      }
    }
  }

  /** The coalesced block starts where a free one did. */
  lemma SuspectFree(b: Blocks, p: nat)
    requires IsFree(b, p) && HasPrev(b, p)
    ensures CoalescedAt(b, p) == p || IsFree(b, CoalescedAt(b, p))
  {
  }

  lemma CoalescedShapeAt(b: Blocks, end: nat, p: nat, x: nat)
    requires Tiles(b, end) && IsFree(b, p) && HasPrev(b, p) && OnlyAround(b, p) && 0 < b[p].words
    ensures var b', r := Coalesced(b, p), CoalescedAt(b, p);
            && r in b' && !IsFree(b, r + b'[r].words)
            && (x in b' && x != r ==>
                  x in b && b'[x] == b[x] && (IsFree(b, x) ==> x != p && x + b[x].words != p))
  {
    hide Tiles, Coalesced, CoalescedAt, OnlyAround;
    CoalescedShape(b, end, p);
  }

  /** The coalesced block ends where no free block starts; the others are old ones. */
  lemma CoalescedShape(b: Blocks, end: nat, p: nat)
    requires Tiles(b, end) && IsFree(b, p) && HasPrev(b, p) && OnlyAround(b, p) && 0 < b[p].words
    ensures var b', r := Coalesced(b, p), CoalescedAt(b, p);
            && r in b' && !IsFree(b, r + b'[r].words)
            && (forall x {:trigger x in b'} :: x in b' && x != r ==>
                  x in b && b'[x] == b[x] && (IsFree(b, x) ==> x != p && x + b[x].words != p))
  {
    hide Tiles;
    var n, q := p + b[p].words, Before(b, p);
    FreeFacts(b, end, p);
    AnyFacts(b, end, q);
    if IsFree(b, n) {
      FreeFacts(b, end, n);
    }
    forall x: nat | IsFree(b, x) && x + b[x].words == p
      ensures x == q
    {
      OneBefore(b, end, x, p);
    }
  }

  /** `mm_free` leaves no two free neighbours. */
  lemma FreeCoalesces(b: Blocks, end: nat, p: nat, b': Blocks)
    requires Tiles(b, end) && NoAdjacentFree(b) && p in b && b[p].alloc && p != FIRST && Freed(b, p, b')
    ensures NoAdjacentFree(b')
  {
    hide Tiles, Coalesced;
    var c := Mark(b, p, false);
    MarkTiles(b, end, p, false);
    forall q: nat | IsFree(c, q) && q != p && q + c[q].words != p
      ensures !IsFree(c, q + c[q].words)
    {
      assert IsFree(b, q);
    }
    CoalescingSettles(c, end, p);
  }

  /** Placing a request in a free block keeps its neighbours apart: the remainder follows an allocated block and precedes
      what the whole block preceded. */
  lemma PlacingKeepsApart(b: Blocks, end: nat, p: nat, w: nat)
    requires Tiles(b, end) && NoAdjacentFree(b) && IsFree(b, p) && 4 <= w <= b[p].words
    ensures NoAdjacentFree(Placed(b, p, w))
  {
    hide Tiles;
    FreeFacts(b, end, p);
    var b' := Placed(b, p, w);
    if b[p].words - w >= 4 {
      SplitFresh(b, end, p, w);
    }
    forall x: nat | IsFree(b', x)
      ensures !IsFree(b', x + b'[x].words)
    {
      assert !IsFree(b, p + b[p].words);
      if x in b && x != p {
        assert IsFree(b, x);
        if x + b[x].words == p + w {
          BlocksApart(b, end, x, p);
          AnyFacts(b, end, x);
        }
      }
    }
  }

  lemma GrowingCoalesces(b: Blocks, end: nat, w: nat, g: Blocks, r: int)
    requires Tiles(b, end) && NoAdjacentFree(b) && 4 <= w && w % 2 == 0 && Grown(b, end, w, g, r)
    ensures NoAdjacentFree(g)
  {
    hide Tiles, Coalesced;
    var e := Extend(b, end, w);
    EndEven(b, end);
    ExtendTiles(b, end, w);
    forall q: nat | IsFree(e, q) && q != end && q + e[q].words != end
      ensures !IsFree(e, q + e[q].words)
    {
      assert IsFree(b, q);
    }
    assert IsFree(e, end);
    CoalescingSettles(e, end + w, end);
  }

  /** `mm_malloc` leaves no two free neighbours. */
  lemma MallocKeepsCoalesced(b: Blocks, end: nat, capacity: nat, size: nat, b': Blocks, end': nat, r: int)
    requires Tiles(b, end) && NoAdjacentFree(b) && Malloced(b, end, capacity, size, b', end', r)
    ensures NoAdjacentFree(b')
  {
    hide Tiles, Placed, Grown, NoAdjacentFree, BestFit;
    if size > 0 {
      var asize := Adjusted(size);
      var w := (if asize > CHUNKSIZE then asize else CHUNKSIZE) / 4;
      if !BestFit(b, asize, NULL) {
        if r != NULL {
          BestFits(b, asize, r);
          PlacingKeepsApart(b, end, r, asize / 4);
        }
      } else if end + w <= capacity {
        var g: Blocks :| Grown(b, end, w, g, r) && r in g && asize / 4 <= g[r].words && b' == Placed(g, r, asize / 4);
        GrownTiles(b, end, w, g, r);
        GrowingCoalesces(b, end, w, g, r);
        assert IsFree(g, r) by { GrownFits(b, end, w, g, r, end + w); }
        PlacingKeepsApart(g, end + w, r, asize / 4);
      }
    }
  }

  /** A reallocation gives back the end of the block, and a free block follows it. */
  predicate ShrinksBeforeFree(b: Blocks, p: nat, size: nat)
    requires p in b
  {
    0 < size && Adjusted(size) + 16 <= 4 * b[p].words && IsFree(b, p + b[p].words)
  }

  /** SHRINKING DOES NOT COALESCE: `mm_realloc` leaves two free neighbours exactly when it gives back the end of a block
      that a free block follows. */
  lemma ReallocCoalescesUnlessShrinking(b: Blocks, end: nat, capacity: nat, p: nat, size: nat, b': Blocks, end': nat, r: int)
    requires Tiles(b, end) && NoAdjacentFree(b) && p in b && b[p].alloc && p != FIRST
    requires Realloced(b, end, capacity, p, size, b', end', r)
    ensures NoAdjacentFree(b') <==> !ShrinksBeforeFree(b, p, size)
  {
    hide Tiles, NoAdjacentFree, Malloced, Freed, Placed, Merge, Split;
    AnyFacts(b, end, p);
    if size == 0 {
      FreeCoalesces(b, end, p, b');
    } else if size + 8 <= 4 * b[p].words {
      if Adjusted(size) + 16 <= 4 * b[p].words {
        ShrinkingSplits(b, end, p, Adjusted(size) / 4);
      }
    } else if Absorbs(b, p, size) {
      MergeShape(b, p);
      AbsorbingKeepsApart(b, end, p, Adjusted(size) / 4);
    } else if r == NULL {
      MallocKeepsCoalesced(b, end, capacity, size, b', end', NULL);
    } else {
      var g: Blocks :| Malloced(b, end, capacity, size, g, end', r) && p in g && Freed(g, p, b');
      MallocKeepsCoalesced(b, end, capacity, size, g, end', r);
      MallocedTiles(b, end, capacity, size, g, end', r);
      MallocedKeepsBlock(b, end, capacity, size, g, end', r, p);
      FreeCoalesces(g, end', p, b');
    }
  }

  lemma ShrinkingSplits(b: Blocks, end: nat, p: nat, w: nat)
    requires Tiles(b, end) && NoAdjacentFree(b) && p in b && b[p].alloc && p != FIRST && 4 <= w && w + 4 <= b[p].words
    ensures NoAdjacentFree(Split(b, p, w, true, false)) <==> !IsFree(b, p + b[p].words)
  {
    hide Tiles;
    var b', next := Split(b, p, w, true, false), p + b[p].words;
    SplitFresh(b, end, p, w);
    assert IsFree(b', p + w) && p + w + b'[p + w].words == next;
    if IsFree(b, next) {
      assert IsFree(b', next);
    } else {
      forall x: nat | IsFree(b', x)
        ensures !IsFree(b', x + b'[x].words)
      {
        if x in b && x != p {
          assert IsFree(b, x);
          if x + b[x].words == p + w {
            BlocksApart(b, end, x, p);
            AnyFacts(b, end, x);
          }
        }
      }
    }
  }

  lemma AbsorbingKeepsApart(b: Blocks, end: nat, p: nat, w: nat)
    requires Tiles(b, end) && NoAdjacentFree(b) && p in b && b[p].alloc && p != FIRST && IsFree(b, p + b[p].words)
    requires p in Merge(b, p) && 4 <= w <= Merge(b, p)[p].words
    ensures NoAdjacentFree(Placed(Merge(b, p), p, w))
  {
    hide Tiles, Merge;
    var next, g := p + b[p].words, Merge(b, p);
    FreeFacts(b, end, next);
    AnyFacts(b, end, p);
    MergeTiles(b, end, p);
    MergeShape(b, p);
    var b' := Placed(g, p, w);
    if g[p].words - w >= 4 {
      SplitFresh(g, end, p, w);
    }
    forall x: nat | IsFree(b', x)
      ensures !IsFree(b', x + b'[x].words)
    {
      assert !IsFree(b, next + b[next].words);
      if x in g && x != p {
        assert IsFree(b, x);
        if x + g[x].words == p + w {
          BlocksApart(g, end, x, p);
          AnyFacts(g, end, x);
        }
      }
    }
  }

  lemma MergeShape(b: Blocks, p: nat)
    requires p in b && p + b[p].words in b && 0 < b[p].words
    ensures var g, next := Merge(b, p), p + b[p].words;
            && p in g && g[p] == Block(b[p].words + b[next].words, false)
            && forall x {:trigger x in g} {:trigger IsFree(g, x)} :: x in g && x != p ==> x in b && g[x] == b[x] && x != next
  {
  }

  lemma MallocedTiles(b: Blocks, end: nat, capacity: nat, size: nat, b': Blocks, end': nat, r: int)
    requires Tiles(b, end) && Malloced(b, end, capacity, size, b', end', r)
    ensures Tiles(b', end')
  {
    hide Tiles, Placed, Grown, BestFit;
    if size > 0 {
      var asize := Adjusted(size);
      var w := (if asize > CHUNKSIZE then asize else CHUNKSIZE) / 4;
      if !BestFit(b, asize, NULL) {
        if r != NULL {
          BestFits(b, asize, r);
          FreeFacts(b, end, r);
          PlacedTiles(b, end, r, asize / 4);
        }
      } else if end + w <= capacity {
        var g: Blocks :| Grown(b, end, w, g, r) && r in g && asize / 4 <= g[r].words && b' == Placed(g, r, asize / 4);
        GrownTiles(b, end, w, g, r);
        GrownFits(b, end, w, g, r, end + w);
        FreeFacts(g, end + w, r);
        PlacedTiles(g, end + w, r, asize / 4);
      }
    }
  }

  /** A request leaves every live block in place. */
  lemma MallocedKeepsBlock(b: Blocks, end: nat, capacity: nat, size: nat, b': Blocks, end': nat, r: int, p: nat)
    requires Tiles(b, end) && Malloced(b, end, capacity, size, b', end', r) && p in b && b[p].alloc
    ensures p in b' && b'[p] == b[p]
  {
    hide Tiles, Grown, BestFit;
    if size > 0 {
      var asize := Adjusted(size);
      var w := (if asize > CHUNKSIZE then asize else CHUNKSIZE) / 4;
      if !BestFit(b, asize, NULL) {
        if r != NULL {
          BestFits(b, asize, r);
          FreeFacts(b, end, r);
          PlacedKeeps(b, end, r, asize / 4, p);
        }
      } else if end + w <= capacity {
        var g: Blocks :| Grown(b, end, w, g, r) && r in g && asize / 4 <= g[r].words && b' == Placed(g, r, asize / 4);
        GrownTiles(b, end, w, g, r);
        GrownFits(b, end, w, g, r, end + w);
        GrownKeepsLives(b, end, w, g, r);
        PlacedKeeps(g, end + w, r, asize / 4, p);
      }
    }
  }

  lemma PlacedKeeps(b: Blocks, end: nat, r: nat, w: nat, p: nat)
    requires Tiles(b, end) && IsFree(b, r) && 0 < w <= b[r].words && p in b && b[p].alloc
    ensures p in Placed(b, r, w) && Placed(b, r, w)[p] == b[p]
  {
    hide Tiles;
    if b[r].words - w >= 4 {
      SplitFresh(b, end, r, w);
    }
  }

  /** The smallest such heap: 24 bytes live at word 20 and free space after them. Shrinking to 8 bytes leaves words 24
      and 28 the starts of two free neighbours. */
  lemma ShrinkingLeavesFreeNeighbours() returns (b: Blocks, b': Blocks)
    ensures Tiles(b, 1044) && NoAdjacentFree(b) && 20 in b && b[20].alloc
    ensures Realloced(b, 1044, 0x50_0000, 20, 8, b', 1044, 20)
    ensures IsFree(b', 24) && b'[24].words == 4 && IsFree(b', 28)
  {
    hide Tiles;
    b := map[FIRST := Block(2, true), 20 := Block(8, true), 28 := Block(1016, false)];
    SmallHeap();
    b' := Split(b, 20, 4, true, false);
  }

  lemma SmallHeap()
    ensures Tiles(map[FIRST := Block(2, true), 20 := Block(8, true), 28 := Block(1016, false)], 1044)
  {
    var c: Blocks := map[FIRST := Block(2, true)];
    assert FIRST in c && FIRST + c[FIRST].words == 20;
    assert HasPrev(c, 20);
    assert Tiles(c, 20);
    SmallHeapGrown(c);
  }

  lemma SmallHeapGrown(c: Blocks)
    requires c == map[FIRST := Block(2, true)] && Tiles(c, 20)
    ensures Tiles(map[FIRST := Block(2, true), 20 := Block(8, true), 28 := Block(1016, false)], 1044)
  {
    hide Tiles;
    ExtendTiles(c, 20, 1024);
    var d := Extend(c, 20, 1024);
    SplitTiles(d, 1044, 20, 8, true, false);
    assert Split(d, 20, 8, true, false) == map[FIRST := Block(2, true), 20 := Block(8, true), 28 := Block(1016, false)];
  }

  /** Payloads of two live blocks never share a byte; all are 8-byte aligned and inside the heap. */
  lemma PayloadsApart(b: Blocks, end: nat, p: nat, q: nat)
    requires Tiles(b, end) && p in b && q in b && p != q
    ensures (4 * p) % 8 == 0 && 0 <= 4 * p && 4 * p + 4 * (b[p].words - 2) < 4 * end
    ensures 4 * p + 4 * (b[p].words - 2) <= 4 * q - 8 || 4 * q + 4 * (b[q].words - 2) <= 4 * p - 8
  {
    hide Tiles;
    BlocksApart(b, end, p, q);
    AnyFacts(b, end, p);
    AnyFacts(b, end, q);
  }

  // ---- the plain heap walk

  /** r is the lowest free block that fits; NULL if there is none. */
  ghost predicate LowestFit(b: Blocks, asize: nat, r: int) {
    if r == NULL then forall p {:trigger Fitting(b, p, asize)} :: !Fitting(b, p, asize)
    else
      0 <= r && Fitting(b, r, asize) && forall q {:trigger Fitting(b, q, asize)} :: Fitting(b, q, asize) ==> r <= q
  }

  /** The textbook `find_fit`: walk all blocks from the prologue to the epilogue. */
  method WalkFit(h: Heap, asize: nat) returns (r: int)
    requires h.Formed() && 0 < asize
    ensures LowestFit(h.b, asize, r)
  {
    hide Tiles, Tags, Lists;
    FirstThere(h.b, h.brk);
    h.TagReads(FIRST);
    forall q | Fitting(h.b, q, asize)
      ensures FIRST <= q
    {
      AnyFacts(h.b, h.brk, q);
    }
    var bp: nat := FIRST;
    while h.SizeAt(bp - 1) > 0
      invariant FIRST <= bp <= h.brk <= h.mem.Length
      invariant bp in h.b || bp == h.brk
      invariant forall q {:trigger Fitting(h.b, q, asize)} :: Fitting(h.b, q, asize) ==> bp <= q
      decreases h.brk - bp
    {
      if bp == h.brk { Epilogue(h); }
      h.TagReads(bp);
      if !h.AllocAt(bp - 1) && h.SizeAt(bp - 1) >= asize {
        return bp;
      }
      AnyFacts(h.b, h.brk, bp);
      forall q | Fitting(h.b, q, asize)
        ensures bp + h.b[bp].words <= q
      {
        BlocksApart(h.b, h.brk, bp, q);
        AnyFacts(h.b, h.brk, q);
      }
      bp := bp + h.SizeAt(bp - 1) / 4;
    }
    if bp in h.b { h.TagReads(bp); }
    forall q | Fitting(h.b, q, asize)
      ensures false
    {
      AnyFacts(h.b, h.brk, q);
    }
    return NULL;
  }

  lemma FirstThere(b: Blocks, end: nat)
    requires Tiles(b, end)
    ensures FIRST in b && FIRST < end
  {
    EndEven(b, end);
  }

  lemma Epilogue(h: Heap)
    requires h.Formed()
    ensures FIRST < h.brk <= h.mem.Length && h.SizeAt(h.brk - 1) == 0
  {
    hide Tiles, Lists;
  }

  /** THE LISTS AGREE WITH THE WALK: searching the size classes finds a block exactly when walking the whole heap does,
      and never a larger one. */
  method FindBoth(h: Heap, asize: U32) returns (best: int, lowest: int)
    requires h.Valid() && 16 <= asize
    ensures best == NULL <==> lowest == NULL
    ensures best != NULL ==> best in h.b && lowest in h.b && h.b[best].words <= h.b[lowest].words
    ensures best != NULL && h.b[best].words == h.b[lowest].words ==> best == lowest
  {
    hide Tiles, Tags, Lists, AllBut;
    best := h.FindFit(asize);
    lowest := WalkFit(h, asize);
    assert best != NULL ==> Fitting(h.b, best, asize);
    assert lowest != NULL ==> Fitting(h.b, lowest, asize);
  }
}
