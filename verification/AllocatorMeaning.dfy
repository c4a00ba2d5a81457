/** What the allocator's interface promises, in bytes: how large the blocks are, when a request fails, and when a block
    stays where it is. */
module AllocatorMeaning {
  import Arith
  import opened HeapSpec
  import opened HeapMem
  import opened Allocator
  import Coalescing

  /** A block of k bytes can hold the payload and two tags. */
  predicate Roomy(size: nat, k: nat) { k % 8 == 0 && k >= 16 && k >= size + 8 }

  /** n is the size of the block that serves a request: the least that has room. */
  ghost predicate ServedBy(size: nat, n: nat) {
    Roomy(size, n) && forall k {:trigger Roomy(size, k)} :: Roomy(size, k) ==> n <= k
  }

  lemma AdjustedServes(size: nat)
    requires size > 0
    ensures ServedBy(size, Adjusted(size))
  {
    hide Adjusted;
    var n := Adjusted(size);
    forall k | Roomy(size, k)
      ensures n <= k
    {
    }
  }

  /** The size is unique. */
  lemma ServedSize(size: nat, n: nat)
    requires size > 0 && ServedBy(size, n)
    ensures n == Adjusted(size) && n / 4 * 4 == n
  {
    hide Adjusted, Roomy;
    AdjustedServes(size);
    Quartered(Adjusted(size));
  }

  lemma Quartered(n: nat)
    requires n % 8 == 0
    ensures n / 4 * 4 == n
  {
  }

  /** By how many bytes the heap grows for a block of n bytes. */
  function Growth(n: nat): nat { if n > 4096 then n else 4096 }

  /** Some free block has n bytes. */
  ghost predicate SomeFits(b: Blocks, n: nat) { exists p :: p in b && !b[p].alloc && n <= 4 * b[p].words }

  lemma FitsTold(b: Blocks, n: nat)
    ensures BestFit(b, n, NULL) <==> !SomeFits(b, n)
  {
    if SomeFits(b, n) {
      var p :| p in b && !b[p].alloc && n <= 4 * b[p].words;
      assert Fitting(b, p, n);
    }
  }

  /** WHEN A REQUEST FAILS: `mm_malloc` returns null exactly if the size is 0, or no free block is large enough and the
      storage has no room for another chunk; then nothing changes. */
  lemma MallocFails(b: Blocks, end: nat, capacity: nat, size: nat, n: nat, b': Blocks, end': nat, r: int)
    requires Malloced(b, end, capacity, size, b', end', r) && ServedBy(size, n)
    ensures r == -1 <==> size == 0 || (!SomeFits(b, n) && 4 * end + Growth(n) > 4 * capacity)
    ensures r == -1 ==> b' == b && end' == end
  {
    hide BestFit, Grown, Placed, ServedBy, SomeFits;
    if size > 0 {
      ServedSize(size, n);
      FitsTold(b, n);
      if !BestFit(b, n, NULL) {
        BestFits(b, n, r);
      }
    }
  }

  /** The block p of b gave n bytes to r: what is left is a free block if it has 16 bytes, and part of r otherwise. */
  predicate CutFrom(b: Blocks, p: nat, n: nat, b': Blocks) {
    && p in b && p in b' && n <= 4 * b[p].words
    && if n + 16 <= 4 * b[p].words
       then 4 * b'[p].words == n && p + n / 4 in b' && b'[p + n / 4] == Block(b[p].words - n / 4, false)
       else b'[p].words == b[p].words
  }

  lemma PlacedCuts(b: Blocks, p: nat, n: nat)
    requires p in b && 16 <= n <= 4 * b[p].words && n % 8 == 0
    ensures CutFrom(b, p, n, Placed(b, p, n / 4)) && Placed(b, p, n / 4)[p].alloc
  {
    assert n / 4 * 4 == n;
  }

  /** HOW TIGHT A BLOCK IS: a request takes the free block of the least size, at the lowest address of those, or the growth
      of the heap joined with a free block at its end; less than 16 bytes more than needed are given away. */
  lemma MallocTight(b: Blocks, end: nat, capacity: nat, size: nat, n: nat, b': Blocks, end': nat, r: nat)
    requires Tiles(b, end) && Malloced(b, end, capacity, size, b', end', r) && ServedBy(size, n)
    ensures r in b' && b'[r].alloc && n <= 4 * b'[r].words < n + 16
    ensures SomeFits(b, n) ==>
              && end' == end && CutFrom(b, r, n, b') && !b[r].alloc
              && forall q :: q in b && !b[q].alloc && n <= 4 * b[q].words ==>
                   b[r].words < b[q].words || (b[r].words == b[q].words && r <= q)
    ensures !SomeFits(b, n) ==> 4 * end' == 4 * end + Growth(n) && EndsAt(b, r, end)
  {
    hide Tiles, Placed, ServedBy, SomeFits, Grown, CutFrom;
    ServedSize(size, n);
    FitsTold(b, n);
    if SomeFits(b, n) {
      BestFits(b, n, r);
      PlacedCuts(b, r, n);
      CutSize(b, r, n, b');
      forall q | q in b && !b[q].alloc && n <= 4 * b[q].words
        ensures b[r].words < b[q].words || (b[r].words == b[q].words && r <= q)
      {
        assert Fitting(b, q, n);
      }
    } else {
      var w := Growth(n) / 4;
      var g: Blocks :| Grown(b, end, w, g, r) && r in g && n / 4 <= g[r].words && b' == Placed(g, r, n / 4);
      PlacedCuts(g, r, n);
      GrownSize(b, end, w, g, r);
      CutSize(g, r, n, b');
    }
  }

  lemma CutSize(b: Blocks, r: nat, n: nat, b': Blocks)
    requires CutFrom(b, r, n, b')
    ensures n <= 4 * b'[r].words < n + 16
  {
  }

  /** r is where the heap ends, or the free block that ends there. */
  predicate EndsAt(b: Blocks, r: nat, end: nat) {
    r == end || (r in b && !b[r].alloc && r + b[r].words == end)
  }

  lemma GrownSize(b: Blocks, end: nat, w: nat, g: Blocks, r: nat)
    requires Tiles(b, end) && Grown(b, end, w, g, r)
    ensures EndsAt(b, r, end)
  {
    hide Coalesced;
    var e := Extend(b, end, w);
    var q := Before(e, end);
  }

  // ---- freeing

  /** The block that was freed lies in a free block, and every other live block stays as it is. */
  lemma FreedIsFree(b: Blocks, end: nat, p: nat, b': Blocks) returns (q: nat)
    requires Tiles(b, end) && p in b && p != FIRST && Freed(b, p, b')
    ensures Tiles(b', end) && q in b' && !b'[q].alloc && q <= p && p + b[p].words <= q + b'[q].words
    ensures forall r :: r in b && b[r].alloc && r != p ==> r in b' && b'[r] == b[r]
    ensures forall r :: r in b' && b'[r].alloc ==> r in b && b'[r] == b[r] && r != p
  {
    hide Tiles;
    var c := Mark(b, p, false);
    MarkTiles(b, end, p, false);
    CoalescedTiles(c, end, p);
    q := CoalescedAt(c, p);
    forall r | r in b && b[r].alloc && r != p
      ensures r in b' && b'[r] == b[r]
    {
      assert r in c && c[r] == b[r];
    }
    CoalescedCovers(c, end, p);
  }

  lemma CoalescedCovers(c: Blocks, end: nat, p: nat)
    requires Tiles(c, end) && IsFree(c, p) && HasPrev(c, p) && 0 < c[p].words
    ensures var b', q := Coalesced(c, p), CoalescedAt(c, p);
            && q in b' && !b'[q].alloc && q <= p && p + c[p].words <= q + b'[q].words
            && forall r :: r in b' && b'[r].alloc ==> r in c && b'[r] == c[r]
  {
    hide Tiles;
    var n, q := p + c[p].words, Before(c, p);
    FreeFacts(c, end, p);
    AnyFacts(c, end, q);
  }

  // ---- reallocating

  /** What a block can grow to without moving: with the next block, if that is free. */
  function Room(b: Blocks, p: nat): nat
    requires p in b
  {
    4 * (b[p].words + if IsFree(b, p + b[p].words) then b[p + b[p].words].words else 0)
  }

  /** WHEN A BLOCK STAYS: `mm_realloc` keeps it where it is exactly if n bytes fit into it, or into it and a free block that
      follows; then it ends with fewer than 16 bytes more than needed, unless it did not have to give any back. Size 0
      frees it. */
  lemma ReallocStays(b: Blocks, end: nat, capacity: nat, p: nat, size: nat, n: nat, b': Blocks, end': nat, r: int)
    requires Tiles(b, end) && p in b && b[p].alloc && p != FIRST && ServedBy(size, n)
    requires Realloced(b, end, capacity, p, size, b', end', r) && Tiles(b', end')
    ensures size == 0 ==> r == -1
    ensures size > 0 ==> (r == p <==> n <= Room(b, p))
    ensures r == p ==> end' == end && p in b' && b'[p].alloc && n <= 4 * b'[p].words < n + 16
    ensures r == -1 ==> size == 0 || (!SomeFits(b, n) && 4 * end + Growth(n) > 4 * capacity && b' == b && end' == end)
  {
    hide Tiles, Freed, Malloced, Placed, Merge, ServedBy, SomeFits, CutFrom;
    if size > 0 {
      ServedSize(size, n);
      AnyFacts(b, end, p);
      RoomEnough(b, end, p, size, n);
      if size + 8 <= 4 * b[p].words {
        PlacedCuts(b, p, n);
      } else if Absorbs(b, p, size) {
        Coalescing.MergeShape(b, p);
        PlacedCuts(Merge(b, p), p, n);
        CutSize(Merge(b, p), p, n, b');
      } else if r == NULL {
        MallocFails(b, end, capacity, size, n, b', end', r);
      } else {
        var g: Blocks :| Malloced(b, end, capacity, size, g, end', r) && p in g && Freed(g, p, b');
        Coalescing.MallocedTiles(b, end, capacity, size, g, end', r);
        MallocDelivers(b, end, capacity, size, g, end', r);
      }
    }
  }

  lemma RoomEnough(b: Blocks, end: nat, p: nat, size: nat, n: nat)
    requires Tiles(b, end) && p in b && p != FIRST && 0 < size && ServedBy(size, n)
    ensures size + 8 <= 4 * b[p].words <==> n <= 4 * b[p].words
    ensures IsFree(b, p + b[p].words) ==> (size + 8 <= Room(b, p) <==> n <= Room(b, p))
    ensures n <= 4 * b[p].words ==> n <= Room(b, p)
  {
    hide Tiles;
    AnyFacts(b, end, p);
    assert size + 8 <= 4 * b[p].words ==> Roomy(size, 4 * b[p].words) by { EightTimes(b[p].words); }
    if IsFree(b, p + b[p].words) {
      FreeFacts(b, end, p + b[p].words);
      AnyFacts(b, end, p + b[p].words);
      assert size + 8 <= Room(b, p) ==> Roomy(size, Room(b, p)) by { EightTimes(b[p].words + b[p + b[p].words].words); }
    }
  }

  lemma EightTimes(w: nat)
    requires w % 2 == 0
    ensures (4 * w) % 8 == 0
  {
  }
}
