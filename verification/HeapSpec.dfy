/** The allocator's heap seen as a set of blocks, and what its operations do to that set. Addresses are indices of
    4-byte words from the start of the heap; a block is known by the address of its payload. */
module HeapSpec {

  /** A block of the given size in words, header and footer included. */
  datatype Block = Block(words: nat, alloc: bool)

  type Blocks = map<nat, Block>

  /** The prologue's payload address: one padding word, 16 list heads and the prologue header come before it. */
  const FIRST: nat := 18

  ghost predicate HasPrev(b: Blocks, q: nat) {
    exists p :: p in b && p + b[p].words == q
  }

  predicate BlockOk(b: Blocks, end: nat, p: nat)
    requires p in b
  {
    && p % 2 == 0 && b[p].words % 2 == 0
    && (p == FIRST || (FIRST < p && 4 <= b[p].words))
    && (p + b[p].words in b || p + b[p].words == end)
  }

  ghost predicate Shaped(b: Blocks, end: nat) {
    && FIRST in b && b[FIRST] == Block(2, true)
    && (forall p {:trigger BlockOk(b, end, p)} :: p in b ==> BlockOk(b, end, p))
  }

  ghost predicate Disjoint(b: Blocks, end: nat) {
    && (forall p, q :: p in b && q in b && p < q ==> p + b[p].words <= q)
    && (forall p :: p in b ==> p + b[p].words <= end)
  }

  ghost predicate Preceded(b: Blocks, end: nat) {
    && (forall q {:trigger HasPrev(b, q)} :: q in b && q != FIRST ==> HasPrev(b, q))
    && HasPrev(b, end)
  }

  /** The blocks tile the heap from the prologue to the epilogue at end: every block is followed immediately by
      another or by the epilogue and is preceded immediately by another, and no two overlap. */
  ghost predicate Tiles(b: Blocks, end: nat) {
    Shaped(b, end) && Disjoint(b, end) && Preceded(b, end)
  }

  // ---- elementary changes

  function Mark(b: Blocks, p: nat, alloc: bool): Blocks
    requires p in b
  {
    b[p := Block(b[p].words, alloc)]
  }

  /** Cut the block at p after w words. */
  function Split(b: Blocks, p: nat, w: nat, alloc1: bool, alloc2: bool): Blocks
    requires p in b && w <= b[p].words
  {
    b[p := Block(w, alloc1)][p + w := Block(b[p].words - w, alloc2)]
  }

  /** Join the block at p with the one that follows it into one free block. */
  function Merge(b: Blocks, p: nat): Blocks
    requires p in b && p + b[p].words in b
  {
    var q := p + b[p].words;
    (b - {q})[p := Block(b[p].words + b[q].words, false)]
  }

  function Extend(b: Blocks, end: nat, w: nat): Blocks {
    b[end := Block(w, false)]
  }

  lemma MarkTiles(b: Blocks, end: nat, p: nat, alloc: bool)
    requires Tiles(b, end) && p in b && p != FIRST
    ensures Tiles(Mark(b, p, alloc), end)
  {
    MarkShaped(b, end, p, alloc);
    MarkDisjoint(b, end, p, alloc);
    MarkPreceded(b, end, p, alloc);
  }

  lemma MarkShaped(b: Blocks, end: nat, p: nat, alloc: bool)
    requires Tiles(b, end) && p in b && p != FIRST
    ensures Shaped(Mark(b, p, alloc), end)
  {
    hide Preceded, Disjoint, BlockOk;
    var b' := Mark(b, p, alloc);
    forall q | q in b'
      ensures BlockOk(b', end, q)
    {
      assert BlockOk(b, end, q);
      MarkOk(b, end, p, alloc, q);
    }
  }

  lemma MarkOk(b: Blocks, end: nat, p: nat, alloc: bool, q: nat)
    requires p in b && q in b && BlockOk(b, end, q)
    ensures BlockOk(Mark(b, p, alloc), end, q)
  {
  }

  lemma MarkDisjoint(b: Blocks, end: nat, p: nat, alloc: bool)
    requires Tiles(b, end) && p in b && p != FIRST
    ensures Disjoint(Mark(b, p, alloc), end)
  {
    hide Preceded;
  }

  lemma MarkPreceded(b: Blocks, end: nat, p: nat, alloc: bool)
    requires Tiles(b, end) && p in b && p != FIRST
    ensures Preceded(Mark(b, p, alloc), end)
  {
    hide Shaped, Disjoint;
    var b' := Mark(b, p, alloc);
    forall q | (q in b' && q != FIRST) || q == end
      ensures HasPrev(b', q)
    {
      assert HasPrev(b, q);
      var r :| r in b && r + b[r].words == q;
      assert r in b' && r + b'[r].words == q;
    }
  }

  lemma SplitTiles(b: Blocks, end: nat, p: nat, w: nat, alloc1: bool, alloc2: bool)
    requires Tiles(b, end) && p in b && p != FIRST && w % 2 == 0 && 4 <= w && w + 4 <= b[p].words
    ensures Tiles(Split(b, p, w, alloc1, alloc2), end)
  {
    SplitShaped(b, end, p, w, alloc1, alloc2);
    SplitDisjoint(b, end, p, w, alloc1, alloc2);
    SplitPreceded(b, end, p, w, alloc1, alloc2);
  }

  lemma SplitShaped(b: Blocks, end: nat, p: nat, w: nat, alloc1: bool, alloc2: bool)
    requires Tiles(b, end) && p in b && p != FIRST && w % 2 == 0 && 4 <= w && w + 4 <= b[p].words
    ensures Shaped(Split(b, p, w, alloc1, alloc2), end)
  {
    hide Preceded, Disjoint, BlockOk;
    var b' := Split(b, p, w, alloc1, alloc2);
    FirstBefore(b, end, p);
    forall q | q in b'
      ensures BlockOk(b', end, q)
    {
      SplitOk(b, end, p, w, alloc1, alloc2, q);
    }
  }

  lemma FirstBefore(b: Blocks, end: nat, p: nat)
    requires Shaped(b, end) && p in b && p != FIRST
    ensures FIRST < p && BlockOk(b, end, p)
  {
    assert BlockOk(b, end, p);
  }

  lemma SplitOk(b: Blocks, end: nat, p: nat, w: nat, alloc1: bool, alloc2: bool, q: nat)
    requires p in b && FIRST < p && w % 2 == 0 && 4 <= w && w + 4 <= b[p].words && BlockOk(b, end, p)
    requires q in Split(b, p, w, alloc1, alloc2) && (q in b ==> BlockOk(b, end, q))
    ensures BlockOk(Split(b, p, w, alloc1, alloc2), end, q)
  {
  }

  lemma SplitDisjoint(b: Blocks, end: nat, p: nat, w: nat, alloc1: bool, alloc2: bool)
    requires Tiles(b, end) && p in b && p != FIRST && w % 2 == 0 && 4 <= w && w + 4 <= b[p].words
    ensures Disjoint(Split(b, p, w, alloc1, alloc2), end)
  {
    hide Preceded;
  }

  lemma SplitPreceded(b: Blocks, end: nat, p: nat, w: nat, alloc1: bool, alloc2: bool)
    requires Tiles(b, end) && p in b && p != FIRST && w % 2 == 0 && 4 <= w && w + 4 <= b[p].words
    ensures Preceded(Split(b, p, w, alloc1, alloc2), end)
  {
    hide Shaped, Disjoint;
    var b' := Split(b, p, w, alloc1, alloc2);
    SplitFresh(b, end, p, w);
    forall q | (q in b' && q != FIRST) || q == end
      ensures HasPrev(b', q)
    {
      if q == p + w {
        assert p in b' && p + b'[p].words == q;
      } else {
        assert HasPrev(b, q);
        var r :| r in b && r + b[r].words == q;
        if r == p {
          assert p + w in b' && p + w + b'[p + w].words == q;
        } else {
          assert r in b' && r + b'[r].words == q;
        }
      }
    }
  }

  lemma SplitFresh(b: Blocks, end: nat, p: nat, w: nat)
    requires Tiles(b, end) && p in b && 0 < w < b[p].words
    ensures p + w !in b
  {
    hide Shaped, Preceded;
  }

  lemma MergeTiles(b: Blocks, end: nat, p: nat)
    requires Tiles(b, end) && p in b && p != FIRST && p + b[p].words in b
    ensures Tiles(Merge(b, p), end)
  {
    MergeShaped(b, end, p);
    MergeDisjoint(b, end, p);
    MergePreceded(b, end, p);
  }

  lemma MergeShaped(b: Blocks, end: nat, p: nat)
    requires Tiles(b, end) && p in b && p != FIRST && p + b[p].words in b
    ensures Shaped(Merge(b, p), end)
  {
    hide Preceded, Disjoint, BlockOk;
    var b' := Merge(b, p);
    var q := p + b[p].words;
    FirstBefore(b, end, p);
    MergedOk(b, end, p);
    forall x | x in b'
      ensures BlockOk(b', end, x)
    {
      if x != p {
        OnlyOneBefore(b, end, p, x);
        MergeOk(b, end, p, x);
      }
    }
  }

  lemma OnlyOneBefore(b: Blocks, end: nat, p: nat, x: nat)
    requires Tiles(b, end) && p in b && x in b && x != p && 0 < b[p].words
    ensures x + b[x].words != p + b[p].words && BlockOk(b, end, x)
  {
    hide Preceded;
    assert BlockOk(b, end, x);
  }

  lemma MergedOk(b: Blocks, end: nat, p: nat)
    requires Tiles(b, end) && p in b && p != FIRST && p + b[p].words in b
    ensures 0 < b[p].words && FIRST < p && BlockOk(Merge(b, p), end, p)
  {
    hide Preceded, Disjoint;
    var q := p + b[p].words;
    assert BlockOk(b, end, p) && BlockOk(b, end, q);
    assert q == FIRST || 4 <= b[q].words;
  }

  lemma MergeOk(b: Blocks, end: nat, p: nat, x: nat)
    requires p in b && p + b[p].words in b && x in b && x != p && x != p + b[p].words && 0 < b[p].words
    requires BlockOk(b, end, x) && x + b[x].words != p + b[p].words
    ensures BlockOk(Merge(b, p), end, x)
  {
  }

  lemma MergeDisjoint(b: Blocks, end: nat, p: nat)
    requires Tiles(b, end) && p in b && p != FIRST && p + b[p].words in b
    ensures Disjoint(Merge(b, p), end)
  {
    hide Preceded;
    assert BlockOk(b, end, p);
  }

  lemma MergePreceded(b: Blocks, end: nat, p: nat)
    requires Tiles(b, end) && p in b && p != FIRST && p + b[p].words in b
    ensures Preceded(Merge(b, p), end)
  {
    hide Shaped, Disjoint;
    var b' := Merge(b, p);
    var q := p + b[p].words;
    EndEven(b, end);
    forall x | (x in b' && x != FIRST) || x == end
      ensures HasPrev(b', x)
    {
      assert HasPrev(b, x);
      var r :| r in b && r + b[r].words == x;
      if r == q {
        assert p in b' && p + b'[p].words == x;
      } else {
        assert r in b' && r + b'[r].words == x;
      }
    }
  }

  lemma ExtendTiles(b: Blocks, end: nat, w: nat)
    requires Tiles(b, end) && w % 2 == 0 && 4 <= w
    ensures Tiles(Extend(b, end, w), end + w)
  {
    ExtendShaped(b, end, w);
    ExtendDisjoint(b, end, w);
    ExtendPreceded(b, end, w);
  }

  lemma ExtendShaped(b: Blocks, end: nat, w: nat)
    requires Tiles(b, end) && w % 2 == 0 && 4 <= w
    ensures Shaped(Extend(b, end, w), end + w)
  {
    hide Preceded;
    var b' := Extend(b, end, w);
    EndEven(b, end);
    forall x | x in b'
      ensures BlockOk(b', end + w, x)
    {
      if x in b {
        assert BlockOk(b, end, x);
      }
    }
  }

  lemma ExtendDisjoint(b: Blocks, end: nat, w: nat)
    requires Tiles(b, end) && w % 2 == 0 && 4 <= w
    ensures Disjoint(Extend(b, end, w), end + w)
  {
    hide Preceded;
    EndEven(b, end);
  }

  lemma ExtendPreceded(b: Blocks, end: nat, w: nat)
    requires Tiles(b, end) && w % 2 == 0 && 4 <= w
    ensures Preceded(Extend(b, end, w), end + w)
  {
    hide Shaped, Disjoint;
    var b' := Extend(b, end, w);
    EndEven(b, end);
    forall x | (x in b' && x != FIRST) || x == end + w
      ensures HasPrev(b', x)
    {
      if x == end + w {
        assert end in b' && end + b'[end].words == x;
      } else {
        assert HasPrev(b, x);
        var r :| r in b && r + b[r].words == x;
        assert r in b' && r + b'[r].words == x;
      }
    }
  }

  lemma EndEven(b: Blocks, end: nat)
    requires Tiles(b, end)
    ensures end % 2 == 0 && end > FIRST && end !in b
  {
    var r :| r in b && r + b[r].words == end;
    assert BlockOk(b, end, r);
    assert end in b ==> BlockOk(b, end, end);
  }
}
