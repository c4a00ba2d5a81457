/** The segregated-list allocator, working in place on the words of its heap. Addresses are word indices. */
module Allocator {
  import Arith
  import opened SizeClass
  import opened HeapSpec
  import opened FreeList
  import opened HeapMem

  const NULL: int := -1

  /** The payload words of the block at r are the same in both heaps, and the block is still there. */
  predicate KeptAt(m: seq<U32>, b: Blocks, m': seq<U32>, b': Blocks, r: nat)
    requires r in b
  {
    && |m'| == |m| && r in b' && b'[r] == b[r]
    && forall i :: r <= i < r + b[r].words - 2 && i < |m| ==> m'[i] == m[i]
  }

  /** No live payload changes. */
  ghost predicate LivesKept(m: seq<U32>, b: Blocks, m': seq<U32>, b': Blocks) {
    |m'| == |m| && forall r {:trigger KeptAt(m, b, m', b', r)} :: r in b && b[r].alloc ==> KeptAt(m, b, m', b', r)
  }

  lemma LivesKeptThrough(m0: seq<U32>, b0: Blocks, m1: seq<U32>, b1: Blocks, m2: seq<U32>, b2: Blocks)
    requires LivesKept(m0, b0, m1, b1) && LivesKept(m1, b1, m2, b2)
    ensures LivesKept(m0, b0, m2, b2)
  {
    forall r | r in b0 && b0[r].alloc
      ensures KeptAt(m0, b0, m2, b2, r)
    {
      assert KeptAt(m0, b0, m1, b1, r);
      assert KeptAt(m1, b1, m2, b2, r);
    }
  }

  lemma LinksKeepLives(m: seq<U32>, m': seq<U32>, b: Blocks, end: nat)
    requires Tiles(b, end) && LinksOnly(m, m', b)
    ensures LivesKept(m, b, m', b)
  {
    hide Tiles, LinkWord;
    forall r | r in b && b[r].alloc
      ensures KeptAt(m, b, m', b, r)
    {
      NotLinkWords(b, end, r);
    }
  }

  lemma ListMembers(m: seq<U32>, b: Blocks, lists: seq<seq<nat>>)
    requires Lists(m, b, lists)
    ensures forall c, p :: 0 <= c < N_LISTS && p in lists[c] ==> Member(b, c, p)
  {
    hide ClassOf, Chain;
    forall c, p | 0 <= c < N_LISTS && p in lists[c]
      ensures Member(b, c, p)
    {
      assert ListOk(m, b, c, lists[c]);
    }
  }

  lemma TagDecodes(t: Block)
    requires t.words % 2 == 0
    ensures Tag(t) - Tag(t) % 8 == 4 * t.words && (Tag(t) % 2 == 1) == t.alloc
  {
    var k, a := t.words / 2, if t.alloc then 1 else 0;
    Arith.Quotient(Tag(t), 8, k, a);
    Arith.Quotient(Tag(t), 2, 4 * k, a);
  }

  predicate Unlisted(lists: seq<seq<nat>>, p: nat) {
    forall c :: 0 <= c < |lists| ==> p !in lists[c]
  }

  lemma UnlistedAfterRemove(m: seq<U32>, b: Blocks, lists: seq<seq<nat>>, c: nat, k: nat)
    requires Lists(m, b, lists) && c < N_LISTS && k < |lists[c]|
    ensures Unlisted(lists[c := Remove(lists[c], k)], lists[c][k])
  {
    hide ClassOf;
    var l := lists[c];
    assert ListOk(m, b, c, l);
    assert Spaced(l);
    ListMembers(m, b, lists);
    assert Member(b, c, l[k]);
  }

  /** Removing one block leaves the rest listed. */
  lemma CompleteAfterRemove(m: seq<U32>, b: Blocks, lists: seq<seq<nat>>, c: nat, k: nat, except: set<nat>)
    requires Lists(m, b, lists) && c < N_LISTS && k < |lists[c]| && Complete(b, lists, except)
    ensures Complete(b, lists[c := Remove(lists[c], k)], except + {lists[c][k]})
  {
    hide ClassOf;
    var l := lists[c];
    var lists' := lists[c := Remove(l, k)];
    forall p | IsFree(b, p) && p !in except + {l[k]}
      ensures b[p].words > 0 && Listed(b, lists', p)
    {
      var d := ClassOf(4 * b[p].words);
      if d == c {
        var i :| 0 <= i < |l| && l[i] == p;
        RemoveAt(l, k, if i < k then i else i - 1);
      }
    }
  }

  lemma CompleteAfterInsert(b: Blocks, lists: seq<seq<nat>>, c: nat, k: nat, p: nat, except: set<nat>)
    requires |lists| == N_LISTS && c < N_LISTS && k <= |lists[c]| && Member(b, c, p)
    requires Complete(b, lists, except + {p})
    ensures Complete(b, lists[c := Insert(lists[c], k, p)], except)
  {
    hide ClassOf;
    var l := lists[c];
    var lists' := lists[c := Insert(l, k, p)];
    forall q | IsFree(b, q) && q !in except
      ensures b[q].words > 0 && Listed(b, lists', q)
    {
      if q == p {
        InsertAt(l, k, p, k);
      } else if ClassOf(4 * b[q].words) == c {
        var i :| 0 <= i < |l| && l[i] == q;
        InsertAt(l, k, p, if i < k then i else i + 1);
      }
    }
  }

  /** The lists hold every free block except those in x, which they do not hold. */
  ghost predicate AllBut(b: Blocks, lists: seq<seq<nat>>, x: set<nat>) {
    Complete(b, lists, x) && forall p :: p in x ==> Unlisted(lists, p)
  }

  lemma AllButAfterRemove(m: seq<U32>, b: Blocks, lists: seq<seq<nat>>, c: nat, k: nat, x: set<nat>)
    requires Lists(m, b, lists) && c < N_LISTS && k < |lists[c]| && AllBut(b, lists, x)
    ensures AllBut(b, lists[c := Remove(lists[c], k)], x + {lists[c][k]})
  {
    hide ClassOf, Complete, ListOk;
    UnlistedAfterRemove(m, b, lists, c, k);
    CompleteAfterRemove(m, b, lists, c, k, x);
  }

  lemma AllButAfterInsert(b: Blocks, lists: seq<seq<nat>>, c: nat, k: nat, p: nat, x: set<nat>)
    requires |lists| == N_LISTS && c < N_LISTS && k <= |lists[c]| && Member(b, c, p)
    requires AllBut(b, lists, x + {p}) && p !in x
    ensures AllBut(b, lists[c := Insert(lists[c], k, p)], x)
  {
    hide ClassOf, Complete;
    CompleteAfterInsert(b, lists, c, k, p, x);
  }

  /** What the lists hold depends only on which blocks are free and how large they are. */
  lemma AllButRebuilt(b: Blocks, lists: seq<seq<nat>>, x: set<nat>, b': Blocks, x': set<nat>)
    requires AllBut(b, lists, x)
    requires forall p {:trigger IsFree(b', p)} :: IsFree(b', p) && p !in x' ==> IsFree(b, p) && p !in x && b'[p] == b[p]
    requires forall p :: p in x' ==> Unlisted(lists, p)
    ensures AllBut(b', lists, x')
  {
    hide ClassOf;
  }

  lemma AllButMore(b: Blocks, lists: seq<seq<nat>>, x: set<nat>, p: nat)
    requires AllBut(b, lists, x) && Unlisted(lists, p)
    ensures AllBut(b, lists, x + {p})
  {
    hide ClassOf, Listed;
  }

  lemma ListedUnlessExcepted(b: Blocks, lists: seq<seq<nat>>, x: set<nat>, p: nat)
    requires AllBut(b, lists, x) && IsFree(b, p) && p !in x
    ensures |lists| == N_LISTS && b[p].words > 0 && Listed(b, lists, p)
  {
    hide ClassOf, Listed;
  }

  // ---- what the operations make of the blocks

  /** The block that ends where p starts. */
  ghost function Before(b: Blocks, p: nat): (q: nat)
    requires HasPrev(b, p)
    ensures q in b && q + b[q].words == p
  {
    var q :| q in b && q + b[q].words == p;
    q
  }

  /** The free block at p joined with its free neighbours. */
  ghost function Coalesced(b: Blocks, p: nat): Blocks
    requires p in b && HasPrev(b, p) && 0 < b[p].words
  {
    var n, q := p + b[p].words, Before(b, p);
    var b1 := if IsFree(b, n) then Merge(b, p) else b;
    if IsFree(b, q) && q + b1[q].words in b1 then Merge(b1, q) else b1
  }

  /** Where the coalesced block starts. */
  ghost function CoalescedAt(b: Blocks, p: nat): nat
    requires p in b && HasPrev(b, p)
  {
    if IsFree(b, Before(b, p)) then Before(b, p) else p
  }

  /** Rebuilding the heap around one block p: the blocks in x, and p if it was one, give way to it, and only its tags
      are written. */
  lemma Regroup(m: seq<U32>, b: Blocks, end: nat, lists: seq<seq<nat>>, x: set<nat>, b': Blocks, p: nat, m': seq<U32>)
    requires Tiles(b, end) && Tags(m, b, end) && Lists(m, b, lists) && |m| < 0x2000_0000
    requires AllBut(b, lists, x) && p in x
    requires Tiles(b', end) && p in b' && p != FIRST && 0 < p && 2 <= b'[p].words && p + b'[p].words <= |m|
    requires forall r {:trigger r in b'} :: r in b' && r != p ==> r in b && b'[r] == b[r] && r !in x
    requires forall r {:trigger r in b} :: r in b && r !in x ==> r in b'
    requires forall r :: r in x && r in b && r != p ==> !b[r].alloc
    requires m' == m[p - 1 := Tag(b'[p])][p + b'[p].words - 2 := Tag(b'[p])]
    ensures Tags(m', b', end) && Lists(m', b', lists)
    ensures AllBut(b', lists, if b'[p].alloc then {} else {p})
    ensures SameOutside(m, m', p - 1, p + b'[p].words - 1)
    ensures forall r {:trigger KeptAt(m, b, m', b', r)} :: r in b && b[r].alloc && r != p ==> KeptAt(m, b, m', b', r)
    ensures !(p in b && b[p].alloc) ==> LivesKept(m, b, m', b')
  {
    hide Tiles, Tags, ClassOf, Complete;
    ListMembers(m, b, lists);
    forall c, r | 0 <= c < N_LISTS && r in lists[c]
      ensures r in b' && r != p
    {
      assert Member(b, c, r);
    }
    var m2 := Retag(m, b, end, lists, b', p);
    AllButRegrouped(b, lists, x, b', p);
    forall r | r in b && b[r].alloc && r != p
      ensures KeptAt(m, b, m', b', r)
    {
      assert r in b';
      assert Outside(b', r, p - 1, p + b'[p].words - 1);
    }
  }

  lemma AllButRegrouped(b: Blocks, lists: seq<seq<nat>>, x: set<nat>, b': Blocks, p: nat)
    requires AllBut(b, lists, x) && p in x && p in b'
    requires forall r {:trigger r in b'} :: r in b' && r != p ==> r in b && b'[r] == b[r] && r !in x
    ensures AllBut(b', lists, if b'[p].alloc then {} else {p})
  {
    hide ClassOf;
    AllButRebuilt(b, lists, x, b', if b'[p].alloc then {} else {p});
  }

  /** Rebuilding the heap as two blocks, an allocated one at p and a free one after it, in the same way. */
  lemma RegroupTwo(m: seq<U32>, b: Blocks, end: nat, lists: seq<seq<nat>>, x: set<nat>, b': Blocks, p: nat, q: nat,
                   m': seq<U32>)
    requires Tiles(b, end) && Tags(m, b, end) && Lists(m, b, lists) && |m| < 0x2000_0000
    requires AllBut(b, lists, x) && p in x && q !in b
    requires Tiles(b', end) && p in b' && p != FIRST && q == p + b'[p].words && q in b'
    requires b'[p].alloc && !b'[q].alloc
    requires forall r {:trigger r in b'} :: r in b' && r != p && r != q ==> r in b && b'[r] == b[r] && r !in x
    requires forall r {:trigger r in b} :: r in b && r !in x ==> r in b'
    requires forall r :: r in x && r in b && r != p ==> !b[r].alloc
    requires 20 <= p && 4 <= b'[p].words && 4 <= b'[q].words && q + b'[q].words <= end <= |m|
    requires m' == m[p - 1 := Tag(b'[p])][q - 2 := Tag(b'[p])][q - 1 := Tag(b'[q])][q + b'[q].words - 2 := Tag(b'[q])]
    ensures Tags(m', b', end) && Lists(m', b', lists)
    ensures AllBut(b', lists, {q})
    ensures forall r {:trigger KeptAt(m, b, m', b', r)} :: r in b && b[r].alloc && r != p ==> KeptAt(m, b, m', b', r)
    ensures !(p in b && b[p].alloc) ==> LivesKept(m, b, m', b')
  {
    hide Tiles, ClassOf, Complete, Chain;
    ListMembers(m, b, lists);
    var lo, hi := p - 1, q + b'[q].words - 1;
    forall r | r in b' && r != p && r != q
      ensures Outside(b', r, lo, hi) && Outside(b, r, lo, hi)
    {
      BlocksApart(b', end, p, r);
      BlocksApart(b', end, q, r);
      AnyFacts(b', end, r);
    }
    TagsRebuilt(m, m', b, end, b', end, lo, hi);
    forall c, r | 0 <= c < N_LISTS && r in lists[c]
      ensures r in b && r in b' && b'[r] == b[r] && Outside(b, r, lo, hi)
    {
      assert Member(b, c, r);
      assert r in b' && r != p && r != q;
    }
    ListsRebuilt(m, m', b, b', lists, lo, hi);
    NewUnlisted(m, b, lists, q);
    AllButRebuilt(b, lists, x, b', {q});
    forall r | r in b && b[r].alloc && r != p
      ensures KeptAt(m, b, m', b', r)
    {
      assert r in b' && Outside(b', r, lo, hi);
    }
  }

  lemma NewUnlisted(m: seq<U32>, b: Blocks, lists: seq<seq<nat>>, q: nat)
    requires Lists(m, b, lists) && !IsFree(b, q)
    ensures Unlisted(lists, q)
  {
    hide ClassOf, ListOk;
    ListMembers(m, b, lists);
  }

  // ---- fits

  predicate Fitting(b: Blocks, p: nat, asize: nat) { IsFree(b, p) && asize <= 4 * b[p].words }

  /** r comes before q in best-fit order: smaller, or as large and at a lower address. */
  predicate Better(b: Blocks, r: nat, q: nat)
    requires r in b && q in b
  {
    b[r].words < b[q].words || (b[r].words == b[q].words && r <= q)
  }

  /** r is the smallest free block of at least asize bytes in the whole heap, the lowest one on a tie; NULL if there
      is none. */
  ghost predicate BestFit(b: Blocks, asize: nat, r: int) {
    if r == NULL then forall p {:trigger Fitting(b, p, asize)} :: !Fitting(b, p, asize)
    else
      0 <= r && Fitting(b, r, asize) &&
      forall q {:trigger Fitting(b, q, asize)} :: Fitting(b, q, asize) ==> Better(b, r, q)
  }

  /** r is the best fit among the blocks of l. */
  predicate BestOf(b: Blocks, l: seq<nat>, asize: nat, r: int) {
    if r == NULL then forall p :: p in l ==> !Fitting(b, p, asize)
    else
      0 <= r && r in l && Fitting(b, r, asize) &&
      forall q :: q in l && Fitting(b, q, asize) ==> Better(b, r, q)
  }

  /** No block that fits lies in a class below c. */
  ghost predicate ClassesFrom(b: Blocks, asize: nat, c: nat) {
    forall p {:trigger Fitting(b, p, asize)} :: Fitting(b, p, asize) ==>
      b[p].words > 0 && c <= ClassOf(4 * b[p].words)
  }

  /** The free block at p turned into an allocated one of w words, its remainder split off when it can hold a block. */
  function Placed(b: Blocks, p: nat, w: nat): Blocks
    requires p in b && w <= b[p].words
  {
    if b[p].words - w >= 4 then Split(b, p, w, true, false) else Mark(b, p, true)
  }

  lemma PlacedTiles(b: Blocks, end: nat, p: nat, w: nat)
    requires Tiles(b, end) && p in b && p != FIRST && w % 2 == 0 && 4 <= w <= b[p].words
    ensures Tiles(Placed(b, p, w), end)
  {
    if b[p].words - w >= 4 {
      SplitTiles(b, end, p, w, true, false);
    } else {
      MarkTiles(b, end, p, true);
    }
  }

  /** A heap grown by w words at end: r is the new space joined with the free block it may follow. */
  ghost predicate Grown(b: Blocks, end: nat, w: nat, b': Blocks, r: int) {
    var e := Extend(b, end, w);
    && 0 < w && HasPrev(e, end) && b' == Coalesced(e, end) && r == CoalescedAt(e, end) && IsFree(b', r)
  }

  // ---- growing the heap

  /** Writing a free block and a new epilogue over the end of the heap. */
  lemma ExtendState(m: seq<U32>, b: Blocks, end: nat, lists: seq<seq<nat>>, w: nat, m': seq<U32>)
    requires Tiles(b, end) && Tags(m, b, end) && Lists(m, b, lists) && AllBut(b, lists, {})
    requires 4 <= w && w % 2 == 0 && FIRST < end && end + w <= |m| < 0x2000_0000
    requires m' == m[end - 1 := 4 * w][end + w - 2 := 4 * w][end + w - 1 := 1]
    ensures Tiles(Extend(b, end, w), end + w) && Tags(m', Extend(b, end, w), end + w)
    ensures Lists(m', Extend(b, end, w), lists) && AllBut(Extend(b, end, w), lists, {end})
    ensures LivesKept(m, b, m', Extend(b, end, w))
  {
    hide Tiles, ClassOf, Complete, Chain;
    var b', lo, hi := Extend(b, end, w), end - 1, end + w;
    EndEven(b, end);
    ExtendTiles(b, end, w);
    forall r | r in b
      ensures Outside(b, r, lo, hi)
    {
      AnyFacts(b, end, r);
    }
    TagsRebuilt(m, m', b, end, b', end + w, lo, hi);
    ListMembers(m, b, lists);
    forall c, r | 0 <= c < N_LISTS && r in lists[c]
      ensures r in b && b'[r] == b[r] && Outside(b, r, lo, hi)
    {
      assert Member(b, c, r);
    }
    ListsRebuilt(m, m', b, b', lists, lo, hi);
    NewUnlisted(m, b, lists, end);
    AllButRebuilt(b, lists, {}, b', {end});
    forall r | r in b && b[r].alloc
      ensures KeptAt(m, b, m', b', r)
    {
      assert Outside(b, r, lo, hi);
    }
  }

  /** Writing inside the payload of an allocated block disturbs nothing else. */
  lemma PayloadState(m: seq<U32>, b: Blocks, end: nat, lists: seq<seq<nat>>, p: nat, lo: nat, hi: nat, m': seq<U32>)
    requires Tiles(b, end) && Tags(m, b, end) && Lists(m, b, lists)
    requires p in b && b[p].alloc && p != FIRST && p <= lo <= hi <= p + b[p].words - 2
    requires SameOutside(m, m', lo, hi)
    ensures Tags(m', b, end) && Lists(m', b, lists)
    ensures forall r {:trigger KeptAt(m, b, m', b, r)} :: r in b && r != p ==> KeptAt(m, b, m', b, r)
  {
    hide Tiles, ClassOf, Chain;
    AnyFacts(b, end, p);
    forall r | r in b && r != p
      ensures Outside(b, r, p - 1, p + b[p].words - 1)
    {
      BlocksApart(b, end, p, r);
    }
    assert TagsAt(m, b, p);
    EndEven(b, end);
    TagsRebuilt(m, m', b, end, b, end, p - 1, p + b[p].words - 1);
    ListMembers(m, b, lists);
    forall c, r | 0 <= c < N_LISTS && r in lists[c]
      ensures r in b && Outside(b, r, p - 1, p + b[p].words - 1)
    {
      assert Member(b, c, r);
    }
    ListsRebuilt(m, m', b, b, lists, p - 1, p + b[p].words - 1);
  }

  /** The 16 empty lists of a new heap. */
  const NO_LISTS: seq<seq<nat>> := [[], [], [], [], [], [], [], [], [], [], [], [], [], [], [], []]

  lemma InitialState(m: seq<U32>)
    requires 20 <= |m| < 0x2000_0000 && (forall i :: 0 <= i <= N_LISTS ==> m[i] == 0)
    requires m[17] == 9 && m[18] == 9 && m[19] == 1
    ensures var b := map[FIRST := Block(2, true)];
            Tiles(b, 20) && Tags(m, b, 20) && Lists(m, b, NO_LISTS) && AllBut(b, NO_LISTS, {})
  {
    hide ClassOf;
    var b: Blocks := map[FIRST := Block(2, true)];
    assert FIRST in b && FIRST + b[FIRST].words == 20;
    assert HasPrev(b, 20);
    forall c | 0 <= c < N_LISTS
      ensures ListOk(m, b, c, NO_LISTS[c])
    {
      assert NO_LISTS[c] == [];
    }
  }

  // ---- what the interface promises

  const CHUNKSIZE: nat := 4096
  const CHUNK_WORDS: nat := 1024

  /** Requests up to here wrap around in no conversion between the C types involved. */
  const MAX_REQUEST: nat := 0x7fff_0000

  /** No two neighbouring blocks are both free. */
  ghost predicate NoAdjacentFree(b: Blocks) {
    forall p: nat {:trigger IsFree(b, p)} :: IsFree(b, p) ==> !IsFree(b, p + b[p].words)
  }

  /** The block size, in bytes, for a request. */
  function Adjusted(size: nat): (asize: nat)
    requires 0 < size
    ensures 16 <= asize && asize % 8 == 0 && size + 8 <= asize && (asize == 16 || asize < size + 16)
  {
    if size <= 8 then 16 else 8 * ((size + 8 + 7) / 8)
  }

  /** The number of words by which the heap is really extended. */
  function EvenWords(words: nat): (w: nat)
    ensures w % 2 == 0 && 4 <= w && words <= w && (w == 4 || w <= words + 1)
  {
    if words <= 4 then 4 else words + words % 2
  }

  lemma EvenFits(words: nat)
    ensures words % 2 != 0 ==> (words + 1) * 4 == 4 * EvenWords(words) || (words < 4 && EvenWords(words) == 4)
    ensures words % 2 == 0 ==> words * 4 == 4 * EvenWords(words) || (words < 4 && EvenWords(words) == 4)
    ensures (4 * EvenWords(words)) % 8 == 0
  {
  }

  /** The heap after freeing the block at p. */
  ghost predicate Freed(b: Blocks, p: nat, b': Blocks)
    requires p in b
  {
    var c := Mark(b, p, false);
    HasPrev(c, p) && 0 < c[p].words && b' == Coalesced(c, p)
  }

  /** The heap after a request: the best fit is placed if there is one; otherwise the heap grows by at least a chunk
      and the block at its end is placed, or nothing changes when the memory is exhausted. */
  ghost predicate Malloced(b: Blocks, end: nat, capacity: nat, size: nat, b': Blocks, end': nat, r: int) {
    if size == 0 then r == NULL && b' == b && end' == end
    else
      var asize := Adjusted(size);
      var w := (if asize > CHUNKSIZE then asize else CHUNKSIZE) / 4;
      if !BestFit(b, asize, NULL) then
        end' == end && BestFit(b, asize, r) && r in b && asize / 4 <= b[r].words && b' == Placed(b, r, asize / 4)
      else if end + w > capacity then
        r == NULL && b' == b && end' == end
      else
        end' == end + w && 0 <= r
        && exists g: Blocks :: Grown(b, end, w, g, r) && r in g && asize / 4 <= g[r].words && b' == Placed(g, r, asize / 4)
  }

  lemma BestFits(b: Blocks, asize: nat, r: int)
    requires BestFit(b, asize, r) && r != NULL
    ensures 0 <= r && IsFree(b, r) && asize <= 4 * b[r].words && !BestFit(b, asize, NULL)
  {
    assert Fitting(b, r, asize);
  }

  lemma NothingServed(b: Blocks, end: nat, capacity: nat)
    ensures Malloced(b, end, capacity, 0, b, end, NULL)
  {
  }

  lemma FitServes(b: Blocks, end: nat, capacity: nat, size: nat, r: nat, b': Blocks)
    requires 0 < size && BestFit(b, Adjusted(size), r) && r in b && Adjusted(size) <= 4 * b[r].words
    requires b' == Placed(b, r, Adjusted(size) / 4)
    ensures Malloced(b, end, capacity, size, b', end, r)
  {
    hide BestFit, Placed;
    BestFits(b, Adjusted(size), r);
  }

  lemma GrowthServes(b: Blocks, end: nat, capacity: nat, size: nat, g: Blocks, r: nat, b': Blocks, w: nat)
    requires 0 < size && BestFit(b, Adjusted(size), NULL)
    requires w == (if Adjusted(size) > CHUNKSIZE then Adjusted(size) else CHUNKSIZE) / 4 && end + w <= capacity
    requires Grown(b, end, w, g, r) && r in g && Adjusted(size) / 4 <= g[r].words
    requires b' == Placed(g, r, Adjusted(size) / 4)
    ensures Malloced(b, end, capacity, size, b', end + w, r)
  {
    hide BestFit, Placed, Grown;
  }

  lemma GrowthFails(b: Blocks, end: nat, capacity: nat, size: nat)
    requires 0 < size && BestFit(b, Adjusted(size), NULL)
    requires end + (if Adjusted(size) > CHUNKSIZE then Adjusted(size) else CHUNKSIZE) / 4 > capacity
    ensures Malloced(b, end, capacity, size, b, end, NULL)
  {
    hide BestFit;
  }

  /** The block at the end of a grown heap holds at least the new space. */
  lemma GrownFits(b: Blocks, end: nat, w: nat, b': Blocks, r: int, end': nat)
    requires Tiles(b, end) && 4 <= w && w % 2 == 0 && Grown(b, end, w, b', r) && Tiles(b', end')
    ensures 0 <= r && IsFree(b', r) && w <= b'[r].words
  {
    hide Tiles;
    var e := Extend(b, end, w);
    EndEven(b, end);
    ExtendTiles(b, end, w);
    assert !IsFree(e, end + w) by { EndEven(e, end + w); }
  }

  /** The first chunk is the only block besides the prologue. */
  lemma FirstChunk(b: Blocks, r: int)
    requires Grown(map[FIRST := Block(2, true)], 20, CHUNK_WORDS, b, r)
    ensures b == map[18 := Block(2, true), 20 := Block(1024, false)] && NoAdjacentFree(b)
  {
    var e := Extend(map[FIRST := Block(2, true)], 20, CHUNK_WORDS);
    assert Before(e, 20) == FIRST;
    assert b == e;
  }

  /** What a successful request delivers: an allocated, 8-byte aligned block whose payload holds size bytes and overlaps
      no block that was live before. */
  lemma MallocDelivers(b: Blocks, end: nat, capacity: nat, size: nat, b': Blocks, end': nat, r: int)
    requires Tiles(b, end) && Malloced(b, end, capacity, size, b', end', r) && Tiles(b', end') && r != NULL
    ensures 0 < size && 0 <= r && r % 2 == 0 && r != FIRST && r in b' && b'[r].alloc && size <= 4 * (b'[r].words - 2)
    ensures r + b'[r].words <= end'
    ensures forall q :: q in b && b[q].alloc ==> q + b[q].words <= r || r + b'[r].words <= q
  {
    hide Tiles, BestFit, Placed, Grown;
    var asize := Adjusted(size);
    if !BestFit(b, asize, NULL) {
      BestFits(b, asize, r);
      PlacedDelivers(b, r, asize / 4);
      PlacedApart(b, end, r, asize / 4);
    } else {
      var w := (if asize > CHUNKSIZE then asize else CHUNKSIZE) / 4;
      var g: Blocks :| Grown(b, end, w, g, r) && r in g && asize / 4 <= g[r].words && b' == Placed(g, r, asize / 4);
      GrownDelivers(b, end, w, g, r, asize / 4);
    }
    AnyFacts(b', end', r);
  }

  lemma GrownDelivers(b: Blocks, end: nat, w: nat, g: Blocks, r: nat, n: nat)
    requires Tiles(b, end) && 4 <= w && w % 2 == 0 && Grown(b, end, w, g, r) && r in g && 0 < n <= g[r].words
    ensures r != FIRST && r in Placed(g, r, n) && Placed(g, r, n)[r].alloc && n <= Placed(g, r, n)[r].words
    ensures forall q :: q in b && b[q].alloc ==> q + b[q].words <= r || r + Placed(g, r, n)[r].words <= q
  {
    hide Tiles, Placed, Coalesced, CoalescedAt;
    GrownTiles(b, end, w, g, r);
    PlacedDelivers(g, r, n);
    PlacedApart(g, end + w, r, n);
    GrownKeepsLives(b, end, w, g, r);
  }

  lemma PlacedDelivers(b: Blocks, p: nat, w: nat)
    requires IsFree(b, p) && 0 < w <= b[p].words
    ensures p in Placed(b, p, w) && Placed(b, p, w)[p].alloc && w <= Placed(b, p, w)[p].words <= b[p].words
  {
  }

  lemma PlacedApart(b: Blocks, end: nat, p: nat, w: nat)
    requires Tiles(b, end) && IsFree(b, p) && 0 < w <= b[p].words
    ensures p != FIRST
    ensures forall q :: q in b && b[q].alloc ==> q + b[q].words <= p || p + Placed(b, p, w)[p].words <= q
  {
    hide Tiles;
    FreeFacts(b, end, p);
    PlacedDelivers(b, p, w);
    forall q | q in b && b[q].alloc
      ensures q + b[q].words <= p || p + Placed(b, p, w)[p].words <= q
    {
      BlocksApart(b, end, p, q);
    }
  }

  lemma CoalescedTiles(b: Blocks, end: nat, p: nat)
    requires Tiles(b, end) && IsFree(b, p) && HasPrev(b, p)
    ensures p != FIRST && 0 < b[p].words && Tiles(Coalesced(b, p), end)
    ensures forall q :: q in b && b[q].alloc ==> q in Coalesced(b, p) && Coalesced(b, p)[q] == b[q]
  {
    hide Tiles;
    FreeFacts(b, end, p);
    var n, q := p + b[p].words, Before(b, p);
    var b1 := if IsFree(b, n) then Merge(b, p) else b;
    if IsFree(b, n) {
      MergeTiles(b, end, p);
    }
    if IsFree(b, q) {
      FreeFacts(b, end, q);
      MergeTiles(b1, end, q);
    }
  }

  lemma GrownTiles(b: Blocks, end: nat, w: nat, b': Blocks, r: int)
    requires Tiles(b, end) && 4 <= w && w % 2 == 0 && Grown(b, end, w, b', r)
    ensures Tiles(b', end + w)
  {
    hide Tiles;
    ExtendTiles(b, end, w);
    CoalescedTiles(Extend(b, end, w), end + w, end);
  }

  lemma GrownKeepsLives(b: Blocks, end: nat, w: nat, b': Blocks, r: int)
    requires Tiles(b, end) && 4 <= w && w % 2 == 0 && Grown(b, end, w, b', r)
    ensures forall q :: q in b && b[q].alloc ==> q in b' && b'[q] == b[q]
  {
    hide Tiles, Coalesced;
    var e := Extend(b, end, w);
    EndEven(b, end);
    ExtendTiles(b, end, w);
    CoalescedTiles(e, end + w, end);
    forall q | q in b && b[q].alloc
      ensures q in b' && b'[q] == b[q]
    {
      assert q in e && e[q] == b[q];
    }
  }

  /** Where reallocation leaves the blocks: it shrinks in place, absorbs the next block, or moves. */
  ghost predicate Realloced(b: Blocks, end: nat, capacity: nat, p: nat, size: nat, b': Blocks, end': nat, r: int)
    requires p in b
  {
    var csize := 4 * b[p].words;
    if size == 0 then
      r == NULL && end' == end && Freed(b, p, b')
    else if size + 8 <= csize then
      var asize := Adjusted(size);
      r == p && end' == end
      && b' == if asize + 16 <= csize then Split(b, p, asize / 4, true, false) else b
    else if Absorbs(b, p, size) then
      r == p && end' == end && Adjusted(size) / 4 <= Merge(b, p)[p].words
      && b' == Placed(Merge(b, p), p, Adjusted(size) / 4)
    else if r == NULL then
      Malloced(b, end, capacity, size, b', end', NULL)
    else
      exists g: Blocks :: Malloced(b, end, capacity, size, g, end', r) && p in g && Freed(g, p, b')
  }

  /** The next block is free and large enough to grow into. */
  predicate Absorbs(b: Blocks, p: nat, size: nat)
    requires p in b
  {
    IsFree(b, p + b[p].words) && size + 8 <= 4 * (b[p].words + b[p + b[p].words].words)
  }

  /** The blocks after absorbing the next block: everything else stays. */
  lemma AbsorbShape(b: Blocks, end: nat, p: nat, w: nat)
    requires Tiles(b, end) && p in b && p != FIRST && IsFree(b, p + b[p].words)
    requires 4 <= w && w % 2 == 0 && b[p].words < w <= b[p].words + b[p + b[p].words].words
    ensures p in Merge(b, p) && w <= Merge(b, p)[p].words
    ensures var b', x := Placed(Merge(b, p), p, w), {p, p + b[p].words};
            && Tiles(b', end) && p in b' && b'[p].alloc
            && (forall r {:trigger r in b} :: r in b && r !in x ==> r in b')
            && (forall r {:trigger r in b'} :: r in b' && r != p && r != p + b'[p].words ==>
                  r in b && b'[r] == b[r] && r !in x)
    ensures var b', total := Placed(Merge(b, p), p, w), b[p].words + b[p + b[p].words].words;
            if total - w >= 4 then b'[p] == Block(w, true) && p + w !in b && p + w in b'
                                   && b'[p + w] == Block(total - w, false)
            else b'[p] == Block(total, true)
                 && forall r {:trigger r in b'} :: r in b' && r != p ==> r in b && b'[r] == b[r] && r != p + b[p].words
  {
    hide Tiles;
    var next := p + b[p].words;
    var g := Merge(b, p);
    var b' := Placed(g, p, w);
    FreeFacts(b, end, next);
    MergeTiles(b, end, p);
    PlacedTiles(g, end, p, w);
    if g[p].words - w >= 4 {
      SplitFresh(g, end, p, w);
      assert p + w != next;
    }
  }

  /** The words of r, up to the smaller of the old payload and size bytes, are the old ones of p. */
  predicate ReallocKeeps(m: seq<U32>, words: int, p: nat, size: nat, m': seq<U32>, r: int) {
    var n := if 4 * words <= size then words else (size + 3) / 4;
    |m'| == |m| && 0 <= r && 0 <= n && p + n <= |m| && r + n <= |m| && m'[r..r + n] == m[p..p + n]
  }

  lemma SplitShape(b: Blocks, p: nat, w: nat)
    requires p in b && 0 < w < b[p].words && p + w !in b
    ensures var b' := Split(b, p, w, true, false);
            && p in b' && b'[p] == Block(w, true) && p + w in b' && b'[p + w] == Block(b[p].words - w, false)
            && (forall r {:trigger r in b'} :: r in b' && r != p && r != p + w ==> r in b && b'[r] == b[r])
            && (forall r {:trigger r in b} :: r in b ==> r in b')
  {
  }

  lemma ShrunkWords(w: nat, size: nat)
    requires w % 2 == 0 && 0 < size && size + 8 <= 4 * w
    ensures var a := Adjusted(size);
            && a / 4 % 2 == 0 && 4 <= a / 4 && size <= 4 * (a / 4 - 2)
            && (4 * w - a >= 16 ==> (4 * w - a) / 4 == w - a / 4 && (w - a / 4) % 2 == 0 && 4 <= w - a / 4)
  {
    hide Adjusted;
    var a := Adjusted(size);
    var k, h := a / 8, w / 2;
    Arith.Quotient(a, 4, 2 * k, 0);
    Arith.Quotient(a / 4, 2, k, 0);
    Arith.Quotient(4 * w - a, 4, w - 2 * k, 0);
    Arith.Quotient(w - 2 * k, 2, h - k, 0);
  }

  lemma ShrunkRealloced(b: Blocks, end: nat, capacity: nat, p: nat, size: nat, b': Blocks)
    requires p in b && 0 < size && size + 8 <= 4 * b[p].words
    requires b' == if Adjusted(size) + 16 <= 4 * b[p].words then Split(b, p, Adjusted(size) / 4, true, false) else b
    ensures Realloced(b, end, capacity, p, size, b', end, p)
  {
    hide Split;
  }

  /** A block that keeps its first k payload words keeps what fits the new size. */
  lemma ShrunkKeeps(m: seq<U32>, m': seq<U32>, words: nat, p: nat, size: nat, k: nat)
    requires |m'| == |m| && p + words <= |m| && k <= words && size <= 4 * k
    requires forall i :: p <= i < p + k ==> m'[i] == m[i]
    ensures ReallocKeeps(m, words, p, size, m', p)
  {
  }

  lemma AllKept(m: seq<U32>, b: Blocks, p: nat)
    ensures forall q {:trigger KeptAt(m, b, m, b, q)} :: q in b && b[q].alloc && q != p ==> KeptAt(m, b, m, b, q)
  {
  }

  /** Joining p with the next block, then the previous one with both. */
  ghost predicate MergedTwice(b: Blocks, p: nat, q: nat, b': Blocks)
    requires p in b && p + b[p].words in b
  {
    var b1 := Merge(b, p);
    q in b1 && q + b1[q].words in b1 && b' == Merge(b1, q)
  }

  lemma TwoMerged(b: Blocks, end: nat, p: nat, q: nat, n: nat) returns (b': Blocks)
    requires Tiles(b, end) && IsFree(b, p) && IsFree(b, q) && q + b[q].words == p && n == p + b[p].words && IsFree(b, n)
    ensures 20 <= q && 4 <= b[p].words && 4 <= b[q].words && 4 <= b[n].words && n + b[n].words <= end
    ensures MergedTwice(b, p, q, b') && Tiles(b', end) && q in b'
    ensures b'[q] == Block(b[q].words + b[p].words + b[n].words, false)
    ensures forall r {:trigger r in b'} :: r in b' && r != q ==> r in b && b'[r] == b[r] && r !in {p, n, q}
    ensures forall r {:trigger r in b} :: r in b && r !in {p, n, q} ==> r in b'
  {
    hide Tiles;
    FreeFacts(b, end, p);
    FreeFacts(b, end, q);
    FreeFacts(b, end, n);
    MergeTiles(b, end, p);
    b' := Merge(Merge(b, p), q);
    MergeTiles(Merge(b, p), end, q);
  }

  lemma ZeroRealloced(b: Blocks, end: nat, capacity: nat, p: nat, b': Blocks)
    requires p in b && Freed(b, p, b')
    ensures Realloced(b, end, capacity, p, 0, b', end, NULL)
  {
    hide Freed, Malloced, Placed, Merge, Split;
  }

  lemma KeptThrough(m0: seq<U32>, b0: Blocks, m1: seq<U32>, b1: Blocks, m2: seq<U32>, b2: Blocks, q: nat)
    requires q in b0 && KeptAt(m0, b0, m1, b1, q) && KeptAt(m1, b1, m2, b2, q)
    ensures KeptAt(m0, b0, m2, b2, q)
  {
  }

  /** The n words copied from ptr to r before ptr was freed. */
  lemma MovedKeeps(m1: seq<U32>, b1: Blocks, m2: seq<U32>, m3: seq<U32>, b3: Blocks, ptr: nat, r: nat, n: nat, size: nat)
    requires r in b1 && KeptAt(m2, b1, m3, b3, r) && n <= b1[r].words - 2 && 4 * n <= size
    requires |m1| == |m2| && r + n <= |m2| && ptr + n <= |m1| && m2[r..r + n] == m1[ptr..ptr + n]
    ensures r in b3 && b3[r] == b1[r] && ReallocKeeps(m1, n, ptr, size, m3, r)
  {
    assert m3[r..r + n] == m2[r..r + n];
  }

  /** In words, the adjusted request is larger than the block and no larger than it and its neighbour together. */
  lemma AdjustedWords(w1: nat, w2: nat, size: nat)
    requires w1 % 2 == 0 && w2 % 2 == 0 && 0 < size && 4 <= w1 && 4 * w1 < size + 8 <= 4 * (w1 + w2)
    ensures var w := Adjusted(size) / 4; w % 2 == 0 && 4 <= w && w1 < w <= w1 + w2 && size <= 4 * (w - 2)
  {
    hide Adjusted;
    var a := Adjusted(size);
    var k, h1, h2 := a / 8, w1 / 2, w2 / 2;
    assert a == 8 * k && w1 == 2 * h1 && w2 == 2 * h2;
    Arith.Quotient(a, 4, 2 * k, 0);
    Arith.Quotient(a / 4, 2, k, 0);
    assert h1 < k <= h1 + h2;
  }

  lemma AbsorbRealloced(b: Blocks, end: nat, capacity: nat, p: nat, size: nat, b': Blocks)
    requires p in b && 4 * b[p].words < size + 8 && Absorbs(b, p, size) && 0 < size
    requires p in Merge(b, p) && Adjusted(size) / 4 <= Merge(b, p)[p].words
    requires b' == Placed(Merge(b, p), p, Adjusted(size) / 4)
    ensures Realloced(b, end, capacity, p, size, b', end, p)
  {
    hide Merge, Placed;
  }

  /** A block that grows in place keeps its payload. */
  lemma GrownKeeps(m0: seq<U32>, m1: seq<U32>, m2: seq<U32>, b: Blocks, p: nat, size: nat, w: nat)
    requires p in b && b[p].alloc && 2 <= b[p].words < w && p + w <= |m2| && |m2| == |m1| == |m0|
    requires LivesKept(m0, b, m1, b) && forall i :: p <= i < p + w - 2 ==> m2[i] == m1[i]
    requires 4 * b[p].words < size + 8
    ensures ReallocKeeps(m0, b[p].words - 2, p, size, m2, p)
  {
    assert KeptAt(m0, b, m1, b, p);
  }

  /** The live payloads other than p's survive a step that keeps all and one that keeps all but p's. */
  lemma OthersKept(m0: seq<U32>, b0: Blocks, m1: seq<U32>, m2: seq<U32>, b2: Blocks, p: nat)
    requires LivesKept(m0, b0, m1, b0)
    requires forall q {:trigger KeptAt(m1, b0, m2, b2, q)} :: q in b0 && b0[q].alloc && q != p ==> KeptAt(m1, b0, m2, b2, q)
    ensures forall q {:trigger KeptAt(m0, b0, m2, b2, q)} :: q in b0 && b0[q].alloc && q != p ==> KeptAt(m0, b0, m2, b2, q)
  {
    forall q | q in b0 && b0[q].alloc && q != p
      ensures KeptAt(m0, b0, m2, b2, q)
    {
      assert KeptAt(m0, b0, m1, b0, q);
      assert KeptAt(m1, b0, m2, b2, q);
    }
  }

  class Heap {
    const mem: array<U32>
    var brk: nat
    ghost var b: Blocks
    ghost var lists: seq<seq<nat>>

    /** The words represent the blocks b, tiling the heap up to brk, and the lists. */
    ghost predicate Formed()
      reads this, mem
    {
      && mem.Length < 0x2000_0000 && brk <= mem.Length
      && Tiles(b, brk) && Tags(mem[..], b, brk) && Lists(mem[..], b, lists)
    }

    /** Every free block is moreover in the list of its class. */
    ghost predicate Valid()
      reads this, mem
    {
      Formed() && AllBut(b, lists, {})
    }

    // ---- reading the heap

    /** `GET_SIZE` */
    function SizeAt(p: nat): int
      requires p < mem.Length
      reads mem
    {
      mem[p] - mem[p] % 8
    }

    /** `GET_ALLOC` */
    predicate AllocAt(p: nat)
      requires p < mem.Length
      reads mem
    {
      mem[p] % 2 == 1
    }

    /** What header and footer of a block say. */
    lemma TagReads(p: nat)
      requires Formed() && p in b
      ensures FIRST <= p && 2 <= b[p].words && p + b[p].words <= brk <= mem.Length
      ensures SizeAt(p - 1) == 4 * b[p].words && AllocAt(p - 1) == b[p].alloc
      ensures SizeAt(p + b[p].words - 2) == 4 * b[p].words && AllocAt(p + b[p].words - 2) == b[p].alloc
    {
      hide Tiles, Lists;
      AnyFacts(b, brk, p);
      TagDecodes(b[p]);
      assert TagsAt(mem[..], b, p);
    }

    /** What the header after a block says: the next block's tag, or the epilogue's. */
    lemma NextReads(p: nat)
      requires Formed() && p in b
      ensures p + b[p].words <= brk <= mem.Length && 0 < p + b[p].words
      ensures AllocAt(p + b[p].words - 1) == !IsFree(b, p + b[p].words)
      ensures p + b[p].words !in b ==> p + b[p].words == brk
    {
      hide Tiles, Lists;
      AnyFacts(b, brk, p);
      if p + b[p].words in b {
        TagReads(p + b[p].words);
      }
    }

    /** `GET_CLASS_BY_SIZE` */
    method GetClass(size: U32) returns (c: nat)
      requires size > 0
      ensures c == ClassOf(size) && c < N_LISTS
    {
      MsbIsFloorLog2(size);
      var msb := MsbIndex(size as bv32) as int;
      c := if msb < N_LISTS - 1 then msb else N_LISTS - 1;
    }

    /** `delete_from_free_list`; the two error exits of the source are never taken. */
    method DeleteFromFreeList(bp: nat, ghost x: set<nat>)
      requires Formed() && IsFree(b, bp) && AllBut(b, lists, x) && bp !in x
      modifies mem, this`lists
      ensures Formed() && AllBut(b, lists, x + {bp})
      ensures LivesKept(old(mem[..]), b, mem[..], b)
    {
      hide Tiles, Tags, ClassOf, LinkWord, Spaced, Complete;
      FreeFacts(b, brk, bp);
      TagReads(bp);
      assert !AllocAt(bp - 1);
      var size := SizeAt(bp - 1);
      var c := GetClass(size);
      ghost var m, l := mem[..], lists[c];
      ListedUnlessExcepted(b, lists, x, bp);
      ghost var k :| 0 <= k < |l| && l[k] == bp;
      assert ListOk(m, b, c, l);
      assert mem[c] != 0;
      UnlinkLists(m, b, brk, lists, c, k);
      Unlink(bp, c, l, k);
      TagsKept(m, mem[..], b, brk);
      LinksKeepLives(m, mem[..], b, brk);
      AllButAfterRemove(m, b, lists, c, k, x);
      lists := lists[c := Remove(l, k)];
    }

    /** The writes of `delete_from_free_list`. */
    method Unlink(bp: nat, c: nat, ghost l: seq<nat>, ghost k: nat)
      requires Chain(mem[..], c, l) && k < |l| && l[k] == bp && bp + 1 < mem.Length
      modifies mem
      ensures mem[..] == Unlinked(old(mem[..]), c, l, k)
    {
      hide Spaced;
      assert LinksAt(mem[..], l, k);
      if 0 < k < |l| - 1 {
        Apart(l, k - 1, k + 1);
      }
      var pred, succ := mem[bp], mem[bp + 1];
      if pred == 0 {
        mem[succ / 4] := 0;
        if succ == 0 {
          mem[c] := 0;
        } else {
          mem[c] := succ;
        }
      } else if succ == 0 {
        mem[pred / 4 + 1] := 0;
      } else {
        mem[succ / 4] := pred;
        mem[pred / 4 + 1] := succ;
      }
    }

    /** `insert_into_free_list` keeps the list of the block's class in address order. */
    method InsertIntoFreeList(bp: nat, ghost x: set<nat>)
      requires Formed() && IsFree(b, bp) && AllBut(b, lists, x + {bp}) && bp !in x
      modifies mem, this`lists
      ensures Formed() && AllBut(b, lists, x)
      ensures LivesKept(old(mem[..]), b, mem[..], b)
    {
      hide Tiles, Tags, ClassOf, LinkWord, Complete;
      FreeFacts(b, brk, bp);
      TagReads(bp);
      var size := SizeAt(bp - 1);
      var c := GetClass(size);
      ghost var m, l := mem[..], lists[c];
      ghost var k: nat;
      assert ListOk(m, b, c, l);
      if mem[c] == 0 {
        // this is the first free block of its class
        k := 0;
        LinkLists(m, b, brk, lists, c, k, bp);
        mem[bp] := 0;
        mem[bp + 1] := 0;
        mem[c] := Link(bp);
      } else {
        var lesser;
        lesser, k := FindPlace(bp, c);
        LinkLists(m, b, brk, lists, c, k, bp);
        LinkAfter(bp, c, lesser, l, k);
      }
      assert mem[..] == Linked(m, c, l, k, bp);
      TagsKept(m, mem[..], b, brk);
      LinksKeepLives(m, mem[..], b, brk);
      AllButAfterInsert(b, lists, c, k, bp, x);
      lists := lists[c := Insert(l, k, bp)];
    }

    /** The writes of `insert_into_free_list` into a nonempty list, after its element lesser or at its head. */
    method LinkAfter(bp: nat, c: nat, lesser: int, ghost l: seq<nat>, ghost k: nat)
      requires Chain(mem[..], c, l) && l != [] && Fits(l, k, bp) && 20 <= bp && bp + 4 <= mem.Length
      requires lesser == if k == 0 then NULL else l[k - 1]
      modifies mem
      ensures mem[..] == Linked(old(mem[..]), c, l, k, bp)
    {
      hide Spaced;
      if k > 0 {
        assert LinksAt(mem[..], l, k - 1);
        if k < |l| {
          Apart(l, k - 1, k);
        }
      }
      if lesser == NULL {
        // new block goes to the head
        var first := mem[c] / 4;
        mem[first] := Link(bp);
        mem[bp] := 0;
        mem[bp + 1] := Link(first);
        mem[c] := Link(bp);
      } else if mem[lesser + 1] == 0 {
        // new block goes to the tail
        mem[lesser + 1] := Link(bp);
        mem[bp] := Link(lesser);
        mem[bp + 1] := 0;
      } else {
        // new block goes to the middle
        var succ := mem[lesser + 1] / 4;
        mem[succ] := Link(bp);
        mem[lesser + 1] := Link(bp);
        mem[bp + 1] := Link(succ);
        mem[bp] := Link(lesser);
      }
    }

    /** The search of `insert_into_free_list` for the last block of the class before bp. */
    method FindPlace(bp: nat, c: nat) returns (lesser: int, ghost k: nat)
      requires Formed() && IsFree(b, bp) && Unlisted(lists, bp) && c < N_LISTS
      requires mem[c] != 0
      ensures k <= |lists[c]| && Fits(lists[c], k, bp)
      ensures lists[c] != [] && lesser == if k == 0 then NULL else lists[c][k - 1]
    {
      hide Tiles, Tags, ClassOf, Complete;
      ghost var l := lists[c];
      assert ListOk(mem[..], b, c, l);
      assert |l| > 0;
      var bp2: nat := mem[c] / 4;
      ghost var j := 0;
      lesser := NULL;
      while true
        invariant 0 <= j < |l| && bp2 == l[j] && lesser == NULL
        invariant forall i :: 0 <= i < j ==> l[i] < bp
        decreases |l| - j
      {
        assert LinksAt(mem[..], l, j);
        if bp2 > bp {
          k := j;
          if mem[bp2] == 0 {
            break;
          }
          lesser := mem[bp2] / 4;
          break;
        }
        assert l[j] in l;
        if mem[bp2 + 1] == 0 {
          k := j + 1;
          lesser := bp2;
          break;
        }
        bp2 := mem[bp2 + 1] / 4;
        j := j + 1;
      }
      FitsAt(bp, c, k);
    }

    lemma FitsAt(bp: nat, c: nat, k: nat)
      requires Formed() && IsFree(b, bp) && Unlisted(lists, bp) && c < N_LISTS && k <= |lists[c]|
      requires forall i :: 0 <= i < k ==> lists[c][i] < bp
      requires k < |lists[c]| ==> bp < lists[c][k]
      ensures Fits(lists[c], k, bp)
    {
      hide Tiles, Tags, ClassOf, Complete;
      var l := lists[c];
      assert ListOk(mem[..], b, c, l);
      forall i | 0 <= i < |l|
        ensures if i < k then l[i] + 4 <= bp else bp + 4 <= l[i]
      {
        assert Member(b, c, l[i]) && l[i] in l;
        FreeApart(b, brk, l[i], bp);
        if k < i { assert l[k] + 4 <= l[i]; }
      }
    }

    /** What the footer before a block says. */
    lemma PrevReads(p: nat)
      requires Formed() && p in b && p != FIRST
      ensures HasPrev(b, p)
      ensures var q := Before(b, p);
              && FIRST <= q && 2 <= b[q].words && p <= mem.Length
              && SizeAt(p - 2) == 4 * b[q].words && AllocAt(p - 2) == !IsFree(b, q)
              && (IsFree(b, q) ==> q != FIRST)
    {
      hide Lists;
      assert HasPrev(b, p);
      TagReads(Before(b, p));
      TagReads(p);
    }

    /** `coalesce` joins a listed free block with its free neighbours, in all four cases. */
    method Coalesce(bp: nat) returns (r: nat)
      requires Valid() && IsFree(b, bp)
      modifies mem, this`lists, this`b
      ensures Valid() && LivesKept(old(mem[..]), old(b), mem[..], b)
      ensures HasPrev(old(b), bp) && old(b)[bp].words > 0
      ensures b == Coalesced(old(b), bp) && r == CoalescedAt(old(b), bp) && IsFree(b, r)
    {
      hide Tiles, Tags, Lists, AllBut, ClassOf;
      FreeFacts(b, brk, bp);
      TagReads(bp);
      NextReads(bp);
      PrevReads(bp);
      var prev: nat := bp - SizeAt(bp - 2) / 4;
      var next: nat := bp + SizeAt(bp - 1) / 4;
      var prevAlloc := AllocAt(bp - 2);
      var nextAlloc := AllocAt(next - 1);
      if prevAlloc && nextAlloc {
        r := bp;
      } else if prevAlloc {
        r := bp;
        JoinNext(bp, next);
      } else if nextAlloc {
        r := prev;
        JoinPrev(bp, prev);
      } else {
        r := prev;
        JoinBoth(bp, prev, next);
      }
    }

    /** The end of a join: the tags of the joined block p are written over the unlisted blocks x; list it. */
    method InsertJoined(p: nat, ghost m: seq<U32>, ghost x: set<nat>, ghost b': Blocks)
      requires brk <= mem.Length == |m| < 0x2000_0000
      requires Tiles(b, brk) && Tags(m, b, brk) && Lists(m, b, lists) && AllBut(b, lists, x) && p in x
      requires Tiles(b', brk) && IsFree(b', p) && !(p in b && b[p].alloc)
      requires forall r {:trigger r in b'} :: r in b' && r != p ==> r in b && b'[r] == b[r] && r !in x
      requires forall r {:trigger r in b} :: r in b && r !in x ==> r in b'
      requires forall r :: r in x && r in b && r != p ==> !b[r].alloc
      requires 0 < p && 2 <= b'[p].words && p + b'[p].words <= |m|
      requires mem[..] == m[p - 1 := 4 * b'[p].words][p + b'[p].words - 2 := 4 * b'[p].words]
      modifies mem, this`lists, this`b
      ensures Valid() && b == b' && LivesKept(m, old(b), mem[..], b)
    {
      hide Tiles, Tags, Lists, AllBut, ClassOf, LivesKept, KeptAt;
      FreeFacts(b', brk, p);
      Regroup(m, b, brk, lists, x, b', p, mem[..]);
      ghost var m1, b0 := mem[..], b;
      b := b';
      assert {} + {p} == {p};
      InsertIntoFreeList(p, {});
      LivesKeptThrough(m, b0, m1, b, mem[..], b);
    }

    /** Unlisting two free blocks. */
    method DeleteTwo(p: nat, q: nat)
      requires Valid() && IsFree(b, p) && IsFree(b, q) && p != q
      modifies mem, this`lists
      ensures Formed() && AllBut(b, lists, {p, q}) && LivesKept(old(mem[..]), b, mem[..], b)
    {
      hide Tiles, Tags, Lists, AllBut, ClassOf, LivesKept, KeptAt;
      ghost var m0 := mem[..];
      DeleteFromFreeList(p, {});
      ghost var m1 := mem[..];
      assert {} + {p} == {p};
      DeleteFromFreeList(q, {p});
      assert {p} + {q} == {p, q};
      LivesKeptThrough(m0, b, m1, b, mem[..], b);
    }

    /** Case 2: the next block is free. */
    method JoinNext(bp: nat, next: nat)
      requires Valid() && IsFree(b, bp) && next == bp + b[bp].words && IsFree(b, next)
      modifies mem, this`lists, this`b
      ensures Valid() && LivesKept(old(mem[..]), old(b), mem[..], b)
      ensures b == Merge(old(b), bp) && IsFree(b, bp)
    {
      hide Tiles, Tags, Lists, AllBut, ClassOf, LivesKept, KeptAt;
      FreeFacts(b, brk, bp);
      FreeFacts(b, brk, next);
      ghost var m0, b0, b1 := mem[..], b, Merge(b, bp);
      DeleteTwo(bp, next);
      ghost var m2 := mem[..];
      TagReads(bp);
      TagReads(next);
      var size := SizeAt(bp - 1) + SizeAt(next - 1);
      MergeTiles(b, brk, bp);
      AnyFacts(b1, brk, bp);
      TagDecodes(b1[bp]);
      mem[bp - 1] := size;
      mem[bp + SizeAt(bp - 1) / 4 - 2] := size;
      InsertJoined(bp, m2, {bp, next}, b1);
      LivesKeptThrough(m0, b0, m2, b0, mem[..], b1);
    }

    /** Case 3: the previous block is free. */
    method JoinPrev(bp: nat, prev: nat)
      requires Valid() && IsFree(b, bp) && IsFree(b, prev) && prev + b[prev].words == bp
      modifies mem, this`lists, this`b
      ensures Valid() && LivesKept(old(mem[..]), old(b), mem[..], b)
      ensures b == Merge(old(b), prev) && IsFree(b, prev)
    {
      hide Tiles, Tags, Lists, AllBut, ClassOf, LivesKept, KeptAt;
      FreeFacts(b, brk, bp);
      FreeFacts(b, brk, prev);
      ghost var m0, b0, b1 := mem[..], b, Merge(b, prev);
      DeleteTwo(bp, prev);
      ghost var m2 := mem[..];
      TagReads(bp);
      TagReads(prev);
      var size := SizeAt(bp - 1) + SizeAt(prev - 1);
      MergeTiles(b, brk, prev);
      AnyFacts(b1, brk, prev);
      mem[bp + SizeAt(bp - 1) / 4 - 2] := size;
      mem[prev - 1] := size;
      InsertJoined(prev, m2, {bp, prev}, b1);
      LivesKeptThrough(m0, b0, m2, b0, mem[..], b1);
    }

    /** Case 4: both neighbours are free. */
    method JoinBoth(bp: nat, prev: nat, next: nat)
      requires Valid() && IsFree(b, bp) && IsFree(b, prev) && prev + b[prev].words == bp
      requires next == bp + b[bp].words && IsFree(b, next)
      modifies mem, this`lists, this`b
      ensures Valid() && LivesKept(old(mem[..]), old(b), mem[..], b)
      ensures MergedTwice(old(b), bp, prev, b) && IsFree(b, prev)
    {
      hide Tiles, Tags, Lists, AllBut, ClassOf, LivesKept, KeptAt, Merge;
      ghost var m0, b0 := mem[..], b;
      ghost var b2 := TwoMerged(b, brk, bp, prev, next);
      DeleteTwo(bp, next);
      ghost var m2 := mem[..];
      DeleteFromFreeList(prev, {bp, next});
      ghost var m3 := mem[..];
      assert {bp, next, prev} == {bp, next} + {prev};
      LivesKeptThrough(m0, b0, m2, b0, m3, b0);
      TagReads(bp);
      TagReads(prev);
      TagReads(next);
      var size := SizeAt(bp - 1) + SizeAt(prev - 1) + SizeAt(next + SizeAt(next - 1) / 4 - 2);
      mem[prev - 1] := size;
      mem[next + SizeAt(next - 1) / 4 - 2] := size;
      InsertJoined(prev, m3, {bp, next, prev}, b2);
      LivesKeptThrough(m0, b0, m3, b0, mem[..], b2);
    }

    /** `find_fit` is global best fit, although it searches one size class at a time. */
    method FindFit(asize: U32) returns (r: int)
      requires Valid() && 16 <= asize
      ensures BestFit(b, asize, r)
    {
      hide Tiles, Tags, ClassOf, AllBut, Chain;
      var c := GetClass(asize);
      LowestClass(asize);
      while c <= N_LISTS
        invariant c <= N_LISTS + 1
        invariant ClassesFrom(b, asize, c)
      {
        if mem[c] != 0 {
          r := BestInClass(asize, c);
          HigherClassesLarger(asize, c, r);
          if r != NULL {
            return;
          }
        } else {
          EmptyClass(c, asize);
        }
        c := c + 1;
      }
      return NULL;
    }

    lemma LowestClass(asize: U32)
      requires Formed() && 16 <= asize
      ensures ClassesFrom(b, asize, ClassOf(asize))
    {
      hide Tiles, Tags, Lists, ClassOf;
      forall p | Fitting(b, p, asize)
        ensures b[p].words > 0 && ClassOf(asize) <= ClassOf(4 * b[p].words)
      {
        ClassMonotone(asize, 4 * b[p].words);
      }
    }

    lemma EmptyClass(c: nat, asize: U32)
      requires Valid() && c <= N_LISTS && mem[c] == 0 && ClassesFrom(b, asize, c)
      ensures ClassesFrom(b, asize, c + 1)
    {
      hide Tiles, Tags, ClassOf, Listed, Lists;
      forall p | Fitting(b, p, asize)
        ensures b[p].words > 0 && c + 1 <= ClassOf(4 * b[p].words)
      {
        ListedUnlessExcepted(b, lists, {}, p);
        ListedHead(c, p);
      }
    }

    lemma ListedHead(c: nat, p: nat)
      requires Formed() && IsFree(b, p) && b[p].words > 0 && Listed(b, lists, p) && c <= N_LISTS && mem[c] == 0
      ensures ClassOf(4 * b[p].words) != c
    {
      hide Tiles, Tags, ClassOf;
      if c < N_LISTS {
        assert ListOk(mem[..], b, c, lists[c]);
      }
    }

    /** The best fit of the first class that has one is the best fit of all. */
    lemma HigherClassesLarger(asize: U32, c: nat, r: int)
      requires Valid() && 16 <= asize && c < N_LISTS && ClassesFrom(b, asize, c) && BestOf(b, lists[c], asize, r)
      ensures r == NULL ==> ClassesFrom(b, asize, c + 1)
      ensures r != NULL ==> BestFit(b, asize, r)
    {
      hide Tiles, Tags, ClassOf, AllBut, Lists;
      ListMembers(mem[..], b, lists);
      forall q | Fitting(b, q, asize)
        ensures b[q].words > 0
        ensures r == NULL ==> c + 1 <= ClassOf(4 * b[q].words)
        ensures r != NULL ==> Better(b, r, q)
      {
        ListedUnlessExcepted(b, lists, {}, q);
        if r != NULL {
          assert Member(b, c, r);
          if b[q].words <= b[r].words {
            ClassMonotone(4 * b[q].words, 4 * b[r].words);
          }
        }
      }
    }

    /** The inner loop of `find_fit`: the best fit within one list. */
    method BestInClass(asize: U32, c: nat) returns (curFit: int)
      requires Formed() && 16 <= asize && c <= N_LISTS && mem[c] != 0
      ensures c < N_LISTS && BestOf(b, lists[c], asize, curFit)
    {
      hide Tiles, Tags, ClassOf, Spaced;
      ghost var l := lists[c];
      assert ListOk(mem[..], b, c, l);
      assert |l| > 0;
      curFit := NULL;
      var curBestSize := 0;
      var bp: nat := mem[c] / 4;
      ghost var j := 0;
      while true
        invariant 0 <= j < |l| && bp == l[j]
        invariant BestOf(b, l[..j], asize, curFit)
        invariant curBestSize == if curFit == NULL then 0 else 4 * b[curFit].words
        decreases |l| - j
      {
        assert LinksAt(mem[..], l, j);
        assert Member(b, c, l[j]);
        TagReads(bp);
        var sz := SizeAt(bp - 1);
        ExtendBest(l, j, asize, curFit);
        if sz >= asize && (curBestSize == 0 || sz < curBestSize) {
          curBestSize := sz;
          curFit := bp;
        }
        if mem[bp + 1] == 0 {
          assert l[..j + 1] == l;
          break;
        }
        bp := mem[bp + 1] / 4;
        j := j + 1;
      }
    }

    /** One more block, at a higher address than the ones seen so far. */
    lemma ExtendBest(l: seq<nat>, j: nat, asize: nat, cur: int)
      requires j < |l| && Spaced(l) && IsFree(b, l[j]) && BestOf(b, l[..j], asize, cur)
      ensures BestOf(b, l[..j + 1], asize,
                     if asize <= 4 * b[l[j]].words && (cur == NULL || b[l[j]].words < b[cur].words) then l[j] else cur)
    {
      assert l[..j + 1] == l[..j] + [l[j]];
      assert forall q :: q in l[..j] ==> q < l[j];
    }

    // ---- allocating

    /** Write an allocated block of w1 words and a free one of w2 words after it, and list the latter. The blocks in x,
        already unlisted, give way to them. */
    method WriteTwo(bp: nat, w1: nat, w2: nat, ghost x: set<nat>, ghost b': Blocks)
      requires Formed() && AllBut(b, lists, x) && bp in x
      requires Tiles(b', brk) && bp in b' && bp != FIRST && b'[bp] == Block(w1, true)
      requires 4 <= w1 && 4 <= w2 && w1 % 2 == 0 && w2 % 2 == 0
      requires bp + w1 !in b && bp + w1 in b' && b'[bp + w1] == Block(w2, false)
      requires forall r {:trigger r in b'} :: r in b' && r != bp && r != bp + w1 ==> r in b && b'[r] == b[r] && r !in x
      requires forall r {:trigger r in b} :: r in b && r !in x ==> r in b'
      requires forall r :: r in x && r in b && r != bp ==> !b[r].alloc
      modifies mem, this`lists, this`b
      ensures Valid() && b == b'
      ensures forall r {:trigger KeptAt(old(mem[..]), old(b), mem[..], b, r)} ::
                r in old(b) && old(b)[r].alloc && r != bp ==> KeptAt(old(mem[..]), old(b), mem[..], b, r)
      ensures !(bp in old(b) && old(b)[bp].alloc) ==> LivesKept(old(mem[..]), old(b), mem[..], b)
      ensures bp + w1 <= mem.Length
      ensures forall i :: bp <= i < bp + w1 - 2 ==> mem[i] == old(mem[i])
    {
      hide Tiles, Tags, Lists, AllBut, ClassOf;
      ghost var q := bp + w1;
      AnyFacts(b', brk, bp);
      AnyFacts(b', brk, q);
      ghost var m, b0 := mem[..], b;
      var rest := TwoTags(bp, w1, w2);
      RegroupTwo(m, b, brk, lists, x, b', bp, q, mem[..]);
      ghost var m1 := mem[..];
      b := b';
      assert {} + {q} == {q};
      InsertIntoFreeList(rest, {});
      assert KeptAt(m1, b, mem[..], b, bp);
      forall r | r in b0 && b0[r].alloc && r != bp
        ensures KeptAt(m, b0, mem[..], b, r)
      {
        assert KeptAt(m, b0, m1, b, r);
        assert KeptAt(m1, b, mem[..], b, r);
      }
    }

    /** PUT the header of bp, then the footer that the new header leads to. */
    method PutTags(bp: nat, t: Block)
      requires 4 <= t.words && t.words % 2 == 0 && 0 < bp && bp + t.words <= mem.Length < 0x2000_0000
      modifies mem
      ensures mem[..] == old(mem[..])[bp - 1 := Tag(t)][bp + t.words - 2 := Tag(t)]
    {
      TagDecodes(t);
      mem[bp - 1] := Tag(t);
      mem[bp + SizeAt(bp - 1) / 4 - 2] := Tag(t);
    }

    /** The four tags of an allocated block followed by a free one. */
    method TwoTags(bp: nat, w1: nat, w2: nat) returns (rest: nat)
      requires 4 <= w1 && 4 <= w2 && w1 % 2 == 0 && w2 % 2 == 0 && 0 < bp
      requires bp + w1 + w2 <= mem.Length && mem.Length < 0x2000_0000
      modifies mem
      ensures rest == bp + w1
      ensures mem[..] == old(mem[..])[bp - 1 := Tag(Block(w1, true))][rest - 2 := Tag(Block(w1, true))]
                                     [rest - 1 := Tag(Block(w2, false))][rest + w2 - 2 := Tag(Block(w2, false))]
    {
      hide Tag;
      PutTags(bp, Block(w1, true));
      TagDecodes(Block(w1, true));
      rest := bp + SizeAt(bp - 1) / 4;
      PutTags(rest, Block(w2, false));
    }

    /** Write one allocated block of w words where the unlisted blocks in x were. */
    method WriteOne(bp: nat, w: nat, ghost x: set<nat>, ghost b': Blocks)
      requires Formed() && AllBut(b, lists, x) && bp in x
      requires Tiles(b', brk) && bp in b' && bp != FIRST && b'[bp] == Block(w, true)
      requires forall r {:trigger r in b'} :: r in b' && r != bp ==> r in b && b'[r] == b[r] && r !in x
      requires forall r {:trigger r in b} :: r in b && r !in x ==> r in b'
      requires forall r :: r in x && r in b && r != bp ==> !b[r].alloc
      modifies mem, this`b
      ensures Valid() && b == b'
      ensures forall r {:trigger KeptAt(old(mem[..]), old(b), mem[..], b, r)} ::
                r in old(b) && old(b)[r].alloc && r != bp ==> KeptAt(old(mem[..]), old(b), mem[..], b, r)
      ensures !(bp in old(b) && old(b)[bp].alloc) ==> LivesKept(old(mem[..]), old(b), mem[..], b)
      ensures bp + w <= mem.Length
      ensures forall i :: bp <= i < bp + w - 2 ==> mem[i] == old(mem[i])
    {
      hide Tiles, Tags, Lists, AllBut, ClassOf;
      AnyFacts(b', brk, bp);
      ghost var m := mem[..];
      PutTags(bp, Block(w, true));
      Regroup(m, b, brk, lists, x, b', bp, mem[..]);
      b := b';
    }

    /** `place` */
    method Place(bp: nat, asize: nat)
      requires Valid() && IsFree(b, bp) && 16 <= asize <= 4 * b[bp].words && asize % 8 == 0
      modifies mem, this`lists, this`b
      ensures Valid() && b == Placed(old(b), bp, asize / 4)
      ensures LivesKept(old(mem[..]), old(b), mem[..], b)
    {
      hide Tiles, Tags, Lists, AllBut, ClassOf, KeptAt, LivesKept;
      ghost var m0, b0 := mem[..], b;
      ghost var b' := Placed(b, bp, asize / 4);
      FreeFacts(b, brk, bp);
      PlacedTiles(b, brk, bp, asize / 4);
      DeleteFromFreeList(bp, {});
      assert {} + {bp} == {bp};
      ghost var m1 := mem[..];
      TagReads(bp);
      var csize: nat := SizeAt(bp - 1);
      if csize - asize >= 16 {
        SplitFresh(b, brk, bp, asize / 4);
        WriteTwo(bp, asize / 4, (csize - asize) / 4, {bp}, b');
      } else {
        WriteOne(bp, csize / 4, {bp}, b');
      }
      LivesKeptThrough(m0, b0, m1, b0, mem[..], b');
    }

    /** `mem_sbrk`, in bytes. */
    method MemSbrk(incr: int) returns (oldBrk: int)
      requires brk <= mem.Length && incr % 4 == 0
      modifies this`brk
      ensures brk <= mem.Length
      ensures if incr < 0 || 4 * old(brk) + incr > 4 * mem.Length then oldBrk == NULL && brk == old(brk)
              else oldBrk == old(brk) && brk == old(brk) + incr / 4
    {
      oldBrk := brk;
      if incr < 0 || 4 * brk + incr > 4 * mem.Length {
        return NULL;
      }
      brk := brk + incr / 4;
    }

    /** `extend_heap`, by the least even number of words that is at least 4 and at least the number asked for. */
    method ExtendHeap(words: nat) returns (r: int)
      requires Valid()
      modifies mem, this`lists, this`b, this`brk
      ensures Valid()
      ensures if old(brk) + EvenWords(words) > mem.Length
              then r == NULL && b == old(b) && brk == old(brk) && mem[..] == old(mem[..]) && lists == old(lists)
              else 0 <= r && Grown(old(b), old(brk), EvenWords(words), b, r) && brk == old(brk) + EvenWords(words)
      ensures LivesKept(old(mem[..]), old(b), mem[..], b)
    {
      hide Valid, Grown, LivesKept;
      var size := if words % 2 != 0 then (words + 1) * 4 else words * 4;
      if size < 16 {
        size := 16;
      }
      EvenFits(words);
      r := ExtendBy(size / 4);
    }

    /** The rest of `extend_heap`. */
    method ExtendBy(words: nat) returns (r: int)
      requires Valid() && 4 <= words && words % 2 == 0
      modifies mem, this`lists, this`b, this`brk
      ensures Valid()
      ensures if old(brk) + words > mem.Length
              then r == NULL && b == old(b) && brk == old(brk) && mem[..] == old(mem[..]) && lists == old(lists)
              else 0 <= r && Grown(old(b), old(brk), words, b, r) && brk == old(brk) + words
      ensures LivesKept(old(mem[..]), old(b), mem[..], b)
    {
      hide Tiles, Tags, Lists, AllBut, ClassOf, KeptAt, LivesKept;
      EndEven(b, brk);
      ghost var m0, b0, end := mem[..], b, brk;
      var bp := MemSbrk(4 * words);
      if bp == NULL {
        KeepsAll(mem[..], b);
        return NULL;
      }
      FreshBlock(bp, words);
      ghost var m1, b1 := mem[..], b;
      assert {} + {end} == {end};
      InsertIntoFreeList(bp, {});
      ghost var m2 := mem[..];
      r := Coalesce(bp);
      LivesKeptThrough(m0, b0, m1, b1, m2, b1);
      LivesKeptThrough(m0, b0, m2, b1, mem[..], b);
    }

    /** The tags of a free block at the old end of the heap, and the new epilogue. */
    method FreshBlock(bp: nat, words: nat)
      requires 4 <= words && words % 2 == 0 && FIRST < bp && brk == bp + words <= mem.Length < 0x2000_0000
      requires Tiles(b, bp) && Tags(mem[..], b, bp) && Lists(mem[..], b, lists) && AllBut(b, lists, {})
      modifies mem, this`b
      ensures b == Extend(old(b), bp, words) && Formed() && AllBut(b, lists, {bp})
      ensures LivesKept(old(mem[..]), old(b), mem[..], b)
    {
      hide Tiles, Tags, Lists, AllBut, ClassOf, KeptAt;
      ghost var m0, b0 := mem[..], b;
      var size := 4 * words;
      TagDecodes(Block(words, false));
      mem[bp - 1] := size;
      mem[bp + SizeAt(bp - 1) / 4 - 2] := size;
      mem[bp + SizeAt(bp - 1) / 4 - 1] := 1;
      ExtendState(m0, b0, bp, lists, words, mem[..]);
      b := Extend(b0, bp, words);
    }

    lemma KeepsAll(m: seq<U32>, b: Blocks)
      ensures LivesKept(m, b, m, b)
    {
    }

    // ---- the interface

    /** `mem_init`: the storage, not yet initialized, and an empty heap in it. */
    constructor (capacity: nat)
      requires capacity < 0x2000_0000
      ensures fresh(mem) && mem.Length == capacity && brk == 0
    {
      mem := new U32[capacity];
      brk := 0;
      b := map[];
      lists := NO_LISTS;
    }

    /** `mm_init` */
    method Init() returns (r: int)
      requires brk == 0 && mem.Length < 0x2000_0000
      modifies mem, this`brk, this`b, this`lists
      ensures r == 0 ==> Valid() && NoAdjacentFree(b)
      ensures r == 0 ==> brk == 1044 && b == map[18 := Block(2, true), 20 := Block(1024, false)]
      ensures r == (if mem.Length >= 20 + 1024 then 0 else -1)
    {
      hide ClassOf;
      var start := MemSbrk(80);
      if start == NULL {
        return -1;
      }
      mem[0] := 0;
      for off := 1 to N_LISTS + 1
        invariant brk == 20 && forall i :: 0 <= i < off ==> mem[i] == 0
      {
        mem[off] := 0;
      }
      mem[N_LISTS + 1] := 9;
      mem[N_LISTS + 2] := 9;
      mem[N_LISTS + 3] := 1;
      b := map[FIRST := Block(2, true)];
      lists := NO_LISTS;
      InitialState(mem[..]);
      var bp := ExtendHeap(CHUNK_WORDS);
      if bp == NULL {
        return -1;
      }
      FirstChunk(b, bp);
      return 0;
    }

    /** `mm_free` */
    method Free(bp: nat)
      requires Valid() && bp in b && b[bp].alloc && bp != FIRST
      modifies mem, this`lists, this`b
      ensures Valid() && Freed(old(b), bp, b)
      ensures forall r {:trigger KeptAt(old(mem[..]), old(b), mem[..], b, r)} ::
                r in old(b) && old(b)[r].alloc && r != bp ==> KeptAt(old(mem[..]), old(b), mem[..], b, r)
    {
      hide Tiles, Tags, Lists, AllBut, ClassOf;
      ghost var m0, b0 := mem[..], b;
      AnyFacts(b, brk, bp);
      TagReads(bp);
      MarkTiles(b, brk, bp, false);
      NewUnlisted(mem[..], b, lists, bp);
      AllButMore(b, lists, {}, bp);
      assert {} + {bp} == {bp};
      var size := SizeAt(bp - 1);
      PutTags(bp, Block(size / 4, false));
      ghost var b1 := Mark(b, bp, false);
      Regroup(m0, b0, brk, lists, {bp}, b1, bp, mem[..]);
      b := b1;
      ghost var m1 := mem[..];
      assert {} + {bp} == {bp};
      InsertIntoFreeList(bp, {});
      ghost var m2 := mem[..];
      var _ := Coalesce(bp);
      LivesKeptThrough(m1, b1, m2, b1, mem[..], b);
      forall r | r in b0 && b0[r].alloc && r != bp
        ensures KeptAt(m0, b0, mem[..], b, r)
      {
        assert KeptAt(m0, b0, m1, b1, r);
        assert KeptAt(m1, b1, mem[..], b, r);
      }
    }

    /** `mm_malloc` */
    method Malloc(size: nat) returns (r: int)
      requires Valid() && size <= MAX_REQUEST
      modifies mem, this`lists, this`b, this`brk
      ensures Valid() && Malloced(old(b), old(brk), mem.Length, size, b, brk, r)
      ensures LivesKept(old(mem[..]), old(b), mem[..], b)
    {
      hide Tiles, Tags, Lists, AllBut, ClassOf, LivesKept, BestFit, Grown, Placed, Malloced;
      ghost var m0, b0, end := mem[..], b, brk;
      if size == 0 {
        KeepsAll(m0, b0);
        NothingServed(b, brk, mem.Length);
        return NULL;
      }
      var asize := Adjusted(size);
      r := FindFit(asize);
      if r != NULL {
        BestFits(b, asize, r);
        Place(r, asize);
        FitServes(b0, end, mem.Length, size, r, b);
        return;
      }
      var extendsize := if asize > CHUNKSIZE then asize else CHUNKSIZE;
      r := ExtendHeap(extendsize / 4);
      if r == NULL {
        GrowthFails(b0, end, mem.Length, size);
        return NULL;
      }
      ghost var m1, b1 := mem[..], b;
      GrownFits(b0, end, extendsize / 4, b, r, brk);
      Place(r, asize);
      GrowthServes(b0, end, mem.Length, size, b1, r, b, extendsize / 4);
      LivesKeptThrough(m0, b0, m1, b1, mem[..], b);
    }

    /** Storing into a live payload, as `memcpy` and the program that owns the block do. */
    method Store(p: nat, i: nat, v: U32)
      requires Formed() && p in b && b[p].alloc && p != FIRST && i < b[p].words - 2
      modifies mem
      ensures Formed() && p + i < mem.Length && mem[..] == old(mem[..])[p + i := v]
      ensures forall r {:trigger KeptAt(old(mem[..]), b, mem[..], b, r)} ::
                r in b && r != p ==> KeptAt(old(mem[..]), b, mem[..], b, r)
    {
      hide Tiles, Tags, Lists;
      AnyFacts(b, brk, p);
      ghost var m := mem[..];
      mem[p + i] := v;
      PayloadState(m, b, brk, lists, p, p + i, p + i + 1, mem[..]);
    }

    /** `memcpy` of n payload words into another block. */
    method CopyPayload(dst: nat, src: nat, n: nat)
      requires Valid() && dst in b && src in b && dst != src && b[dst].alloc && dst != FIRST
      requires n <= b[dst].words - 2 && n <= b[src].words - 2
      modifies mem
      ensures Valid()
      ensures dst + n <= mem.Length && src + n <= mem.Length && mem[dst..dst + n] == old(mem[src..src + n])
      ensures forall r {:trigger KeptAt(old(mem[..]), b, mem[..], b, r)} ::
                r in b && r != dst ==> KeptAt(old(mem[..]), b, mem[..], b, r)
    {
      hide Tiles, Tags, Lists, AllBut;
      AnyFacts(b, brk, dst);
      AnyFacts(b, brk, src);
      BlocksApart(b, brk, dst, src);
      ghost var m := mem[..];
      for i := 0 to n
        invariant SameOutside(m, mem[..], dst, dst + i)
        invariant mem[dst..dst + i] == m[src..src + i]
      {
        mem[dst + i] := mem[src + i];
        assert mem[dst..dst + i + 1] == mem[dst..dst + i] + [mem[dst + i]];
        assert m[src..src + i + 1] == m[src..src + i] + [m[src + i]];
      }
      PayloadState(m, b, brk, lists, dst, dst, dst + n, mem[..]);
    }

    /** `mm_realloc`. The result keeps the old contents up to the smaller of the two sizes, on every path. */
    method Realloc(ptr: nat, size: nat) returns (r: int)
      requires Valid() && ptr in b && b[ptr].alloc && ptr != FIRST && size <= MAX_REQUEST
      modifies mem, this`lists, this`b, this`brk
      ensures Valid() && Realloced(old(b), old(brk), mem.Length, ptr, size, b, brk, r)
      ensures r != NULL ==> 0 <= r && r in b && b[r].alloc && size <= 4 * (b[r].words - 2)
      ensures r != NULL ==> ReallocKeeps(old(mem[..]), old(b)[ptr].words - 2, ptr, size, mem[..], r)
      ensures r == NULL && size != 0 ==> KeptAt(old(mem[..]), old(b), mem[..], b, ptr)
      ensures forall q {:trigger KeptAt(old(mem[..]), old(b), mem[..], b, q)} ::
                q in old(b) && old(b)[q].alloc && q != ptr ==> KeptAt(old(mem[..]), old(b), mem[..], b, q)
    {
      hide Tiles, Tags, Lists, AllBut, ClassOf, KeptAt, Realloced, ReallocKeeps, Freed, Absorbs;
      AnyFacts(b, brk, ptr);
      TagReads(ptr);
      NextReads(ptr);
      var oldSize := SizeAt(ptr - 1);
      var oldPayload := oldSize - 8;
      if size == 0 {
        ghost var b0 := b;
        Free(ptr);
        ZeroRealloced(b0, brk, mem.Length, ptr, b);
        return NULL;
      }
      if size <= oldPayload {
        Shrink(ptr, size);
        return ptr;
      }
      var next: nat := ptr + SizeAt(ptr - 1) / 4;
      var nextSize := SizeAt(next - 1);
      if AllocAt(next - 1) || size - oldSize + 8 > nextSize {
        NotAbsorbed(ptr, size, nextSize);
        r := Move(ptr, size);
      } else {
        IsAbsorbed(ptr, size, nextSize);
        Absorb(ptr, size);
        r := ptr;
      }
    }

    lemma IsAbsorbed(ptr: nat, size: nat, nextSize: int)
      requires Formed() && ptr in b && IsFree(b, ptr + b[ptr].words)
      requires ptr + b[ptr].words <= brk && 0 < ptr + b[ptr].words && nextSize == SizeAt(ptr + b[ptr].words - 1)
      requires size - 4 * b[ptr].words + 8 <= nextSize
      ensures Absorbs(b, ptr, size)
    {
      hide Tiles, Tags, Lists;
      TagReads(ptr + b[ptr].words);
    }

    lemma NotAbsorbed(ptr: nat, size: nat, nextSize: int)
      requires Formed() && ptr in b
      requires ptr + b[ptr].words <= brk && 0 < ptr + b[ptr].words && nextSize == SizeAt(ptr + b[ptr].words - 1)
      requires AllocAt(ptr + b[ptr].words - 1) || size - 4 * b[ptr].words + 8 > nextSize
      ensures !Absorbs(b, ptr, size)
    {
      hide Tiles, Tags, Lists;
      if IsFree(b, ptr + b[ptr].words) {
        TagReads(ptr + b[ptr].words);
      }
    }

    /** The request fits the block: give back the end of the block when that can hold another. */
    method Shrink(ptr: nat, size: nat)
      requires Valid() && ptr in b && b[ptr].alloc && ptr != FIRST && 0 < size && size + 8 <= 4 * b[ptr].words
      modifies mem, this`lists, this`b
      ensures Valid() && Realloced(old(b), brk, mem.Length, ptr, size, b, brk, ptr)
      ensures ptr in b && b[ptr].alloc && size <= 4 * (b[ptr].words - 2)
      ensures ReallocKeeps(old(mem[..]), old(b)[ptr].words - 2, ptr, size, mem[..], ptr)
      ensures forall q {:trigger KeptAt(old(mem[..]), old(b), mem[..], b, q)} ::
                q in old(b) && old(b)[q].alloc && q != ptr ==> KeptAt(old(mem[..]), old(b), mem[..], b, q)
    {
      hide Tiles, Tags, Lists, AllBut, ClassOf, KeptAt, Realloced, ReallocKeeps, Split, Adjusted, Tag;
      ghost var m0, b0 := mem[..], b;
      AnyFacts(b, brk, ptr);
      TagReads(ptr);
      var asize := Adjusted(size);
      var csize: nat := SizeAt(ptr - 1);
      ShrunkWords(b[ptr].words, size);
      if csize - asize >= 16 {
        NewUnlisted(mem[..], b, lists, ptr);
        AllButMore(b, lists, {}, ptr);
        assert {} + {ptr} == {ptr};
        SplitTiles(b, brk, ptr, asize / 4, true, false);
        SplitFresh(b, brk, ptr, asize / 4);
        SplitShape(b, ptr, asize / 4);
        WriteTwo(ptr, asize / 4, (csize - asize) / 4, {ptr}, Split(b, ptr, asize / 4, true, false));
        ShrunkKeeps(m0, mem[..], b0[ptr].words - 2, ptr, size, asize / 4 - 2);
      } else {
        AllKept(m0, b0, ptr);
        ShrunkKeeps(m0, mem[..], b0[ptr].words - 2, ptr, size, b0[ptr].words - 2);
      }
      ShrunkRealloced(b0, brk, mem.Length, ptr, size, b);
    }

    /** The next block, already unlisted, is absorbed into the block at ptr; w of the total words are needed. */
    method Regrow(ptr: nat, w: nat, total: nat)
      requires Formed() && ptr in b && b[ptr].alloc && ptr != FIRST && IsFree(b, ptr + b[ptr].words)
      requires AllBut(b, lists, {ptr, ptr + b[ptr].words})
      requires w % 2 == 0 && 4 <= w && b[ptr].words < w <= total
      requires total == b[ptr].words + b[ptr + b[ptr].words].words
      modifies mem, this`lists, this`b
      ensures ptr in Merge(old(b), ptr) && w <= Merge(old(b), ptr)[ptr].words
      ensures Valid() && b == Placed(Merge(old(b), ptr), ptr, w)
      ensures ptr in b && b[ptr].alloc && w <= b[ptr].words && ptr + b[ptr].words <= mem.Length
      ensures forall i :: ptr <= i < ptr + w - 2 ==> mem[i] == old(mem[i])
      ensures forall q {:trigger KeptAt(old(mem[..]), old(b), mem[..], b, q)} ::
                q in old(b) && old(b)[q].alloc && q != ptr ==> KeptAt(old(mem[..]), old(b), mem[..], b, q)
    {
      hide Tiles, Tags, Lists, AllBut, ClassOf, Placed, Merge, KeptAt;
      AnyFacts(b, brk, ptr);
      AnyFacts(b, brk, ptr + b[ptr].words);
      ghost var x := {ptr, ptr + b[ptr].words};
      AbsorbShape(b, brk, ptr, w);
      ghost var b' := Placed(Merge(b, ptr), ptr, w);
      AnyFacts(b', brk, ptr);
      if total - w >= 4 {
        WriteTwo(ptr, w, total - w, x, b');
      } else {
        WriteOne(ptr, total, x, b');
      }
    }

    /** Unlist the free block after ptr; csize is what the two hold together. */
    method UnlistNext(ptr: nat) returns (csize: nat)
      requires Valid() && ptr in b && b[ptr].alloc && IsFree(b, ptr + b[ptr].words)
      modifies mem, this`lists
      ensures Formed() && AllBut(b, lists, {ptr, ptr + b[ptr].words}) && LivesKept(old(mem[..]), b, mem[..], b)
      ensures csize == 4 * (b[ptr].words + b[ptr + b[ptr].words].words)
    {
      hide Tiles, Tags, Lists, AllBut, ClassOf, LivesKept;
      TagReads(ptr);
      var next: nat := ptr + SizeAt(ptr - 1) / 4;
      TagReads(next);
      csize := SizeAt(ptr - 1) + SizeAt(next - 1);
      DeleteFromFreeList(next, {});
      assert {} + {next} == {next};
      NewUnlisted(mem[..], b, lists, ptr);
      AllButMore(b, lists, {next}, ptr);
      assert {next} + {ptr} == {ptr, next};
    }

    /** The next block is free and makes the block large enough: take what is needed of it. */
    method Absorb(ptr: nat, size: nat)
      requires Valid() && ptr in b && b[ptr].alloc && ptr != FIRST
      requires 4 * b[ptr].words < size + 8 && Absorbs(b, ptr, size) && 0 < size
      modifies mem, this`lists, this`b
      ensures Valid() && Realloced(old(b), brk, mem.Length, ptr, size, b, brk, ptr)
      ensures ptr in b && b[ptr].alloc && size <= 4 * (b[ptr].words - 2)
      ensures ReallocKeeps(old(mem[..]), old(b)[ptr].words - 2, ptr, size, mem[..], ptr)
      ensures forall q {:trigger KeptAt(old(mem[..]), old(b), mem[..], b, q)} ::
                q in old(b) && old(b)[q].alloc && q != ptr ==> KeptAt(old(mem[..]), old(b), mem[..], b, q)
    {
      hide Tiles, Tags, Lists, AllBut, ClassOf, Placed, Merge, KeptAt, LivesKept, ReallocKeeps, Realloced;
      ghost var m0, b0 := mem[..], b;
      AnyFacts(b, brk, ptr);
      AnyFacts(b, brk, ptr + b[ptr].words);
      var csize := UnlistNext(ptr);
      ghost var m1 := mem[..];
      AdjustedWords(b[ptr].words, b[ptr + b[ptr].words].words, size);
      Regrow(ptr, Adjusted(size) / 4, csize / 4);
      AbsorbRealloced(b0, brk, mem.Length, ptr, size, b);
      GrownKeeps(m0, m1, mem[..], b0, ptr, size, Adjusted(size) / 4);
      OthersKept(m0, b0, m1, mem[..], b, ptr);
    }

    /** Copy the whole payload of ptr to the front of r's, then free ptr. */
    method CopyAndFree(ptr: nat, r: nat, size: nat)
      requires Valid() && ptr in b && b[ptr].alloc && ptr != FIRST && r in b && b[r].alloc && r != FIRST && r != ptr
      requires 4 * b[ptr].words < size + 8 && size <= 4 * (b[r].words - 2)
      modifies mem, this`lists, this`b
      ensures Valid() && Freed(old(b), ptr, b) && r in b && b[r] == old(b)[r]
      ensures ReallocKeeps(old(mem[..]), old(b)[ptr].words - 2, ptr, size, mem[..], r)
      ensures forall q {:trigger KeptAt(old(mem[..]), old(b), mem[..], b, q)} ::
                q in old(b) && old(b)[q].alloc && q != ptr && q != r ==> KeptAt(old(mem[..]), old(b), mem[..], b, q)
    {
      hide Tiles, Tags, Lists, AllBut, ClassOf, Freed, KeptAt, ReallocKeeps;
      ghost var m1, b1, n := mem[..], b, b[ptr].words - 2;
      AnyFacts(b, brk, ptr);
      AnyFacts(b, brk, r);
      TagReads(ptr);
      var copySize: nat := SizeAt(ptr - 1) - 8;
      if size < copySize {
        copySize := size;
      }
      CopyPayload(r, ptr, copySize / 4);
      ghost var m2 := mem[..];
      Free(ptr);
      assert KeptAt(m2, b1, mem[..], b, r);
      MovedKeeps(m1, b1, m2, mem[..], b, ptr, r, n, size);
      forall q | q in b1 && b1[q].alloc && q != ptr && q != r
        ensures KeptAt(m1, b1, mem[..], b, q)
      {
        assert KeptAt(m1, b1, m2, b1, q);
        assert KeptAt(m2, b1, mem[..], b, q);
        KeptThrough(m1, b1, m2, b1, mem[..], b, q);
      }
    }

    /** Allocate anew, copy and free. */
    method Move(ptr: nat, size: nat) returns (r: int)
      requires Valid() && ptr in b && b[ptr].alloc && ptr != FIRST && size <= MAX_REQUEST
      requires 0 < size && 4 * b[ptr].words < size + 8 && !Absorbs(b, ptr, size)
      modifies mem, this`lists, this`b, this`brk
      ensures Valid() && Realloced(old(b), old(brk), mem.Length, ptr, size, b, brk, r)
      ensures r != NULL ==> 0 <= r && r in b && b[r].alloc && size <= 4 * (b[r].words - 2)
      ensures r != NULL ==> ReallocKeeps(old(mem[..]), old(b)[ptr].words - 2, ptr, size, mem[..], r)
      ensures r == NULL ==> KeptAt(old(mem[..]), old(b), mem[..], b, ptr)
      ensures forall q {:trigger KeptAt(old(mem[..]), old(b), mem[..], b, q)} ::
                q in old(b) && old(b)[q].alloc && q != ptr ==> KeptAt(old(mem[..]), old(b), mem[..], b, q)
    {
      hide Tiles, Tags, Lists, AllBut, ClassOf, Malloced, Freed;
      ghost var m0, b0, end0 := mem[..], b, brk;
      AnyFacts(b, brk, ptr);
      r := Malloc(size);
      assert KeptAt(m0, b0, mem[..], b, ptr);
      if r == NULL {
        return;
      }
      ghost var m1, b1 := mem[..], b;
      MallocDelivers(b0, end0, mem.Length, size, b, brk, r);
      CopyAndFree(ptr, r, size);
      ghost var n := b0[ptr].words - 2;
      assert m1[ptr..ptr + n] == m0[ptr..ptr + n];
      forall q | q in b0 && b0[q].alloc && q != ptr
        ensures KeptAt(m0, b0, mem[..], b, q)
      {
        assert KeptAt(m0, b0, m1, b1, q);
        assert KeptAt(m1, b1, mem[..], b, q);
      }
    }
  }
}
