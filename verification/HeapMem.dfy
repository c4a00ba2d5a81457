/** How the words of the heap represent its blocks and its sixteen free lists. */
module HeapMem {
  import opened SizeClass
  import opened HeapSpec
  import opened FreeList

  /** `PACK(size, alloc)` for a block; sizes are in bytes. */
  function Tag(b: Block): int { 4 * b.words + if b.alloc then 1 else 0 }

  predicate TagsAt(m: seq<U32>, b: Blocks, p: nat)
    requires p in b
  {
    && 1 <= p && 2 <= b[p].words && p + b[p].words <= |m|
    && m[p - 1] == Tag(b[p]) && m[p + b[p].words - 2] == Tag(b[p])
  }

  /** Every block carries its tag in its header and its footer, and the epilogue header closes the heap. */
  ghost predicate Tags(m: seq<U32>, b: Blocks, end: nat) {
    && FIRST < end <= |m| && m[end - 1] == 1
    && (forall p {:trigger TagsAt(m, b, p)} :: p in b ==> TagsAt(m, b, p))
  }

  predicate IsFree(b: Blocks, p: nat) { p in b && !b[p].alloc }

  /** p is a free block of size class c. */
  predicate Member(b: Blocks, c: nat, p: nat) {
    IsFree(b, p) && 4 <= b[p].words && ClassOf(4 * b[p].words) == c
  }

  predicate ListOk(m: seq<U32>, b: Blocks, c: nat, l: seq<nat>) {
    Chain(m, c, l) && forall i :: 0 <= i < |l| ==> Member(b, c, l[i])
  }

  /** Class c's list has its head in word c and holds free blocks of class c; the words for classes past the last
      stay 0. */
  predicate Lists(m: seq<U32>, b: Blocks, lists: seq<seq<nat>>) {
    && |lists| == N_LISTS && 20 <= |m| && m[N_LISTS] == 0
    && (forall c {:trigger lists[c]} :: 0 <= c < N_LISTS ==> ListOk(m, b, c, lists[c]))
  }

  predicate Listed(b: Blocks, lists: seq<seq<nat>>, p: nat)
    requires |lists| == N_LISTS && p in b && b[p].words > 0
  {
    p in lists[ClassOf(4 * b[p].words)]
  }

  /** Every free block, except the given ones, is in the list of its own class. */
  ghost predicate Complete(b: Blocks, lists: seq<seq<nat>>, except: set<nat>) {
    && |lists| == N_LISTS
    && forall p {:trigger IsFree(b, p)} :: IsFree(b, p) && p !in except ==> b[p].words > 0 && Listed(b, lists, p)
  }

  // ---- words that only free lists use

  predicate LinkWord(b: Blocks, i: nat) {
    i < N_LISTS || IsFree(b, i) || (i > 0 && IsFree(b, i - 1))
  }

  /** m' differs from m in list heads and link words only. */
  predicate LinksOnly(m: seq<U32>, m': seq<U32>, b: Blocks) {
    |m'| == |m| && forall i :: 0 <= i < |m| && !LinkWord(b, i) ==> m'[i] == m[i]
  }

  predicate SameOutside(m: seq<U32>, m': seq<U32>, lo: int, hi: int) {
    |m'| == |m| && forall i :: 0 <= i < |m| && !(lo <= i < hi) ==> m'[i] == m[i]
  }

  // ---- distances

  lemma BlocksApart(b: Blocks, end: nat, p: nat, q: nat)
    requires Tiles(b, end) && p in b && q in b && p != q
    ensures p + b[p].words <= q || q + b[q].words <= p
  {
    hide Shaped, Preceded;
  }

  lemma FreeFacts(b: Blocks, end: nat, p: nat)
    requires Tiles(b, end) && IsFree(b, p)
    ensures 20 <= p && p % 2 == 0 && 4 <= b[p].words && p + b[p].words <= end
  {
    hide Preceded;
    assert BlockOk(b, end, p);
  }

  lemma AnyFacts(b: Blocks, end: nat, p: nat)
    requires Tiles(b, end) && p in b
    ensures FIRST <= p && 2 <= b[p].words && p + b[p].words <= end && p % 2 == 0 && b[p].words % 2 == 0
    ensures p != FIRST ==> 20 <= p && 4 <= b[p].words
    ensures p + b[p].words in b || p + b[p].words == end
  {
    hide Preceded;
    assert BlockOk(b, end, p);
  }

  /** Neither tag of a block and no payload word of an allocated block is a link word. */
  lemma NotLinkWords(b: Blocks, end: nat, p: nat)
    requires Tiles(b, end) && p in b
    ensures FIRST <= p && 2 <= b[p].words
    ensures !LinkWord(b, p - 1) && !LinkWord(b, p + b[p].words - 2)
    ensures b[p].alloc ==> forall i :: p - 1 <= i < p + b[p].words - 1 ==> !LinkWord(b, i)
  {
    hide Preceded, Shaped, Tiles;
    AnyFacts(b, end, p);
    forall i | p - 1 <= i < p + b[p].words - 1 && (b[p].alloc || i == p - 1 || i == p + b[p].words - 2)
      ensures !LinkWord(b, i)
    {
      if i in b && i != p { BlocksApart(b, end, p, i); AnyFacts(b, end, i); }
      if IsFree(b, i - 1) { FreeFacts(b, end, i - 1); if i - 1 != p { BlocksApart(b, end, p, i - 1); } }
      if IsFree(b, p) { FreeFacts(b, end, p); }
    }
  }

  lemma EndNotLinkWord(b: Blocks, end: nat)
    requires Tiles(b, end)
    ensures end > FIRST && !LinkWord(b, end - 1)
  {
    hide Preceded, Shaped, Tiles;
    EndEven(b, end);
    if end - 1 in b { AnyFacts(b, end, end - 1); }
    if end - 2 in b { AnyFacts(b, end, end - 2); if IsFree(b, end - 2) { FreeFacts(b, end, end - 2); } }
  }

  /** Changing links leaves all boundary tags alone. */
  lemma TagsKept(m: seq<U32>, m': seq<U32>, b: Blocks, end: nat)
    requires Tiles(b, end) && Tags(m, b, end) && LinksOnly(m, m', b)
    ensures Tags(m', b, end)
  {
    hide Tiles, LinkWord;
    EndNotLinkWord(b, end);
    forall p | p in b
      ensures TagsAt(m', b, p)
    {
      assert TagsAt(m, b, p);
      NotLinkWords(b, end, p);
    }
  }

  // ---- unlinking and linking

  /** Two free blocks keep their link words four words apart. */
  lemma FreeApart(b: Blocks, end: nat, p: nat, q: nat)
    requires Tiles(b, end) && IsFree(b, p) && IsFree(b, q) && p != q
    ensures p + 4 <= q || q + 4 <= p
  {
    hide Tiles;
    BlocksApart(b, end, p, q);
    FreeFacts(b, end, p);
    FreeFacts(b, end, q);
  }

  lemma LowClassEmpty(m: seq<U32>, b: Blocks, lists: seq<seq<nat>>, c: nat)
    requires Lists(m, b, lists) && c < 4
    ensures lists[c] == [] && m[c] == 0
  {
    hide ClassOf;
    var l := lists[c];
    assert ListOk(m, b, c, l);
    if l != [] {
      assert Member(b, c, l[0]);
      ClassRange(4 * b[l[0]].words);
    }
  }

  /** The word at i belongs to list c: its head or a link word of one of its members. */
  predicate OwnWord(c: nat, l: seq<nat>, i: nat) {
    i == c || i in l || (i > 0 && i - 1 in l)
  }

  /** A change confined to the words of list c, of one more free block p, and to word 0 leaves the other lists alone. */
  lemma OtherListsKept(m: seq<U32>, m': seq<U32>, b: Blocks, end: nat, lists: seq<seq<nat>>, c: nat, p: nat, d: nat)
    requires Tiles(b, end) && Lists(m, b, lists) && c < N_LISTS && Member(b, c, p)
    requires |m'| == |m| && m'[0] == 0
    requires forall i: nat :: 0 < i < |m| && !OwnWord(c, lists[c], i) && i != p && i != p + 1 ==> m'[i] == m[i]
    requires d < N_LISTS && d != c
    ensures ListOk(m', b, d, lists[d])
  {
    hide Tiles, ClassOf, IsFree, LinksAt, HeadLink;
    var l := lists[d];
    assert ListOk(m, b, d, l);
    assert ListOk(m, b, c, lists[c]);
    LowClassEmpty(m, b, lists, 0);
    forall i | 0 <= i < |l|
      ensures m'[l[i]] == m[l[i]] && m'[l[i] + 1] == m[l[i] + 1]
    {
      assert Member(b, d, l[i]);
      FreeApart(b, end, l[i], p);
      forall x | x in lists[c]
        ensures x + 4 <= l[i] || l[i] + 4 <= x
      {
        assert Member(b, c, x);
        FreeApart(b, end, l[i], x);
      }
      FreeFacts(b, end, l[i]);
    }
    if d != 0 {
      NoHeadClash(m, b, end, lists, c, d);
      FreeFacts(b, end, p);
    }
    ChainFrame(m, m', d, l);
  }

  lemma NoHeadClash(m: seq<U32>, b: Blocks, end: nat, lists: seq<seq<nat>>, c: nat, d: nat)
    requires Tiles(b, end) && Lists(m, b, lists) && c < N_LISTS && 0 < d < N_LISTS && d != c
    ensures !OwnWord(c, lists[c], d)
  {
    hide Tiles, ClassOf, Chain;
    assert ListOk(m, b, c, lists[c]);
    if d in lists[c] { FreeFacts(b, end, d); }
    if d - 1 in lists[c] { FreeFacts(b, end, d - 1); }
  }

  lemma UnlinkedWords(m: seq<U32>, c: nat, l: seq<nat>, k: nat)
    requires Chain(m, c, l) && k < |l|
    ensures var m' := Unlinked(m, c, l, k);
            && (m[0] == 0 ==> m'[0] == 0 || c == 0)
            && forall i: nat :: 0 < i < |m| && !OwnWord(c, l, i) ==> m'[i] == m[i]
  {
    hide Spaced, LinksAt;
  }

  lemma LinkedWords(m: seq<U32>, c: nat, l: seq<nat>, k: nat, p: nat)
    requires Chain(m, c, l) && Fits(l, k, p) && 20 <= p && p + 4 <= |m|
    ensures var m' := Linked(m, c, l, k, p);
            && (m[0] == 0 ==> m'[0] == 0 || c == 0)
            && forall i: nat :: 0 < i < |m| && !OwnWord(c, l, i) && i != p && i != p + 1 ==> m'[i] == m[i]
  {
    hide Spaced, LinksAt;
  }

  /** Unlinking the k-th block of class c: the lists afterwards, and what is untouched. */
  lemma UnlinkLists(m: seq<U32>, b: Blocks, end: nat, lists: seq<seq<nat>>, c: nat, k: nat)
    requires Tiles(b, end) && Lists(m, b, lists) && c < N_LISTS && k < |lists[c]|
    ensures Chain(m, c, lists[c])
    ensures var m' := Unlinked(m, c, lists[c], k);
            Lists(m', b, lists[c := Remove(lists[c], k)]) && LinksOnly(m, m', b)
  {
    hide Tiles, ClassOf, Chain, Unlinked, Remove, IsFree;
    var l := lists[c];
    assert ListOk(m, b, c, l);
    var m', lists' := Unlinked(m, c, l, k), lists[c := Remove(l, k)];
    UnlinkedChain(m, c, l, k);
    UnlinkedWords(m, c, l, k);
    LowClassEmpty(m, b, lists, 0);
    assert Member(b, c, l[k]);
    assert c != 0;
    forall i | 0 <= i < |l| - 1
      ensures Member(b, c, Remove(l, k)[i])
    {
      RemoveAt(l, k, i);
    }
    forall d | 0 <= d < N_LISTS
      ensures ListOk(m', b, d, lists'[d])
    {
      if d != c {
        OtherListsKept(m, m', b, end, lists, c, l[k], d);
      }
    }
    OnlyLinks(m, m', b, end, lists, c, l[k]);
  }

  lemma OnlyLinks(m: seq<U32>, m': seq<U32>, b: Blocks, end: nat, lists: seq<seq<nat>>, c: nat, p: nat)
    requires Tiles(b, end) && Lists(m, b, lists) && 0 < c < N_LISTS && Member(b, c, p)
    requires |m'| == |m| && m'[0] == m[0]
    requires forall i: nat :: 0 < i < |m| && !OwnWord(c, lists[c], i) && i != p && i != p + 1 ==> m'[i] == m[i]
    ensures LinksOnly(m, m', b) && m'[N_LISTS] == 0
  {
    hide Tiles, ClassOf, Chain;
    var l := lists[c];
    assert ListOk(m, b, c, l);
    assert forall x :: x in l ==> Member(b, c, x);
    forall i | 0 <= i < |m| && !LinkWord(b, i)
      ensures m'[i] == m[i]
    {
    }
    FreeFacts(b, end, p);
    if N_LISTS in l { FreeFacts(b, end, N_LISTS); }
    if N_LISTS - 1 in l { FreeFacts(b, end, N_LISTS - 1); }
  }

  /** Linking a free block of class c in at its place. */
  lemma LinkLists(m: seq<U32>, b: Blocks, end: nat, lists: seq<seq<nat>>, c: nat, k: nat, p: nat)
    requires Tiles(b, end) && end <= |m| && Lists(m, b, lists) && c < N_LISTS && Member(b, c, p)
    requires Fits(lists[c], k, p)
    ensures Chain(m, c, lists[c]) && 20 <= p && p + 4 <= |m|
    ensures var m' := Linked(m, c, lists[c], k, p);
            Lists(m', b, lists[c := Insert(lists[c], k, p)]) && LinksOnly(m, m', b)
  {
    hide Tiles, ClassOf, Chain, Linked, Insert, Fits;
    var l := lists[c];
    assert ListOk(m, b, c, l);
    FreeFacts(b, end, p);
    FitsRange(l, k, p);
    var m', lists' := Linked(m, c, l, k, p), lists[c := Insert(l, k, p)];
    LinkedChain(m, c, l, k, p);
    LinkedWords(m, c, l, k, p);
    LowClassEmpty(m, b, lists, 0);
    ClassRange(4 * b[p].words);
    forall i | 0 <= i <= |l|
      ensures Member(b, c, Insert(l, k, p)[i])
    {
      InsertAt(l, k, p, i);
    }
    forall d | 0 <= d < N_LISTS
      ensures ListOk(m', b, d, lists'[d])
    {
      if d != c {
        OtherListsKept(m, m', b, end, lists, c, p, d);
      }
    }
    OnlyLinks(m, m', b, end, lists, c, p);
  }

  lemma FitsRange(l: seq<nat>, k: nat, p: nat)
    requires Fits(l, k, p)
    ensures k <= |l|
  {
  }

  // ---- changes of block structure

  predicate Outside(b: Blocks, p: nat, lo: int, hi: int)
    requires p in b
  {
    p + b[p].words <= lo + 1 || hi + 1 <= p
  }

  /** Rewriting the words lo..hi-1 changes no other block's tags. */
  lemma TagsRebuilt(m: seq<U32>, m': seq<U32>, b: Blocks, end: nat, b': Blocks, end': nat, lo: int, hi: int)
    requires Tags(m, b, end) && SameOutside(m, m', lo, hi)
    requires FIRST < end' <= |m'| && m'[end' - 1] == 1
    requires forall p {:trigger p in b'} :: p in b' ==>
               (p in b && b'[p] == b[p] && Outside(b, p, lo, hi)) || TagsAt(m', b', p)
    ensures Tags(m', b', end')
  {
    forall p | p in b'
      ensures TagsAt(m', b', p)
    {
      if p in b && b'[p] == b[p] && Outside(b, p, lo, hi) {
        assert TagsAt(m, b, p);
      }
    }
  }

  /** Rewriting the words lo..hi-1 changes no list whose members lie outside and keep their sizes. */
  lemma ListsRebuilt(m: seq<U32>, m': seq<U32>, b: Blocks, b': Blocks, lists: seq<seq<nat>>, lo: int, hi: int)
    requires Lists(m, b, lists) && SameOutside(m, m', lo, hi) && N_LISTS < lo
    requires forall c, p :: 0 <= c < N_LISTS && p in lists[c] && Member(b, c, p) ==>
               p in b' && b'[p] == b[p] && Outside(b, p, lo, hi)
    ensures Lists(m', b', lists)
  {
    hide ClassOf;
    forall c | 0 <= c < N_LISTS
      ensures ListOk(m', b', c, lists[c])
    {
      var l := lists[c];
      assert ListOk(m, b, c, l);
      forall i | 0 <= i < |l|
        ensures Member(b', c, l[i]) && m'[l[i]] == m[l[i]] && m'[l[i] + 1] == m[l[i] + 1]
      {
        assert Member(b, c, l[i]) && l[i] in l;
      }
      ChainFrame(m, m', c, l);
    }
  }

  /** Writing the two tags of a rebuilt block p, while every other block is an old one unchanged. */
  lemma Retag(m: seq<U32>, b: Blocks, end: nat, lists: seq<seq<nat>>, b': Blocks, p: nat) returns (m': seq<U32>)
    requires Tiles(b, end) && Tags(m, b, end) && Lists(m, b, lists) && |m| < 0x2000_0000
    requires Tiles(b', end) && p in b' && p != FIRST
    requires forall r {:trigger r in b'} :: r in b' && r != p ==> r in b && b'[r] == b[r]
    requires forall c, r :: 0 <= c < N_LISTS && r in lists[c] ==> r in b' && r != p
    ensures 20 <= p && 4 <= b'[p].words && p + b'[p].words <= end <= |m|
    ensures m' == m[p - 1 := Tag(b'[p])][p + b'[p].words - 2 := Tag(b'[p])]
    ensures Tags(m', b', end) && Lists(m', b', lists)
    ensures SameOutside(m, m', p - 1, p + b'[p].words - 1)
    ensures forall r {:trigger r in b'} :: r in b' && r != p ==> Outside(b', r, p - 1, p + b'[p].words - 1)
  {
    hide Tiles, ClassOf, Chain;
    AnyFacts(b', end, p);
    var w := b'[p].words;
    m' := m[p - 1 := Tag(b'[p])][p + w - 2 := Tag(b'[p])];
    forall r | r in b' && r != p
      ensures Outside(b', r, p - 1, p + w - 1) && Outside(b, r, p - 1, p + w - 1)
    {
      BlocksApart(b', end, p, r);
    }
    TagsRebuilt(m, m', b, end, b', end, p - 1, p + w - 1);
    forall c, r | 0 <= c < N_LISTS && r in lists[c]
      ensures r in b && r in b' && b'[r] == b[r] && Outside(b, r, p - 1, p + w - 1)
    {
      assert r in b' && r != p;
    }
    ListsRebuilt(m, m', b, b', lists, p - 1, p + w - 1);
  }
}
