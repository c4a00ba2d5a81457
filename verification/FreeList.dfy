/** One address-ordered free list, threaded through the first two payload words of its blocks. */
module FreeList {
  import opened SizeClass

  /** No two elements are within four words of each other, so their link words never meet. */
  predicate Spaced(l: seq<nat>) {
    forall i, j :: 0 <= i < j < |l| ==> l[i] + 4 <= l[j]
  }

  predicate Within(l: seq<nat>, size: nat) {
    forall i :: 0 <= i < |l| ==> 20 <= l[i] && l[i] + 4 <= size
  }

  /** Links are byte offsets from the start of the heap; 0 is none. */
  function Link(p: nat): nat { 4 * p }

  function HeadLink(l: seq<nat>): nat { if l == [] then 0 else Link(l[0]) }

  function PredLink(l: seq<nat>, i: nat): nat
    requires i < |l|
  {
    if i == 0 then 0 else Link(l[i - 1])
  }

  function SuccLink(l: seq<nat>, i: nat): nat
    requires i < |l|
  {
    if i == |l| - 1 then 0 else Link(l[i + 1])
  }

  predicate LinksAt(m: seq<U32>, l: seq<nat>, i: nat)
    requires i < |l| && l[i] + 1 < |m|
  {
    m[l[i]] == PredLink(l, i) && m[l[i] + 1] == SuccLink(l, i)
  }

  /** The words of m hold the list l, with its head in word c: pred and succ links are inverse to each other. */
  predicate Chain(m: seq<U32>, c: nat, l: seq<nat>) {
    && c < 20 <= |m| < 0x2000_0000 && Spaced(l) && Within(l, |m|)
    && m[c] == HeadLink(l)
    && (forall i {:trigger LinksAt(m, l, i)} :: 0 <= i < |l| ==> LinksAt(m, l, i))
  }

  function Remove(l: seq<nat>, k: nat): (r: seq<nat>)
    requires k < |l|
    ensures |r| == |l| - 1
  {
    l[..k] + l[k + 1..]
  }

  function Insert(l: seq<nat>, k: nat, p: nat): (r: seq<nat>)
    requires k <= |l|
    ensures |r| == |l| + 1
  {
    l[..k] + [p] + l[k..]
  }

  /** The writes that unlink l[k]; unlinking the only element also clears word 0. */
  function Unlinked(m: seq<U32>, c: nat, l: seq<nat>, k: nat): (m': seq<U32>)
    requires Chain(m, c, l) && k < |l|
    ensures |m'| == |m|
  {
    if k == 0 && |l| == 1 then m[0 := 0][c := 0]
    else if k == 0 then m[l[1] := 0][c := Link(l[1])]
    else if k == |l| - 1 then m[l[k - 1] + 1 := 0]
    else m[l[k + 1] := Link(l[k - 1])][l[k - 1] + 1 := Link(l[k + 1])]
  }

  /** The writes that link p in at position k. */
  function Linked(m: seq<U32>, c: nat, l: seq<nat>, k: nat, p: nat): (m': seq<U32>)
    requires Chain(m, c, l) && k <= |l| && 20 <= p && p + 4 <= |m|
    ensures |m'| == |m|
  {
    if l == [] then m[p := 0][p + 1 := 0][c := Link(p)]
    else if k == 0 then m[l[0] := Link(p)][p := 0][p + 1 := Link(l[0])][c := Link(p)]
    else if k == |l| then m[l[k - 1] + 1 := Link(p)][p := Link(l[k - 1])][p + 1 := 0]
    else m[l[k] := Link(p)][l[k - 1] + 1 := Link(p)][p + 1 := Link(l[k])][p := Link(l[k - 1])]
  }

  lemma RemoveSpaced(l: seq<nat>, k: nat, size: nat)
    requires Spaced(l) && Within(l, size) && k < |l|
    ensures Spaced(Remove(l, k)) && Within(Remove(l, k), size)
  {
  }

  /** Where element i of the shortened list was before. */
  lemma RemoveAt(l: seq<nat>, k: nat, i: nat)
    requires k < |l| && i < |l| - 1
    ensures Remove(l, k)[i] == if i < k then l[i] else l[i + 1]
  {
  }

  lemma Apart(l: seq<nat>, i: nat, j: nat)
    requires Spaced(l) && i < |l| && j < |l| && i != j
    ensures l[i] + 4 <= l[j] || l[j] + 4 <= l[i]
  {
  }

  /** The words of an element the unlinking does not concern. */
  lemma UnlinkedElsewhere(m: seq<U32>, c: nat, l: seq<nat>, k: nat, j: nat)
    requires Chain(m, c, l) && k < |l| && j < |l| && j != k
    ensures var m' := Unlinked(m, c, l, k);
            && (j != k + 1 ==> m'[l[j]] == m[l[j]])
            && (j + 1 != k ==> m'[l[j] + 1] == m[l[j] + 1])
  {
    hide Spaced, PredLink, SuccLink, HeadLink;
    if k > 0 && j != k - 1 { Apart(l, j, k - 1); }
    if k < |l| - 1 && j != k + 1 { Apart(l, j, k + 1); }
    if 0 < k < |l| - 1 { Apart(l, k - 1, k + 1); }
  }

  lemma UnlinkedNeighbours(m: seq<U32>, c: nat, l: seq<nat>, k: nat)
    requires Chain(m, c, l) && k < |l|
    ensures var m' := Unlinked(m, c, l, k);
            && (k < |l| - 1 ==> m'[l[k + 1]] == if k == 0 then 0 else Link(l[k - 1]))
            && (k > 0 ==> m'[l[k - 1] + 1] == if k == |l| - 1 then 0 else Link(l[k + 1]))
            && m'[c] == HeadLink(Remove(l, k))
  {
    hide Spaced, PredLink, SuccLink;
    if 0 < k < |l| - 1 { Apart(l, k - 1, k + 1); }
  }

  lemma UnlinkedAt(m: seq<U32>, c: nat, l: seq<nat>, k: nat, i: nat)
    requires Chain(m, c, l) && k < |l| && i < |l| - 1
    ensures RemoveAtOk(l, k, i, |m|) && LinksAt(Unlinked(m, c, l, k), Remove(l, k), i)
  {
    hide Spaced, Remove, Unlinked, HeadLink;
    var j := if i < k then i else i + 1;
    RemoveAt(l, k, i);
    if i > 0 { RemoveAt(l, k, i - 1); }
    if i < |l| - 2 { RemoveAt(l, k, i + 1); }
    assert LinksAt(m, l, j);
    UnlinkedElsewhere(m, c, l, k, j);
    UnlinkedNeighbours(m, c, l, k);
  }

  predicate RemoveAtOk(l: seq<nat>, k: nat, i: nat, size: nat)
    requires k < |l| && i < |l| - 1
  {
    Remove(l, k)[i] + 1 < size
  }

  lemma UnlinkedChain(m: seq<U32>, c: nat, l: seq<nat>, k: nat)
    requires Chain(m, c, l) && k < |l|
    ensures Chain(Unlinked(m, c, l, k), c, Remove(l, k))
  {
    var m', l' := Unlinked(m, c, l, k), Remove(l, k);
    RemoveSpaced(l, k, |m|);
    UnlinkedNeighbours(m, c, l, k);
    forall i | 0 <= i < |l'|
      ensures LinksAt(m', l', i)
    {
      UnlinkedAt(m, c, l, k, i);
    }
  }

  /** p fits between its neighbours at position k. */
  predicate Fits(l: seq<nat>, k: nat, p: nat) {
    && k <= |l|
    && (forall i :: 0 <= i < k ==> l[i] + 4 <= p)
    && (forall i :: k <= i < |l| ==> p + 4 <= l[i])
  }

  lemma InsertSpaced(l: seq<nat>, k: nat, p: nat, size: nat)
    requires Spaced(l) && Within(l, size) && Fits(l, k, p) && 20 <= p && p + 4 <= size
    ensures Spaced(Insert(l, k, p)) && Within(Insert(l, k, p), size)
  {
  }

  lemma InsertAt(l: seq<nat>, k: nat, p: nat, i: nat)
    requires k <= |l| && i <= |l|
    ensures Insert(l, k, p)[i] == if i < k then l[i] else if i == k then p else l[i - 1]
  {
  }

  lemma LinkedElsewhere(m: seq<U32>, c: nat, l: seq<nat>, k: nat, p: nat, j: nat)
    requires Chain(m, c, l) && Fits(l, k, p) && 20 <= p && p + 4 <= |m| && j < |l|
    ensures var m' := Linked(m, c, l, k, p);
            && (j != k ==> m'[l[j]] == m[l[j]])
            && (j + 1 != k ==> m'[l[j] + 1] == m[l[j] + 1])
  {
    hide Spaced, PredLink, SuccLink, HeadLink;
    assert l[j] + 4 <= p || p + 4 <= l[j];
    if k > 0 && j != k - 1 { Apart(l, j, k - 1); }
    if k < |l| && j != k { Apart(l, j, k); }
  }

  lemma LinkedNeighbours(m: seq<U32>, c: nat, l: seq<nat>, k: nat, p: nat)
    requires Chain(m, c, l) && Fits(l, k, p) && 20 <= p && p + 4 <= |m|
    ensures var m' := Linked(m, c, l, k, p);
            && m'[p] == (if k == 0 then 0 else Link(l[k - 1]))
            && m'[p + 1] == (if k == |l| then 0 else Link(l[k]))
            && (k < |l| ==> m'[l[k]] == Link(p))
            && (k > 0 ==> m'[l[k - 1] + 1] == Link(p))
            && m'[c] == HeadLink(Insert(l, k, p))
  {
    hide Spaced, PredLink, SuccLink;
    if 0 < k < |l| { Apart(l, k - 1, k); }
  }

  lemma LinkedAt(m: seq<U32>, c: nat, l: seq<nat>, k: nat, p: nat, i: nat)
    requires Chain(m, c, l) && Fits(l, k, p) && 20 <= p && p + 4 <= |m| && i <= |l|
    ensures Insert(l, k, p)[i] + 1 < |m| && LinksAt(Linked(m, c, l, k, p), Insert(l, k, p), i)
  {
    hide Spaced, Insert, Linked, HeadLink;
    InsertAt(l, k, p, i);
    if i > 0 { InsertAt(l, k, p, i - 1); }
    if i < |l| { InsertAt(l, k, p, i + 1); }
    LinkedNeighbours(m, c, l, k, p);
    if i != k {
      var j := if i < k then i else i - 1;
      assert LinksAt(m, l, j);
      LinkedElsewhere(m, c, l, k, p, j);
    }
  }

  lemma LinkedChain(m: seq<U32>, c: nat, l: seq<nat>, k: nat, p: nat)
    requires Chain(m, c, l) && Fits(l, k, p) && 20 <= p && p + 4 <= |m|
    ensures Chain(Linked(m, c, l, k, p), c, Insert(l, k, p))
  {
    var m', l' := Linked(m, c, l, k, p), Insert(l, k, p);
    InsertSpaced(l, k, p, |m|);
    LinkedNeighbours(m, c, l, k, p);
    forall i | 0 <= i < |l'|
      ensures LinksAt(m', l', i)
    {
      LinkedAt(m, c, l, k, p, i);
    }
  }

  /** A list survives any change that misses its words. */
  lemma ChainFrame(m: seq<U32>, m': seq<U32>, c: nat, l: seq<nat>)
    requires Chain(m, c, l) && |m'| == |m| && m'[c] == m[c]
    requires forall i {:trigger l[i]} :: 0 <= i < |l| ==> m'[l[i]] == m[l[i]] && m'[l[i] + 1] == m[l[i] + 1]
    ensures Chain(m', c, l)
  {
    forall i | 0 <= i < |l|
      ensures LinksAt(m', l, i)
    {
      assert LinksAt(m, l, i);
    }
  }
}
