/** Least-recently-used replacement as a list per set, the most recently used tag first. */
module LruSpec {

  /** What one access does: the tag it touches moves or comes to the front; a full set loses its last tag. */
  datatype Touched = Touched(tags: seq<int>, hit: bool, evicted: bool)

  predicate NoTwice(l: seq<int>) {
    forall i, j :: 0 <= i < j < |l| ==> l[i] != l[j]
  }

  function IndexOf(l: seq<int>, t: int): (k: nat)
    requires t in l
    ensures k < |l| && l[k] == t && t !in l[..k]
  {
    if l[0] == t then 0
    else
      assert l == [l[0]] + l[1..];
      1 + IndexOf(l[1..], t)
  }

  function Touch(l: seq<int>, t: int, ways: nat): Touched
    requires 0 < ways
  {
    if t in l then
      var k := IndexOf(l, t);
      Touched([t] + l[..k] + l[k + 1..], true, false)
    else if |l| < ways then Touched([t] + l, false, false)
    else Touched([t] + l[..ways - 1], false, true)
  }

  // ---- whole runs

  /** One touch of the cache: a set and a tag. */
  datatype Access = Access(index: nat, tag: int)

  datatype Tally = Tally(hits: nat, misses: nat, evictions: nat)

  datatype Lru = Lru(sets: seq<seq<int>>, tally: Tally)

  function Step(c: Lru, a: Access, ways: nat): (c': Lru)
    requires 0 < ways && a.index < |c.sets|
    ensures |c'.sets| == |c.sets|
  {
    var r := Touch(c.sets[a.index], a.tag, ways);
    Lru(c.sets[a.index := r.tags],
        Tally(c.tally.hits + (if r.hit then 1 else 0), c.tally.misses + (if r.hit then 0 else 1),
              c.tally.evictions + (if r.evicted then 1 else 0)))
  }

  function Empty(n: nat): Lru { Lru(seq(n, _ => []), Tally(0, 0, 0)) }

  predicate InSets(accesses: seq<Access>, n: nat) {
    forall i :: 0 <= i < |accesses| ==> accesses[i].index < n
  }

  /** The cache of n sets after the accesses. */
  function Run(accesses: seq<Access>, n: nat, ways: nat): (c: Lru)
    requires 0 < ways && InSets(accesses, n)
    ensures |c.sets| == n
  {
    if accesses == [] then Empty(n)
    else Step(Run(accesses[..|accesses| - 1], n, ways), accesses[|accesses| - 1], ways)
  }

  // ---- what every run keeps

  predicate SetsOk(sets: seq<seq<int>>, ways: nat) {
    forall i {:trigger sets[i]} :: 0 <= i < |sets| ==> |sets[i]| <= ways && NoTwice(sets[i])
  }

  lemma TouchOk(l: seq<int>, t: int, ways: nat)
    requires 0 < ways && |l| <= ways && NoTwice(l)
    ensures var r := Touch(l, t, ways);
            && |r.tags| <= ways && NoTwice(r.tags) && r.tags[0] == t
            && |r.tags| == |l| + (if r.hit || r.evicted then 0 else 1)
            && (r.evicted ==> |l| == ways)
  {
  }

  lemma {:induction false} RunOk(accesses: seq<Access>, n: nat, ways: nat)
    requires 0 < ways && InSets(accesses, n)
    ensures SetsOk(Run(accesses, n, ways).sets, ways)
  {
    if accesses != [] {
      var c, a := Run(accesses[..|accesses| - 1], n, ways), accesses[|accesses| - 1];
      RunOk(accesses[..|accesses| - 1], n, ways);
      TouchOk(c.sets[a.index], a.tag, ways);
    }
  }

  /** How many tags all sets hold together. */
  function Load(sets: seq<seq<int>>): nat {
    if sets == [] then 0 else |sets[0]| + Load(sets[1..])
  }

  lemma {:induction false} LoadOfUpdate(sets: seq<seq<int>>, i: nat, l: seq<int>)
    requires i < |sets|
    ensures Load(sets[i := l]) == Load(sets) - |sets[i]| + |l|
  {
    if i > 0 {
      assert sets[i := l][1..] == sets[1..][i - 1 := l];
      LoadOfUpdate(sets[1..], i - 1, l);
    } else {
      assert sets[i := l][1..] == sets[1..];
    }
  }

  lemma {:induction false} LoadOfEmpty(n: nat)
    ensures Load(Empty(n).sets) == 0
  {
    if n > 0 {
      assert Empty(n).sets[1..] == Empty(n - 1).sets;
      LoadOfEmpty(n - 1);
    }
  }

  /** Throughout every run, every access is a hit or a miss, and what was missed and not evicted is what is cached. */
  lemma {:induction false} TallyBalances(accesses: seq<Access>, n: nat, ways: nat)
    requires 0 < ways && InSets(accesses, n)
    ensures var c := Run(accesses, n, ways);
            && c.tally.hits + c.tally.misses == |accesses|
            && c.tally.misses == c.tally.evictions + Load(c.sets)
  {
    if accesses == [] {
      LoadOfEmpty(n);
    } else {
      var rest := accesses[..|accesses| - 1];
      var c, a := Run(rest, n, ways), accesses[|accesses| - 1];
      TallyBalances(rest, n, ways);
      RunOk(rest, n, ways);
      var r := Touch(c.sets[a.index], a.tag, ways);
      TouchOk(c.sets[a.index], a.tag, ways);
      LoadOfUpdate(c.sets, a.index, r.tags);
    }
  }

  // ---- inclusion

  /** The smaller set holds the most recent tags of the larger one. */
  predicate Front(small: seq<int>, large: seq<int>, ways: nat) {
    small == if |large| <= ways then large else large[..ways]
  }

  /** The smaller set is found to be a prefix of the larger one, so a tag that it holds has the same place in both. */
  lemma SamePlace(small: seq<int>, large: seq<int>, t: int)
    requires |small| <= |large| && small == large[..|small|] && NoTwice(large) && t in small
    ensures t in large && IndexOf(large, t) == IndexOf(small, t)
  {
    var k := IndexOf(small, t);
    assert large[k] == small[k] == t;
  }

  lemma BeyondFront(small: seq<int>, large: seq<int>, t: int)
    requires |small| <= |large| && small == large[..|small|] && t !in small && t in large
    ensures |small| <= IndexOf(large, t)
  {
    forall i | 0 <= i < |small|
      ensures large[i] != t
    {
      assert large[i] == small[i] && small[i] in small;
    }
  }

  /** Taking an element to the front commutes with cutting off the end, if it was before the cut. */
  lemma MovedPrefix(l: seq<int>, k: nat, n: nat)
    requires k < n <= |l|
    ensures ([l[k]] + l[..k] + l[k + 1..])[..n] == [l[k]] + l[..n][..k] + l[..n][k + 1..]
  {
  }

  /** Otherwise what was last before the cut falls behind it. */
  lemma PushedPrefix(l: seq<int>, k: nat, n: nat, t: int)
    requires 0 < n <= k < |l|
    ensures ([t] + l[..k] + l[k + 1..])[..n] == [t] + l[..n][..n - 1]
  {
  }

  lemma AddedPrefix(l: seq<int>, m: nat, n: nat, t: int)
    requires 0 < n <= m + 1 && n <= |l| + 1 && m <= |l|
    ensures ([t] + l[..m])[..n] == [t] + l[..n - 1]
  {
  }

  lemma TouchKeepsFront(small: seq<int>, large: seq<int>, t: int, ways: nat, more: nat)
    requires 0 < ways <= more && |large| <= more && NoTwice(large) && Front(small, large, ways)
    ensures var r, r' := Touch(small, t, ways), Touch(large, t, more);
            Front(r.tags, r'.tags, ways) && (r.hit ==> r'.hit)
  {
    hide NoTwice, IndexOf;
    if |large| <= ways {
      if t !in large {
        TouchSmall(large, t, ways, more);
      }
    } else if t in small {
      SamePlace(small, large, t);
      MovedPrefix(large, IndexOf(large, t), ways);
    } else if t in large {
      BeyondFront(small, large, t);
      PushedPrefix(large, IndexOf(large, t), ways, t);
      assert large[..ways][..ways - 1] == large[..ways - 1];
    } else {
      var m := if |large| < more then |large| else more - 1;
      AddedPrefix(large, m, ways, t);
      assert large[..|large|] == large;
      assert large[..ways][..ways - 1] == large[..ways - 1];
    }
  }

  /** A new tag in sets that are the same. */
  lemma TouchSmall(l: seq<int>, t: int, ways: nat, more: nat)
    requires 0 < ways <= more && |l| <= ways && t !in l
    ensures Front(Touch(l, t, ways).tags, Touch(l, t, more).tags, ways)
  {
    if |l| == ways && ways < more {
      assert ([t] + l)[..ways] == [t] + l[..ways - 1];
    }
  }

  predicate AllFront(small: seq<seq<int>>, large: seq<seq<int>>, ways: nat) {
    |small| == |large| && forall i :: 0 <= i < |small| ==> Front(small[i], large[i], ways)
  }

  /** LRU INCLUSION: with more ways per set and everything else equal, the cache at every moment holds all that the
      smaller one holds; so it never has fewer hits nor more misses. */
  lemma {:induction false} LruInclusion(accesses: seq<Access>, n: nat, ways: nat, more: nat)
    requires 0 < ways <= more && InSets(accesses, n)
    ensures var c, c' := Run(accesses, n, ways), Run(accesses, n, more);
            && AllFront(c.sets, c'.sets, ways)
            && c.tally.hits <= c'.tally.hits && c'.tally.misses <= c.tally.misses
  {
    if accesses != [] {
      var rest, a := accesses[..|accesses| - 1], accesses[|accesses| - 1];
      LruInclusion(rest, n, ways, more);
      RunOk(rest, n, more);
      var c, c' := Run(rest, n, ways), Run(rest, n, more);
      TouchKeepsFront(c.sets[a.index], c'.sets[a.index], a.tag, ways, more);
    }
  }

  lemma FrontIncluded(small: seq<int>, large: seq<int>, ways: nat, t: int)
    requires Front(small, large, ways) && t in small
    ensures t in large
  {
  }

  // ---- why this is least recently used

  /** When tag t of set i was last touched; -1 if never. */
  function LastUse(accesses: seq<Access>, i: nat, t: int): (k: int)
    ensures -1 <= k < |accesses|
  {
    if accesses == [] then -1
    else if accesses[|accesses| - 1] == Access(i, t) then |accesses| - 1
    else LastUse(accesses[..|accesses| - 1], i, t)
  }

  /** l is sorted by time, latest first, and what is not in l but has a time is older than all that is. */
  ghost predicate Latest(time: int -> int, l: seq<int>, ways: nat) {
    && Sorted(time, l)
    && (forall t :: t !in l && time(t) >= 0 ==> |l| == ways && Older(time, t, l))
  }

  predicate Sorted(time: int -> int, l: seq<int>) {
    && (forall p, q :: 0 <= p < q < |l| ==> time(l[p]) > time(l[q]))
    && (forall p :: 0 <= p < |l| ==> time(l[p]) >= 0)
  }

  predicate Older(time: int -> int, t: int, l: seq<int>) {
    forall p :: 0 <= p < |l| ==> time(t) < time(l[p])
  }

  /** now is the same as time, except that t was used later than everything. */
  ghost predicate UsedNow(time: int -> int, now: int -> int, t: int) {
    forall u :: if u == t then now(t) >= 0 && (forall v :: time(v) < now(t)) else now(u) == time(u)
  }

  lemma HitShape(l: seq<int>, t: int, ways: nat)
    requires t in l && NoTwice(l) && 0 < ways
    ensures var k, r := IndexOf(l, t), Touch(l, t, ways).tags;
            && |r| == |l| && r[0] == t
            && (forall p :: 0 < p < |r| ==> r[p] == l[if p <= k then p - 1 else p] != t)
            && (forall u :: u in l ==> u in r)
  {
    var k, r := IndexOf(l, t), Touch(l, t, ways).tags;
    forall u | u in l
      ensures u in r
    {
      var p :| 0 <= p < |l| && l[p] == u;
      assert r[if p < k then p + 1 else if p == k then 0 else p] == u;
    }
  }

  lemma MissShape(l: seq<int>, t: int, ways: nat)
    requires t !in l && 0 < ways && |l| <= ways
    ensures var r := Touch(l, t, ways).tags;
            && |r| == (if |l| < ways then |l| + 1 else ways) && r[0] == t
            && (forall p :: 0 < p < |r| ==> r[p] == l[p - 1] != t)
            && (forall u :: u in l && u !in r ==> |l| == ways && u == l[ways - 1])
  {
    var r := Touch(l, t, ways).tags;
    forall u | u in l
      ensures u in r || (|l| == ways && u == l[ways - 1])
    {
      var p :| 0 <= p < |l| && l[p] == u;
      if p + 1 < |r| {
        assert r[p + 1] == u;
      }
    }
  }

  lemma HitLatest(time: int -> int, now: int -> int, l: seq<int>, t: int, ways: nat)
    requires Latest(time, l, ways) && NoTwice(l) && UsedNow(time, now, t) && t in l && 0 < ways
    ensures Latest(now, Touch(l, t, ways).tags, ways)
  {
    hide Touch, NoTwice, Sorted;
    HitShape(l, t, ways);
    HitSorted(time, now, l, t, ways);
    var k, r := IndexOf(l, t), Touch(l, t, ways).tags;
    forall u | u !in r && now(u) >= 0
      ensures |r| == ways && Older(now, u, r)
    {
      assert r[0] in r;
      assert Older(time, u, l);
    }
  }

  lemma HitSorted(time: int -> int, now: int -> int, l: seq<int>, t: int, ways: nat)
    requires Sorted(time, l) && NoTwice(l) && UsedNow(time, now, t) && t in l && 0 < ways
    ensures Sorted(now, Touch(l, t, ways).tags)
  {
    hide Touch, NoTwice, Sorted;
    HitShape(l, t, ways);
    var k, r := IndexOf(l, t), Touch(l, t, ways).tags;
    forall p | 0 < p < |r|
      ensures now(r[p]) == time(l[if p <= k then p - 1 else p]) < now(t)
    {
    }
    SortedMoved(time, now, l, r, k);
  }

  lemma SortedMoved(time: int -> int, now: int -> int, l: seq<int>, r: seq<int>, k: nat)
    requires Sorted(time, l) && k < |l| == |r|
    requires now(r[0]) >= 0
    requires forall p :: 0 < p < |r| ==> now(r[p]) == time(l[if p <= k then p - 1 else p]) < now(r[0])
    ensures Sorted(now, r)
  {
    forall p, q | 0 <= p < q < |r|
      ensures now(r[p]) > now(r[q])
    {
      if p > 0 {
        var p', q' := if p <= k then p - 1 else p, if q <= k then q - 1 else q;
        assert time(l[p']) > time(l[q']);
      }
    }
  }

  lemma MissLatest(time: int -> int, now: int -> int, l: seq<int>, t: int, ways: nat)
    requires Latest(time, l, ways) && UsedNow(time, now, t) && t !in l && 0 < ways && |l| <= ways
    ensures Latest(now, Touch(l, t, ways).tags, ways)
  {
    hide Touch;
    MissShape(l, t, ways);
    var r := Touch(l, t, ways).tags;
    forall p, q | 0 <= p < q < |r|
      ensures now(r[p]) > now(r[q])
    {
      if p > 0 {
        assert time(l[p - 1]) > time(l[q - 1]);
      }
    }
    forall u | u !in r && now(u) >= 0
      ensures |r| == ways && Older(now, u, r)
    {
      assert r[0] in r;
      if u !in l {
        assert Older(time, u, l);
      }
    }
  }

  /** Where set i's last uses are in the run. */
  function Times(accesses: seq<Access>, i: nat): int -> int { t => LastUse(accesses, i, t) }

  lemma TouchLatest(rest: seq<Access>, a: Access, l: seq<int>, ways: nat)
    requires 0 < ways && |l| <= ways && NoTwice(l) && Latest(Times(rest, a.index), l, ways)
    ensures Latest(Times(rest + [a], a.index), Touch(l, a.tag, ways).tags, ways)
  {
    hide Touch, Latest;
    var time, now := Times(rest, a.index), Times(rest + [a], a.index);
    assert (rest + [a])[..|rest|] == rest;
    assert UsedNow(time, now, a.tag);
    if a.tag in l {
      HitLatest(time, now, l, a.tag, ways);
    } else {
      MissLatest(time, now, l, a.tag, ways);
    }
  }

  /** THE LIST IS LRU: in every run, each set holds the most recently used tags, in the order of their last use; what it
      lost was used before all that it holds. */
  lemma {:induction false} HoldsMostRecent(accesses: seq<Access>, n: nat, ways: nat, i: nat)
    requires 0 < ways && InSets(accesses, n) && i < n
    ensures Latest(Times(accesses, i), Run(accesses, n, ways).sets[i], ways)
  {
    if accesses != [] {
      var rest, a := accesses[..|accesses| - 1], accesses[|accesses| - 1];
      HoldsMostRecent(rest, n, ways, i);
      RunOk(rest, n, ways);
      assert accesses == rest + [a];
      if a.index == i {
        TouchLatest(rest, a, Run(rest, n, ways).sets[i], ways);
      } else {
        assert forall u :: LastUse(accesses, i, u) == LastUse(rest, i, u);
      }
    }
  }
}
