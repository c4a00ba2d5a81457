/** The cache simulator: lines stamped with the time of their last use, in place of an ordering. */
module Csim {
  import Arith
  import opened LruSpec

  const UINT_MAX: nat := 0xFFFF_FFFF

  function Pow2(n: nat): (r: nat)
    ensures r > 0
  {
    if n == 0 then 1 else 2 * Pow2(n - 1)
  }

  /** The low 32 bits of an unsigned long, read as an int. */
  function ToInt(x: nat): int {
    var y := x % 0x1_0000_0000;
    if y < 0x8000_0000 then y else y - 0x1_0000_0000
  }

  /** x >> k */
  function Shr(x: nat, k: nat): nat {
    if k == 0 then x else Shr(x / 2, k - 1)
  }

  /** The low k bits of x, which is what `x & ~(-1 << k)` leaves. */
  function Low(x: nat, k: nat): (r: nat)
    ensures r < Pow2(k)
  {
    if k == 0 then 0 else x % 2 + 2 * Low(x / 2, k - 1)
  }

  // ---- `parseAddr`

  function TagOf(addr: nat, s: nat, b: nat): int { ToInt(Shr(addr, b + s)) }

  function SetOf(addr: nat, s: nat, b: nat): (i: nat)
    ensures i < Pow2(s)
  {
    Low(Shr(addr, b), s)
  }

  lemma {:induction false} ShrShr(x: nat, i: nat, j: nat)
    ensures Shr(x, i + j) == Shr(Shr(x, i), j)
  {
    if i > 0 {
      ShrShr(x / 2, i - 1, j);
    }
  }

  /** The high and the low bits determine a number. */
  lemma {:induction false} HighAndLow(x: nat, y: nat, k: nat)
    requires Shr(x, k) == Shr(y, k) && Low(x, k) == Low(y, k)
    ensures x == y
  {
    if k > 0 {
      HighAndLow(x / 2, y / 2, k - 1);
    }
  }

  /** TAG AND SET TELL BLOCKS APART: two addresses whose tags fit an int have the same tag and the same set exactly when
      they lie in the same block of 2^b bytes. */
  lemma TagAndSetNameBlock(x: nat, y: nat, s: nat, b: nat)
    requires Shr(x, b + s) < 0x8000_0000 && Shr(y, b + s) < 0x8000_0000
    ensures TagOf(x, s, b) == TagOf(y, s, b) && SetOf(x, s, b) == SetOf(y, s, b) <==> Shr(x, b) == Shr(y, b)
  {
    ShrShr(x, b, s);
    ShrShr(y, b, s);
    if TagOf(x, s, b) == TagOf(y, s, b) && SetOf(x, s, b) == SetOf(y, s, b) {
      HighAndLow(Shr(x, b), Shr(y, b), s);
    }
  }

  /** Shifting right divides; the low bits are the remainder. */
  lemma {:induction false} ShiftsDivide(x: nat, k: nat)
    ensures Shr(x, k) == x / Pow2(k) && Low(x, k) == x % Pow2(k)
  {
    if k > 0 {
      ShiftsDivide(x / 2, k - 1);
      OneMoreBit(x, Pow2(k - 1));
    }
  }

  lemma OneMoreBit(x: nat, p: nat)
    requires p > 0
    ensures x / (2 * p) == x / 2 / p && x % (2 * p) == 2 * (x / 2 % p) + x % 2
  {
    var y := x / 2;
    var q, r := y / p, y % p;
    assert x == (2 * p) * q + (2 * r + x % 2);
    Arith.Quotient(x, 2 * p, q, 2 * r + x % 2);
  }

  /** THE PARTS OF AN ADDRESS: blocks of 2^b bytes go to the 2^s sets in turn, and the tag, as far as it fits an int, is the
      number of the turn. */
  lemma AddressParts(addr: nat, s: nat, b: nat)
    ensures SetOf(addr, s, b) == addr / Pow2(b) % Pow2(s)
    ensures addr / Pow2(b + s) < 0x8000_0000 ==> TagOf(addr, s, b) == addr / Pow2(b + s)
  {
    hide Shr, Low, Pow2;
    ShiftsDivide(addr, b);
    ShiftsDivide(addr, b + s);
    ShiftsDivide(Shr(addr, b), s);
  }

  // ---- one set

  datatype Line = Line(valid: bool, tag: int, lastTouch: nat)

  /** order lists the valid lines of the row by last use, latest first; their tags and times are all different. */
  predicate RowOk(row: seq<Line>, order: seq<nat>, counter: nat) {
    Stamped(row, order, counter) && Descending(row, order) && AllListed(row, order)
  }

  predicate Stamped(row: seq<Line>, order: seq<nat>, counter: nat) {
    forall k :: 0 <= k < |order| ==> order[k] < |row| && LineOk(row[order[k]], counter)
  }

  predicate Descending(row: seq<Line>, order: seq<nat>) {
    forall i, j :: 0 <= i < j < |order| ==> After(row, order[i], order[j])
  }

  predicate AllListed(row: seq<Line>, order: seq<nat>) {
    forall j :: 0 <= j < |row| && row[j].valid ==> j in order
  }

  predicate LineOk(line: Line, counter: nat) { line.valid && line.lastTouch <= counter }

  predicate After(row: seq<Line>, i: nat, j: nat) {
    i < |row| && j < |row| && row[i].lastTouch > row[j].lastTouch && row[i].tag != row[j].tag
  }

  function TagsOf(row: seq<Line>, order: seq<nat>): (l: seq<int>)
    requires forall k :: 0 <= k < |order| ==> order[k] < |row|
    ensures |l| == |order|
  {
    seq(|order|, k requires 0 <= k < |order| => row[order[k]].tag)
  }

  function Upto(n: nat): (r: set<nat>)
    ensures |r| == n && forall j :: j in r <==> 0 <= j < n
  {
    if n == 0 then {} else Upto(n - 1) + {n - 1}
  }

  function Elements(l: seq<nat>): (r: set<nat>)
    ensures forall j :: j in r <==> j in l
    ensures (forall i, j :: 0 <= i < j < |l| ==> l[i] != l[j]) ==> |r| == |l|
  {
    if l == [] then {}
    else
      var rest, last := l[..|l| - 1], l[|l| - 1];
      assert l == rest + [last];
      Elements(rest) + {last}
  }

  lemma Pigeonhole(order: seq<nat>, n: nat)
    requires forall k :: 0 <= k < |order| ==> order[k] < n
    requires forall i, j :: 0 <= i < j < |order| ==> order[i] != order[j]
    ensures |order| <= n
    ensures |order| == n <==> forall j :: 0 <= j < n ==> j in order
  {
    var used, all := Elements(order), Upto(n);
    SubsetSize(used, all);
    if |order| == n {
      assert used == all;
      assert forall j :: 0 <= j < n ==> j in used;
    } else {
      assert used != all;
      var j :| j in all && j !in used;
      assert j !in order;
    }
  }

  lemma SubsetSize<T>(a: set<T>, c: set<T>)
    requires a <= c
    ensures |a| <= |c| && (|a| == |c| <==> a == c)
  {
    assert c == a + (c - a);
  }

  /** A row is full exactly when none of its lines is invalid. */
  lemma RowSize(row: seq<Line>, order: seq<nat>, counter: nat)
    requires RowOk(row, order, counter)
    ensures |order| <= |row|
    ensures |order| == |row| <==> forall j :: 0 <= j < |row| ==> row[j].valid
    ensures NoTwice(TagsOf(row, order))
  {
    forall i, j | 0 <= i < j < |order|
      ensures order[i] != order[j]
    {
      assert After(row, order[i], order[j]);
    }
    Pigeonhole(order, |row|);
    if |order| == |row| {
      forall j | 0 <= j < |row|
        ensures row[j].valid
      {
        assert j in order;
        var k :| 0 <= k < |order| && order[k] == j;
        assert LineOk(row[order[k]], counter);
      }
    }
    forall i, j | 0 <= i < j < |order|
      ensures TagsOf(row, order)[i] != TagsOf(row, order)[j]
    {
      assert After(row, order[i], order[j]);
    }
  }

  /** Line j has the tag: it is the one the list calls by it. */
  lemma HitLine(row: seq<Line>, order: seq<nat>, counter: nat, j: nat, tag: int) returns (k: nat)
    requires RowOk(row, order, counter) && j < |row| && row[j].valid && row[j].tag == tag
    ensures k < |order| && order[k] == j && tag in TagsOf(row, order) && k == IndexOf(TagsOf(row, order), tag)
  {
    var l := TagsOf(row, order);
    k :| 0 <= k < |order| && order[k] == j;
    assert l[k] == tag;
    RowSize(row, order, counter);
    assert l[IndexOf(l, tag)] == l[k];
  }

  lemma MissLine(row: seq<Line>, order: seq<nat>, counter: nat, tag: int)
    requires RowOk(row, order, counter)
    requires forall j :: 0 <= j < |row| && row[j].valid ==> row[j].tag != tag
    ensures tag !in TagsOf(row, order)
  {
    var l := TagsOf(row, order);
    forall k | 0 <= k < |l|
      ensures l[k] != tag
    {
      assert LineOk(row[order[k]], counter);
    }
  }

  function ToFront(order: seq<nat>, k: nat): seq<nat>
    requires k < |order|
  {
    [order[k]] + order[..k] + order[k + 1..]
  }

  lemma DistinctLines(row: seq<Line>, order: seq<nat>, counter: nat)
    requires RowOk(row, order, counter)
    ensures forall i, j :: 0 <= i < |order| && 0 <= j < |order| && i != j ==>
              order[i] != order[j] && row[order[i]].tag != row[order[j]].tag
  {
    forall i, j | 0 <= i < |order| && 0 <= j < |order| && i != j
      ensures order[i] != order[j] && row[order[i]].tag != row[order[j]].tag
    {
      assert if i < j then After(row, order[i], order[j]) else After(row, order[j], order[i]);
    }
  }

  lemma RowHit(row: seq<Line>, order: seq<nat>, counter: nat, k: nat)
    requires RowOk(row, order, counter) && k < |order|
    ensures var row', order' := row[order[k] := row[order[k]].(lastTouch := counter + 1)], ToFront(order, k);
            var l := TagsOf(row, order);
            RowOk(row', order', counter + 1) && TagsOf(row', order') == [l[k]] + l[..k] + l[k + 1..]
  {
    hide After, AllListed, Descending;
    var row' := row[order[k] := row[order[k]].(lastTouch := counter + 1)];
    var order' := ToFront(order, k);
    HitOrder(row, order, counter, k);
    HitListed(row, order, counter, k);
    HitTags(row, order, counter, k);
  }

  /** Where element p of the reordered list was before. */
  function Was(k: nat, p: nat): nat { if p == 0 then k else if p <= k then p - 1 else p }

  lemma ToFrontAt(order: seq<nat>, k: nat)
    requires k < |order|
    ensures |ToFront(order, k)| == |order|
    ensures forall p {:trigger ToFront(order, k)[p]} ::
              0 <= p < |order| ==> Was(k, p) < |order| && ToFront(order, k)[p] == order[Was(k, p)]
    ensures forall j :: j in order ==> j in ToFront(order, k)
  {
    var order' := ToFront(order, k);
    forall p | 0 <= p < |order|
      ensures order'[p] == order[Was(k, p)]
    {
    }
    forall j | j in order
      ensures j in order'
    {
      var p :| 0 <= p < |order| && order[p] == j;
      assert order'[if p < k then p + 1 else if p == k then 0 else p] == j;
    }
  }

  lemma HitOrder(row: seq<Line>, order: seq<nat>, counter: nat, k: nat)
    requires RowOk(row, order, counter) && k < |order| && order[k] < |row|
    ensures var row', order' := row[order[k] := row[order[k]].(lastTouch := counter + 1)], ToFront(order, k);
            Stamped(row', order', counter + 1) && Descending(row', order')
  {
    hide After, AllListed, ToFront;
    var row' := row[order[k] := row[order[k]].(lastTouch := counter + 1)];
    var order' := ToFront(order, k);
    ToFrontAt(order, k);
    assert Descending(row', order') by {
      forall p, q | 0 <= p < q < |order'|
        ensures After(row', order'[p], order'[q])
      {
        StillAfter(row, order, counter, k, Was(k, p), Was(k, q));
      }
    }
  }

  lemma HitListed(row: seq<Line>, order: seq<nat>, counter: nat, k: nat)
    requires RowOk(row, order, counter) && k < |order| && order[k] < |row|
    ensures AllListed(row[order[k] := row[order[k]].(lastTouch := counter + 1)], ToFront(order, k))
  {
    hide Descending, ToFront;
    ToFrontAt(order, k);
    assert row[order[k]].valid by { assert LineOk(row[order[k]], counter); }
  }

  lemma HitTags(row: seq<Line>, order: seq<nat>, counter: nat, k: nat)
    requires Stamped(row, order, counter) && k < |order|
    ensures var row', order', l := row[order[k] := row[order[k]].(lastTouch := counter + 1)], ToFront(order, k), TagsOf(row, order);
            Stamped(row', order', counter + 1) ==> TagsOf(row', order') == [l[k]] + l[..k] + l[k + 1..]
  {
  }

  lemma StillAfter(row: seq<Line>, order: seq<nat>, counter: nat, k: nat, p: nat, q: nat)
    requires RowOk(row, order, counter) && k < |order| && p < |order| && q < |order| && q != k && (p == k || p < q)
    ensures After(row[order[k] := row[order[k]].(lastTouch := counter + 1)], order[p], order[q])
  {
    DistinctLines(row, order, counter);
    assert LineOk(row[order[q]], counter);
    if p != k {
      assert After(row, order[p], order[q]);
    }
  }

  /** Writing a new tag into line f: the rest of the order is kept. */
  lemma RowMiss(row: seq<Line>, order: seq<nat>, counter: nat, f: nat, n: nat, tag: int)
    requires RowOk(row, order, counter) && f < |row| && tag !in TagsOf(row, order) && n <= |order|
    requires if row[f].valid then n == |order| - 1 && f == order[n] else n == |order|
    ensures var row', order' := row[f := Line(true, tag, counter + 1)], [f] + order[..n];
            RowOk(row', order', counter + 1) && TagsOf(row', order') == [tag] + TagsOf(row, order)[..n]
  {
    hide After, Descending, AllListed;
    var row' := row[f := Line(true, tag, counter + 1)];
    var order' := [f] + order[..n];
    forall p | 0 <= p < n
      ensures OtherLine(row, order[p], f, counter, tag)
    {
      assert LineOk(row[order[p]], counter);
      DistinctLines(row, order, counter);
      assert TagsOf(row, order)[p] == row[order[p]].tag;
    }
    assert Stamped(row', order', counter + 1) by {
      forall p | 0 <= p < |order'|
        ensures order'[p] < |row'| && LineOk(row'[order'[p]], counter + 1)
      {
        assert p > 0 ==> order'[p] == order[p - 1] && OtherLine(row, order[p - 1], f, counter, tag);
      }
    }
    MissDescending(row, order, counter, f, n, tag);
    MissListed(row, order, f, n, tag);
  }

  lemma MissDescending(row: seq<Line>, order: seq<nat>, counter: nat, f: nat, n: nat, tag: int)
    requires RowOk(row, order, counter) && f < |row| && n <= |order|
    requires forall p :: 0 <= p < n ==> OtherLine(row, order[p], f, counter, tag)
    ensures Descending(row[f := Line(true, tag, counter + 1)], [f] + order[..n])
  {
    hide After, AllListed;
    var row' := row[f := Line(true, tag, counter + 1)];
    var order' := [f] + order[..n];
    forall p, q | 0 <= p < q < |order'|
      ensures After(row', order'[p], order'[q])
    {
      assert OtherLine(row, order[q - 1], f, counter, tag);
      if p == 0 {
        NewIsLatest(row, order[q - 1], f, counter, tag);
      } else {
        assert OtherLine(row, order[p - 1], f, counter, tag) && After(row, order[p - 1], order[q - 1]);
        AfterKept(row, order[p - 1], order[q - 1], f, counter, tag);
      }
    }
  }

  lemma MissListed(row: seq<Line>, order: seq<nat>, f: nat, n: nat, tag: int)
    requires AllListed(row, order) && f < |row| && n <= |order|
    requires if row[f].valid then n == |order| - 1 && f == order[n] else n == |order|
    ensures forall t :: AllListed(row[f := Line(true, tag, t)], [f] + order[..n])
  {
    var order' := [f] + order[..n];
    forall j | 0 <= j < |row| && (row[j].valid || j == f)
      ensures j in order'
    {
      if j == f {
        assert order'[0] == j;
      } else {
        var p :| 0 <= p < |order| && order[p] == j;
        assert order'[p + 1] == j;
      }
    }
  }

  predicate OtherLine(row: seq<Line>, i: nat, f: nat, counter: nat, tag: int) {
    i < |row| && i != f && LineOk(row[i], counter) && row[i].tag != tag
  }

  lemma NewIsLatest(row: seq<Line>, i: nat, f: nat, counter: nat, tag: int)
    requires f < |row| && OtherLine(row, i, f, counter, tag)
    ensures After(row[f := Line(true, tag, counter + 1)], f, i)
  {
  }

  lemma AfterKept(row: seq<Line>, i: nat, j: nat, f: nat, counter: nat, tag: int)
    requires f < |row| && OtherLine(row, i, f, counter, tag) && OtherLine(row, j, f, counter, tag) && After(row, i, j)
    ensures After(row[f := Line(true, tag, counter + 1)], i, j)
  {
  }

  lemma LastIsOldest(row: seq<Line>, order: seq<nat>, counter: nat, k: nat)
    requires RowOk(row, order, counter) && k < |order|
    ensures order[k] < |row| && order[|order| - 1] < |row|
    ensures k < |order| - 1 ==> row[order[|order| - 1]].lastTouch < row[order[k]].lastTouch
  {
    if k < |order| - 1 {
      assert After(row, order[k], order[|order| - 1]);
    }
  }

  /** The line with the smallest stamp, all lines being valid, is the last in the order. */
  lemma OldestLine(row: seq<Line>, order: seq<nat>, counter: nat, f: nat)
    requires RowOk(row, order, counter) && f < |row| && (forall j :: 0 <= j < |row| ==> row[j].valid)
    requires forall j :: 0 <= j < |row| ==> row[f].lastTouch <= row[j].lastTouch
    ensures |order| == |row| && order[|order| - 1] == f
  {
    RowSize(row, order, counter);
    var k :| 0 <= k < |order| && order[k] == f;
    LastIsOldest(row, order, counter, k);
  }

  // ---- the simulator

  /** A line of the trace file: the operation, the address and the size. */
  datatype Record = Record(op: char, addr: nat, size: int)

  predicate Counts(r: Record) { r.op == 'L' || r.op == 'M' || r.op == 'S' }

  /** A record of size 0 ends the simulation with an error. */
  predicate Bad(trace: seq<Record>) {
    exists i :: 0 <= i < |trace| && Counts(trace[i]) && trace[i].size == 0
  }

  /** The touches that the trace makes, up to its end or to a bad record. */
  function Accesses(trace: seq<Record>, s: nat, b: nat): (l: seq<Access>)
    ensures InSets(l, Pow2(s)) && |l| <= |trace|
  {
    if trace == [] then []
    else
      var rest, r := trace[..|trace| - 1], trace[|trace| - 1];
      if Bad(trace) || !Counts(r) then Accesses(rest, s, b)
      else Accesses(rest, s, b) + [Access(SetOf(r.addr, s, b), TagOf(r.addr, s, b))]
  }

  /** The second touch of every modify record is counted as a hit without being made. */
  function Modifies(trace: seq<Record>): nat {
    if trace == [] then 0
    else
      var rest, r := trace[..|trace| - 1], trace[|trace| - 1];
      Modifies(rest) + if !Bad(trace) && r.op == 'M' then 1 else 0
  }

  // ---- counting lines

  function ValidLines(row: seq<Line>): nat {
    if row == [] then 0 else ValidLines(row[..|row| - 1]) + if row[|row| - 1].valid then 1 else 0
  }

  function AllValidLines(rows: seq<seq<Line>>): nat {
    if rows == [] then 0 else ValidLines(rows[0]) + AllValidLines(rows[1..])
  }

  function ValidSet(row: seq<Line>): (r: set<nat>)
    ensures |r| == ValidLines(row) && forall j :: j in r <==> 0 <= j < |row| && row[j].valid
  {
    if row == [] then {}
    else
      var rest := ValidSet(row[..|row| - 1]);
      if row[|row| - 1].valid then rest + {|row| - 1} else rest
  }

  lemma ValidAreListed(row: seq<Line>, order: seq<nat>, counter: nat)
    requires RowOk(row, order, counter)
    ensures ValidLines(row) == |order|
  {
    DistinctLines(row, order, counter);
    var valid, listed := ValidSet(row), Elements(order);
    forall j | j in listed
      ensures j in valid
    {
      var k :| 0 <= k < |order| && order[k] == j;
      assert LineOk(row[order[k]], counter);
    }
    assert valid == listed;
  }

  /** The recency lists hold as many tags as there are valid lines. */
  lemma {:induction false} LoadIsValidLines(rows: seq<seq<Line>>, orders: seq<seq<nat>>, counter: nat,
                                            sets: seq<seq<int>>, ways: nat)
    requires Holds(rows, orders, counter, sets, ways)
    ensures Load(sets) == AllValidLines(rows)
  {
    hide RowOk, TagsOf;
    if rows != [] {
      assert RowHolds(rows, orders, counter, sets, ways, 0);
      ValidAreListed(rows[0], orders[0], counter);
      StampedRow(rows[0], orders[0], counter);
      forall i | 0 <= i < |rows| - 1
        ensures RowHolds(rows[1..], orders[1..], counter, sets[1..], ways, i)
      {
        assert RowHolds(rows, orders, counter, sets, ways, i + 1);
      }
      LoadIsValidLines(rows[1..], orders[1..], counter, sets[1..], ways);
    }
  }

  predicate RowHolds(rows: seq<seq<Line>>, orders: seq<seq<nat>>, counter: nat, sets: seq<seq<int>>, ways: nat, i: nat)
    requires i < |rows| == |orders| == |sets|
  {
    |rows[i]| == ways && RowOk(rows[i], orders[i], counter) && sets[i] == TagsOf(rows[i], orders[i])
  }

  /** All rows, with the orders of their lines, hold the recency lists sets. */
  ghost predicate Holds(rows: seq<seq<Line>>, orders: seq<seq<nat>>, counter: nat, sets: seq<seq<int>>, ways: nat) {
    && |rows| == |orders| == |sets|
    && (forall i {:trigger RowHolds(rows, orders, counter, sets, ways, i)} :: 0 <= i < |rows| ==>
          RowHolds(rows, orders, counter, sets, ways, i))
  }

  lemma RowLater(row: seq<Line>, order: seq<nat>, counter: nat)
    requires RowOk(row, order, counter)
    ensures RowOk(row, order, counter + 1)
  {
    forall k | 0 <= k < |order|
      ensures order[k] < |row| && LineOk(row[order[k]], counter + 1)
    {
      assert LineOk(row[order[k]], counter);
    }
  }

  /** One row changes, in step with its list. */
  lemma HoldsUpdated(rows: seq<seq<Line>>, orders: seq<seq<nat>>, counter: nat, sets: seq<seq<int>>, ways: nat,
                     i: nat, row: seq<Line>, order: seq<nat>, l: seq<int>)
    requires Holds(rows, orders, counter, sets, ways) && i < |rows|
    requires |row| == ways && RowOk(row, order, counter + 1) && l == TagsOf(row, order)
    ensures Holds(rows[i := row], orders[i := order], counter + 1, sets[i := l], ways)
  {
    hide RowOk, TagsOf;
    var rows', orders', sets', counter' := rows[i := row], orders[i := order], sets[i := l], counter + 1;
    forall j | 0 <= j < |rows'|
      ensures RowHolds(rows', orders', counter', sets', ways, j)
    {
      if j != i {
        assert RowHolds(rows, orders, counter, sets, ways, j);
        StampedRow(rows[j], orders[j], counter);
        RowLater(rows[j], orders[j], counter);
      }
    }
  }

  lemma StampedRow(row: seq<Line>, order: seq<nat>, counter: nat)
    requires RowOk(row, order, counter)
    ensures Stamped(row, order, counter)
  {
  }

  /** What the scan of a set tells: no line has the tag, free is an invalid line, lru the line stamped first. */
  predicate Scanned(row: seq<Line>, n: nat, tag: int, free: int, lru: int, minTouch: nat) {
    && n <= |row|
    && (forall t :: 0 <= t < n && row[t].valid ==> row[t].tag != tag)
    && (if free == -1 then forall t :: 0 <= t < n ==> row[t].valid else 0 <= free < n && !row[free].valid)
    && (forall t :: 0 <= t < n ==> minTouch <= row[t].lastTouch)
    && (if lru == -1 then minTouch == UINT_MAX else 0 <= lru < n && row[lru].lastTouch == minTouch)
  }

  /** The line that a miss takes, and what this does to the recency list. */
  lemma MissOutcome(row: seq<Line>, order: seq<nat>, counter: nat, tag: int, free: int, lru: int, minTouch: nat)
    returns (n: nat)
    requires RowOk(row, order, counter) && counter < UINT_MAX && 0 < |row| && Scanned(row, |row|, tag, free, lru, minTouch)
    ensures var f := if free == -1 then lru else free;
            && 0 <= f < |row| && n <= |order|
            && var r := LruSpec.Touch(TagsOf(row, order), tag, |row|);
               var row', order' := row[f := Line(true, tag, counter + 1)], [f as nat] + order[..n];
               && !r.hit && r.evicted == row[f].valid
               && RowOk(row', order', counter + 1) && TagsOf(row', order') == r.tags
  {
    hide After, RowOk;
    RowSize(row, order, counter);
    MissLine(row, order, counter, tag);
    StampedRow(row, order, counter);
    if free == -1 {
      AllStamped(row, order, counter);
      assert minTouch <= row[0].lastTouch <= counter;
      OldestLine(row, order, counter, lru);
      n := |order| - 1;
      RowMiss(row, order, counter, lru, n, tag);
    } else {
      n := |order|;
      assert order[..n] == order;
      assert TagsOf(row, order)[..n] == TagsOf(row, order);
      RowMiss(row, order, counter, free, n, tag);
    }
  }

  lemma AllStamped(row: seq<Line>, order: seq<nat>, counter: nat)
    requires RowOk(row, order, counter) && forall t :: 0 <= t < |row| ==> row[t].valid
    ensures forall t :: 0 <= t < |row| ==> row[t].lastTouch <= counter
  {
    forall t | 0 <= t < |row|
      ensures row[t].lastTouch <= counter
    {
      assert t in order;
      var k :| 0 <= k < |order| && order[k] == t;
      assert LineOk(row[order[k]], counter);
    }
  }

  lemma HitOutcome(row: seq<Line>, order: seq<nat>, counter: nat, tag: int, j: nat) returns (k: nat)
    requires RowOk(row, order, counter) && j < |row| && row[j].valid && row[j].tag == tag
    ensures k < |order|
    ensures var r := LruSpec.Touch(TagsOf(row, order), tag, |row|);
            var row', order' := row[j := row[j].(lastTouch := counter + 1)], ToFront(order, k);
            r.hit && !r.evicted && RowOk(row', order', counter + 1) && TagsOf(row', order') == r.tags
  {
    hide After, RowOk, ToFront;
    k := HitLine(row, order, counter, j, tag);
    RowHit(row, order, counter, k);
  }

  class Cache {
    const s: nat
    const b: nat
    const ways: nat
    const lines: array2<Line>
    var counter: nat
    ghost var orders: seq<seq<nat>>
    ghost var sets: seq<seq<int>>

    ghost function Row(i: nat): (row: seq<Line>)
      requires i < lines.Length0
      reads lines
      ensures |row| == lines.Length1
    {
      seq(lines.Length1, j requires 0 <= j < lines.Length1 reads lines => lines[i, j])
    }

    ghost function Rows(): (rows: seq<seq<Line>>)
      reads lines
    {
      seq(lines.Length0, i requires 0 <= i < lines.Length0 reads lines => Row(i))
    }

    /** The lines hold the recency lists sets. */
    ghost predicate Ok()
      reads this, lines
    {
      && lines.Length0 == Pow2(s) && lines.Length1 == ways && 0 < ways && counter <= UINT_MAX
      && Holds(Rows(), orders, counter, sets, ways)
    }

    /** `initCache` */
    constructor (s: nat, ways: nat, b: nat)
      requires 0 < ways
      ensures Ok() && fresh(lines) && this.s == s && this.b == b && this.ways == ways && counter == 0
      ensures sets == Empty(Pow2(s)).sets
    {
      this.s := s;
      this.b := b;
      this.ways := ways;
      lines := new Line[Pow2(s), ways]((_, _) => Line(false, 0, 0));
      counter := 0;
      orders := seq(Pow2(s), _ => []);
      sets := Empty(Pow2(s)).sets;
    }

    method SetLine(i: nat, j: nat, line: Line)
      requires i < lines.Length0 && j < lines.Length1
      modifies lines
      ensures Rows() == old(Rows())[i := old(Row(i))[j := line]]
    {
      lines[i, j] := line;
      assert Row(i) == old(Row(i))[j := line];
      assert forall k :: 0 <= k < lines.Length0 && k != i ==> Row(k) == old(Row(k));
    }

    /** `touchCache` does what one access does to the recency list of its set, and reports the same outcome. */
    method Touch(addr: nat) returns (hit: bool, evicted: bool)
      requires Ok() && counter < UINT_MAX
      modifies this`counter, this`orders, this`sets, lines
      ensures Ok() && counter == old(counter) + 1
      ensures SetOf(addr, s, b) < |old(sets)| == |sets|
      ensures var i, t := SetOf(addr, s, b), TagOf(addr, s, b);
              var r := LruSpec.Touch(old(sets)[i], t, ways);
              sets == old(sets)[i := r.tags] && hit == r.hit && evicted == r.evicted
    {
      hide RowOk, LruSpec.Touch, Scanned, ToFront, TagsOf;
      var tag, idx := TagOf(addr, s, b), SetOf(addr, s, b);
      hit := false;
      evicted := false;
      ghost var rows, row, order := Rows(), Row(idx), orders[idx];
      var free, lru := -1, -1;
      var minTouch := UINT_MAX;
      assert RowHolds(rows, orders, counter, sets, ways, idx);
      assert RowOk(row, order, counter) && |row| == ways;
      assert Scanned(row, 0, tag, free, lru, minTouch) by { StartScan(row, tag); }
      var j := 0;
      while j < ways
        invariant 0 <= j <= ways && !hit && counter == old(counter) && orders == old(orders) && sets == old(sets)
        invariant Rows() == rows && Scanned(row, j, tag, free, lru, minTouch)
      {
        assert lines[idx, j] == Row(idx)[j] == Rows()[idx][j] == row[j];
        ScanStep(row, j, tag, free, lru, minTouch);
        if lines[idx, j].lastTouch < minTouch {
          minTouch := lines[idx, j].lastTouch;
          lru := j;
        }
        if lines[idx, j].tag == tag && lines[idx, j].valid {
          hit := true;
          counter := counter + 1;
          ghost var k := HitOutcome(row, order, old(counter), tag, j);
          SetLine(idx, j, lines[idx, j].(lastTouch := counter));
          orders := orders[idx := ToFront(order, k)];
          break;
        } else if !lines[idx, j].valid && free == -1 {
          free := j;
        }
        j := j + 1;
      }
      if !hit {
        assert j == |row| && RowOk(row, order, counter);
        ghost var n := MissOutcome(row, order, counter, tag, free, lru, minTouch);
        if free == -1 {
          free := lru;
        }
        assert lines[idx, free] == Row(idx)[free] == Rows()[idx][free] == row[free];
        evicted := lines[idx, free].valid;
        counter := counter + 1;
        SetLine(idx, free, Line(true, tag, counter));
        orders := orders[idx := [free as nat] + order[..n]];
      }
      ghost var l := LruSpec.Touch(sets[idx], tag, ways).tags;
      HoldsUpdated(rows, old(orders), old(counter), sets, ways, idx, Rows()[idx], orders[idx], l);
      sets := sets[idx := l];
    }
  }

  /** Lists and counts after a trace are those of the recency lists, plus a hit for every modify record. */
  ghost predicate Agrees(trace: seq<Record>, s: nat, b: nat, ways: nat, sets: seq<seq<int>>,
                         hits: nat, misses: nat, evictions: nat)
    requires 0 < ways
  {
    var run := Run(Accesses(trace, s, b), Pow2(s), ways);
    && sets == run.sets && misses == run.tally.misses && evictions == run.tally.evictions
    && hits == run.tally.hits + Modifies(trace)
  }

  lemma AgreesTouched(trace: seq<Record>, r: Record, s: nat, b: nat, ways: nat, sets: seq<seq<int>>,
                      hits: nat, misses: nat, evictions: nat)
    requires 0 < ways && Agrees(trace, s, b, ways, sets, hits, misses, evictions)
    requires !Bad(trace) && Counts(r) && r.size != 0
    ensures !Bad(trace + [r])
    ensures var i := SetOf(r.addr, s, b);
            i < |sets| && var t := LruSpec.Touch(sets[i], TagOf(r.addr, s, b), ways);
            Agrees(trace + [r], s, b, ways, sets[i := t.tags],
                   hits + (if r.op == 'M' then 1 else 0) + (if t.hit then 1 else 0),
                   misses + (if t.hit then 0 else 1), evictions + (if t.evicted then 1 else 0))
  {
    hide LruSpec.Touch;
    assert (trace + [r])[..|trace|] == trace;
    var accesses, access := Accesses(trace, s, b), Access(SetOf(r.addr, s, b), TagOf(r.addr, s, b));
    assert (accesses + [access])[..|accesses|] == accesses;
  }

  lemma AgreesSkipped(trace: seq<Record>, r: Record, s: nat, b: nat, ways: nat, sets: seq<seq<int>>,
                      hits: nat, misses: nat, evictions: nat)
    requires 0 < ways && Agrees(trace, s, b, ways, sets, hits, misses, evictions)
    requires !Bad(trace) && (!Counts(r) || r.size == 0)
    ensures Bad(trace + [r]) <==> Counts(r)
    ensures Agrees(trace + [r], s, b, ways, sets, hits, misses, evictions)
  {
    hide Run;
    assert (trace + [r])[..|trace|] == trace;
    assert (trace + [r])[|trace|] == r;
  }

  // ---- the trace in the letters of its records

  /** How many records have one of the letters. */
  function WithOp(trace: seq<Record>, ops: set<char>): nat {
    if trace == [] then 0 else WithOp(trace[..|trace| - 1], ops) + if trace[|trace| - 1].op in ops then 1 else 0
  }

  /** The records with one of the letters. */
  function OnlyOps(trace: seq<Record>, ops: set<char>): seq<Record> {
    if trace == [] then []
    else OnlyOps(trace[..|trace| - 1], ops) + if trace[|trace| - 1].op in ops then [trace[|trace| - 1]] else []
  }

  /** A trace without a bad record touches once for every load, store and modify, and counts every modify once more. */
  lemma {:induction false} TouchesCounted(trace: seq<Record>, s: nat, b: nat)
    requires !Bad(trace)
    ensures |Accesses(trace, s, b)| == WithOp(trace, {'L', 'S', 'M'}) && Modifies(trace) == WithOp(trace, {'M'})
  {
    if trace != [] {
      TouchesCounted(trace[..|trace| - 1], s, b) by { BadGrows(trace); }
    }
  }

  lemma BadGrows(trace: seq<Record>)
    requires trace != []
    ensures Bad(trace) <==> Bad(trace[..|trace| - 1])
                            || (trace[|trace| - 1].op in {'L', 'S', 'M'} && trace[|trace| - 1].size == 0)
  {
    var rest, r := trace[..|trace| - 1], trace[|trace| - 1];
    assert trace == rest + [r];
    if Bad(rest) {
      var i :| 0 <= i < |rest| && Counts(rest[i]) && rest[i].size == 0;
      assert trace[i] == rest[i];
    }
    if Bad(trace) {
      var i :| 0 <= i < |trace| && Counts(trace[i]) && trace[i].size == 0;
      assert i < |rest| ==> rest[i] == trace[i];
    }
  }

  /** Every load, store and modify, after a trace without a bad record, touches the block of its address. */
  lemma TouchIsLast(trace: seq<Record>, r: Record, s: nat, b: nat)
    requires !Bad(trace) && r.op in {'L', 'S', 'M'} && r.size != 0
    ensures Accesses(trace + [r], s, b) == Accesses(trace, s, b) + [Access(SetOf(r.addr, s, b), TagOf(r.addr, s, b))]
  {
    assert (trace + [r])[..|trace|] == trace;
    BadGrows(trace + [r]);
  }

  /** OTHER LETTERS CHANGE NOTHING: lists and counts of a trace are those of its loads, stores and modifies alone. */
  lemma {:induction false} OthersIgnored(trace: seq<Record>, s: nat, b: nat)
    ensures var only := OnlyOps(trace, {'L', 'S', 'M'});
            && Accesses(only, s, b) == Accesses(trace, s, b) && Modifies(only) == Modifies(trace)
            && (Bad(only) <==> Bad(trace))
  {
    if trace != [] {
      var rest, r := trace[..|trace| - 1], trace[|trace| - 1];
      OthersIgnored(rest, s, b);
      BadGrows(trace);
      var only := OnlyOps(rest, {'L', 'S', 'M'});
      if r.op in {'L', 'S', 'M'} {
        assert (only + [r])[..|only|] == only;
        BadGrows(only + [r]);
      } else {
        assert only + [] == only;
      }
    }
  }

  /** WHAT IS COUNTED: hits and misses together are the loads, stores and modifies, the modifies twice. */
  lemma CountsTold(trace: seq<Record>, s: nat, b: nat, ways: nat, sets: seq<seq<int>>,
                   hits: nat, misses: nat, evictions: nat)
    requires 0 < ways && Agrees(trace, s, b, ways, sets, hits, misses, evictions) && !Bad(trace)
    ensures hits + misses == WithOp(trace, {'L', 'S', 'M'}) + WithOp(trace, {'M'})
  {
    hide Run, Bad;
    TallyBalances(Accesses(trace, s, b), Pow2(s), ways);
    TouchesCounted(trace, s, b);
  }

  /** MORE WAYS NEVER HURT: of two simulators that read the same trace with the same sets and blocks, the one with more ways
      counts at least as many hits and at most as many misses, and holds at least the same tags. */
  lemma MoreWaysNeverHurt(trace: seq<Record>, s: nat, b: nat, ways: nat, more: nat,
                          sets: seq<seq<int>>, hits: nat, misses: nat, evictions: nat,
                          sets': seq<seq<int>>, hits': nat, misses': nat, evictions': nat)
    requires 0 < ways <= more
    requires Agrees(trace, s, b, ways, sets, hits, misses, evictions)
    requires Agrees(trace, s, b, more, sets', hits', misses', evictions')
    ensures hits <= hits' && misses' <= misses && |sets| == |sets'|
    ensures forall i, t :: 0 <= i < |sets| && t in sets[i] ==> t in sets'[i]
  {
    hide Run;
    LruInclusion(Accesses(trace, s, b), Pow2(s), ways, more);
    forall i, t | 0 <= i < |sets| && t in sets[i]
      ensures t in sets'[i]
    {
      FrontIncluded(sets[i], sets'[i], ways, t);
    }
  }

  /** `parseTrace`: the printed counts are those of the recency lists, plus a hit for every modify; what was missed and
      not evicted is what the lines hold. */
  method ParseTrace(c: Cache, trace: seq<Record>) returns (ok: bool, hits: nat, misses: nat, evictions: nat)
    requires c.Ok() && c.counter == 0 && c.sets == Empty(Pow2(c.s)).sets && |trace| <= UINT_MAX
    modifies c`counter, c`orders, c`sets, c.lines
    ensures !ok <==> exists i :: 0 <= i < |trace| && trace[i].op in {'L', 'S', 'M'} && trace[i].size == 0
    ensures ok ==> hits + misses == WithOp(trace, {'L', 'S', 'M'}) + WithOp(trace, {'M'})
    ensures c.Ok() && Agrees(trace, c.s, c.b, c.ways, c.sets, hits, misses, evictions)
    ensures misses == evictions + AllValidLines(c.Rows())
  {
    hide Holds, LruSpec.Touch, Agrees, Bad;
    hits, misses, evictions := 0, 0, 0;
    ok := true;
    NothingRead(c.s, c.b, c.ways);
    var i := 0;
    while i < |trace| && ok
      invariant 0 <= i <= |trace| && c.Ok() && c.counter <= i && (ok <==> !Bad(trace[..i]))
      invariant Agrees(trace[..i], c.s, c.b, c.ways, c.sets, hits, misses, evictions)
    {
      var r := trace[i];
      assert trace[..i + 1] == trace[..i] + [r];
      if !Counts(r) || r.size == 0 {
        AgreesSkipped(trace[..i], r, c.s, c.b, c.ways, c.sets, hits, misses, evictions);
        ok := !Counts(r);
      } else {
        AgreesTouched(trace[..i], r, c.s, c.b, c.ways, c.sets, hits, misses, evictions);
        var hit, evicted := c.Touch(r.addr);
        if r.op == 'M' {
          hits := hits + 1;
        }
        evictions := evictions + if evicted then 1 else 0;
        if hit {
          hits := hits + 1;
        } else {
          misses := misses + 1;
        }
      }
      i := i + 1;
    }
    RestIgnored(trace, i, c.s, c.b);
    AgreesUpTo(trace, i, c.s, c.b, c.ways, c.sets, hits, misses, evictions);
    Balanced(trace, c.s, c.b, c.ways, c.sets, hits, misses, evictions);
    LoadIsValidLines(c.Rows(), c.orders, c.counter, c.sets, c.ways);
    BadTold(trace);
    if ok {
      CountsTold(trace, c.s, c.b, c.ways, c.sets, hits, misses, evictions);
    }
  }

  lemma BadTold(trace: seq<Record>)
    ensures Bad(trace) <==> exists i :: 0 <= i < |trace| && trace[i].op in {'L', 'S', 'M'} && trace[i].size == 0
  {
    if Bad(trace) {
      var i :| 0 <= i < |trace| && Counts(trace[i]) && trace[i].size == 0;
      assert trace[i].op in {'L', 'S', 'M'};
    }
    if i :| 0 <= i < |trace| && trace[i].op in {'L', 'S', 'M'} && trace[i].size == 0 {
      assert Counts(trace[i]);
    }
  }

  lemma NothingRead(s: nat, b: nat, ways: nat)
    requires 0 < ways
    ensures Agrees([], s, b, ways, Empty(Pow2(s)).sets, 0, 0, 0) && !Bad([])
  {
  }

  lemma AgreesUpTo(trace: seq<Record>, i: nat, s: nat, b: nat, ways: nat, sets: seq<seq<int>>,
                   hits: nat, misses: nat, evictions: nat)
    requires 0 < ways && i <= |trace| && (i == |trace| || Bad(trace[..i]))
    requires Agrees(trace[..i], s, b, ways, sets, hits, misses, evictions)
    ensures Agrees(trace, s, b, ways, sets, hits, misses, evictions)
  {
    hide Run, Bad;
    RestIgnored(trace, i, s, b);
  }

  lemma Balanced(trace: seq<Record>, s: nat, b: nat, ways: nat, sets: seq<seq<int>>,
                 hits: nat, misses: nat, evictions: nat)
    requires 0 < ways && Agrees(trace, s, b, ways, sets, hits, misses, evictions)
    ensures misses == evictions + Load(sets)
  {
    hide Run;
    TallyBalances(Accesses(trace, s, b), Pow2(s), ways);
  }

  /** Nothing after a bad record matters. */
  lemma {:induction false} RestIgnored(trace: seq<Record>, i: nat, s: nat, b: nat)
    requires i <= |trace| && (i == |trace| || Bad(trace[..i]))
    ensures Bad(trace) == Bad(trace[..i]) && Accesses(trace, s, b) == Accesses(trace[..i], s, b)
    ensures Modifies(trace) == Modifies(trace[..i])
  {
    if i == |trace| {
      assert trace[..i] == trace;
    } else {
      var rest := trace[..|trace| - 1];
      assert rest[..i] == trace[..i];
      var k :| 0 <= k < i && Counts(trace[..i][k]) && trace[..i][k].size == 0;
      assert trace[k] == trace[..i][k];
      RestIgnored(rest, i, s, b);
    }
  }

  lemma StartScan(row: seq<Line>, tag: int)
    ensures Scanned(row, 0, tag, -1, -1, UINT_MAX)
  {
  }

  lemma ScanStep(row: seq<Line>, j: nat, tag: int, free: int, lru: int, minTouch: nat)
    requires Scanned(row, j, tag, free, lru, minTouch) && j < |row|
    ensures var lower := row[j].lastTouch < minTouch;
            (row[j].tag == tag && row[j].valid) ||
            Scanned(row, j + 1, tag, if !row[j].valid && free == -1 then j else free,
                    if lower then j else lru, if lower then row[j].lastTouch else minTouch)
  {
  }
}
