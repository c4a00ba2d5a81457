/** The pipelined simulator stops precisely where the ISA says, after an exactly known number of cycles. */
module PipeTheorem {
  import opened Words
  import opened Memory
  import opened Isa
  import opened IsaTrace
  import opened PipeControl
  import opened PipeCore
  import opened PipeStaged
  import opened PipeChain
  import opened PipeStep
  import opened PipeTrace
  import opened PipeRun

  /** The run from s completes n instructions in the ISA, all of them fetchable. */
  ghost predicate Completes(s: State, n: nat) {
    forall k: nat :: k < n ==> StepState(IsaAt(s, k)).stat == AOK && Fetchable(IsaAt(s, k))
  }

  /** The pipeline stops at the instruction at index n. */
  ghost predicate Ends(s: State, n: nat) { Completes(s, n) && Stop(IsaAt(s, n)) }

  // ---- when each instruction is fetched and when it retires

  /** The cycles lost because of the instruction at index k. */
  function Penalty(s: State, k: nat): nat {
    (if LoadThenUse(IsaAt(s, k), IsaAt(s, k + 1)) then 1 else 0) +
    (if NotTaken(IsaAt(s, k)) then 2 else 0) +
    (if IsRet(IsaAt(s, k)) then 3 else 0)
  }

  /** The cycle, counted from 0, in which the instruction at index k is in write-back. */
  function Retire(s: State, k: nat): (t: nat)
    ensures t >= 4 + k
  {
    if k == 0 then 4 else Retire(s, k - 1) + 1 + Penalty(s, k - 1)
  }

  /** The cycle in which the instruction at index k is fetched for good: right behind its predecessor, or once a
      predecessor that redirects the pipeline has told where it lies. */
  function FetchCycle(s: State, k: nat): nat {
    if k == 0 then 0
    else Retire(s, k - 1) - 3 + (if NotTaken(IsaAt(s, k - 1)) then 2 else 0) + if IsRet(IsaAt(s, k - 1)) then 3 else 0
  }

  /** The run goes as far as the pipeline can have got by cycle t: either the pipeline stops at index n, or the
      instruction at index n, which completes too, is not fetched before cycle t. */
  ghost predicate Covers(s: State, n: nat, t: int) {
    Completes(s, n) && Good(IsaAt(s, n)) && (Stop(IsaAt(s, n)) || t <= FetchCycle(s, n))
  }

  /** How many of the first k instructions have retired by cycle t. */
  function Committed(s: State, k: nat, t: int): (i: nat)
    ensures i <= k
  {
    if k == 0 || Retire(s, k - 1) <= t then k else Committed(s, k - 1, t)
  }

  /** The one of the first k instructions that retires in cycle t, if any. */
  function RetiredIn(s: State, k: nat, t: int): Option<State> {
    var i := Committed(s, k, t);
    if i > 0 && Retire(s, i - 1) == t then Some(IsaAt(s, i - 1)) else None
  }

  // ---- when the pipeline gives an instruction the same inputs as the ISA

  /** The stores still in flight when the instruction at index k is fetched leave its bytes as they are. */
  predicate FetchFits(s: State, k: nat) {
    SameCode(IsaAt(s, Committed(s, k, FetchCycle(s, k))).m, IsaAt(s, k).m, IsaAt(s, k).pc)
  }

  /** What the instruction at index k is given for a missing register: the instructions one, two and three cycles ahead
      of it are those in execute, memory and write-back when it is in decode. */
  function MissingAt(s: State, k: nat): Word {
    var t := Retire(s, k);
    MissingOf(RetiredIn(s, k, t - 1), RetiredIn(s, k, t - 2), RetiredIn(s, k, t - 3))
  }

  /** A missing register that the instruction at index k computes with is given as 0. */
  predicate OperandsFit(s: State, k: nat) {
    ReadsMissing(IsaAt(s, k)) ==> MissingAt(s, k) == 0
  }

  predicate Fits(s: State, k: nat) { FetchFits(s, k) && OperandsFit(s, k) }

  /** The run ends at index n and the pipeline gets the inputs of the ISA all along. */
  ghost predicate StopsAt(s: State, n: nat) {
    Ends(s, n) && forall k: nat :: k <= n ==> Fits(s, k)
  }

  /** Everything that the pipeline fetches and decodes before cycle t fits. */
  ghost predicate FitsBefore(s: State, n: nat, t: int) {
    && (forall k: nat :: k <= n && FetchCycle(s, k) < t ==> FetchFits(s, k))
    && (forall k: nat :: k <= n && Retire(s, k) - 3 < t ==> OperandsFit(s, k))
  }

  function LoadUses(s: State, n: nat): nat {
    if n == 0 then 0
    else LoadUses(s, n - 1) + if LoadThenUse(IsaAt(s, n - 1), IsaAt(s, n)) then 1 else 0
  }

  function NotTakens(s: State, n: nat): nat {
    if n == 0 then 0 else NotTakens(s, n - 1) + if NotTaken(IsaAt(s, n - 1)) then 1 else 0
  }

  function Rets(s: State, n: nat): nat {
    if n == 0 then 0 else Rets(s, n - 1) + if IsRet(IsaAt(s, n - 1)) then 1 else 0
  }

  lemma {:induction false} RetireCloses(s: State, n: nat)
    ensures Retire(s, n) == 4 + n + LoadUses(s, n) + 2 * NotTakens(s, n) + 3 * Rets(s, n)
  {
    hide LoadThenUse, NotTaken, IsRet, IsaAt;
    if n > 0 {
      RetireCloses(s, n - 1);
    }
  }

  lemma {:induction false} RetireMonotone(s: State, j: nat, k: nat)
    requires j <= k
    ensures Retire(s, k) >= Retire(s, j) + (k - j)
    decreases k
  {
    hide Penalty, IsaAt;
    if j < k {
      RetireMonotone(s, j, k - 1);
    }
  }

  // ---- chains placed in the run

  function One(t: Slot): nat { if t.Ins? then 1 else 0 }

  /** The state at index k, staying at the stopping instruction. */
  function At(s: State, n: nat, k: nat): State { IsaAt(s, if k <= n then k else n) }

  lemma AtNext(s: State, n: nat, k: nat)
    requires Completes(s, n) && (k < n || Stop(IsaAt(s, n)))
    ensures At(s, n, k + 1) == After(At(s, n, k))
  {
    hide StepState, PStat, Fetchable, Completes, IsaAt;
    if k < n {
      NextAt(s, k);
      RunFacts(s, n, k);
    }
  }

  lemma AtGood(s: State, n: nat, t: int, k: nat)
    requires Covers(s, n, t)
    ensures Good(At(s, n, k))
    ensures Stop(At(s, n, k)) <==> k >= n && Stop(IsaAt(s, n))
  {
    hide StepState, PStat, Fetchable, Completes, IsaAt, FetchCycle;
    if k < n {
      RunFacts(s, n, k);
    }
  }

  lemma RunFacts(s: State, n: nat, k: nat)
    requires Completes(s, n) && k < n
    ensures !Stop(IsaAt(s, k)) && Good(IsaAt(s, k))
  {
    hide StepState, PStat, Fetchable, IsaAt;
    assert StepState(IsaAt(s, k)).stat == AOK && Fetchable(IsaAt(s, k));
    StatusAgrees(IsaAt(s, k));
  }

  /** The chain lies along the run, its oldest slot at index i. */
  predicate Along(g: Chain, s: State, n: nat, i: nat) {
    var im := i + One(g.tw);
    var ie := im + One(g.tm);
    var id := ie + One(g.te);
    && g.sw == At(s, n, i) && g.sm == At(s, n, im) && g.se == At(s, n, ie) && g.sd == At(s, n, id)
    && g.sf == At(s, n, id + One(g.td))
  }

  /** Every instruction in the chain is on time to retire. */
  predicate OnTime(g: Chain, s: State, n: nat, i: nat, t: nat) {
    var im := i + One(g.tw);
    var ie := im + One(g.tm);
    var id := ie + One(g.te);
    && (g.tw.Ins? ==> i <= n && t == Retire(s, i))
    && (g.tm.Ins? ==> im <= n && t + 1 == Retire(s, im))
    && (g.te.Ins? ==> ie <= n && t + 2 == Retire(s, ie))
    && (g.td.Ins? ==> id <= n && t + 3 + (if LoadUseNow(g) then 1 else 0) == Retire(s, id))
    && (g.tw.Bub? && g.tm.Bub? && g.te.Bub? && g.td.Bub? ==> t == 0 && i == 0)
    && (i > 0 ==> Retire(s, i - 1) < t)
  }

  predicate Placed(g: Chain, s: State, n: nat, i: nat, t: nat) {
    Along(g, s, n, i) && OnTime(g, s, n, i, t)
  }

  /** The index of the next instruction to be fetched. */
  function NextIndex(g: Chain, i: nat): nat { i + One(g.tw) + One(g.tm) + One(g.te) + One(g.td) }

  lemma LastFetched(g: Chain, s: State, n: nat, i: nat, t: nat)
    requires Placed(g, s, n, i, t) && NextIndex(g, i) > 0
    ensures FetchCycle(s, NextIndex(g, i) - 1) < t
  {
    hide Stop, IsaAt, AllGood, NotTaken, IsRet, Retire, FetchCycle, LoadThenUse;
    FetchToRetire(s, NextIndex(g, i) - 1);
  }

  lemma Within(g: Chain, s: State, n: nat, i: nat, t: nat)
    requires Covers(s, n, t) && Placed(g, s, n, i, t) && !Stop(IsaAt(s, n))
    ensures NextIndex(g, i) <= n
  {
    hide Stop, IsaAt, FetchCycle, Placed, Completes;
    var f := NextIndex(g, i);
    if f > n {
      LastFetched(g, s, n, i, t);
      if n < f - 1 {
        FetchMonotone(s, n, f - 1);
      }
    }
  }

  lemma PlacedGood(g: Chain, s: State, n: nat, i: nat, t: nat)
    requires Covers(s, n, t) && Placed(g, s, n, i, t)
    ensures AllGood(g)
    ensures g.tm.Ins? && Stop(g.sm) ==> i + One(g.tw) == n
    ensures g.te.Ins? && Stop(g.se) ==> i + One(g.tw) + One(g.tm) == n
    ensures g.td.Ins? && Stop(g.sd) ==> i + One(g.tw) + One(g.tm) + One(g.te) == n
    ensures g.tw.Ins? && !Stop(g.sw) ==> i < n
    ensures g.tm.Ins? && !Stop(g.sm) ==> i + One(g.tw) < n
    ensures g.te.Ins? && !Stop(g.se) ==> i + One(g.tw) + One(g.tm) < n
    ensures g.td.Ins? && !Stop(g.sd) ==> i + One(g.tw) + One(g.tm) + One(g.te) < n
    ensures (g.tm.Ins? && Stop(g.sm)) || (g.te.Ins? && Stop(g.se)) || (g.td.Ins? && Stop(g.sd)) ==> Stop(IsaAt(s, n))
  {
    hide Good, Stop, After, Covers, Retire, LoadThenUse, IsaAt, FetchCycle;
    var im := i + One(g.tw);
    var ie := im + One(g.tm);
    var id := ie + One(g.te);
    AtGood(s, n, t, i);
    AtGood(s, n, t, im);
    AtGood(s, n, t, ie);
    AtGood(s, n, t, id);
    AtGood(s, n, t, id + One(g.td));
    if !Stop(IsaAt(s, n)) {
      Within(g, s, n, i, t);
    }
  }

  /** An unfinished chain is at least two cycles from the end, and three when the stopping instruction is not yet
      in execute. */
  lemma NotYet(c: Core, g: Chain, s: State, n: nat, i: nat, t: nat)
    requires Covers(s, n, t) && Placed(g, s, n, i, t) && Inv(c, g)
    ensures StopInM(g) ==> t + 1 == Retire(s, n)
    ensures !StopInM(g) ==> t + 2 <= Retire(s, n)
    ensures !StopInM(g) && !(g.te.Ins? && Stop(g.se)) ==> t + 3 <= Retire(s, n)
  {
    hide Stop, Covers, NotTaken, IsRet, LoadThenUse, Holds, IsaAt, AllGood, After, PcOk, Along, Retire, FetchCycle;
    PlacedGood(g, s, n, i, t);
    var f := NextIndex(g, i);
    if !StopInM(g) && f <= n {
      FetchDue(c, g, s, n, i, t);
      FetchToRetire(s, f);
      RetireMonotone(s, f, n);
    }
  }

  lemma FetchInRange(c: Core, g: Chain, s: State, n: nat, i: nat, t: nat)
    requires Covers(s, n, t) && Placed(g, s, n, i, t) && Inv(c, g) && !StopInM(g) && Fetches(g)
    ensures i + One(g.tw) + One(g.tm) + One(g.te) + One(g.td) <= n
  {
    hide Covers, Stop, NotTaken, IsRet, LoadThenUse, Holds, At, AllGood, Retire;
    PlacedGood(g, s, n, i, t);
    if !Stop(IsaAt(s, n)) {
      Within(g, s, n, i, t);
    }
  }

  lemma NoLoadBranch(s: State, s': State)
    ensures NotTaken(s) || IsRet(s) ==> !LoadThenUse(s, s')
    ensures !(NotTaken(s) && IsRet(s))
  {
  }

  /** An instruction that is fetched for keeps is fetched just in time. */
  lemma FetchOnTime(c: Core, g: Chain, s: State, n: nat, i: nat, t: nat)
    requires Covers(s, n, t) && Placed(g, s, n, i, t) && Inv(c, g) && !StopInM(g) && Fetches(g)
    ensures t + 4 + (if g.td.Ins? && LoadThenUse(g.sd, g.sf) then 1 else 0)
         == Retire(s, i + One(g.tw) + One(g.tm) + One(g.te) + One(g.td))
  {
    hide Covers, Stop, NotTaken, IsRet, LoadThenUse, Holds, IsaAt, AllGood;
    PlacedGood(g, s, n, i, t);
    FetchInRange(c, g, s, n, i, t);
    NoLoadBranch(g.sw, g.sf);
    NoLoadBranch(g.sm, g.sf);
  }

  // ---- which cycle fetches and which decodes

  lemma {:induction false} CommittedIs(s: State, i: nat, k: nat, t: int)
    requires i <= k
    requires i > 0 ==> Retire(s, i - 1) <= t
    requires i < k ==> Retire(s, i) > t
    ensures Committed(s, k, t) == i
    decreases k
  {
    hide Retire;
    if i < k {
      RetireMonotone(s, i, k - 1);
      CommittedIs(s, i, k - 1, t);
    }
  }

  lemma RetiredIs(s: State, j: nat, k: nat)
    requires j < k
    ensures RetiredIn(s, k, Retire(s, j)) == Some(IsaAt(s, j))
  {
    hide Retire, IsaAt;
    RetireMonotone(s, j, j + 1);
    CommittedIs(s, j + 1, k, Retire(s, j));
  }

  lemma RetiredNone(s: State, j: nat, k: nat, t: int)
    requires j <= k
    requires j > 0 ==> Retire(s, j - 1) < t
    requires j < k ==> Retire(s, j) > t
    ensures RetiredIn(s, k, t) == None
  {
    hide Retire, IsaAt;
    CommittedIs(s, j, k, t);
  }

  /** An instruction retires four cycles after it was fetched, or five if it had to wait for a load. */
  lemma FetchToRetire(s: State, k: nat)
    ensures FetchCycle(s, k) + 4 + (if k > 0 && LoadThenUse(IsaAt(s, k - 1), IsaAt(s, k)) then 1 else 0) == Retire(s, k)
  {
    hide LoadThenUse, NotTaken, IsRet, IsaAt;
  }

  lemma FetchMonotone(s: State, j: nat, k: nat)
    requires j < k
    ensures FetchCycle(s, j) < FetchCycle(s, k)
  {
    hide LoadThenUse, NotTaken, IsRet, IsaAt, Retire;
    RetireMonotone(s, j, k - 1);
    FetchToRetire(s, j);
  }

  /** The cycle fetches for good exactly if the next instruction is due. */
  lemma FetchDue(c: Core, g: Chain, s: State, n: nat, i: nat, t: nat)
    requires Covers(s, n, t) && Placed(g, s, n, i, t) && Inv(c, g) && !StopInM(g)
    ensures Fetches(g) ==> FetchCycle(s, NextIndex(g, i)) == t && NextIndex(g, i) <= n
    ensures NextIndex(g, i) <= n ==> FetchCycle(s, NextIndex(g, i)) >= t
    ensures NextIndex(g, i) <= n && FetchCycle(s, NextIndex(g, i)) == t ==> Fetches(g)
  {
    hide Covers, Stop, LoadThenUse, Holds, IsaAt, AllGood, Retire, NotTaken, IsRet;
    PlacedGood(g, s, n, i, t);
    if Fetches(g) {
      FetchInRange(c, g, s, n, i, t);
    }
    NoLoadBranch(g.sw, g.sf);
    NoLoadBranch(g.sm, g.sf);
    NoLoadBranch(g.se, g.sf);
  }

  /** Every instruction is fetched for good in its own cycle. */
  lemma FetchedAt(c: Core, g: Chain, s: State, n: nat, i: nat, t: nat, k: nat)
    requires Covers(s, n, t) && Placed(g, s, n, i, t) && Inv(c, g) && !StopInM(g)
    requires k <= n && FetchCycle(s, k) == t
    ensures Fetches(g) && NextIndex(g, i) == k
  {
    hide Covers, Stop, LoadThenUse, Holds, IsaAt, AllGood, NotTaken, IsRet, Retire, FetchCycle, Shape, PcOk;
    FetchDue(c, g, s, n, i, t);
    var f := NextIndex(g, i);
    if k < f {
      FetchMonotone(s, k, f);
      LastFetched(g, s, n, i, t);
      if k < f - 1 {
        FetchMonotone(s, k, f - 1);
      }
    } else if f < k {
      FetchMonotone(s, f, k);
    }
  }

  /** What lies ahead of a stage has retired by the cycle in which the stage's instruction will. */
  lemma Behind(g: Chain, s: State, n: nat, i: nat, t: nat)
    requires Placed(g, s, n, i, t)
    ensures var im := i + One(g.tw); im > 0 ==> if g.tw.Ins? then Retire(s, im - 1) == t else Retire(s, im - 1) < t
    ensures var ie := i + One(g.tw) + One(g.tm);
            ie > 0 ==> if g.tm.Ins? then Retire(s, ie - 1) == t + 1 else Retire(s, ie - 1) <= t
    ensures var id := i + One(g.tw) + One(g.tm) + One(g.te); id > 0 ==> Retire(s, id - 1) <= t + 2
  {
    hide Along, LoadThenUse, Retire;
  }

  /** What lies in a stage or behind it has not. */
  lemma Ahead(c: Core, g: Chain, s: State, n: nat, i: nat, t: nat)
    requires Covers(s, n, t) && Placed(g, s, n, i, t) && Inv(c, g) && !StopInM(g)
    ensures var im := i + One(g.tw); im <= n && (im < n ==> Retire(s, im) > t)
    ensures var ie := i + One(g.tw) + One(g.tm); ie <= n && (ie < n ==> Retire(s, ie) > t + 1)
    ensures var id := i + One(g.tw) + One(g.tm) + One(g.te); id <= n + 1 && (id < n ==> Retire(s, id) > t + 2)
  {
    hide Covers, Stop, NotTaken, IsRet, LoadThenUse, IsaAt, AllGood, Retire, PcOk, Holds, FetchCycle, After, Along;
    PlacedGood(g, s, n, i, t);
    FetchDue(c, g, s, n, i, t);
    var f := NextIndex(g, i);
    if f <= n {
      FetchToRetire(s, f);
    }
  }

  lemma {:induction false} LengthAt(s: State, k: nat)
    ensures |IsaAt(s, k).m| == |s.m|
  {
    hide StepState;
    if k > 0 {
      LengthAt(s, k - 1);
      StepKeepsLength(IsaAt(s, k - 1));
    }
  }

  lemma StepKeepsLength(s: State)
    ensures |Next(s).m| == |s.m|
  {
    hide ComputeAlu, ComputeCC, CondHolds, Little, GetWord;
  }

  lemma NextState(g: Chain, p: State, n: nat, i: nat)
    requires Along(g, p, n, i)
    ensures i + One(g.tw) <= n ==> g.sm == IsaAt(p, i + One(g.tw))
    ensures i + One(g.tw) + One(g.tm) + One(g.te) <= n ==> g.sd == IsaAt(p, i + One(g.tw) + One(g.tm) + One(g.te))
    ensures NextIndex(g, i) <= n ==> g.sf == IsaAt(p, NextIndex(g, i))
  {
    hide IsaAt;
  }

  /** When an instruction is fetched, what has been stored is what lies ahead of the memory stage. */
  lemma FetchPoint(c: Core, g: Chain, s: State, n: nat, i: nat, t: nat)
    requires Covers(s, n, t) && Placed(g, s, n, i, t) && Inv(c, g) && !StopInM(g) && Fetches(g)
    ensures NextIndex(g, i) <= n && FetchCycle(s, NextIndex(g, i)) == t
    ensures Committed(s, NextIndex(g, i), t) == i + One(g.tw)
  {
    hide Covers, IsaAt, Retire, Inv, FetchCycle, Fetches, StopInM, Placed, Committed;
    FetchDue(c, g, s, n, i, t);
    Behind(g, s, n, i, t);
    Ahead(c, g, s, n, i, t);
    CommittedIs(s, i + One(g.tw), NextIndex(g, i), t);
  }

  /** What the cycle fetches for good is the ISA's instruction exactly if the fetch at its index fits. */
  lemma FetchedInRun(c: Core, g: Chain, s: State, n: nat, i: nat, t: nat)
    requires Covers(s, n, t) && Placed(g, s, n, i, t) && Inv(c, g) && !StopInM(g) && Fetches(g)
    ensures Fetch(c.mem, g.sf.pc) == DOf(g.sf) <==> FetchFits(s, NextIndex(g, i))
  {
    hide Covers, IsaAt, Retire, Holds, PcOk, Shape, FetchCycle, SameCode, Fetches, StopInM, Fetch, DOf, Along,
         OnTime, Committed;
    FetchPoint(c, g, s, n, i, t);
    NextState(g, s, n, i);
    LengthAt(s, i + One(g.tw));
    LengthAt(s, NextIndex(g, i));
    FetchCoherent(c, g);
  }

  /** What the instruction in decode is given for a missing register, told by the schedule. */
  lemma MissingInRun(g: Chain, s: State, n: nat, i: nat, t: nat)
    requires Placed(g, s, n, i, t) && Decodes(g)
    ensures var k := i + One(g.tw) + One(g.tm) + One(g.te);
            k <= n && t + 3 == Retire(s, k) && MissingNow(g) == MissingAt(s, k)
  {
    hide IsaAt, Retire, RetiredIn, MissingOf, LoadThenUse;
    Behind(g, s, n, i, t);
    var im := i + One(g.tw);
    var ie := im + One(g.tm);
    var k := ie + One(g.te);
    if g.te.Ins? { RetiredIs(s, ie, k); } else { RetiredNone(s, k, k, t + 2); }
    if g.tm.Ins? { RetiredIs(s, im, k); } else { RetiredNone(s, ie, k, t + 1); }
    if g.tw.Ins? { RetiredIs(s, i, k); } else { RetiredNone(s, im, k, t); }
  }

  /** Every instruction leaves decode in its own cycle. */
  lemma DecodedAt(c: Core, g: Chain, s: State, n: nat, i: nat, t: nat, k: nat)
    requires Covers(s, n, t) && Placed(g, s, n, i, t) && Inv(c, g) && !StopInM(g)
    requires k <= n && Retire(s, k) == t + 3
    ensures Decodes(g) && i + One(g.tw) + One(g.tm) + One(g.te) == k
  {
    hide Covers, Stop, LoadThenUse, Holds, IsaAt, AllGood, NotTaken, IsRet, Retire, FetchCycle, PcOk;
    FetchDue(c, g, s, n, i, t);
    var f := NextIndex(g, i);
    if k >= f {
      FetchToRetire(s, k);
      FetchToRetire(s, f);
      RetireMonotone(s, f, k);
    } else {
      RetireMonotone(s, k, f - 1);
    }
  }

  lemma RetiredInRun(s: State, n: nat, k: nat, t: int)
    requires Completes(s, n) && k <= n && RetiredIn(s, k, t).Some?
    ensures var o := RetiredIn(s, k, t).value; Good(o) && !Stop(o) && (IsRet(o) ==> Retire(s, k) >= t + 4)
  {
    hide Completes, IsaAt, Good, Stop, LoadThenUse, NotTaken, IsRet, Committed;
    var j := Committed(s, k, t) - 1;
    RunFacts(s, n, j);
    RetireMonotone(s, j + 1, k);
  }

  /** What an instruction is given for a missing register, told by the instructions retiring one, two and three cycles
      ahead of it. */
  lemma MissingTold(s: State, n: nat, k: nat)
    requires Completes(s, n) && k <= n
    ensures var t := Retire(s, k);
            var e, m, w := RetiredIn(s, k, t - 1), RetiredIn(s, k, t - 2), RetiredIn(s, k, t - 3);
            MissingAt(s, k) ==
              if e.None? then 0
              else if MOf(e.value).deste == REG_NONE then MOf(e.value).vale
              else if m.Some? && DOf(m.value).icode == I_MRMOVQ then MOf(m.value).vale
              else if m.Some? && DOf(m.value).icode == I_POPQ && w.Some? && DOf(w.value).icode == I_MRMOVQ
                then MOf(w.value).vale
              else 0
  {
    hide Completes, IsaAt, Good, Stop, IsRet, RetiredIn, MissingOf, MOf, DOf, Retire;
    var t := Retire(s, k);
    var e, m, w := RetiredIn(s, k, t - 1), RetiredIn(s, k, t - 2), RetiredIn(s, k, t - 3);
    if m.Some? { RetiredInRun(s, n, k, t - 2); }
    if w.Some? { RetiredInRun(s, n, k, t - 3); }
    MissingCases(e, m, w);
  }

  // ---- simpler conditions that suffice

  lemma {:induction false} CodeKept(s: State, n: nat, i: nat, k: nat)
    requires Completes(s, n) && i <= k <= n
    requires forall j: nat :: i <= j < k ==> StoreMisses(IsaAt(s, j), IsaAt(s, k))
    ensures SameCode(IsaAt(s, i).m, IsaAt(s, k).m, IsaAt(s, k).pc)
    decreases k - i
  {
    hide Completes, IsaAt, StoreMisses, Stop, Fetch, DOf;
    if i < k {
      CodeKept(s, n, i + 1, k);
      RunFacts(s, n, i);
      NextAt(s, i);
      SlotMemory(IsaAt(s, i), IsaAt(s, k));
    }
  }

  lemma {:induction false} CommittedBound(s: State, k: nat, t: int)
    ensures Committed(s, k, t) < k ==> Retire(s, Committed(s, k, t)) > t
  {
    hide Retire;
    if k > 0 && Retire(s, k - 1) > t {
      CommittedBound(s, k - 1, t);
    }
  }

  lemma FetchAfterLast(s: State, k: nat)
    ensures k > 0 ==> FetchCycle(s, k) >= Retire(s, k - 1) - 3
  {
    hide NotTaken, IsRet, Retire;
  }

  /** Only the three instructions before it can still be in flight when an instruction is fetched. */
  lemma InFlightClose(s: State, j: nat, k: nat)
    requires Committed(s, k, FetchCycle(s, k)) <= j < k
    ensures Retire(s, j) > FetchCycle(s, k) && k <= j + 3
  {
    hide FetchCycle, Retire;
    var t := FetchCycle(s, k);
    CommittedBound(s, k, t);
    RetireMonotone(s, Committed(s, k, t), j);
    RetireMonotone(s, j, k - 1);
    FetchAfterLast(s, k);
  }

  /** A store by an instruction further ahead never matters to a fetch, nor one that misses the bytes fetched. */
  lemma MissingStoresFit(s: State, n: nat, k: nat)
    requires Completes(s, n) && k <= n
    requires forall j: nat :: j < k <= j + 3 && Retire(s, j) > FetchCycle(s, k) ==> StoreMisses(IsaAt(s, j), IsaAt(s, k))
    ensures FetchFits(s, k)
  {
    hide Completes, IsaAt, StoreMisses, FetchCycle, Retire, SameCode, Committed;
    var i := Committed(s, k, FetchCycle(s, k));
    forall j: nat | i <= j < k
      ensures StoreMisses(IsaAt(s, j), IsaAt(s, k))
    {
      InFlightClose(s, j, k);
    }
    CodeKept(s, n, i, k);
  }

  lemma AlongAdvances(g: Chain, s: State, n: nat, i: nat)
    requires Completes(s, n) && Along(g, s, n, i) && Shape(g) && !StopInM(g)
    requires Fetches(g) ==> NextIndex(g, i) < n || Stop(IsaAt(s, n))
    ensures Along(Advance(g), s, n, i + One(g.tw))
  {
    hide Stop, Completes, NotTaken, IsRet, LoadThenUse, After, At, Good;
    if Fetches(g) {
      AtNext(s, n, NextIndex(g, i));
    }
  }

  /** Each cycle keeps the chain placed, one cycle later. */
  lemma PlacedAdvances(c: Core, g: Chain, s: State, n: nat, i: nat, t: nat)
    requires Covers(s, n, t + 1) && Placed(g, s, n, i, t) && Inv(c, g) && !StopInM(g)
    ensures Placed(Advance(g), s, n, i + One(g.tw), t + 1)
  {
    hide Stop, Completes, NotTaken, IsRet, LoadThenUse, Holds, IsaAt, AllGood, After, Retire, At, PcOk, Along, FetchCycle;
    if Fetches(g) {
      FetchDue(c, g, s, n, i, t);
      FetchOnTime(c, g, s, n, i, t);
    }
    AlongAdvances(g, s, n, i);
  }
}
