/** The main theorems about PIPE: precise stopping, agreement with the ISA, and cycle accounting. */
module PipeCorrect {
  import opened Words
  import opened Memory
  import opened Isa
  import opened IsaTrace
  import opened PipeControl
  import opened PipeCore
  import opened PipeStaged
  import opened PipeChain
  import opened PipeStep
  import opened PipeTrace
  import opened PipeRun
  import opened PipeTheorem

  /** The edge at which the stopping instruction enters write-back commits every older instruction and nothing
      else, even when the instruction limit disables updates. */
  lemma FinalEdge(c: Core, g: Chain, updateMem: bool, updateCc: bool)
    requires Inv(c, g) && AllGood(g) && StopInM(g)
    ensures var c' := Clock(c, Comb(c), updateMem, updateCc);
            c'.w == WOf(g.sm) && c'.reg == g.sm.r && c'.mem == g.sm.m && c'.cc == g.sm.cc
  {
    hide ComputeAlu, ComputeCC, CondHolds, Fetch, GetReg, WriteBack, SetWord, GetWord, FPredPC, ExStage, IdStage,
         MOf, DOf, EOf, StepState, LoadUse, RetPending, Mispredict, FPc, MemStage;
    MemoryStage(c, g);
    SlotRegisters(g.tw, g.sw, c.w);
    StopFacts(g.sm);
    MemoryOk(c.m, g.sm);
    assert MStat(c.m, DmemError(c.m, c.mem)) == MemStage(c.m, c.mem).status by {
      StageStatus(c.m, c.mem);
    }
    StoreAtStop(c.m, g.sm);
  }

  lemma StageStatus(m: MReg, mem: Mem)
    ensures MStat(m, DmemError(m, mem)) == MemStage(m, mem).status
  {
  }

  lemma StoreAtStop(m: MReg, s: State)
    requires MOk(m, s) && Stop(s)
    ensures MemWrite(m) ==> StoreIfValid(s.m, MemAddr(m), m.vala) == s.m
  {
    hide ComputeAlu, CondHolds, Fetch, GetReg, StepState;
    StopFacts(s);
  }

  /** While the stopping instruction executes, no condition codes are pending. */
  lemma NoCcAtStop(c: Core, g: Chain, updateCc: bool)
    requires Inv(c, g) && AllGood(g) && !StopInM(g) && g.te.Ins? && Stop(g.se)
    ensures Clock(c, Comb(c), true, updateCc) == Clock(c, Comb(c), true, true)
  {
    hide ComputeAlu, ComputeCC, CondHolds, Fetch, GetReg, WriteBack, SetWord, GetWord, FPredPC, ExStage, IdStage,
         MOf, DOf, EOf, StepState, LoadUse, RetPending, Mispredict, FPc, MemStage, ExCc;
    ExecuteStage(c, g);
  }

  /** The performance counters in the middle of a run. */
  predicate Counted(s: Sim, g: Chain, i: nat, t: nat) {
    var seen := i + One(g.tw);
    && s.instructions == seen
    && s.startingUp == (seen == 0)
    && s.cycles == if seen == 0 then 0 else t - 3
  }

  /** The step leaves no update disabled, or only ones that change nothing. */
  lemma StepIsCycle(s: Sim, g: Chain, p: State, n: nat, i: nat, t: nat, budget: int)
    requires Covers(p, n, t) && Inv(s.core, g) && Placed(g, p, n, i, t) && !StopInM(g)
    requires s.wires == Comb(s.core)
    requires budget >= 3 || budget + t >= Retire(p, n)
    ensures SimStepPipe(s, budget).core == Clock(s.core, Comb(s.core), true, true)
  {
    hide Clock, Comb, Retire, Covers, Inv, Placed, IsaAt;
    NotYet(s.core, g, p, n, i, t);
    PlacedGood(g, p, n, i, t);
    if g.te.Ins? && Stop(g.se) {
      NoCcAtStop(s.core, g, AheadEx(s.core, s.wires) < budget);
    }
  }

  /** What the run ends with. */
  predicate EndsAt(r: RunResult, p: State, n: nat) {
    var end := IsaAt(p, n);
    && r.status == PStat(end)
    && r.sim.core.reg == end.r && r.sim.core.mem == end.m && r.sim.core.cc == end.cc
    && r.icount == Retire(p, n) + 1
    && (DOf(end).icode != I_POP2 ==> r.sim.instructions == n + 1 && r.sim.cycles == Retire(p, n) - 3)
  }

  lemma CoversLess(p: State, n: nat, t: int, t': int)
    requires Covers(p, n, t') && t <= t'
    ensures Covers(p, n, t)
  {
    hide Completes, Good, Stop, FetchCycle;
  }

  lemma FetchedFits(c: Core, g: Chain, p: State, n: nat, i: nat, t: nat)
    requires Covers(p, n, t) && Inv(c, g) && Placed(g, p, n, i, t) && !StopInM(g) && FitsBefore(p, n, t + 1)
    ensures Fetches(g) ==> Fetch(c.mem, g.sf.pc) == DOf(g.sf)
  {
    hide Covers, Retire, Inv, Placed, Fetch, DOf, FetchFits, OperandsFit, IsaAt, Fetches, FetchCycle, StopInM;
    if Fetches(g) {
      FetchDue(c, g, p, n, i, t);
      FetchedInRun(c, g, p, n, i, t);
    }
  }

  lemma DecodedFits(c: Core, g: Chain, p: State, n: nat, i: nat, t: nat)
    requires Covers(p, n, t) && Inv(c, g) && Placed(g, p, n, i, t) && !StopInM(g) && FitsBefore(p, n, t + 1)
    ensures MissingFits(g)
  {
    hide Covers, Retire, Inv, OnTime, DOf, FetchFits, IsaAt, MissingNow, MissingAt, ReadsMissing, FetchCycle, StopInM,
         Decodes;
    if Decodes(g) {
      MissingInRun(g, p, n, i, t);
      NextState(g, p, n, i);
      assert OperandsFit(p, i + One(g.tw) + One(g.tm) + One(g.te));
    }
  }

  lemma StepCore(s: Sim, g: Chain, p: State, n: nat, i: nat, t: nat, budget: int)
    requires Covers(p, n, t + 1) && Inv(s.core, g) && Placed(g, p, n, i, t) && !StopInM(g)
    requires FitsBefore(p, n, t + 1) && s.wires == Comb(s.core)
    requires budget >= 3 || budget + t >= Retire(p, n)
    ensures Inv(SimStepPipe(s, budget).core, Advance(g)) && Placed(Advance(g), p, n, i + One(g.tw), t + 1)
  {
    hide Clock, Comb, Retire, Covers, Inv, Placed, SimStepPipe, Fetch, DOf, FitsBefore, Fetches;
    CoversLess(p, n, t, t + 1);
    StepIsCycle(s, g, p, n, i, t, budget);
    PlacedGood(g, p, n, i, t);
    PlacedAdvances(s.core, g, p, n, i, t);
    FetchedFits(s.core, g, p, n, i, t);
    DecodedFits(s.core, g, p, n, i, t);
    CycleAdvances(s.core, g);
  }

  /** A step that does not finish the run keeps all invariants. */
  lemma StepInvariant(s: Sim, g: Chain, p: State, n: nat, i: nat, t: nat, budget: int)
    requires Covers(p, n, t + 1) && Inv(s.core, g) && Placed(g, p, n, i, t) && Counted(s, g, i, t) && !StopInM(g)
    requires FitsBefore(p, n, t + 1) && s.wires == Comb(s.core)
    requires budget >= 3 || budget + t >= Retire(p, n)
    ensures var s' := SimStepPipe(s, budget);
            && s'.wires == Comb(s'.core) && s'.wires.status == AOK
            && Inv(s'.core, Advance(g)) && Placed(Advance(g), p, n, i + One(g.tw), t + 1)
            && Counted(s', Advance(g), i + One(g.tw), t + 1)
  {
    hide Clock, Comb, Retire, Covers, Inv, Placed, Advance, Stop, WOf, FitsBefore;
    StepCore(s, g, p, n, i, t, budget);
    var s', g' := SimStepPipe(s, budget), Advance(g);
    AdvanceOldest(g);
    CombStatus(s'.core);
    InWriteBack(s'.core, g');
    InWriteBack(s.core, g);
    if g.tm.Ins? {
      WStatus(g.sm);
      FirstRetire(p);
      RetireAtM(g, p, n, i, t);
      RetireMonotone(p, 0, i + One(g.tw));
    }
  }

  lemma InWriteBack(c: Core, g: Chain)
    requires Inv(c, g)
    ensures g.tw.Ins? ==> c.w == WOf(g.sw) && !Stop(g.sw)
    ensures !g.tw.Ins? ==> c.w.status == BUB && g.tw.Bub?
  {
    hide Stop, NotTaken, IsRet, LoadThenUse, After, PcOk, WOf, EOk, MOk, DOf;
  }

  lemma RetireAtM(g: Chain, p: State, n: nat, i: nat, t: nat)
    requires Placed(g, p, n, i, t) && g.tm.Ins?
    ensures t + 1 == Retire(p, i + One(g.tw))
  {
    hide Along, LoadThenUse, Retire;
  }

  lemma AdvanceOldest(g: Chain)
    ensures Advance(g).tw == g.tm && Advance(g).sw == g.sm
  {
    hide Stop, NotTaken, IsRet, LoadThenUse, After;
  }

  lemma CombStatus(c: Core)
    ensures Comb(c).status == ProcStat(c.w)
  {
    hide FetchStage, ExStage, MemStage, ExCc, IdStage, PipeCntl;
  }

  lemma FirstRetire(p: State)
    ensures Retire(p, 0) == 4
  {
  }

  lemma WStatus(s: State)
    ensures !Stop(s) ==> WOf(s).status == AOK && WOf(s).icode != I_POP2
    ensures WOf(s).icode == DOf(s).icode
  {
  }

  lemma AllFit(p: State, n: nat, t: int)
    requires StopsAt(p, n)
    ensures FitsBefore(p, n, t)
  {
    hide Covers, FetchFits, OperandsFit, FetchCycle, Retire;
    forall k: nat | k <= n
      ensures FetchFits(p, k) && OperandsFit(p, k)
    {
      assert Fits(p, k);
    }
  }

  lemma {:induction false} RunToStop(s: Sim, g: Chain, p: State, n: nat, i: nat, t: nat, maxInstr: int, maxCycle: int)
    requires StopsAt(p, n) && Inv(s.core, g) && Placed(g, p, n, i, t) && Counted(s, g, i, t)
    requires s.wires == Comb(s.core)
    requires t < Retire(p, n) && maxInstr > Retire(p, n) && maxCycle > Retire(p, n)
    ensures EndsAt(SimRunFrom(s, maxInstr, maxCycle, t + 1, t + 1, AOK), p, n)
    decreases Retire(p, n) - t
  {
    hide Completes, Stop, FetchCycle, Inv, Placed, Clock, Comb, Retire, AllGood, IsaAt, DOf, StopInM, Advance, Counted,
         SimStepPipe, Fits, FitsBefore;
    var s' := SimStepPipe(s, maxInstr - (t + 1));
    NotYet(s.core, g, p, n, i, t);
    PlacedGood(g, p, n, i, t);
    if StopInM(g) {
      LastStep(s, g, p, n, i, t, maxInstr - (t + 1));
    } else {
      AllFit(p, n, t + 1);
      StepInvariant(s, g, p, n, i, t, maxInstr - (t + 1));
      RunToStop(s', Advance(g), p, n, i + One(g.tw), t + 1, maxInstr, maxCycle);
    }
  }

  lemma LastStep(s: Sim, g: Chain, p: State, n: nat, i: nat, t: nat, budget: int)
    requires Covers(p, n, t) && Inv(s.core, g) && Placed(g, p, n, i, t) && Counted(s, g, i, t) && StopInM(g)
    requires s.wires == Comb(s.core)
    ensures var s', end := SimStepPipe(s, budget), IsaAt(p, n);
            && s'.wires.status == PStat(end) && Bad(PStat(end))
            && s'.core.reg == end.r && s'.core.mem == end.m && s'.core.cc == end.cc
            && (DOf(end).icode != I_POP2 ==> s'.instructions == n + 1 && s'.cycles == Retire(p, n) - 3)
  {
    hide Covers, Clock, Retire, FetchStage, ExStage, MemStage, ExCc, IdStage, PipeCntl, IsaAt, PcOk, MOk, EOk,
         LoadUseNow, RetNow, NotTaken, IsRet, DOf;
    NotYet(s.core, g, p, n, i, t);
    PlacedGood(g, p, n, i, t);
    FinalEdge(s.core, g, AheadMem(s.core) < budget, AheadEx(s.core, s.wires) < budget);
    StopFacts(g.sm);
    WStatus(g.sm);
    FirstRetire(p);
    RetireMonotone(p, 0, n);
  }

  /** PRECISE STOPPING. If the ISA completes n instructions and the pipeline stops at the next one, `sim_run_pipe`
      returns that instruction's status with exactly the architectural state of the n instructions before it,
      after Retire(n) + 1 cycles, provided the limits allow that many. */
  lemma PipeStopsPrecisely(mem: Mem, n: nat, maxInstr: int, maxCycle: int)
    requires StopsAt(Start(mem), n)
    requires maxInstr > Retire(Start(mem), n) && maxCycle > Retire(Start(mem), n)
    ensures EndsAt(SimRunPipe(Loaded(mem), maxInstr, maxCycle), Start(mem), n)
  {
    hide Covers, Fits, Comb, Retire, EndsAt, Inv, Placed, Counted, SimStepPipe;
    var p := Start(mem);
    FirstStep(mem, n, maxInstr);
    FirstRetire(p);
    RetireMonotone(p, 0, n);
    var s, g := SimStepPipe(Loaded(mem), maxInstr), Chain(p, p, p, p, p, Bub, Bub, Bub, Bub);
    RunToStop(s, g, p, n, 0, 0, maxInstr, maxCycle);
  }

  // ---- every cycle of a run

  lemma {:induction false} ReachFrom(s: Sim, g: Chain, p: State, n: nat, i: nat, t: nat, budget: int, k: nat)
      returns (g': Chain, i': nat)
    requires Covers(p, n, t + k) && Inv(s.core, g) && Placed(g, p, n, i, t) && Counted(s, g, i, t)
    requires FitsBefore(p, n, t + k)
    requires s.wires == Comb(s.core) && t + k < Retire(p, n)
    requires budget >= k + 2 || budget + t >= Retire(p, n)
    ensures var s' := Steps(s, budget, k);
            s'.wires == Comb(s'.core) && Inv(s'.core, g') && Placed(g', p, n, i', t + k)
    decreases k
  {
    hide Completes, Stop, FetchCycle, Inv, Placed, Clock, Comb, Retire, AllGood, IsaAt, DOf, StopInM, Advance, Counted,
         SimStepPipe, FitsBefore;
    if k == 0 {
      g', i' := g, i;
    } else {
      NotYet(s.core, g, p, n, i, t);
      FewerFit(p, n, t + 1, t + k);
      CoversLess(p, n, t, t + k);
      CoversLess(p, n, t + 1, t + k);
      StepInvariant(s, g, p, n, i, t, budget);
      g', i' := ReachFrom(SimStepPipe(s, budget), Advance(g), p, n, i + One(g.tw), t + 1, budget - 1, k - 1);
    }
  }

  lemma FewerFit(p: State, n: nat, t: int, t': int)
    requires FitsBefore(p, n, t') && t <= t'
    ensures FitsBefore(p, n, t)
  {
    hide FetchFits, OperandsFit, FetchCycle, Retire;
  }

  lemma FirstStep(mem: Mem, n: nat, budget: int)
    ensures var s, p := SimStepPipe(Loaded(mem), budget), Start(mem);
            var g := Chain(p, p, p, p, p, Bub, Bub, Bub, Bub);
            && s.core == Reset(mem) && s.wires == Comb(s.core) && s.wires.status == AOK
            && Inv(s.core, g) && Placed(g, p, n, 0, 0) && Counted(s, g, 0, 0)
  {
    hide Covers, Comb, Retire, Stop, DOf;
    var p := Start(mem);
    IsaStart(p);
    CombStatus(Reset(mem));
    assert SimStepPipe(Loaded(mem), budget).core == Reset(mem);
  }

  /** The simulator at the end of cycle t. */
  function InCycle(mem: Mem, maxInstr: int, t: nat): Sim { Steps(Loaded(mem), maxInstr, t + 1) }

  lemma ReachCycle(mem: Mem, n: nat, maxInstr: int, t: nat) returns (g: Chain, i: nat)
    requires Covers(Start(mem), n, t) && FitsBefore(Start(mem), n, t)
    requires t < Retire(Start(mem), n) && t + 3 <= maxInstr
    ensures var s := InCycle(mem, maxInstr, t);
            s.wires == Comb(s.core) && Inv(s.core, g) && Placed(g, Start(mem), n, i, t)
  {
    hide Covers, Comb, Retire, Stop, DOf, Inv, Placed, IsaAt, SimStepPipe, Clock, FitsBefore;
    FirstStep(mem, n, maxInstr);
    var p := Start(mem);
    g, i := ReachFrom(SimStepPipe(Loaded(mem), maxInstr), Chain(p, p, p, p, p, Bub, Bub, Bub, Bub), p, n, 0, 0,
                      maxInstr - 1, t);
  }

  /** In its fetch cycle, the instruction fetched is the one that the ISA executes at index k. */
  predicate FetchedRight(mem: Mem, maxInstr: int, k: nat) {
    InCycle(mem, maxInstr, FetchCycle(Start(mem), k)).wires.dNext == DOf(IsaAt(Start(mem), k))
  }

  /** In its decode cycle, the operands latched for execute are those of the ISA, up to ones that are not used. */
  predicate LatchedRight(mem: Mem, maxInstr: int, k: nat) {
    EOk(InCycle(mem, maxInstr, Retire(Start(mem), k) - 3).wires.eNext, IsaAt(Start(mem), k))
  }

  lemma FetchInCycle(c: Core, g: Chain, p: State, n: nat, i: nat, t: nat, k: nat)
    requires Covers(p, n, t) && Placed(g, p, n, i, t) && Inv(c, g) && !StopInM(g)
    requires k <= n && FetchCycle(p, k) == t
    ensures Comb(c).dNext == DOf(IsaAt(p, k)) <==> FetchFits(p, k)
  {
    hide Covers, Comb, Retire, DOf, Inv, IsaAt, FetchFits, Along, OnTime, FetchCycle, Fetches, StopInM;
    PlacedGood(g, p, n, i, t);
    FetchedAt(c, g, p, n, i, t, k);
    FetchPcCorrect(c, g);
    FetchedInRun(c, g, p, n, i, t);
    NextState(g, p, n, i);
    CombFetch(c);
  }

  /** If everything before its fetch cycle fits, an instruction is fetched right exactly if its bytes are not changed
      by the stores in flight. */
  lemma FetchIsExact(mem: Mem, n: nat, maxInstr: int, k: nat)
    requires Covers(Start(mem), n, FetchCycle(Start(mem), k)) && k <= n && FetchCycle(Start(mem), k) + 3 <= maxInstr
    requires FitsBefore(Start(mem), n, FetchCycle(Start(mem), k))
    ensures FetchedRight(mem, maxInstr, k) <==> FetchFits(Start(mem), k)
  {
    hide Covers, Comb, Retire, DOf, Inv, IsaAt, InCycle, FetchFits, Placed, FetchCycle, FitsBefore, StopInM;
    var p := Start(mem);
    var t := FetchCycle(p, k);
    FetchToRetire(p, k);
    RetireMonotone(p, k, n);
    var g, i := ReachCycle(mem, n, maxInstr, t);
    var c := InCycle(mem, maxInstr, t).core;
    NotYet(c, g, p, n, i, t);
    FetchInCycle(c, g, p, n, i, t, k);
  }

  lemma CombFetch(c: Core)
    ensures Comb(c).dNext == Fetch(c.mem, FPc(c.f, c.m, c.w))
  {
    hide Fetch, ExStage, MemStage, ExCc, IdStage, PipeCntl;
  }

  lemma OperandsInCycle(c: Core, g: Chain, p: State, n: nat, i: nat, t: nat, k: nat)
    requires Covers(p, n, t) && Placed(g, p, n, i, t) && Inv(c, g) && !StopInM(g)
    requires k <= n && Retire(p, k) == t + 3
    ensures EOk(Comb(c).eNext, IsaAt(p, k)) <==> OperandsFit(p, k)
  {
    hide Covers, Comb, Retire, DOf, Inv, AllGood, IsaAt, EOk, Along, OnTime, MissingAt, MissingNow, ReadsMissing, StopInM,
         Decodes, IdStage, ExStage, MemStage, Forward;
    PlacedGood(g, p, n, i, t);
    DecodedAt(c, g, p, n, i, t, k);
    DecodeStage(c, g);
    MissingInRun(g, p, n, i, t);
    NextState(g, p, n, i);
    CombDecode(c);
  }

  /** If everything before its decode cycle fits, an instruction gets its operands right, whatever the older
      instructions in flight are, exactly if a missing register that it computes with is given as 0. */
  lemma OperandsAreExact(mem: Mem, n: nat, maxInstr: int, k: nat)
    requires Covers(Start(mem), n, Retire(Start(mem), k) - 3) && k <= n && Retire(Start(mem), k) <= maxInstr
    requires FitsBefore(Start(mem), n, Retire(Start(mem), k) - 3)
    ensures LatchedRight(mem, maxInstr, k) <==> OperandsFit(Start(mem), k)
  {
    hide Covers, Comb, Retire, DOf, Inv, IsaAt, InCycle, EOk, Placed, FitsBefore, OperandsFit, StopInM;
    var p := Start(mem);
    var t := Retire(p, k) - 3;
    RetireMonotone(p, k, n);
    var g, i := ReachCycle(mem, n, maxInstr, t);
    var c := InCycle(mem, maxInstr, t).core;
    NotYet(c, g, p, n, i, t);
    OperandsInCycle(c, g, p, n, i, t, k);
  }

  /** The first m instructions of the run complete, except that the pipeline may stop at the last of them; what comes
      next completes too or stops the pipeline. */
  ghost predicate Reaches(s: State, n: nat, m: nat) {
    Completes(s, n) && Good(IsaAt(s, n)) && (m <= n || (m == n + 1 && Stop(IsaAt(s, n))))
  }

  lemma ReachCovers(s: State, n: nat, m: nat, k: nat)
    requires Reaches(s, n, m) && k < m
    ensures k <= n && Covers(s, n, FetchCycle(s, k)) && Covers(s, n, Retire(s, k) - 3)
  {
    hide Completes, Good, Stop, IsaAt, Retire, FetchCycle;
    if k < n {
      FetchMonotone(s, k, n);
      FetchAfterLast(s, n);
      RetireMonotone(s, k, n - 1);
    }
  }

  /** Nothing from index m on is fetched or decoded before the instruction at index m - 1 is decoded. */
  lemma LaterIsLater(s: State, m: nat, k: nat)
    requires 0 < m <= k
    ensures FetchCycle(s, k) >= Retire(s, m - 1) - 3 && Retire(s, k) > Retire(s, m - 1)
  {
    hide FetchCycle, Retire;
    FetchAfterLast(s, k);
    RetireMonotone(s, m - 1, k - 1);
    RetireMonotone(s, m - 1, k);
  }

  lemma {:induction false} RightFits(mem: Mem, n: nat, m: nat, maxInstr: int, t: nat)
    requires Reaches(Start(mem), n, m) && 0 < m && Retire(Start(mem), m - 1) <= maxInstr
    requires forall k: nat :: k < m ==> FetchedRight(mem, maxInstr, k) && LatchedRight(mem, maxInstr, k)
    requires t <= Retire(Start(mem), m - 1) - 3
    ensures FitsBefore(Start(mem), n, t)
  {
    hide Reaches, Covers, Retire, IsaAt, FetchFits, OperandsFit, FetchCycle, FetchedRight, LatchedRight;
    var p := Start(mem);
    if t > 0 {
      RightFits(mem, n, m, maxInstr, t - 1);
      forall k: nat | k <= n && FetchCycle(p, k) < t
        ensures FetchFits(p, k)
      {
        FitOneMore(mem, n, m, maxInstr, t, k);
      }
      forall k: nat | k <= n && Retire(p, k) - 3 < t
        ensures OperandsFit(p, k)
      {
        FitOneMore(mem, n, m, maxInstr, t, k);
      }
    }
  }

  lemma FitOneMore(mem: Mem, n: nat, m: nat, maxInstr: int, t: nat, k: nat)
    requires Reaches(Start(mem), n, m) && 0 < m && Retire(Start(mem), m - 1) <= maxInstr && k <= n
    requires 0 < t <= Retire(Start(mem), m - 1) - 3 && FitsBefore(Start(mem), n, t - 1)
    requires k < m ==> FetchedRight(mem, maxInstr, k) && LatchedRight(mem, maxInstr, k)
    ensures FetchCycle(Start(mem), k) < t ==> FetchFits(Start(mem), k)
    ensures Retire(Start(mem), k) - 3 < t ==> OperandsFit(Start(mem), k)
  {
    hide Reaches, Covers, Retire, IsaAt, FetchFits, OperandsFit, FetchCycle, FetchedRight, LatchedRight, FitsBefore;
    if k < m {
      FetchOneMore(mem, n, m, maxInstr, t, k);
      OperandsOneMore(mem, n, m, maxInstr, t, k);
    } else {
      LaterIsLater(Start(mem), m, k);
    }
  }

  lemma FetchOneMore(mem: Mem, n: nat, m: nat, maxInstr: int, t: nat, k: nat)
    requires Reaches(Start(mem), n, m) && k < m && Retire(Start(mem), m - 1) <= maxInstr
    requires 0 < t && FitsBefore(Start(mem), n, t - 1) && FetchedRight(mem, maxInstr, k)
    ensures FetchCycle(Start(mem), k) < t ==> FetchFits(Start(mem), k)
  {
    hide Reaches, Covers, Retire, IsaAt, FetchFits, FetchCycle, FetchedRight, FitsBefore, LoadThenUse;
    var p := Start(mem);
    ReachCovers(p, n, m, k);
    RetireMonotone(p, k, m - 1);
    FetchToRetire(p, k);
    if FetchCycle(p, k) < t {
      FewerFit(p, n, FetchCycle(p, k), t - 1);
      FetchIsExact(mem, n, maxInstr, k);
    }
  }

  lemma OperandsOneMore(mem: Mem, n: nat, m: nat, maxInstr: int, t: nat, k: nat)
    requires Reaches(Start(mem), n, m) && k < m && Retire(Start(mem), m - 1) <= maxInstr
    requires 0 < t && FitsBefore(Start(mem), n, t - 1) && LatchedRight(mem, maxInstr, k)
    ensures Retire(Start(mem), k) - 3 < t ==> OperandsFit(Start(mem), k)
  {
    hide Reaches, Covers, Retire, IsaAt, OperandsFit, FetchCycle, LatchedRight, FitsBefore;
    var p := Start(mem);
    ReachCovers(p, n, m, k);
    RetireMonotone(p, k, m - 1);
    if Retire(p, k) - 3 < t {
      FewerFit(p, n, Retire(p, k) - 3, t - 1);
      OperandsAreExact(mem, n, maxInstr, k);
    }
  }

  lemma FitsGive(s: State, n: nat, m: nat, t: int)
    requires 0 < m && t <= Retire(s, m - 1) - 3
    requires forall k: nat :: k < m ==> Fits(s, k)
    ensures FitsBefore(s, n, t)
  {
    hide Retire, FetchFits, OperandsFit, FetchCycle;
    forall k: nat | k <= n && (FetchCycle(s, k) < t || Retire(s, k) - 3 < t)
      ensures FetchFits(s, k) && OperandsFit(s, k)
    {
      if m <= k {
        LaterIsLater(s, m, k);
      }
      assert Fits(s, k);
    }
  }

  lemma RightAt(mem: Mem, n: nat, m: nat, maxInstr: int, k: nat)
    requires Reaches(Start(mem), n, m) && k < m && Retire(Start(mem), m - 1) <= maxInstr
    requires FitsBefore(Start(mem), n, Retire(Start(mem), m - 1) - 3)
    ensures FetchedRight(mem, maxInstr, k) <==> FetchFits(Start(mem), k)
    ensures LatchedRight(mem, maxInstr, k) <==> OperandsFit(Start(mem), k)
  {
    hide Reaches, Covers, Retire, IsaAt, FetchFits, OperandsFit, FetchCycle, FetchedRight, LatchedRight, FitsBefore;
    var p := Start(mem);
    ReachCovers(p, n, m, k);
    RetireMonotone(p, k, m - 1);
    FetchToRetire(p, k);
    FewerFit(p, n, FetchCycle(p, k), Retire(p, m - 1) - 3);
    FewerFit(p, n, Retire(p, k) - 3, Retire(p, m - 1) - 3);
    FetchIsExact(mem, n, maxInstr, k);
    OperandsAreExact(mem, n, maxInstr, k);
  }

  /** PIPE FOLLOWS THE ISA EXACTLY WHEN ITS INPUTS FIT. The first m instructions of a run, ending or not, are all fetched
      right in their fetch cycles and decoded with the right operands in their decode cycles if and only if no store
      still in flight changes one of them when it is fetched, and every missing register that they compute with is
      given as 0. Both conditions speak of the ISA run alone. */
  lemma PipeFollowsIsa(mem: Mem, n: nat, m: nat, maxInstr: int)
    requires Reaches(Start(mem), n, m) && 0 < m && Retire(Start(mem), m - 1) <= maxInstr
    ensures (forall k: nat :: k < m ==> FetchedRight(mem, maxInstr, k) && LatchedRight(mem, maxInstr, k))
            <==> forall k: nat :: k < m ==> Fits(Start(mem), k)
  {
    hide Reaches, Retire, IsaAt, FetchFits, OperandsFit, FetchedRight, LatchedRight, FitsBefore;
    var p := Start(mem);
    if forall k: nat :: k < m ==> FetchedRight(mem, maxInstr, k) && LatchedRight(mem, maxInstr, k) {
      RightFits(mem, n, m, maxInstr, Retire(p, m - 1) - 3);
      forall k: nat | k < m
        ensures Fits(p, k)
      {
        RightAt(mem, n, m, maxInstr, k);
      }
    }
    if forall k: nat :: k < m ==> Fits(p, k) {
      FitsGive(p, n, m, Retire(p, m - 1) - 3);
      forall k: nat | k < m
        ensures FetchedRight(mem, maxInstr, k) && LatchedRight(mem, maxInstr, k)
      {
        RightAt(mem, n, m, maxInstr, k);
        assert Fits(p, k);
      }
    }
  }

  lemma CombDecode(c: Core)
    ensures Comb(c).eNext == IdStage(c.d, ExStage(c.e, c.cc), c.m, MemStage(c.m, c.mem), c.w, c.reg)
  {
    hide FetchStage, ExStage, MemStage, ExCc, IdStage, PipeCntl;
  }

  // ---- the check that `psim -t` makes

  /** The comparison of final registers, memory and condition codes. */
  predicate IsaCheckSucceeds(mem: Mem, instrLimit: nat) {
    var pipe := SimRunPipe(Loaded(mem), instrLimit, 5 * instrLimit).sim.core;
    var isa := IsaRun(Start(mem), instrLimit).state;
    isa.r == pipe.reg && isa.m == pipe.mem && isa.cc == pipe.cc
  }

  /** The ISA run from s halts after n instructions, and the pipeline gets the inputs of the ISA all along. */
  ghost predicate HaltsAt(s: State, n: nat) {
    && (forall k: nat :: k < n ==> StepState(IsaAt(s, k)).stat == AOK)
    && StepState(IsaAt(s, n)).stat == HLT
    && (forall k: nat :: k <= n ==> Fits(s, k))
  }

  /** Where the pipeline stops in a halting ISA run: at the first instruction it cannot fetch, or at the halt. */
  lemma StopsSomewhere(s: State, n: nat, k: nat)
    requires HaltsAt(s, n) && k <= n
    requires forall j: nat :: j < k ==> Fetchable(IsaAt(s, j))
    requires k == n || !Fetchable(IsaAt(s, k))
    ensures StopsAt(s, k)
    ensures PStat(IsaAt(s, k)) == if Fetchable(IsaAt(s, k)) then HLT else ADR
  {
    hide StepState, PStat, Fetchable, IsaAt, Fits;
    StatusAgrees(IsaAt(s, k));
  }

  lemma {:induction false} FirstUnfetchable(s: State, n: nat) returns (k: nat)
    ensures k <= n && (forall j: nat :: j < k ==> Fetchable(IsaAt(s, j)))
    ensures k == n || !Fetchable(IsaAt(s, k))
    ensures (k == n && Fetchable(IsaAt(s, n))) <==> forall j: nat :: j <= n ==> Fetchable(IsaAt(s, j))
  {
    hide Fetchable, IsaAt;
    k := 0;
    while k < n && Fetchable(IsaAt(s, k))
      invariant k <= n
      invariant forall j: nat :: j < k ==> Fetchable(IsaAt(s, j))
    {
      k := k + 1;
    }
  }

  /** PIPE REFINES THE ISA. For a program that halts in the ISA, the pipelined run ends in HLT with the registers,
      memory and condition codes of the ISA if and only if every executed instruction lies at least six bytes before
      the end of memory; otherwise it ends in ADR. */
  lemma PipeRefinesIsa(mem: Mem, n: nat, instrLimit: nat)
    requires HaltsAt(Start(mem), n) && instrLimit > Retire(Start(mem), n)
    ensures (SimRunPipe(Loaded(mem), instrLimit, 5 * instrLimit).status == HLT && IsaCheckSucceeds(mem, instrLimit))
            <==> forall k: nat :: k <= n ==> Fetchable(IsaAt(Start(mem), k))
    ensures SimRunPipe(Loaded(mem), instrLimit, 5 * instrLimit).status in {HLT, ADR}
  {
    hide StepState, PStat, Fetchable, IsaAt, Fits, SimRunPipe, Retire, DOf;
    var p := Start(mem);
    var k := FirstUnfetchable(p, n);
    StopsSomewhere(p, n, k);
    RetireMonotone(p, k, n);
    PipeStopsPrecisely(mem, k, instrLimit, 5 * instrLimit);
    RetireMonotone(p, 0, n);
    IsaRunFrom(p, 0, n, instrLimit);
    assert IsaAt(p, 0) == p by { IsaStart(p); }
  }

  /** CYCLE ACCOUNTING. A halting run of n + 1 instructions takes one cycle each from the first retirement on, plus one
      per load whose value the next instruction reads, two per jump not taken and three per return. */
  lemma CyclesExact(mem: Mem, n: nat, instrLimit: nat)
    requires HaltsAt(Start(mem), n) && instrLimit > Retire(Start(mem), n)
    requires forall k: nat :: k <= n ==> Fetchable(IsaAt(Start(mem), k))
    ensures var sim := SimRunPipe(Loaded(mem), instrLimit, 5 * instrLimit).sim;
            var p := Start(mem);
            && sim.instructions == n + 1
            && sim.cycles == sim.instructions + LoadUses(p, n) + 2 * NotTakens(p, n) + 3 * Rets(p, n)
  {
    hide StepState, IsaAt, Fits, SimRunPipe, Retire, LoadUses, NotTakens, Rets;
    var p := Start(mem);
    StopsSomewhere(p, n, n);
    PipeStopsPrecisely(mem, n, instrLimit, 5 * instrLimit);
    RetireCloses(p, n);
    HaltFetched(IsaAt(p, n));
  }

  lemma HaltFetched(s: State)
    requires StepState(s).stat == HLT && Fetchable(s)
    ensures DOf(s).icode == I_HALT
  {
    hide ComputeAlu, ComputeCC, CondHolds, GetWord, SetWord;
  }
}
