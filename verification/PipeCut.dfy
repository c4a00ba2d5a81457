/** Runs of PIPE that the instruction limit cuts: the last two clock edges disable some updates, so registers, memory
    and condition codes end at different points of the ISA run. */
module PipeCut {
  import opened Words
  import opened Memory
  import opened Isa
  import opened IsaTrace
  import opened PipeControl
  import opened PipeCore
  import opened PipeStaged
  import opened PipeChain
  import opened PipeStep
  import opened PipeRun
  import opened PipeTheorem
  import opened PipeCorrect

  // ---- what each part of the state has seen when the limit is reached

  /** The instructions that have written their registers when the limit is reached. */
  function RegPoint(s: State, n: nat, limit: nat): nat { Committed(s, n, limit - 2) }

  /** The instructions that have stored: the last store is held back if an instruction was in write-back ahead of it. */
  function MemPoint(s: State, n: nat, limit: nat): nat {
    Committed(s, n, if RetiredIn(s, n, limit - 2).Some? then limit - 2 else limit - 1)
  }

  /** The instructions that have set the condition codes: the last two to do so may be held back. */
  function CcPoint(s: State, n: nat, limit: nat): nat {
    if RetiredIn(s, n, limit - 2).None? && RetiredIn(s, n, limit - 1).None? then Committed(s, n, limit)
    else if RetiredIn(s, n, limit - 3).Some? && RetiredIn(s, n, limit - 2).Some? then Committed(s, n, limit - 2)
    else Committed(s, n, limit - 1)
  }

  // ---- the last edges

  /** The last edge, from registers that are right except perhaps for the condition codes. */
  lemma LastEdge(c: Core, d: Core, g: Chain, updateMem: bool, updateCc: bool)
    requires c == d.(cc := c.cc) && Inv(d, g) && AllGood(g) && !StopInM(g)
    ensures var c' := Clock(c, Comb(c), updateMem, updateCc);
            && c'.reg == g.sm.r
            && c'.mem == (if updateMem then g.se.m else g.sm.m)
            && c'.cc == (if updateCc then g.sd.cc else c.cc)
            && ProcStat(c'.w) == AOK
  {
    hide ComputeAlu, ComputeCC, CondHolds, Fetch, GetReg, WriteBack, SetWord, GetWord, FPredPC, IdStage,
         MOf, DOf, EOf, StepState, LoadUse, RetPending, Mispredict, FPc, MemStage, ExCc, Next, LoadThenUse;
    MemoryStage(d, g);
    ExecuteStage(d, g);
    Signals(d, g);
    SlotRegisters(g.tw, g.sw, c.w);
    AcrossCc(g);
  }

  lemma AcrossCc(g: Chain)
    requires Shape(g) && !StopInM(g)
    ensures !g.te.Junk?
  {
    hide Stop, NotTaken, IsRet;
  }

  // ---- the chain and the schedule

  lemma RetiringNow(c: Core, g: Chain, p: State, n: nat, i: nat, t: nat)
    requires Covers(p, n, t) && Placed(g, p, n, i, t) && Inv(c, g) && !StopInM(g)
    ensures RetiredIn(p, n, t).Some? <==> g.tw.Ins?
    ensures RetiredIn(p, n, t + 1).Some? <==> g.tm.Ins?
  {
    hide Covers, IsaAt, Inv, Retire, Committed, StopInM, Placed;
    Behind(g, p, n, i, t);
    Ahead(c, g, p, n, i, t);
    CommittedIs(p, i + One(g.tw), n, t);
    CommittedIs(p, i + One(g.tw) + One(g.tm), n, t + 1);
  }

  /** In cycle t, what has retired by t, by t + 1 and by t + 2 is what lies ahead of the memory stage, of execute and of
      decode. */
  lemma PointsInCycle(c: Core, g: Chain, p: State, n: nat, i: nat, t: nat)
    requires Covers(p, n, t) && Placed(g, p, n, i, t) && Inv(c, g) && !StopInM(g)
    ensures g.sm == IsaAt(p, Committed(p, n, t)) && g.se == IsaAt(p, Committed(p, n, t + 1))
    ensures g.sd == IsaAt(p, Committed(p, n, t + 2))
  {
    hide Covers, IsaAt, Inv, Retire, Committed, StopInM, OnTime;
    Behind(g, p, n, i, t);
    Ahead(c, g, p, n, i, t);
    var im := i + One(g.tw);
    var ie := im + One(g.tm);
    var id := ie + One(g.te);
    CommittedIs(p, im, n, t);
    CommittedIs(p, ie, n, t + 1);
    if id > n && n > 0 {
      RetireMonotone(p, n - 1, n);
    }
    CommittedIs(p, if id <= n then id else n, n, t + 2);
  }

  // ---- the run

  lemma {:induction false} StepsTail(s: Sim, budget: int, k: nat)
    ensures Steps(s, budget, k + 1) == SimStepPipe(Steps(s, budget, k), budget - k)
    decreases k
  {
    hide SimStepPipe;
    if k > 0 {
      StepsTail(SimStepPipe(s, budget), budget - 1, k - 1);
    } else {
      assert Steps(SimStepPipe(s, budget), budget - 1, 0) == SimStepPipe(s, budget);
    }
  }

  lemma {:induction false} RunsOn(s: Sim, limit: nat, k: nat)
    requires k <= limit
    requires forall j: nat :: k < j <= limit ==> Steps(s, limit, j).wires.status == AOK
    ensures SimRunFrom(Steps(s, limit, k), limit, 5 * limit, k, k, AOK) == RunResult(Steps(s, limit, limit), limit, AOK)
    decreases limit - k
  {
    hide SimStepPipe, Steps;
    if k < limit {
      StepsTail(s, limit, k);
      RunsOn(s, limit, k + 1);
    }
  }

  lemma StatusOk(c: Core, g: Chain)
    requires Inv(c, g)
    ensures Comb(c).status == AOK
  {
    hide Comb, Holds, Shape, PcOk, WOf, Stop;
    InWriteBack(c, g);
    CombStatus(c);
    if g.tw.Ins? {
      WStatus(g.sw);
    }
  }

  lemma Earlier(mem: Mem, n: nat, limit: nat, t: nat)
    requires Covers(Start(mem), n, limit) && FitsBefore(Start(mem), n, limit) && limit <= Retire(Start(mem), n)
    requires t + 3 <= limit
    ensures InCycle(mem, limit, t).wires.status == AOK
  {
    hide Covers, FitsBefore, Inv, Placed, InCycle, Comb, Retire;
    CoversLess(Start(mem), n, t, limit);
    FewerFit(Start(mem), n, t, limit);
    var g, i := ReachCycle(mem, n, limit, t);
    StatusOk(InCycle(mem, limit, t).core, g);
  }

  /** The edge before the last, in the terms of the chain: only the condition codes may be held back. */
  lemma PenultimateEdge(s: Sim, g: Chain, p: State, n: nat, i: nat, t: nat)
    requires s.wires == Comb(s.core) && Inv(s.core, g) && Placed(g, p, n, i, t)
    requires Covers(p, n, t + 1) && FitsBefore(p, n, t + 1) && t + 3 <= Retire(p, n)
    ensures var s', d := SimStepPipe(s, 2), Clock(s.core, Comb(s.core), true, true);
            && s'.core == d.(cc := s'.core.cc) && s'.wires == Comb(s'.core)
            && s'.core.cc == (if g.tw.Ins? && g.tm.Ins? then s.core.cc else d.cc)
            && Inv(d, Advance(g)) && Placed(Advance(g), p, n, i + One(g.tw), t + 1)
  {
    hide Covers, FitsBefore, Placed, Comb, Retire, Shape, PcOk, Stop, EOk, MOk, WOf, DOf, MemStage, Fetches, Advance,
         MissingFits, BubbleE, BubbleD, After;
    var c := s.core;
    CoversLess(p, n, t, t + 1);
    NotYet(c, g, p, n, i, t);
    PlacedGood(g, p, n, i, t);
    FetchedFits(c, g, p, n, i, t);
    DecodedFits(c, g, p, n, i, t);
    CycleAdvances(c, g);
    PlacedAdvances(c, g, p, n, i, t);
    HeldBack(c, g);
  }

  lemma HeldBack(c: Core, g: Chain)
    requires Inv(c, g) && AllGood(g) && !StopInM(g)
    ensures AheadMem(c) == One(g.tw) && AheadEx(c, Comb(c)) == One(g.tw) + One(g.tm)
  {
    hide FetchStage, ExStage, MemStage, ExCc, IdStage, PipeCntl, Stop, EOk, MOk, WOf, DOf, After, NotTaken, IsRet;
    InWriteBack(c, g);
    MemoryStage(c, g);
    if g.tw.Ins? { WStatus(g.sw); }
    if g.tm.Ins? { WStatus(g.sm); }
  }

  lemma InCycleNext(mem: Mem, limit: nat, t: nat)
    ensures InCycle(mem, limit, t + 1) == SimStepPipe(InCycle(mem, limit, t), limit - t - 1)
  {
    hide SimStepPipe, Steps;
    StepsTail(Loaded(mem), limit, t + 1);
  }

  /** The condition codes before the last edge, unless that edge commits them. */
  lemma HeldCc(c: Core, g: Chain, d: Core, p: State, n: nat, i: nat, t: nat, cc: CC)
    requires Inv(c, g) && Placed(g, p, n, i, t) && Covers(p, n, t) && !StopInM(g)
    requires Inv(d, Advance(g)) && Placed(Advance(g), p, n, i + One(g.tw), t + 1) && Covers(p, n, t + 1)
    requires !StopInM(Advance(g))
    requires cc == if g.tw.Ins? && g.tm.Ins? then c.cc else d.cc
    ensures RetiredIn(p, n, t + 1).Some? || RetiredIn(p, n, t + 2).Some? ==> cc == IsaAt(p, CcPoint(p, n, t + 3)).cc
  {
    hide Covers, Placed, IsaAt, StopInM, Advance, RetiredIn, Committed, Shape, PcOk, EOk, MOk, WOf, DOf, After;
    PointsInCycle(c, g, p, n, i, t);
    RetiringNow(c, g, p, n, i, t);
    PointsInCycle(d, Advance(g), p, n, i + One(g.tw), t + 1);
  }

  /** The state of the simulator before the last of its steps. */
  lemma BeforeLast(mem: Mem, n: nat, limit: nat) returns (d: Core, g: Chain, i: nat)
    requires Covers(Start(mem), n, limit) && FitsBefore(Start(mem), n, limit) && 2 <= limit <= Retire(Start(mem), n)
    ensures var s, p := InCycle(mem, limit, limit - 2), Start(mem);
            && s.core == d.(cc := s.core.cc) && s.wires == Comb(s.core)
            && Inv(d, g) && Placed(g, p, n, i, limit - 2)
            && (RetiredIn(p, n, limit - 2).Some? || RetiredIn(p, n, limit - 1).Some?
                ==> s.core.cc == IsaAt(p, CcPoint(p, n, limit)).cc)
  {
    hide Covers, FitsBefore, Inv, Placed, InCycle, Comb, Retire, IsaAt, SimStepPipe, StopInM, CcPoint, Clock, RetiredIn,
         Advance;
    var p := Start(mem);
    if limit == 2 {
      FirstStep(mem, n, 2);
      FirstCycle(mem);
      d, g, i := InCycle(mem, 2, 0).core, Chain(p, p, p, p, p, Bub, Bub, Bub, Bub), 0;
      NothingYet(p, n);
    } else {
      var t := limit - 3;
      var g0, i0 := ReachCycle(mem, n, limit, t) by {
        CoversLess(p, n, t, limit);
        FewerFit(p, n, t, limit);
      }
      var s0 := InCycle(mem, limit, t);
      FewerFit(p, n, t + 1, limit);
      CoversLess(p, n, t, limit);
      CoversLess(p, n, t + 1, limit);
      PenultimateEdge(s0, g0, p, n, i0, t);
      InCycleNext(mem, limit, t);
      d, g, i := Clock(s0.core, Comb(s0.core), true, true), Advance(g0), i0 + One(g0.tw);
      NotYet(s0.core, g0, p, n, i0, t);
      NotYet(d, g, p, n, i, t + 1);
      HeldCc(s0.core, g0, d, p, n, i0, t, SimStepPipe(s0, 2).core.cc);
    }
  }

  lemma FirstCycle(mem: Mem)
    ensures InCycle(mem, 2, 0) == SimStepPipe(Loaded(mem), 2)
  {
    hide SimStepPipe;
    StepsTail(Loaded(mem), 2, 0);
    assert Steps(Loaded(mem), 2, 0) == Loaded(mem);
  }

  lemma NothingYet(p: State, n: nat)
    ensures RetiredIn(p, n, 0).None? && RetiredIn(p, n, 1).None?
  {
    hide Retire, IsaAt;
    RetiredNone(p, 0, n, 0);
    RetiredNone(p, 0, n, 1);
  }

  lemma SameButCc(c: Core, d: Core)
    requires c == d.(cc := c.cc)
    ensures Comb(c).status == Comb(d).status && AheadMem(c) == AheadMem(d)
    ensures AheadEx(c, Comb(c)) == AheadEx(d, Comb(d))
  {
    hide FetchStage, ExStage, MemStage, ExCc, IdStage, PipeCntl;
  }

  lemma LastStepOnChain(s: Sim, d: Core, g: Chain)
    requires s.core == d.(cc := s.core.cc) && s.wires == Comb(s.core)
    requires Inv(d, g) && AllGood(g) && !StopInM(g)
    ensures var s' := SimStepPipe(s, 1);
            && s'.core.reg == g.sm.r
            && s'.core.mem == (if g.tw.Ins? then g.sm.m else g.se.m)
            && s'.core.cc == (if g.tw.Ins? || g.tm.Ins? then s.core.cc else g.sd.cc)
            && s'.wires.status == AOK
  {
    hide Inv, AllGood, Comb, StopInM, Clock, AheadMem, AheadEx, SimStepPipe;
    LastEdge(s.core, d, g, AheadMem(s.core) < 1, AheadEx(s.core, s.wires) < 1);
    StepCommits(s);
    HeldBack(d, g);
    SameButCc(s.core, d);
  }

  lemma LastStepOf(s: Sim, d: Core, g: Chain, p: State, n: nat, i: nat, limit: nat)
    requires 2 <= limit && Covers(p, n, limit - 2)
    requires s.core == d.(cc := s.core.cc) && s.wires == Comb(s.core)
    requires Inv(d, g) && Placed(g, p, n, i, limit - 2) && !StopInM(g)
    requires RetiredIn(p, n, limit - 2).Some? || RetiredIn(p, n, limit - 1).Some?
             ==> s.core.cc == IsaAt(p, CcPoint(p, n, limit)).cc
    ensures var s' := SimStepPipe(s, 1);
            && s'.core.reg == IsaAt(p, RegPoint(p, n, limit)).r
            && s'.core.mem == IsaAt(p, MemPoint(p, n, limit)).m
            && s'.core.cc == IsaAt(p, CcPoint(p, n, limit)).cc
            && s'.wires.status == AOK
  {
    hide Covers, Inv, AllGood, Placed, Comb, Retire, IsaAt, StopInM, RetiredIn, Committed, SimStepPipe;
    PlacedGood(g, p, n, i, limit - 2);
    LastStepOnChain(s, d, g);
    RetiringNow(d, g, p, n, i, limit - 2);
    PointsInCycle(d, g, p, n, i, limit - 2);
  }

  lemma StepCommits(s: Sim)
    requires s.wires == Comb(s.core)
    ensures var s' := SimStepPipe(s, 1);
            && s'.core == Clock(s.core, Comb(s.core), AheadMem(s.core) < 1, AheadEx(s.core, s.wires) < 1)
            && s'.wires.status == ProcStat(s'.core.w)
  {
    hide Comb, Clock, AheadMem, AheadEx;
    CombStatus(SimStepPipe(s, 1).core);
  }

  lemma ShortRun(mem: Mem, n: nat, limit: nat)
    requires limit < 2
    ensures Steps(Loaded(mem), limit, limit).core == Reset(mem)
    ensures limit == 1 ==> Steps(Loaded(mem), limit, limit).wires.status == AOK
    ensures var p := Start(mem);
            RegPoint(p, n, limit) == 0 && MemPoint(p, n, limit) == 0 && CcPoint(p, n, limit) == 0 && IsaAt(p, 0) == p
  {
    hide Comb, Retire, IsaAt;
    var p := Start(mem);
    IsaStart(p);
    CommittedIs(p, 0, n, limit - 2);
    CommittedIs(p, 0, n, limit - 1);
    CommittedIs(p, 0, n, limit);
    if limit == 1 {
      FirstStep(mem, n, 1);
      assert Steps(Loaded(mem), 1, 1) == Steps(SimStepPipe(Loaded(mem), 1), 0, 0);
    }
  }

  lemma LastSteps(mem: Mem, n: nat, limit: nat)
    requires Covers(Start(mem), n, limit) && FitsBefore(Start(mem), n, limit) && limit <= Retire(Start(mem), n)
    ensures limit > 1 ==> Steps(Loaded(mem), limit, limit - 1).wires.status == AOK
    ensures limit > 0 ==> Steps(Loaded(mem), limit, limit).wires.status == AOK
    ensures var c, p := Steps(Loaded(mem), limit, limit).core, Start(mem);
            && c.reg == IsaAt(p, RegPoint(p, n, limit)).r
            && c.mem == IsaAt(p, MemPoint(p, n, limit)).m
            && c.cc == IsaAt(p, CcPoint(p, n, limit)).cc
  {
    hide Covers, FitsBefore, Inv, Placed, Steps, Comb, Retire, IsaAt, SimStepPipe, StopInM, CcPoint, MemPoint, RegPoint,
         RetiredIn;
    if limit < 2 {
      ShortRun(mem, n, limit);
    } else {
      var d, g, i := BeforeLast(mem, n, limit);
      var s, p := InCycle(mem, limit, limit - 2), Start(mem);
      CoversLess(p, n, limit - 2, limit);
      NotYet(d, g, p, n, i, limit - 2);
      StepsTail(Loaded(mem), limit, limit - 1);
      SameButCc(s.core, d);
      StatusOk(d, g);
      LastStepOf(s, d, g, p, n, i, limit);
    }
  }

  /** RUNS CUT BY THE LIMIT. The run stops after as many cycles as the limit says, with status AOK. Its registers are
      those of the instructions retired two cycles before the end; a store is one cycle ahead of that, and a condition
      code two, unless instructions ahead of them used up the limit. */
  lemma CutRunCommits(mem: Mem, n: nat, limit: nat)
    requires Covers(Start(mem), n, limit) && FitsBefore(Start(mem), n, limit) && limit <= Retire(Start(mem), n)
    ensures var r, p := SimRunPipe(Loaded(mem), limit, 5 * limit), Start(mem);
            && r.status == AOK && r.icount == limit
            && r.sim.core.reg == IsaAt(p, RegPoint(p, n, limit)).r
            && r.sim.core.mem == IsaAt(p, MemPoint(p, n, limit)).m
            && r.sim.core.cc == IsaAt(p, CcPoint(p, n, limit)).cc
  {
    hide Covers, FitsBefore, Inv, Placed, Comb, Retire, IsaAt, SimStepPipe, StopInM, CcPoint, MemPoint, RegPoint;
    var s := Loaded(mem);
    forall j: nat | 0 < j <= limit
      ensures Steps(s, limit, j).wires.status == AOK
    {
      if j + 2 <= limit {
        Earlier(mem, n, limit, j - 1);
      } else {
        LastSteps(mem, n, limit);
      }
    }
    RunsOn(s, limit, 0);
    LastSteps(mem, n, limit);
  }

  /** When the ISA completes as many instructions as the limit allows, the check compares the three parts, each at its
      own point of the run, with the state after all of them. */
  lemma CutRunCheck(mem: Mem, n: nat, limit: nat)
    requires Covers(Start(mem), n, limit) && FitsBefore(Start(mem), n, limit) && limit <= n
    ensures var p := Start(mem);
            IsaCheckSucceeds(mem, limit) <==>
              && IsaAt(p, limit).r == IsaAt(p, RegPoint(p, n, limit)).r
              && IsaAt(p, limit).m == IsaAt(p, MemPoint(p, n, limit)).m
              && IsaAt(p, limit).cc == IsaAt(p, CcPoint(p, n, limit)).cc
  {
    hide FitsBefore, Comb, Retire, IsaAt, StepState, CcPoint, MemPoint, RegPoint, SimRunPipe, FetchCycle, Good, Stop,
         Fetchable;
    var p := Start(mem);
    RetireMonotone(p, 0, n);
    CutRunCommits(mem, n, limit);
    IsaStart(p);
    IsaRunCompletes(p, 0, limit);
  }
}
