/** Every clock cycle of PIPE moves the chain of ISA states one step on. */
module PipeStep {
  import opened Words
  import opened Memory
  import opened Isa
  import opened IsaTrace
  import opened PipeControl
  import opened PipeCore
  import opened PipeStaged
  import opened PipeChain

  /** Registers across a slot: what write-back of its contents leaves is the register file of the next state. */
  lemma SlotRegisters(t: Slot, s: State, w: WReg)
    requires Good(s) && !t.Junk?
    requires t.Ins? ==> w == WOf(s) && !Stop(s)
    requires t.Bub? ==> w.deste == REG_NONE && w.destm == REG_NONE
    ensures WriteBack(s.r, w.deste, w.vale, w.destm, w.valm) == Across(t, s).r
  {
    hide StepState, Fetch, WOf, EOf, MOf;
    if t.Ins? {
      StopFacts(s);
      StagesCompute(s);
    }
  }

  lemma MemoryStage(c: Core, g: Chain)
    requires Inv(c, g) && AllGood(g)
    ensures g.tm.Ins? ==> MemStage(c.m, c.mem) == WOf(g.sm)
    ensures g.tm.Bub? ==> BubbleW(MemStage(c.m, c.mem))
    ensures !StopInM(g) ==> StoreEffect(c.m, c.mem) == g.se.m
    ensures !StopInM(g) ==> !Bad(MemStage(c.m, c.mem).status)
  {
    hide ComputeAlu, ComputeCC, CondHolds, Fetch, GetReg, GetWord, SetWord, StoreIfValid, StepState, EOf, MOf, FPredPC;
    if g.tm.Ins? {
      MemoryOk(c.m, g.sm);
      StopFacts(g.sm);
      if !Stop(g.sm) {
        StagesCompute(g.sm);
      }
    }
  }

  lemma ExecuteStage(c: Core, g: Chain)
    requires Inv(c, g) && AllGood(g) && !StopInM(g)
    ensures g.te.Ins? ==> MOk(ExStage(c.e, c.cc), g.se)
    ensures g.te.Bub? ==> BubbleM(ExStage(c.e, c.cc))
    ensures ExCc(c.e, MemStage(c.m, c.mem), c.w, c.ccIn) == Across(g.te, g.se).cc
    ensures g.te.Ins? ==> ExStage(c.e, c.cc).deste == MOf(g.se).deste && ExStage(c.e, c.cc).vale == MOf(g.se).vale
  {
    hide ComputeAlu, ComputeCC, CondHolds, Fetch, GetReg, GetWord, SetWord, StoreIfValid, StepState, FPredPC;
    MemoryStage(c, g);
    var wn := MemStage(c.m, c.mem);
    assert !Bad(wn.status) && !Bad(c.w.status);
    if g.te.Ins? {
      ExecuteOk(c.e, g.se);
      StopFacts(g.se);
      assert ExCc(c.e, wn, c.w, c.ccIn) == ExCc(EOf(g.se), wn, c.w, c.ccIn);
      if !Stop(g.se) {
        StagesCompute(g.se);
      }
    }
  }

  /** The value forwarded for a register that the instruction in decode reads is the one the ISA reads. */
  lemma OperandCorrect(c: Core, g: Chain, src: Nibble)
    requires Inv(c, g) && AllGood(g) && !StopInM(g)
    requires g.td.Ins? && !LoadUseNow(g)
    requires RegValid(src) && (src == EOf(g.sd).srca || src == EOf(g.sd).srcb)
    ensures Forward(src, ExStage(c.e, c.cc), c.m, MemStage(c.m, c.mem), c.w, GetReg(c.reg, src)) == GetReg(g.sd.r, src)
  {
    hide ComputeAlu, ComputeCC, CondHolds, Fetch, GetWord, SetWord, StoreIfValid, StepState, FPredPC, Forward;
    MemoryStage(c, g);
    ExecuteStage(c, g);
    var mNext, wNext := ExStage(c.e, c.cc), MemStage(c.m, c.mem);
    ForwardingDelivers(src, mNext, c.m, wNext, c.w, c.reg);
    SlotRegisters(g.tw, g.sw, c.w);
    SlotRegisters(g.tm, g.sm, wNext);
    if g.te.Ins? {
      SlotRegisters(g.te, g.se, WOf(g.se));
      assert EOf(g.se).destm != src;
    }
  }

  // ---- operands that name no register

  function MSlot(o: Option<State>): MReg { if o.Some? then MOf(o.value) else BUBBLE_M }

  function WSlot(o: Option<State>): WReg { if o.Some? then WOf(o.value) else BUBBLE_W }

  /** What the pipeline supplies in place of a missing register, given the instructions in execute, memory and
      write-back (none for a bubble): the three stages are compared for it as for any register, and most instructions
      write no register through one of their two ports. */
  function MissingOf(e: Option<State>, m: Option<State>, w: Option<State>): Word {
    Forward(REG_NONE, MSlot(e), MSlot(m), WSlot(m), WSlot(w), 0)
  }

  function InSlot(t: Slot, s: State): Option<State> { if t.Ins? then Some(s) else None }

  function MissingNow(g: Chain): Word {
    MissingOf(InSlot(g.te, g.se), InSlot(g.tm, g.sm), InSlot(g.tw, g.sw))
  }

  /** The instruction in decode leaves it in this cycle. */
  predicate Decodes(g: Chain) { g.td.Ins? && !LoadUseNow(g) }

  /** The instruction in decode, if it computes with a missing register, is given the 0 that the ISA uses. */
  predicate MissingFits(g: Chain) {
    Decodes(g) && ReadsMissing(g.sd) ==> MissingNow(g) == 0
  }

  lemma MissingForwarded(c: Core, g: Chain)
    requires Inv(c, g) && AllGood(g) && !StopInM(g) && g.td.Ins?
    ensures Forward(REG_NONE, ExStage(c.e, c.cc), c.m, MemStage(c.m, c.mem), c.w, GetReg(c.reg, REG_NONE)) == MissingNow(g)
  {
    hide CondHolds, Fetch, GetWord, SetWord, StoreIfValid, StepState, FPredPC, BitAnd, BitXor, ComputeCC, MOf, WOf, EOf,
         DOf, LoadThenUse, NotTaken, IsRet, Stop;
    MemoryStage(c, g);
    ExecuteStage(c, g);
    if g.tm.Ins? {
      StageKeepsDestinations(g.sm);
    }
  }

  lemma StageKeepsDestinations(s: State)
    ensures WOf(s).deste == MOf(s).deste && WOf(s).destm == MOf(s).destm && WOf(s).vale == MOf(s).vale
  {
    hide MOf, GetWord;
  }

  /** The value given for a missing register, told by the instructions: 0 behind a bubble; what the one in execute
      computes if it writes no register with it; else the address, if the one in memory is a load by address, or if it
      pops and the one in write-back is a load by address; else 0. No return is so close. */
  lemma MissingCases(e: Option<State>, m: Option<State>, w: Option<State>)
    requires m.Some? ==> Good(m.value) && !Stop(m.value) && !IsRet(m.value)
    requires w.Some? ==> Good(w.value) && !Stop(w.value) && !IsRet(w.value)
    ensures MissingOf(e, m, w) ==
            if e.None? then 0
            else if MOf(e.value).deste == REG_NONE then MOf(e.value).vale
            else if m.Some? && DOf(m.value).icode == I_MRMOVQ then MOf(m.value).vale
            else if m.Some? && DOf(m.value).icode == I_POPQ && w.Some? && DOf(w.value).icode == I_MRMOVQ
              then MOf(w.value).vale
            else 0
  {
    hide ComputeAlu, ComputeCC, CondHolds, Fetch, GetReg, GetWord, StepState;
    if m.Some? {
      LoadDestReal(m.value);
    }
    if w.Some? {
      LoadDestReal(w.value);
    }
  }

  /** The operands latched for the instruction in decode are the ISA's, as far as it uses them, if and only if a
      missing register that it computes with is given 0. */
  lemma DecodeStage(c: Core, g: Chain)
    requires Inv(c, g) && AllGood(g) && !StopInM(g) && Decodes(g)
    ensures EOk(IdStage(c.d, ExStage(c.e, c.cc), c.m, MemStage(c.m, c.mem), c.w, c.reg), g.sd) <==> MissingFits(g)
  {
    hide ComputeAlu, ComputeCC, CondHolds, Fetch, GetWord, SetWord, StoreIfValid, StepState, FPredPC, Forward, ExStage,
         MemStage, WriteBack, MissingNow;
    var x := EOf(g.sd);
    if x.srca != REG_NONE {
      OperandCorrect(c, g, x.srca);
    }
    if x.srcb != REG_NONE {
      OperandCorrect(c, g, x.srcb);
    }
    MissingForwarded(c, g);
  }

  /** The hazard signals of the cycle, in terms of the instructions of the run. */
  lemma Signals(c: Core, g: Chain)
    requires Inv(c, g) && AllGood(g) && !StopInM(g)
    ensures var x := Comb(c);
            && (!g.td.Junk? ==> LoadUse(c.e, x.eNext) == LoadUseNow(g))
            && (!g.td.Junk? ==> RetPending(c.d, c.e, c.m) == RetNow(g))
            && (Mispredict(c.e, x.mNext) == (g.te.Ins? && NotTaken(g.se)))
            && x.opM == Load && x.opW == Load
  {
    hide ComputeAlu, ComputeCC, Fetch, GetWord, SetWord, StoreIfValid, StepState, FPredPC, Forward,
         GetReg, WriteBack;
    MemoryStage(c, g);
    ExecuteStage(c, g);
    if g.te.Ins? {
      StopFacts(g.se);
      if !Stop(g.se) {
        LoadDestReal(g.se);
      }
    }
  }

  /** Whenever a fetched instruction will be kept, the PC it was fetched from is the ISA's. */
  lemma FetchPcCorrect(c: Core, g: Chain)
    requires Inv(c, g) && AllGood(g) && !StopInM(g) && Fetches(g)
    ensures FPc(c.f, c.m, c.w) == g.sf.pc
  {
    hide ComputeAlu, ComputeCC, CondHolds, Fetch, GetWord, SetWord, StoreIfValid, StepState, FPredPC, GetReg;
    if g.tm.Ins? && NotTaken(g.sm) {
      StopFacts(g.sm);
      StagesCompute(g.sm);
    } else if g.tw.Ins? && IsRet(g.sw) {
      StagesCompute(g.sw) by { StopFacts(g.sw); }
    }
  }

  lemma NextFetched(s: State)
    requires Good(s) && !Redirects(s)
    ensures FPredPC(DOf(s)) == After(s).pc
  {
    hide ComputeAlu, ComputeCC, CondHolds, Fetch, GetWord, SetWord, StoreIfValid, StepState, FPredPC, GetReg, WOf, MOf, EOf;
    StopFacts(s);
    StagesCompute(s);
  }

  lemma ShapeAdvances(g: Chain)
    requires Shape(g) && !StopInM(g)
    ensures Shape(Advance(g))
  {
    hide After, PStat, MOf, DOf, LoadThenUse;
    StopFacts(g.sd);
  }

  lemma PcAdvances(c: Core, g: Chain)
    requires Inv(c, g) && AllGood(g) && !StopInM(g)
    requires Fetches(g) ==> Fetch(c.mem, g.sf.pc) == DOf(g.sf)
    ensures PcOk(Clock(c, Comb(c), true, true), Advance(g))
  {
    hide ComputeAlu, ComputeCC, CondHolds, Fetch, GetReg, WriteBack, StoreIfValid, FPredPC, MemStage, ExStage, IdStage,
         PStat, MOf, DOf, LoadUse, RetPending, Mispredict, ExCc, MBubble, Next, FPc, LoadThenUse;
    Signals(c, g);
    StopFacts(g.sd);
    if Fetches(g) {
      FetchPcCorrect(c, g);
      if !Redirects(g.sf) {
        NextFetched(g.sf);
      }
    }
  }

  lemma HoldsAdvances(c: Core, g: Chain)
    requires Inv(c, g) && AllGood(g) && !StopInM(g) && MissingFits(g)
    requires Fetches(g) ==> Fetch(c.mem, g.sf.pc) == DOf(g.sf)
    ensures Holds(Clock(c, Comb(c), true, true), Advance(g))
  {
    hide ComputeAlu, ComputeCC, CondHolds, Fetch, GetReg, WriteBack, StoreIfValid, FPredPC, MemStage, ExStage,
         PStat, MOf, DOf, EOf, WOf, LoadUse, RetPending, Mispredict, ExCc, MBubble, Next, FPc, LoadThenUse;
    MemoryStage(c, g);
    ExecuteStage(c, g);
    Signals(c, g);
    SlotRegisters(g.tw, g.sw, c.w);
    if g.td.Ins? && !LoadUseNow(g) {
      DecodeStage(c, g);
    }
    if Fetches(g) {
      FetchPcCorrect(c, g);
    }
    NoConflict(c);
  }

  /** One clock cycle, with no update disabled, takes the invariant to the advanced chain. */
  lemma CycleAdvances(c: Core, g: Chain)
    requires Inv(c, g) && AllGood(g) && !StopInM(g) && MissingFits(g)
    requires Fetches(g) ==> Fetch(c.mem, g.sf.pc) == DOf(g.sf)
    ensures Inv(Clock(c, Comb(c), true, true), Advance(g))
  {
    HoldsAdvances(c, g);
    ShapeAdvances(g);
    PcAdvances(c, g);
  }
}
