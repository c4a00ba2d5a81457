/** The invariant that ties a pipeline full of instructions to the ISA run: each pipeline register holds a bubble,
    an instruction of the run, or junk that will be squashed, and between consecutive stages lie the ISA states. */
module PipeChain {
  import opened Words
  import opened Memory
  import opened Isa
  import opened IsaTrace
  import opened PipeControl
  import opened PipeCore
  import opened PipeStaged

  datatype Slot = Bub | Ins | Junk

  /** sw is the ISA state that the instruction in write-back starts from (or that it left, for a bubble), sm that of
      the memory stage, and so on; sf is the state of the next instruction to be fetched. */
  datatype Chain = Chain(sw: State, sm: State, se: State, sd: State, sf: State,
                         tw: Slot, tm: Slot, te: Slot, td: Slot)

  /** The pipeline will stop at the instruction at s. */
  predicate Stop(s: State) { PStat(s) != AOK }

  function After(s: State): State { if Stop(s) then s else Next(s) }

  function Across(t: Slot, s: State): State { if t.Ins? then After(s) else s }

  /** Unless the pipeline stops at it, the instruction at s completes in the ISA. */
  predicate Good(s: State) { !Stop(s) ==> StepState(s).stat == AOK }

  // ---- registers that hold what they should, up to operands the instruction does not use

  predicate EUsesA(e: EReg) {
    e.srca != REG_NONE || e.icode == I_CALL || e.icode == I_JMP || e.icode == I_RRMOVQ || e.icode == I_ALU
  }

  predicate EUsesB(e: EReg) {
    e.srcb != REG_NONE || e.icode == I_ALU || e.icode == I_RMMOVQ || e.icode == I_MRMOVQ || e.icode == I_IADDQ
  }

  predicate EOk(e: EReg, s: State) {
    var x := EOf(s);
    && e == x.(vala := e.vala, valb := e.valb)
    && (EUsesA(x) ==> e.vala == x.vala)
    && (EUsesB(x) ==> e.valb == x.valb)
  }

  predicate MOk(m: MReg, s: State) {
    var x := MOf(s);
    m == x.(vala := m.vala) && (EUsesA(EOf(s)) ==> m.vala == x.vala)
  }

  predicate BubbleD(d: DReg) { d.icode == I_NOP && d.status == BUB }

  predicate BubbleE(e: EReg) {
    e.icode == I_NOP && e.status == BUB && e.deste == REG_NONE && e.destm == REG_NONE
  }

  predicate BubbleM(m: MReg) {
    m.icode == I_NOP && m.status == BUB && m.deste == REG_NONE && m.destm == REG_NONE
  }

  predicate BubbleW(w: WReg) {
    w.icode == I_NOP && w.status == BUB && w.deste == REG_NONE && w.destm == REG_NONE && w.valm == 0
  }

  predicate Holds(c: Core, g: Chain) {
    && g.sm == Across(g.tw, g.sw) && g.se == Across(g.tm, g.sm)
    && g.sd == Across(g.te, g.se) && g.sf == Across(g.td, g.sd)
    && c.reg == g.sw.r && c.mem == g.sm.m && c.cc == g.se.cc && c.ccIn == c.cc
    && (if g.tw.Ins? then c.w == WOf(g.sw) else BubbleW(c.w))
    && (if g.tm.Ins? then MOk(c.m, g.sm) else BubbleM(c.m))
    && (g.te.Ins? ==> EOk(c.e, g.se)) && (g.te.Bub? ==> BubbleE(c.e))
    && (g.td.Ins? ==> c.d == DOf(g.sd)) && (g.td.Bub? ==> BubbleD(c.d))
  }

  predicate Redirects(s: State) { NotTaken(s) || IsRet(s) || Stop(s) }

  /** Junk sits only behind a jump about to be squashed or behind the stopping instruction, and nothing follows a
      pending return. */
  predicate Shape(g: Chain) {
    && !g.tw.Junk? && !g.tm.Junk?
    && (g.tw.Ins? ==> !Stop(g.sw))
    && (g.te.Junk? ==> g.tm.Ins? && Stop(g.sm))
    && (g.td.Junk? ==> g.te.Junk? || (g.te.Ins? && (NotTaken(g.se) || Stop(g.se))))
    && (g.tm.Ins? && Stop(g.sm) ==> g.te.Junk? && g.td.Junk?)
    && (g.te.Ins? && (Stop(g.se) || NotTaken(g.se)) ==> g.td.Junk?)
    && (g.te.Ins? && IsRet(g.se) && !Stop(g.se) ==> g.td.Bub?)
    && (g.tm.Ins? && (IsRet(g.sm) || NotTaken(g.sm)) && !Stop(g.sm) ==> g.te.Bub? && g.td.Bub?)
    && (g.tw.Ins? && IsRet(g.sw) ==> g.tm.Bub? && g.te.Bub? && g.td.Bub?)
  }

  /** The predicted PC is right unless a redirecting instruction was fetched last; an empty decode stage means that
      one is still on its way, or that nothing was fetched yet. */
  predicate PcOk(c: Core, g: Chain) {
    && (g.td.Ins? && !Redirects(g.sd) ==> c.f.pc == g.sf.pc)
    && (g.td.Bub? ==>
          || (g.te.Ins? && IsRet(g.se))
          || (g.te.Bub? && g.tm.Ins? && (NotTaken(g.sm) || IsRet(g.sm)))
          || (g.te.Bub? && g.tm.Bub? && g.tw.Ins? && IsRet(g.sw))
          || (g.te.Bub? && g.tm.Bub? && g.tw.Bub? && c.f.pc == g.sf.pc))
  }

  predicate Inv(c: Core, g: Chain) { Holds(c, g) && Shape(g) && PcOk(c, g) }

  predicate AllGood(g: Chain) { Good(g.sw) && Good(g.sm) && Good(g.se) && Good(g.sd) && Good(g.sf) }

  // ---- what one cycle does to the chain

  predicate LoadUseNow(g: Chain) { g.te.Ins? && g.td.Ins? && LoadThenUse(g.se, g.sd) }

  predicate RetNow(g: Chain) {
    (g.td.Ins? && IsRet(g.sd)) || (g.te.Ins? && IsRet(g.se)) || (g.tm.Ins? && IsRet(g.sm))
  }

  predicate StopInM(g: Chain) { g.tm.Ins? && Stop(g.sm) }

  /** The cycle fetches the instruction at sf into the decode stage. */
  predicate Fetches(g: Chain) {
    && !g.td.Junk? && !LoadUseNow(g) && !RetNow(g)
    && !(g.td.Ins? && (Stop(g.sd) || NotTaken(g.sd)))
  }

  function Advance(g: Chain): Chain {
    if g.td.Junk? && Stop(g.se) then
      Chain(g.sm, g.se, g.sd, g.sd, g.sf, g.tm, g.te, Junk, Junk)
    else if g.td.Junk? then
      Chain(g.sm, g.se, g.sd, g.sd, g.sf, g.tm, g.te, Bub, Bub)
    else if LoadUseNow(g) then
      Chain(g.sm, g.se, g.sd, g.sd, g.sf, g.tm, g.te, Bub, Ins)
    else if g.td.Ins? && (Stop(g.sd) || NotTaken(g.sd)) then
      Chain(g.sm, g.se, g.sd, g.sf, g.sf, g.tm, g.te, Ins, Junk)
    else if RetNow(g) then
      Chain(g.sm, g.se, g.sd, g.sf, g.sf, g.tm, g.te, g.td, Bub)
    else
      Chain(g.sm, g.se, g.sd, g.sf, After(g.sf), g.tm, g.te, g.td, Ins)
  }

  // ---- one stage at a time

  lemma StopFacts(s: State)
    ensures Stop(s) ==> DOf(s).icode != I_ALU && DOf(s).icode != I_IADDQ && DOf(s).icode != I_JMP
    ensures Stop(s) ==> Bad(PStat(s))
    ensures Stop(s) && MemWrite(MOf(s)) ==> SetWord(s.m, MemAddr(MOf(s)), MOf(s).vala).None?
    ensures !Stop(s) ==> Fetchable(s)
    ensures !Stop(s) ==> DOf(s).status == AOK
  {
    hide ComputeAlu, Little, PutBytes;
  }

  lemma LoadDestReal(s: State)
    requires Good(s) && !Stop(s)
    ensures DOf(s).icode == I_MRMOVQ || DOf(s).icode == I_POPQ ==> RegValid(DOf(s).ra)
  {
    hide ComputeAlu, ComputeCC, Little, PutBytes;
    StopFacts(s);
  }

  /** A completing store stores the value of a real register. */
  lemma StoresReal(s: State)
    requires Good(s) && !Stop(s)
    ensures DOf(s).icode == I_RMMOVQ || DOf(s).icode == I_PUSHQ ==> RegValid(DOf(s).ra)
  {
    hide ComputeAlu, ComputeCC, CondHolds, GetReg, GetWord, SetWord;
    StopFacts(s);
  }

  lemma ExecuteOk(e: EReg, s: State)
    requires EOk(e, s)
    ensures MOk(ExStage(e, s.cc), s)
    ensures ExStage(e, s.cc).deste == MOf(s).deste && ExStage(e, s.cc).vale == MOf(s).vale
    ensures forall wn, w, ccIn :: ExCc(e, wn, w, ccIn) == ExCc(EOf(s), wn, w, ccIn)
  {
    hide ComputeAlu, ComputeCC, CondHolds, Fetch, GetReg;
  }

  lemma MemoryOk(m: MReg, s: State)
    requires MOk(m, s)
    ensures MemStage(m, s.m) == WOf(s)
    ensures Good(s) ==> StoreEffect(m, s.m) == StoreEffect(MOf(s), s.m)
  {
    hide ComputeAlu, ComputeCC, CondHolds, Fetch, GetReg, GetWord, PutBytes;
    StopFacts(s);
    if Good(s) && !Stop(s) {
      StoresReal(s);
    }
  }

  /** Forwarding delivers the value the register will have once the three older instructions have written back,
      whatever mix of bubbles and instructions they are, provided the one in execute does not load it. */
  lemma ForwardingDelivers(src: Nibble, mNext: MReg, m: MReg, wNext: WReg, w: WReg, reg: Regs)
    requires RegValid(src)
    requires m.deste == wNext.deste && m.vale == wNext.vale && m.destm == wNext.destm
    ensures var r1 := WriteBack(reg, w.deste, w.vale, w.destm, w.valm);
            var r2 := WriteBack(r1, wNext.deste, wNext.vale, wNext.destm, wNext.valm);
            Forward(src, mNext, m, wNext, w, GetReg(reg, src)) == GetReg(SetReg(r2, mNext.deste, mNext.vale), src)
  {
  }
}
