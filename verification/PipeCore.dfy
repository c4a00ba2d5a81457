/** One clock cycle of PIPE as a function of the machine's registers and memories. */
module PipeCore {
  import opened Words
  import opened Memory
  import opened Isa
  import opened IsaTrace
  import opened PipeControl

  /** p_stat_t */
  datatype Op = Load | Stall | Bubble | Error

  /** Everything that survives a clock edge: the current pipeline registers, the architectural state, and the
      pending condition codes, which keep their value in cycles that set none. */
  datatype Core = Core(f: FReg, d: DReg, e: EReg, m: MReg, w: WReg, reg: Regs, mem: Mem, cc: CC, ccIn: CC)

  /** What the stages compute in one cycle: the next pipeline registers, the pending updates and the control
      operation of each pipeline register. */
  datatype Wires = Wires(fNext: FReg, dNext: DReg, eNext: EReg, mNext: MReg, wNext: WReg,
                         wbDestE: Nibble, wbValE: Word, wbDestM: Nibble, wbValM: Word,
                         memWrite: bool, memAddr: Word, memData: Word, ccIn: CC, status: Stat,
                         opF: Op, opD: Op, opE: Op, opM: Op, opW: Op)

  const FETCH_PROBE: int := 5

  /** The instruction that `do_if_stage` fetches at pc. */
  function Fetch(mem: Mem, pc: Word): DReg {
    var b0 := GetByte(mem, pc);
    var imemError := b0.None? || GetByte(mem, Wrap(pc + FETCH_PROBE)).None?;
    var icode := if imemError then I_NOP else Hi4(b0.value);
    var ifun := if imemError then F_NONE else Lo4(b0.value);
    var valp1 := Wrap(pc + 1);
    var regbyte := if FNeedRegids(icode) then GetByte(mem, valp1) else None;
    var regids := if regbyte.Some? then regbyte.value else 0xFF;
    var valp2 := if FNeedRegids(icode) then Wrap(valp1 + 1) else valp1;
    var immword := if FNeedValC(icode) then GetWord(mem, valp2) else None;
    var valc := if immword.Some? then immword.value else 0;
    var valp := if FNeedValC(icode) then Wrap(valp2 + 8) else valp2;
    DReg(icode, ifun, Hi4(regids), Lo4(regids), valc, valp, FStat(imemError, icode))
  }

  function FetchStage(f: FReg, m: MReg, w: WReg, mem: Mem): (FReg, DReg) {
    var dNext := Fetch(mem, FPc(f, m, w));
    (FReg(FPredPC(dNext), if dNext.status == AOK then AOK else BUB), dNext)
  }

  predicate DmemError(m: MReg, mem: Mem) {
    (MemRead(m) || MemWrite(m)) && GetWord(mem, MemAddr(m)).None?
  }

  function MemStage(m: MReg, mem: Mem): WReg {
    var valm := if MemRead(m) && !DmemError(m, mem) then GetWord(mem, MemAddr(m)).value else 0;
    WReg(m.icode, m.ifun, m.vale, valm, m.deste, m.destm, MStat(m, DmemError(m, mem)))
  }

  function ExStage(e: EReg, cc: CC): MReg {
    var cond := CondHolds(cc, e.ifun);
    MReg(e.icode, e.ifun, cond, ComputeAlu(AluFun(e), AluA(e), AluB(e)), e.vala, EDstE(e, cond), e.destm, e.status)
  }

  function ExCc(e: EReg, wNext: WReg, w: WReg, ccIn: CC): CC {
    if SetCc(e, wNext, w) then ComputeCC(AluFun(e), AluA(e), AluB(e)) else ccIn
  }

  function IdStage(d: DReg, mNext: MReg, m: MReg, wNext: WReg, w: WReg, reg: Regs): EReg {
    var srca, srcb := DSrcA(d), DSrcB(d);
    EReg(d.icode, d.ifun, d.valc,
         DValA(d, srca, mNext, m, wNext, w, GetReg(reg, srca)),
         Forward(srcb, mNext, m, wNext, w, GetReg(reg, srcb)),
         srca, srcb, DDstE(d), DDstM(d), d.status)
  }

  function PipeCntl(stall: bool, bubble: bool): Op {
    if stall then (if bubble then Error else Stall) else if bubble then Bubble else Load
  }

  /** The combinational part of a cycle: fetch, memory, execute, then decode and write-back, then stall checks. */
  function Comb(c: Core): Wires {
    var (fNext, dNext) := FetchStage(c.f, c.m, c.w, c.mem);
    var wNext := MemStage(c.m, c.mem);
    var mNext := ExStage(c.e, c.cc);
    var ccIn := ExCc(c.e, wNext, c.w, c.ccIn);
    var eNext := IdStage(c.d, mNext, c.m, wNext, c.w, c.reg);
    Wires(fNext, dNext, eNext, mNext, wNext,
          c.w.deste, c.w.vale, c.w.destm, c.w.valm,
          MemWrite(c.m), MemAddr(c.m), c.m.vala, ccIn, ProcStat(c.w),
          PipeCntl(FStall(c.d, c.e, eNext, c.m), FBubble()),
          PipeCntl(DStall(c.e, eNext), DBubble(c.d, c.e, eNext, c.m, mNext)),
          PipeCntl(EStall(), EBubble(c.e, eNext, mNext)),
          PipeCntl(MStall(), MBubble(wNext, c.w)),
          PipeCntl(WStall(c.w), WBubble()))
  }

  /** The two register writes of write-back; the valM write comes second. */
  function WriteBack(r: Regs, destE: Nibble, valE: Word, destM: Nibble, valM: Word): Regs {
    SetReg(SetReg(r, destE, valE), destM, valM)
  }

  function StoreIfValid(mem: Mem, addr: Word, data: Word): Mem {
    var m := SetWord(mem, addr, data);
    if m.Some? then m.value else mem
  }

  function Latch<T>(op: Op, curr: T, next: T, bubble: T, error: T): T {
    match op
    case Load => next
    case Stall => curr
    case Bubble => bubble
    case Error => error
  }

  /** The clock edge: pending updates first, then the pipeline registers. */
  function Clock(c: Core, x: Wires, updateMem: bool, updateCc: bool): Core {
    Core(Latch(x.opF, c.f, x.fNext, BUBBLE_F, BUBBLE_F.(status := PIP)),
         Latch(x.opD, c.d, x.dNext, BUBBLE_D, BUBBLE_D.(status := PIP)),
         Latch(x.opE, c.e, x.eNext, BUBBLE_E, BUBBLE_E.(status := PIP)),
         Latch(x.opM, c.m, x.mNext, BUBBLE_M, BUBBLE_M.(status := PIP)),
         Latch(x.opW, c.w, x.wNext, BUBBLE_W, BUBBLE_W.(status := PIP)),
         WriteBack(c.reg, x.wbDestE, x.wbValE, x.wbDestM, x.wbValM),
         if updateMem && x.memWrite then StoreIfValid(c.mem, x.memAddr, x.memData) else c.mem,
         if updateCc then x.ccIn else c.cc,
         x.ccIn)
  }

  /** The number of instructions ahead of the one in the memory stage and of the one in execute. */
  function AheadMem(c: Core): nat { if c.w.status != BUB then 1 else 0 }

  function AheadEx(c: Core, x: Wires): nat { AheadMem(c) + if x.wNext.status != BUB then 1 else 0 }

  /** The state after `sim_reset` on a loaded memory. */
  function Reset(mem: Mem): Core {
    Core(BUBBLE_F, BUBBLE_D, BUBBLE_E, BUBBLE_M, BUBBLE_W, ZERO_REGS, mem, DEFAULT_CC, DEFAULT_CC)
  }

  /** No pipeline register is ever told to stall and bubble at once, whatever the registers hold. */
  lemma NoConflict(c: Core)
    ensures var x := Comb(c);
            !x.opF.Error? && !x.opD.Error? && !x.opE.Error? && !x.opM.Error? && !x.opW.Error?
  {
  }
}
