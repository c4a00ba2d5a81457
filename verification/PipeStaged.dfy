/** What each pipeline stage holds for an instruction that runs alone: its canonical register contents, as a
    function of the ISA state it starts from, and the effect of the instruction told through them. */
module PipeStaged {
  import opened Words
  import opened Memory
  import opened Isa
  import opened IsaTrace
  import opened PipeControl
  import opened PipeCore

  function DOf(s: State): DReg {
    Fetch(s.m, s.pc)
  }

  function EOf(s: State): EReg {
    var d := DOf(s);
    EReg(d.icode, d.ifun, d.valc,
         if d.icode == I_CALL || d.icode == I_JMP then d.valp else GetReg(s.r, DSrcA(d)),
         GetReg(s.r, DSrcB(d)),
         DSrcA(d), DSrcB(d), DDstE(d), DDstM(d), d.status)
  }

  function MOf(s: State): MReg {
    ExStage(EOf(s), s.cc)
  }

  function WOf(s: State): WReg {
    MemStage(MOf(s), s.m)
  }

  /** The status the pipeline assigns to the instruction at s. */
  function PStat(s: State): Stat {
    WOf(s).status
  }

  /** The bytes fetched at s.pc and s.pc + 5 both exist. */
  predicate Fetchable(s: State) {
    GetByte(s.m, s.pc).Some? && GetByte(s.m, Wrap(s.pc + FETCH_PROBE)).Some?
  }

  /** The instruction at s computes with a register field that names no register; the ISA reads it as 0. */
  predicate ReadsMissing(s: State) {
    var d := DOf(s);
    || ((d.icode == I_RRMOVQ || d.icode == I_ALU) && d.ra == REG_NONE)
    || ((d.icode == I_ALU || d.icode == I_RMMOVQ || d.icode == I_MRMOVQ || d.icode == I_IADDQ) && d.rb == REG_NONE)
  }

  predicate IsRet(s: State) { DOf(s).icode == I_RET }

  /** The instruction at s is a jump that is not taken; the pipeline predicts every jump taken. */
  predicate NotTaken(s: State) { DOf(s).icode == I_JMP && !MOf(s).takebranch }

  /** The instruction at s loads a register that the instruction at s' reads. */
  predicate LoadThenUse(s: State, s': State) { LoadUse(EOf(s), EOf(s')) }

  function StoreEffect(m: MReg, mem: Mem): Mem {
    if MemWrite(m) then StoreIfValid(mem, MemAddr(m), m.vala) else mem
  }

  /** The address of the next instruction, from the stage that finds it out. */
  function NextPc(s: State): Word {
    if NotTaken(s) then MOf(s).vala
    else if IsRet(s) then WOf(s).valm
    else FPredPC(DOf(s))
  }

  /** The pipeline's fetch decodes what the ISA decodes, when the instruction completes or halts. */
  lemma FetchDecodes(s: State)
    requires StepState(s).stat in {AOK, HLT} && Fetchable(s)
    ensures var d := DOf(s);
            StepState(s) == Execute(s, d.icode, d.ifun, Some(16 * d.ra + d.rb), Some(d.valc), d.valp)
    ensures DOf(s).status == FStat(false, DOf(s).icode)
  {
    hide Little, ComputeAlu, ComputeCC, CondHolds, SetWord, GetReg, SetReg, Wrap;
  }

  /** The stages do to the ISA state what the instruction does. */
  predicate Computes(s: State) {
    var w := WOf(s);
    && PStat(s) == AOK
    && Next(s).r == WriteBack(s.r, w.deste, w.vale, w.destm, w.valm)
    && Next(s).m == StoreEffect(MOf(s), s.m)
    && Next(s).cc == ExCc(EOf(s), BUBBLE_W, BUBBLE_W, s.cc)
    && Next(s).pc == NextPc(s)
  }

  /** An instruction that completes does to the ISA state exactly what its stages do. */
  lemma StagesCompute(s: State)
    requires StepState(s).stat == AOK && Fetchable(s)
    ensures PStat(s) == AOK
    ensures var w := WOf(s); Next(s).r == WriteBack(s.r, w.deste, w.vale, w.destm, w.valm)
    ensures Next(s).m == StoreEffect(MOf(s), s.m)
    ensures Next(s).cc == ExCc(EOf(s), BUBBLE_W, BUBBLE_W, s.cc)
    ensures Next(s).pc == NextPc(s)
  {
    hide StepState, Fetch, MOf, WOf, EOf, NextPc, StoreEffect, ExCc;
    var icode := DOf(s).icode;
    if icode == I_RMMOVQ || icode == I_MRMOVQ {
      TransfersCompute(s);
    } else if icode == I_CALL || icode == I_RET || icode == I_PUSHQ || icode == I_POPQ {
      StackComputes(s);
    } else {
      OthersCompute(s);
    }
  }

  lemma TransfersCompute(s: State)
    requires StepState(s).stat == AOK && Fetchable(s) && (DOf(s).icode == I_RMMOVQ || DOf(s).icode == I_MRMOVQ)
    ensures Computes(s)
  {
    hide BitAnd, BitXor, Little, PutBytes, StepState, Fetch, Hi4, Lo4, ComputeCC, CondHolds;
    var d := DOf(s);
    FetchDecodes(s);
    NibblePair(d.ra, d.rb);
  }

  lemma StackComputes(s: State)
    requires StepState(s).stat == AOK && Fetchable(s)
    requires DOf(s).icode == I_CALL || DOf(s).icode == I_RET || DOf(s).icode == I_PUSHQ || DOf(s).icode == I_POPQ
    ensures Computes(s)
  {
    hide BitAnd, BitXor, Little, PutBytes, StepState, Fetch, Hi4, Lo4, ComputeCC, CondHolds;
    var d := DOf(s);
    FetchDecodes(s);
    NibblePair(d.ra, d.rb);
  }

  lemma OthersCompute(s: State)
    requires StepState(s).stat == AOK && Fetchable(s) && DOf(s).icode != I_RMMOVQ && DOf(s).icode != I_MRMOVQ
    requires DOf(s).icode != I_CALL && DOf(s).icode != I_RET && DOf(s).icode != I_PUSHQ && DOf(s).icode != I_POPQ
    ensures Computes(s)
  {
    hide BitAnd, BitXor, GetWord, SetWord, StepState, Fetch, Hi4, Lo4, ComputeCC, CondHolds;
    var d := DOf(s);
    FetchDecodes(s);
    NibblePair(d.ra, d.rb);
  }

  /** The two machines agree on whether the instruction at s completes or halts, except that the pipeline gives an
      address error to an instruction within the last five bytes of memory. */
  lemma StatusAgrees(s: State)
    requires StepState(s).stat in {AOK, HLT}
    ensures PStat(s) == if Fetchable(s) then StepState(s).stat else ADR
  {
    if Fetchable(s) {
      FetchedStatus(s);
    } else {
      UnfetchedStatus(s);
    }
  }

  lemma FetchedStatus(s: State)
    requires StepState(s).stat in {AOK, HLT} && Fetchable(s)
    ensures PStat(s) == StepState(s).stat
  {
    hide BitAnd, BitXor, Little, PutBytes, StepState, Fetch, Hi4, Lo4, ComputeCC, CondHolds, SetReg, Wrap;
    var d := DOf(s);
    FetchDecodes(s);
    NibblePair(d.ra, d.rb);
    if StepState(s).stat == AOK {
      StagesCompute(s);
    }
  }

  lemma UnfetchedStatus(s: State)
    requires !Fetchable(s)
    ensures PStat(s) == ADR
  {
    hide ComputeAlu, CondHolds, Wrap;
  }
}
