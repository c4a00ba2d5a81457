/** The sequential simulator as it runs: one instruction per step, committed at the start of the next step. */
module SeqSim {
  import opened Words
  import opened Memory
  import opened Isa
  import opened IsaTrace
  import opened SeqCore
  import Bytes = Store

  /** The stages after the commit, one by one. */
  lemma Evaluated(a: State, oldValm: Word, f: Fetched, vala: Word, valb: Word)
    requires f == Fetch(a.m, a.pc)
    requires vala == GetReg(a.r, SrcA(f.icode, f.ra)) && valb == GetReg(a.r, SrcB(f.icode, f.rb))
    ensures var cond := CondHolds(a.cc, f.ifun);
            var aluA, aluB, alufun := AluA(f.icode, vala, f.valc), AluB(f.icode, valb), AluFun(f.icode, f.ifun);
            var aluOut := ComputeAlu(alufun, aluA, aluB);
            var addr := MemAddr(f.icode, aluOut, vala);
            var cell := GetWord(a.m, addr);
            var loaded := if MemRead(f.icode) then (if cell.Some? then cell.value else oldValm) else 0;
            var dmemError := (MemRead(f.icode) || MemWrite(f.icode)) && cell.None?;
            Evaluate(a, oldValm)
            == Seq(a.pc, a.r, a.m, a.cc, NewPc(f.icode, cond, f.valc, loaded, f.valp),
                   if SetsCc(f.icode) then ComputeCC(alufun, aluA, aluB) else a.cc,
                   DstE(f.icode, f.rb, cond), aluOut, DstM(f.icode, f.ra), loaded,
                   MemWrite(f.icode), addr, MemData(f.icode, vala, f.valp), ProcStat(f.imemError, dmemError, f.icode))
  {
    hide ComputeAlu, ComputeCC, CondHolds, Fetch, NewPc, ProcStat, GetWord, SrcA, SrcB, DstE, DstM, AluA, AluB,
         AluFun, MemAddr, MemData, MemRead, MemWrite, SetsCc;
  }

  class Simulator {
    var pc: Word
    var cc: CC
    var reg: array<Byte>
    var mem: array<Byte>
    // pending updates
    var pcIn: Word
    var ccIn: CC
    var destE: Nibble
    var vale: Word
    var destM: Nibble
    var valm: Word
    var memWrite: bool
    var memAddr: Word
    var memData: Word
    var status: Stat

    ghost predicate Valid()
      reads this`reg, this`mem
    {
      reg.Length == 128 && mem.Length <= MAX_MEM && reg != mem
    }

    ghost function Value(): Seq
      requires Valid()
      reads this, reg, mem
    {
      Seq(pc, RegsOf(reg[..]), mem[..], cc, pcIn, ccIn, destE, vale, destM, valm, memWrite, memAddr, memData, status)
    }

    /** `update_state` */
    method UpdateState()
      requires Valid()
      modifies this`pc, this`cc, reg, mem
      ensures Valid() && Visible(Value()) == Committed(old(Value()))
    {
      hide Little, PutBytes, RegsOf;
      pc := pcIn;
      cc := ccIn;
      if destE != REG_NONE {
        Bytes.SetRegVal(reg, destE, vale);
      }
      if destM != REG_NONE {
        Bytes.SetRegVal(reg, destM, valm);
      }
      if memWrite {
        var _ := Bytes.SetWordVal(mem, memAddr, memData);
      }
    }

    /** The fetch of `sim_step`. */
    method FetchInstruction() returns (f: Fetched)
      requires Valid()
      ensures f == Fetch(mem[..], pc)
    {
      hide Little;
      var ok, instr := Bytes.GetByteVal(mem, pc);
      var icode := if ok then Hi4(instr) else I_NOP;
      var ifun := if ok then Lo4(instr) else 0;
      var valp: Word := Wrap(pc as int + 1);
      var ra, rb := REG_NONE, REG_NONE;
      if NeedsRegids(icode) {
        var okr, regids := Bytes.GetByteVal(mem, valp);
        if okr {
          ra, rb := Hi4(regids), Lo4(regids);
        }
        valp := Wrap(valp as int + 1);
      }
      var valc: Word := 0;
      if NeedsValC(icode) {
        var okc, c := Bytes.GetWordVal(mem, valp);
        if okc {
          valc := c;
        }
        valp := Wrap(valp as int + 8);
      }
      f := Fetched(!ok, icode, ifun, ra, rb, valc, valp);
    }

    /** `sim_step` computes the functional step. */
    method SimStep() returns (stepStatus: Stat)
      requires Valid()
      modifies this`pc, this`cc, this`pcIn, this`ccIn, this`destE, this`vale, this`destM, this`valm, this`memWrite,
               this`memAddr, this`memData, this`status, reg, mem
      ensures Valid() && Value() == SeqCore.SimStep(old(Value()))
      ensures stepStatus == status
    {
      hide Little, RegsOf, ComputeAlu, ComputeCC, CondHolds, Fetch, Committed;
      UpdateState();
      var f := FetchInstruction();
      var srcA, srcB := SrcA(f.icode, f.ra), SrcB(f.icode, f.rb);
      var vala: Word, valb: Word := 0, 0;
      if srcA != REG_NONE {
        vala := Bytes.GetRegVal(reg, srcA);
      }
      if srcB != REG_NONE {
        valb := Bytes.GetRegVal(reg, srcB);
      }
      stepStatus := Finish(f, vala, valb);
    }

    /** The data memory read, and the test read before a write. */
    method AccessMemory(icode: Nibble, addr: Word) returns (dmemError: bool, loaded: Word)
      requires Valid()
      ensures dmemError == ((MemRead(icode) || MemWrite(icode)) && GetWord(mem[..], addr).None?)
      ensures var cell := GetWord(mem[..], addr);
              loaded == if MemRead(icode) then (if cell.Some? then cell.value else valm) else 0
    {
      hide GetWord;
      dmemError := false;
      loaded := 0;
      if MemRead(icode) {
        var ok, v := Bytes.GetWordVal(mem, addr);
        dmemError := !ok;
        loaded := if ok then v else valm;
      }
      if MemWrite(icode) {
        var ok, _ := Bytes.GetWordVal(mem, addr);
        dmemError := dmemError || !ok;
      }
    }

    /** The execute stage. */
    method Execute(f: Fetched, vala: Word, valb: Word) returns (cond: bool, aluOut: Word, newCc: CC)
      ensures cond == CondHolds(cc, f.ifun)
      ensures var aluA, aluB, alufun := AluA(f.icode, vala, f.valc), AluB(f.icode, valb), AluFun(f.icode, f.ifun);
              && aluOut == ComputeAlu(alufun, aluA, aluB)
              && newCc == if SetsCc(f.icode) then ComputeCC(alufun, aluA, aluB) else cc
    {
      hide ComputeAlu, ComputeCC, CondHolds;
      cond := CondHolds(cc, f.ifun);
      var aluA, aluB, alufun := AluA(f.icode, vala, f.valc), AluB(f.icode, valb), AluFun(f.icode, f.ifun);
      aluOut := ComputeAlu(alufun, aluA, aluB);
      newCc := cc;
      if SetsCc(f.icode) {
        newCc := ComputeCC(alufun, aluA, aluB);
      }
    }

    lemma Shown()
      requires Valid()
      ensures reg.Length == 128 && mem.Length <= MAX_MEM
      ensures Visible(Value()) == State(pc, RegsOf(reg[..]), mem[..], cc)
    {
    }

    /** Execute, memory, write-back and PC selection. */
    method Finish(f: Fetched, vala: Word, valb: Word) returns (stepStatus: Stat)
      requires Valid() && f == Fetch(mem[..], pc)
      requires vala == GetReg(RegsOf(reg[..]), SrcA(f.icode, f.ra))
      requires valb == GetReg(RegsOf(reg[..]), SrcB(f.icode, f.rb))
      modifies this`pcIn, this`ccIn, this`destE, this`vale, this`destM, this`valm, this`memWrite, this`memAddr,
               this`memData, this`status
      ensures var e := Evaluate(old(Visible(Value())), old(valm));
              && pcIn == e.pcIn && ccIn == e.ccIn && destE == e.destE && vale == e.vale && destM == e.destM && valm == e.valm
              && memWrite == e.memWrite && memAddr == e.memAddr && memData == e.memData && stepStatus == status == e.status
    {
      hide *;
      Shown();
      ghost var before, oldValm := State(pc, RegsOf(reg[..]), mem[..], cc), valm;
      Evaluated(before, oldValm, f, vala, valb);
      var cond, aluOut, newCc := Execute(f, vala, valb);
      var addr := MemAddr(f.icode, aluOut, vala);
      var dmemError, loaded := AccessMemory(f.icode, addr);
      destE, destM, vale, valm, ccIn := DstE(f.icode, f.rb, cond), DstM(f.icode, f.ra), aluOut, loaded, newCc;
      memWrite, memAddr, memData := MemWrite(f.icode), addr, MemData(f.icode, vala, f.valp);
      status := ProcStat(f.imemError, dmemError, f.icode);
      pcIn := NewPc(f.icode, cond, f.valc, loaded, f.valp);
      return status;
    }

    /** `sim_run` */
    method SimRun(maxInstr: int) returns (icount: int, runStatus: Stat, resultCc: CC)
      requires Valid()
      modifies this`pc, this`cc, this`pcIn, this`ccIn, this`destE, this`vale, this`destM, this`valm, this`memWrite,
               this`memAddr, this`memData, this`status, reg, mem
      ensures Valid() && RunResult(Value(), icount, runStatus) == SeqCore.SimRun(old(Value()), maxInstr)
      ensures resultCc == cc
    {
      hide SeqCore.SimStep, RegsOf;
      icount := 0;
      runStatus := AOK;
      while icount < maxInstr
        invariant Valid()
        invariant SimRunFrom(Value(), maxInstr, icount, runStatus) == SeqCore.SimRun(old(Value()), maxInstr)
      {
        runStatus := SimStep();
        icount := icount + 1;
        if runStatus != AOK {
          break;
        }
      }
      resultCc := cc;
    }
  }
}
