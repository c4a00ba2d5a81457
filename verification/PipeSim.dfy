/** The pipelined simulator as it runs: current and next pipeline registers, pending updates and memories, all
    overwritten in place each cycle. */
module PipeSim {
  import opened Words
  import opened Memory
  import opened Isa
  import opened IsaTrace
  import opened PipeControl
  import opened PipeCore
  import opened PipeRun
  import opened Store

  /** pipe_ele: a pipeline register's current and next contents and the operation the next edge performs on it. */
  datatype Pipe<T> = Pipe(current: T, next: T, op: Op)

  /** The pending register writes. */
  datatype RegWrites = RegWrites(destE: Nibble, valE: Word, destM: Nibble, valM: Word)

  /** The pending memory write. */
  datatype MemAccess = MemAccess(write: bool, addr: Word, data: Word)

  datatype Perf = Perf(cycles: int, instructions: int, startingUp: bool)

  class Simulator {
    var pc: Pipe<FReg>
    var ifId: Pipe<DReg>
    var idEx: Pipe<EReg>
    var exMem: Pipe<MReg>
    var memWb: Pipe<WReg>
    var mem: array<Byte>
    var reg: array<Byte>
    var cc: CC
    var status: Stat
    var ccIn: CC
    var wb: RegWrites
    var access: MemAccess
    var perf: Perf

    ghost predicate Valid()
      reads this`reg, this`mem
    {
      reg.Length == 128 && mem.Length <= MAX_MEM && reg != mem
    }

    /** The machine's registers and memories; only the pending condition codes are kept between steps. */
    ghost function Registers(): Core
      requires Valid()
      reads this`pc, this`ifId, this`idEx, this`exMem, this`memWb, this`cc, this`ccIn, this`reg, this`mem, reg, mem
    {
      Core(pc.current, ifId.current, idEx.current, exMem.current, memWb.current, RegsOf(reg[..]), mem[..], cc, ccIn)
    }

    ghost function Pending(): Wires
      reads this`pc, this`ifId, this`idEx, this`exMem, this`memWb, this`ccIn, this`status, this`wb, this`access
    {
      Wires(pc.next, ifId.next, idEx.next, exMem.next, memWb.next, wb.destE, wb.valE, wb.destM, wb.valM,
            access.write, access.addr, access.data, ccIn, status, pc.op, ifId.op, idEx.op, exMem.op, memWb.op)
    }

    ghost function Value(): Sim
      requires Valid()
      reads this, reg, mem
    {
      Sim(Registers(), Pending(), perf.cycles, perf.instructions, perf.startingUp)
    }

    /** `sim_reset`, given the loaded memory. */
    constructor (program: array<Byte>)
      requires program.Length <= MAX_MEM
      ensures Valid() && mem == program && fresh(reg)
      ensures Value() == Loaded(program[..])
    {
      mem := program;
      reg := new Byte[128](_ => 0);
      pc := Pipe(BUBBLE_F, BUBBLE_F, Load);
      ifId := Pipe(BUBBLE_D, BUBBLE_D, Load);
      idEx := Pipe(BUBBLE_E, BUBBLE_E, Load);
      exMem := Pipe(BUBBLE_M, BUBBLE_M, Load);
      memWb := Pipe(BUBBLE_W, BUBBLE_W, Load);
      cc, ccIn, status := DEFAULT_CC, DEFAULT_CC, AOK;
      wb := RegWrites(REG_NONE, 0, REG_NONE, 0);
      access := MemAccess(false, 0, 0);
      perf := Perf(0, 0, true);
      new;
      ZeroRegisters(reg[..]);
    }

    static lemma ZeroRegisters(b: seq<Byte>)
      requires |b| == 128 && forall i :: 0 <= i < 128 ==> b[i] == 0
      ensures RegsOf(b) == ZERO_REGS
    {
      forall id | 0 <= id < 15
        ensures RegsOf(b)[id] == 0
      {
        LittleZeros(b, 8 * id, 8);
      }
    }

    /** `update_state`: pending register writes, then the memory write, then the condition codes. */
    method UpdateState(updateMem: bool, updateCc: bool)
      requires Valid()
      modifies this`cc, mem, reg
      ensures Valid()
      ensures RegsOf(reg[..]) == WriteBack(old(RegsOf(reg[..])), wb.destE, wb.valE, wb.destM, wb.valM)
      ensures mem[..] == if updateMem && access.write then StoreIfValid(old(mem[..]), access.addr, access.data)
                         else old(mem[..])
      ensures cc == if updateCc then ccIn else old(cc)
    {
      hide Little, PutBytes, RegsOf;
      if wb.destE != REG_NONE {
        SetRegVal(reg, wb.destE, wb.valE);
      }
      if wb.destM != REG_NONE {
        SetRegVal(reg, wb.destM, wb.valM);
      }
      if updateMem && access.write {
        var _ := SetWordVal(mem, access.addr, access.data);
      }
      if updateCc {
        cc := ccIn;
      }
    }

    /** The body of the loop in `update_pipes`. */
    static method UpdatePipe<T>(p: Pipe<T>, bubble: T) returns (r: Pipe<T>)
      ensures r.current == Latch(p.op, p.current, p.next, bubble, bubble)
      ensures r.op == if p.op == Error then Error else Load
      ensures r.next == p.next
    {
      r := p;
      match p.op {
        case Bubble => r := r.(current := bubble);
        case Load => r := r.(current := r.next);
        case Error => r := r.(current := bubble);
        case Stall =>
      }
      if p.op != Error {
        r := r.(op := Load);
      }
    }

    /** `update_pipes`, and the error status that `sim_step_pipe` gives a register in conflict. */
    method UpdatePipes()
      modifies this`pc, this`ifId, this`idEx, this`exMem, this`memWb
      ensures pc.current == Latch(old(pc.op), old(pc.current), old(pc.next), BUBBLE_F, BUBBLE_F.(status := PIP))
      ensures ifId.current
           == Latch(old(ifId.op), old(ifId.current), old(ifId.next), BUBBLE_D, BUBBLE_D.(status := PIP))
      ensures idEx.current
           == Latch(old(idEx.op), old(idEx.current), old(idEx.next), BUBBLE_E, BUBBLE_E.(status := PIP))
      ensures exMem.current
           == Latch(old(exMem.op), old(exMem.current), old(exMem.next), BUBBLE_M, BUBBLE_M.(status := PIP))
      ensures memWb.current
           == Latch(old(memWb.op), old(memWb.current), old(memWb.next), BUBBLE_W, BUBBLE_W.(status := PIP))
    {
      var f := UpdatePipe(pc, BUBBLE_F);
      var d := UpdatePipe(ifId, BUBBLE_D);
      var e := UpdatePipe(idEx, BUBBLE_E);
      var m := UpdatePipe(exMem, BUBBLE_M);
      var w := UpdatePipe(memWb, BUBBLE_W);
      pc := if f.op == Error then f.(current := f.current.(status := PIP)) else f;
      ifId := if d.op == Error then d.(current := d.current.(status := PIP)) else d;
      idEx := if e.op == Error then e.(current := e.current.(status := PIP)) else e;
      exMem := if m.op == Error then m.(current := m.current.(status := PIP)) else m;
      memWb := if w.op == Error then w.(current := w.current.(status := PIP)) else w;
    }

    /** `do_if_stage` */
    method DoIfStage()
      requires Valid()
      modifies this`pc, this`ifId
      ensures (pc.next, ifId.next) == FetchStage(old(pc.current), exMem.current, memWb.current, mem[..])
      ensures pc.current == old(pc.current) && ifId.current == old(ifId.current)
    {
      hide Little;
      var fPc := FPc(pc.current, exMem.current, memWb.current);
      var ok, instr := GetByteVal(mem, fPc);
      var imemError := !ok;
      if !imemError {
        var ok5, _ := GetByteVal(mem, Wrap(fPc + FETCH_PROBE));
        imemError := !ok5;
      }
      var icode := if imemError then I_NOP else Hi4(instr);
      var ifun := if imemError then F_NONE else Lo4(instr);
      var valp: Word := Wrap(fPc as int + 1);
      var regids: Byte := 0xFF;
      if FNeedRegids(icode) {
        var okr, b := GetByteVal(mem, valp);
        if okr {
          regids := b;
        }
        valp := Wrap(valp as int + 1);
      }
      var valc: Word := 0;
      if FNeedValC(icode) {
        var okc, c := GetWordVal(mem, valp);
        if okc {
          valc := c;
        }
        valp := Wrap(valp as int + 8);
      }
      var fetched := DReg(icode, ifun, Hi4(regids), Lo4(regids), valc, valp, FStat(imemError, icode));
      ifId := ifId.(next := fetched);
      pc := pc.(next := FReg(FPredPC(fetched), if fetched.status == AOK then AOK else BUB));
    }

    /** `do_mem_stage` */
    method DoMemStage()
      requires Valid()
      modifies this`access, this`memWb
      ensures memWb.next == MemStage(exMem.current, mem[..]) && memWb.current == old(memWb.current)
      ensures access == MemAccess(MemWrite(exMem.current), MemAddr(exMem.current), exMem.current.vala)
    {
      hide Little;
      var m := exMem.current;
      var valm: Word := 0;
      access := MemAccess(MemWrite(m), MemAddr(m), m.vala);
      var dmemError := false;
      if MemRead(m) {
        var ok, v := GetWordVal(mem, access.addr);
        dmemError := !ok;
        if ok {
          valm := v;
        }
      }
      if access.write {
        var ok, _ := GetWordVal(mem, access.addr);
        dmemError := dmemError || !ok;
      }
      memWb := memWb.(next := WReg(m.icode, m.ifun, m.vale, valm, m.deste, m.destm, MStat(m, dmemError)));
    }

    /** `do_ex_stage`; the memory stage's result must already be this cycle's. */
    method DoExStage()
      modifies this`exMem, this`ccIn
      ensures exMem.next == ExStage(idEx.current, cc) && exMem.current == old(exMem.current)
      ensures ccIn == ExCc(idEx.current, memWb.next, memWb.current, old(ccIn))
    {
      var e := idEx.current;
      var alufun := AluFun(e);
      var setcc := SetCc(e, memWb.next, memWb.current);
      var alua, alub := AluA(e), AluB(e);
      var cond := CondHolds(cc, e.ifun);
      var vale := ComputeAlu(alufun, alua, alub);
      if setcc {
        ccIn := ComputeCC(alufun, alua, alub);
      }
      exMem := exMem.(next := MReg(e.icode, e.ifun, cond, vale, e.vala, EDstE(e, cond), e.destm, e.status));
    }

    /** `do_id_wb_stages`; the later stages' results must already be this cycle's. */
    method DoIdWbStages()
      requires Valid()
      modifies this`wb, this`status, this`idEx
      ensures var w := memWb.current; wb == RegWrites(w.deste, w.vale, w.destm, w.valm) && status == ProcStat(w)
      ensures idEx.next
           == IdStage(ifId.current, exMem.next, exMem.current, memWb.next, memWb.current, RegsOf(reg[..]))
      ensures idEx.current == old(idEx.current)
    {
      hide RegsOf;
      var d, w := ifId.current, memWb.current;
      wb := RegWrites(w.deste, w.vale, w.destm, w.valm);
      status := ProcStat(w);
      var srca, srcb := DSrcA(d), DSrcB(d);
      var regvala := GetRegVal(reg, srca);
      var regvalb := GetRegVal(reg, srcb);
      idEx := idEx.(next := EReg(d.icode, d.ifun, d.valc,
                                 DValA(d, srca, exMem.next, exMem.current, memWb.next, w, regvala),
                                 Forward(srcb, exMem.next, exMem.current, memWb.next, w, regvalb),
                                 srca, srcb, DDstE(d), DDstM(d), d.status));
    }

    /** `do_stall_check` */
    method DoStallCheck()
      modifies this`pc, this`ifId, this`idEx, this`exMem, this`memWb
      ensures pc == old(pc).(op := PipeCntl(
                FStall(old(ifId.current), old(idEx.current), old(idEx.next), old(exMem.current)), FBubble()))
      ensures ifId == old(ifId).(op := PipeCntl(
                DStall(old(idEx.current), old(idEx.next)),
                DBubble(old(ifId.current), old(idEx.current), old(idEx.next), old(exMem.current), old(exMem.next))))
      ensures idEx == old(idEx).(op := PipeCntl(
                EStall(), EBubble(old(idEx.current), old(idEx.next), old(exMem.next))))
      ensures exMem == old(exMem).(op := PipeCntl(MStall(), MBubble(old(memWb.next), old(memWb.current))))
      ensures memWb == old(memWb).(op := PipeCntl(WStall(old(memWb.current)), WBubble()))
    {
      hide PipeCntl, FStall, DStall, DBubble, EBubble, MBubble, WStall;
      pc := pc.(op := PipeCntl(FStall(ifId.current, idEx.current, idEx.next, exMem.current), FBubble()));
      ifId := ifId.(op := PipeCntl(
                DStall(idEx.current, idEx.next),
                DBubble(ifId.current, idEx.current, idEx.next, exMem.current, exMem.next)));
      idEx := idEx.(op := PipeCntl(EStall(), EBubble(idEx.current, idEx.next, exMem.next)));
      exMem := exMem.(op := PipeCntl(MStall(), MBubble(memWb.next, memWb.current)));
      memWb := memWb.(op := PipeCntl(WStall(memWb.current), WBubble()));
    }

    /** The stages in the order that lets later ones forward to earlier ones, then the stall checks. */
    method RunStages()
      requires Valid()
      modifies this`pc, this`ifId, this`idEx, this`exMem, this`memWb, this`ccIn, this`status, this`wb, this`access
      ensures Pending() == Comb(old(Registers()))
      ensures Registers() == old(Registers()).(ccIn := ccIn)
    {
      hide RegsOf, FetchStage, MemStage, ExStage, ExCc, IdStage, PipeCntl, FStall, DStall, DBubble, EBubble, MBubble,
           WStall;
      DoIfStage();
      DoMemStage();
      DoExStage();
      DoIdWbStages();
      DoStallCheck();
    }

    /** The clock edge at the start of a step. */
    method ClockEdge(updateMem: bool, updateCc: bool)
      requires Valid()
      modifies this`pc, this`ifId, this`idEx, this`exMem, this`memWb, this`cc, mem, reg
      ensures Valid()
      ensures Registers() == Clock(old(Registers()), old(Pending()), updateMem, updateCc)
    {
      hide RegsOf, WriteBack, StoreIfValid, Latch;
      UpdateState(updateMem, updateCc);
      UpdatePipes();
    }

    /** The performance monitoring of `sim_step_pipe`. */
    method CountCycle()
      requires Valid()
      modifies this`perf
      ensures Value() == Count(old(Value()))
    {
      hide RegsOf;
      if memWb.current.status != BUB && memWb.current.icode != I_POP2 {
        perf := Perf(perf.cycles + 1, perf.instructions + 1, false);
      } else if !perf.startingUp {
        perf := perf.(cycles := perf.cycles + 1);
      }
    }

    /** `sim_step_pipe` computes the functional step. */
    method SimStepPipe(maxInstr: int) returns (stepStatus: Stat)
      requires Valid()
      modifies this`pc, this`ifId, this`idEx, this`exMem, this`memWb, this`ccIn, this`status, this`wb, this`access,
               this`cc, this`perf, mem, reg
      ensures Valid()
      ensures Value() == Settled(PipeRun.SimStepPipe(old(Value()), maxInstr))
      ensures stepStatus == Value().wires.status
    {
      hide RegsOf, Clock, Comb, Count;
      var aheadMem := if memWb.current.status != BUB then 1 else 0;
      var aheadEx := aheadMem + if memWb.next.status != BUB then 1 else 0;
      ClockEdge(aheadMem < maxInstr, aheadEx < maxInstr);
      ghost var s := Value();
      RunStages();
      assert Value() == Settled(s.(wires := Comb(s.core)));
      CountCycle();
      CountSettled(s.(wires := Comb(s.core)));
      return status;
    }

    /** `sim_run_pipe` */
    method SimRunPipe(maxInstr: int, maxCycle: int) returns (icount: int, runStatus: Stat, resultCc: CC)
      requires Valid()
      modifies this`pc, this`ifId, this`idEx, this`exMem, this`memWb, this`ccIn, this`status, this`wb, this`access,
               this`cc, this`perf, mem, reg
      ensures Valid()
      ensures var r := PipeRun.SimRunPipe(old(Value()), maxInstr, maxCycle);
              Value() == Settled(r.sim) && icount == r.icount && runStatus == r.status && resultCc == r.sim.core.cc
    {
      hide PipeRun.SimStepPipe, RegsOf;
      icount := 0;
      var ccount := 0;
      runStatus := AOK;
      ghost var goal := PipeRun.SimRunPipe(Value(), maxInstr, maxCycle);
      SettledRun(Value(), maxInstr, maxCycle, 0, 0, AOK);
      while icount < maxInstr && ccount < maxCycle
        invariant Valid()
        invariant SettledResult(SimRunFrom(Value(), maxInstr, maxCycle, icount, ccount, runStatus))
               == SettledResult(goal)
        decreases maxCycle - ccount
      {
        ghost var before, count := Value(), icount;
        runStatus := SimStepPipe(maxInstr - icount);
        if runStatus != BUB {
          icount := icount + 1;
        }
        SettledRun(PipeRun.SimStepPipe(before, maxInstr - count), maxInstr, maxCycle, icount, ccount + 1, runStatus);
        if runStatus != AOK && runStatus != BUB {
          break;
        }
        ccount := ccount + 1;
      }
      resultCc := cc;
    }
  }

  /** The simulator keeps one variable for the pending condition codes, so the value a cycle started with is lost. */
  function Settled(s: Sim): Sim { s.(core := s.core.(ccIn := s.wires.ccIn)) }

  function SettledResult(r: RunResult): RunResult { r.(sim := Settled(r.sim)) }

  lemma CountSettled(s: Sim)
    ensures Count(Settled(s)) == Settled(Count(s))
  {
  }

  /** The lost value is never needed again. */
  lemma SettledStep(s: Sim, maxInstr: int)
    ensures PipeRun.SimStepPipe(Settled(s), maxInstr) == PipeRun.SimStepPipe(s, maxInstr)
  {
    hide Comb;
  }

  lemma SettledRun(s: Sim, maxInstr: int, maxCycle: int, icount: int, ccount: int, status: Stat)
    ensures SettledResult(SimRunFrom(Settled(s), maxInstr, maxCycle, icount, ccount, status))
         == SettledResult(SimRunFrom(s, maxInstr, maxCycle, icount, ccount, status))
  {
    hide PipeRun.SimStepPipe;
    SettledStep(s, maxInstr - icount);
  }
}
