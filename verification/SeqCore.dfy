/** SEQ: the control logic compiled from its HCL description and one simulator step as a function. */
module SeqCore {
  import opened Words
  import opened Memory
  import opened Isa
  import opened IsaTrace

  // ---- control logic

  predicate InstrValid(icode: Nibble) {
    icode == I_NOP || icode == I_HALT || icode == I_RRMOVQ || icode == I_IRMOVQ || icode == I_RMMOVQ ||
    icode == I_MRMOVQ || icode == I_ALU || icode == I_JMP || icode == I_CALL || icode == I_RET ||
    icode == I_PUSHQ || icode == I_POPQ || icode == I_IADDQ
  }

  predicate NeedsRegids(icode: Nibble) {
    icode == I_RRMOVQ || icode == I_ALU || icode == I_PUSHQ || icode == I_POPQ ||
    icode == I_IRMOVQ || icode == I_RMMOVQ || icode == I_MRMOVQ || icode == I_IADDQ
  }

  predicate NeedsValC(icode: Nibble) {
    icode == I_IRMOVQ || icode == I_RMMOVQ || icode == I_MRMOVQ ||
    icode == I_JMP || icode == I_CALL || icode == I_IADDQ
  }

  function SrcA(icode: Nibble, ra: Nibble): Nibble {
    if icode == I_RRMOVQ || icode == I_RMMOVQ || icode == I_ALU || icode == I_PUSHQ then ra
    else if icode == I_POPQ || icode == I_RET then REG_RSP
    else REG_NONE
  }

  function SrcB(icode: Nibble, rb: Nibble): Nibble {
    if icode == I_ALU || icode == I_RMMOVQ || icode == I_MRMOVQ || icode == I_IADDQ then rb
    else if icode == I_PUSHQ || icode == I_POPQ || icode == I_CALL || icode == I_RET then REG_RSP
    else REG_NONE
  }

  function DstE(icode: Nibble, rb: Nibble, cond: bool): Nibble {
    if icode == I_RRMOVQ && cond then rb
    else if icode == I_IRMOVQ || icode == I_ALU || icode == I_IADDQ then rb
    else if icode == I_PUSHQ || icode == I_POPQ || icode == I_CALL || icode == I_RET then REG_RSP
    else REG_NONE
  }

  function DstM(icode: Nibble, ra: Nibble): Nibble {
    if icode == I_MRMOVQ || icode == I_POPQ then ra else REG_NONE
  }

  function AluA(icode: Nibble, vala: Word, valc: Word): Word {
    if icode == I_RRMOVQ || icode == I_ALU then vala
    else if icode == I_IRMOVQ || icode == I_RMMOVQ || icode == I_MRMOVQ || icode == I_IADDQ then valc
    else if icode == I_CALL || icode == I_PUSHQ then -8
    else if icode == I_RET || icode == I_POPQ then 8
    else 0
  }

  function AluB(icode: Nibble, valb: Word): Word {
    if icode == I_RMMOVQ || icode == I_MRMOVQ || icode == I_ALU || icode == I_CALL ||
       icode == I_PUSHQ || icode == I_RET || icode == I_POPQ || icode == I_IADDQ then valb
    else 0
  }

  function AluFun(icode: Nibble, ifun: Nibble): Nibble { if icode == I_ALU then ifun else A_ADD }

  predicate SetsCc(icode: Nibble) { icode == I_ALU || icode == I_IADDQ }

  predicate MemRead(icode: Nibble) { icode == I_MRMOVQ || icode == I_POPQ || icode == I_RET }

  predicate MemWrite(icode: Nibble) { icode == I_RMMOVQ || icode == I_PUSHQ || icode == I_CALL }

  function MemAddr(icode: Nibble, vale: Word, vala: Word): Word {
    if icode == I_RMMOVQ || icode == I_PUSHQ || icode == I_CALL || icode == I_MRMOVQ then vale
    else if icode == I_POPQ || icode == I_RET then vala
    else 0
  }

  function MemData(icode: Nibble, vala: Word, valp: Word): Word {
    if icode == I_RMMOVQ || icode == I_PUSHQ then vala else if icode == I_CALL then valp else 0
  }

  function ProcStat(imemError: bool, dmemError: bool, icode: Nibble): Stat {
    if imemError || dmemError then ADR
    else if !InstrValid(icode) then INS
    else if icode == I_HALT then HLT
    else AOK
  }

  function NewPc(icode: Nibble, cond: bool, valc: Word, valm: Word, valp: Word): Word {
    if icode == I_CALL then valc
    else if icode == I_JMP && cond then valc
    else if icode == I_RET then valm
    else valp
  }

  // ---- a step

  /** The simulator between two steps: the program-visible state, and the updates the next step commits. */
  datatype Seq = Seq(pc: Word, reg: Regs, mem: Mem, cc: CC,
                     pcIn: Word, ccIn: CC, destE: Nibble, vale: Word, destM: Nibble, valm: Word,
                     memWrite: bool, memAddr: Word, memData: Word, status: Stat)

  /** The simulator after `sim_reset`, with a program loaded. */
  function Loaded(mem: Mem): Seq {
    Seq(0, ZERO_REGS, mem, DEFAULT_CC, 0, DEFAULT_CC, REG_NONE, 0, REG_NONE, 0, false, 0, 0, AOK)
  }

  function Put(r: Regs, id: Nibble, v: Word): Regs { if id != REG_NONE then SetReg(r, id, v) else r }

  function Store(m: Mem, addr: Word, v: Word): Mem {
    var w := SetWord(m, addr, v);
    if w.Some? then w.value else m
  }

  /** `update_state`: what the pending updates make of the program-visible state. */
  function Committed(s: Seq): State {
    State(s.pcIn, Put(Put(s.reg, s.destE, s.vale), s.destM, s.valm),
          if s.memWrite then Store(s.mem, s.memAddr, s.memData) else s.mem, s.ccIn)
  }

  datatype Fetched = Fetched(imemError: bool, icode: Nibble, ifun: Nibble, ra: Nibble, rb: Nibble, valc: Word,
                             valp: Word)

  function Fetch(m: Mem, pc: Word): Fetched {
    var instr := GetByte(m, pc);
    var icode := if instr.None? then I_NOP else Hi4(instr.value);
    var ifun := if instr.None? then 0 else Lo4(instr.value);
    var valp1 := Wrap(pc + 1);
    var regids := if NeedsRegids(icode) then GetByte(m, valp1) else None;
    var ra := if regids.Some? then Hi4(regids.value) else REG_NONE;
    var rb := if regids.Some? then Lo4(regids.value) else REG_NONE;
    var valp2 := if NeedsRegids(icode) then Wrap(valp1 + 1) else valp1;
    var imm := if NeedsValC(icode) then GetWord(m, valp2) else None;
    var valc := if imm.Some? then imm.value else 0;
    var valp := if NeedsValC(icode) then Wrap(valp2 + 8) else valp2;
    Fetched(instr.None?, icode, ifun, ra, rb, valc, valp)
  }

  /** The stages after the commit, on the committed state; a failing read leaves valm as it was. */
  function Evaluate(a: State, oldValm: Word): Seq {
    var f := Fetch(a.m, a.pc);
    var srcA, srcB := SrcA(f.icode, f.ra), SrcB(f.icode, f.rb);
    var vala := if srcA != REG_NONE then GetReg(a.r, srcA) else 0;
    var valb := if srcB != REG_NONE then GetReg(a.r, srcB) else 0;
    var cond := CondHolds(a.cc, f.ifun);
    var aluA, aluB, alufun := AluA(f.icode, vala, f.valc), AluB(f.icode, valb), AluFun(f.icode, f.ifun);
    var vale := ComputeAlu(alufun, aluA, aluB);
    var ccIn := if SetsCc(f.icode) then ComputeCC(alufun, aluA, aluB) else a.cc;
    var memAddr, memData := MemAddr(f.icode, vale, vala), MemData(f.icode, vala, f.valp);
    var cell := GetWord(a.m, memAddr);
    var valm := if MemRead(f.icode) then (if cell.Some? then cell.value else oldValm) else 0;
    var dmemError := (MemRead(f.icode) || MemWrite(f.icode)) && cell.None?;
    Seq(a.pc, a.r, a.m, a.cc,
        NewPc(f.icode, cond, f.valc, valm, f.valp), ccIn,
        DstE(f.icode, f.rb, cond), vale, DstM(f.icode, f.ra), valm,
        MemWrite(f.icode), memAddr, memData, ProcStat(f.imemError, dmemError, f.icode))
  }

  /** `sim_step` */
  function SimStep(s: Seq): Seq {
    Evaluate(Committed(s), s.valm)
  }

  datatype RunResult = RunResult(sim: Seq, icount: int, status: Stat)

  /** The loop of `sim_run`. */
  function SimRunFrom(s: Seq, maxInstr: int, icount: int, status: Stat): RunResult
    decreases maxInstr - icount
  {
    if !(icount < maxInstr) then RunResult(s, icount, status)
    else
      var s' := SimStep(s);
      if s'.status != AOK then RunResult(s', icount + 1, s'.status)
      else SimRunFrom(s', maxInstr, icount + 1, s'.status)
  }

  function SimRun(s: Seq, maxInstr: int): RunResult { SimRunFrom(s, maxInstr, 0, AOK) }

  // ---- refinement

  function Visible(s: Seq): State { State(s.pc, s.reg, s.mem, s.cc) }

  lemma FetchDecodes(s: State)
    requires StepState(s).stat in {AOK, HLT}
    ensures var f := Fetch(s.m, s.pc);
            !f.imemError && StepState(s) == Execute(s, f.icode, f.ifun, Some(16 * f.ra + f.rb), Some(f.valc), f.valp)
  {
    hide Little, ComputeAlu, ComputeCC, CondHolds, SetWord, GetReg, SetReg, Wrap;
  }

  /** A step shows the state its predecessor left pending, and leaves pending exactly the ISA's next state. */
  lemma StepRefinesIsa(s: Seq)
    requires StepState(Committed(s)).stat in {AOK, HLT}
    ensures Visible(SimStep(s)) == Committed(s)
    ensures SimStep(s).status == StepState(Committed(s)).stat
    ensures StepState(Committed(s)).stat == AOK ==> Committed(SimStep(s)) == Next(Committed(s))
  {
    EvaluateRefinesIsa(Committed(s), s.valm);
  }

  lemma EvaluateRefinesIsa(a: State, oldValm: Word)
    requires StepState(a).stat in {AOK, HLT}
    ensures Visible(Evaluate(a, oldValm)) == a
    ensures Evaluate(a, oldValm).status == StepState(a).stat
    ensures StepState(a).stat == AOK ==> Committed(Evaluate(a, oldValm)) == Next(a)
  {
    hide StepState, Evaluate, Committed, Fetch, Execute;
    EvaluateShows(a, oldValm);
    EvaluateStatus(a, oldValm);
    if StepState(a).stat == AOK {
      EvaluateRegisters(a, oldValm);
      EvaluateRest(a, oldValm);
    }
  }

  lemma EvaluateShows(a: State, oldValm: Word)
    ensures Visible(Evaluate(a, oldValm)) == a
  {
    hide ComputeAlu, ComputeCC, CondHolds, Fetch, GetWord;
  }

  lemma EvaluateStatus(a: State, oldValm: Word)
    requires StepState(a).stat in {AOK, HLT}
    ensures Evaluate(a, oldValm).status == StepState(a).stat
  {
    hide StepState, Fetch, Execute, Evaluate;
    FetchDecodes(a);
    var icode := Fetch(a.m, a.pc).icode;
    if icode == I_RMMOVQ || icode == I_PUSHQ || icode == I_CALL {
      StoreStatus(a, oldValm);
    } else if icode == I_MRMOVQ || icode == I_POPQ || icode == I_RET {
      LoadStatus(a, oldValm);
    } else {
      PlainStatus(a, oldValm);
    }
  }

  lemma StoreStatus(a: State, oldValm: Word)
    requires StepState(a).stat in {AOK, HLT} && MemWrite(Fetch(a.m, a.pc).icode)
    ensures Evaluate(a, oldValm).status == StepState(a).stat
  {
    hide BitAnd, BitXor, Little, PutBytes, StepState, Fetch, Hi4, Lo4, ComputeCC, CondHolds, SetReg, Wrap;
    var f := Fetch(a.m, a.pc);
    FetchDecodes(a);
    NibblePair(f.ra, f.rb);
  }

  lemma LoadStatus(a: State, oldValm: Word)
    requires StepState(a).stat in {AOK, HLT} && MemRead(Fetch(a.m, a.pc).icode)
    ensures Evaluate(a, oldValm).status == StepState(a).stat
  {
    hide BitAnd, BitXor, GetWord, SetWord, StepState, Fetch, Hi4, Lo4, ComputeCC, CondHolds, SetReg, Wrap;
    var f := Fetch(a.m, a.pc);
    FetchDecodes(a);
    NibblePair(f.ra, f.rb);
  }

  lemma PlainStatus(a: State, oldValm: Word)
    requires StepState(a).stat in {AOK, HLT}
    requires !MemRead(Fetch(a.m, a.pc).icode) && !MemWrite(Fetch(a.m, a.pc).icode)
    ensures Evaluate(a, oldValm).status == StepState(a).stat
  {
    hide ComputeAlu, GetWord, SetWord, StepState, Fetch, Hi4, Lo4, ComputeCC, CondHolds, SetReg, GetReg, Wrap;
    var f := Fetch(a.m, a.pc);
    FetchDecodes(a);
  }

  lemma EvaluateRegisters(a: State, oldValm: Word)
    requires StepState(a).stat == AOK
    ensures Committed(Evaluate(a, oldValm)).r == Next(a).r
  {
    hide BitAnd, BitXor, GetWord, SetWord, StepState, Fetch, Hi4, Lo4, ComputeCC, CondHolds;
    var f := Fetch(a.m, a.pc);
    FetchDecodes(a);
    NibblePair(f.ra, f.rb);
  }

  lemma EvaluateRest(a: State, oldValm: Word)
    requires StepState(a).stat == AOK
    ensures var s := Committed(Evaluate(a, oldValm)); s.m == Next(a).m && s.cc == Next(a).cc && s.pc == Next(a).pc
  {
    hide BitAnd, BitXor, GetWord, SetWord, StepState, Fetch, Hi4, Lo4, ComputeCC, CondHolds, SetReg;
    var f := Fetch(a.m, a.pc);
    FetchDecodes(a);
    NibblePair(f.ra, f.rb);
  }

  lemma {:induction false} RunFollowsIsa(s: Seq, p: State, k: nat, maxInstr: nat, status: Stat)
    requires Committed(s) == IsaAt(p, k) && k < maxInstr
    requires forall j: nat :: k <= j < maxInstr - 1 ==> StepState(IsaAt(p, j)).stat == AOK
    requires StepState(IsaAt(p, maxInstr - 1)).stat in {AOK, HLT}
    ensures var r := SimRunFrom(s, maxInstr, k, status);
            && Visible(r.sim) == IsaAt(p, maxInstr - 1)
            && r.status == StepState(IsaAt(p, maxInstr - 1)).stat
            && r.icount == maxInstr
    decreases maxInstr - k
  {
    hide StepState, Committed, SimStep, Visible;
    StepRefinesIsa(s);
    NextAt(p, k);
    if k < maxInstr - 1 {
      RunFollowsIsa(SimStep(s), p, k + 1, maxInstr, AOK);
    }
  }

  /** The halting step ends the run whatever budget is left. */
  lemma {:induction false} HaltEndsRun(s: Seq, p: State, k: nat, n: nat, maxInstr: nat, status: Stat)
    requires Committed(s) == IsaAt(p, k) && k <= n < maxInstr
    requires forall j: nat :: k <= j < n ==> StepState(IsaAt(p, j)).stat == AOK
    requires StepState(IsaAt(p, n)).stat == HLT
    ensures SimRunFrom(s, maxInstr, k, status) == SimRunFrom(s, n + 1, k, status)
    decreases n - k
  {
    hide StepState, Committed, SimStep, Visible;
    StepRefinesIsa(s);
    NextAt(p, k);
    if k < n {
      HaltEndsRun(SimStep(s), p, k + 1, n, maxInstr, AOK);
    }
  }

  lemma LoadedCommits(mem: Mem)
    ensures Committed(Loaded(mem)) == IsaAt(Start(mem), 0)
  {
  }

  /** SEQ REFINES THE ISA. A program that halts in the ISA after n instructions ends in HLT after n + 1 steps with the
      ISA's pc, registers, memory and condition codes. */
  lemma SeqRefinesIsa(mem: Mem, n: nat, instrLimit: nat)
    requires forall k: nat :: k < n ==> StepState(IsaAt(Start(mem), k)).stat == AOK
    requires StepState(IsaAt(Start(mem), n)).stat == HLT && n < instrLimit
    ensures var r := SimRun(Loaded(mem), instrLimit);
            && r.status == HLT && r.icount == n + 1 && Visible(r.sim) == IsaRun(Start(mem), instrLimit).state
  {
    hide StepState, Committed, SimStep, Visible;
    LoadedCommits(mem);
    HaltEndsRun(Loaded(mem), Start(mem), 0, n, instrLimit, AOK);
    RunFollowsIsa(Loaded(mem), Start(mem), 0, n + 1, AOK);
    IsaStart(Start(mem));
    IsaRunFrom(Start(mem), 0, n, instrLimit);
  }

  /** The comparison of final registers, memory and condition codes that `ssim -t` makes. */
  predicate IsaCheckSucceeds(mem: Mem, instrLimit: nat) {
    var sim := SimRun(Loaded(mem), instrLimit).sim;
    var isa := IsaRun(Start(mem), instrLimit).state;
    isa.r == sim.reg && isa.m == sim.mem && isa.cc == sim.cc
  }

  /** When the instruction limit cuts the run short, the last instruction is never committed: the check then compares
      the ISA states one instruction apart, and succeeds exactly if that instruction changed only the pc. */
  lemma CutRunLagsBehind(mem: Mem, instrLimit: nat)
    requires instrLimit > 0
    requires forall k: nat :: k < instrLimit ==> StepState(IsaAt(Start(mem), k)).stat == AOK
    ensures Visible(SimRun(Loaded(mem), instrLimit).sim) == IsaAt(Start(mem), instrLimit - 1)
    ensures var last := IsaAt(Start(mem), instrLimit - 1);
            IsaCheckSucceeds(mem, instrLimit) <==> Next(last) == last.(pc := Next(last).pc)
  {
    hide StepState, Committed, SimStep, IsaAt;
    LoadedCommits(mem);
    RunFollowsIsa(Loaded(mem), Start(mem), 0, instrLimit, AOK);
    IsaStart(Start(mem));
    IsaRunCompletes(Start(mem), 0, instrLimit);
    NextAt(Start(mem), instrLimit - 1);
  }
}
