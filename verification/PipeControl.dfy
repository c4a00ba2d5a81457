/** The pipeline registers of PIPE and the control logic compiled from its HCL description. */
module PipeControl {
  import opened Words
  import opened Memory
  import opened Isa

  datatype FReg = FReg(pc: Word, status: Stat)

  datatype DReg = DReg(icode: Nibble, ifun: Nibble, ra: Nibble, rb: Nibble, valc: Word, valp: Word, status: Stat)

  datatype EReg = EReg(icode: Nibble, ifun: Nibble, valc: Word, vala: Word, valb: Word,
                       srca: Nibble, srcb: Nibble, deste: Nibble, destm: Nibble, status: Stat)

  datatype MReg = MReg(icode: Nibble, ifun: Nibble, takebranch: bool, vale: Word, vala: Word,
                       deste: Nibble, destm: Nibble, status: Stat)

  datatype WReg = WReg(icode: Nibble, ifun: Nibble, vale: Word, valm: Word,
                       deste: Nibble, destm: Nibble, status: Stat)

  const BUBBLE_F: FReg := FReg(0, AOK)
  const BUBBLE_D: DReg := DReg(I_NOP, 0, REG_NONE, REG_NONE, 0, 0, BUB)
  const BUBBLE_E: EReg := EReg(I_NOP, 0, 0, 0, 0, REG_NONE, REG_NONE, REG_NONE, REG_NONE, BUB)
  const BUBBLE_M: MReg := MReg(I_NOP, 0, false, 0, 0, REG_NONE, REG_NONE, BUB)
  const BUBBLE_W: WReg := WReg(I_NOP, 0, 0, 0, REG_NONE, REG_NONE, BUB)

  predicate Bad(s: Stat) { s == ADR || s == INS || s == HLT }

  // ---- fetch

  function FPc(f: FReg, m: MReg, w: WReg): Word {
    if m.icode == I_JMP && !m.takebranch then m.vala
    else if w.icode == I_RET then w.valm
    else f.pc
  }

  predicate InstrValid(icode: Nibble) {
    icode == I_NOP || icode == I_HALT || icode == I_RRMOVQ || icode == I_IRMOVQ || icode == I_RMMOVQ ||
    icode == I_MRMOVQ || icode == I_ALU || icode == I_JMP || icode == I_CALL || icode == I_RET ||
    icode == I_PUSHQ || icode == I_POPQ || icode == I_IADDQ
  }

  function FStat(imemError: bool, icode: Nibble): Stat {
    if imemError then ADR else if !InstrValid(icode) then INS else if icode == I_HALT then HLT else AOK
  }

  predicate FNeedRegids(icode: Nibble) {
    icode == I_RRMOVQ || icode == I_ALU || icode == I_PUSHQ || icode == I_POPQ ||
    icode == I_IRMOVQ || icode == I_RMMOVQ || icode == I_MRMOVQ || icode == I_IADDQ
  }

  predicate FNeedValC(icode: Nibble) {
    icode == I_IRMOVQ || icode == I_RMMOVQ || icode == I_MRMOVQ ||
    icode == I_JMP || icode == I_CALL || icode == I_IADDQ
  }

  function FPredPC(d: DReg): Word {
    if d.icode == I_JMP || d.icode == I_CALL then d.valc else d.valp
  }

  // ---- decode

  function DSrcA(d: DReg): Nibble {
    if d.icode == I_RRMOVQ || d.icode == I_RMMOVQ || d.icode == I_ALU || d.icode == I_PUSHQ then d.ra
    else if d.icode == I_POPQ || d.icode == I_RET then REG_RSP
    else REG_NONE
  }

  function DSrcB(d: DReg): Nibble {
    if d.icode == I_ALU || d.icode == I_RMMOVQ || d.icode == I_MRMOVQ || d.icode == I_IADDQ then d.rb
    else if d.icode == I_PUSHQ || d.icode == I_POPQ || d.icode == I_CALL || d.icode == I_RET then REG_RSP
    else REG_NONE
  }

  function DDstE(d: DReg): Nibble {
    if d.icode == I_RRMOVQ || d.icode == I_IRMOVQ || d.icode == I_ALU || d.icode == I_IADDQ then d.rb
    else if d.icode == I_PUSHQ || d.icode == I_POPQ || d.icode == I_CALL || d.icode == I_RET then REG_RSP
    else REG_NONE
  }

  function DDstM(d: DReg): Nibble {
    if d.icode == I_MRMOVQ || d.icode == I_POPQ then d.ra else REG_NONE
  }

  /** The forwarding priority shared by valA and valB: execute, memory (valM before valE), write-back (likewise),
      and only then the register file. */
  function Forward(src: Nibble, mNext: MReg, m: MReg, wNext: WReg, w: WReg, regval: Word): Word {
    if src == mNext.deste then mNext.vale
    else if src == m.destm then wNext.valm
    else if src == m.deste then m.vale
    else if src == w.destm then w.valm
    else if src == w.deste then w.vale
    else regval
  }

  function DValA(d: DReg, src: Nibble, mNext: MReg, m: MReg, wNext: WReg, w: WReg, regval: Word): Word {
    if d.icode == I_CALL || d.icode == I_JMP then d.valp
    else Forward(src, mNext, m, wNext, w, regval)
  }

  // ---- execute

  function AluA(e: EReg): Word {
    if e.icode == I_RRMOVQ || e.icode == I_ALU then e.vala
    else if e.icode == I_IRMOVQ || e.icode == I_RMMOVQ || e.icode == I_MRMOVQ || e.icode == I_IADDQ then e.valc
    else if e.icode == I_CALL || e.icode == I_PUSHQ then -8
    else if e.icode == I_RET || e.icode == I_POPQ then 8
    else 0
  }

  function AluB(e: EReg): Word {
    if e.icode == I_RMMOVQ || e.icode == I_MRMOVQ || e.icode == I_ALU || e.icode == I_CALL ||
       e.icode == I_PUSHQ || e.icode == I_RET || e.icode == I_POPQ || e.icode == I_IADDQ then e.valb
    else 0
  }

  function AluFun(e: EReg): Nibble {
    if e.icode == I_ALU then e.ifun else A_ADD
  }

  predicate SetCc(e: EReg, wNext: WReg, w: WReg) {
    (e.icode == I_ALU || e.icode == I_IADDQ) && !Bad(wNext.status) && !Bad(w.status)
  }

  function EDstE(e: EReg, takebranch: bool): Nibble {
    if e.icode == I_RRMOVQ && !takebranch then REG_NONE else e.deste
  }

  // ---- memory

  function MemAddr(m: MReg): Word {
    if m.icode == I_RMMOVQ || m.icode == I_PUSHQ || m.icode == I_CALL || m.icode == I_MRMOVQ then m.vale
    else if m.icode == I_POPQ || m.icode == I_RET then m.vala
    else 0
  }

  predicate MemRead(m: MReg) { m.icode == I_MRMOVQ || m.icode == I_POPQ || m.icode == I_RET }

  predicate MemWrite(m: MReg) { m.icode == I_RMMOVQ || m.icode == I_PUSHQ || m.icode == I_CALL }

  function MStat(m: MReg, dmemError: bool): Stat { if dmemError then ADR else m.status }

  // ---- write-back

  function ProcStat(w: WReg): Stat { if w.status == BUB then AOK else w.status }

  // ---- stalling and bubbling

  predicate LoadUse(e: EReg, eNext: EReg) {
    (e.icode == I_MRMOVQ || e.icode == I_POPQ) && (e.destm == eNext.srca || e.destm == eNext.srcb)
  }

  predicate RetPending(d: DReg, e: EReg, m: MReg) { I_RET == d.icode || I_RET == e.icode || I_RET == m.icode }

  predicate Mispredict(e: EReg, mNext: MReg) { e.icode == I_JMP && !mNext.takebranch }

  predicate FBubble() { false }

  predicate FStall(d: DReg, e: EReg, eNext: EReg, m: MReg) { LoadUse(e, eNext) || RetPending(d, e, m) }

  predicate DStall(e: EReg, eNext: EReg) { LoadUse(e, eNext) }

  predicate DBubble(d: DReg, e: EReg, eNext: EReg, m: MReg, mNext: MReg) {
    Mispredict(e, mNext) || (!LoadUse(e, eNext) && RetPending(d, e, m))
  }

  predicate EStall() { false }

  predicate EBubble(e: EReg, eNext: EReg, mNext: MReg) { Mispredict(e, mNext) || LoadUse(e, eNext) }

  predicate MStall() { false }

  predicate MBubble(wNext: WReg, w: WReg) { Bad(wNext.status) || Bad(w.status) }

  predicate WStall(w: WReg) { Bad(w.status) }

  predicate WBubble() { false }
}
