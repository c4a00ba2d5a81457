/** The sequential Y86-64 interpreter: ALU, condition codes and one instruction step. */
module Isa {
  import opened Words
  import opened Memory

  // itype_t
  const I_HALT: Nibble := 0
  const I_NOP: Nibble := 1
  const I_RRMOVQ: Nibble := 2
  const I_IRMOVQ: Nibble := 3
  const I_RMMOVQ: Nibble := 4
  const I_MRMOVQ: Nibble := 5
  const I_ALU: Nibble := 6
  const I_JMP: Nibble := 7
  const I_CALL: Nibble := 8
  const I_RET: Nibble := 9
  const I_PUSHQ: Nibble := 10
  const I_POPQ: Nibble := 11
  const I_IADDQ: Nibble := 12
  const I_POP2: Nibble := 13

  // alu_t, fun_t
  const A_ADD: Nibble := 0
  const A_SUB: Nibble := 1
  const A_AND: Nibble := 2
  const A_XOR: Nibble := 3
  const F_NONE: Nibble := 0

  // cond_t
  const C_YES: Nibble := 0
  const C_LE: Nibble := 1
  const C_L: Nibble := 2
  const C_E: Nibble := 3
  const C_NE: Nibble := 4
  const C_GE: Nibble := 5
  const C_G: Nibble := 6

  /** stat_t */
  datatype Stat = BUB | AOK | HLT | ADR | INS | PIP

  /** cc_t: zero, sign and overflow flags. */
  datatype CC = CC(zf: bool, sf: bool, of: bool)

  const DEFAULT_CC: CC := CC(true, false, false)

  datatype State = State(pc: Word, r: Regs, m: Mem, cc: CC)

  function ComputeAlu(op: Nibble, argA: Word, argB: Word): Word {
    if op == A_ADD then Wrap(argA + argB)
    else if op == A_SUB then Wrap(argB - argA)
    else if op == A_AND then BitAnd(argA, argB)
    else if op == A_XOR then BitXor(argA, argB)
    else 0
  }

  function ComputeCC(op: Nibble, argA: Word, argB: Word): CC {
    var val := ComputeAlu(op, argA, argB);
    var ovf :=
      if op == A_ADD then (argA < 0) == (argB < 0) && (val < 0) != (argA < 0)
      else if op == A_SUB then (argA > 0) == (argB < 0) && (val < 0) != (argB < 0)
      else false;
    CC(val == 0, val < 0, ovf)
  }

  function CondHolds(cc: CC, cond: Nibble): bool {
    if cond == C_YES then true
    else if cond == C_LE then (cc.sf != cc.of) || cc.zf
    else if cond == C_L then cc.sf != cc.of
    else if cond == C_E then cc.zf
    else if cond == C_NE then !cc.zf
    else if cond == C_GE then cc.sf == cc.of
    else if cond == C_G then cc.sf == cc.of && !cc.zf
    else false
  }

  /** What a signed comparison of b with a decides for each jump condition. */
  predicate SignedCompare(cond: Nibble, b: Word, a: Word) {
    if cond == C_YES then true
    else if cond == C_LE then b <= a
    else if cond == C_L then b < a
    else if cond == C_E then b == a
    else if cond == C_NE then b != a
    else if cond == C_GE then b >= a
    else cond == C_G && b > a
  }

  predicate NeedRegids(icode: Nibble) {
    icode == I_RRMOVQ || icode == I_ALU || icode == I_PUSHQ || icode == I_POPQ ||
    icode == I_IRMOVQ || icode == I_RMMOVQ || icode == I_MRMOVQ || icode == I_IADDQ
  }

  predicate NeedImm(icode: Nibble) {
    icode == I_IRMOVQ || icode == I_RMMOVQ || icode == I_MRMOVQ ||
    icode == I_JMP || icode == I_CALL || icode == I_IADDQ
  }

  datatype Outcome = Outcome(state: State, stat: Stat)

  /** `step_state`: execute one instruction. A failing instruction may leave part of its effect. */
  function StepState(s: State): Outcome {
    match GetByte(s.m, s.pc)
    case None => Outcome(s, ADR)
    case Some(byte0) =>
      var hi0, lo0 := Hi4(byte0), Lo4(byte0);
      var ftpc1 := Wrap(s.pc + 1);
      var regids := if NeedRegids(hi0) then GetByte(s.m, ftpc1) else Some(0xFF);
      var ftpc2 := if NeedRegids(hi0) then Wrap(ftpc1 + 1) else ftpc1;
      var imm := if NeedImm(hi0) then GetWord(s.m, ftpc2) else Some(0);
      var ftpc := if NeedImm(hi0) then Wrap(ftpc2 + 8) else ftpc2;
      Execute(s, hi0, lo0, regids, imm, ftpc)
  }

  function Execute(s: State, hi0: Nibble, lo0: Nibble, regids: Option<Byte>, imm: Option<Word>, ftpc: Word): Outcome {
    var hi1 := if regids.Some? then Hi4(regids.value) else REG_NONE;
    var lo1 := if regids.Some? then Lo4(regids.value) else REG_NONE;
    var cval := if imm.Some? then imm.value else 0;
    if hi0 == I_NOP then
      Outcome(s.(pc := ftpc), AOK)
    else if hi0 == I_HALT then
      Outcome(s, HLT)
    else if hi0 == I_RRMOVQ then
      if regids.None? then Outcome(s, ADR)
      else if !RegValid(hi1) || !RegValid(lo1) then Outcome(s, INS)
      else
        var val := GetReg(s.r, hi1);
        Outcome(s.(r := if CondHolds(s.cc, lo0) then SetReg(s.r, lo1, val) else s.r, pc := ftpc), AOK)
    else if hi0 == I_IRMOVQ then
      if regids.None? then Outcome(s, ADR)
      else if imm.None? || !RegValid(lo1) then Outcome(s, INS)
      else Outcome(s.(r := SetReg(s.r, lo1, cval), pc := ftpc), AOK)
    else if hi0 == I_RMMOVQ then
      if regids.None? then Outcome(s, ADR)
      else if imm.None? || !RegValid(hi1) then Outcome(s, INS)
      else
        var addr := if RegValid(lo1) then Wrap(cval + GetReg(s.r, lo1)) else cval;
        (match SetWord(s.m, addr, GetReg(s.r, hi1))
         case None => Outcome(s, ADR)
         case Some(m) => Outcome(s.(m := m, pc := ftpc), AOK))
    else if hi0 == I_MRMOVQ then
      if regids.None? then Outcome(s, ADR)
      else if imm.None? || !RegValid(hi1) then Outcome(s, INS)
      else
        var addr := if RegValid(lo1) then Wrap(cval + GetReg(s.r, lo1)) else cval;
        (match GetWord(s.m, addr)
         case None => Outcome(s, ADR)
         case Some(val) => Outcome(s.(r := SetReg(s.r, hi1, val), pc := ftpc), AOK))
    else if hi0 == I_ALU then
      if regids.None? then Outcome(s, ADR)
      else
        var argA, argB := GetReg(s.r, hi1), GetReg(s.r, lo1);
        Outcome(s.(r := SetReg(s.r, lo1, ComputeAlu(lo0, argA, argB)), cc := ComputeCC(lo0, argA, argB), pc := ftpc),
                AOK)
    else if hi0 == I_JMP then
      if imm.None? then Outcome(s, ADR)
      else Outcome(s.(pc := if CondHolds(s.cc, lo0) then cval else ftpc), AOK)
    else if hi0 == I_CALL then
      if imm.None? then Outcome(s, ADR)
      else
        var val := Wrap(GetReg(s.r, REG_RSP) - 8);
        var s1 := s.(r := SetReg(s.r, REG_RSP, val));
        (match SetWord(s1.m, val, ftpc)
         case None => Outcome(s1, ADR)
         case Some(m) => Outcome(s1.(m := m, pc := cval), AOK))
    else if hi0 == I_RET then
      var dval := GetReg(s.r, REG_RSP);
      (match GetWord(s.m, dval)
       case None => Outcome(s, ADR)
       case Some(val) => Outcome(s.(r := SetReg(s.r, REG_RSP, Wrap(dval + 8)), pc := val), AOK))
    else if hi0 == I_PUSHQ then
      if regids.None? then Outcome(s, ADR)
      else if !RegValid(hi1) then Outcome(s, INS)
      else
        var val := GetReg(s.r, hi1);
        var dval := Wrap(GetReg(s.r, REG_RSP) - 8);
        var s1 := s.(r := SetReg(s.r, REG_RSP, dval));
        (match SetWord(s1.m, dval, val)
         case None => Outcome(s1, ADR)
         case Some(m) => Outcome(s1.(m := m, pc := ftpc), AOK))
    else if hi0 == I_POPQ then
      if regids.None? then Outcome(s, ADR)
      else if !RegValid(hi1) then Outcome(s, INS)
      else
        var dval := GetReg(s.r, REG_RSP);
        var s1 := s.(r := SetReg(s.r, REG_RSP, Wrap(dval + 8)));
        (match GetWord(s1.m, dval)
         case None => Outcome(s1, ADR)
         case Some(val) => Outcome(s1.(r := SetReg(s1.r, hi1, val), pc := ftpc), AOK))
    else if hi0 == I_IADDQ then
      if regids.None? then Outcome(s, ADR)
      else if imm.None? || !RegValid(lo1) then Outcome(s, INS)
      else
        var argB := GetReg(s.r, lo1);
        Outcome(s.(r := SetReg(s.r, lo1, Wrap(argB + cval)), cc := ComputeCC(A_ADD, cval, argB), pc := ftpc), AOK)
    else
      Outcome(s, INS)
  }

  /** The flags of `subq a, b` decide the signed comparison of b with a for all 64-bit operands, including the
      ones where b - a overflows and a == 0 (where the overflow test reads `argA > 0`). */
  lemma SubFlagsDecideComparison(a: Word, b: Word, cond: Nibble)
    ensures CondHolds(ComputeCC(A_SUB, a, b), cond) == SignedCompare(cond, b, a)
  {
  }
}
