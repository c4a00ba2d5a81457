/** `step_state` on a mutable machine state. */
module IsaMachine {
  import opened Words
  import opened Memory
  import opened Isa
  import opened Store

  /** Bytes per line of a memory. */
  const BPL: int := 32

  /** state_rec */
  class Machine {
    var pc: Word
    var r: array<Byte>
    var m: array<Byte>
    var cc: CC

    ghost predicate Valid()
      reads this
    {
      r.Length == 128 && m.Length <= MAX_MEM && r != m
    }

    ghost function Value(): State
      requires Valid()
      reads this, r, m
    {
      State(pc, RegsOf(r[..]), m[..], cc)
    }

    /** `new_state`: the memory is the least number of whole lines that holds memlen bytes, all of them 0. */
    constructor (memlen: nat)
      requires memlen + BPL - 1 <= MAX_MEM
      ensures Valid() && fresh(r) && fresh(m) && memlen <= m.Length < memlen + BPL && m.Length % BPL == 0
      ensures pc == 0 && cc == DEFAULT_CC && r[..] == seq(128, _ => 0) && m[..] == seq(m.Length, _ => 0)
    {
      pc, cc := 0, DEFAULT_CC;
      r := new Byte[128](_ => 0);
      m := new Byte[(memlen + BPL - 1) / BPL * BPL](_ => 0);
    }

    /** `step_state`: the new state and the status are those of the functional step. */
    method Step() returns (stat: Stat)
      requires Valid()
      modifies this`pc, this`cc, r, m
      ensures Valid()
      ensures Outcome(Value(), stat) == old(StepState(Value()))
    {
      hide Little, RegsOf, Execute;
      var ok0, byte0 := GetByteVal(m, pc);
      if !ok0 {
        return ADR;
      }
      var ftpc: Word := Wrap(pc + 1);
      var hi0, lo0 := Hi4(byte0), Lo4(byte0);
      var ok1, byte1: Byte := true, 0xFF;
      if NeedRegids(hi0) {
        ok1, byte1 := GetByteVal(m, ftpc);
        ftpc := Wrap(ftpc + 1);
      }
      var okc, cval: Word := true, 0;
      if NeedImm(hi0) {
        okc, cval := GetWordVal(m, ftpc);
        ftpc := Wrap(ftpc + 8);
      }
      stat := Switch(hi0, lo0, ok1, byte1, okc, cval, ftpc);
    }

    /** The switch on the instruction code. */
    method Switch(hi0: Nibble, lo0: Nibble, ok1: bool, byte1: Byte, okc: bool, imm: Word, ftpc: Word)
        returns (stat: Stat)
      requires Valid()
      modifies this`pc, this`cc, r, m
      ensures Valid()
      ensures Outcome(Value(), stat)
           == old(Execute(Value(), hi0, lo0, if ok1 then Some(byte1) else None, if okc then Some(imm) else None, ftpc))
    {
      hide Little, PutBytes, RegsOf, ComputeAlu, ComputeCC, CondHolds;
      var hi1 := if ok1 then Hi4(byte1) else REG_NONE;
      var lo1 := if ok1 then Lo4(byte1) else REG_NONE;
      var cval := if okc then imm else 0;
      if hi0 == I_NOP {
        pc := ftpc;
        return AOK;
      } else if hi0 == I_HALT {
        return HLT;
      } else if hi0 == I_RRMOVQ {
        if !ok1 { return ADR; }
        if !RegValid(hi1) || !RegValid(lo1) { return INS; }
        var val := GetRegVal(r, hi1);
        if CondHolds(cc, lo0) {
          SetRegVal(r, lo1, val);
        }
        pc := ftpc;
        return AOK;
      } else if hi0 == I_IRMOVQ {
        if !ok1 { return ADR; }
        if !okc || !RegValid(lo1) { return INS; }
        SetRegVal(r, lo1, cval);
        pc := ftpc;
        return AOK;
      } else if hi0 == I_ALU {
        if !ok1 { return ADR; }
        var argA := GetRegVal(r, hi1);
        var argB := GetRegVal(r, lo1);
        SetRegVal(r, lo1, ComputeAlu(lo0, argA, argB));
        cc := ComputeCC(lo0, argA, argB);
        pc := ftpc;
        return AOK;
      } else if hi0 == I_JMP {
        if !okc { return ADR; }
        pc := if CondHolds(cc, lo0) then cval else ftpc;
        return AOK;
      } else if hi0 == I_IADDQ {
        if !ok1 { return ADR; }
        if !okc || !RegValid(lo1) { return INS; }
        var argB := GetRegVal(r, lo1);
        SetRegVal(r, lo1, Wrap(argB + cval));
        cc := ComputeCC(A_ADD, cval, argB);
        pc := ftpc;
        return AOK;
      } else if hi0 == I_RMMOVQ || hi0 == I_MRMOVQ {
        stat := Move(hi0, lo0, ok1, byte1, okc, imm, ftpc);
      } else {
        stat := Stack(hi0, lo0, ok1, byte1, okc, imm, ftpc);
      }
    }

    /** The cases rmmovq and mrmovq. */
    method Move(hi0: Nibble, lo0: Nibble, ok1: bool, byte1: Byte, okc: bool, imm: Word, ftpc: Word)
        returns (stat: Stat)
      requires Valid() && (hi0 == I_RMMOVQ || hi0 == I_MRMOVQ)
      modifies this`pc, r, m
      ensures Valid()
      ensures Outcome(Value(), stat)
           == old(Execute(Value(), hi0, lo0, if ok1 then Some(byte1) else None, if okc then Some(imm) else None, ftpc))
    {
      hide Little, PutBytes, RegsOf, ComputeAlu, ComputeCC, CondHolds;
      var hi1 := if ok1 then Hi4(byte1) else REG_NONE;
      var lo1 := if ok1 then Lo4(byte1) else REG_NONE;
      var cval: Word := if okc then imm else 0;
      if !ok1 { return ADR; }
      if !okc || !RegValid(hi1) { return INS; }
      if RegValid(lo1) {
        var base := GetRegVal(r, lo1);
        cval := Wrap(cval + base);
      }
      if hi0 == I_RMMOVQ {
        var val := GetRegVal(r, hi1);
        var ok := SetWordVal(m, cval, val);
        if !ok { return ADR; }
      } else {
        var ok, val := GetWordVal(m, cval);
        if !ok { return ADR; }
        SetRegVal(r, hi1, val);
      }
      pc := ftpc;
      return AOK;
    }

    /** The cases call, ret, pushq and popq, and the invalid instruction codes. */
    method Stack(hi0: Nibble, lo0: Nibble, ok1: bool, byte1: Byte, okc: bool, imm: Word, ftpc: Word)
        returns (stat: Stat)
      requires Valid()
      requires hi0 == I_CALL || hi0 == I_RET || hi0 == I_PUSHQ || hi0 == I_POPQ || hi0 > I_IADDQ
      modifies this`pc, r, m
      ensures Valid()
      ensures Outcome(Value(), stat)
           == old(Execute(Value(), hi0, lo0, if ok1 then Some(byte1) else None, if okc then Some(imm) else None, ftpc))
    {
      hide Little, PutBytes, RegsOf, ComputeAlu, ComputeCC, CondHolds;
      var hi1 := if ok1 then Hi4(byte1) else REG_NONE;
      var cval: Word := if okc then imm else 0;
      if hi0 == I_CALL {
        if !okc { return ADR; }
        var sp := GetRegVal(r, REG_RSP);
        var val := Wrap(sp as int - 8);
        SetRegVal(r, REG_RSP, val);
        var ok := SetWordVal(m, val, ftpc);
        if !ok { return ADR; }
        pc := cval;
        return AOK;
      } else if hi0 == I_RET {
        var dval := GetRegVal(r, REG_RSP);
        var ok, val := GetWordVal(m, dval);
        if !ok { return ADR; }
        SetRegVal(r, REG_RSP, Wrap(dval as int + 8));
        pc := val;
        return AOK;
      } else if hi0 == I_PUSHQ {
        if !ok1 { return ADR; }
        if !RegValid(hi1) { return INS; }
        var val := GetRegVal(r, hi1);
        var sp := GetRegVal(r, REG_RSP);
        var dval := Wrap(sp as int - 8);
        SetRegVal(r, REG_RSP, dval);
        var ok := SetWordVal(m, dval, val);
        if !ok { return ADR; }
        pc := ftpc;
        return AOK;
      } else if hi0 == I_POPQ {
        if !ok1 { return ADR; }
        if !RegValid(hi1) { return INS; }
        var dval := GetRegVal(r, REG_RSP);
        SetRegVal(r, REG_RSP, Wrap(dval as int + 8));
        var ok, val := GetWordVal(m, dval);
        if !ok { return ADR; }
        SetRegVal(r, hi1, val);
        pc := ftpc;
        return AOK;
      } else {
        return INS;
      }
    }
  }
}
