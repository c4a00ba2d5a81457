/** What every Y86-64 instruction does to the machine, told by the bytes of its code. */
module IsaMeaning {
  import opened Words
  import opened Memory
  import opened Isa
  import opened IsaTrace

  /** The bytes lie at the pc. */
  predicate AtPc(s: State, code: seq<Byte>) {
    0 <= s.pc && s.pc + |code| <= |s.m| && s.m[s.pc..s.pc + |code|] == code
  }

  /** The constant v is stored in the eight bytes from offset on. */
  predicate ConstantAt(s: State, offset: nat, v: Word) {
    0 <= s.pc && s.pc + offset + 8 <= |s.m| && GetWord(s.m, s.pc + offset) == Some(v)
  }

  /** A step that completes and goes on after size bytes. */
  predicate GoesOn(s: State, size: nat) {
    StepState(s).stat == AOK && Next(s).pc == s.pc + size
  }

  /** The step changes at most register r. */
  predicate OnlyRegister(s: State, r: Nibble)
    requires r < 15
  {
    Next(s).m == s.m && forall i :: 0 <= i < 15 && i != r ==> Next(s).r[i] == s.r[i]
  }

  // ---- decoding

  lemma ByteAtPc(s: State, code: seq<Byte>, k: nat)
    requires AtPc(s, code) && k < |code| <= 10
    ensures GetByte(s.m, s.pc + k) == Some(code[k]) && Wrap(s.pc + k) == s.pc + k
  {
    assert s.m[s.pc + k] == s.m[s.pc..s.pc + |code|][k];
  }

  lemma DecodesOne(s: State, hi: Nibble, lo: Nibble)
    requires AtPc(s, [16 * hi + lo]) && !NeedRegids(hi) && !NeedImm(hi)
    ensures StepState(s) == Execute(s, hi, lo, Some(0xFF), Some(0), s.pc + 1)
  {
    hide NeedRegids, NeedImm, Execute, GetByte;
    ByteAtPc(s, [16 * hi + lo], 0);
    NibblePair(hi, lo);
    PcInRange(s, 1);
  }

  lemma PcInRange(s: State, n: nat)
    requires 0 <= s.pc < |s.m| && n <= 10
    ensures Wrap(s.pc + n) == s.pc + n
  {
  }

  lemma DecodesTwo(s: State, hi: Nibble, lo: Nibble, regs: Byte)
    requires AtPc(s, [16 * hi + lo, regs]) && NeedRegids(hi) && !NeedImm(hi)
    ensures StepState(s) == Execute(s, hi, lo, Some(regs), Some(0), s.pc + 2)
  {
    hide NeedRegids, NeedImm, Execute, GetByte;
    var code := [16 * hi + lo, regs];
    ByteAtPc(s, code, 0);
    ByteAtPc(s, code, 1);
    NibblePair(hi, lo);
    PcInRange(s, 2);
  }

  lemma DecodesNine(s: State, hi: Nibble, lo: Nibble, v: Word)
    requires AtPc(s, [16 * hi + lo]) && ConstantAt(s, 1, v) && !NeedRegids(hi) && NeedImm(hi)
    ensures StepState(s) == Execute(s, hi, lo, Some(0xFF), Some(v), s.pc + 9)
  {
    hide NeedRegids, NeedImm, Execute, GetByte, GetWord;
    ByteAtPc(s, [16 * hi + lo], 0);
    NibblePair(hi, lo);
    PcInRange(s, 1);
    PcInRange(s, 9);
  }

  lemma DecodesTen(s: State, hi: Nibble, lo: Nibble, regs: Byte, v: Word)
    requires AtPc(s, [16 * hi + lo, regs]) && ConstantAt(s, 2, v) && NeedRegids(hi) && NeedImm(hi)
    ensures StepState(s) == Execute(s, hi, lo, Some(regs), Some(v), s.pc + 10)
  {
    hide NeedRegids, NeedImm, Execute, GetByte, GetWord;
    var code := [16 * hi + lo, regs];
    ByteAtPc(s, code, 0);
    ByteAtPc(s, code, 1);
    NibblePair(hi, lo);
    PcInRange(s, 2);
    PcInRange(s, 10);
  }

  // ---- arithmetic

  /** Register b after a step that computes in it, with the zero and sign flags of the value. */
  predicate ComputesIn(s: State, b: Nibble)
    requires b < 15
  {
    OnlyRegister(s, b) && (Next(s).cc.zf <==> Next(s).r[b] == 0) && (Next(s).cc.sf <==> Next(s).r[b] < 0)
  }

  predicate Congruent(x: int, y: int) { (x - y) % 0x1_0000_0000_0000_0000 == 0 }

  predicate NoWord(x: int) { !(-0x8000_0000_0000_0000 <= x < 0x8000_0000_0000_0000) }

  /** `addq`: the sum modulo 2^64; OF exactly if the sum is no 64-bit word. */
  lemma AddStep(s: State, a: Nibble, b: Nibble)
    requires a < 15 && b < 15 && AtPc(s, [0x60, 16 * a + b])
    ensures GoesOn(s, 2) && ComputesIn(s, b)
    ensures Congruent(Next(s).r[b], s.r[b] as int + s.r[a])
    ensures Next(s).cc.of <==> NoWord(s.r[b] as int + s.r[a])
  {
    hide StepState, BitAnd, BitXor;
    DecodesTwo(s, 6, 0, 16 * a + b);
    NibblePair(a, b);
  }

  /** `subq`: the difference modulo 2^64, of rB less rA; OF exactly if the difference is no 64-bit word. */
  lemma SubStep(s: State, a: Nibble, b: Nibble)
    requires a < 15 && b < 15 && AtPc(s, [0x61, 16 * a + b])
    ensures GoesOn(s, 2) && ComputesIn(s, b)
    ensures Congruent(Next(s).r[b], s.r[b] as int - s.r[a])
    ensures Next(s).cc.of <==> NoWord(s.r[b] as int - s.r[a])
  {
    hide StepState, BitAnd, BitXor;
    DecodesTwo(s, 6, 1, 16 * a + b);
    NibblePair(a, b);
  }

  /** `andq`: every bit is the product of the two bits; OF is cleared. */
  lemma AndStep(s: State, a: Nibble, b: Nibble)
    requires a < 15 && b < 15 && AtPc(s, [0x62, 16 * a + b])
    ensures GoesOn(s, 2) && ComputesIn(s, b) && !Next(s).cc.of
    ensures forall k: nat :: k < 64 ==> Bit(Next(s).r[b], k) == Bit(s.r[b], k) * Bit(s.r[a], k)
  {
    hide StepState, BitAnd, Bit;
    AndValue(s, a, b);
    forall k: nat | k < 64
      ensures Bit(Next(s).r[b], k) == Bit(s.r[b], k) * Bit(s.r[a], k)
    {
      AndBit(s.r[a], s.r[b], k);
    }
  }

  lemma AndValue(s: State, a: Nibble, b: Nibble)
    requires a < 15 && b < 15 && AtPc(s, [0x62, 16 * a + b])
    ensures GoesOn(s, 2) && ComputesIn(s, b) && !Next(s).cc.of && Next(s).r[b] == BitAnd(s.r[a], s.r[b])
  {
    hide StepState, BitAnd, BitXor;
    DecodesTwo(s, 6, 2, 16 * a + b);
    NibblePair(a, b);
  }

  /** `xorq`: a bit is 1 exactly where the two bits differ; OF is cleared. */
  lemma XorStep(s: State, a: Nibble, b: Nibble)
    requires a < 15 && b < 15 && AtPc(s, [0x63, 16 * a + b])
    ensures GoesOn(s, 2) && ComputesIn(s, b) && !Next(s).cc.of
    ensures forall k: nat :: k < 64 ==> (Bit(Next(s).r[b], k) == 1 <==> Bit(s.r[b], k) != Bit(s.r[a], k))
  {
    hide StepState, BitXor, Bit;
    XorValue(s, a, b);
    forall k: nat | k < 64
      ensures Bit(Next(s).r[b], k) == 1 <==> Bit(s.r[b], k) != Bit(s.r[a], k)
    {
      XorBit(s.r[a], s.r[b], k);
    }
  }

  lemma XorValue(s: State, a: Nibble, b: Nibble)
    requires a < 15 && b < 15 && AtPc(s, [0x63, 16 * a + b])
    ensures GoesOn(s, 2) && ComputesIn(s, b) && !Next(s).cc.of && Next(s).r[b] == BitXor(s.r[a], s.r[b])
  {
    hide StepState, BitAnd, BitXor;
    DecodesTwo(s, 6, 3, 16 * a + b);
    NibblePair(a, b);
  }

  /** `xorq %rA, %rA` clears the register. */
  lemma XorClears(s: State, a: Nibble)
    requires a < 15 && AtPc(s, [0x63, 16 * a + a])
    ensures GoesOn(s, 2) && Next(s).r[a] == 0 && Next(s).cc == CC(true, false, false)
  {
    hide StepState, BitXor, Bit, OnlyRegister, Pow2;
    XorValue(s, a, a);
    XorSame(s.r[a]);
  }

  lemma XorSame(w: Word)
    ensures BitXor(w, w) == 0
  {
    SameBits(Unsigned(w), 64);
  }

  lemma {:induction false} SameBits(x: nat, n: nat)
    ensures XorBits(x, x, n) == 0
  {
    if n > 0 {
      SameBits(x / 2, n - 1);
    }
  }

  /** `iaddq`: the sum of the register and the constant. */
  lemma AddConstantStep(s: State, b: Nibble, v: Word)
    requires b < 15 && AtPc(s, [0xC0, 0xF0 + b]) && ConstantAt(s, 2, v)
    ensures GoesOn(s, 10) && ComputesIn(s, b)
    ensures Congruent(Next(s).r[b], s.r[b] as int + v)
    ensures Next(s).cc.of <==> NoWord(s.r[b] as int + v)
  {
    hide StepState, BitAnd, BitXor, GetWord;
    DecodesTen(s, 12, 0, 0xF0 + b, v);
    NibblePair(15, b);
  }

  // ---- moves

  /** `rrmovq` and the conditional moves. */
  lemma MoveStep(s: State, cond: Nibble, a: Nibble, b: Nibble)
    requires a < 15 && b < 15 && AtPc(s, [0x20 + cond, 16 * a + b])
    ensures GoesOn(s, 2) && OnlyRegister(s, b) && Next(s).cc == s.cc
    ensures Next(s).r[b] == if CondHolds(s.cc, cond) then s.r[a] else s.r[b]
  {
    hide StepState, CondHolds;
    DecodesTwo(s, 2, cond, 16 * a + b);
    NibblePair(a, b);
  }

  /** `irmovq` */
  lemma LoadConstantStep(s: State, b: Nibble, v: Word)
    requires b < 15 && AtPc(s, [0x30, 0xF0 + b]) && ConstantAt(s, 2, v)
    ensures GoesOn(s, 10) && OnlyRegister(s, b) && Next(s).cc == s.cc && Next(s).r[b] == v
  {
    hide StepState, GetWord;
    DecodesTen(s, 3, 0, 0xF0 + b, v);
    NibblePair(15, b);
  }

  /** The address that a memory operand names: register 15 stands for none. */
  function Address(s: State, b: Nibble, d: Word): Word { Wrap(d + if b < 15 then s.r[b] else 0) }

  /** The eight bytes at the address are memory. */
  predicate Addressable(s: State, addr: Word) { 0 <= addr && addr + 8 <= |s.m| }

  /** The step stores v at the address and changes no other byte. */
  predicate StoresAt(s: State, addr: Word, v: Word) {
    && GetWord(Next(s).m, addr) == Some(v) && |Next(s).m| == |s.m|
    && forall i :: 0 <= i < |s.m| && !(addr <= i < addr + 8) ==> Next(s).m[i] == s.m[i]
  }

  /** `rmmovq`: the register goes to memory, or the address is wrong and nothing happens. */
  lemma StoreStep(s: State, a: Nibble, b: Nibble, d: Word)
    requires a < 15 && AtPc(s, [0x40, 16 * a + b]) && ConstantAt(s, 2, d)
    ensures Addressable(s, Address(s, b, d)) ==>
              GoesOn(s, 10) && Next(s).r == s.r && Next(s).cc == s.cc && StoresAt(s, Address(s, b, d), s.r[a])
    ensures !Addressable(s, Address(s, b, d)) ==> StepState(s) == Outcome(s, ADR)
  {
    hide StepState, GetWord, PutBytes, Wrap;
    DecodesTen(s, 4, 0, 16 * a + b, d);
    NibblePair(a, b);
    WordRoundTrip(s.m, Address(s, b, d), s.r[a]);
    WrapWord(d);
  }

  lemma WrapWord(d: Word)
    ensures Wrap(d + 0) == d
  {
  }

  /** `mrmovq` */
  lemma LoadStep(s: State, a: Nibble, b: Nibble, d: Word)
    requires a < 15 && AtPc(s, [0x50, 16 * a + b]) && ConstantAt(s, 2, d)
    ensures Addressable(s, Address(s, b, d)) ==>
              && GoesOn(s, 10) && OnlyRegister(s, a) && Next(s).cc == s.cc
              && GetWord(s.m, Address(s, b, d)) == Some(Next(s).r[a])
    ensures !Addressable(s, Address(s, b, d)) ==> StepState(s) == Outcome(s, ADR)
  {
    hide StepState, Wrap, Little;
    DecodesTen(s, 5, 0, 16 * a + b, d);
    NibblePair(a, b);
    WrapWord(d);
  }

  // ---- jumps

  /** `jmp` and the conditional jumps. */
  lemma JumpStep(s: State, cond: Nibble, dest: Word)
    requires AtPc(s, [0x70 + cond]) && ConstantAt(s, 1, dest)
    ensures StepState(s).stat == AOK && Next(s).r == s.r && Next(s).m == s.m && Next(s).cc == s.cc
    ensures Next(s).pc == if CondHolds(s.cc, cond) then dest else s.pc + 9
  {
    hide StepState, CondHolds, GetWord;
    DecodesNine(s, 7, cond, dest);
  }

  /** `call`: the address of the next instruction is pushed. If there is no room, the stack address has moved anyway. */
  lemma CallStep(s: State, dest: Word)
    requires AtPc(s, [0x80]) && ConstantAt(s, 1, dest)
    ensures Next(s).r == s.r[4 := Wrap(s.r[4] as int - 8)] && Next(s).cc == s.cc
    ensures Addressable(s, Wrap(s.r[4] as int - 8)) ==>
              StepState(s).stat == AOK && Next(s).pc == dest && StoresAt(s, Wrap(s.r[4] as int - 8), s.pc + 9)
    ensures !Addressable(s, Wrap(s.r[4] as int - 8)) ==> StepState(s).stat == ADR && Next(s).pc == s.pc && Next(s).m == s.m
  {
    hide StepState, GetWord, PutBytes, Wrap;
    DecodesNine(s, 8, 0, dest);
    WordRoundTrip(s.m, Wrap(s.r[4] as int - 8), s.pc + 9);
  }

  /** `ret`: the address on top of the stack is popped into the pc. */
  lemma ReturnStep(s: State)
    requires AtPc(s, [0x90])
    ensures Addressable(s, s.r[4]) ==>
              && StepState(s).stat == AOK && GetWord(s.m, s.r[4]) == Some(Next(s).pc)
              && Next(s).r == s.r[4 := Wrap(s.r[4] as int + 8)] && Next(s).m == s.m && Next(s).cc == s.cc
    ensures !Addressable(s, s.r[4]) ==> StepState(s) == Outcome(s, ADR)
  {
    hide StepState, Wrap, Little;
    DecodesOne(s, 9, 0);
  }

  /** A return from the state in which a call leaves the stack goes on behind the call, with the stack as before. */
  lemma CallThenReturn(s: State, dest: Word, t: State)
    requires AtPc(s, [0x80]) && ConstantAt(s, 1, dest) && Addressable(s, Wrap(s.r[4] as int - 8))
    requires AtPc(t, [0x90]) && t.r[4] == Next(s).r[4] && |t.m| == |s.m|
    requires GetWord(t.m, t.r[4]) == GetWord(Next(s).m, t.r[4])
    ensures StepState(t).stat == AOK && Next(t).pc == s.pc + 9 && Next(t).r[4] == s.r[4]
  {
    hide StepState, Wrap, GetWord, AtPc;
    CallStep(s, dest);
    ReturnStep(t);
    DownAndUp(s.r[4]);
  }

  lemma DownAndUp(w: Word)
    ensures Wrap(Wrap(w as int - 8) as int + 8) == w
  {
  }

  // ---- the stack

  /** `pushq`: the old value of the register, even for %rsp, goes below the old top. If there is no room, the stack address
      has moved anyway. */
  lemma PushStep(s: State, a: Nibble)
    requires a < 15 && AtPc(s, [0xA0, 16 * a + 15])
    ensures Next(s).r == s.r[4 := Wrap(s.r[4] as int - 8)] && Next(s).cc == s.cc
    ensures Addressable(s, Wrap(s.r[4] as int - 8)) ==> GoesOn(s, 2) && StoresAt(s, Wrap(s.r[4] as int - 8), s.r[a])
    ensures !Addressable(s, Wrap(s.r[4] as int - 8)) ==> StepState(s).stat == ADR && Next(s).pc == s.pc && Next(s).m == s.m
  {
    hide StepState, GetWord, PutBytes, Wrap;
    DecodesTwo(s, 10, 0, 16 * a + 15);
    NibblePair(a, 15);
    WordRoundTrip(s.m, Wrap(s.r[4] as int - 8), s.r[a]);
  }

  /** `popq`: the top of the stack goes to the register; for %rsp it wins over the new stack address. */
  lemma PopStep(s: State, a: Nibble)
    requires a < 15 && AtPc(s, [0xB0, 16 * a + 15])
    ensures Next(s).m == s.m && Next(s).cc == s.cc
    ensures forall i :: 0 <= i < 15 && i != a ==> Next(s).r[i] == if i == 4 then Wrap(s.r[4] as int + 8) else s.r[i]
    ensures Addressable(s, s.r[4]) ==> GoesOn(s, 2) && GetWord(s.m, s.r[4]) == Some(Next(s).r[a])
    ensures !Addressable(s, s.r[4]) ==> StepState(s).stat == ADR && Next(s).pc == s.pc
  {
    hide StepState, Wrap, Little;
    DecodesTwo(s, 11, 0, 16 * a + 15);
    NibblePair(a, 15);
  }

  /** What is pushed from one register is popped into another, and the stack is as before. */
  lemma PushThenPop(s: State, a: Nibble, b: Nibble)
    requires a < 15 && b < 15 && b != 4 && Addressable(s, Wrap(s.r[4] as int - 8))
    requires AtPc(s, [0xA0, 16 * a + 15]) && AtPc(Next(s), [0xB0, 16 * b + 15])
    ensures StepState(s).stat == AOK && StepState(Next(s)).stat == AOK
    ensures Next(Next(s)).r[b] == s.r[a] && Next(Next(s)).r[4] == s.r[4]
  {
    hide StepState, Wrap, GetWord, AtPc;
    PushStep(s, a);
    PopStep(Next(s), b);
    DownAndUp(s.r[4]);
  }

  // ---- the rest

  /** `nop` and `halt` */
  lemma IdleSteps(s: State)
    ensures AtPc(s, [0x10]) ==> StepState(s) == Outcome(s.(pc := s.pc + 1), AOK)
    ensures AtPc(s, [0x00]) ==> StepState(s) == Outcome(s, HLT)
  {
    hide StepState;
    if AtPc(s, [0x10]) {
      DecodesOne(s, 1, 0);
    }
    if AtPc(s, [0x00]) {
      DecodesOne(s, 0, 0);
    }
  }

  /** Codes above 12 are no instructions. */
  lemma InvalidStep(s: State, hi: Nibble, lo: Nibble)
    requires hi > 12 && AtPc(s, [16 * hi + lo])
    ensures StepState(s) == Outcome(s, INS)
  {
    hide StepState;
    DecodesOne(s, hi, lo);
  }

  /** An operation code above 3 gives 0. */
  lemma UnknownOperationStep(s: State, op: Nibble, a: Nibble, b: Nibble)
    requires 3 < op && b < 15 && AtPc(s, [0x60 + op, 16 * a + b])
    ensures GoesOn(s, 2) && OnlyRegister(s, b) && Next(s).r[b] == 0 && Next(s).cc == CC(true, false, false)
  {
    hide StepState, BitAnd, BitXor;
    DecodesTwo(s, 6, op, 16 * a + b);
    NibblePair(a, b);
  }

  /** Where a register is needed, register 15 is an error. */
  lemma NoRegisterStep(s: State, hi: Nibble, lo: Nibble, a: Nibble, b: Nibble, v: Word)
    requires AtPc(s, [16 * hi + lo, 16 * a + b])
    requires || (hi == 2 && (a == 15 || b == 15))
             || (hi == 10 && a == 15) || (hi == 11 && a == 15)
             || (ConstantAt(s, 2, v) && ((hi == 3 || hi == 12) && b == 15))
             || (ConstantAt(s, 2, v) && ((hi == 4 || hi == 5) && a == 15))
    ensures StepState(s) == Outcome(s, INS)
  {
    hide StepState, GetWord;
    if hi == 2 || hi == 10 || hi == 11 {
      DecodesTwo(s, hi, lo, 16 * a + b);
    } else {
      DecodesTen(s, hi, lo, 16 * a + b, v);
    }
    NibblePair(a, b);
  }

  /** An operation reads register 15 as 0, and a result for it is dropped, but its flags are set. */
  lemma MissingRegisterStep(s: State, a: Nibble, b: Nibble)
    requires AtPc(s, [0x60, 16 * a + b]) && (a == 15 || b == 15)
    ensures GoesOn(s, 2) && Next(s).r == s.r && Next(s).m == s.m && !Next(s).cc.of
    ensures var v := if a < 15 then s.r[a] else if b < 15 then s.r[b] else 0;
            Next(s).cc.zf == (v == 0) && Next(s).cc.sf == (v < 0)
  {
    hide StepState, BitAnd, BitXor;
    DecodesTwo(s, 6, 0, 16 * a + b);
    NibblePair(a, b);
    if b < 15 {
      assert s.r[b := s.r[b]] == s.r;
    }
  }

  /** Code that runs past the end of memory is an address error, or an instruction error if only its constant does and it
      is no jump or call. */
  lemma TruncatedStep(s: State, hi: Nibble, lo: Nibble)
    ensures !(0 <= s.pc < |s.m|) ==> StepState(s) == Outcome(s, ADR)
    ensures AtPc(s, [16 * hi + lo]) && s.pc + 1 == |s.m| && 2 <= hi <= 12 && hi != 9 ==> StepState(s) == Outcome(s, ADR)
    ensures AtPc(s, [16 * hi + lo]) && |s.m| < s.pc + 9 && (hi == 7 || hi == 8) ==> StepState(s) == Outcome(s, ADR)
    ensures AtPc(s, [16 * hi + lo]) && s.pc + 2 <= |s.m| < s.pc + 10 && (3 <= hi <= 5 || hi == 12) ==>
              StepState(s) == Outcome(s, INS)
  {
    hide Little, BitAnd, BitXor, PutBytes, GetReg, SetReg;
    if AtPc(s, [16 * hi + lo]) {
      ByteAtPc(s, [16 * hi + lo], 0);
      NibblePair(hi, lo);
      PcInRange(s, 1);
      PcInRange(s, 2);
    }
  }

  // ---- where a run begins

  /** A fresh machine starts at address 0 with clear registers, and as after a result of 0: `je`, `jle` and `jge` jump. */
  lemma FreshStart(mem: Mem, cond: Nibble)
    ensures Start(mem).pc == 0 && Start(mem).m == mem && forall i :: 0 <= i < 15 ==> Start(mem).r[i] == 0
    ensures CondHolds(Start(mem).cc, cond) <==> cond == 0 || cond == 1 || cond == 3 || cond == 5
  {
  }
}
