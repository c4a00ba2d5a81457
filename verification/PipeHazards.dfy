/** Two programs on which the pipeline and the ISA disagree, so that the hypotheses of the refinement theorem are
    needed, and one that meets them. */
module PipeHazards {
  import opened Words
  import opened Memory
  import opened Isa
  import opened IsaTrace
  import opened PipeControl
  import opened PipeCore
  import opened PipeStaged
  import opened PipeChain
  import opened PipeRun
  import opened PipeTrace
  import opened PipeTheorem
  import opened PipeCorrect

  /** A word whose only nonzero byte is its first. */
  lemma SmallWord(m: Mem, pos: nat)
    requires pos + 8 <= |m| && forall i :: pos < i < pos + 8 ==> m[i] == 0
    ensures GetWord(m, pos) == Some(m[pos])
  {
    LittleZeros(m, pos + 1, 7);
  }

  /** One step with nothing disabled. */
  function Tick(c: Core): Core { Clock(c, Comb(c), true, true) }

  function Ticks(c: Core, n: nat): Core { if n == 0 then c else Tick(Ticks(c, n - 1)) }

  lemma TickStep(s: Sim, budget: int)
    requires s.wires == Comb(s.core) && budget >= 3
    ensures var s' := SimStepPipe(s, budget);
            s'.core == Tick(s.core) && s'.wires == Comb(s'.core) && s'.wires.status == ProcStat(s'.core.w)
  {
    hide Clock, FetchStage, ExStage, MemStage, ExCc, IdStage, PipeCntl;
  }

  /** A run whose write-back stage first shows HLT after k + j more ticks ends there. */
  lemma {:induction false} RunsTo(s: Sim, c0: Core, k: nat, j: nat, maxInstr: int, maxCycle: int)
    requires s.core == Ticks(c0, k) && s.wires == Comb(s.core) && 0 < j
    requires maxInstr > k + j + 3 && maxCycle > k + j + 3
    requires forall i: nat :: k < i < k + j ==> ProcStat(Ticks(c0, i).w) == AOK
    requires Ticks(c0, k + j).w.status == HLT
    ensures var r := SimRunFrom(s, maxInstr, maxCycle, k + 1, k + 1, AOK);
            r.status == HLT && r.sim.core == Ticks(c0, k + j)
    decreases j
  {
    hide Tick, Comb, SimStepPipe;
    TickStep(s, maxInstr - (k + 1));
    var s' := SimStepPipe(s, maxInstr - (k + 1));
    assert s'.core == Ticks(c0, k + 1);
    if j > 1 {
      RunsTo(s', c0, k + 1, j - 1, maxInstr, maxCycle);
    }
  }

  lemma RunsFromReset(m: Mem, j: nat, limit: nat)
    requires 0 < j && limit > j + 3
    requires forall i: nat :: 0 < i < j ==> ProcStat(Ticks(Reset(m), i).w) == AOK
    requires Ticks(Reset(m), j).w.status == HLT
    ensures var r := SimRunPipe(Loaded(m), limit, 5 * limit);
            r.status == HLT && r.sim.core == Ticks(Reset(m), j)
  {
    hide Comb, Tick;
    var s := SimStepPipe(Loaded(m), limit);
    assert s.core == Ticks(Reset(m), 0);
    assert s.wires.status == AOK by {
      CombStatus(Reset(m));
    }
    RunsTo(s, Reset(m), 0, j, limit, 5 * limit);
  }

  lemma LowByte(m: Mem, pos: nat)
    requires pos + 8 <= |m|
    ensures GetWord(m, pos).value % 256 == m[pos]
  {
    hide Little;
    assert Little(m, pos, 8) == m[pos] + 256 * Little(m, pos + 1, 7) by { LittleHead(m, pos); }
    WrapLow(Little(m, pos, 8));
  }

  lemma LittleHead(m: Mem, pos: nat)
    requires pos + 8 <= |m|
    ensures Little(m, pos, 8) == m[pos] + 256 * Little(m, pos + 1, 7)
  {
  }

  lemma WrapLow(x: int)
    ensures Wrap(x) % 256 == x % 256
  {
  }

  // ---- an operand without a base register

  /** mrmovq 8(%rbx), %rax ; mrmovq 0, %rcx ; halt */
  predicate Baseless(m: Mem) {
    && |m| == 32
    && m[0] == 0x50 && m[1] == 0x03 && m[2] == 8 && m[10] == 0x50 && m[11] == 0x1F
    && (forall i :: 3 <= i < 32 && i != 10 && i != 11 ==> m[i] == 0)
  }

  lemma Fetch0(m: Mem)
    requires Baseless(m)
    ensures Fetch(m, 0) == DReg(I_MRMOVQ, 0, 0, 3, 8, 10, AOK)
  {
    hide Little;
    SmallWord(m, 2);
  }

  lemma Fetch10(m: Mem)
    requires Baseless(m)
    ensures Fetch(m, 10) == DReg(I_MRMOVQ, 0, 1, REG_NONE, 0, 20, AOK)
  {
    hide Little;
    SmallWord(m, 12);
  }

  lemma Fetch20(m: Mem)
    requires Baseless(m)
    ensures Fetch(m, 20) == DReg(I_HALT, 0, 15, 15, 0, 21, HLT)
  {
    hide Little;
  }

  // the registers that matter, cycle by cycle

  predicate Quiet(m: Mem, c: Core) {
    && c.mem == m && c.reg == ZERO_REGS
    && c.w.status == BUB && c.w.icode == I_NOP && c.w.deste == REG_NONE && c.w.destm == REG_NONE
  }

  predicate Empty(c: MReg) {
    c.status == BUB && c.icode == I_NOP && c.deste == REG_NONE && c.destm == REG_NONE
  }

  predicate B1(m: Mem, c: Core) {
    && Quiet(m, c) && c.f.pc == 10 && c.d == Fetch(m, 0)
    && c.e == BUBBLE_E && Empty(c.m)
  }

  predicate B2(m: Mem, c: Core) {
    && Quiet(m, c) && c.f.pc == 20 && c.d == Fetch(m, 10) && Empty(c.m)
    && c.e == EReg(I_MRMOVQ, 0, 8, c.e.vala, 0, REG_NONE, 3, REG_NONE, 0, AOK)
  }

  predicate B3(m: Mem, c: Core) {
    && Quiet(m, c) && c.d == Fetch(m, 20)
    && c.e == EReg(I_MRMOVQ, 0, 0, c.e.vala, 8, REG_NONE, REG_NONE, REG_NONE, 1, AOK)
    && c.m == MReg(I_MRMOVQ, 0, true, 8, c.m.vala, REG_NONE, 0, AOK)
  }

  predicate B4(m: Mem, c: Core) {
    && c.mem == m && c.w.status == AOK && c.e.icode == I_HALT && c.e.status == HLT
    && c.m == MReg(I_MRMOVQ, 0, true, 8, c.m.vala, REG_NONE, 1, AOK)
  }

  predicate B5(m: Mem, c: Core) {
    && |m| == 32 && c.mem == m && c.w.status == AOK && c.m.icode == I_HALT && c.m.status == HLT
    && c.w.destm == 1 && c.w.deste == REG_NONE && c.w.valm == GetWord(m, 8).value
  }

  lemma Tick1(m: Mem)
    requires Baseless(m)
    ensures B1(m, Tick(Reset(m)))
  {
    hide BitAnd, BitXor, Fetch, GetWord;
    Fetch0(m);
  }

  lemma Tick2(m: Mem, c: Core)
    requires Baseless(m) && B1(m, c)
    ensures B2(m, Tick(c))
  {
    hide BitAnd, BitXor, Fetch, GetWord;
    Fetch0(m);
    Fetch10(m);
  }

  lemma Tick3(m: Mem, c: Core)
    requires Baseless(m) && B2(m, c)
    ensures B3(m, Tick(c))
  {
    hide BitAnd, BitXor, Fetch, GetWord;
    Fetch10(m);
    Fetch20(m);
  }

  lemma Tick4(m: Mem, c: Core)
    requires Baseless(m) && B3(m, c)
    ensures B4(m, Tick(c))
  {
    hide BitAnd, BitXor, Fetch, Little, Wrap;
    Fetch20(m);
  }

  lemma Tick5(m: Mem, c: Core)
    requires Baseless(m) && B4(m, c)
    ensures B5(m, Tick(c))
  {
    hide BitAnd, BitXor, Fetch, Little, ComputeAlu;
  }

  lemma Tick6(m: Mem, c: Core)
    requires Baseless(m) && B5(m, c)
    ensures Tick(c).w.status == HLT && Tick(c).reg[1] == GetWord(m, 8).value
  {
    hide BitAnd, BitXor, Fetch, Little, ComputeAlu;
  }

  lemma BaselessCycles(m: Mem)
    requires Baseless(m)
    ensures forall i: nat :: 0 < i < 6 ==> ProcStat(Ticks(Reset(m), i).w) == AOK
    ensures Ticks(Reset(m), 6).w.status == HLT && Ticks(Reset(m), 6).reg[1] == GetWord(m, 8).value
  {
    hide Tick, Reset, Fetch, GetWord, Baseless;
    var c := Reset(m);
    assert Ticks(c, 0) == c;
    Tick1(m);
    Tick2(m, Ticks(c, 1));
    Tick3(m, Ticks(c, 2));
    Tick4(m, Ticks(c, 3));
    Tick5(m, Ticks(c, 4));
    Tick6(m, Ticks(c, 5));
  }

  /** On this program the ISA loads from address 0 but the pipeline, which forwards a value for the missing base,
      loads from address 8: both halt, with different registers. */
  lemma BaselessOperandDiffers(m: Mem, limit: nat)
    requires Baseless(m) && limit >= 10
    ensures StepState(IsaAt(Start(m), 2)).stat == HLT
    ensures SimRunPipe(Loaded(m), limit, 5 * limit).status == HLT
    ensures !IsaCheckSucceeds(m, limit)
  {
    hide Comb, Little, Fetch, Tick, SimRunPipe;
    BaselessIsa(m);
    BaselessCycles(m);
    RunsFromReset(m, 6, limit);
    LowByte(m, 0);
    LowByte(m, 8);
    IsaRunFrom(Start(m), 0, 2, limit);
    IsaStart(Start(m));
  }

  lemma BaselessIsa(m: Mem)
    requires Baseless(m)
    ensures StepState(IsaAt(Start(m), 0)).stat == AOK && StepState(IsaAt(Start(m), 1)).stat == AOK
    ensures StepState(IsaAt(Start(m), 2)).stat == HLT
    ensures IsaAt(Start(m), 2).r[1] == GetWord(m, 0).value
  {
    hide Little, BitAnd, BitXor, PutBytes;
    var p := Start(m);
    IsaStep1(m);
    IsaStep2(m, Next(p));
    assert IsaAt(p, 1) == Next(p) by { IsaStart(p); NextAt(p, 0); }
    NextAt(p, 1);
  }

  lemma IsaStep1(m: Mem)
    requires Baseless(m)
    ensures StepState(Start(m)).stat == AOK && Next(Start(m)).m == m && Next(Start(m)).pc == 10
  {
    hide Little, BitAnd, BitXor, PutBytes;
    SmallWord(m, 2);
  }

  lemma IsaStep2(m: Mem, s: State)
    requires Baseless(m) && s.m == m && s.pc == 10
    ensures StepState(s).stat == AOK && Next(s).m == m && Next(s).r[1] == GetWord(m, 0).value
    ensures StepState(Next(s)).stat == HLT
  {
    hide Little, BitAnd, BitXor, PutBytes;
    SmallWord(m, 12);
  }

  // ---- a store into one of the next three instructions

  /** rmmovq %rax, 10(%rbx) ; irmovq $1, %rax ; halt -- the store clears the second instruction. */
  predicate CloseStore(m: Mem) {
    && |m| == 32
    && m[0] == 0x40 && m[1] == 0x03 && m[2] == 10 && m[10] == 0x30 && m[11] == 0xF0 && m[12] == 1
    && (forall i :: 3 <= i < 32 && !(10 <= i < 13) ==> m[i] == 0)
  }

  lemma StoreFetches(m: Mem)
    requires CloseStore(m)
    ensures Fetch(m, 0) == DReg(I_RMMOVQ, 0, 0, 3, 10, 10, AOK)
    ensures Fetch(m, 10) == DReg(I_IRMOVQ, 0, REG_NONE, 0, 1, 20, AOK)
    ensures Fetch(m, 20) == DReg(I_HALT, 0, 15, 15, 0, 21, HLT)
  {
    hide Little;
    SmallWord(m, 2);
    SmallWord(m, 12);
  }

  predicate S1(m: Mem, c: Core) {
    && Quiet(m, c) && c.f.pc == 10 && c.d == Fetch(m, 0)
    && c.e == BUBBLE_E && Empty(c.m)
  }

  predicate S2(m: Mem, c: Core) {
    && Quiet(m, c) && c.f.pc == 20 && c.d == Fetch(m, 10) && Empty(c.m)
    && c.e == EReg(I_RMMOVQ, 0, 10, 0, 0, 0, 3, REG_NONE, REG_NONE, AOK)
  }

  predicate S3(m: Mem, c: Core) {
    && Quiet(m, c) && c.d == Fetch(m, 20)
    && c.e == EReg(I_IRMOVQ, 0, 1, c.e.vala, c.e.valb, REG_NONE, REG_NONE, 0, REG_NONE, AOK)
    && c.m == MReg(I_RMMOVQ, 0, true, 10, 0, REG_NONE, REG_NONE, AOK)
  }

  predicate S4(m: Mem, c: Core) {
    && c.w.status == AOK && c.e.icode == I_HALT && c.e.status == HLT
    && c.m == MReg(I_IRMOVQ, 0, true, 1, c.m.vala, 0, REG_NONE, AOK)
  }

  predicate S5(c: Core) {
    && c.w.status == AOK && c.m.icode == I_HALT && c.m.status == HLT
    && c.w.deste == 0 && c.w.destm == REG_NONE && c.w.vale == 1
  }

  lemma StoreTick1(m: Mem)
    requires CloseStore(m)
    ensures S1(m, Tick(Reset(m)))
  {
    hide BitAnd, BitXor, Fetch, GetWord;
    StoreFetches(m);
  }

  lemma StoreTick2(m: Mem, c: Core)
    requires CloseStore(m) && S1(m, c)
    ensures S2(m, Tick(c))
  {
    hide BitAnd, BitXor, Fetch, GetWord;
    StoreFetches(m);
  }

  lemma StoreTick3(m: Mem, c: Core)
    requires CloseStore(m) && S2(m, c)
    ensures S3(m, Tick(c))
  {
    hide BitAnd, BitXor, Fetch, GetWord;
    StoreFetches(m);
  }

  lemma StoreTick4(m: Mem, c: Core)
    requires CloseStore(m) && S3(m, c)
    ensures S4(m, Tick(c))
  {
    hide BitAnd, BitXor, Fetch, Little, PutBytes;
    StoreFetches(m);
  }

  lemma StoreTick5(m: Mem, c: Core)
    requires S4(m, c)
    ensures S5(Tick(c))
  {
    hide BitAnd, BitXor, Fetch, Little, ComputeAlu;
  }

  lemma StoreTick6(c: Core)
    requires S5(c)
    ensures Tick(c).w.status == HLT && Tick(c).reg[0] == 1
  {
    hide BitAnd, BitXor, Fetch, Little, ComputeAlu;
  }

  lemma StoreCycles(m: Mem)
    requires CloseStore(m)
    ensures forall i: nat :: 0 < i < 6 ==> ProcStat(Ticks(Reset(m), i).w) == AOK
    ensures Ticks(Reset(m), 6).w.status == HLT && Ticks(Reset(m), 6).reg[0] == 1
  {
    hide Tick, Reset, Fetch, GetWord, CloseStore;
    var c := Reset(m);
    assert Ticks(c, 0) == c;
    StoreTick1(m);
    StoreTick2(m, Ticks(c, 1));
    StoreTick3(m, Ticks(c, 2));
    StoreTick4(m, Ticks(c, 3));
    StoreTick5(m, Ticks(c, 4));
    StoreTick6(Ticks(c, 5));
  }

  lemma StoreIsa(m: Mem)
    requires CloseStore(m)
    ensures StepState(Start(m)).stat == AOK && Next(Start(m)).r == ZERO_REGS
    ensures StepState(Next(Start(m))).stat == HLT
  {
    hide Little, BitAnd, BitXor, PutBytes;
    SmallWord(m, 2);
    var s := Next(Start(m));
    assert s.m == PutBytes(m, 10, 8, 0) && s.pc == 10;
    FirstPut(m, 10, 8, 0);
  }

  lemma FirstPut(m: seq<Byte>, pos: nat, n: nat, v: int)
    requires 0 < n && pos + n <= |m|
    ensures PutBytes(m, pos, n, v)[pos] == v % 256
  {
  }

  /** On this program the ISA halts right after the store, on the bytes just written; the pipeline, which has already
      fetched the old instruction, executes it. */
  lemma CloseStoreDiffers(m: Mem, limit: nat)
    requires CloseStore(m) && limit >= 10
    ensures StepState(IsaAt(Start(m), 1)).stat == HLT
    ensures SimRunPipe(Loaded(m), limit, 5 * limit).status == HLT
    ensures !IsaCheckSucceeds(m, limit)
  {
    hide Comb, Little, Fetch, Tick, SimRunPipe, StepState;
    StoreIsa(m);
    StoreCycles(m);
    RunsFromReset(m, 6, limit);
    IsaStart(Start(m));
    NextAt(Start(m), 0);
    IsaRunFrom(Start(m), 0, 1, limit);
  }

  // ---- a program without a base register that meets every hypothesis

  /** nop ; mrmovq 1, %rcx ; halt */
  predicate BaselessBehindNop(m: Mem) {
    |m| >= 17 && m[0] == 0x10 && m[1] == 0x50 && m[2] == 0x1F && m[3] == 1 && forall i :: 4 <= i < 12 ==> m[i] == 0
  }

  lemma BehindNopIsa(m: Mem)
    requires BaselessBehindNop(m)
    ensures var p := Start(m);
            && StepState(p).stat == AOK && Next(p) == p.(pc := 1)
            && StepState(Next(p)).stat == AOK && Next(Next(p)).m == m && Next(Next(p)).pc == 11
            && StepState(Next(Next(p))).stat == HLT
            && Fetchable(p) && Fetchable(Next(p)) && Fetchable(Next(Next(p)))
  {
    hide Little, BitAnd, BitXor, PutBytes;
    SmallWord(m, 3);
  }

  lemma BehindNopStages(m: Mem)
    requires BaselessBehindNop(m)
    ensures var p := Start(m);
            && !ReadsMissing(p) && ReadsMissing(Next(p)) && !ReadsMissing(Next(Next(p)))
            && MOf(p).deste == REG_NONE && MOf(p).vale == 0 && !MemWrite(MOf(p)) && !MemWrite(MOf(Next(p)))
            && !LoadThenUse(p, Next(p)) && !NotTaken(p) && !IsRet(p)
            && !LoadThenUse(Next(p), Next(Next(p))) && !NotTaken(Next(p)) && !IsRet(Next(p))
  {
    hide Little, BitAnd, BitXor, PutBytes, StepState;
    SmallWord(m, 3);
    BehindNopIsa(m);
    assert Fetch(m, 0) == DReg(I_NOP, 0, 15, 15, 0, 1, AOK);
    assert Fetch(m, 1) == DReg(I_MRMOVQ, 0, 1, REG_NONE, 1, 11, AOK);
    assert Fetch(m, 11).icode == I_HALT;
  }

  /** The instruction behind a nop may do without a base register: what the nop forwards for it is 0, so the program
      meets the hypotheses of the refinement theorem. */
  lemma BaselessBehindNopRefines(m: Mem, limit: nat)
    requires BaselessBehindNop(m) && limit > 6
    ensures ReadsMissing(IsaAt(Start(m), 1)) && HaltsAt(Start(m), 2)
    ensures SimRunPipe(Loaded(m), limit, 5 * limit).status == HLT && IsaCheckSucceeds(m, limit)
  {
    hide StepState, PStat, Fetchable, SimRunPipe, LoadThenUse, NotTaken, IsRet, IsaCheckSucceeds, ReadsMissing, MOf,
         Next, MissingAt, FetchFits, Stop, DOf;
    var p := Start(m);
    BehindNopIsa(m);
    BehindNopStages(m);
    IsaStart(p);
    NextAt(p, 0);
    NextAt(p, 1);
    assert Retire(p, 0) == 4 && Penalty(p, 0) == 0;
    assert Retire(p, 1) == 5 && Penalty(p, 1) == 0;
    assert Retire(p, 2) == 6;
    assert Completes(p, 2);
    RetiredIs(p, 0, 1);
    MissingTold(p, 2, 1);
    forall k: nat | k <= 2
      ensures Fits(p, k)
    {
      forall j: nat | j < k <= j + 3 && Retire(p, j) > FetchCycle(p, k)
        ensures StoreMisses(IsaAt(p, j), IsaAt(p, k))
      {
        assert j == 0 || j == 1;
      }
      MissingStoresFit(p, 2, k);
    }
    PipeRefinesIsa(m, 2, limit);
  }
}
