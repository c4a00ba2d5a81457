/** A pipelined run followed along the ISA run, with the exact cycle at which each instruction retires. */
module PipeTrace {
  import opened Words
  import opened Memory
  import opened Isa
  import opened IsaTrace
  import opened PipeControl
  import opened PipeCore
  import opened PipeStaged
  import opened PipeChain
  import opened PipeStep

  // ---- stores and fetches

  function InstrLen(icode: Nibble): nat {
    1 + (if FNeedRegids(icode) then 1 else 0) + (if FNeedValC(icode) then 8 else 0)
  }

  /** The instruction at s does not store into the bytes of the instruction at s'. */
  predicate StoreMisses(s: State, s': State) {
    var m := MOf(s);
    MemWrite(m) ==> MemAddr(m) + 8 <= s'.pc || s'.pc + InstrLen(DOf(s').icode) <= MemAddr(m)
  }

  lemma WordDependsOnRange(m: Mem, m': Mem, pos: Word)
    requires |m| == |m'|
    requires forall i :: pos <= i < pos + 8 && 0 <= i < |m| ==> m[i] == m'[i]
    ensures GetWord(m, pos) == GetWord(m', pos)
  {
    if 0 <= pos && pos + 8 <= |m| {
      LittleDependsOnRange(m, m', pos, 8);
    }
  }

  lemma NoOperands()
    ensures !FNeedRegids(I_NOP) && !FNeedValC(I_NOP)
  {
  }

  // ---- the bytes that decide a fetch

  /** Where the bytes end that a fetch at pc reads: a constant that runs past the end of memory is not read. */
  function CodeEnd(m: Mem, pc: Word): int {
    var icode := Fetch(m, pc).icode;
    if GetByte(m, pc).None? || GetByte(m, Wrap(pc + FETCH_PROBE)).None? then pc
    else if FNeedValC(icode) && pc + InstrLen(icode) > |m| then pc + InstrLen(icode) - 8
    else pc + InstrLen(icode)
  }

  /** The bytes that a fetch at pc reads from m' are the same in m. */
  predicate SameCode(m: Mem, m': Mem, pc: Word) {
    |m| == |m'| && forall i :: pc <= i < CodeEnd(m', pc) && 0 <= i < |m| ==> m[i] == m'[i]
  }

  lemma {:induction false} LittleBound(m: seq<Byte>, pos: nat, n: nat)
    requires pos + n <= |m|
    ensures Little(m, pos, n) < Pow256(n)
    decreases n
  {
    if n > 0 {
      LittleBound(m, pos + 1, n - 1);
    }
  }

  lemma {:induction false} LittleInjective(m: seq<Byte>, m': seq<Byte>, pos: nat, n: nat)
    requires pos + n <= |m| == |m'| && Little(m, pos, n) == Little(m', pos, n)
    ensures forall i :: pos <= i < pos + n ==> m[i] == m'[i]
    decreases n
  {
    if n > 0 {
      LittleInjective(m, m', pos + 1, n - 1);
    }
  }

  lemma WordInjective(m: Mem, m': Mem, pos: Word)
    requires |m| == |m'| && GetWord(m, pos) == GetWord(m', pos) && GetWord(m, pos).Some?
    ensures forall i :: pos <= i < pos + 8 ==> m[i] == m'[i]
  {
    hide Pow256, Little;
    LittleBound(m, pos, 8);
    LittleBound(m', pos, 8);
    EightBytes();
    LittleInjective(m, m', pos, 8);
  }

  lemma ByteInjective(a: Byte, b: Byte)
    requires Hi4(a) == Hi4(b) && Lo4(a) == Lo4(b)
    ensures a == b
  {
  }

  /** Two memories give the same instruction at pc if and only if they agree on the bytes it is read from. */
  lemma FetchExact(m: Mem, m': Mem, pc: Word)
    requires |m| == |m'|
    ensures Fetch(m, pc) == Fetch(m', pc) <==> SameCode(m, m', pc)
  {
    hide GetWord, Little, FStat, FNeedRegids, FNeedValC, Hi4, Lo4, Wrap;
    if Fetch(m, pc) == Fetch(m', pc) {
      SameFetchSameCode(m, m', pc);
    }
    if SameCode(m, m', pc) {
      SameCodeSameFetch(m, m', pc);
    }
  }

  lemma SameFetchSameCode(m: Mem, m': Mem, pc: Word)
    requires |m| == |m'| && Fetch(m, pc) == Fetch(m', pc)
    ensures SameCode(m, m', pc)
  {
    hide Little, FStat, FNeedRegids, FNeedValC, Hi4, Lo4;
    var icode := Fetch(m', pc).icode;
    if GetByte(m', pc).Some? && GetByte(m', Wrap(pc + FETCH_PROBE)).Some? {
      assert Wrap(pc + 1) == pc + 1 && Wrap(pc + 2) == pc + 2;
      assert pc + 1 < |m|;
      ByteInjective(m[pc], m'[pc]);
      if FNeedRegids(icode) {
        ByteInjective(m[pc + 1], m'[pc + 1]);
      }
      var p2 := pc + InstrLen(icode) - 8;
      if FNeedValC(icode) && pc + InstrLen(icode) <= |m| {
        WordInjective(m, m', p2);
      }
    }
  }

  lemma SameCodeSameFetch(m: Mem, m': Mem, pc: Word)
    requires SameCode(m, m', pc)
    ensures Fetch(m, pc) == Fetch(m', pc)
  {
    hide Little, FStat, FNeedRegids, FNeedValC, Hi4, Lo4;
    var icode := Fetch(m', pc).icode;
    if GetByte(m', pc).Some? && GetByte(m', Wrap(pc + FETCH_PROBE)).Some? {
      assert Wrap(pc + 1) == pc + 1 && Wrap(pc + 2) == pc + 2;
      assert pc + 1 < |m|;
      assert m[pc] == m'[pc];
      var p2 := pc + InstrLen(icode) - 8;
      if FNeedValC(icode) && pc + InstrLen(icode) <= |m| {
        WordDependsOnRange(m, m', p2);
      }
    } else {
      NoOperands();
    }
  }

  lemma SlotMemory(s: State, s': State)
    requires Good(s) && !Stop(s) && StoreMisses(s, s')
    ensures |Next(s).m| == |s.m|
    ensures forall i :: s'.pc <= i < CodeEnd(s'.m, s'.pc) && 0 <= i < |s.m| ==> s.m[i] == Next(s).m[i]
  {
    hide StepState, Fetch, EOf, MOf, WOf, MemAddr, MemWrite, FNeedRegids, FNeedValC;
    StopFacts(s);
    StagesCompute(s);
  }

  /** The fetch of a cycle, from the right address, gives the instruction that the ISA will execute if and only if the
      stores still in flight leave its bytes as they are. */
  lemma FetchCoherent(c: Core, g: Chain)
    requires Holds(c, g) && |g.sm.m| == |g.sf.m|
    ensures Fetch(c.mem, g.sf.pc) == DOf(g.sf) <==> SameCode(g.sm.m, g.sf.m, g.sf.pc)
  {
    hide Fetch, SameCode;
    FetchExact(c.mem, g.sf.m, g.sf.pc);
  }
}
