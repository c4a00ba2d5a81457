/** The timing theorem of PIPE told by the bytes of the instructions: what costs a cycle, and where fetching ends. */
module PipeMeaning {
  import opened Words
  import opened Memory
  import opened Isa
  import opened IsaTrace
  import opened PipeControl
  import opened PipeCore
  import opened PipeStaged
  import opened PipeChain
  import opened PipeTheorem
  import opened PipeRun
  import opened PipeCorrect

  /** Six bytes at the pc are memory. */
  predicate SixBytes(s: State) { 0 <= s.pc && s.pc + 6 <= |s.m| }

  /** The halves of the first two bytes at the pc. */
  function Code(s: State): (c: Nibble)
    requires SixBytes(s)
  {
    s.m[s.pc] / 16
  }

  function Fun(s: State): Nibble
    requires SixBytes(s)
  {
    s.m[s.pc] % 16
  }

  function RegA(s: State): Nibble
    requires SixBytes(s)
  {
    s.m[s.pc + 1] / 16
  }

  function RegB(s: State): Nibble
    requires SixBytes(s)
  {
    s.m[s.pc + 1] % 16
  }

  /** The registers that the instruction at the pc reads: the stack address for `call`, `ret`, `pushq` and `popq`. */
  function Reads(s: State): set<Nibble>
    requires SixBytes(s)
  {
    match Code(s)
    case 2 => {RegA(s)}
    case 4 => {RegA(s), RegB(s)}
    case 5 => {RegB(s)}
    case 6 => {RegA(s), RegB(s)}
    case 8 => {4}
    case 9 => {4}
    case 10 => {RegA(s), 4}
    case 11 => {4}
    case 12 => {RegB(s)}
    case _ => {}
  }

  lemma FetchableTold(s: State)
    ensures Fetchable(s) <==> SixBytes(s)
  {
  }

  lemma FetchedTold(s: State)
    requires SixBytes(s)
    ensures DOf(s).icode == Code(s) && DOf(s).ifun == Fun(s)
    ensures FNeedRegids(Code(s)) ==> DOf(s).ra == RegA(s) && DOf(s).rb == RegB(s)
    ensures !FNeedRegids(Code(s)) ==> DOf(s).ra == 15 && DOf(s).rb == 15
  {
    hide GetWord;
  }

  /** A load whose register the next instruction reads: `mrmovq` or `popq`, then any instruction that reads it. */
  predicate LoadsForNext(s: State, s': State)
    requires SixBytes(s) && SixBytes(s')
  {
    (Code(s) == 5 || Code(s) == 11) && RegA(s) in Reads(s')
  }

  lemma LoadUseTold(s: State, s': State)
    requires SixBytes(s) && SixBytes(s') && StepState(s).stat == AOK
    ensures LoadThenUse(s, s') <==> LoadsForNext(s, s')
  {
    hide DOf, GetReg, StepState, Code, Fun, RegA, RegB;
    FetchedTold(s);
    FetchedTold(s');
    FetchableTold(s);
    if Code(s) == 5 || Code(s) == 11 {
      RealRegister(s);
    }
  }

  lemma RealRegister(s: State)
    requires SixBytes(s) && StepState(s).stat == AOK && (Code(s) == 5 || Code(s) == 11)
    ensures RegA(s) < 15
  {
    hide GetWord, SetReg, GetReg;
  }

  /** A jump whose condition does not hold. */
  predicate JumpsNot(s: State)
    requires SixBytes(s)
  {
    Code(s) == 7 && !CondHolds(s.cc, Fun(s))
  }

  lemma NotTakenTold(s: State)
    requires SixBytes(s)
    ensures NotTaken(s) <==> JumpsNot(s)
    ensures IsRet(s) <==> Code(s) == 9
  {
    hide DOf, CondHolds, ComputeAlu, Code, Fun;
    FetchedTold(s);
  }

  /** The cycles that the instruction at s costs beyond the first, when s' is next. */
  function Extra(s: State, s': State): nat
    requires SixBytes(s) && SixBytes(s')
  {
    (if LoadsForNext(s, s') then 1 else 0) + (if JumpsNot(s) then 2 else 0) + if Code(s) == 9 then 3 else 0
  }

  /** The first n + 1 instructions lie in the memory with six bytes each. */
  ghost predicate AllSixBytes(s: State, n: nat) { forall k: nat :: k <= n ==> SixBytes(IsaAt(s, k)) }

  ghost function Extras(s: State, n: nat): nat
    requires AllSixBytes(s, n)
  {
    if n == 0 then 0 else Extras(s, n - 1) + Extra(IsaAt(s, n - 1), IsaAt(s, n))
  }

  lemma {:induction false} ExtrasAre(s: State, n: nat)
    requires AllSixBytes(s, n) && forall k: nat :: k < n ==> StepState(IsaAt(s, k)).stat == AOK
    ensures LoadUses(s, n) + 2 * NotTakens(s, n) + 3 * Rets(s, n) == Extras(s, n)
  {
    hide StepState, IsaAt, LoadThenUse, NotTaken, IsRet, Code, JumpsNot, LoadsForNext;
    if n > 0 {
      ExtrasAre(s, n - 1);
      LoadUseTold(IsaAt(s, n - 1), IsaAt(s, n));
      NotTakenTold(IsaAt(s, n - 1));
    }
  }

  /** THE TIMING OF PIPE, told by the bytes: a halting run of n + 1 instructions that all keep six bytes clear of the end of
      memory ends like the ISA run, and takes n + 1 cycles from the first retirement on, plus one for every `mrmovq` and
      `popq` whose register the next instruction reads, two for every jump not taken and three for every `ret`. */
  lemma CyclesTold(mem: Mem, n: nat, instrLimit: nat)
    requires HaltsAt(Start(mem), n) && AllSixBytes(Start(mem), n) && instrLimit > 4 + n + Extras(Start(mem), n)
    ensures var r := SimRunPipe(Loaded(mem), instrLimit, 5 * instrLimit);
            && r.status == HLT && IsaCheckSucceeds(mem, instrLimit)
            && r.sim.instructions == n + 1 && r.sim.cycles == n + 1 + Extras(Start(mem), n)
  {
    hide StepState, IsaAt, Fits, SimRunPipe, Retire, LoadUses, NotTakens, Rets, Fetchable, SixBytes, IsaCheckSucceeds, Extras;
    forall k: nat | k <= n
      ensures Fetchable(IsaAt(Start(mem), k))
    {
      FetchableTold(IsaAt(Start(mem), k));
    }
    ExtrasAre(Start(mem), n);
    RetireCloses(Start(mem), n);
    PipeRefinesIsa(mem, n, instrLimit);
    CyclesExact(mem, n, instrLimit);
  }
}
