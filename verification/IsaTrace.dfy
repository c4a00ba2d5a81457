/** Runs of the ISA interpreter. */
module IsaTrace {
  import opened Words
  import opened Memory
  import opened Isa

  const ZERO_REGS: Regs := [0, 0, 0, 0, 0, 0, 0, 0, 0, 0, 0, 0, 0, 0, 0]

  /** The state in which every simulator starts a program. */
  function Start(mem: Mem): State { State(0, ZERO_REGS, mem, DEFAULT_CC) }

  function Next(s: State): State {
    StepState(s).state
  }

  /** The ISA state after k instructions from s. */
  function IsaAt(s: State, k: nat): State {
    if k == 0 then s else Next(IsaAt(s, k - 1))
  }

  /** The ISA reference run of the check: step until the status is not AOK or the limit is reached. */
  function IsaRun(s: State, limit: nat): Outcome
    decreases limit
  {
    if limit == 0 then Outcome(s, AOK)
    else
      var o := StepState(s);
      if o.stat == AOK then IsaRun(o.state, limit - 1) else o
  }

  lemma NextAt(s: State, k: nat)
    ensures IsaAt(s, k + 1) == Next(IsaAt(s, k))
  {
  }

  lemma IsaStart(p: State)
    ensures IsaAt(p, 0) == p
  {
  }

  lemma {:induction false} IsaRunCompletes(s: State, k: nat, limit: nat)
    requires forall j: nat :: j < k + limit ==> StepState(IsaAt(s, j)).stat == AOK
    ensures IsaRun(IsaAt(s, k), limit) == Outcome(IsaAt(s, k + limit), AOK)
    decreases limit
  {
    hide StepState;
    if limit > 0 {
      NextAt(s, k);
      IsaRunCompletes(s, k + 1, limit - 1);
    }
  }

  lemma {:induction false} IsaRunFrom(s: State, k: nat, n: nat, limit: nat)
    requires k <= n < k + limit
    requires forall j: nat :: j < n ==> StepState(IsaAt(s, j)).stat == AOK
    requires StepState(IsaAt(s, n)).stat == HLT
    ensures IsaRun(IsaAt(s, k), limit) == Outcome(IsaAt(s, n), HLT)
    decreases n - k
  {
    hide StepState;
    if k == n {
      HaltChangesNothing(IsaAt(s, n));
    } else {
      NextAt(s, k);
      IsaRunFrom(s, k + 1, n, limit - 1);
    }
  }

  lemma HaltChangesNothing(s: State)
    requires StepState(s).stat == HLT
    ensures StepState(s).state == s
  {
    hide ComputeAlu, ComputeCC, CondHolds, GetWord, SetWord;
  }
}
