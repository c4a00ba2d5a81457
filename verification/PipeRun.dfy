/** `sim_step_pipe` and `sim_run_pipe` as functions of the simulator's state between two steps. */
module PipeRun {
  import opened Words
  import opened Memory
  import opened Isa
  import opened IsaTrace
  import opened PipeControl
  import opened PipeCore

  /** The simulator between two steps: the registers, what the stages left pending, and the performance counters. */
  datatype Sim = Sim(core: Core, wires: Wires, cycles: int, instructions: int, startingUp: bool)

  const RESET_WIRES: Wires :=
    Wires(BUBBLE_F, BUBBLE_D, BUBBLE_E, BUBBLE_M, BUBBLE_W, REG_NONE, 0, REG_NONE, 0, false, 0, 0, DEFAULT_CC, AOK,
          Load, Load, Load, Load, Load)

  /** The simulator after `sim_reset`, with a program loaded. */
  function Loaded(mem: Mem): Sim {
    Sim(Reset(mem), RESET_WIRES, 0, 0, true)
  }

  /** Performance monitoring at the end of a step. */
  function Count(s: Sim): Sim {
    if s.core.w.status != BUB && s.core.w.icode != I_POP2 then
      s.(startingUp := false, instructions := s.instructions + 1, cycles := s.cycles + 1)
    else if !s.startingUp then s.(cycles := s.cycles + 1)
    else s
  }

  function SimStepPipe(s: Sim, maxInstr: int): Sim {
    var core := Clock(s.core, s.wires, AheadMem(s.core) < maxInstr, AheadEx(s.core, s.wires) < maxInstr);
    Count(s.(core := core, wires := Comb(core)))
  }

  datatype RunResult = RunResult(sim: Sim, icount: int, status: Stat)

  /** The loop of `sim_run_pipe`, from given counts on. */
  function SimRunFrom(s: Sim, maxInstr: int, maxCycle: int, icount: int, ccount: int, status: Stat): RunResult
    decreases maxCycle - ccount
  {
    if !(icount < maxInstr && ccount < maxCycle) then RunResult(s, icount, status)
    else
      var s' := SimStepPipe(s, maxInstr - icount);
      var status' := s'.wires.status;
      var icount' := if status' != BUB then icount + 1 else icount;
      if status' != AOK && status' != BUB then RunResult(s', icount', status')
      else SimRunFrom(s', maxInstr, maxCycle, icount', ccount + 1, status')
  }

  function SimRunPipe(s: Sim, maxInstr: int, maxCycle: int): RunResult {
    SimRunFrom(s, maxInstr, maxCycle, 0, 0, AOK)
  }

  /** n steps, the instruction budget falling by one each time. */
  function Steps(s: Sim, maxInstr: int, n: nat): Sim
    decreases n
  {
    if n == 0 then s else Steps(SimStepPipe(s, maxInstr), maxInstr - 1, n - 1)
  }

  /** The count that `sim_run_pipe` returns as completed instructions is the number of cycles it ran: the status
      of a bubble is reported as AOK, so bubbles are counted too. */
  lemma {:induction false} InstructionCountIsCycleCount(s: Sim, maxInstr: int, maxCycle: int, icount: int, ccount: int,
                                                        status: Stat)
    ensures var r := SimRunFrom(s, maxInstr, maxCycle, icount, ccount, status);
            r.icount >= icount && r.sim == Steps(s, maxInstr - icount, r.icount - icount)
    decreases maxCycle - ccount
  {
    hide Clock, Comb, Count;
    if icount < maxInstr && ccount < maxCycle {
      var s' := SimStepPipe(s, maxInstr - icount);
      StatusNeverBubble(s, maxInstr - icount);
      if s'.wires.status == AOK {
        InstructionCountIsCycleCount(s', maxInstr, maxCycle, icount + 1, ccount + 1, AOK);
      } else {
        assert Steps(s, maxInstr - icount, 1) == Steps(s', maxInstr - icount - 1, 0);
      }
    }
  }

  lemma StatusNeverBubble(s: Sim, maxInstr: int)
    ensures SimStepPipe(s, maxInstr).wires.status != BUB
  {
    hide Clock, FetchStage, ExStage, MemStage, ExCc, IdStage;
  }
}
