/** The two-instruction CPU of src/q10.rs: `noop` takes one cycle, `addx V` takes two
    and then adds `V` to register X. The emulator runs one instruction at a time
    from a FIFO queue and accumulates the signal strength (register times cycle) at
    cycles 20, 60, 100, ...; the screen lights a pixel when the three-wide sprite
    centred on X covers the column being drawn. */
module Cpu {
  import opened Wrappers
  import opened Strings
  import Numbers

  datatype Operation = Add(amount: int) | Noop

  /** An instruction with the number of cycles it still needs. */
  datatype Instruction = Instruction(numCycles: nat, operation: Operation)

  /** `Instruction::from`: `noop` takes one cycle; any other line must have a second
      space-separated field holding an `i64` and becomes a two-cycle add.
      `None` where the source panics. */
  function ParseInstruction(line: string): Option<Instruction> {
    if line == "noop" then Some(Instruction(1, Noop))
    else
      var chunks := Split(line, ' ');
      if |chunks| < 2 then None
      else match ParseIntIn(chunks[1], I64Min, I64Limit)
        case None => None
        case Some(v) => Some(Instruction(2, Add(v)))
  }

  lemma ParseNoop()
    ensures ParseInstruction("noop") == Some(Instruction(1, Noop))
  {
  }

  /** `addx V` written out parses back to a two-cycle add of `V` when `V` fits in an `i64`,
      and panics (`None`) when it does not. */
  lemma ParseAddx(v: int)
    ensures ParseInstruction("addx " + ShowInt(v))
      == (if I64Min <= v < I64Limit then Some(Instruction(2, Add(v))) else None)
  {
    var line := "addx " + ShowInt(v);
    var digits := ShowInt(v);
    assert ' ' !in digits by {
      var n: nat := if v < 0 then -v else v;
      var d := ShowNat(n);
      forall k | 0 <= k < |d| ensures d[k] != ' ' { assert IsDigit(d[k]); }
      assert v < 0 ==> digits == "-" + d;
    }
    assert line == Join(["addx", digits], ' ');
    SplitJoin(["addx", digits], ' ');
    assert line != "noop" by { assert |line| > 4; }
    ParseShowIntIn(v, I64Min, I64Limit);
  }

  /** The emulator's state: the pending queue, the cycle counter, the in-flight
      instruction with its countdown, register X and the accumulated signal strength. */
  datatype CpuState = CpuState(
    queue: seq<Instruction>,
    cycle: nat,
    current: Option<Instruction>,
    x: int,
    signal: int)

  const Initial := CpuState([], 1, None, 1, 0)

  /** Every instruction still has a cycle to run (the countdown is unsigned and never
      decremented below one), and cycles are counted from 1. */
  predicate ValidCpu(s: CpuState) {
    s.cycle >= 1
    && (s.current.Some? ==> s.current.value.numCycles >= 1)
    && forall i :: 0 <= i < |s.queue| ==> s.queue[i].numCycles >= 1
  }

  /** The signal is sampled when the cycle counter reaches 20 or 20 plus a multiple of 40. */
  predicate Sampled(cycle: nat) {
    cycle == 20 || (cycle > 20 && (cycle - 20) % 40 == 0)
  }

  lemma SampledIsRemainder(cycle: nat)
    ensures Sampled(cycle) <==> cycle % 40 == 20
  {
  }

  /** `insert_instructions`: append to the queue, then fill an empty in-flight slot from
      the front of the queue. */
  function Insert(s: CpuState, instructions: seq<Instruction>): (r: CpuState)
    ensures r.cycle == s.cycle && r.x == s.x && r.signal == s.signal
    ensures s.current.Some? ==> r.current == s.current && r.queue == s.queue + instructions
    ensures s.current.None? && s.queue + instructions != [] ==>
      r.current == Some((s.queue + instructions)[0]) && r.queue == (s.queue + instructions)[1..]
    ensures s.current.None? && s.queue + instructions == [] ==> r == s
  {
    var q := s.queue + instructions;
    if s.current.None? && q != [] then s.(queue := q[1..], current := Some(q[0]))
    else s.(queue := q)
  }

  /** `execute_clock_cycle`: count the in-flight instruction down; when it reaches zero,
      apply it and take the next one from the queue; then advance the cycle and sample. */
  function Tick(s: CpuState): CpuState
    requires ValidCpu(s)
  {
    var (current, x, refill) :=
      match s.current
      case None => (s.current, s.x, false)
      case Some(ins) =>
        var left := ins.numCycles - 1;
        if left == 0 then
          (Some(ins.(numCycles := 0)), match ins.operation case Add(v) => s.x + v case Noop => s.x, true)
        else (Some(ins.(numCycles := left)), s.x, false);
    var (current', queue') :=
      if refill then (if s.queue == [] then (None, []) else (Some(s.queue[0]), s.queue[1..]))
      else (current, s.queue);
    var cycle := s.cycle + 1;
    CpuState(queue', cycle, current', x, if Sampled(cycle) then s.signal + x * cycle else s.signal)
  }

  /** A tick keeps the emulator well formed and advances the cycle by exactly one. */
  lemma TickValid(s: CpuState)
    requires ValidCpu(s)
    ensures ValidCpu(Tick(s)) && Tick(s).cycle == s.cycle + 1
  {
  }

  /** The register changes only on the tick where the in-flight instruction's countdown
      runs out, and then only by that instruction's amount; a `noop` or an empty slot
      leave it alone. */
  lemma TickRegister(s: CpuState)
    requires ValidCpu(s)
    ensures var finishing := s.current.Some? && s.current.value.numCycles == 1;
      Tick(s).x == if finishing && s.current.value.operation.Add? then s.x + s.current.value.operation.amount else s.x
    ensures var finishing := s.current.Some? && s.current.value.numCycles == 1;
      finishing ==> (Tick(s).queue == (if s.queue == [] then [] else s.queue[1..])
                     && Tick(s).current == (if s.queue == [] then None else Some(s.queue[0])))
    ensures s.current.Some? && s.current.value.numCycles > 1 ==>
      Tick(s).queue == s.queue && Tick(s).current == Some(s.current.value.(numCycles := s.current.value.numCycles - 1))
  {
  }

  /** The signal grows by register times cycle exactly when the new cycle is 20 more
      than a multiple of 40, and is unchanged otherwise. */
  lemma TickSignal(s: CpuState)
    requires ValidCpu(s)
    ensures Tick(s).signal == s.signal + if (s.cycle + 1) % 40 == 20 then Tick(s).x * (s.cycle + 1) else 0
  {
    SampledIsRemainder(s.cycle + 1);
  }

  /** With nothing in flight a tick only advances the clock (and samples the signal at
      a sampling cycle): register, queue and slot are unchanged. */
  lemma IdleTick(s: CpuState)
    requires ValidCpu(s) && s.current.None?
    ensures Tick(s).x == s.x && Tick(s).queue == s.queue && Tick(s).current == None
    ensures !Sampled(s.cycle + 1) ==> Tick(s).signal == s.signal
  {
  }

  /** An `addx V` that has just been taken up needs two ticks: after the first the register
      is unchanged, after the second it has grown by `V` and the next instruction is in
      flight. A `noop` finishes in one tick and never changes the register. */
  lemma AddxTakesTwoTicks(s: CpuState, v: int)
    requires ValidCpu(s) && s.current == Some(Instruction(2, Add(v)))
    ensures Tick(s).x == s.x
    ensures ValidCpu(Tick(s)) && Tick(Tick(s)).x == s.x + v
    ensures Tick(Tick(s)).current == (if s.queue == [] then None else Some(s.queue[0]))
  {
  }

  lemma NoopTakesOneTick(s: CpuState)
    requires ValidCpu(s) && s.current == Some(Instruction(1, Noop))
    ensures Tick(s).x == s.x
    ensures Tick(s).current == (if s.queue == [] then None else Some(s.queue[0]))
  {
  }

  /** The screen's pixel test inside `draw_crt_pixel`: the pixel in the column being
      drawn during `cycle` is lit when X is that column or one of its neighbours. */
  function Lit(x: int, cycle: nat): (lit: bool)
    requires cycle >= 1
    ensures lit <==> Numbers.Abs(x - (cycle - 1) % 40) <= 1
  {
    var column := (cycle - 1) % 40;
    x == column || x + 1 == column || x - 1 == column
  }

  /** A sprite centred left of column -1 or right of column 40 never lights a pixel. */
  lemma OffscreenSpriteIsDark(x: int, cycle: nat)
    requires cycle >= 1 && (x < -1 || x > 40)
    ensures !Lit(x, cycle)
  {
  }

  /** The emulator (`CpuEmulator`). */
  class CpuEmulator {
    var instructions: seq<Instruction>
    var currentCycle: nat
    var currentInstruction: Option<Instruction>
    var registerX: int
    var signalStrength: int

    ghost function State(): CpuState
      reads this
    {
      CpuState(instructions, currentCycle, currentInstruction, registerX, signalStrength)
    }

    /** `CpuEmulator::default`: cycle 1, register 1, no signal, nothing queued or in flight. */
    constructor Default()
      ensures State() == Initial && ValidCpu(State())
    {
      instructions := [];
      currentCycle := 1;
      currentInstruction := None;
      registerX := 1;
      signalStrength := 0;
    }

    function GetCurrentCycle(): (c: nat)
      reads this
      ensures c == State().cycle
    {
      currentCycle
    }

    function GetSignalStrength(): (s: int)
      reads this
      ensures s == State().signal
    {
      signalStrength
    }

    /** `has_instructions`: whether the pending queue is non-empty; the in-flight slot is
        not looked at. */
    function HasInstructions(): (b: bool)
      reads this
      ensures b <==> State().queue != []
    {
      |instructions| > 0
    }

    method InsertInstructions(newInstructions: seq<Instruction>)
      requires ValidCpu(State())
      requires forall i :: 0 <= i < |newInstructions| ==> newInstructions[i].numCycles >= 1
      modifies this
      ensures State() == Insert(old(State()), newInstructions) && ValidCpu(State())
    {
      instructions := instructions + newInstructions;
      if currentInstruction.None? && |instructions| > 0 {
        currentInstruction := Some(instructions[0]);
        instructions := instructions[1..];
      }
    }

    method ExecuteClockCycle()
      requires ValidCpu(State())
      modifies this
      ensures State() == Tick(old(State())) && ValidCpu(State())
    {
      var nextInstruction := false;
      if currentInstruction.Some? {
        var ins := currentInstruction.value;
        ins := ins.(numCycles := ins.numCycles - 1);
        currentInstruction := Some(ins);
        if ins.numCycles == 0 {
          match ins.operation {
            case Add(amount) => registerX := registerX + amount;
            case Noop =>
          }
          nextInstruction := true;
        }
      }
      if nextInstruction {
        if |instructions| > 0 {
          currentInstruction := Some(instructions[0]);
          instructions := instructions[1..];
        } else {
          currentInstruction := None;
        }
      }
      currentCycle := currentCycle + 1;
      if currentCycle == 20 || (currentCycle > 20 && (currentCycle - 20) % 40 == 0) {
        signalStrength := signalStrength + registerX * currentCycle;
      }
      TickValid(old(State()));
    }

    /** The driving loop of the puzzle and its test: tick while instructions are queued
        and the cycle is below `limit`. */
    method RunUntil(limit: nat)
      requires ValidCpu(State())
      modifies this
      ensures ValidCpu(State()) && State() == Drive(old(State()), limit)
      ensures State().queue == [] || State().cycle >= limit
    {
      while HasInstructions() && GetCurrentCycle() < limit
        invariant ValidCpu(State())
        invariant Drive(State(), limit) == Drive(old(State()), limit)
        decreases limit - currentCycle
      {
        ExecuteClockCycle();
      }
    }
  }

  /** The state after ticking while instructions are queued and the cycle is below `limit`. */
  function Drive(s: CpuState, limit: nat): (r: CpuState)
    requires ValidCpu(s)
    ensures ValidCpu(r)
    ensures r.queue == [] || r.cycle >= limit
    ensures r.cycle >= s.cycle
    decreases limit - s.cycle
  {
    if s.queue != [] && s.cycle < limit then
      TickValid(s);
      Drive(Tick(s), limit)
    else s
  }
}
