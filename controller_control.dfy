/**
 The controller control block of the FPGA experiment controller: a purely
 combinational function that, on every evaluation, reads the host command
 opcode, the readiness of the receive and transmit buffers, the cycle mode and
 the controller reset, and drives the dequeue strobe, the stall flag, the
 experiment write-enable and reset, the response opcode and the three
 run-control pulses.
 */
module ControllerControl {
  import opened Catalog

  /** A reset line: its current level and the level at which it counts as asserted. */
  datatype Reset = Reset(value: bool, active: bool)

  /** The inputs sampled on one evaluation. */
  datatype Inputs = Inputs(
    opcodeCmd: nat,
    rxReady: bool,
    txReady: bool,
    cycleAutonomous: bool,
    reset: Reset)

  /** The outputs driven by one evaluation. */
  datatype Outputs = Outputs(
    opcodeRes: nat,
    rxNext: bool,
    nop: bool,
    expWen: bool,
    expReset: bool,
    cycleStart: bool,
    cyclePause: bool,
    cycleStep: bool)

  /** The reset line is at its active level. */
  predicate ResetAsserted(r: Reset)
  {
    r.value == r.active
  }

  /** Number of action strobes (experiment write and run-control pulses) raised by one evaluation. */
  function Strobes(o: Outputs): (n: nat)
    ensures n == 0 <==> !o.expWen && !o.cycleStart && !o.cyclePause && !o.cycleStep
  {
    (if o.expWen then 1 else 0) + (if o.cycleStart then 1 else 0)
    + (if o.cyclePause then 1 else 0) + (if o.cycleStep then 1 else 0)
  }

  /**
   The response selection: a first-match chain over (command, mode), in the
   order the block tests it. An opcode no branch matches leaves `fallback`,
   the value written before the chain.
   */
  function ResponseChain(spec: Catalog, cmd: nat, autonomous: bool, fallback: nat): nat
  {
    if cmd == spec.cmdRead && !autonomous then spec.resReadSuccess
    else if cmd == spec.cmdRead && autonomous then spec.resReadErrorMode
    else if cmd == spec.cmdWrite && !autonomous then spec.resWriteSuccess
    else if cmd == spec.cmdWrite && autonomous then spec.resWriteErrorMode
    else if cmd == spec.cmdReset then spec.resResetSuccess
    else if cmd == spec.cmdStep && !autonomous then spec.resStepSuccess
    else if cmd == spec.cmdStep && autonomous then spec.resStepErrorMode
    else if cmd == spec.cmdStart && !autonomous then spec.resStartSuccess
    else if cmd == spec.cmdStart && autonomous then spec.resStartErrorMode
    else if cmd == spec.cmdPause && autonomous then spec.resPauseSuccess
    else if cmd == spec.cmdPause && !autonomous then spec.resPauseErrorMode
    else if cmd == spec.cmdStatus then spec.resStatus
    else fallback
  }

  /**
   The response opcode: 0 by default, 0 again when the reset is asserted, and
   then whatever the response chain selects, which overrides the reset write.
   */
  function OpcodeRes(spec: Catalog, i: Inputs): (r: nat)
    ensures r == 0 || r in ResponseCodes(spec)
    ensures i.opcodeCmd !in CommandOpcodes(spec) ==> r == 0
  {
    var byDefault := 0;
    var afterReset := if ResetAsserted(i.reset) then 0 else byDefault;
    ResponseChain(spec, i.opcodeCmd, i.cycleAutonomous, afterReset)
  }

  /**
   One evaluation of the block. `expResetActive` is the level at which the
   forwarded experiment reset counts as asserted.
   */
  function Evaluate(spec: Catalog, expResetActive: bool, i: Inputs): (o: Outputs)
    ensures o.rxNext == !o.nop
    ensures o.nop ==> Strobes(o) == 0
    ensures ResetAsserted(i.reset) ==> o.nop && o.expReset == expResetActive
    ensures o.opcodeRes == 0 || o.opcodeRes in ResponseCodes(spec)
    ensures ValidCatalog(spec) ==> Strobes(o) <= 1
  {
    var asserted := ResetAsserted(i.reset);
    var nopInt := !i.rxReady || !i.txReady || asserted;
    Outputs(
      opcodeRes := OpcodeRes(spec, i),
      rxNext := !nopInt,
      nop := nopInt,
      expWen := i.opcodeCmd == spec.cmdWrite && !i.cycleAutonomous && !nopInt && !asserted,
      expReset :=
        if asserted || (i.opcodeCmd == spec.cmdReset && !nopInt) then expResetActive
        else !expResetActive,
      cycleStart := i.opcodeCmd == spec.cmdStart && !i.cycleAutonomous && !nopInt && !asserted,
      cyclePause := i.opcodeCmd == spec.cmdPause && i.cycleAutonomous && !nopInt && !asserted,
      cycleStep := i.opcodeCmd == spec.cmdStep && !i.cycleAutonomous && !nopInt && !asserted)
  }

  /** The stall flag is raised exactly when a buffer is not ready or the reset is asserted; the dequeue strobe is its negation. */
  lemma NopCondition(spec: Catalog, expResetActive: bool, i: Inputs)
    ensures var o := Evaluate(spec, expResetActive, i);
      && (o.nop <==> !i.rxReady || !i.txReady || ResetAsserted(i.reset))
      && o.rxNext == !o.nop
  {
  }

  /** The experiment is written exactly for a write command in manual mode with both buffers ready and no reset. */
  lemma ExpWenCondition(spec: Catalog, expResetActive: bool, i: Inputs)
    ensures var o := Evaluate(spec, expResetActive, i);
      && (o.expWen <==> i.opcodeCmd == spec.cmdWrite && !i.cycleAutonomous
                        && i.rxReady && i.txReady && !ResetAsserted(i.reset))
      && (i.cycleAutonomous || !i.rxReady || !i.txReady ==> !o.expWen)
  {
  }

  /**
   The forwarded experiment reset is at its active level exactly when the
   controller reset is asserted or a reset command is accepted, and at the
   opposite level otherwise.
   */
  lemma ExpResetCondition(spec: Catalog, expResetActive: bool, i: Inputs)
    ensures var o := Evaluate(spec, expResetActive, i);
      (o.expReset == expResetActive)
      <==> (ResetAsserted(i.reset) || (i.opcodeCmd == spec.cmdReset && !o.nop))
  {
  }

  /** Each run-control pulse fires under exactly its own command, mode, readiness and reset condition. */
  lemma CyclePulseConditions(spec: Catalog, expResetActive: bool, i: Inputs)
    ensures var o := Evaluate(spec, expResetActive, i);
      var go := i.rxReady && i.txReady && !ResetAsserted(i.reset);
      && (o.cycleStart <==> i.opcodeCmd == spec.cmdStart && !i.cycleAutonomous && go)
      && (o.cyclePause <==> i.opcodeCmd == spec.cmdPause && i.cycleAutonomous && go)
      && (o.cycleStep <==> i.opcodeCmd == spec.cmdStep && !i.cycleAutonomous && go)
  {
  }

  /**
   At most one run-control pulse fires. Pause is excluded from start and step
   by the mode alone; start and step need distinct opcodes.
   */
  lemma PulsesMutuallyExclusive(spec: Catalog, expResetActive: bool, i: Inputs)
    requires spec.cmdStart != spec.cmdStep
    ensures var o := Evaluate(spec, expResetActive, i);
      && !(o.cyclePause && o.cycleStart)
      && !(o.cyclePause && o.cycleStep)
      && !(o.cycleStart && o.cycleStep)
  {
  }

  /** While the block stalls (which includes every evaluation under reset) nothing is dequeued, written or pulsed. */
  lemma NopSilencesActions(spec: Catalog, expResetActive: bool, i: Inputs)
    requires !i.rxReady || !i.txReady || ResetAsserted(i.reset)
    ensures var o := Evaluate(spec, expResetActive, i);
      && !o.rxNext && !o.expWen
      && !o.cycleStart && !o.cyclePause && !o.cycleStep
  {
  }

  /** With distinct opcodes, one evaluation raises at most one action strobe, and only when it dequeues a command. */
  lemma StrobesNeedDequeue(spec: Catalog, expResetActive: bool, i: Inputs)
    requires ValidCatalog(spec)
    ensures var o := Evaluate(spec, expResetActive, i);
      Strobes(o) <= (if o.rxNext then 1 else 0)
  {
  }

  /** Responses in manual mode, for a catalog with distinct command opcodes. */
  lemma ResponseInManualMode(spec: Catalog, expResetActive: bool, i: Inputs)
    requires ValidCatalog(spec) && !i.cycleAutonomous
    ensures var r := Evaluate(spec, expResetActive, i).opcodeRes;
      && (i.opcodeCmd == spec.cmdRead ==> r == spec.resReadSuccess)
      && (i.opcodeCmd == spec.cmdWrite ==> r == spec.resWriteSuccess)
      && (i.opcodeCmd == spec.cmdReset ==> r == spec.resResetSuccess)
      && (i.opcodeCmd == spec.cmdStep ==> r == spec.resStepSuccess)
      && (i.opcodeCmd == spec.cmdStart ==> r == spec.resStartSuccess)
      && (i.opcodeCmd == spec.cmdPause ==> r == spec.resPauseErrorMode)
      && (i.opcodeCmd == spec.cmdStatus ==> r == spec.resStatus)
  {
  }

  /** Responses in autonomous mode, for a catalog with distinct command opcodes. */
  lemma ResponseInAutonomousMode(spec: Catalog, expResetActive: bool, i: Inputs)
    requires ValidCatalog(spec) && i.cycleAutonomous
    ensures var r := Evaluate(spec, expResetActive, i).opcodeRes;
      && (i.opcodeCmd == spec.cmdRead ==> r == spec.resReadErrorMode)
      && (i.opcodeCmd == spec.cmdWrite ==> r == spec.resWriteErrorMode)
      && (i.opcodeCmd == spec.cmdReset ==> r == spec.resResetSuccess)
      && (i.opcodeCmd == spec.cmdStep ==> r == spec.resStepErrorMode)
      && (i.opcodeCmd == spec.cmdStart ==> r == spec.resStartErrorMode)
      && (i.opcodeCmd == spec.cmdPause ==> r == spec.resPauseSuccess)
      && (i.opcodeCmd == spec.cmdStatus ==> r == spec.resStatus)
  {
  }

  /** An opcode that is none of the seven commands gets response 0: the default survives the chain. */
  lemma ResponseForUnknownOpcode(spec: Catalog, expResetActive: bool, i: Inputs)
    requires i.opcodeCmd !in CommandOpcodes(spec)
    ensures Evaluate(spec, expResetActive, i).opcodeRes == 0
  {
  }

  /**
   The response depends only on the command and the mode: buffer readiness,
   the reset input and the experiment reset polarity do not change it.
   */
  lemma ResponseIgnoresReadinessAndReset(spec: Catalog, era1: bool, era2: bool, i1: Inputs, i2: Inputs)
    requires i1.opcodeCmd == i2.opcodeCmd && i1.cycleAutonomous == i2.cycleAutonomous
    ensures Evaluate(spec, era1, i1).opcodeRes == Evaluate(spec, era2, i2).opcodeRes
  {
  }

  /**
   The reset write to the response is overridden: a recognised command under
   an asserted reset still gets its table response, so the response is not
   forced to 0 while the reset is asserted.
   */
  lemma ResponseNotForcedUnderReset(spec: Catalog, expResetActive: bool, i: Inputs)
    requires spec.resReadSuccess != 0
    requires ResetAsserted(i.reset) && i.opcodeCmd == spec.cmdRead && !i.cycleAutonomous
    ensures Evaluate(spec, expResetActive, i).opcodeRes == spec.resReadSuccess != 0
  {
  }
}
