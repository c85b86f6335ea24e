# Controller control block of the fpgaedu experiment controller

This project models `ControllerControl`, the combinational control block of the
FPGA experiment controller in `fpgaedu/hdl/_controller_control.py`, and proves
its truth table in Dafny. On each evaluation the block reads five inputs:

- the host command opcode;
- whether the receive buffer and the transmit buffer are ready;
- whether the cycle controller runs autonomously or manually;
- the controller reset.

From these it drives these outputs:

- the stall flag `nop` and the dequeue strobe `rx_next`;
- the experiment write-enable `exp_wen`;
- the forwarded experiment reset `exp_reset`, whose active level is a parameter;
- the response opcode `opcode_res`;
- the three run-control pulses `cycle_start`, `cycle_pause` and `cycle_step`.

The block keeps no state, so it is modelled as one pure function,
`ControllerControl.Evaluate`, from an `Inputs` record to an `Outputs` record.
The internal `nop_int` wire is a local definition inside it.

Modules:

- `Catalog` (catalog.dfy): the command opcodes and response codes of the controller's spec object.
  They are opaque parameters. `ValidCatalog` says the seven command opcodes are pairwise distinct.
- `ControllerControl` (controller_control.dfy): the evaluation function, the response chain, and
  lemmas for every output's exact condition.
- `ResponseTable` (response_table.dfy): the response table as a list of rows with a first-match
  lookup. It is an independent reference definition, and a lemma proves the block's if/elif chain
  computes exactly that lookup.
- `CommandStream` (command_stream.dfy): repeated evaluation over a stream of inputs. It proves
  that write and run-control actions never outnumber dequeued commands.

A reset is a pair `(value, active)` and counts as asserted when `value == active`,
as `reset == reset.active` does in the source.

The response under reset follows the code. The code writes 0 to the response
when the reset is asserted (lines 46-47), but that `if` stands alone. The
`if/elif` chain that follows (lines 48-71) runs regardless. Whenever one of its
branches matches, it replaces that 0 with the matched response; for an opcode
that is none of the seven commands no branch matches and the 0 stays. So the
response depends only on the command and the mode, and a recognised command
still gets its table response while the reset is asserted. Read on its own,
the reset write at lines 46-47 looks as if it forces the response to 0. It
does not.
`ResponseNotForcedUnderReset` proves this for a read command.

## Model

| member | source | states |
|---|---|---|
| ControllerControl.Evaluate | fpgaedu/hdl/_controller_control.py:23-78 | `rx_next` is the negation of `nop`. When `nop` holds, no write or pulse fires. Under an asserted reset, `nop` holds and `exp_reset` is at its active level. The response is 0 or a catalog response code. With distinct opcodes, at most one of write, start, pause and step fires. |
| ControllerControl.OpcodeRes | fpgaedu/hdl/_controller_control.py:44-71 | The response is 0 or one of the twelve catalog response codes, and it is 0 for an opcode that is none of the seven commands. The if/elif chain it ends with is `ControllerControl.ResponseChain` (lines 48-71), which `ResponseTable.ChainMatchesTable` characterises as the table lookup. |
| ControllerControl.NopCondition | fpgaedu/hdl/_controller_control.py:23-33 | `nop` holds exactly when a buffer is not ready or the reset is asserted, and `rx_next == !nop`. |
| ControllerControl.ExpWenCondition | fpgaedu/hdl/_controller_control.py:35-36 | `exp_wen` holds iff the command is write, the mode is manual, both buffers are ready and the reset is inactive. It is false in autonomous mode or when either buffer is not ready. |
| ControllerControl.ExpResetCondition | fpgaedu/hdl/_controller_control.py:38-42 | `exp_reset` is at its active level iff the reset is asserted or a reset command arrives while `nop` is false. Otherwise it is at the opposite level. |
| ControllerControl.CyclePulseConditions | fpgaedu/hdl/_controller_control.py:73-78 | Exact conditions of each pulse. Start needs the start command in manual mode. Pause needs the pause command in autonomous mode. Step needs the step command in manual mode. Each also needs both buffers ready and the reset inactive. |
| ControllerControl.PulsesMutuallyExclusive | fpgaedu/hdl/_controller_control.py:73-78 | No two pulses fire together. Pause is excluded by the mode alone; start and step need only distinct start and step opcodes. |
| ControllerControl.NopSilencesActions | fpgaedu/hdl/_controller_control.py:27-78 | While a buffer is not ready or the reset is asserted, `rx_next`, `exp_wen` and all three pulses are false. |
| ControllerControl.ResponseInManualMode | fpgaedu/hdl/_controller_control.py:48-71 | In manual mode with distinct opcodes: read, write, reset, step and start give their success codes, pause gives pause_error_mode, status gives status. |
| ControllerControl.ResponseInAutonomousMode | fpgaedu/hdl/_controller_control.py:48-71 | In autonomous mode with distinct opcodes: read, write, step and start give their error_mode codes, reset gives reset_success, pause gives pause_success, status gives status. |
| ControllerControl.ResponseForUnknownOpcode | fpgaedu/hdl/_controller_control.py:45-71 | An opcode that is none of the seven commands gets response 0, because the default write survives the chain. |
| ControllerControl.ResponseIgnoresReadinessAndReset | fpgaedu/hdl/_controller_control.py:45-71 | Two evaluations with the same command and mode give the same response, whatever the buffer readiness, the reset input and the experiment reset polarity. |
| ControllerControl.ResponseNotForcedUnderReset | fpgaedu/hdl/_controller_control.py:45-71 | Under an asserted reset, a manual-mode read still answers read_success, which is non-zero when that code is non-zero. The reset write at lines 46-47 is overwritten. |
| ResponseTable.Lookup | fpgaedu/hdl/_controller_control.py:48-71 | A first-match lookup of the response table. It gives 0 when no row names the command. A non-zero result is the response, in the given mode, of a row naming the command. |
| ResponseTable.LookupFirstMatch | fpgaedu/hdl/_controller_control.py:48-71 | The lookup returns the response of the first row naming the command. |
| ResponseTable.ChainMatchesTable | fpgaedu/hdl/_controller_control.py:48-71 | For every catalog, opcode and mode, the if/elif chain with default 0 equals the table lookup. |
| ControllerControl.StrobesNeedDequeue | fpgaedu/hdl/_controller_control.py:27-78 | With distinct opcodes, one evaluation raises at most one write or pulse, and none unless it also raises `rx_next`. |
| ResponseTable.EvaluateRespondsByTable | fpgaedu/hdl/_controller_control.py:44-71 | Every evaluation's response is the table response of its command in its mode, whether or not the reset is asserted. |
| CommandStream.ActionsNeverOutnumberDequeues | fpgaedu/hdl/_controller_control.py:27-78 | With distinct opcodes, over any stream of evaluations the experiment writes plus run-control pulses are at most the number of evaluations that dequeue a command. |
| CommandStream.ResetStreamIsSilent | fpgaedu/hdl/_controller_control.py:27-78 | A stream whose every evaluation has the reset asserted dequeues nothing and raises no write or pulse. |

## Left out

- MyHDL signal plumbing is not modelled: `Signal`, `ResetSignal`, `intbv`, `.next` scheduling, and
  the delta-cycle split between `internal_logic` and `output_logic`. The model is the settled
  combinational result of one evaluation.
- The bit widths of the opcode and response fields are not modelled, and neither are the concrete
  constant values. `ControllerSpec` is not part of this model, so its constants are opaque natural
  numbers supplied as a `Catalog`.
- The receive and transmit buffers and the cycle controller that consume `rx_next` and the pulses
  are not modelled. Only their ready flags and mode flag enter as inputs.
- The experiment reset's active level `exp_reset_active` defaults to `False` in the source (line 5).
  Here it is the parameter `expResetActive` of `Evaluate`, so every value, the default included, is covered.
- The MyHDL simulation test bench is not modelled. Its assertions are covered by the lemmas above.
