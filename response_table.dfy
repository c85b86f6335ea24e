/**
 The response table as data: one row per host command giving its response in
 manual and in autonomous mode, looked up first match wins with 0 for an
 opcode no row names. It is an independent reference definition of the
 response selection, and the lemmas below prove the block's if/elif chain
 computes exactly this lookup.
 */
module ResponseTable {
  import opened Catalog
  import opened ControllerControl

  /** One row of the table: a command opcode and its responses per mode. */
  datatype Row = Row(cmd: nat, manual: nat, autonomous: nat)
  {
    function Response(isAutonomous: bool): nat
    {
      if isAutonomous then autonomous else manual
    }
  }

  /** The table of the controller, in the order the block tests the commands. */
  function Table(spec: Catalog): (t: seq<Row>)
    ensures |t| == 7
  {
    [ Row(spec.cmdRead, spec.resReadSuccess, spec.resReadErrorMode),
      Row(spec.cmdWrite, spec.resWriteSuccess, spec.resWriteErrorMode),
      Row(spec.cmdReset, spec.resResetSuccess, spec.resResetSuccess),
      Row(spec.cmdStep, spec.resStepSuccess, spec.resStepErrorMode),
      Row(spec.cmdStart, spec.resStartSuccess, spec.resStartErrorMode),
      Row(spec.cmdPause, spec.resPauseErrorMode, spec.resPauseSuccess),
      Row(spec.cmdStatus, spec.resStatus, spec.resStatus) ]
  }

  /** First-match lookup of `cmd` in `t`; 0 when no row names it. */
  function Lookup(t: seq<Row>, cmd: nat, isAutonomous: bool): (r: nat)
    ensures (forall k :: 0 <= k < |t| ==> t[k].cmd != cmd) ==> r == 0
    ensures r != 0 ==> exists k :: 0 <= k < |t| && t[k].cmd == cmd && r == t[k].Response(isAutonomous)
  {
    if t == [] then 0
    else if t[0].cmd == cmd then t[0].Response(isAutonomous)
    else Lookup(t[1..], cmd, isAutonomous)
  }

  /** The lookup returns the response of the first row naming the command. */
  lemma {:induction false} LookupFirstMatch(t: seq<Row>, cmd: nat, isAutonomous: bool, k: nat)
    requires k < |t| && t[k].cmd == cmd
    requires forall j :: 0 <= j < k ==> t[j].cmd != cmd
    ensures Lookup(t, cmd, isAutonomous) == t[k].Response(isAutonomous)
  {
    if k > 0 {
      LookupFirstMatch(t[1..], cmd, isAutonomous, k - 1);
    }
  }

  /** The block's response chain is the table lookup, for every catalog, opcode and mode. */
  lemma ChainMatchesTable(spec: Catalog, cmd: nat, isAutonomous: bool)
    ensures ResponseChain(spec, cmd, isAutonomous, 0) == Lookup(Table(spec), cmd, isAutonomous)
  {
    var t := Table(spec);
    if cmd == spec.cmdRead {
      LookupFirstMatch(t, cmd, isAutonomous, 0);
    } else if cmd == spec.cmdWrite {
      LookupFirstMatch(t, cmd, isAutonomous, 1);
    } else if cmd == spec.cmdReset {
      LookupFirstMatch(t, cmd, isAutonomous, 2);
    } else if cmd == spec.cmdStep {
      LookupFirstMatch(t, cmd, isAutonomous, 3);
    } else if cmd == spec.cmdStart {
      LookupFirstMatch(t, cmd, isAutonomous, 4);
    } else if cmd == spec.cmdPause {
      LookupFirstMatch(t, cmd, isAutonomous, 5);
    } else if cmd == spec.cmdStatus {
      LookupFirstMatch(t, cmd, isAutonomous, 6);
    } else {
      assert forall k :: 0 <= k < |t| ==> t[k].cmd != cmd;
    }
  }

  /** Every evaluation reports the table response of its command in its mode, reset or not. */
  lemma EvaluateRespondsByTable(spec: Catalog, expResetActive: bool, i: Inputs)
    ensures Evaluate(spec, expResetActive, i).opcodeRes
            == Lookup(Table(spec), i.opcodeCmd, i.cycleAutonomous)
  {
    ChainMatchesTable(spec, i.opcodeCmd, i.cycleAutonomous);
  }
}
