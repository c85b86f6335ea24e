/**
 The opcode catalog the controller control block is built against: the seven
 host command opcodes and the twelve response codes it can report. They are
 supplied by the controller's spec object, which is built from the address
 and data widths of the controlled experiment; here they are opaque natural
 numbers supplied by the caller.
 */
module Catalog {

  /** Command opcodes and response codes, as named by the controller's spec object. */
  datatype Catalog = Catalog(
    cmdRead: nat,
    cmdWrite: nat,
    cmdReset: nat,
    cmdStep: nat,
    cmdStart: nat,
    cmdPause: nat,
    cmdStatus: nat,
    resReadSuccess: nat,
    resReadErrorMode: nat,
    resWriteSuccess: nat,
    resWriteErrorMode: nat,
    resResetSuccess: nat,
    resStepSuccess: nat,
    resStepErrorMode: nat,
    resStartSuccess: nat,
    resStartErrorMode: nat,
    resPauseSuccess: nat,
    resPauseErrorMode: nat,
    resStatus: nat)

  /** The seven command opcodes of a catalog. */
  function CommandOpcodes(spec: Catalog): set<nat>
  {
    {spec.cmdRead, spec.cmdWrite, spec.cmdReset, spec.cmdStep,
     spec.cmdStart, spec.cmdPause, spec.cmdStatus}
  }

  /** The twelve response codes of a catalog (0, the "no response" value, is not among them unless a code is 0). */
  function ResponseCodes(spec: Catalog): set<nat>
  {
    {spec.resReadSuccess, spec.resReadErrorMode, spec.resWriteSuccess,
     spec.resWriteErrorMode, spec.resResetSuccess, spec.resStepSuccess,
     spec.resStepErrorMode, spec.resStartSuccess, spec.resStartErrorMode,
     spec.resPauseSuccess, spec.resPauseErrorMode, spec.resStatus}
  }

  /** A catalog whose seven command opcodes are pairwise distinct. */
  predicate ValidCatalog(spec: Catalog)
  {
    && spec.cmdRead != spec.cmdWrite && spec.cmdRead != spec.cmdReset
    && spec.cmdRead != spec.cmdStep && spec.cmdRead != spec.cmdStart
    && spec.cmdRead != spec.cmdPause && spec.cmdRead != spec.cmdStatus
    && spec.cmdWrite != spec.cmdReset && spec.cmdWrite != spec.cmdStep
    && spec.cmdWrite != spec.cmdStart && spec.cmdWrite != spec.cmdPause
    && spec.cmdWrite != spec.cmdStatus
    && spec.cmdReset != spec.cmdStep && spec.cmdReset != spec.cmdStart
    && spec.cmdReset != spec.cmdPause && spec.cmdReset != spec.cmdStatus
    && spec.cmdStep != spec.cmdStart && spec.cmdStep != spec.cmdPause
    && spec.cmdStep != spec.cmdStatus
    && spec.cmdStart != spec.cmdPause && spec.cmdStart != spec.cmdStatus
    && spec.cmdPause != spec.cmdStatus
  }
}
