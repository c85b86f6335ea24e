/**
 Repeated evaluation of the control block over a stream of sampled inputs.
 The block keeps no state between evaluations, so a stream is judged
 evaluation by evaluation; what it guarantees over a whole stream is that no
 action reaches the experiment or the cycle controller without a host
 command being dequeued for it.
 */
module CommandStream {
  import opened Catalog
  import opened ControllerControl

  /** Number of evaluations in `s` that raise the dequeue strobe. */
  function Dequeues(spec: Catalog, expResetActive: bool, s: seq<Inputs>): nat
  {
    if s == [] then 0
    else (if Evaluate(spec, expResetActive, s[0]).rxNext then 1 else 0)
         + Dequeues(spec, expResetActive, s[1..])
  }

  /** Number of action strobes (experiment writes and run-control pulses) raised over `s`. */
  function Actions(spec: Catalog, expResetActive: bool, s: seq<Inputs>): nat
  {
    if s == [] then 0
    else Strobes(Evaluate(spec, expResetActive, s[0])) + Actions(spec, expResetActive, s[1..])
  }

  /**
   With distinct command opcodes, each dequeued command causes at most one
   action, and nothing acts while the block stalls: over any stream, actions
   never outnumber dequeues.
   */
  lemma {:induction false} ActionsNeverOutnumberDequeues(spec: Catalog, expResetActive: bool, s: seq<Inputs>)
    requires ValidCatalog(spec)
    ensures Actions(spec, expResetActive, s) <= Dequeues(spec, expResetActive, s)
  {
    if s != [] {
      StrobesNeedDequeue(spec, expResetActive, s[0]);
      ActionsNeverOutnumberDequeues(spec, expResetActive, s[1..]);
    }
  }

  /** A stream in which every evaluation has a reset asserted dequeues nothing and acts on nothing. */
  lemma {:induction false} ResetStreamIsSilent(spec: Catalog, expResetActive: bool, s: seq<Inputs>)
    requires forall k :: 0 <= k < |s| ==> ResetAsserted(s[k].reset)
    ensures Dequeues(spec, expResetActive, s) == 0 && Actions(spec, expResetActive, s) == 0
  {
    if s != [] {
      ResetStreamIsSilent(spec, expResetActive, s[1..]);
    }
  }
}
