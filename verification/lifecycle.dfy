/** Arbitrary sequences of public calls on one callback instance.  The Java
    callback is driven from many threads; with each call taken as one
    atomic step, every interleaving of whole calls is one sequence of
    calls, so a property proved here for every sequence holds for every
    interleaving of whole calls.  Two calls whose steps interleave inside
    one method are outside this model. */
module Lifecycle {
  import opened Types
  import opened PartitionCounting

  datatype Call =
    | InitCall(t: Txn, partitions: set<int>)
    | RunCall(partition: int)
    | AbortCall(status: Status)
    | CancelCall
    | FinishCall

  /** A partition set whose size is a Java `int`. */
  predicate WellFormed(calls: seq<Call>) {
    forall i | 0 <= i < |calls| :: calls[i].InitCall? ==> |calls[i].partitions| <= MaxInt32
  }

  predicate NoFinish(calls: seq<Call>) {
    forall i | 0 <= i < |calls| :: !calls[i].FinishCall?
  }

  /** One public call, taken atomically.  Only `finish()` turns flags off;
      a canceled callback is silent until it is finished. */
  function Apply(h: Hooks, st: CallbackState, c: Call): (r: Step)
    requires c.InitCall? ==> |c.partitions| <= MaxInt32
    ensures |r.fired| <= 1
    ensures r.fired != [] ==> !st.flags.canceled && !Decided(st.flags) && Decided(r.st.flags)
    ensures c.FinishCall? ==> r.st.flags == Cleared && r.fired == [] && r.effects == []
    ensures !c.FinishCall? ==> FlagsGrow(st.flags, r.st.flags)
    ensures !c.FinishCall? && st.flags.canceled ==> r.fired == [] && r.effects == []
  {
    match c
    case InitCall(t, ps) => Quiet(Init(st, t, ps))
    case RunCall(p) => Run(h, st, p)
    case AbortCall(s) => Abort(h, st, s)
    case CancelCall => Quiet(Cancel(st))
    case FinishCall => Quiet(Finish(st))
  }

  /** What a sequence of calls leaves behind: the final state, every hook
      that ran and every effect, in order, and the faults raised. */
  datatype Trace = Trace(st: CallbackState, fired: seq<Hook>, effects: seq<Effect>, faults: seq<Fault>)

  function Exec(h: Hooks, st: CallbackState, calls: seq<Call>): Trace
    requires WellFormed(calls)
    decreases |calls|
  {
    if calls == [] then Trace(st, [], [], [])
    else
      var prev := Exec(h, st, calls[..|calls| - 1]);
      var s := Apply(h, prev.st, calls[|calls| - 1]);
      Trace(s.st, prev.fired + s.fired, prev.effects + s.effects, prev.faults + OptionToSeq(s.fault))
  }

  function Finishes(calls: seq<Call>): nat
    decreases |calls|
  {
    if calls == [] then 0
    else Finishes(calls[..|calls| - 1]) + (if calls[|calls| - 1].FinishCall? then 1 else 0)
  }

  function Claimed(st: CallbackState): nat {
    if Decided(st.flags) then 1 else 0
  }

  /** Across any sequence of calls, each lifecycle (the stretch up to a
      `finish()`, and the stretch after the last one) runs at most one
      terminal hook, and none at all in a lifecycle whose terminal path was
      already claimed when the sequence began. */
  lemma {:induction false} HooksPerLifecycle(h: Hooks, st: CallbackState, calls: seq<Call>)
    requires WellFormed(calls)
    ensures |Exec(h, st, calls).fired| + Claimed(st) <= Finishes(calls) + Claimed(Exec(h, st, calls).st)
    decreases |calls|
  {
    if calls != [] {
      var init := calls[..|calls| - 1];
      HooksPerLifecycle(h, st, init);
    }
  }

  lemma {:induction false} NoFinishesCounted(calls: seq<Call>)
    requires NoFinish(calls)
    ensures Finishes(calls) == 0
    decreases |calls|
  {
    if calls != [] {
      NoFinishesCounted(calls[..|calls| - 1]);
    }
  }

  /** Within one lifecycle at most one of the unblock and abort hooks runs,
      and it runs at most once; once a terminal path is claimed, no hook
      runs any more. */
  lemma AtMostOneTerminalHook(h: Hooks, st: CallbackState, calls: seq<Call>)
    requires WellFormed(calls) && NoFinish(calls)
    ensures |Exec(h, st, calls).fired| <= 1
    ensures Decided(st.flags) ==> Exec(h, st, calls).fired == []
  {
    HooksPerLifecycle(h, st, calls);
    NoFinishesCounted(calls);
  }

  /** Once canceled, a callback runs neither hook and has no effect on the
      site until it is finished, and it stays canceled. */
  lemma {:induction false} CanceledIsSilent(h: Hooks, st: CallbackState, calls: seq<Call>)
    requires WellFormed(calls) && NoFinish(calls)
    requires st.flags.canceled
    ensures Exec(h, st, calls).fired == []
    ensures Exec(h, st, calls).effects == []
    ensures Exec(h, st, calls).st.flags.canceled
    decreases |calls|
  {
    if calls != [] {
      CanceledIsSilent(h, st, calls[..|calls| - 1]);
    }
  }

  /** `finish()` followed by `init()` gives exactly the state a freshly
      constructed callback has after the same `init()`: nothing of the
      previous lifecycle survives that the new one could observe. */
  lemma FinishThenInitIsFresh(st: CallbackState, t: Txn, ps: set<int>)
    requires |ps| <= MaxInt32
    ensures Init(Finish(st), t, ps) == Init(Constructed(), t, ps)
    ensures Init(Finish(st), t, ps).counter == |ps|
    ensures Init(Finish(st), t, ps).received == {}
    ensures Init(Finish(st), t, ps).partitions == ps
  {
  }

  /** The flags of every state reachable by whole calls: a hook is marked
      finished only after it was invoked, and a finished abort means the
      unblock path never ran, so at most one terminal path ever finishes. */
  predicate Coherent(f: Flags) {
    && (f.unblockFinished ==> f.unblockInvoked)
    && (f.abortFinished ==> f.abortInvoked && !f.unblockInvoked)
  }

  lemma ApplyKeepsCoherent(h: Hooks, st: CallbackState, c: Call)
    requires c.InitCall? ==> |c.partitions| <= MaxInt32
    requires Coherent(st.flags)
    ensures Coherent(Apply(h, st, c).st.flags)
  {
  }

  /** Every sequence of whole calls from a coherent state (the constructed
      state is one) keeps the flags coherent, so the two terminal paths
      never both finish. */
  lemma {:induction false} ExecKeepsCoherent(h: Hooks, st: CallbackState, calls: seq<Call>)
    requires WellFormed(calls)
    requires Coherent(st.flags)
    ensures Coherent(Exec(h, st, calls).st.flags)
    ensures !(Exec(h, st, calls).st.flags.unblockFinished && Exec(h, st, calls).st.flags.abortFinished)
    decreases |calls|
  {
    if calls != [] {
      var init := calls[..|calls| - 1];
      ExecKeepsCoherent(h, st, init);
      ApplyKeepsCoherent(h, Exec(h, st, init).st, calls[|calls| - 1]);
    }
  }
}
