/** The transaction-init callback: counts one response per partition that
    accepted a transaction into its queue, starts a distributed
    transaction once every partition has accepted it, and on an abort
    either restarts or rejects the transaction. */
module LocalInitQueue {
  import opened Types
  import opened PartitionCounting

  /** Each partition's acceptance counts for one. */
  function RunImpl(p: int): Int32 {
    1
  }

  /** Statuses after which the transaction is requeued. */
  predicate Restartable(s: Status) {
    s == AbortSpeculative || s == AbortRestart
  }

  /** `unblockCallback()`: asserts the callback was not aborted, then starts
      the transaction, unless it is predicted single-partition (its
      executor starts it by itself).  Without a transaction handle the
      call dereferences null. */
  function UnblockCallback(st: CallbackState): (r: HookResult)
    ensures !r.clearsCounter
    ensures st.flags.abortInvoked ==> r == HookResult([], false, Some(AbortedBeforeUnblock))
    ensures !st.flags.abortInvoked && st.ts.None? ==> r == HookResult([], false, Some(NullTransaction))
    ensures !st.flags.abortInvoked && st.ts.Some? ==>
              && r.fault.None?
              && (r.effects != [] <==> !st.ts.value.predictSinglePartition)
              && (r.effects != [] ==> r.effects == [Start(st.ts.value.id)])
  {
    if st.flags.abortInvoked then
      HookResult([], false, Some(AbortedBeforeUnblock))
    else if st.ts.None? then
      HookResult([], false, Some(NullTransaction))
    else if !st.ts.value.predictSinglePartition then
      HookResult([Start(st.ts.value.id)], false, None)
    else
      HookResult([], false, None)
  }

  /** `abortCallback(status)`: a speculative or restart abort requeues the
      transaction, a reject abort rejects it, and any other status is an
      error.  The counter is never cleared. */
  function AbortCallback(t: Txn, s: Status): (r: HookResult)
    ensures !r.clearsCounter
    ensures |r.effects| <= 1
    ensures Restartable(s) ==> r.effects == [Restart(t.id, s)] && r.fault.None?
    ensures s == AbortReject ==> r.effects == [Reject(t.id, s)] && r.fault.None?
    ensures r.fault.Some? <==> !Restartable(s) && s != AbortReject
    ensures r.fault.Some? ==> r.fault == Some(UnexpectedStatus(s)) && r.effects == []
  {
    match s
    case AbortSpeculative => HookResult([Restart(t.id, s)], false, None)
    case AbortRestart => HookResult([Restart(t.id, s)], false, None)
    case AbortReject => HookResult([Reject(t.id, s)], false, None)
    case _ => HookResult([], false, Some(UnexpectedStatus(s)))
  }

  /** The init callback's hooks.  Its handle is always a local transaction
      in the code; the lemmas about these hooks also cover non-local
      handles, which this callback never has. */
  const Callbacks: Hooks := Hooks(RunImpl, UnblockCallback, AbortCallback)

  /** A decoded transaction-init response. */
  datatype InitResponse = InitResponse(status: Status, partitions: seq<int>)

  predicate Distinct(ps: seq<int>) {
    forall i, j | 0 <= i < j < |ps| :: ps[i] != ps[j]
  }

  function Elements(ps: seq<int>): set<int> {
    set p | p in ps
  }

  /** `run(partition)` for each listed partition in order; the first call
      that fails ends the loop.  The loop gets through only when the list
      holds no partition twice and none already received, and then every
      listed partition has been recorded. */
  function RunAll(st: CallbackState, ps: seq<int>): (r: Step)
    ensures r.st.partitions == st.partitions && r.st.ts == st.ts
    ensures st.received <= r.st.received <= st.received + Elements(ps)
    ensures r.fault.None? ==> Distinct(ps) && Elements(ps) !! st.received
    ensures r.fault.None? ==> r.st.received == st.received + Elements(ps)
    ensures FlagsGrow(st.flags, r.st.flags) && r.st.flags.canceled == st.flags.canceled
    ensures r.st.flags.abortInvoked == st.flags.abortInvoked
    ensures |r.fired| <= 1
    ensures r.fired != [] ==> r.fired == [UnblockHook] && !st.flags.canceled && !Decided(st.flags)
    ensures r.effects != [] ==> r.fired != []
    decreases |ps|
  {
    if ps == [] then
      Quiet(st)
    else
      var s1 := Run(Callbacks, st, ps[0]);
      if s1.fault.Some? then
        s1
      else
        var s2 := RunAll(s1.st, ps[1..]);
        assert ps == [ps[0]] + ps[1..];
        assert Elements(ps) == {ps[0]} + Elements(ps[1..]);
        Step(s2.st, s1.fired + s2.fired, s1.effects + s2.effects, s2.fault)
  }

  /** `run(TransactionInitResponse)`: a response with a status other than
      OK aborts the transaction and records no partition; an OK response
      runs every partition it lists. */
  function RunResponse(st: CallbackState, resp: InitResponse): (r: Step)
    ensures resp.status != Ok ==> r == Abort(Callbacks, st, resp.status)
    ensures resp.status != Ok ==> r.st.received == st.received
    ensures resp.status == Ok ==> r == RunAll(st, resp.partitions)
    ensures resp.status == Ok && !Distinct(resp.partitions) ==> r.fault.Some?
  {
    if resp.status != Ok then
      Abort(Callbacks, st, resp.status)
    else
      RunAll(st, resp.partitions)
  }
}
