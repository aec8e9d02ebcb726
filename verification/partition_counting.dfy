/** The generic partition-response counting callback.  One instance follows
    one transaction through one round of partition responses: it counts
    responses down from the number of expected partitions, and arbitrates
    between the success path (the unblock hook, run when the count reaches
    zero) and the failure path (the abort hook, run on the first abort).

    Every public call is one atomic transition of an immutable
    `CallbackState`.  A call returns a `Step`: the new state, the terminal
    hook it ran (if any), the effects that hook and the call had on the
    rest of the site, and the fault the call ended with (if any).  When a
    call faults part-way, the state is the one the call had reached when it
    stopped. */
module PartitionCounting {
  import opened Types

  /** The five flags that guard the terminal state of one lifecycle. */
  datatype Flags = Flags(
    unblockInvoked: bool,
    unblockFinished: bool,
    abortInvoked: bool,
    abortFinished: bool,
    canceled: bool)

  const Cleared: Flags := Flags(false, false, false, false, false)

  /** Between two `finish()` calls a flag is never turned off again. */
  predicate FlagsGrow(a: Flags, b: Flags) {
    && (a.unblockInvoked ==> b.unblockInvoked)
    && (a.unblockFinished ==> b.unblockFinished)
    && (a.abortInvoked ==> b.abortInvoked)
    && (a.abortFinished ==> b.abortFinished)
    && (a.canceled ==> b.canceled)
  }

  /** One of the two terminal paths has claimed this lifecycle. */
  predicate Decided(f: Flags) {
    f.unblockInvoked || f.abortInvoked
  }

  datatype CallbackState = CallbackState(
    counter: Int32,
    origCounter: Int32,          // kept across finish() for diagnostics
    origTxnId: Option<int>,      // kept across finish() for diagnostics
    partitions: set<int>,        // the expected partitions
    received: set<int>,
    ts: Option<Txn>,
    flags: Flags)

  /** The state of a freshly constructed callback: the field initialisers
      give a zero counter, empty partition sets, no handle and all five
      flags off, so nothing is outstanding. */
  function Constructed(): (r: CallbackState)
    ensures !IsInitialized(r) && r.flags == Cleared
    ensures r.counter == 0 && r.origTxnId.None?
    ensures r.partitions == {} && r.received == {}
    ensures AllCallbacksFinished(r)
  {
    CallbackState(0, 0, None, {}, {}, None, Cleared)
  }

  predicate IsInitialized(st: CallbackState) {
    st.ts.Some?
  }

  /** What a protocol-specific hook did: the calls it made into the site,
      whether it called `clearCounter()`, and whether it threw. */
  datatype HookResult = HookResult(effects: seq<Effect>, clearsCounter: bool, fault: Option<Fault>)

  /** The three methods a concrete callback supplies. */
  datatype Hooks = Hooks(
    runImpl: int -> Int32,
    unblockCallback: CallbackState -> HookResult,
    abortCallback: (Txn, Status) -> HookResult)

  datatype Step = Step(st: CallbackState, fired: seq<Hook>, effects: seq<Effect>, fault: Option<Fault>)

  function Quiet(st: CallbackState): Step {
    Step(st, [], [], None)
  }

  function Failed(st: CallbackState, f: Fault): Step {
    Step(st, [], [], Some(f))
  }

  /** What every transition other than `finish()` guarantees about the
      terminal-state guard: flags only turn on, `canceled` is left alone,
      the expected partitions, the handle and the diagnostics are not
      touched, at most one hook runs, it runs only while neither terminal
      path has been claimed and nothing is canceled, it claims one, and
      no effect reaches the site unless a hook ran. */
  predicate Arbitrated(st: CallbackState, r: Step) {
    && FlagsGrow(st.flags, r.st.flags)
    && r.st.flags.canceled == st.flags.canceled
    && r.st.partitions == st.partitions
    && r.st.ts == st.ts
    && r.st.origCounter == st.origCounter
    && r.st.origTxnId == st.origTxnId
    && |r.fired| <= 1
    && (r.fired != [] ==> !st.flags.canceled && !Decided(st.flags) && Decided(r.st.flags))
    && (r.effects != [] ==> r.fired != [])
  }

  // ----------------------------------------------------------------------
  // init / finish / cancel
  // ----------------------------------------------------------------------

  /** `init(ts, partitions)`: arms the counter with the number of expected
      partitions.  The partitions are added to, not substituted for, the
      expected set, and the received set and the flags are left as they
      are: only `finish()` clears them. */
  function Init(st: CallbackState, t: Txn, ps: set<int>): (r: CallbackState)
    requires |ps| <= MaxInt32
    ensures IsInitialized(r) && r.ts == Some(t) && r.origTxnId == Some(t.id)
    ensures r.counter == |ps| && r.origCounter == |ps|
    ensures r.partitions == st.partitions + ps
    ensures r.received == st.received && r.flags == st.flags
  {
    st.(origCounter := |ps|, counter := |ps|, partitions := st.partitions + ps,
        ts := Some(t), origTxnId := Some(t.id))
  }

  /** `finish()`: clears the flags, both partition sets and the handle so
      the instance can be reused.  The counter and the diagnostics are
      left as they were. */
  function Finish(st: CallbackState): (r: CallbackState)
    ensures r.flags == Cleared && !IsInitialized(r)
    ensures r.partitions == {} && r.received == {}
    ensures r.counter == st.counter
    ensures r.origCounter == st.origCounter && r.origTxnId == st.origTxnId
    ensures AllCallbacksFinished(r)
  {
    st.(flags := Cleared, partitions := {}, received := {}, ts := None)
  }

  /** `cancel()`: sets the canceled flag and nothing else. */
  function Cancel(st: CallbackState): (r: CallbackState)
    ensures r.flags.canceled
    ensures r.(flags := r.flags.(canceled := st.flags.canceled)) == st
    ensures AllCallbacksFinished(r)
  {
    st.(flags := st.flags.(canceled := true))
  }

  /** `allCallbacksFinished()`: nothing is outstanding when there is no
      transaction or the callback is canceled; otherwise every expected
      response must have been counted and the terminal hook that ran must
      have returned. */
  function AllCallbacksFinished(st: CallbackState): (r: bool)
    ensures r <==> (|| st.ts.None?
                    || st.flags.canceled
                    || (st.counter == 0 && (st.flags.unblockFinished || st.flags.abortFinished)))
  {
    if st.ts.Some? && !st.flags.canceled then
      if st.counter != 0 then false
      else if st.flags.unblockFinished || st.flags.abortFinished then true
      else (st.flags.unblockInvoked && st.flags.unblockFinished)
           || (st.flags.abortInvoked && st.flags.abortFinished)
    else true
  }

  /** `clearCounter()`, available to hooks. */
  function ClearCounter(st: CallbackState): (r: CallbackState)
    ensures r.counter == 0
    ensures r.(counter := st.counter) == st
  {
    st.(counter := 0)
  }

  function AfterHook(st: CallbackState, hr: HookResult): CallbackState {
    if hr.clearsCounter then ClearCounter(st) else st
  }

  // ----------------------------------------------------------------------
  // run / unblock
  // ----------------------------------------------------------------------

  /** `unblock()`: runs the unblock hook unless the callback is canceled or
      the abort path has been claimed, in which case it silently does
      nothing; a second unblock in one lifecycle is an error.  The
      finished flag is set only when the hook returns normally. */
  function Unblock(h: Hooks, st: CallbackState): (r: Step)
    ensures Arbitrated(st, r)
    ensures r.st.flags.abortInvoked == st.flags.abortInvoked
    ensures r.st.flags.abortFinished == st.flags.abortFinished
    ensures r.st.received == st.received
    ensures r.fired != [] <==> !st.flags.canceled && !Decided(st.flags)
    ensures r.fired != [] ==> r.fired == [UnblockHook] && r.st.flags.unblockInvoked
    ensures (st.flags.canceled || st.flags.abortInvoked) ==> r == Quiet(st)
    ensures !st.flags.canceled && !st.flags.abortInvoked && st.flags.unblockInvoked ==>
              r == Failed(st, UnblockTwice)
    ensures r.fired != [] ==>
              var hr := h.unblockCallback(st.(flags := st.flags.(unblockInvoked := true)));
              && r.effects == hr.effects
              && r.fault == hr.fault
              && r.st.flags.unblockFinished == (st.flags.unblockFinished || hr.fault.None?)
              && r.st.counter == (if hr.clearsCounter then 0 else st.counter)
  {
    if !st.flags.canceled && !st.flags.abortInvoked then
      if !st.flags.unblockInvoked then
        var st1 := st.(flags := st.flags.(unblockInvoked := true));
        var hr := h.unblockCallback(st1);
        var st2 := AfterHook(st1, hr);
        if hr.fault.Some? then
          Step(st2, [UnblockHook], hr.effects, hr.fault)
        else
          Step(st2.(flags := st2.flags.(unblockFinished := true)), [UnblockHook], hr.effects, None)
      else
        Failed(st, UnblockTwice)
    else
      Quiet(st)
  }

  /** `run(partition)`: a second response from one partition is an error
      and changes nothing.  Otherwise the counter drops by the hook's
      delta (in Java `int` arithmetic), the partition is recorded as
      received, and the unblock path is tried exactly when the counter
      lands on zero; the unblock hook then sees the lowered counter and
      the new partition.  The abort flags are never touched. */
  function Run(h: Hooks, st: CallbackState, p: int): (r: Step)
    ensures Arbitrated(st, r)
    ensures r.st.flags.abortInvoked == st.flags.abortInvoked
    ensures r.st.flags.abortFinished == st.flags.abortFinished
    ensures p in st.received ==> r == Failed(st, DuplicateRun(p))
    ensures p !in st.received ==> r.st.received == st.received + {p}
    ensures p !in st.received ==>
              var c := AddAndGetNegated(st.counter, h.runImpl(p));
              && (r.fired != [] <==> c == 0 && !st.flags.canceled && !Decided(st.flags))
              && (r.fired == [] ==> r.st.counter == c && r.st.flags == st.flags && r.effects == [])
              && (r.fired == [] && r.fault.Some? <==>
                    c == 0 && !st.flags.canceled && !st.flags.abortInvoked && st.flags.unblockInvoked)
              && (r.fired == [] && r.fault.Some? ==> r.fault == Some(UnblockTwice))
    ensures p !in st.received ==> r.st.counter == AddAndGetNegated(st.counter, h.runImpl(p))
    ensures r.fired != [] ==>
              var c := AddAndGetNegated(st.counter, h.runImpl(p));
              var hr := h.unblockCallback(st.(counter := c, received := st.received + {p},
                                              flags := st.flags.(unblockInvoked := true)));
              && r.fired == [UnblockHook]
              && r.st.flags.unblockInvoked
              && r.effects == hr.effects
              && r.fault == hr.fault
              && r.st.flags.unblockFinished == (st.flags.unblockFinished || hr.fault.None?)
  {
    if p in st.received then
      Failed(st, DuplicateRun(p))
    else
      var delta := h.runImpl(p);
      var newCount := AddAndGetNegated(st.counter, delta);
      var st1 := st.(counter := newCount, received := st.received + {p});
      if newCount == 0 then Unblock(h, st1) else Quiet(st1)
  }

  // ----------------------------------------------------------------------
  // abort
  // ----------------------------------------------------------------------

  /** `finishTransaction(status)`: only a local transaction starts the
      transaction-finish protocol. */
  function FinishTransaction(t: Txn, s: Status): (r: seq<Effect>)
    ensures r != [] <==> t.local
    ensures r != [] ==> r == [FinishTxn(t.id, s)]
  {
    if t.local then [FinishTxn(t.id, s)] else []
  }

  /** The clean-up `abort()` performs after its hook returns: the finish
      protocol for a multi-partition local transaction, then the request to
      delete the transaction's state, for every transaction. */
  function AbortCleanup(t: Txn, s: Status): (r: seq<Effect>)
    ensures |r| >= 1 && r[|r| - 1] == DeleteTxn(t.id, s)
    ensures FinishTxn(t.id, s) in r <==> !t.predictSinglePartition && t.local
    ensures forall e | e in r :: e == FinishTxn(t.id, s) || e == DeleteTxn(t.id, s)
    ensures |r| == (if !t.predictSinglePartition && t.local then 2 else 1)
  {
    (if !t.predictSinglePartition && t.local then FinishTransaction(t, s) else [])
    + [DeleteTxn(t.id, s)]
  }

  predicate HandleReady(st: CallbackState) {
    st.ts.Some? && st.ts.value.initialized
  }

  /** `abort(status)`: needs an initialized transaction handle.  Only the
      first abort of a non-canceled lifecycle gets through; if the unblock
      path was claimed first it still claims the abort flag but runs no
      hook and leaves `abortFinished` unset.  Otherwise it runs the abort
      hook, then the clean-up, and sets `abortFinished`; a hook that throws
      skips the clean-up and leaves `abortFinished` unset.  The unblock
      flags are never touched. */
  function Abort(h: Hooks, st: CallbackState, s: Status): (r: Step)
    ensures Arbitrated(st, r)
    ensures r.st.flags.unblockInvoked == st.flags.unblockInvoked
    ensures r.st.flags.unblockFinished == st.flags.unblockFinished
    ensures r.st.received == st.received
    ensures st.ts.None? ==> r == Failed(st, NullTransaction)
    ensures st.ts.Some? && !st.ts.value.initialized ==> r == Failed(st, UninitializedTransaction)
    ensures HandleReady(st) ==> r.fault.None? || r.fired != []
    ensures HandleReady(st) && (st.flags.canceled || st.flags.abortInvoked) ==> r == Quiet(st)
    ensures HandleReady(st) && !st.flags.canceled && !st.flags.abortInvoked && st.flags.unblockInvoked ==>
              r == Quiet(st.(flags := st.flags.(abortInvoked := true)))
    ensures r.fired != [] <==> HandleReady(st) && !st.flags.canceled && !Decided(st.flags)
    ensures r.fired != [] ==>
              var t := st.ts.value;
              var hr := h.abortCallback(t, s);
              && r.fired == [AbortHook(s)]
              && r.st.flags.abortInvoked
              && r.fault == hr.fault
              && r.st.flags.abortFinished == (st.flags.abortFinished || hr.fault.None?)
              && r.effects == hr.effects + (if hr.fault.None? then AbortCleanup(t, s) else [])
              && r.st.counter == (if hr.clearsCounter then 0 else st.counter)
  {
    if st.ts.None? then
      Failed(st, NullTransaction)
    else if !st.ts.value.initialized then
      Failed(st, UninitializedTransaction)
    else if !st.flags.canceled && !st.flags.abortInvoked then
      var st1 := st.(flags := st.flags.(abortInvoked := true));
      if st1.flags.unblockInvoked then
        // the two terminal paths raced and unblock won: warn and drop
        Quiet(st1)
      else
        var t := st.ts.value;
        var hr := h.abortCallback(t, s);
        var st2 := AfterHook(st1, hr);
        if hr.fault.Some? then
          Step(st2, [AbortHook(s)], hr.effects, hr.fault)
        else
          Step(st2.(flags := st2.flags.(abortFinished := true)), [AbortHook(s)],
               hr.effects + AbortCleanup(t, s), None)
    else
      Quiet(st)
  }
}
