/** Concrete runs of the init callback on a three-partition distributed
    transaction: the calls its response threads make, one after the
    other. */
module InitScenarios {
  import opened Types
  import opened PartitionCounting
  import opened LocalInitQueue
  import opened InitQueueProperties

  /** A local, initialized, multi-partition transaction. */
  const T: Txn := Txn(7, false, true, true)

  const P: set<int> := {0, 1, 2}

  /** The callback right after `init(T, {0, 1, 2})`. */
  const Armed: CallbackState := CallbackState(3, 3, Some(7), P, {}, Some(T), Cleared)

  /** `Armed` after partition 0 answered. */
  const AfterZero: CallbackState := Armed.(counter := 2, received := {0})

  /** `Armed` after partitions 0 and 1 answered. */
  const AfterOne: CallbackState := Armed.(counter := 1, received := {0, 1})

  /** `init(T, {0, 1, 2})` on a new callback arms it with a counter of 3. */
  lemma ArmedAfterInit()
    ensures |P| <= MaxInt32 && Init(Constructed(), T, P) == Armed
  {
    assert |P| == 3;
  }

  /** A response that is neither a repeat nor the last one missing only
      lowers the counter and records the partition. */
  lemma QuietRun(st: CallbackState, p: int)
    requires p !in st.received && st.counter > 1
    ensures Run(Callbacks, st, p) == Quiet(st.(counter := st.counter - 1, received := st.received + {p}))
  {
  }

  lemma FirstTwoResponses()
    ensures Run(Callbacks, Armed, 0) == Quiet(AfterZero)
    ensures Run(Callbacks, AfterZero, 1) == Quiet(AfterOne)
  {
    QuietRun(Armed, 0);
    assert Armed.received + {0} == {0};
    QuietRun(AfterZero, 1);
    assert AfterZero.received + {1} == {0, 1};
  }

  /** All three partitions accept: the transaction is started right after
      the third response, and not before. */
  lemma AllAcceptStartsOnLastResponse()
    ensures var r1 := Run(Callbacks, Armed, 0);
            var r2 := Run(Callbacks, r1.st, 1);
            var r3 := Run(Callbacks, r2.st, 2);
            && r1.fired == [] && r1.effects == []
            && r2.fired == [] && r2.effects == []
            && r3.fired == [UnblockHook]
            && r3.effects == [Start(7)]
            && r3.st.counter == 0
            && r3.fault.None?
  {
    FirstTwoResponses();
    assert |P| == 3;
    assert AfterOne.received + {2} == P;
    RunCountsOne(AfterOne, 2);
  }

  /** One acceptance, then a reject abort, then a late acceptance: the
      abort hook runs once and rejects the transaction, the late response
      is still recorded, and nothing is started. */
  lemma RejectAfterOneResponse()
    ensures var r1 := Run(Callbacks, Armed, 0);
            var r2 := Abort(Callbacks, r1.st, AbortReject);
            var r3 := Run(Callbacks, r2.st, 1);
            && r1.fired == [] && r3.fired == []
            && r2.fired == [AbortHook(AbortReject)]
            && r2.effects == [Reject(7, AbortReject), FinishTxn(7, AbortReject), DeleteTxn(7, AbortReject)]
            && r3.effects == []
            && r3.st.received == {0, 1}
            && r3.st.counter == 1
            && r2.fault.None? && r3.fault.None?
  {
    FirstTwoResponses();
    InitAbortOutcome(AfterZero, AbortReject);
    var s2 := Abort(Callbacks, AfterZero, AbortReject).st;
    assert s2 == AfterZero.(flags := Cleared.(abortInvoked := true, abortFinished := true));
    QuietRun(s2, 1);
    assert s2.received + {1} == {0, 1};
  }

  /** A restart abort asks the queue manager for exactly one restart and
      rejects nothing. */
  lemma RestartRequeuesOnce()
    ensures var r := Abort(Callbacks, Armed, AbortRestart);
            && r.effects == [Restart(7, AbortRestart), FinishTxn(7, AbortRestart), DeleteTxn(7, AbortRestart)]
            && r.fired == [AbortHook(AbortRestart)]
            && r.fault.None?
  {
    InitAbortOutcome(Armed, AbortRestart);
  }

  /** A second response from one partition is refused and does not lower
      the counter twice. */
  lemma DuplicateResponseRefused()
    ensures var r1 := Run(Callbacks, Armed, 0);
            var r2 := Run(Callbacks, r1.st, 0);
            && r2.fault == Some(DuplicateRun(0))
            && r2.st.counter == 2
            && r2.st.received == {0}
  {
    FirstTwoResponses();
  }

  /** An unexpected status is an error: nothing reaches the site and the
      abort stays unfinished. */
  lemma UnexpectedStatusIsFatal()
    ensures var r := Abort(Callbacks, Armed, OtherStatus(9));
            && r.fault == Some(UnexpectedStatus(OtherStatus(9)))
            && r.effects == []
            && r.st.flags.abortInvoked && !r.st.flags.abortFinished
            && !AllCallbacksFinished(r.st)
  {
    InitAbortOutcome(Armed, OtherStatus(9));
  }

  /** `Armed` after an abort whose hook threw. */
  const Stuck: CallbackState := Armed.(flags := Cleared.(abortInvoked := true))

  /** After an abort whose hook threw, the callback is stuck: every
      partition can still answer and the counter reaches zero, but the
      claimed abort keeps the unblock hook from running and the abort
      never finishes, so the callback is never reported done. */
  lemma FatalAbortStuck()
    ensures var r0 := Abort(Callbacks, Armed, OtherStatus(9));
            var r1 := Run(Callbacks, r0.st, 0);
            var r2 := Run(Callbacks, r1.st, 1);
            var r3 := Run(Callbacks, r2.st, 2);
            && r0.fault.Some?
            && r1.fired == [] && r2.fired == [] && r3.fired == []
            && r1.effects == [] && r2.effects == [] && r3.effects == []
            && r3.st.counter == 0
            && r3.st.received == P
            && !AllCallbacksFinished(r3.st)
  {
    InitAbortOutcome(Armed, OtherStatus(9));
    assert Abort(Callbacks, Armed, OtherStatus(9)).st == Stuck;
    QuietRun(Stuck, 0);
    var s1 := Stuck.(counter := 2, received := {0});
    assert Stuck.received + {0} == {0};
    QuietRun(s1, 1);
    var s2 := Stuck.(counter := 1, received := {0, 1});
    assert s1.received + {1} == {0, 1};
    assert s2.received + {2} == P;
  }
}
