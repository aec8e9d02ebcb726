/** What the init callback guarantees when its hooks are plugged into the
    generic counting callback: the counter tracks exactly the partitions
    still to answer, the transaction is started once every partition has
    answered, and an abort is classified into restart or reject. */
module InitQueueProperties {
  import opened Types
  import opened PartitionCounting
  import opened LocalInitQueue
  import opened Lifecycle

  /** The counter holds the number of expected partitions that have not
      answered yet. */
  predicate Accounted(st: CallbackState) {
    && st.received <= st.partitions
    && st.counter == |st.partitions| - |st.received|
  }

  /** What the unblock hook sends to the site for a transaction. */
  function StartEffects(t: Txn): seq<Effect> {
    if t.predictSinglePartition then [] else [Start(t.id)]
  }

  lemma SubsetSize(a: set<int>, b: set<int>)
    requires a <= b
    ensures |b| == |a| + |b - a|
    ensures |a| == |b| ==> a == b
  {
    assert b == a + (b - a);
    assert |b - a| == 0 ==> b - a == {};
  }

  lemma FirstIsElement(ps: seq<int>)
    ensures ps != [] ==> ps[0] in Elements(ps)
  {
  }

  /** One response from an expected partition that has not answered yet
      lowers the counter by one and keeps it equal to the number of
      partitions still missing, whatever the flags say: the counter goes
      on counting after a cancel or an abort.  A hook runs exactly when
      this was the last partition missing and neither path is claimed. */
  lemma RunCounts(st: CallbackState, p: int)
    requires Accounted(st) && p in st.partitions && p !in st.received
    ensures var r := Run(Callbacks, st, p);
            && Accounted(r.st)
            && r.st.partitions == st.partitions
            && r.st.received == st.received + {p}
            && r.st.counter == st.counter - 1
            && (r.fired != [] <==>
                  r.st.received == st.partitions && !st.flags.canceled && !Decided(st.flags))
            && (r.fired == [] ==> r.effects == [])
  {
    SubsetSize(st.received + {p}, st.partitions);
    assert 1 <= st.counter;
  }

  /** The same response from a live callback with a transaction handle:
      it never fails, and when it is the last one missing it runs the
      unblock hook, which starts a distributed transaction. */
  lemma RunCountsOne(st: CallbackState, p: int)
    requires Accounted(st) && p in st.partitions && p !in st.received
    requires !st.flags.canceled && !Decided(st.flags) && st.ts.Some?
    ensures var r := Run(Callbacks, st, p);
            && r.fault.None?
            && Accounted(r.st)
            && r.st.received == st.received + {p}
            && r.st.counter == st.counter - 1
            && (r.fired != [] <==> r.st.received == st.partitions)
            && (r.fired != [] ==>
                  && r.fired == [UnblockHook]
                  && r.effects == StartEffects(st.ts.value)
                  && r.st.flags == st.flags.(unblockInvoked := true, unblockFinished := true))
            && (r.fired == [] ==> r.effects == [] && r.st.flags == st.flags)
  {
    RunCounts(st, p);
  }

  /** An abort never changes what has been counted. */
  lemma AbortKeepsAccounted(st: CallbackState, s: Status)
    requires Accounted(st)
    ensures var r := Abort(Callbacks, st, s);
            Accounted(r.st) && r.st.partitions == st.partitions
  {
  }

  /** Any list of expected partitions, in any state of the flags: however
      far the loop gets before a duplicate or a failing hook stops it, the
      counter still equals the number of partitions missing. */
  lemma {:induction false} RunAllKeepsAccounted(st: CallbackState, ps: seq<int>)
    requires Accounted(st) && Elements(ps) <= st.partitions
    ensures Accounted(RunAll(st, ps).st)
    decreases |ps|
  {
    if ps != [] {
      assert ps[0] in Elements(ps);
      assert Elements(ps[1..]) <= Elements(ps);
      var s1 := Run(Callbacks, st, ps[0]);
      if ps[0] !in st.received {
        RunCounts(st, ps[0]);
        if s1.fault.None? {
          RunAllKeepsAccounted(s1.st, ps[1..]);
        }
      }
    }
  }

  /** The calls an armed callback receives until it is finished: partition
      responses for expected partitions, aborts and cancels. */
  predicate Responses(calls: seq<Call>, partitions: set<int>) {
    forall i | 0 <= i < |calls| ::
      && !calls[i].InitCall? && !calls[i].FinishCall?
      && (calls[i].RunCall? ==> calls[i].partition in partitions)
  }

  /** Across any interleaving of whole `run`, `abort` and `cancel` calls,
      the counter of the init callback equals the number of expected
      partitions that have not answered yet. */
  lemma {:induction false} ExecKeepsAccounted(st: CallbackState, calls: seq<Call>)
    requires Accounted(st) && Responses(calls, st.partitions)
    ensures WellFormed(calls)
    ensures Accounted(Exec(Callbacks, st, calls).st)
    ensures Exec(Callbacks, st, calls).st.partitions == st.partitions
    decreases |calls|
  {
    if calls != [] {
      var init := calls[..|calls| - 1];
      assert Responses(init, st.partitions);
      ExecKeepsAccounted(st, init);
      var prev := Exec(Callbacks, st, init).st;
      var c := calls[|calls| - 1];
      match c
      case RunCall(p) =>
        if p !in prev.received {
          RunCounts(prev, p);
        }
      case AbortCall(s) =>
        AbortKeepsAccounted(prev, s);
      case CancelCall =>
    }
  }

  /** Responses from distinct expected partitions that have not answered
      yet keep the counter equal to the number still missing; the unblock
      hook runs, once, exactly when the last of them arrives. */
  lemma {:induction false} RunAllAccounting(st: CallbackState, ps: seq<int>)
    requires Accounted(st) && st.received != st.partitions
    requires !st.flags.canceled && !Decided(st.flags) && st.ts.Some?
    requires Distinct(ps) && Elements(ps) <= st.partitions - st.received
    ensures var r := RunAll(st, ps);
            && r.fault.None?
            && Accounted(r.st)
            && r.st.received == st.received + Elements(ps)
            && (r.fired != [] <==> r.st.received == st.partitions)
            && (r.fired != [] ==>
                  && r.fired == [UnblockHook]
                  && r.effects == StartEffects(st.ts.value)
                  && r.st.flags == st.flags.(unblockInvoked := true, unblockFinished := true))
            && (r.fired == [] ==> r.effects == [] && r.st.flags == st.flags)
    decreases |ps|
  {
    if ps != [] {
      assert ps == [ps[0]] + ps[1..];
      assert Elements(ps) == {ps[0]} + Elements(ps[1..]);
      assert ps[0] in Elements(ps);
      RunCountsOne(st, ps[0]);
      var s1 := Run(Callbacks, st, ps[0]);
      var rest := ps[1..];
      assert Distinct(rest);
      assert ps[0] !in Elements(rest);
      var s2 := RunAll(s1.st, rest);
      assert RunAll(st, ps) == Step(s2.st, s1.fired + s2.fired, s1.effects + s2.effects, s2.fault);
      if s1.st.received == st.partitions {
        assert Elements(rest) == {};
        FirstIsElement(rest);
        assert s2 == Quiet(s1.st);
      } else {
        RunAllAccounting(s1.st, rest);
        assert s1.fired == [] && s1.effects == [];
      }
    }
  }

  /** The response loop runs its partitions in order: when a prefix gets
      through, running the whole list is running the prefix and then the
      rest from where the prefix left off, with the hooks and effects of
      both kept in order.  In particular a later duplicate does not undo
      what the earlier partitions did. */
  lemma {:induction false} RunAllAppend(st: CallbackState, xs: seq<int>, ys: seq<int>)
    requires RunAll(st, xs).fault.None?
    ensures var a := RunAll(st, xs);
            var b := RunAll(a.st, ys);
            RunAll(st, xs + ys) == Step(b.st, a.fired + b.fired, a.effects + b.effects, b.fault)
    decreases |xs|
  {
    if xs == [] {
      assert xs + ys == ys;
    } else {
      assert (xs + ys)[0] == xs[0];
      assert (xs + ys)[1..] == xs[1..] + ys;
      var s1 := Run(Callbacks, st, xs[0]);
      RunAllAppend(s1.st, xs[1..], ys);
    }
  }

  /** A partition listed again after a prefix that got through: the
      prefix's hooks and effects stand (a transaction it started stays
      started), the state is the one the prefix left, and only then does
      the repeat fail. */
  lemma LateDuplicateKeepsPrefix(st: CallbackState, xs: seq<int>, p: int)
    requires RunAll(st, xs).fault.None? && p in xs
    ensures var a := RunAll(st, xs);
            RunAll(st, xs + [p]) == Step(a.st, a.fired, a.effects, Some(DuplicateRun(p)))
  {
    var a := RunAll(st, xs);
    assert p in Elements(xs);
    RunAllAppend(st, xs, [p]);
    assert RunAll(a.st, [p]) == Failed(a.st, DuplicateRun(p));
  }

  /** After `finish()` and `init(t, P)`, one response from each partition
      of a non-empty `P`, in any order, leaves the counter at zero with
      every partition received, has run the unblock hook exactly once and
      the abort hook never, and leaves nothing outstanding. */
  lemma AllResponsesUnblockOnce(st0: CallbackState, t: Txn, partitions: set<int>, ps: seq<int>)
    requires 1 <= |partitions| <= MaxInt32
    requires Distinct(ps) && Elements(ps) == partitions
    ensures var r := RunAll(Init(Finish(st0), t, partitions), ps);
            && r.fault.None?
            && r.st.counter == 0
            && r.st.received == partitions
            && r.fired == [UnblockHook]
            && r.effects == StartEffects(t)
            && r.st.flags == Cleared.(unblockInvoked := true, unblockFinished := true)
            && AllCallbacksFinished(r.st)
  {
    var st := Init(Finish(st0), t, partitions);
    assert st.partitions == partitions && st.received == {};
    RunAllAccounting(st, ps);
  }

  /** While some expected partition has not answered, nothing is started
      and the counter stays positive. */
  lemma MissingResponsesBlock(st0: CallbackState, t: Txn, partitions: set<int>, ps: seq<int>)
    requires |partitions| <= MaxInt32
    requires Distinct(ps) && Elements(ps) < partitions
    ensures var r := RunAll(Init(Finish(st0), t, partitions), ps);
            && r.fault.None?
            && r.st.counter == |partitions - Elements(ps)| > 0
            && r.fired == []
            && r.effects == []
            && !AllCallbacksFinished(r.st)
  {
    var st := Init(Finish(st0), t, partitions);
    assert st.partitions == partitions && st.received == {};
    RunAllAccounting(st, ps);
    var r := RunAll(st, ps);
    assert |partitions| == |partitions - Elements(ps)| + |Elements(ps)| by {
      assert partitions == (partitions - Elements(ps)) + Elements(ps);
    }
    assert partitions - Elements(ps) != {} by {
      var x :| x in partitions - Elements(ps);
    }
  }

  /** The first abort of a live init callback runs the abort hook once and
      never changes the counter.  A speculative or restart abort requeues
      the transaction and a reject abort rejects it, each followed by the
      clean-up; any other status fails before the clean-up and leaves the
      abort unfinished. */
  lemma InitAbortOutcome(st: CallbackState, s: Status)
    requires HandleReady(st) && !st.flags.canceled && !Decided(st.flags)
    ensures var r := Abort(Callbacks, st, s);
            var t := st.ts.value;
            && r.fired == [AbortHook(s)]
            && r.st.flags.abortInvoked
            && r.st.counter == st.counter
            && r.st.received == st.received
            && (Restartable(s) ==>
                  && r.fault.None?
                  && r.st.flags.abortFinished
                  && r.effects == [Restart(t.id, s)] + AbortCleanup(t, s))
            && (s == AbortReject ==>
                  && r.fault.None?
                  && r.st.flags.abortFinished
                  && r.effects == [Reject(t.id, s)] + AbortCleanup(t, s))
            && (!Restartable(s) && s != AbortReject ==>
                  && r.fault == Some(UnexpectedStatus(s))
                  && r.effects == []
                  && r.st.flags.abortFinished == st.flags.abortFinished)
  {
  }

  /** For interleavings of whole calls, the assertion at the top of the
      init unblock hook never fails: the generic callback only runs the
      hook while no abort has been claimed. */
  lemma UnblockNeverSeesAbort(st: CallbackState)
    ensures Unblock(Callbacks, st).fault != Some(AbortedBeforeUnblock)
  {
  }
}
