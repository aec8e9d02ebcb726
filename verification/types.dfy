/** Value types shared by the response-counting callbacks: Java's 32-bit
    `int`, the transaction status codes, the transaction handle, and the
    outward effects and faults a callback can produce. */
module Types {

  datatype Option<+T> = None | Some(value: T)

  function OptionToSeq<T>(o: Option<T>): (r: seq<T>)
    ensures |r| <= 1
    ensures r == [] <==> o.None?
    ensures o.Some? ==> r[0] == o.value
  {
    match o
    case None => []
    case Some(v) => [v]
  }

  // ----------------------------------------------------------------------
  // Java int
  // ----------------------------------------------------------------------

  const MinInt32: int := -0x8000_0000
  const MaxInt32: int := 0x7FFF_FFFF
  const TwoTo32: int := 0x1_0000_0000

  type Int32 = x: int | MinInt32 <= x <= MaxInt32

  /** Two's-complement wrap-around of a mathematical integer into Java's
      `int`: the unique value in range congruent to `x` modulo 2^32. */
  function Wrap32(x: int): (r: Int32)
    ensures (x - r) % TwoTo32 == 0
    ensures MinInt32 <= x <= MaxInt32 ==> r == x
  {
    var m := (x - MinInt32) % TwoTo32;
    assert x - MinInt32 == TwoTo32 * ((x - MinInt32) / TwoTo32) + m;
    m + MinInt32
  }

  /** Two values of `int` that are congruent modulo 2^32 are equal. */
  lemma CongruentInt32sAreEqual(a: Int32, b: Int32)
    requires (a - b) % TwoTo32 == 0
    ensures a == b
  {
    var d := a - b;
    var q := d / TwoTo32;
    assert d == TwoTo32 * q;
    assert -1 < q < 1;
  }

  /** `AtomicInteger.addAndGet(-1 * delta)` on a counter holding `counter`:
      both the negation and the addition wrap around. */
  function AddAndGetNegated(counter: Int32, delta: Int32): (r: Int32)
    ensures (counter - delta - r) % TwoTo32 == 0
    ensures MinInt32 <= counter - delta <= MaxInt32 ==> r == counter - delta
  {
    var neg := Wrap32(-1 * delta);
    var sum := Wrap32(counter + neg);
    assert (counter - delta - sum) % TwoTo32 == 0 by {
      SumOfMultiples(-1 * delta - neg, counter + neg - sum);
    }
    assert MinInt32 <= counter - delta <= MaxInt32 ==> sum == counter - delta by {
      if MinInt32 <= counter - delta <= MaxInt32 {
        CongruentInt32sAreEqual(counter - delta, sum);
      }
    }
    sum
  }

  lemma SumOfMultiples(a: int, b: int)
    requires a % TwoTo32 == 0 && b % TwoTo32 == 0
    ensures (a + b) % TwoTo32 == 0
  {
    assert a == TwoTo32 * (a / TwoTo32);
    assert b == TwoTo32 * (b / TwoTo32);
    assert a + b == TwoTo32 * (a / TwoTo32 + b / TwoTo32);
  }

  // ----------------------------------------------------------------------
  // Transactions and statuses
  // ----------------------------------------------------------------------

  /** The status carried by a transaction-init response or an abort.  Only
      the four values the callbacks branch on are named; every other value
      of the status enumeration is an `OtherStatus`. */
  datatype Status =
    | Ok
    | AbortSpeculative
    | AbortRestart
    | AbortReject
    | OtherStatus(code: nat)

  /** The transaction handle as far as the callbacks look at it.  `local`
      stands for the handle being a `LocalTransaction`.  The model represents
      no change to the handle. */
  datatype Txn = Txn(
    id: int,
    predictSinglePartition: bool,
    initialized: bool,
    local: bool)

  /** A call the callbacks make into the rest of the site, recorded instead
      of performed. */
  datatype Effect =
    | Start(txnId: int)                        // HStoreSite.transactionStart
    | Restart(txnId: int, status: Status)      // TransactionQueueManager.restartTransaction
    | Reject(txnId: int, status: Status)       // HStoreSite.transactionReject
    | FinishTxn(txnId: int, status: Status)    // initTransactionFinishCallback, then HStoreCoordinator.transactionFinish
    | DeleteTxn(txnId: int, status: Status)    // HStoreSite.queueDeleteTransaction

  /** The terminal hook that a callback invocation ran. */
  datatype Hook = UnblockHook | AbortHook(status: Status)

  /** An assertion failure or exception that ends a call. */
  datatype Fault =
    | DuplicateRun(partition: int)      // run() twice for one partition
    | UnblockTwice                      // unblock() after unblockInvoked was set
    | NullTransaction                   // no transaction handle
    | UninitializedTransaction          // handle present but not initialized
    | AbortedBeforeUnblock              // unblockCallback() on an aborted callback
    | UnexpectedStatus(status: Status)  // abortCallback() cannot classify the status
}
