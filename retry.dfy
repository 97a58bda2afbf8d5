/** `tryUntil` (src/main.ts:110-130): call an operation until its result
    satisfies a condition, at most once plus five retries, one second apart. */
module Retry {
  import opened Wrappers
  import opened Effects

  const MAX_RETRIES: nat := 5
  const DELAY_MS: nat := 1000

  // The operation is an oracle: `op(k)` is what its call number `k` returns
  // (0 for the first call, k for the k-th retry).

  /** Number of the last call: the first one whose result satisfies `cond`,
      or call MAX_RETRIES when none from `k` on does. */
  function LastCall<T>(op: nat -> T, cond: T -> bool, k: nat): (r: nat)
    requires k <= MAX_RETRIES
    decreases MAX_RETRIES - k
    ensures k <= r <= MAX_RETRIES
    ensures forall j :: k <= j < r ==> !cond(op(j))
    ensures cond(op(r)) || r == MAX_RETRIES
  {
    if cond(op(k)) || k == MAX_RETRIES then k else LastCall(op, cond, k + 1)
  }

  /** How many times the operation runs. */
  function Calls<T>(op: nat -> T, cond: T -> bool): (n: nat)
    ensures 1 <= n <= MAX_RETRIES + 1
  {
    LastCall(op, cond, 0) + 1
  }

  /** What `tryUntil` returns: the last result if it satisfies `cond`, else null. */
  function Outcome<T>(op: nat -> T, cond: T -> bool): Option<T> {
    var k := LastCall(op, cond, 0);
    if cond(op(k)) then Some(op(k)) else None
  }

  /** `n` retries: each a one-second delay, then a call. */
  function Retries(n: nat): seq<Event> {
    if n == 0 then [] else Retries(n - 1) + [Sleep(DELAY_MS), Attempt]
  }

  /** Everything `tryUntil` does, in order: the first call, the retries, and
      the failure toast when it gives up. */
  function PollTrace<T>(op: nat -> T, cond: T -> bool, errorMessage: string): seq<Event> {
    [Attempt] + Retries(Calls(op, cond) - 1) +
    (if Outcome(op, cond).None? then [Toast(errorMessage, Failure)] else [])
  }

  method TryUntil<T>(op: nat -> T, cond: T -> bool, errorMessage: string)
    returns (r: Option<T>, calls: nat, trace: seq<Event>)
    ensures calls == Calls(op, cond)
    ensures r == Outcome(op, cond)
    ensures trace == PollTrace(op, cond, errorMessage)
  {
    var retries := 0;
    var result := op(0);
    trace := [Attempt];
    while !cond(result) && retries < MAX_RETRIES
      invariant retries <= MAX_RETRIES
      invariant result == op(retries)
      invariant forall j :: 0 <= j < retries ==> !cond(op(j))
      invariant trace == [Attempt] + Retries(retries)
    {
      trace := trace + [Sleep(DELAY_MS)];
      result := op(retries + 1);
      trace := trace + [Attempt];
      retries := retries + 1;
    }
    calls := retries + 1;
    if retries >= MAX_RETRIES && !cond(result) {
      trace := trace + [Toast(errorMessage, Failure)];
      r := None;
    } else {
      r := Some(result);
    }
  }

  /** The result is non-null exactly when some call of the budget satisfies
      `cond`; it is then the first satisfying result, and every earlier call
      failed. Null comes only after all five retries. */
  lemma OutcomeIsFirstSatisfying<T>(op: nat -> T, cond: T -> bool)
    ensures Outcome(op, cond).Some? <==> exists k :: 0 <= k <= MAX_RETRIES && cond(op(k))
    ensures Outcome(op, cond).Some? ==>
      && Outcome(op, cond).value == op(Calls(op, cond) - 1)
      && cond(Outcome(op, cond).value)
      && forall j :: 0 <= j < Calls(op, cond) - 1 ==> !cond(op(j))
    ensures Outcome(op, cond).None? ==> Calls(op, cond) == MAX_RETRIES + 1
  {
    var k := LastCall(op, cond, 0);
    if !cond(op(k)) {
      forall j | 0 <= j <= MAX_RETRIES ensures !cond(op(j)) {
        if j < k { } else { assert j == k; }
      }
    }
  }

  /** Counts of `n` retries: `n` delays, `n` calls, nothing else. */
  lemma {:induction false} RetriesShape(n: nat)
    ensures |Retries(n)| == 2 * n
    ensures multiset(Retries(n))[Attempt] == n
    ensures multiset(Retries(n))[Sleep(DELAY_MS)] == n
    ensures forall i :: 0 <= i < |Retries(n)| ==> Retries(n)[i] == Sleep(DELAY_MS) || Retries(n)[i] == Attempt
  {
    if n > 0 {
      var prev := Retries(n - 1);
      RetriesShape(n - 1);
      var t := Retries(n);
      assert t == prev + [Sleep(DELAY_MS), Attempt];
      var m := multiset(t);
      assert m == multiset(prev) + multiset{Sleep(DELAY_MS), Attempt};
      assert multiset{Sleep(DELAY_MS), Attempt}[Attempt] == 1;
      assert multiset{Sleep(DELAY_MS), Attempt}[Sleep(DELAY_MS)] == 1;
      forall i | 0 <= i < |t| ensures t[i] == Sleep(DELAY_MS) || t[i] == Attempt {
        if i < |prev| { assert t[i] == prev[i]; }
      }
    }
  }

  /** In `n` retries every delay is one second and directly followed by a call. */
  lemma {:induction false} RetriesSleepThenCall(n: nat)
    ensures forall i :: 0 <= i < |Retries(n)| && Retries(n)[i].Sleep? ==>
      Retries(n)[i].ms == DELAY_MS && i + 1 < |Retries(n)| && Retries(n)[i + 1] == Attempt
  {
    if n > 0 {
      RetriesSleepThenCall(n - 1);
      var prev := Retries(n - 1);
      assert Retries(n) == prev + [Sleep(DELAY_MS), Attempt];
      forall i | 0 <= i < |Retries(n)| && Retries(n)[i].Sleep?
        ensures Retries(n)[i].ms == DELAY_MS && i + 1 < |Retries(n)| && Retries(n)[i + 1] == Attempt
      {
        if i < |prev| {
          assert Retries(n)[i] == prev[i];
          assert i + 1 < |prev|;
          assert Retries(n)[i + 1] == prev[i + 1];
        }
      }
    }
  }

  /** In `n` retries delays and calls alternate, starting with a delay. */
  lemma {:induction false} RetriesAlternate(n: nat)
    ensures |Retries(n)| == 2 * n
    ensures forall i :: 0 <= i < |Retries(n)| ==>
      Retries(n)[i] == if i % 2 == 0 then Sleep(DELAY_MS) else Attempt
  {
    if n > 0 {
      RetriesAlternate(n - 1);
      var prev := Retries(n - 1);
      assert Retries(n) == prev + [Sleep(DELAY_MS), Attempt];
      forall i | 0 <= i < |Retries(n)|
        ensures Retries(n)[i] == if i % 2 == 0 then Sleep(DELAY_MS) else Attempt
      {
        if i < |prev| {
          assert Retries(n)[i] == prev[i];
        }
      }
    }
  }

  /** The trace of `tryUntil` calls as often as Calls says and sleeps once per retry. */
  lemma PollTraceCounts<T>(op: nat -> T, cond: T -> bool, errorMessage: string)
    ensures var t := PollTrace(op, cond, errorMessage);
      && multiset(t)[Attempt] == Calls(op, cond)
      && multiset(t)[Sleep(DELAY_MS)] == Calls(op, cond) - 1
  {
    var n := Calls(op, cond) - 1;
    var r := Retries(n);
    RetriesShape(n);
    var t := PollTrace(op, cond, errorMessage);
    var tail := if Outcome(op, cond).None? then [Toast(errorMessage, Failure)] else [];
    assert t == [Attempt] + r + tail;
    assert multiset(t) == multiset{Attempt} + multiset(r) + multiset(tail);
    assert multiset(tail)[Attempt] == 0 && multiset(tail)[Sleep(DELAY_MS)] == 0;
  }

  /** `tryUntil` shows the failure toast, as its last event, exactly when it gives up. */
  lemma PollTraceToast<T>(op: nat -> T, cond: T -> bool, errorMessage: string)
    ensures var t := PollTrace(op, cond, errorMessage);
      && (Toast(errorMessage, Failure) in t <==> Outcome(op, cond).None?)
      && (Outcome(op, cond).None? ==> t[|t| - 1] == Toast(errorMessage, Failure))
  {
    var n := Calls(op, cond) - 1;
    var r := Retries(n);
    RetriesShape(n);
    var t := PollTrace(op, cond, errorMessage);
    var toast := Toast(errorMessage, Failure);
    var tail := if Outcome(op, cond).None? then [toast] else [];
    assert t == [Attempt] + r + tail;
    assert toast !in r;
    assert toast in t <==> toast in tail;
  }

  /** No delay comes before the first call, every delay is one second and
      directly followed by a call, and every later call directly follows a
      one-second delay. */
  lemma PollTraceOrder<T>(op: nat -> T, cond: T -> bool, errorMessage: string)
    ensures var t := PollTrace(op, cond, errorMessage);
      && t[0] == Attempt
      && (forall i :: 0 <= i < |t| && t[i].Sleep? ==> t[i].ms == DELAY_MS && i + 1 < |t| && t[i + 1] == Attempt)
      && (forall i :: 1 <= i < |t| && t[i] == Attempt ==> t[i - 1] == Sleep(DELAY_MS))
  {
    var n := Calls(op, cond) - 1;
    var r := Retries(n);
    RetriesSleepThenCall(n);
    var t := PollTrace(op, cond, errorMessage);
    var tail := if Outcome(op, cond).None? then [Toast(errorMessage, Failure)] else [];
    assert t == [Attempt] + r + tail;
    forall i | 0 <= i < |t| && t[i].Sleep?
      ensures t[i].ms == DELAY_MS && i + 1 < |t| && t[i + 1] == Attempt
    {
      assert 1 <= i <= |r|;
      assert r[i - 1] == t[i];
      assert r[i] == t[i + 1];
    }
    RetriesAlternate(n);
    forall i | 1 <= i < |t| && t[i] == Attempt
      ensures t[i - 1] == Sleep(DELAY_MS)
    {
      assert i <= |r|;
      assert r[i - 1] == t[i];
      assert i - 1 >= 1;
      assert r[i - 2] == t[i - 1];
    }
  }
}
