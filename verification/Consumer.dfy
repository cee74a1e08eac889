/**
 The Kafka consumer: retry with doubling backoff, then the dead-letter queue,
 then commit, whatever happened.

 How the handler answers its i-th call for a message, whether the context is
 done during the i-th wait, and whether the dead-letter queue and the broker
 accept are inputs.
*/
module Consumer {

  datatype Reply = Ok | Err(error: string)

  /** processWithRetry returns nil, the handler's last error, or the context's error. */
  datatype Outcome = Success | Exhausted(error: string) | Cancelled

  const FirstBackoff: int := 100000000  // 100 ms in ns

  /** Go's int64. */
  function Wrapped(x: int): int {
    var r := x % 0x1_0000_0000_0000_0000;
    if r >= 0x8000_0000_0000_0000 then r - 0x1_0000_0000_0000_0000 else r
  }

  lemma WrappedExactly(x: int)
    ensures -0x8000_0000_0000_0000 <= Wrapped(x) < 0x8000_0000_0000_0000
    ensures (x - Wrapped(x)) % 0x1_0000_0000_0000_0000 == 0
  {
  }

  /** The wait before retry i + 1. */
  function Backoff(i: nat): int {
    if i == 0 then FirstBackoff else Wrapped(2 * Backoff(i - 1))
  }

  /** The waits requested before the first k retries, together. */
  function Waited(k: nat): int {
    if k == 0 then 0 else Waited(k - 1) + Backoff(k - 1)
  }

  /** What may come out of the retry loop, call by call. */
  ghost predicate Retried(maxRetries: int, handler: nat -> Reply, done: nat -> bool, r: Outcome, calls: nat, waited: int) {
    && waited == Waited(if calls == 0 then 0 else calls - 1)
    && (forall i :: 0 <= i < calls - 1 ==> handler(i).Err?)
    && (forall i :: 1 <= i < calls ==> !done(i))
    && match r
       case Success => if maxRetries < 0 then calls == 0 else 1 <= calls <= maxRetries + 1 && handler(calls - 1).Ok?
       case Exhausted(e) => calls == maxRetries + 1 >= 1 && handler(maxRetries) == Err(e)
       case Cancelled => 1 <= calls <= maxRetries && handler(calls - 1).Err? && done(calls)
  }

  method ProcessWithRetry(maxRetries: int, handler: nat -> Reply, done: nat -> bool)
    returns (r: Outcome, calls: nat, waited: int)
    ensures Retried(maxRetries, handler, done, r, calls, waited)
  {
    var lastErr := Success;
    var backoff := FirstBackoff;
    calls, waited := 0, 0;
    var attempt := 0;
    while attempt <= maxRetries
      invariant attempt == calls && (maxRetries >= 0 ==> attempt <= maxRetries + 1) && (maxRetries < 0 ==> attempt == 0)
      invariant backoff == Backoff(if attempt == 0 then 0 else attempt - 1)
      invariant waited == Waited(if attempt == 0 then 0 else attempt - 1)
      invariant forall i :: 0 <= i < attempt ==> handler(i).Err?
      invariant forall i :: 1 <= i < attempt ==> !done(i)
      invariant if attempt == 0 then lastErr == Success else lastErr == Exhausted(handler(attempt - 1).error)
      decreases maxRetries - attempt
    {
      if attempt > 0 {
        if done(attempt) {
          return Cancelled, calls, waited;
        }
        waited := waited + backoff;
        backoff := Wrapped(backoff * 2);
      }
      var reply := handler(attempt);
      calls := calls + 1;
      if reply.Ok? {
        return Success, calls, waited;
      }
      lastErr := Exhausted(reply.error);
      attempt := attempt + 1;
    }
    return lastErr, calls, waited;
  }

  /** Some call within the limit would succeed, and no wait before it is cut short. */
  ghost predicate WouldSucceed(maxRetries: int, handler: nat -> Reply, done: nat -> bool) {
    exists k: nat :: k <= maxRetries && handler(k).Ok? && (forall i :: 1 <= i <= k ==> !done(i))
  }

  /** The loop reports success exactly when a call within its limit would succeed; a negative limit it never tests. */
  lemma SuccessExactly(maxRetries: int, handler: nat -> Reply, done: nat -> bool, r: Outcome, calls: nat, waited: int)
    requires Retried(maxRetries, handler, done, r, calls, waited)
    ensures r == Success <==> maxRetries < 0 || WouldSucceed(maxRetries, handler, done)
  {
    if r == Success && maxRetries >= 0 {
      var k: nat := calls - 1;
      assert handler(k).Ok?;
    }
  }

  // ---------------------------------------------------------------------
  // The backoff.
  // ---------------------------------------------------------------------

  function Pow2(k: nat): (p: nat)
    ensures p >= 1
  {
    if k == 0 then 1 else 2 * Pow2(k - 1)
  }

  lemma {:induction false} Pow2Monotone(i: nat, j: nat)
    requires i <= j
    ensures Pow2(i) <= Pow2(j)
  {
    if i < j {
      Pow2Monotone(i, j - 1);
    }
  }

  lemma Pow2At36()
    ensures Pow2(36) == 0x10_0000_0000
  {
    assert Pow2(9) == 512;
    assert Pow2(18) == 512 * 512;
    assert Pow2(27) == 512 * 512 * 512;
  }

  lemma {:induction false} BackoffDoubles(i: nat)
    requires i <= 36
    ensures Backoff(i) == FirstBackoff * Pow2(i)
  {
    if i > 0 {
      BackoffDoubles(i - 1);
      Pow2Monotone(i, 36);
      Pow2At36();
    }
  }

  /** From then on int64 is too small for the doubled backoff. */
  lemma BackoffFallsShort(i: nat)
    requires i >= 37
    ensures Backoff(i) < FirstBackoff * Pow2(i)
  {
    Pow2Monotone(37, i);
    Pow2At36();
    assert Pow2(37) == 2 * Pow2(36);
  }

  lemma {:induction false} WaitedUpTo(k: nat)
    ensures Waited(k) <= FirstBackoff * (Pow2(k) - 1)
    ensures Waited(k) == FirstBackoff * (Pow2(k) - 1) <==> k <= 37
  {
    if k > 0 {
      WaitedUpTo(k - 1);
      if k - 1 <= 36 {
        BackoffDoubles(k - 1);
      } else {
        BackoffFallsShort(k - 1);
      }
    }
  }

  /**
   Success on retry k has waited exactly 100·(2^k − 1) ms, for every k that
   int64 has room for, and less for any other.
   */
  lemma BackoffBeforeSuccess(maxRetries: int, handler: nat -> Reply, done: nat -> bool, calls: nat, waited: int)
    requires Retried(maxRetries, handler, done, Success, calls, waited) && maxRetries >= 0
    ensures handler(calls - 1).Ok? && forall i :: 0 <= i < calls - 1 ==> handler(i).Err?
    ensures var k := calls - 1;
            && waited <= 100000000 * (Pow2(k) - 1)
            && (waited == 100000000 * (Pow2(k) - 1) <==> k <= 37)
  {
    WaitedUpTo(calls - 1);
  }

  // ---------------------------------------------------------------------
  // The consume loop of one worker.
  // ---------------------------------------------------------------------

  datatype Message = Message(offset: int, key: string, value: string)

  /** What happens in one round of the loop. */
  datatype Round =
    | FetchError
    | Fetched(msg: Message, handler: nat -> Reply, done: nat -> bool, dlqAccepts: bool, commitAccepted: bool)

  /** What became of one fetched message. */
  datatype Fate = Fate(msg: Message, result: Outcome, calls: nat, waited: int, offered: bool, stored: bool, committed: bool)

  ghost predicate Explains(maxRetries: int, hasDLQ: bool, x: Round, f: Fate) {
    && x.Fetched?
    && f.msg == x.msg
    && Retried(maxRetries, x.handler, x.done, f.result, f.calls, f.waited)
    && f.offered == (f.result != Success && hasDLQ)
    && f.stored == (f.offered && x.dlqAccepts)
    && f.committed == x.commitAccepted
  }

  /** The rounds that fetched a message. */
  function Arrived(rounds: seq<Round>): seq<Round> {
    if rounds == [] then []
    else Arrived(rounds[..|rounds| - 1]) + (if rounds[|rounds| - 1].Fetched? then [rounds[|rounds| - 1]] else [])
  }

  /** Wherever a round stands, it contributes itself there if it fetched a message, and nothing otherwise. */
  lemma {:induction false} ArrivedExactly(front: seq<Round>, x: Round, back: seq<Round>)
    ensures Arrived([]) == []
    ensures Arrived(front + [x] + back) == Arrived(front) + (if x.Fetched? then [x] else []) + Arrived(back)
  {
    if back == [] {
      assert front + [x] + back == front + [x];
      assert (front + [x])[..|front|] == front;
    } else {
      var n := |back| - 1;
      var all := front + [x] + back;
      assert all[..|all| - 1] == front + [x] + back[..n] && all[|all| - 1] == back[n];
      ArrivedExactly(front, x, back[..n]);
    }
  }

  class EventConsumer {
    const maxRetries: int
    const hasDLQ: bool
    var deadLetters: seq<Message>
    var offsets: seq<int>

    constructor (maxRetries: int, hasDLQ: bool)
      ensures this.maxRetries == maxRetries && this.hasDLQ == hasDLQ
      ensures deadLetters == [] && offsets == []
    {
      this.maxRetries, this.hasDLQ := maxRetries, hasDLQ;
      deadLetters, offsets := [], [];
    }

    method SendToDLQ(msg: Message, accepts: bool) returns (ok: bool)
      modifies this
      ensures ok == accepts && offsets == old(offsets)
      ensures deadLetters == old(deadLetters) + (if accepts then [msg] else [])
    {
      if accepts {
        deadLetters := deadLetters + [msg];
      }
      return accepts;
    }

    method HandleMessage(x: Round) returns (f: Fate)
      requires x.Fetched?
      modifies this
      ensures Explains(maxRetries, hasDLQ, x, f)
      ensures deadLetters == old(deadLetters) + (if f.stored then [f.msg] else [])
      ensures offsets == old(offsets) + (if f.committed then [f.msg.offset] else [])
    {
      var result, calls, waited := ProcessWithRetry(maxRetries, x.handler, x.done);
      var offered, stored := false, false;
      if result != Success {
        if hasDLQ {
          offered := true;
          stored := SendToDLQ(x.msg, x.dlqAccepts);
        }
      }
      if x.commitAccepted {
        offsets := offsets + [x.msg.offset];
      }
      f := Fate(x.msg, result, calls, waited, offered, stored, x.commitAccepted);
    }

    /** The rounds until the worker's context is done. */
    method ConsumeLoop(rounds: seq<Round>) returns (fates: seq<Fate>)
      modifies this
      ensures |fates| == |Arrived(rounds)|
      ensures forall i :: 0 <= i < |fates| ==> Explains(maxRetries, hasDLQ, Arrived(rounds)[i], fates[i])
      ensures deadLetters == old(deadLetters) + Stored(fates)
      ensures offsets == old(offsets) + Committed(fates)
    {
      fates := [];
      var k := 0;
      while k < |rounds|
        invariant 0 <= k <= |rounds|
        invariant |fates| == |Arrived(rounds[..k])|
        invariant forall i :: 0 <= i < |fates| ==> Explains(maxRetries, hasDLQ, Arrived(rounds[..k])[i], fates[i])
        invariant deadLetters == old(deadLetters) + Stored(fates)
        invariant offsets == old(offsets) + Committed(fates)
      {
        assert rounds[..k + 1][..k] == rounds[..k];
        if rounds[k].Fetched? {
          var f := HandleMessage(rounds[k]);
          assert (fates + [f])[..|fates|] == fates;
          fates := fates + [f];
        }
        k := k + 1;
      }
      assert rounds[..k] == rounds;
    }
  }

  function Stored(fates: seq<Fate>): seq<Message> {
    if fates == [] then []
    else Stored(fates[..|fates| - 1]) + (if fates[|fates| - 1].stored then [fates[|fates| - 1].msg] else [])
  }

  function Committed(fates: seq<Fate>): seq<int> {
    if fates == [] then []
    else Committed(fates[..|fates| - 1]) + (if fates[|fates| - 1].committed then [fates[|fates| - 1].msg.offset] else [])
  }

  /**
   Each message either had its handler succeed on the last call made, or was
   offered to the dead-letter queue after failing, or there was no such queue,
   or the retry limit was negative and the handler never called.
   */
  lemma FateOfMessage(maxRetries: int, hasDLQ: bool, x: Round, f: Fate)
    requires Explains(maxRetries, hasDLQ, x, f)
    ensures || (f.calls >= 1 && x.handler(f.calls - 1).Ok?)
            || (f.offered && f.calls >= 1 && x.handler(f.calls - 1).Err?)
            || (!hasDLQ && f.result != Success)
            || (maxRetries < 0 && f.calls == 0)
    ensures maxRetries >= 0 ==> 1 <= f.calls <= maxRetries + 1
  {
  }

  /** Committed, although no handler call succeeded and no dead letter was kept. */
  ghost predicate Lost(x: Round, f: Fate) {
    f.committed && !f.stored && forall i :: 0 <= i < f.calls ==> x.Fetched? && x.handler(i).Err?
  }

  /**
   The dead-letter queue does not keep every failed message: a committed one is
   lost exactly when no call within the limit would succeed and the queue is
   missing or refuses it, or when a negative limit skips the handler.
   */
  lemma LostExactly(maxRetries: int, hasDLQ: bool, x: Round, f: Fate)
    requires Explains(maxRetries, hasDLQ, x, f)
    ensures Lost(x, f) <==>
              && x.commitAccepted
              && (maxRetries < 0 || (!WouldSucceed(maxRetries, x.handler, x.done) && !(hasDLQ && x.dlqAccepts)))
  {
    SuccessExactly(maxRetries, x.handler, x.done, f.result, f.calls, f.waited);
    if f.result == Success && maxRetries >= 0 {
      assert x.handler(f.calls - 1).Ok?;
    }
  }
}
