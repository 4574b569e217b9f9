/** The client's retry loop: how often a request is sent, and how long it waits in between. */
module RetryLoop {
  import opened Options

  datatype Method = Get | Put | Delete | Post | Patch {
    predicate IsIdempotent() {
      Get? || Put? || Delete?
    }
  }

  /** One answer of the network: data, an error that may be retried, or one that may not. */
  datatype Reply = Data | Retriable(code: nat) | Fatal(code: nat)

  datatype Outcome = Success | Error(code: nat) | UnknownError

  const MAX_U64: int := 0xFFFF_FFFF_FFFF_FFFF

  function Pow2(n: nat): nat {
    if n == 0 then 1 else 2 * Pow2(n - 1)
  }

  /** The wait before an attempt, in milliseconds. */
  function Delay(attempt: nat): nat
    requires attempt > 0
  {
    100 * Pow2(attempt - 1)
  }

  function MaxRetries(m: Method, retries: nat): nat {
    if m.IsIdempotent() then retries else 0
  }

  /** The first answer that ends the loop, if one of the first n answers does. */
  function FirstFinal(replies: nat -> Reply, n: nat): Option<nat> {
    if n == 0 then None
    else
      var earlier := FirstFinal(replies, n - 1);
      if earlier.Some? then earlier else if replies(n - 1).Retriable? then None else Some(n - 1)
  }

  /**
   Sends until an answer is final or the retries are used up: POST and PATCH once, GET, PUT
   and DELETE up to `retries` times more. The waits add up to one less than the next power
   of two, and the loop's last line is never reached.
   */
  method RequestWithRetry(m: Method, retries: nat, replies: nat -> Reply)
    returns (r: Outcome, sends: nat, waited: nat)
    ensures m.Post? || m.Patch? ==> sends == 1 && waited == 0
    ensures m.Get? || m.Put? || m.Delete? ==> 1 <= sends <= retries + 1
    ensures forall k | 0 <= k < sends - 1 :: replies(k).Retriable?
    ensures (m.Get? || m.Put? || m.Delete?) && replies(sends - 1).Retriable? ==> sends == retries + 1
    ensures match replies(sends - 1)
            case Data => r == Success
            case Retriable(code) => r == Error(code)
            case Fatal(code) => r == Error(code)
    ensures waited == 100 * (Pow2(sends - 1) - 1)
    ensures match FirstFinal(replies, MaxRetries(m, retries) + 1)
            case Some(k) => sends == k + 1
            case None => sends == MaxRetries(m, retries) + 1
  {
    var maxRetries := if m.IsIdempotent() then retries else 0;
    var lastError := UnknownError;
    sends, waited := 0, 0;
    for attempt := 0 to maxRetries + 1
      invariant sends == attempt
      invariant waited == if attempt == 0 then 0 else 100 * (Pow2(attempt - 1) - 1)
      invariant FirstFinal(replies, attempt).None?
      invariant forall k | 0 <= k < attempt :: replies(k).Retriable?
      invariant attempt <= maxRetries
    {
      if attempt > 0 {
        waited := waited + Delay(attempt);
      }
      sends := sends + 1;
      var reply := replies(attempt);
      match reply
      case Data =>
        FinalStays(replies, attempt + 1, maxRetries + 1);
        return Success, sends, waited;
      case Retriable(code) =>
        if attempt < maxRetries {
          lastError := Error(code);
        } else {
          return Error(code), sends, waited;
        }
      case Fatal(code) =>
        FinalStays(replies, attempt + 1, maxRetries + 1);
        return Error(code), sends, waited;
    }
    r := lastError;
  }

  lemma {:induction false} FinalStays(replies: nat -> Reply, k: nat, n: nat)
    requires k <= n && FirstFinal(replies, k).Some?
    ensures FirstFinal(replies, n) == FirstFinal(replies, k)
    decreases n
  {
    if k < n {
      FinalStays(replies, k, n - 1);
    }
  }

  lemma {:induction false} Pow2Grows(m: nat, n: nat)
    requires m <= n
    ensures Pow2(m) <= Pow2(n)
    decreases n
  {
    if m < n {
      Pow2Grows(m, n - 1);
    }
  }

  /** No delay overflows a u64 exactly when at most 58 retries are configured. */
  lemma DelaysFitIff(retries: nat)
    ensures (forall attempt | 1 <= attempt <= retries :: Delay(attempt) <= MAX_U64) <==> retries <= 58
  {
    assert Pow2(10) == 1024;
    assert Pow2(20) == 1024 * Pow2(10);
    assert Pow2(30) == 1024 * Pow2(20);
    assert Pow2(40) == 1024 * Pow2(30);
    assert Pow2(50) == 1024 * Pow2(40);
    assert Pow2(58) == 256 * Pow2(50);
    if retries <= 58 {
      forall attempt | 1 <= attempt <= retries
        ensures Delay(attempt) <= MAX_U64
      {
        Pow2Grows(attempt - 1, 57);
        assert Pow2(58) == 2 * Pow2(57);
      }
    } else {
      assert Delay(59) > MAX_U64;
    }
  }
}
