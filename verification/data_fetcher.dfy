/** Retrieval of one segment with retries: an Interest is repeated after timeouts and
    certain nacks, up to a limit for each. */
module DataFetcher {

  const MAX_RETRIES_INFINITE := -1
  const MAX_CONGESTION_BACKOFF_TIME := 10_000  // milliseconds

  datatype NackReason = Duplicate | Congestion | Other

  datatype Callback = OnData | OnNack | OnTimeout

  function Power2(n: nat): nat {
    if n == 0 then 1 else 2 * Power2(n - 1)
  }

  class DataFetcher {
    const maxNackRetries: int
    const maxTimeoutRetries: int
    var nNacks: nat
    var nTimeouts: nat
    var nCongestionRetries: nat
    var isStopped: bool
    var hasError: bool
    // An Interest is outstanding; one waits for its backoff time.
    var pendingInterest: bool
    var scheduled: bool
    // What happened so far: Interests sent, callbacks made, backoff times used.
    ghost var sent: nat
    ghost var callbacks: seq<Callback>
    ghost var backoffs: seq<nat>

    predicate IsRunning()
      reads this
    {
      !isStopped && !hasError
    }

    ghost predicate Finite() {
      maxNackRetries >= 0 && maxTimeoutRetries >= 0
    }

    /** While running, exactly one of an outstanding Interest and a scheduled one exists and
        no callback was made; afterwards neither exists and at most one was. It has an error
        exactly when it reported a nack or a timeout, and is stopped otherwise. With finite
        limits the Interests sent or scheduled never exceed one plus both limits. Every
        backoff was one millisecond. */
    ghost predicate Valid()
      reads this
    {
      && (IsRunning() ==> pendingInterest != scheduled && callbacks == [])
      && (!IsRunning() ==> !pendingInterest && !scheduled && |callbacks| <= 1)
      && (hasError <==> callbacks == [OnNack] || callbacks == [OnTimeout])
      && !(isStopped && hasError)
      && (pendingInterest ==> nCongestionRetries == 0)
      && (forall b :: b in backoffs ==> b == 1)
      && (Finite() ==>
            && sent + (if scheduled then 1 else 0) <= 1 + nNacks + nTimeouts
            && sent + (if scheduled then 1 else 0) <= 1 + maxNackRetries + maxTimeoutRetries
            && (IsRunning() ==> nNacks <= maxNackRetries && nTimeouts <= maxTimeoutRetries))
    }

    constructor Fetch(maxNackRetries: int, maxTimeoutRetries: int)
      requires maxNackRetries >= MAX_RETRIES_INFINITE && maxTimeoutRetries >= MAX_RETRIES_INFINITE
      ensures Valid() && IsRunning() && pendingInterest && sent == 1
      ensures this.maxNackRetries == maxNackRetries && this.maxTimeoutRetries == maxTimeoutRetries
    {
      this.maxNackRetries := maxNackRetries;
      this.maxTimeoutRetries := maxTimeoutRetries;
      nNacks, nTimeouts, nCongestionRetries := 0, 0, 0;
      isStopped, hasError := false, false;
      pendingInterest, scheduled := true, false;
      sent, callbacks, backoffs := 1, [], [];
    }

    method ExpressInterest()
      modifies this`nCongestionRetries, this`pendingInterest, this`sent
      ensures nCongestionRetries == 0 && pendingInterest && sent == old(sent) + 1
    {
      nCongestionRetries := 0;
      pendingInterest := true;
      sent := sent + 1;
    }

    method Cancel()
      requires Valid()
      modifies this
      ensures Valid() && !IsRunning()
      ensures isStopped == (old(isStopped) || old(IsRunning())) && hasError == old(hasError)
      ensures callbacks == old(callbacks) && sent == old(sent) && backoffs == old(backoffs)
      ensures nNacks == old(nNacks) && nTimeouts == old(nTimeouts)
    {
      if IsRunning() {
        isStopped := true;
        pendingInterest := false;
        scheduled := false;
      }
    }

    /** Data for the outstanding Interest ends the fetch with one callback. */
    method HandleData()
      requires Valid()
      modifies this
      ensures Valid() && !IsRunning() && sent == old(sent)
      ensures callbacks == if old(IsRunning()) then [OnData] else old(callbacks)
      ensures isStopped == (old(isStopped) || old(IsRunning())) && hasError == old(hasError)
      ensures nNacks == old(nNacks) && nTimeouts == old(nTimeouts) && backoffs == old(backoffs)
    {
      if !IsRunning() {
        return;
      }
      isStopped := true;
      pendingInterest, scheduled := false, false;
      callbacks := callbacks + [OnData];
      assert callbacks[0] == OnData;
    }

    /** A nack for the outstanding Interest: retried at once or after a backoff when its
        reason allows and the limit is not exceeded, otherwise the fetch fails. */
    method HandleNack(reason: NackReason)
      requires Valid() && (IsRunning() ==> pendingInterest)
      modifies this
      ensures Valid()
      ensures !old(IsRunning()) ==>
        && callbacks == old(callbacks) && sent == old(sent) && backoffs == old(backoffs)
        && isStopped == old(isStopped) && hasError == old(hasError)
      ensures old(IsRunning()) ==>
        var retry := reason != Other && (maxNackRetries == MAX_RETRIES_INFINITE || old(nNacks) < maxNackRetries);
        && hasError == !retry && isStopped == old(isStopped)
        && callbacks == (if retry then [] else [OnNack])
        && backoffs == old(backoffs) + (if retry && reason == Congestion then [1] else [])
        && sent == old(sent) + (if retry && reason == Duplicate then 1 else 0)
        && scheduled == (retry && reason == Congestion)
        && nTimeouts == old(nTimeouts)
        && nNacks == old(nNacks) + (if maxNackRetries == MAX_RETRIES_INFINITE then 0 else 1)
    {
      if !IsRunning() {
        return;
      }
      pendingInterest := false;
      if maxNackRetries != MAX_RETRIES_INFINITE {
        nNacks := nNacks + 1;
      }
      if nNacks <= maxNackRetries || maxNackRetries == MAX_RETRIES_INFINITE {
        match reason
        case Duplicate =>
          ExpressInterest();
        case Congestion =>
          var backoffTime := Power2(nCongestionRetries);
          if backoffTime > MAX_CONGESTION_BACKOFF_TIME {
            backoffTime := MAX_CONGESTION_BACKOFF_TIME;
          } else {
            nCongestionRetries := nCongestionRetries + 1;
          }
          backoffs := backoffs + [backoffTime];
          scheduled := true;
        case Other =>
          hasError := true;
          callbacks := callbacks + [OnNack];
      } else {
        hasError := true;
        callbacks := callbacks + [OnNack];
      }
    }

    /** The backoff time is over. */
    method Backoff()
      requires Valid() && scheduled
      modifies this
      ensures Valid() && IsRunning() && pendingInterest && sent == old(sent) + 1 && callbacks == old(callbacks)
      ensures nNacks == old(nNacks) && nTimeouts == old(nTimeouts)
    {
      scheduled := false;
      ExpressInterest();
    }

    /** A timeout of the outstanding Interest: retried within the limit, otherwise the fetch fails. */
    method HandleTimeout()
      requires Valid() && (IsRunning() ==> pendingInterest)
      modifies this
      ensures Valid()
      ensures !old(IsRunning()) ==>
        && callbacks == old(callbacks) && sent == old(sent) && backoffs == old(backoffs)
        && isStopped == old(isStopped) && hasError == old(hasError)
      ensures old(IsRunning()) ==>
        var retry := maxTimeoutRetries == MAX_RETRIES_INFINITE || old(nTimeouts) < maxTimeoutRetries;
        && hasError == !retry && isStopped == old(isStopped)
        && callbacks == (if retry then [] else [OnTimeout])
        && backoffs == old(backoffs)
        && sent == old(sent) + (if retry then 1 else 0)
        && nNacks == old(nNacks)
        && nTimeouts == old(nTimeouts) + (if maxTimeoutRetries == MAX_RETRIES_INFINITE then 0 else 1)
    {
      if !IsRunning() {
        return;
      }
      pendingInterest := false;
      if maxTimeoutRetries != MAX_RETRIES_INFINITE {
        nTimeouts := nTimeouts + 1;
      }
      if nTimeouts <= maxTimeoutRetries || maxTimeoutRetries == MAX_RETRIES_INFINITE {
        ExpressInterest();
      } else {
        hasError := true;
        callbacks := callbacks + [OnTimeout];
      }
    }
  }
}
