/** The two monitors of src/services/pool-monitor.js.

    `PoolMonitor` keeps three mutable fields (whether it is monitoring, the
    live subscription handle and a lifetime retry counter) and moves them
    through a small lifecycle: fetch recent pools with a filtered query, an
    unfiltered fallback and bounded retries; start a program subscription;
    stop it; report status. `TokenMonitor` keeps a map of watched tokens.

    The Solana connection is not modelled: every call into it becomes an
    oracle parameter that says what that call produced (accounts, an error
    with an optional HTTP status, a subscription id, a thrown exception).
    Sleeps are returned as the delays they would wait; `Date.now()` is a
    `now` parameter. */
module PoolMonitorService {
  import opened Wrappers
  import opened LittleEndian

  /** The retry cap of `getRecentPools`. */
  const MAX_RETRIES: nat := 3
  /** The deadline `withTimeout` races each query against, in milliseconds. */
  const TIMEOUT_MS: nat := 30000
  /** The `dataSize` filter of the first query: the Raydium pool account size. */
  const POOL_ACCOUNT_SIZE: nat := 1440
  /** The HTTP status of a rate-limited request. */
  const TOO_MANY_REQUESTS: int := 429

  /** An account as `getProgramAccounts` lists it. */
  datatype ProgramAccount = ProgramAccount(pubkey: seq<byte>, data: seq<byte>)

  /** An error raised by a network call; `status` is the HTTP status the
      error carries, if any (a timeout carries none). */
  datatype NetworkError = NetworkError(status: Option<int>)

  /** What one `getProgramAccounts` call, raced against the timeout,
      produced. */
  datatype QueryOutcome = Accounts(accounts: seq<ProgramAccount>) | Failed(error: NetworkError)

  /** `accounts.slice(-limit)` in JavaScript: for a positive limit the last
      `limit` accounts; since `-0` is `0`, a limit of 0 keeps everything; a
      negative limit drops the first `-limit` accounts. */
  function TailSlice<T>(s: seq<T>, limit: int): seq<T> {
    if limit > 0 then s[|s| - Min(limit, |s|)..] else s[Min(-limit, |s|)..]
  }

  /** The slice is a suffix of the list, in the original order: the last
      `limit` elements for a positive limit, all of them for 0, all but the
      first `-limit` for a negative limit. */
  lemma TailSliceIsSuffix<T>(s: seq<T>, limit: int)
    ensures var r := TailSlice(s, limit);
      && |r| <= |s| && r == s[|s| - |r|..]
      && (limit > 0 ==> |r| == Min(limit, |s|))
      && (limit == 0 ==> r == s)
      && (limit < 0 ==> |r| == Max(|s| + limit, 0))
  {
  }

  /** The wait before retry number n: 2000*n ms after a 429, else 1000*n ms. */
  function BackoffDelay(error: NetworkError, n: nat): nat {
    if error.status == Some(TOO_MANY_REQUESTS) then 2000 * n else 1000 * n
  }

  /** One pass through the `try` block of `getRecentPools`: the outcome and
      how many queries it made. */
  datatype AttemptResult = Fetched(pools: seq<ProgramAccount>, queries: nat) | AttemptFailed(error: NetworkError)

  /** One pass, with the oracle answering calls number k and k + 1: a
      non-empty filtered result is returned at once; an empty or failed one
      falls through to the unfiltered query, whose failure is the pass's. */
  function Attempt(oracle: nat -> QueryOutcome, k: nat, limit: int): AttemptResult {
    var filtered := oracle(k);
    if filtered.Accounts? && |filtered.accounts| > 0 then
      Fetched(TailSlice(filtered.accounts, limit), 1)
    else
      match oracle(k + 1)
      case Accounts(accounts) => Fetched(TailSlice(accounts, limit), 2)
      case Failed(error) => AttemptFailed(error)
  }

  /** What `getRecentPools` returns, the delays it sleeps, the retry counter
      it leaves behind and how many queries it makes. */
  datatype FetchResult = FetchResult(pools: seq<ProgramAccount>, delays: seq<nat>, retryAttempts: nat, queries: nat)

  /** `getRecentPools(limit)` entered with the given retry counter, the oracle
      answering calls k, k + 1, ...: each failed pass retries while the
      counter is below the cap, and at the cap the result is empty. */
  function Fetch(oracle: nat -> QueryOutcome, k: nat, retryAttempts: nat, limit: int): FetchResult
    decreases MAX_RETRIES - retryAttempts
  {
    match Attempt(oracle, k, limit)
    case Fetched(pools, queries) => FetchResult(pools, [], retryAttempts, queries)
    case AttemptFailed(error) =>
      if retryAttempts < MAX_RETRIES then
        var rest := Fetch(oracle, k + 2, retryAttempts + 1, limit);
        FetchResult(rest.pools, [BackoffDelay(error, retryAttempts + 1)] + rest.delays,
                    rest.retryAttempts, 2 + rest.queries)
      else
        FetchResult([], [], retryAttempts, 2)
  }

  /** The retry counter grows by exactly one per retry and never passes the cap. */
  lemma {:induction false} FetchCounter(oracle: nat -> QueryOutcome, k: nat, r: nat, limit: int)
    requires r <= MAX_RETRIES
    ensures var f := Fetch(oracle, k, r, limit);
      f.retryAttempts == r + |f.delays| && f.retryAttempts <= MAX_RETRIES
    decreases MAX_RETRIES - r
  {
    if Attempt(oracle, k, limit).AttemptFailed? && r < MAX_RETRIES {
      FetchCounter(oracle, k + 2, r + 1, limit);
    }
  }

  /** Fetch, one pass at a time: the three ways a pass can end. */
  lemma FetchStep(oracle: nat -> QueryOutcome, k: nat, r: nat, limit: int)
    ensures var a := Attempt(oracle, k, limit); var f := Fetch(oracle, k, r, limit);
      && (a.Fetched? ==> f == FetchResult(a.pools, [], r, a.queries))
      && (a.AttemptFailed? && r < MAX_RETRIES ==>
            var rest := Fetch(oracle, k + 2, r + 1, limit);
            f == FetchResult(rest.pools, [BackoffDelay(a.error, r + 1)] + rest.delays, rest.retryAttempts, 2 + rest.queries))
      && (a.AttemptFailed? && r >= MAX_RETRIES ==> f == FetchResult([], [], r, 2))
  {
  }

  /** The pass reading queries j and j + 1 failed (an empty or failed
      filtered query, then a failed unfiltered one), and retry number n after
      it waited d ms: 2000*n after a 429, 1000*n otherwise. */
  predicate FailedPassWaited(oracle: nat -> QueryOutcome, j: nat, n: nat, d: nat) {
    && !(oracle(j).Accounts? && |oracle(j).accounts| > 0)
    && oracle(j + 1).Failed?
    && d == BackoffDelay(oracle(j + 1).error, n)
  }

  /** The first sleep, when there is one, follows the failure of the first
      pass and uses the counter value r + 1. */
  lemma FetchFirstDelay(oracle: nat -> QueryOutcome, k: nat, r: nat, limit: int)
    requires |Fetch(oracle, k, r, limit).delays| > 0
    ensures FailedPassWaited(oracle, k, r + 1, Fetch(oracle, k, r, limit).delays[0])
  {
    FetchStep(oracle, k, r, limit);
  }

  /** After a sleep, the remaining sleeps are those of the call that starts
      two queries later with the counter one higher. */
  lemma FetchDelaysShift(oracle: nat -> QueryOutcome, k: nat, r: nat, limit: int)
    requires |Fetch(oracle, k, r, limit).delays| > 0
    ensures Fetch(oracle, k, r, limit).delays[1..] == Fetch(oracle, k + 2, r + 1, limit).delays
  {
    FetchStep(oracle, k, r, limit);
  }

  /** Induction over the sleeps of a retrying call, for any `delays(k, r)`
      that behaves like `Fetch`'s: the first sleep follows a failed pass and
      the rest are those of the call two queries later with the counter one
      higher. */
  lemma {:induction false} DelaysFollowFailures(oracle: nat -> QueryOutcome, delays: (nat, nat) -> seq<nat>, k: nat, r: nat, i: nat)
    requires forall k': nat, r': nat :: |delays(k', r')| > 0 ==> FailedPassWaited(oracle, k', r' + 1, delays(k', r')[0])
    requires forall k': nat, r': nat :: |delays(k', r')| > 0 ==> delays(k', r')[1..] == delays(k' + 2, r' + 1)
    requires i < |delays(k, r)|
    ensures FailedPassWaited(oracle, k + 2 * i, r + i + 1, delays(k, r)[i])
    decreases i
  {
    if i > 0 {
      var rest := delays(k + 2, r + 1);
      assert delays(k, r)[1..] == rest;
      assert delays(k, r)[i] == rest[i - 1];
      DelaysFollowFailures(oracle, delays, k + 2, r + 1, i - 1);
      assert (k + 2) + 2 * (i - 1) == k + 2 * i && (r + 1) + (i - 1) + 1 == r + i + 1;
    }
  }

  /** Fetch's sleeps have the shape `DelaysFollowFailures` inducts over. */
  lemma FetchDelaysShape(oracle: nat -> QueryOutcome, limit: int)
    ensures forall k: nat, r: nat :: |Fetch(oracle, k, r, limit).delays| > 0 ==>
      FailedPassWaited(oracle, k, r + 1, Fetch(oracle, k, r, limit).delays[0])
    ensures forall k: nat, r: nat :: |Fetch(oracle, k, r, limit).delays| > 0 ==>
      Fetch(oracle, k, r, limit).delays[1..] == Fetch(oracle, k + 2, r + 1, limit).delays
  {
    forall k: nat, r: nat | |Fetch(oracle, k, r, limit).delays| > 0
      ensures FailedPassWaited(oracle, k, r + 1, Fetch(oracle, k, r, limit).delays[0])
      ensures Fetch(oracle, k, r, limit).delays[1..] == Fetch(oracle, k + 2, r + 1, limit).delays
    {
      FetchFirstDelay(oracle, k, r, limit);
      FetchDelaysShift(oracle, k, r, limit);
    }
  }

  /** Retry i (counted from 0) follows the failure of pass i, and its delay
      is the linear backoff for the counter value r + i + 1 it sets. */
  lemma FetchDelayAt(oracle: nat -> QueryOutcome, k: nat, r: nat, limit: int, i: nat)
    requires i < |Fetch(oracle, k, r, limit).delays|
    ensures FailedPassWaited(oracle, k + 2 * i, r + i + 1, Fetch(oracle, k, r, limit).delays[i])
  {
    FetchDelaysShape(oracle, limit);
    DelaysFollowFailures(oracle, (k': nat, r': nat) => Fetch(oracle, k', r', limit).delays, k, r, i);
  }

  /** A retrying call `f` hands over to `rest`, the call two queries later:
      same pools and final counter, two more queries, one more sleep. */
  predicate HandsOver(f: FetchResult, rest: FetchResult) {
    && f.pools == rest.pools && f.retryAttempts == rest.retryAttempts
    && f.queries == rest.queries + 2 && |f.delays| == |rest.delays| + 1
  }

  /** The last query of a call starting at query k accounts for its result:
      two queries per sleep plus one or two, one more exactly when the last
      query was a non-empty filtered one; the pools are the tail slice of
      its accounts, or empty at the cap when it failed. */
  predicate LastQueryExplains(oracle: nat -> QueryOutcome, k: nat, f: FetchResult, limit: int) {
    && k + f.queries >= 1
    && (f.queries == 2 * |f.delays| + 1 || f.queries == 2 * |f.delays| + 2)
    && var last := oracle(k + f.queries - 1);
    && (f.queries == 2 * |f.delays| + 1 ==> last.Accounts? && |last.accounts| > 0)
    && (last.Accounts? ==> f.pools == TailSlice(last.accounts, limit))
    && (last.Failed? ==> f.pools == [] && f.retryAttempts >= MAX_RETRIES)
  }

  /** Induction over the retries of a call, for any `calls(k, r)` that
      behaves like `Fetch`: a failed pass below the cap hands over to the
      call two queries later, and any other pass explains its own result. */
  lemma {:induction false} LastQueryByRetries(oracle: nat -> QueryOutcome, limit: int,
                                              calls: (nat, nat) -> FetchResult, k: nat, r: nat)
    requires forall k': nat, r': nat :: Attempt(oracle, k', limit).AttemptFailed? && r' < MAX_RETRIES ==>
      HandsOver(calls(k', r'), calls(k' + 2, r' + 1))
    requires forall k': nat, r': nat :: !(Attempt(oracle, k', limit).AttemptFailed? && r' < MAX_RETRIES) ==>
      LastQueryExplains(oracle, k', calls(k', r'), limit)
    ensures LastQueryExplains(oracle, k, calls(k, r), limit)
    decreases MAX_RETRIES - r
  {
    if Attempt(oracle, k, limit).AttemptFailed? && r < MAX_RETRIES {
      LastQueryByRetries(oracle, limit, calls, k + 2, r + 1);
      var f, rest := calls(k, r), calls(k + 2, r + 1);
      assert HandsOver(f, rest);
      assert k + f.queries - 1 == (k + 2) + rest.queries - 1;
    }
  }

  /** A failed pass below the cap hands over to the call two queries later. */
  lemma FetchRetryStep(oracle: nat -> QueryOutcome, k: nat, r: nat, limit: int)
    requires Attempt(oracle, k, limit).AttemptFailed? && r < MAX_RETRIES
    ensures HandsOver(Fetch(oracle, k, r, limit), Fetch(oracle, k + 2, r + 1, limit))
  {
    FetchStep(oracle, k, r, limit);
  }

  /** A call that does not retry explains its result by its last query. */
  lemma FetchNoRetry(oracle: nat -> QueryOutcome, k: nat, r: nat, limit: int)
    requires !(Attempt(oracle, k, limit).AttemptFailed? && r < MAX_RETRIES)
    ensures LastQueryExplains(oracle, k, Fetch(oracle, k, r, limit), limit)
  {
    FetchStep(oracle, k, r, limit);
  }

  /** `Fetch` meets both hypotheses of the induction, at every k and r. */
  lemma FetchPasses(oracle: nat -> QueryOutcome, limit: int)
    ensures forall k: nat, r: nat :: Attempt(oracle, k, limit).AttemptFailed? && r < MAX_RETRIES ==>
      HandsOver(Fetch(oracle, k, r, limit), Fetch(oracle, k + 2, r + 1, limit))
    ensures forall k: nat, r: nat :: !(Attempt(oracle, k, limit).AttemptFailed? && r < MAX_RETRIES) ==>
      LastQueryExplains(oracle, k, Fetch(oracle, k, r, limit), limit)
  {
    forall k: nat, r: nat
      ensures Attempt(oracle, k, limit).AttemptFailed? && r < MAX_RETRIES ==>
        HandsOver(Fetch(oracle, k, r, limit), Fetch(oracle, k + 2, r + 1, limit))
      ensures !(Attempt(oracle, k, limit).AttemptFailed? && r < MAX_RETRIES) ==>
        LastQueryExplains(oracle, k, Fetch(oracle, k, r, limit), limit)
    {
      if Attempt(oracle, k, limit).AttemptFailed? && r < MAX_RETRIES {
        FetchRetryStep(oracle, k, r, limit);
      } else {
        FetchNoRetry(oracle, k, r, limit);
      }
    }
  }

  /** Every call is explained by its last query. */
  lemma FetchLastQuery(oracle: nat -> QueryOutcome, k: nat, r: nat, limit: int)
    ensures LastQueryExplains(oracle, k, Fetch(oracle, k, r, limit), limit)
  {
    FetchPasses(oracle, limit);
    LastQueryByRetries(oracle, limit, (k': nat, r': nat) => Fetch(oracle, k', r', limit), k, r);
  }

  /** Every pass but a filtered success makes two queries, so the call makes
      two per retry plus one or two; it makes an odd number exactly when its
      last query was a non-empty filtered one. */
  lemma FetchQueries(oracle: nat -> QueryOutcome, k: nat, r: nat, limit: int)
    ensures var f := Fetch(oracle, k, r, limit); k + f.queries >= 1 && var last := oracle(k + f.queries - 1);
      && (f.queries == 2 * |f.delays| + 1 || f.queries == 2 * |f.delays| + 2)
      && (f.queries == 2 * |f.delays| + 1 ==> last.Accounts? && |last.accounts| > 0)
  {
    FetchLastQuery(oracle, k, r, limit);
  }

  /** What comes back: the tail slice of the last query's accounts when that
      query succeeded; when it failed, the counter is at the cap and the
      result is empty. */
  lemma FetchReturned(oracle: nat -> QueryOutcome, k: nat, r: nat, limit: int)
    ensures var f := Fetch(oracle, k, r, limit); k + f.queries >= 1 && var last := oracle(k + f.queries - 1);
      && (last.Accounts? ==> f.pools == TailSlice(last.accounts, limit))
      && (last.Failed? ==> f.pools == [] && f.retryAttempts >= MAX_RETRIES)
  {
    FetchLastQuery(oracle, k, r, limit);
  }

  /** A non-empty filtered result is returned without querying the fallback. */
  lemma FetchFilteredFirst(oracle: nat -> QueryOutcome, k: nat, r: nat, limit: int)
    requires oracle(k).Accounts? && |oracle(k).accounts| > 0
    ensures Fetch(oracle, k, r, limit) == FetchResult(TailSlice(oracle(k).accounts, limit), [], r, 1)
  {
  }

  /** An empty or failed filtered query falls through to the unfiltered one. */
  lemma FetchFallback(oracle: nat -> QueryOutcome, k: nat, r: nat, limit: int)
    requires !(oracle(k).Accounts? && |oracle(k).accounts| > 0)
    requires oracle(k + 1).Accounts?
    ensures Fetch(oracle, k, r, limit) == FetchResult(TailSlice(oracle(k + 1).accounts, limit), [], r, 2)
  {
  }

  /** At the cap a failed pass returns an empty list instead of throwing. */
  lemma FetchAtCap(oracle: nat -> QueryOutcome, k: nat, limit: int)
    requires !(oracle(k).Accounts? && |oracle(k).accounts| > 0)
    requires oracle(k + 1).Failed?
    ensures Fetch(oracle, k, MAX_RETRIES, limit) == FetchResult([], [], MAX_RETRIES, 2)
  {
  }

  /** Retries over a series of `getRecentPools` calls on one monitor, each
      starting from the counter the previous one left. */
  function SeriesRetries(oracles: seq<nat -> QueryOutcome>, r: nat, limit: int): nat
    decreases |oracles|
  {
    if |oracles| == 0 then 0
    else
      var f := Fetch(oracles[0], 0, r, limit);
      |f.delays| + SeriesRetries(oracles[1..], f.retryAttempts, limit)
  }

  /** The counter is never reset, so a monitor retries at most MAX_RETRIES
      times in its whole lifetime. */
  lemma {:induction false} LifetimeRetries(oracles: seq<nat -> QueryOutcome>, r: nat, limit: int)
    requires r <= MAX_RETRIES
    ensures r + SeriesRetries(oracles, r, limit) <= MAX_RETRIES
  {
    if |oracles| > 0 {
      FetchCounter(oracles[0], 0, r, limit);
      LifetimeRetries(oracles[1..], Fetch(oracles[0], 0, r, limit).retryAttempts, limit);
    }
  }

  /** When every query fails without a 429, a fresh monitor makes four
      passes (eight queries), sleeps 1, 2 and 3 seconds and returns an empty
      list with the counter at the cap. */
  lemma AllPassesFail(oracle: nat -> QueryOutcome, limit: int)
    requires forall n :: oracle(n) == Failed(NetworkError(None))
    ensures Fetch(oracle, 0, 0, limit) == FetchResult([], [1000, 2000, 3000], MAX_RETRIES, 8)
  {
    FetchStep(oracle, 0, 0, limit);
    FetchStep(oracle, 2, 1, limit);
    FetchStep(oracle, 4, 2, limit);
    FetchStep(oracle, 6, 3, limit);
  }

  /** Under rate limiting (every query fails with status 429) the waits
      double: 2, 4 and 6 seconds. */
  lemma AllPassesRateLimited(oracle: nat -> QueryOutcome, limit: int)
    requires forall n :: oracle(n) == Failed(NetworkError(Some(TOO_MANY_REQUESTS)))
    ensures Fetch(oracle, 0, 0, limit) == FetchResult([], [2000, 4000, 6000], MAX_RETRIES, 8)
  {
    FetchStep(oracle, 0, 0, limit);
    FetchStep(oracle, 2, 1, limit);
    FetchStep(oracle, 4, 2, limit);
    FetchStep(oracle, 6, 3, limit);
  }

  /** The handle `onProgramAccountChange` returned, or `null`. */
  datatype Subscription = NoSubscription | Handle(id: int)

  /** JavaScript truthiness of the handle: `null` and the id 0 are falsy. */
  predicate Truthy(s: Subscription) {
    s.Handle? && s.id != 0
  }

  /** What `onProgramAccountChange` did: returned an id or threw. */
  datatype SetupOutcome = Subscribed(id: int) | SetupThrew

  /** What the awaited `removeAccountChangeListener` did. */
  datatype RemovalOutcome = Removed | RemovalThrew

  datatype ConnectionStatus = Connected | Disconnected

  /** The object `getStatus` returns. */
  datatype MonitorStatus = MonitorStatus(
    isMonitoring: bool,
    hasSubscription: bool,
    retryAttempts: nat,
    connectionStatus: ConnectionStatus)

  class PoolMonitor {
    /** Whether `this.connection` is set. */
    const hasConnection: bool
    var isMonitoring: bool
    var subscription: Subscription
    var retryAttempts: nat

    /** The counter stays within the cap, and a handle is held exactly while
        monitoring. */
    ghost predicate Valid()
      reads this
    {
      && retryAttempts <= MAX_RETRIES
      && (isMonitoring <==> subscription.Handle?)
    }

    constructor(hasConnection: bool)
      ensures Valid()
      ensures this.hasConnection == hasConnection
      ensures !isMonitoring && subscription == NoSubscription && retryAttempts == 0
    {
      this.hasConnection := hasConnection;
      isMonitoring := false;
      subscription := NoSubscription;
      retryAttempts := 0;
    }

    /** `getRecentPools(limit)`, whose oracle answers network call number
        `calls`, `calls + 1`, ... (0 on the outside call): a failed pass
        sleeps, bumps the counter and calls itself while below the cap. */
    method GetRecentPools(limit: int, oracle: nat -> QueryOutcome, calls: nat) returns (pools: seq<ProgramAccount>, delays: seq<nat>)
      requires Valid()
      modifies this`retryAttempts
      ensures Valid()
      ensures var f := Fetch(oracle, calls, old(retryAttempts), limit);
        pools == f.pools && delays == f.delays && retryAttempts == f.retryAttempts
      decreases MAX_RETRIES - retryAttempts
    {
      FetchStep(oracle, calls, retryAttempts, limit);
      // first attempt, filtered by account size
      var filtered := oracle(calls);
      if filtered.Accounts? && |filtered.accounts| > 0 {
        return TailSlice(filtered.accounts, limit), [];
      }
      // fallback without filters
      var fallback := oracle(calls + 1);
      if fallback.Accounts? {
        return TailSlice(fallback.accounts, limit), [];
      }
      var delay := BackoffDelay(fallback.error, retryAttempts + 1);
      if retryAttempts < MAX_RETRIES {
        retryAttempts := retryAttempts + 1;
        var rest;
        pools, rest := GetRecentPools(limit, oracle, calls + 2);
        delays := [delay] + rest;
      } else {
        pools, delays := [], [];
      }
    }

    /** `startMonitoring()`: a no-op returning true when already monitoring;
        otherwise subscribes, and a throwing setup yields false, not an error. */
    method StartMonitoring(setup: SetupOutcome) returns (started: bool)
      requires Valid()
      modifies this`isMonitoring, this`subscription
      ensures Valid()
      ensures old(isMonitoring) ==>
        started && isMonitoring && subscription == old(subscription)
      ensures !old(isMonitoring) && setup.Subscribed? ==>
        started && isMonitoring && subscription == Handle(setup.id)
      ensures !old(isMonitoring) && setup.SetupThrew? ==>
        !started && !isMonitoring && subscription == old(subscription)
    {
      if isMonitoring {
        return true;
      }
      match setup {
        case Subscribed(id) =>
          subscription := Handle(id);
          isMonitoring := true;
          started := true;
        case SetupThrew =>
          isMonitoring := false;
          started := false;
      }
    }

    /** `stopMonitoring()`: only a truthy handle is removed; a failed removal
        is rethrown (`ok` is false) with the state unchanged. */
    method StopMonitoring(removal: RemovalOutcome) returns (ok: bool)
      requires Valid()
      modifies this`isMonitoring, this`subscription
      ensures Valid()
      ensures !Truthy(old(subscription)) ==>
        ok && isMonitoring == old(isMonitoring) && subscription == old(subscription)
      ensures Truthy(old(subscription)) && removal.Removed? ==>
        ok && !isMonitoring && subscription == NoSubscription
      ensures Truthy(old(subscription)) && removal.RemovalThrew? ==>
        !ok && isMonitoring == old(isMonitoring) && subscription == old(subscription)
    {
      ok := true;
      if Truthy(subscription) {
        match removal {
          case Removed =>
            subscription := NoSubscription;
            isMonitoring := false;
          case RemovalThrew =>
            ok := false;
        }
      }
    }

    /** `getStatus()`: a pure read. `hasSubscription` is the handle's
        truthiness, so it agrees with `isMonitoring` except for handle 0. */
    method GetStatus() returns (s: MonitorStatus)
      requires Valid()
      ensures s.isMonitoring == isMonitoring && s.retryAttempts == retryAttempts
      ensures s.hasSubscription <==> subscription.Handle? && subscription.id != 0
      ensures s.hasSubscription <==> s.isMonitoring && subscription != Handle(0)
      ensures s.connectionStatus == Connected <==> hasConnection
      ensures s.retryAttempts <= MAX_RETRIES
    {
      s := MonitorStatus(
        isMonitoring := isMonitoring,
        hasSubscription := Truthy(subscription),
        retryAttempts := retryAttempts,
        connectionStatus := if hasConnection then Connected else Disconnected);
    }
  }

  /** A new monitor reports that it is not monitoring, holds no subscription
      and has not retried. */
  method NewMonitorStatus(hasConnection: bool) returns (s: MonitorStatus)
    ensures !s.isMonitoring && !s.hasSubscription && s.retryAttempts == 0
    ensures s.connectionStatus == Connected <==> hasConnection
  {
    var monitor := new PoolMonitor(hasConnection);
    s := monitor.GetStatus();
  }

  /** Starting twice: once the first start succeeds, the second returns true
      without calling the connection and leaves the status as it was. */
  method StartTwice(id: int, second: SetupOutcome) returns (ok1: bool, ok2: bool, s1: MonitorStatus, s2: MonitorStatus)
    ensures ok1 && ok2 && s1 == s2 && s2.isMonitoring
  {
    var monitor := new PoolMonitor(true);
    ok1 := monitor.StartMonitoring(Subscribed(id));
    s1 := monitor.GetStatus();
    ok2 := monitor.StartMonitoring(second);
    s2 := monitor.GetStatus();
  }

  /** Stopping twice after a start with a non-zero handle: the first stop
      releases it, and the second is a no-op that does not touch the
      connection. With handle 0 neither stop does anything and the monitor
      keeps reporting that it is monitoring. */
  method StopTwice(id: int, second: RemovalOutcome) returns (ok1: bool, ok2: bool, s: MonitorStatus)
    ensures ok1 && ok2
    ensures id != 0 ==> !s.isMonitoring && !s.hasSubscription
    ensures id == 0 ==> s.isMonitoring && !s.hasSubscription
  {
    var monitor := new PoolMonitor(true);
    var started := monitor.StartMonitoring(Subscribed(id));
    ok1 := monitor.StopMonitoring(Removed);
    ok2 := monitor.StopMonitoring(second);
    s := monitor.GetStatus();
  }

  /** The record `monitorToken` stores for a token. */
  datatype TokenData = TokenData(address: string, lastUpdate: int, supply: string)

  /** The parsed account data: the supply under `parsed.info`, or data without
      a `parsed.info` (reading `.supply` from it throws a TypeError). */
  datatype ParsedInfo = ParsedSupply(supply: string) | NotParsed

  /** What the token lookup did: `new PublicKey` or `getParsedAccountInfo`
      threw; the account does not exist; or it exists, and `onAccountChange`
      then returned a subscription id or threw. */
  datatype TokenLookup = LookupThrew | NotFound | Found(info: ParsedInfo, subscribe: SetupOutcome)

  /** Why `monitorToken` threw: the account does not exist; the lookup
      (`new PublicKey`, `getParsedAccountInfo` or reading the parsed supply)
      threw; or `onAccountChange` threw after the token was stored. */
  datatype TokenError = TokenNotFound | LookupFailed | SubscribeFailed

  /** What the (not awaited) `removeAccountChangeListener` call did before
      returning: it returned a promise, which nobody awaits,
      or it threw synchronously. */
  datatype ListenerRemoval = RemovalReturned | ThrewSynchronously

  class TokenMonitor {
    var watchedTokens: map<string, TokenData>

    /** Every entry is stored under its own address. */
    ghost predicate Valid()
      reads this
    {
      forall a :: a in watchedTokens ==> watchedTokens[a].address == a
    }

    constructor()
      ensures Valid() && watchedTokens == map[]
    {
      watchedTokens := map[];
    }

    /** `monitorToken(tokenAddress)`: stores the token with its supply and the
        current time and returns the subscription id. A failure before the
        store is rethrown with the map unchanged; the store happens before
        the subscription, so a throwing `onAccountChange` is rethrown with
        the token already watched. */
    method MonitorToken(tokenAddress: string, lookup: TokenLookup, now: int) returns (r: Result<int, TokenError>)
      requires Valid()
      modifies this`watchedTokens
      ensures Valid()
      ensures r.Success? <==> lookup.Found? && lookup.info.ParsedSupply? && lookup.subscribe.Subscribed?
      ensures r.Success? ==> r.value == lookup.subscribe.id
      ensures lookup.NotFound? ==> r == Failure(TokenNotFound)
      ensures lookup.LookupThrew? || (lookup.Found? && lookup.info.NotParsed?) ==> r == Failure(LookupFailed)
      ensures lookup.Found? && lookup.info.ParsedSupply? && lookup.subscribe.SetupThrew? ==> r == Failure(SubscribeFailed)
      ensures lookup.Found? && lookup.info.ParsedSupply? ==>
        watchedTokens == old(watchedTokens)[tokenAddress := TokenData(tokenAddress, now, lookup.info.supply)]
      ensures !(lookup.Found? && lookup.info.ParsedSupply?) ==> watchedTokens == old(watchedTokens)
    {
      match lookup {
        case LookupThrew =>
          r := Failure(LookupFailed);
        case NotFound =>
          r := Failure(TokenNotFound);
        case Found(info, subscribe) =>
          if info.NotParsed? {
            r := Failure(LookupFailed);
          } else {
            watchedTokens := watchedTokens[tokenAddress := TokenData(tokenAddress, now, info.supply)];
            match subscribe {
              case Subscribed(id) => r := Success(id);
              case SetupThrew => r := Failure(SubscribeFailed);
            }
          }
      }
    }

    /** `handleTokenUpdate(tokenAddress)`: refreshes `lastUpdate` of a watched
        token and ignores any other address. */
    method HandleTokenUpdate(tokenAddress: string, now: int)
      requires Valid()
      modifies this`watchedTokens
      ensures Valid()
      ensures watchedTokens.Keys == old(watchedTokens).Keys
      ensures tokenAddress in old(watchedTokens) ==>
        watchedTokens == old(watchedTokens)[tokenAddress := old(watchedTokens)[tokenAddress].(lastUpdate := now)]
      ensures tokenAddress !in old(watchedTokens) ==> watchedTokens == old(watchedTokens)
      ensures tokenAddress in watchedTokens ==>
        watchedTokens[tokenAddress] == TokenData(tokenAddress, now, old(watchedTokens)[tokenAddress].supply)
    {
      if tokenAddress in watchedTokens {
        var tokenData := watchedTokens[tokenAddress];
        watchedTokens := watchedTokens[tokenAddress := tokenData.(lastUpdate := now)];
      }
    }

    /** `stopMonitoring(tokenAddress, subscriptionId)`: deletes only that key;
        a synchronous throw is logged and swallowed, and the key stays. */
    method StopMonitoring(tokenAddress: string, subscriptionId: int, removal: ListenerRemoval)
      requires Valid()
      modifies this`watchedTokens
      ensures Valid()
      ensures removal.RemovalReturned? ==> watchedTokens == old(watchedTokens) - {tokenAddress}
      ensures removal.ThrewSynchronously? ==> watchedTokens == old(watchedTokens)
    {
      if removal.RemovalReturned? {
        watchedTokens := watchedTokens - {tokenAddress};
      }
    }
  }

  /** Watch a token, see one update, stop watching: the update refreshes only
      the timestamp, and after the stop the token is no longer watched. */
  method WatchUpdateStop(address: string, supply: string, id: int, t0: int, t1: int)
    returns (r: Result<int, TokenError>, updated: TokenData, watchedAfterStop: bool)
    ensures r == Success(id)
    ensures updated == TokenData(address, t1, supply)
    ensures !watchedAfterStop
  {
    var m := new TokenMonitor();
    r := m.MonitorToken(address, Found(ParsedSupply(supply), Subscribed(id)), t0);
    m.HandleTokenUpdate(address, t1);
    updated := m.watchedTokens[address];
    m.StopMonitoring(address, id, RemovalReturned);
    watchedAfterStop := address in m.watchedTokens;
  }

  /** A subscription that throws after the lookup succeeded: the caller sees
      an error, yet the token stays in the map with its supply. */
  method SubscribeThrows(address: string, supply: string, now: int)
    returns (r: Result<int, TokenError>, stored: Option<TokenData>)
    ensures r == Failure(SubscribeFailed)
    ensures stored == Some(TokenData(address, now, supply))
  {
    var m := new TokenMonitor();
    r := m.MonitorToken(address, Found(ParsedSupply(supply), SetupThrew), now);
    stored := if address in m.watchedTokens then Some(m.watchedTokens[address]) else None;
  }
}
