// The Redis lock: token-checked commands on a store with expiry, and a retry loop.
module DistributedLock {
  import opened Prelude
  import opened TtlStore

  type Locks = map<string, Entry<string>>

  function LockKey(resource: string): string {
    "lock:" + resource
  }

  // Different resources have different locks.
  lemma LockKeysDiffer()
    ensures forall a, b :: LockKey(a) == LockKey(b) ==> a == b
  {
    assert forall r :: LockKey(r)[5..] == r;
  }

  // The lock of a resource, if it has one.
  function LockOf(locks: Locks, resource: string): Option<Entry<string>> {
    if LockKey(resource) in locks then Some(locks[LockKey(resource)]) else None
  }

  // ----- What each command does to the live locks -----

  function Acquired(locks: Locks, now: Time, key: string, token: string, ttl: int): Locks {
    if ttl <= 0 || key in locks then locks else locks[key := Entry(token, now + ttl)]
  }

  predicate HeldBy(locks: Locks, key: string, token: string) {
    key in locks && locks[key].value == token
  }

  function Released(locks: Locks, key: string, token: string): Locks {
    if HeldBy(locks, key, token) then locks - {key} else locks
  }

  function Extended(locks: Locks, now: Time, key: string, token: string, ttl: int): Locks {
    if !HeldBy(locks, key, token) then locks
    else if ttl <= 0 then locks - {key}
    else locks[key := Entry(token, now + ttl)]
  }

  datatype LockOptions = LockOptions(ttl: int, maxRetries: int, retryDelay: int)

  // What the world supplies to one attempt: a random token, a jitter, and whether Redis fails,
  // before the command is carried out or (`stored`) after it.
  datatype Attempt = Attempt(token: string, jitter: nat, down: bool, stored: bool)

  // What a caller of the service can be seen to do, in order: an attempt to acquire, a wait,
  // a run of the body with the live locks it started from and left, and whether it threw.
  datatype Step =
    | Tried(token: string)
    | Slept(delay: int)
    | Ran(start: Locks, startedAt: Time, end: Locks, threw: bool)

  // How withLock ends: null, an error of the acquire, or the way its body ended.
  datatype Outcome = NotAcquired | AcquireFailed(error: string) | Completed | Threw

  function Delay(options: LockOptions, attempts: nat -> Attempt, i: nat): int {
    options.retryDelay * Pow2(i) + attempts(i).jitter
  }

  // The steps that come before attempt `i`: each earlier attempt, and a wait after it.
  function StepsBefore(options: LockOptions, attempts: nat -> Attempt, i: nat): seq<Step> {
    if i == 0 then [] else
      StepsBefore(options, attempts, i - 1) + [Tried(attempts(i - 1).token), Slept(Delay(options, attempts, i - 1))]
  }

  // The steps of a whole retry with `made` attempts.
  function RetrySteps(options: LockOptions, attempts: nat -> Attempt, made: nat): seq<Step>
    requires made >= 1
  {
    StepsBefore(options, attempts, made - 1) + [Tried(attempts(made - 1).token)]
  }

  // Attempt by attempt: each draws its own token, and the wait after it is the retry delay
  // times two to the number of waits before, plus its jitter.
  lemma {:induction false} StepByStep(options: LockOptions, attempts: nat -> Attempt, i: nat, k: nat)
    requires k < i
    ensures |StepsBefore(options, attempts, i)| == 2 * i
    ensures StepsBefore(options, attempts, i)[2 * k] == Tried(attempts(k).token)
    ensures StepsBefore(options, attempts, i)[2 * k + 1] == Slept(options.retryDelay * Pow2(k) + attempts(k).jitter)
  {
    if i > 1 {
      StepByStep(options, attempts, i - 1, if k < i - 1 then k else 0);
    }
  }

  function TotalWait(steps: seq<Step>): int {
    if steps == [] then 0 else
      var last := steps[|steps| - 1];
      TotalWait(steps[..|steps| - 1]) + if last.Slept? then last.delay else 0
  }

  lemma WaitOfOneMore(steps: seq<Step>, last: Step)
    ensures TotalWait(steps + [last]) == TotalWait(steps) + if last.Slept? then last.delay else 0
  {
    assert (steps + [last])[..|steps|] == steps;
  }

  lemma {:induction false} WaitBefore(options: LockOptions, attempts: nat -> Attempt, i: nat)
    requires forall k :: attempts(k).jitter < 50
    ensures options.retryDelay * (Pow2(i) - 1) <= TotalWait(StepsBefore(options, attempts, i))
         <= options.retryDelay * (Pow2(i) - 1) + 49 * i
  {
    if i > 0 {
      var before, tried := StepsBefore(options, attempts, i - 1), Tried(attempts(i - 1).token);
      var slept := Slept(Delay(options, attempts, i - 1));
      WaitBefore(options, attempts, i - 1);
      WaitOfOneMore(before, tried);
      WaitOfOneMore(before + [tried], slept);
      assert StepsBefore(options, attempts, i) == before + [tried] + [slept];
      BackoffSum(options.retryDelay, i);
    }
  }

  // The requested wait of a whole retry, jitters below 50 ms included.
  lemma RetryWaitIsBounded(options: LockOptions, attempts: nat -> Attempt, made: nat)
    requires made >= 1 && forall k :: attempts(k).jitter < 50
    ensures options.retryDelay * (Pow2(made - 1) - 1) <= TotalWait(RetrySteps(options, attempts, made))
         <= options.retryDelay * (Pow2(made - 1) - 1) + 49 * (made - 1)
  {
    WaitBefore(options, attempts, made - 1);
    WaitOfOneMore(StepsBefore(options, attempts, made - 1), Tried(attempts(made - 1).token));
  }

  // The function handed to withLock. It records each of its runs; seen from the service it may
  // take any time, do anything to the store, and throw.
  class Task {
    const service: DistributedLockService

    constructor (service: DistributedLockService)
      ensures this.service == service
    {
      this.service := service;
    }

    // To be run only under the lock, held for a full time to live.
    method Run(ghost resource: string, ghost token: string, ghost ttl: nat) returns (threw: bool)
      requires LockKey(resource) in service.redis.Live()
      requires service.redis.Live()[LockKey(resource)] == Entry(token, service.redis.now + ttl)
      modifies service.redis, service`trace
      ensures service.redis.now >= old(service.redis.now)
      ensures service.trace
           == old(service.trace) + [Ran(old(service.redis.Live()), old(service.redis.now), service.redis.Live(), threw)]
    {
      threw := false;
      service.trace := service.trace + [Ran(service.redis.Live(), service.redis.now, service.redis.Live(), threw)];
    }
  }

  class DistributedLockService {
    const redis: Store<string>
    ghost var trace: seq<Step>

    constructor (redis: Store<string>)
      ensures this.redis == redis && trace == []
    {
      this.redis := redis;
      trace := [];
    }

    method Acquire(resource: string, ttl: int, attempt: Attempt) returns (r: Result<bool, string>)
      modifies redis`entries, `trace
      ensures trace == old(trace) + [Tried(attempt.token)]
      ensures r.Err? <==> attempt.down || ttl <= 0
      ensures r.Ok? ==> r.value == (LockKey(resource) !in old(redis.Live()))
      ensures redis.Live() == if attempt.down && !attempt.stored then old(redis.Live())
                              else Acquired(old(redis.Live()), redis.now, LockKey(resource), attempt.token, ttl)
      ensures r == Ok(true) ==> LockOf(redis.Live(), resource) == Some(Entry(attempt.token, redis.now + ttl))
      ensures r == Ok(false) ==> LockOf(redis.Live(), resource) == LockOf(old(redis.Live()), resource) != None
      ensures forall other :: other != resource ==> LockOf(redis.Live(), other) == LockOf(old(redis.Live()), other)
    {
      LockKeysDiffer();
      trace := trace + [Tried(attempt.token)];
      if attempt.down && !attempt.stored {
        return Err("connection error");
      }
      r := redis.SetIfAbsent(LockKey(resource), attempt.token, ttl);
      if attempt.down {
        r := Err("reply lost");
      }
    }

    // A Redis failure is swallowed: the lock then runs out on its own.
    method Release(resource: string, lockToken: string, down: bool) returns (released: bool)
      modifies redis`entries
      ensures released <==> !down && HeldBy(old(redis.Live()), LockKey(resource), lockToken)
      ensures redis.Live() == if down then old(redis.Live())
                              else Released(old(redis.Live()), LockKey(resource), lockToken)
      ensures LockOf(redis.Live(), resource) == if released then None else LockOf(old(redis.Live()), resource)
      ensures forall other :: other != resource ==> LockOf(redis.Live(), other) == LockOf(old(redis.Live()), other)
    {
      LockKeysDiffer();
      if down {
        return false;
      }
      released := redis.CompareAndDelete(LockKey(resource), lockToken);
    }

    method Extend(resource: string, lockToken: string, ttl: int) returns (extended: bool)
      modifies redis`entries
      ensures extended <==> HeldBy(old(redis.Live()), LockKey(resource), lockToken)
      ensures redis.Live() == Extended(old(redis.Live()), redis.now, LockKey(resource), lockToken, ttl)
      ensures extended && ttl > 0 ==> LockOf(redis.Live(), resource) == Some(Entry(lockToken, redis.now + ttl))
      ensures extended && ttl <= 0 ==> LockOf(redis.Live(), resource) == None
      ensures !extended ==> LockOf(redis.Live(), resource) == LockOf(old(redis.Live()), resource)
      ensures forall other :: other != resource ==> LockOf(redis.Live(), other) == LockOf(old(redis.Live()), other)
    {
      LockKeysDiffer();
      extended := redis.CompareAndExpire(LockKey(resource), lockToken, ttl);
    }

    // A wait, during which other clients do to the store whatever they like: callers know of
    // it only what this contract says.
    method Sleep(delay: int)
      modifies redis, `trace
      ensures redis.now >= old(redis.now) + delay
      ensures trace == old(trace) + [Slept(delay)]
    {
      trace := trace + [Slept(delay)];
      if delay > 0 {
        redis.now := redis.now + delay;
      }
    }

    // At least one attempt, at most maxRetries of them, and those are all its steps but for the
    // doubling waits between them.
    method AcquireWithRetry(resource: string, options: LockOptions, attempts: nat -> Attempt)
        returns (r: Result<Option<string>, string>, made: nat)
      modifies redis, `trace
      ensures 1 <= made <= Max(1, options.maxRetries)
      ensures trace == old(trace) + RetrySteps(options, attempts, made)
      ensures r == Ok(None) ==> made == Max(1, options.maxRetries)
      ensures r.Err? <==> options.ttl <= 0 || attempts(made - 1).down
      ensures r.Ok? && r.value.Some? ==>
                && r.value.value == attempts(made - 1).token
                && LockKey(resource) in redis.Live()
                && redis.Live()[LockKey(resource)] == Entry(r.value.value, redis.now + options.ttl)
    {
      var totalAttempts := Max(1, options.maxRetries);
      made := 0;
      var attempt := 1;
      while attempt <= totalAttempts
        invariant 1 <= attempt <= totalAttempts + 1 && made == attempt - 1
        invariant made < totalAttempts ==> trace == old(trace) + StepsBefore(options, attempts, made)
        invariant made == totalAttempts ==> trace == old(trace) + RetrySteps(options, attempts, made)
        invariant made > 0 ==> options.ttl > 0 && !attempts(made - 1).down
      {
        var result := Acquire(resource, options.ttl, attempts(made));
        made := made + 1;
        assert trace == old(trace) + RetrySteps(options, attempts, made);
        if result.Err? {
          return Err(result.error), made;
        }
        if result.value {
          return Ok(Some(attempts(made - 1).token)), made;
        }
        if attempt < totalAttempts {
          Sleep(options.retryDelay * Pow2(attempt - 1) + attempts(made - 1).jitter);
        }
        attempt := attempt + 1;
      }
      r := Ok(None);
    }

    // The body runs at most once: after a successful acquire, from a state in which its token
    // holds the lock for a full time to live. What the release then takes away from the state
    // the body left is that token's lock, and nothing else.
    method WithLock(resource: string, fn: Task, options: LockOptions, attempts: nat -> Attempt, down: bool)
        returns (outcome: Outcome, made: nat)
      requires fn.service == this
      modifies redis, `trace
      ensures 1 <= made <= Max(1, options.maxRetries)
      ensures outcome == NotAcquired ==> made == Max(1, options.maxRetries)
      ensures outcome.AcquireFailed? <==> options.ttl <= 0 || attempts(made - 1).down
      ensures outcome == NotAcquired || outcome.AcquireFailed? ==>
                trace == old(trace) + RetrySteps(options, attempts, made)
      ensures outcome == Completed || outcome == Threw ==>
                && |trace| > 0
                && trace[..|trace| - 1] == old(trace) + RetrySteps(options, attempts, made)
                && var ran := trace[|trace| - 1];
                   && ran.Ran? && (ran.threw <==> outcome == Threw)
                   && LockKey(resource) in ran.start
                   && ran.start[LockKey(resource)] == Entry(attempts(made - 1).token, ran.startedAt + options.ttl)
                   && redis.Live() == if down then ran.end else Released(ran.end, LockKey(resource), attempts(made - 1).token)
    {
      var lock;
      lock, made := AcquireWithRetry(resource, options, attempts);
      if lock.Err? {
        return AcquireFailed(lock.error), made;
      }
      if lock.value.None? {
        return NotAcquired, made;
      }
      var token := lock.value.value;
      var threw := fn.Run(resource, token, options.ttl);
      var _ := Release(resource, token, down);
      outcome := if threw then Threw else Completed;
    }
  }

  lemma BackoffSum(retryDelay: int, attempt: nat)
    requires attempt >= 1
    ensures retryDelay * (Pow2(attempt - 1) - 1) + retryDelay * Pow2(attempt - 1) == retryDelay * (Pow2(attempt) - 1)
  {
    var p := Pow2(attempt - 1);
    assert Pow2(attempt) == 2 * p;
    assert retryDelay * (p - 1) + retryDelay * p == retryDelay * (2 * p - 1);
  }
}
