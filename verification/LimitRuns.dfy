// Any interleaving of requests from one address through the rate limiter. The read of the
// block record, the look at the clock, the increment and the write of a block record are
// separate steps.
module LimitRuns {
  import opened Prelude
  import opened TtlStore
  import opened IpRateLimit

  type RequestId = nat

  datatype Phase =
    | Looked(record: Option<BlockRecord>)  // has read the block record
    | Passed(now: Time)                    // has gone past the block check at `now`
    | Blocking(now: Time)                  // is about to write a block record

  datatype Request = Request(authenticated: bool, phase: Phase)

  datatype State = State(
    limits: Limits,
    clock: Time,
    counter: Option<Entry<nat>>,
    block: Option<Entry<BlockRecord>>,
    requests: map<RequestId, Request>)

  datatype Action =
    | Tick(elapsed: Time)
    | Look(request: RequestId, authenticated: bool)
    | Check(request: RequestId)
    | Increment(request: RequestId)
    | WriteBlock(request: RequestId)

  function LiveAt<V>(entry: Option<Entry<V>>, clock: Time): Option<V> {
    if entry.Some? && clock < entry.value.expiresAt then Some(entry.value.value) else None
  }

  predicate In(s: State, r: RequestId, a: Action) {
    r in s.requests &&
    match a
    case Check(_) => s.requests[r].phase.Looked?
    case Increment(_) => s.requests[r].phase.Passed?
    case WriteBlock(_) => s.requests[r].phase.Blocking?
    case _ => false
  }

  predicate Enabled(s: State, a: Action) {
    match a
    case Tick(_) => true
    case Look(r, _) => r !in s.requests
    case Check(r) => In(s, r, a)
    case Increment(r) => In(s, r, a)
    case WriteBlock(r) => In(s, r, a)
  }

  function NextCount(s: State): nat {
    var current := LiveAt(s.counter, s.clock);
    if current.Some? then current.value + 1 else 1
  }

  function VerdictOf(s: State, r: RequestId): Verdict
    requires r in s.requests
  {
    Judge(s.limits, s.requests[r].authenticated, NextCount(s))
  }

  // The record a pending block write would leave: its deadline is counted from the request's
  // own earlier look at the clock, its time to live from the write.
  function PendingUntil(s: State, r: RequestId): Time
    requires In(s, r, WriteBlock(r))
  {
    s.requests[r].phase.now + s.limits.blockMs
  }

  function Next(s: State, a: Action): State
    requires Enabled(s, a)
  {
    match a
    case Tick(elapsed) => s.(clock := s.clock + elapsed)
    case Look(r, authenticated) =>
      s.(requests := s.requests[r := Request(authenticated, Looked(LiveAt(s.block, s.clock)))])
    case Check(r) =>
      if Blocks(s.requests[r].phase.record, s.clock) then s.(requests := s.requests - {r})
      else s.(requests := s.requests[r := s.requests[r].(phase := Passed(s.clock))])
    case Increment(r) =>
      var count := NextCount(s);
      var counter := Some(Entry(count, if count == 1 then s.clock + WindowLength(s.limits.windowMs)
                                       else s.counter.value.expiresAt));
      var requests := if VerdictOf(s, r) == Block
                      then s.requests[r := s.requests[r].(phase := Blocking(s.requests[r].phase.now))]
                      else s.requests - {r};
      s.(counter := counter, requests := requests)
    case WriteBlock(r) =>
      s.(block := Some(Entry(BlockRecord(PendingUntil(s, r)), s.clock + s.limits.blockMs)),
         requests := s.requests - {r})
  }

  // `states` follow `actions`, whatever they start from.
  ghost predicate Follows(states: seq<State>, actions: seq<Action>) {
    && |states| == |actions| + 1
    && forall i :: 0 <= i < |actions| ==>
         Enabled(states[i], actions[i]) && states[i + 1] == Next(states[i], actions[i])
  }

  ghost predicate IsRun(states: seq<State>, actions: seq<Action>) {
    && Follows(states, actions)
    && states[0].counter.None? && states[0].block.None? && states[0].requests == map[]
  }

  // ----- The steps of one request -----

  // A request that is not interrupted: it is turned away by a live record before its deadline
  // and changes nothing; otherwise it is counted, and beyond the hard limit it leaves a record.
  lemma UninterruptedSteps(s: State, r: RequestId, authenticated: bool)
    requires r !in s.requests && s.limits.blockMs > 0
    ensures var count: nat := 1 + if s.counter.Some? && s.clock < s.counter.value.expiresAt then s.counter.value.value else 0;
            var s2 := Next(Next(s, Look(r, authenticated)), Check(r));
            if s.block.Some? && s.clock < s.block.value.expiresAt && s.clock < s.block.value.value.blockedUntil then
              s2 == s
            else
              && Enabled(s2, Increment(r))
              && var s3 := Next(s2, Increment(r));
                 && s3.counter == Some(Entry(count, if count == 1 then s.clock + WindowLength(s.limits.windowMs)
                                                    else s.counter.value.expiresAt))
                 && (if (if authenticated then count > s.limits.hard else 4 * count > 3 * s.limits.hard) then
                       && Enabled(s3, WriteBlock(r))
                       && var s4 := Next(s3, WriteBlock(r));
                          && s4.requests == s.requests && s4.counter == s3.counter
                          && s4.block == Some(Entry(BlockRecord(s.clock + s.limits.blockMs), s.clock + s.limits.blockMs))
                     else s3 == s.(counter := s3.counter))
  {
    var s1 := Next(s, Look(r, authenticated));
    var s2 := Next(s1, Check(r));
    assert s.requests[r := s1.requests[r]] - {r} == s.requests;
    if r in s2.requests {
      AnswersExactly(s.limits, NextCount(s2));
      assert s2.requests - {r} == s.requests;
    }
  }

  // ----- The rate bound -----

  predicate Admits(s: State, a: Action)
    requires Enabled(s, a)
  {
    a.Increment? && VerdictOf(s, a.request) == Admit
  }

  // Exactly those requests are admitted that find the window within both limits, or within
  // three quarters of both.
  lemma AdmitsExactly(s: State, r: RequestId)
    requires Enabled(s, Increment(r))
    ensures Admits(s, Increment(r)) <==>
            if s.requests[r].authenticated then NextCount(s) <= s.limits.hard && NextCount(s) <= s.limits.soft
            else 4 * NextCount(s) <= 3 * s.limits.hard && 4 * NextCount(s) <= 3 * s.limits.soft
    ensures r in Next(s, Increment(r)).requests <==>
            if s.requests[r].authenticated then NextCount(s) > s.limits.hard else 4 * NextCount(s) > 3 * s.limits.hard
  {
    AnswersExactly(s.limits, NextCount(s));
  }

  // Requests admitted since the last increment that returned 1, or only the unauthenticated
  // ones among them.
  ghost function AdmittedInWindow(states: seq<State>, actions: seq<Action>, onlyAnonymous: bool, i: nat): nat
    requires IsRun(states, actions) && i < |states|
  {
    if i == 0 then 0 else
      var s, a := states[i - 1], actions[i - 1];
      assert Enabled(s, a);
      var before := AdmittedInWindow(states, actions, onlyAnonymous, i - 1);
      if !a.Increment? then before else
        (if NextCount(s) == 1 then 0 else before)
        + (if Admits(s, a) && (onlyAnonymous ==> !s.requests[a.request].authenticated) then 1 else 0)
  }

  lemma {:induction false} SameLimits(states: seq<State>, actions: seq<Action>, i: nat)
    requires IsRun(states, actions) && i < |states|
    ensures states[i].limits == states[0].limits
  {
    if i > 0 {
      SameLimits(states, actions, i - 1);
    }
  }

  // Each admission used up a count of its own that was within the cap.
  lemma {:induction false} AdmittedBelowCount(states: seq<State>, actions: seq<Action>, onlyAnonymous: bool, i: nat)
    requires IsRun(states, actions) && i < |states|
    ensures AdmittedInWindow(states, actions, onlyAnonymous, i) <= Cap(states[0].limits, !onlyAnonymous)
    ensures states[i].counter.Some? ==>
              AdmittedInWindow(states, actions, onlyAnonymous, i) <= states[i].counter.value.value
    ensures states[i].counter.None? ==> AdmittedInWindow(states, actions, onlyAnonymous, i) == 0
  {
    if i > 0 {
      AdmittedBelowCount(states, actions, onlyAnonymous, i - 1);
      SameLimits(states, actions, i - 1);
      var s, a := states[i - 1], actions[i - 1];
      assert Enabled(s, a) && states[i] == Next(s, a);
      if a.Increment? {
        var authenticated := s.requests[a.request].authenticated;
        AdmitsUpToTheCap(s.limits, authenticated, NextCount(s));
        AdmitsUpToTheCap(s.limits, true, NextCount(s));
      }
    }
  }

  // At most min(soft, hard) requests per window, and at most three quarters of that, rounded
  // down, without authentication.
  lemma RateBound(states: seq<State>, actions: seq<Action>, i: nat)
    requires IsRun(states, actions) && i < |states|
    ensures AdmittedInWindow(states, actions, false, i) <= Max(0, Min(states[0].limits.soft, states[0].limits.hard))
    ensures AdmittedInWindow(states, actions, true, i)
         <= Max(0, Min(3 * states[0].limits.soft / 4, 3 * states[0].limits.hard / 4))
  {
    AdmittedBelowCount(states, actions, false, i);
    AdmittedBelowCount(states, actions, true, i);
  }

  // ----- Blocking -----

  // Pending deadlines were counted from instants that have passed.
  ghost predicate Inv(s: State) {
    && (forall r :: r in s.requests && s.requests[r].phase.Blocking? ==> s.requests[r].phase.now <= s.clock)
    && (forall r :: r in s.requests && s.requests[r].phase.Passed? ==> s.requests[r].phase.now <= s.clock)
    && (s.block.Some? ==> s.block.value.value.blockedUntil <= s.block.value.expiresAt)
  }

  lemma {:induction false} InvAlways(states: seq<State>, actions: seq<Action>, i: nat)
    requires IsRun(states, actions) && i < |states|
    ensures Inv(states[i])
  {
    if i > 0 {
      InvAlways(states, actions, i - 1);
      assert Enabled(states[i - 1], actions[i - 1]) && states[i] == Next(states[i - 1], actions[i - 1]);
    }
  }

  // Step `i` wrote a block record and no later step before `j` wrote another.
  ghost predicate LastWrite(states: seq<State>, actions: seq<Action>, i: nat, j: nat)
    requires IsRun(states, actions)
  {
    && i < j <= |actions| && actions[i].WriteBlock?
    && forall k :: i < k < j ==> !actions[k].WriteBlock?
  }

  ghost function WrittenUntil(states: seq<State>, actions: seq<Action>, i: nat): Time
    requires IsRun(states, actions) && i < |actions| && actions[i].WriteBlock?
  {
    assert Enabled(states[i], actions[i]);
    PendingUntil(states[i], actions[i].request)
  }

  lemma {:induction false} RecordStays(states: seq<State>, actions: seq<Action>, i: nat, j: nat)
    requires IsRun(states, actions) && LastWrite(states, actions, i, j)
    ensures states[j].block.Some? && states[j].block.value.value.blockedUntil == WrittenUntil(states, actions, i)
  {
    assert Enabled(states[j - 1], actions[j - 1]) && states[j] == Next(states[j - 1], actions[j - 1]);
    if i < j - 1 {
      RecordStays(states, actions, i, j - 1);
    }
  }

  lemma {:induction false} LookedStays(states: seq<State>, actions: seq<Action>, j: nat, k: nat)
    requires IsRun(states, actions) && j < k <= |actions| && actions[j].Look?
    requires forall m :: j < m < k ==> actions[m] != Check(actions[j].request)
    ensures actions[j].request in states[k].requests
    ensures states[k].requests[actions[j].request].phase == Looked(LiveAt(states[j].block, states[j].clock))
  {
    assert Enabled(states[k - 1], actions[k - 1]) && states[k] == Next(states[k - 1], actions[k - 1]);
    if j < k - 1 {
      LookedStays(states, actions, j, k - 1);
    }
  }

  lemma {:induction false} ClockGrows(states: seq<State>, actions: seq<Action>, i: nat, j: nat)
    requires IsRun(states, actions) && i <= j < |states|
    ensures states[i].clock <= states[j].clock
  {
    if i < j {
      ClockGrows(states, actions, i, j - 1);
      assert Enabled(states[j - 1], actions[j - 1]) && states[j] == Next(states[j - 1], actions[j - 1]);
    }
  }

  // A request that looks after a block write and checks at time t is turned away exactly when
  // t is before the deadline written last.
  lemma TurnedAwayExactlyByLastWrite(states: seq<State>, actions: seq<Action>, i: nat, j: nat, k: nat)
    requires IsRun(states, actions) && LastWrite(states, actions, i, j) && j < k < |actions|
    requires actions[j].Look? && actions[k] == Check(actions[j].request)
    requires forall m :: j < m < k ==> actions[m] != Check(actions[j].request)
    ensures actions[j].request !in states[k + 1].requests <==> states[k].clock < WrittenUntil(states, actions, i)
  {
    RecordStays(states, actions, i, j);
    InvAlways(states, actions, j);
    LookedStays(states, actions, j, k);
    ClockGrows(states, actions, j, k);
    assert states[k + 1] == Next(states[k], actions[k]);
  }

  // So a written deadline U is honoured for every later look unless some later write lowers
  // it: none does when block writes land in the order of their requests' looks at the clock.
  lemma DeadlineHonouredUnlessLowered(states: seq<State>, actions: seq<Action>, i: nat, l: nat, j: nat, k: nat)
    requires IsRun(states, actions) && i <= l && LastWrite(states, actions, l, j) && j < k < |actions|
    requires actions[i].WriteBlock? && WrittenUntil(states, actions, i) <= WrittenUntil(states, actions, l)
    requires actions[j].Look? && actions[k] == Check(actions[j].request)
    requires forall m :: j < m < k ==> actions[m] != Check(actions[j].request)
    requires states[k].clock < WrittenUntil(states, actions, i)
    ensures actions[j].request !in states[k + 1].requests
  {
    TurnedAwayExactlyByLastWrite(states, actions, l, j, k);
  }

  // A later write can lower it: whenever a request that looked at the clock at t0 writes after
  // one that looked at t1 > t0, a newcomer at t0 + blockMs passes the block check although the
  // first record promised a block until t1 + blockMs.
  lemma LaterWriteLowersDeadline(s: State, first: RequestId, second: RequestId, newcomer: RequestId)
    requires first != second && newcomer !in s.requests
    requires In(s, first, WriteBlock(first)) && In(s, second, WriteBlock(second))
    requires s.requests[second].phase.now < s.requests[first].phase.now
    requires s.clock <= PendingUntil(s, second)
    ensures var s1 := Next(s, WriteBlock(first));
            && Enabled(s1, WriteBlock(second))
            && var s2 := Next(s1, WriteBlock(second));
               var s3 := Next(s2, Tick(PendingUntil(s, second) - s.clock));
               && s3.clock < PendingUntil(s, first)
               && newcomer in Next(Next(s3, Look(newcomer, true)), Check(newcomer)).requests
  {
  }

  lemma Then(states: seq<State>, actions: seq<Action>, a: Action) returns (states': seq<State>, actions': seq<Action>)
    requires Follows(states, actions) && Enabled(states[|actions|], a)
    ensures actions' == actions + [a] && states' == states + [Next(states[|actions|], a)]
    ensures Follows(states', actions')
  {
    states', actions' := states + [Next(states[|actions|], a)], actions + [a];
  }

  // One request a minute, and a block of fifteen minutes.
  const TIGHT := Limits(1, 1, 60000, 900000)

  lemma OneAdmitted() returns (states: seq<State>, actions: seq<Action>)
    ensures |actions| == 3 && Follows(states, actions) && states[0] == State(TIGHT, 0, None, None, map[])
    ensures states[3] == State(TIGHT, 0, Some(Entry(1, 60000)), None, map[])
  {
    var s0 := State(TIGHT, 0, None, None, map[]);
    states, actions := Then([s0], [], Look(1, true));
    states, actions := Then(states, actions, Check(1));
    states, actions := Then(states, actions, Increment(1));
  }

  // Two more pass the block check, at 0 and at 1 ...
  lemma TwoPass() returns (states: seq<State>, actions: seq<Action>)
    ensures |actions| == 8 && Follows(states, actions) && states[0] == State(TIGHT, 0, None, None, map[])
    ensures states[8] == State(TIGHT, 1, Some(Entry(1, 60000)), None,
                               map[2 := Request(true, Passed(0)), 3 := Request(true, Passed(1))])
  {
    states, actions := OneAdmitted();
    states, actions := Then(states, actions, Look(2, true));
    states, actions := Then(states, actions, Check(2));
    states, actions := Then(states, actions, Look(3, true));
    states, actions := Then(states, actions, Tick(1));
    states, actions := Then(states, actions, Check(3));
  }

  // ... and exceed the limit; the one that looked later writes its record first.
  lemma RecordsCross() returns (states: seq<State>, actions: seq<Action>)
    ensures |actions| == 12 && Follows(states, actions) && states[0] == State(TIGHT, 0, None, None, map[])
    ensures actions[10] == WriteBlock(3) && In(states[10], 3, actions[10]) && PendingUntil(states[10], 3) == 900001
    ensures states[12] == State(TIGHT, 1, Some(Entry(3, 60000)), Some(Entry(BlockRecord(900000), 900001)), map[])
  {
    states, actions := TwoPass();
    states, actions := Then(states, actions, Increment(2));
    states, actions := Then(states, actions, Increment(3));
    states, actions := Then(states, actions, WriteBlock(3));
    states, actions := Then(states, actions, WriteBlock(2));
  }

  // A run from the start in which a request is admitted at 900000 although a block record had
  // promised a block until 900001.
  lemma AdmittedDuringABlock() returns (states: seq<State>, actions: seq<Action>)
    ensures IsRun(states, actions) && |actions| == 16 && states[0].limits == TIGHT
    ensures actions[10] == WriteBlock(3) && WrittenUntil(states, actions, 10) == 900001
    ensures actions[13] == Look(4, true) && actions[14] == Check(4) && actions[15] == Increment(4)
    ensures Enabled(states[15], actions[15]) && Admits(states[15], actions[15]) && states[15].clock == 900000
  {
    states, actions := RecordsCross();
    states, actions := Then(states, actions, Tick(899999));
    states, actions := Then(states, actions, Look(4, true));
    states, actions := Then(states, actions, Check(4));
    states, actions := Then(states, actions, Increment(4));
  }
}
