// Any number of requests with one idempotency key. A request looks at the entry, and marks it
// later if nothing stands in its way; its handler takes time, and its cache write lands later
// or not at all. How late may they be, and is it enough? The last theorem says exactly.
module IdempotencyRuns {
  import opened Prelude
  import opened TtlStore
  import opened Idempotency

  type RunId = nat

  datatype Phase = Looked | Handling | Succeeded(body: string) | Errored

  // A request that may proceed: since when it has its marker (or, before, its look), and how
  // far it is. It goes when its write lands.
  datatype Run = Run(startedAt: Time, phase: Phase)

  datatype State = State(ttl: nat, clock: Time, entry: Option<Entry<CacheEntry>>, runs: map<RunId, Run>)

  datatype Action =
    | Tick(elapsed: Time)
    | Look(run: RunId)
    | Mark(run: RunId)
    | Succeed(run: RunId, body: string)
    | Fail(run: RunId)
    | LandResponse(run: RunId)
    | LandDelete(run: RunId)
    | Vanish(run: RunId)  // its process dies, or its write is lost

  function Cached(s: State): Option<CacheEntry> {
    if s.entry.Some? && s.clock < s.entry.value.expiresAt then Some(s.entry.value.value) else None
  }

  function Decision(s: State): Idempotency.Decision {
    Decide(Cached(s), s.clock)
  }

  predicate Enabled(s: State, a: Action) {
    match a
    case Tick(_) => true
    case Look(r) => r !in s.runs
    case Mark(r) => r in s.runs && s.runs[r].phase.Looked?
    case Succeed(r, _) => r in s.runs && s.runs[r].phase.Handling?
    case Fail(r) => r in s.runs && s.runs[r].phase.Handling?
    case LandResponse(r) => r in s.runs && s.runs[r].phase.Succeeded?
    case LandDelete(r) => r in s.runs && s.runs[r].phase.Errored?
    case Vanish(r) => r in s.runs
  }

  function Next(s: State, a: Action): State
    requires Enabled(s, a)
  {
    match a
    case Tick(elapsed) => s.(clock := s.clock + elapsed)
    case Look(r) => if Decision(s) == Proceed then s.(runs := s.runs[r := Run(s.clock, Looked)]) else s
    case Mark(r) =>
      s.(entry := Some(Entry(Processing(s.clock), s.clock + MARKER_TTL_MS)), runs := s.runs[r := Run(s.clock, Handling)])
    case Succeed(r, body) => s.(runs := s.runs[r := s.runs[r].(phase := Succeeded(body))])
    case Fail(r) => s.(runs := s.runs[r := s.runs[r].(phase := Errored)])
    case LandResponse(r) =>
      s.(entry := Some(Entry(Response(s.runs[r].phase.body), s.clock + s.ttl)), runs := s.runs - {r})
    case LandDelete(r) => s.(entry := None, runs := s.runs - {r})
    case Vanish(r) => s.(runs := s.runs - {r})
  }

  // The run has its marker, and has had it for less than the bound.
  predicate Within(s: State, r: RunId, bound: Time) {
    r in s.runs && !s.runs[r].phase.Looked? && s.clock < s.runs[r].startedAt + bound
  }

  predicate Current(s: State, r: RunId) {
    Within(s, r, STALE_AFTER_MS)
  }

  // What a deployment keeps to: whether looking and marking are one step for the other
  // requests, whether every response does land, and how soon after its marker a handler
  // succeeds, a response lands and the deletion of a failed run's marker lands.
  datatype Discipline = Discipline(atomic: bool, reliable: bool, success: Time, landing: Time, deletion: Time)

  ghost predicate Keeps(d: Discipline, s: State, a: Action) {
    match a
    case Look(_) => d.atomic ==> forall r :: r in s.runs ==> !s.runs[r].phase.Looked?
    case Succeed(r, _) => Within(s, r, d.success)
    case LandDelete(r) => Within(s, r, d.deletion)
    case Vanish(r) => d.reliable ==> r in s.runs && !s.runs[r].phase.Succeeded?
    case Tick(elapsed) =>
      forall r :: r in s.runs && s.runs[r].phase.Succeeded? ==> s.clock + elapsed < s.runs[r].startedAt + d.landing
    case _ => true
  }

  ghost predicate IsRun(d: Discipline, states: seq<State>, actions: seq<Action>) {
    && |states| == |actions| + 1
    && states[0].entry.None? && states[0].runs == map[] && states[0].ttl > 0
    && forall i :: 0 <= i < |actions| ==>
         && Enabled(states[i], actions[i]) && Keeps(d, states[i], actions[i])
         && states[i + 1] == Next(states[i], actions[i])
  }

  const PROMPT := Discipline(true, true, STALE_AFTER_MS, STALE_AFTER_MS, STALE_AFTER_MS)

  // The current run, if any, is the only one, and the entry is its marker; while a request is
  // between look and mark there is none, and nothing has come into its way.
  ghost predicate Inv(s: State) {
    && s.ttl > 0
    && (forall r :: r in s.runs && s.runs[r].phase.Succeeded? ==> Current(s, r))
    && (forall r :: r in s.runs ==> s.runs[r].startedAt <= s.clock)
    && (forall r :: Current(s, r) ==>
          s.entry == Some(Entry(Processing(s.runs[r].startedAt), s.runs[r].startedAt + MARKER_TTL_MS)))
    && (forall r, q :: Current(s, r) && Current(s, q) ==> r == q)
    && (forall r :: r in s.runs && s.runs[r].phase.Looked? ==> Decision(s) == Proceed)
    && (forall r, q :: r in s.runs && q in s.runs && s.runs[r].phase.Looked? && s.runs[q].phase.Looked? ==> r == q)
  }

  // Where a request may proceed, no run is current.
  lemma ProceedMeansFree(s: State)
    requires Inv(s) && Decision(s) == Proceed
    ensures forall r :: r in s.runs ==> !Current(s, r) && !s.runs[r].phase.Succeeded?
  {
  }

  lemma InvStep(s: State, a: Action)
    requires Inv(s) && Enabled(s, a) && Keeps(PROMPT, s, a)
    ensures Inv(Next(s, a))
  {
    match a
    case Tick(elapsed) => InvTick(s, elapsed);
    case Look(_) => InvLookOrMark(s, a);
    case Mark(_) => InvLookOrMark(s, a);
    case _ => InvOwn(s, a);
  }

  lemma InvTick(s: State, elapsed: Time)
    requires Inv(s) && Keeps(PROMPT, s, Tick(elapsed))
    ensures Inv(s.(clock := s.clock + elapsed))
  {
    var s' := s.(clock := s.clock + elapsed);
    assert forall r :: Current(s', r) ==> Current(s, r);
  }

  lemma InvLookOrMark(s: State, a: Action)
    requires Inv(s) && Enabled(s, a) && Keeps(PROMPT, s, a) && (a.Look? || a.Mark?)
    ensures Inv(Next(s, a))
  {
    if Decision(s) == Proceed {
      ProceedMeansFree(s);
    }
  }

  // The steps of one run that has its marker; or it vanishes.
  lemma InvOwn(s: State, a: Action)
    requires Inv(s) && Enabled(s, a) && Keeps(PROMPT, s, a) && !a.Tick? && !a.Look? && !a.Mark?
    ensures Inv(Next(s, a))
  {
    var s' := Next(s, a);
    if Decision(s) == Proceed {
      ProceedMeansFree(s);
    }
    assert forall r :: Current(s', r) ==> Current(s, r) && s'.runs[r].startedAt == s.runs[r].startedAt;
  }

  lemma {:induction false} InvAlways(states: seq<State>, actions: seq<Action>, i: nat)
    requires IsRun(PROMPT, states, actions) && i < |states|
    ensures Inv(states[i]) && states[i].ttl == states[0].ttl
  {
    if i > 0 {
      InvAlways(states, actions, i - 1);
      InvStep(states[i - 1], actions[i - 1]);
    }
  }

  // ----- The steps of one request -----

  // A request may proceed exactly if the entry has expired, or is a marker of thirty seconds
  // or more, or there is none.
  lemma ProceedsExactly(s: State)
    ensures Decision(s) == Proceed <==>
            || s.entry == None || s.clock >= s.entry.value.expiresAt
            || (s.entry.value.value.Processing? && s.clock >= s.entry.value.value.startedAt + 30000)
  {
  }

  // A request that is not interrupted leaves its response for the time to live, or nothing.
  lemma UninterruptedSteps(s: State, r: RunId, elapsed: Time, body: string)
    requires r !in s.runs && Decision(s) == Proceed
    ensures var marked := Next(Next(s, Look(r)), Mark(r));
            var handled := Next(marked, Tick(elapsed));
            && marked.entry == Some(Entry(Processing(s.clock), s.clock + 60000))
            && Next(Next(handled, Succeed(r, body)), LandResponse(r))
               == s.(clock := s.clock + elapsed, entry := Some(Entry(Response(body), s.clock + elapsed + s.ttl)))
            && Next(Next(handled, Fail(r)), LandDelete(r)) == s.(clock := s.clock + elapsed, entry := None)
  {
    var handled := Next(Next(Next(s, Look(r)), Mark(r)), Tick(elapsed));
    assert forall phase: Phase :: handled.runs[r := Run(s.clock, phase)] - {r} == s.runs;
  }

  // ----- At most one success per window -----

  // The response of run `r`, landed at step `m`, is what the entry holds, and is still live.
  ghost predicate Serving(states: seq<State>, actions: seq<Action>, m: nat, j: nat)
    requires |states| == |actions| + 1 && m < |actions| && j < |states|
  {
    && actions[m].LandResponse? && Enabled(states[m], actions[m])
    && states[j].entry == Some(Entry(Response(states[m].runs[actions[m].run].phase.body), states[m].clock + states[m].ttl))
    && states[j].clock < states[m].clock + states[m].ttl
  }

  lemma {:induction false} ServesUntilExpiry(states: seq<State>, actions: seq<Action>, m: nat, j: nat)
    requires IsRun(PROMPT, states, actions) && m < j < |states| && actions[m].LandResponse?
    requires states[j].clock < states[m].clock + states[m].ttl
    ensures Serving(states, actions, m, j)
  {
    var s := states[j - 1];
    assert Enabled(s, actions[j - 1]) && Keeps(PROMPT, s, actions[j - 1]) && states[j] == Next(s, actions[j - 1]);
    if m < j - 1 {
      ServesUntilExpiry(states, actions, m, j - 1);
      InvAlways(states, actions, j - 1);
      assert Decision(s) != Proceed;
      assert forall r :: r in s.runs ==> !Current(s, r);
    }
  }

  // Every request in that window gets that run's body.
  lemma LaterRequestsGetTheBody(states: seq<State>, actions: seq<Action>, m: nat, j: nat)
    requires IsRun(PROMPT, states, actions) && m < j < |states| && actions[m].LandResponse?
    requires states[j].clock < states[m].clock + states[m].ttl
    ensures Enabled(states[m], actions[m])
    ensures Decision(states[j]) == Replay(states[m].runs[actions[m].run].phase.body)
  {
    ServesUntilExpiry(states, actions, m, j);
  }

  // From its success on, a run is either waiting for its response to land or has landed it.
  lemma {:induction false} AfterSuccess(states: seq<State>, actions: seq<Action>, i: nat, j: nat)
      returns (landed: Option<nat>)
    requires IsRun(PROMPT, states, actions) && i < j < |states| && actions[i].Succeed?
    ensures landed.None? ==>
              actions[i].run in states[j].runs && states[j].runs[actions[i].run].phase == Succeeded(actions[i].body)
    ensures landed.Some? ==> i < landed.value < j && actions[landed.value] == LandResponse(actions[i].run)
  {
    var s, a := states[j - 1], actions[j - 1];
    assert Enabled(s, a) && Keeps(PROMPT, s, a) && states[j] == Next(s, a);
    if i == j - 1 {
      landed := None;
    } else {
      landed := AfterSuccess(states, actions, i, j - 1);
      if landed.None? && a == LandResponse(actions[i].run) {
        landed := Some(j - 1);
      }
    }
  }

  // A second handler run succeeds only after the first one's response was cached and its
  // whole time to live has passed.
  lemma OneSuccessPerWindow(states: seq<State>, actions: seq<Action>, i: nat, j: nat) returns (m: nat)
    requires IsRun(PROMPT, states, actions) && i < j < |actions| && actions[i].Succeed? && actions[j].Succeed?
    ensures i < m < j && actions[m] == LandResponse(actions[i].run)
    ensures states[j].clock >= states[m].clock + states[m].ttl
  {
    var landed := AfterSuccess(states, actions, i, j);
    InvAlways(states, actions, j);
    assert Enabled(states[j], actions[j]) && Keeps(PROMPT, states[j], actions[j]);
    assert Current(states[j], actions[j].run);
    if landed.None? {
      assert false;
    }
    m := landed.value;
    if states[j].clock < states[m].clock + states[m].ttl {
      ServesUntilExpiry(states, actions, m, j);
    }
  }

  // A failed run whose delete lands leaves the key free, until the next request looks: nothing
  // that is still under way can occupy it.
  lemma {:induction false} FreeAfterDelete(states: seq<State>, actions: seq<Action>, m: nat, j: nat)
    requires IsRun(PROMPT, states, actions) && m < j < |states| && actions[m].LandDelete?
    requires forall k :: m < k < j ==> !actions[k].Look?
    ensures states[j].entry.None? && Decision(states[j]) == Proceed
    ensures forall r :: r in states[j].runs ==> !states[j].runs[r].phase.Looked?
  {
    var s, a := states[j - 1], actions[j - 1];
    assert Enabled(s, a) && Keeps(PROMPT, s, a) && states[j] == Next(s, a);
    InvAlways(states, actions, j - 1);
    if m < j - 1 {
      FreeAfterDelete(states, actions, m, j - 1);
      ProceedMeansFree(s);
    }
  }

  // ----- What the discipline must be -----

  // While a run's marker stands, another request may proceed exactly from thirty seconds on.
  lemma TakeoverExactlyWhenStale(s: State, startedAt: Time)
    requires startedAt <= s.clock && s.entry == Some(Entry(Processing(startedAt), startedAt + MARKER_TTL_MS))
    ensures Decision(s) == Proceed <==> s.clock >= startedAt + STALE_AFTER_MS
    ensures Decision(s) == InUse <==> s.clock < startedAt + STALE_AFTER_MS
  {
  }

  // Of two successes, the first one's response has landed and expired before the second.
  ghost predicate OncePerWindow(states: seq<State>, actions: seq<Action>)
    requires |states| == |actions| + 1
  {
    forall i, j :: 0 <= i < j < |actions| && actions[i].Succeed? && actions[j].Succeed? ==> Expired(states, actions, i, j)
  }

  ghost predicate Expired(states: seq<State>, actions: seq<Action>, i: nat, j: nat)
    requires |states| == |actions| + 1 && i < j < |actions| && actions[i].Succeed?
  {
    exists m :: i < m < j && actions[m] == LandResponse(actions[i].run) && states[j].clock >= states[m].clock + states[m].ttl
  }

  ghost predicate Safe(d: Discipline) {
    forall states, actions :: IsRun(d, states, actions) ==> OncePerWindow(states, actions)
  }

  ghost predicate Suffices(d: Discipline) {
    d.atomic && d.reliable && d.success <= STALE_AFTER_MS && d.landing <= STALE_AFTER_MS && d.deletion <= STALE_AFTER_MS
  }

  // One more step of a run.
  lemma Then(d: Discipline, states: seq<State>, actions: seq<Action>, a: Action)
      returns (states': seq<State>, actions': seq<Action>)
    requires IsRun(d, states, actions) && Enabled(states[|actions|], a) && Keeps(d, states[|actions|], a)
    ensures actions' == actions + [a] && states' == states + [Next(states[|actions|], a)] && IsRun(d, states', actions')
  {
    states', actions' := states + [Next(states[|actions|], a)], actions + [a];
  }

  // A request looks and marks.
  lemma ThenBegin(d: Discipline, states: seq<State>, actions: seq<Action>, r: RunId)
      returns (states': seq<State>, actions': seq<Action>)
    requires IsRun(d, states, actions) && r !in states[|actions|].runs && Decision(states[|actions|]) == Proceed
    requires forall q :: q in states[|actions|].runs ==> !states[|actions|].runs[q].phase.Looked?
    ensures var s := states[|actions|];
            && actions' == actions + [Look(r), Mark(r)] && IsRun(d, states', actions') && states <= states'
            && states'[|actions'|] == s.(entry := Some(Entry(Processing(s.clock), s.clock + MARKER_TTL_MS)),
                                         runs := s.runs[r := Run(s.clock, Handling)])
  {
    states', actions' := Then(d, states, actions, Look(r));
    states', actions' := Then(d, states', actions', Mark(r));
  }

  // The first request begins.
  lemma Opening(d: Discipline, ttl: nat) returns (states: seq<State>, actions: seq<Action>)
    requires ttl > 0
    ensures IsRun(d, states, actions) && actions == [Look(1), Mark(1)]
    ensures states[2] == State(ttl, 0, Some(Entry(Processing(0), MARKER_TTL_MS)), map[1 := Run(0, Handling)])
  {
    states, actions := ThenBegin(d, [State(ttl, 0, None, map[])], [], 1);
  }

  // A handler that takes no time: another request begins at `now`, and succeeds at once.
  lemma ThenSucceed(d: Discipline, states: seq<State>, actions: seq<Action>, r: RunId, body: string)
      returns (states': seq<State>, actions': seq<Action>)
    requires IsRun(d, states, actions) && r !in states[|actions|].runs && Decision(states[|actions|]) == Proceed
    requires d.success > 0 && forall q :: q in states[|actions|].runs ==> !states[|actions|].runs[q].phase.Looked?
    ensures var s := states[|actions|];
            && actions' == actions + [Look(r), Mark(r), Succeed(r, body)] && IsRun(d, states', actions')
            && states <= states'
            && states'[|actions'|] == s.(entry := Some(Entry(Processing(s.clock), s.clock + MARKER_TTL_MS)),
                                         runs := s.runs[r := Run(s.clock, Succeeded(body))])
  {
    states', actions' := ThenBegin(d, states, actions, r);
    states', actions' := Then(d, states', actions', Succeed(r, body));
  }

  // Two successes and no response landed in between: not once per window.
  lemma TwoSuccesses(states: seq<State>, actions: seq<Action>, i: nat, j: nat)
    requires |states| == |actions| + 1 && i < j < |actions| && actions[i].Succeed? && actions[j].Succeed?
    requires forall m :: i < m < j && actions[m] == LandResponse(actions[i].run) ==>
               states[j].clock < states[m].clock + states[m].ttl
    ensures !OncePerWindow(states, actions)
  {
    assert !Expired(states, actions, i, j);
  }

  // If others can look between a look and its mark, two handlers run at once.
  lemma TwoSuccessesIfLooksInterleave(d: Discipline, ttl: nat) returns (states: seq<State>, actions: seq<Action>)
    requires ttl > 0 && d.success > 0 && !d.atomic
    ensures actions == [Look(1), Look(2), Mark(1), Mark(2), Succeed(1, "first"), Succeed(2, "second")]
    ensures IsRun(d, states, actions) && !OncePerWindow(states, actions)
  {
    states, actions := BothMark(d, ttl);
    states, actions := Then(d, states, actions, Succeed(1, "first"));
    states, actions := Then(d, states, actions, Succeed(2, "second"));
    TwoSuccesses(states, actions, 4, 5);
  }

  lemma BothMark(d: Discipline, ttl: nat) returns (states: seq<State>, actions: seq<Action>)
    requires ttl > 0 && !d.atomic
    ensures IsRun(d, states, actions) && actions == [Look(1), Look(2), Mark(1), Mark(2)]
    ensures states[4].runs == map[1 := Run(0, Handling), 2 := Run(0, Handling)] && states[4].clock == 0
  {
    states, actions := Then(d, [State(ttl, 0, None, map[])], [], Look(1));
    states, actions := Then(d, states, actions, Look(2));
    assert states[2] == State(ttl, 0, None, map[1 := Run(0, Looked), 2 := Run(0, Looked)]);
    states, actions := Then(d, states, actions, Mark(1));
    states, actions := Then(d, states, actions, Mark(2));
  }

  // If a response is lost, the next request runs its handler again.
  lemma TwoSuccessesIfResponseIsLost(d: Discipline, ttl: nat) returns (states: seq<State>, actions: seq<Action>)
    requires ttl > 0 && d.success > 0 && !d.reliable
    ensures actions == [Look(1), Mark(1), Succeed(1, "first"), Vanish(1), Tick(STALE_AFTER_MS), Look(2), Mark(2),
                        Succeed(2, "second")]
    ensures IsRun(d, states, actions) && !OncePerWindow(states, actions)
  {
    states, actions := Opening(d, ttl);
    states, actions := Then(d, states, actions, Succeed(1, "first"));
    states, actions := Then(d, states, actions, Vanish(1));
    states, actions := Then(d, states, actions, Tick(STALE_AFTER_MS));
    TakeoverExactlyWhenStale(states[5], 0);
    states, actions := ThenSucceed(d, states, actions, 2, "second");
    TwoSuccesses(states, actions, 2, 7);
  }

  // For every landing time from thirty seconds up, inside the marker's life or not, two
  // handlers that take no time at all can both succeed before any response lands.
  lemma TwoSuccessesIfResponseLandsLate(d: Discipline, ttl: nat, late: Time) returns (states: seq<State>, actions: seq<Action>)
    requires ttl > 0 && d.success > 0 && STALE_AFTER_MS <= late < d.landing
    ensures actions == [Look(1), Mark(1), Succeed(1, "first"), Tick(late), Look(2), Mark(2), Succeed(2, "second")]
    ensures IsRun(d, states, actions) && !OncePerWindow(states, actions) && states[7].clock == late
  {
    states, actions := Opening(d, ttl);
    states, actions := Then(d, states, actions, Succeed(1, "first"));
    states, actions := Then(d, states, actions, Tick(late));
    TakeoverExactlyWhenStale(states[4], 0);
    states, actions := ThenSucceed(d, states, actions, 2, "second");
    TwoSuccesses(states, actions, 2, 6);
  }

  // The same if a handler succeeds that late: it does so beside the one that took over.
  lemma TwoSuccessesIfHandlerIsLate(d: Discipline, ttl: nat, late: Time) returns (states: seq<State>, actions: seq<Action>)
    requires ttl > 0 && STALE_AFTER_MS <= late < d.success
    ensures actions == [Look(1), Mark(1), Tick(late), Look(2), Mark(2), Succeed(2, "second"), Succeed(1, "first")]
    ensures IsRun(d, states, actions) && !OncePerWindow(states, actions) && states[7].clock == late
  {
    states, actions := Opening(d, ttl);
    states, actions := Then(d, states, actions, Tick(late));
    TakeoverExactlyWhenStale(states[3], 0);
    states, actions := ThenSucceed(d, states, actions, 2, "second");
    states, actions := Then(d, states, actions, Succeed(1, "first"));
    TwoSuccesses(states, actions, 5, 6);
  }

  // And if the deletion of a failed run's marker lands that late: it can remove a rival's
  // response, so that a further handler succeeds at the very moment the response landed.
  lemma TwoSuccessesIfDeleteLandsLate(d: Discipline, ttl: nat, late: Time) returns (states: seq<State>, actions: seq<Action>)
    requires ttl > 0 && d.success > 0 && STALE_AFTER_MS <= late < d.deletion
    ensures actions == [Look(1), Mark(1), Fail(1), Tick(late), Look(2), Mark(2), Succeed(2, "second"), LandResponse(2),
                        LandDelete(1), Look(3), Mark(3), Succeed(3, "third")]
    ensures IsRun(d, states, actions) && !OncePerWindow(states, actions) && states[7].clock == states[12].clock == late
  {
    states, actions := Opening(d, ttl);
    states, actions := Then(d, states, actions, Fail(1));
    states, actions := Then(d, states, actions, Tick(late));
    TakeoverExactlyWhenStale(states[4], 0);
    states, actions := ThenSucceed(d, states, actions, 2, "second");
    states, actions := AfterLateDelete(d, states, actions, ttl, late);
    TwoSuccesses(states, actions, 6, 11);
  }

  lemma AfterLateDelete(d: Discipline, states: seq<State>, actions: seq<Action>, ttl: nat, late: Time)
      returns (states': seq<State>, actions': seq<Action>)
    requires IsRun(d, states, actions) && d.success > 0 && ttl > 0 && late < d.deletion
    requires states[|actions|] == State(ttl, late, Some(Entry(Processing(late), late + MARKER_TTL_MS)),
                                        map[1 := Run(0, Errored), 2 := Run(late, Succeeded("second"))])
    ensures actions' == actions + [LandResponse(2), LandDelete(1), Look(3), Mark(3), Succeed(3, "third")]
    ensures IsRun(d, states', actions') && states <= states' && states'[|actions'|].clock == late
    ensures states'[|actions'| - 1].clock == late && states'[|actions'| - 1].ttl == ttl
  {
    states', actions' := Then(d, states, actions, LandResponse(2));
    assert states'[|actions'|].runs == map[1 := Run(0, Errored)];
    states', actions' := Then(d, states', actions', LandDelete(1));
    assert states'[|actions'|] == State(ttl, late, None, map[]);
    states', actions' := ThenSucceed(d, states', actions', 3, "third");
  }

  // If no handler ever succeeds, there is nothing to be said.
  lemma {:induction false} StartsAreInThePast(d: Discipline, states: seq<State>, actions: seq<Action>, i: nat)
    requires IsRun(d, states, actions) && i < |states|
    ensures forall r :: r in states[i].runs ==> states[i].runs[r].startedAt <= states[i].clock
  {
    if i > 0 {
      StartsAreInThePast(d, states, actions, i - 1);
      assert Enabled(states[i - 1], actions[i - 1]) && states[i] == Next(states[i - 1], actions[i - 1]);
    }
  }

  lemma SufficesMeansPrompt(d: Discipline, states: seq<State>, actions: seq<Action>)
    requires Suffices(d) && IsRun(d, states, actions)
    ensures IsRun(PROMPT, states, actions)
  {
    forall i | 0 <= i < |actions|
      ensures Keeps(PROMPT, states[i], actions[i])
    {
      assert Keeps(d, states[i], actions[i]);
    }
  }

  // At most one success per window, in every run of a deployment, exactly if looks and marks
  // do not interleave, no response is lost, and success, landing and deletion all come within
  // thirty seconds (or no handler ever succeeds).
  lemma SafeExactly(d: Discipline)
    ensures Safe(d) <==> d.success == 0 || Suffices(d)
  {
    if d.success == 0 || Suffices(d) {
      forall states, actions | IsRun(d, states, actions)
        ensures OncePerWindow(states, actions)
      {
        SafeRun(d, states, actions);
      }
    } else {
      var states, actions := UnsafeRun(d);
    }
  }

  lemma SafeRun(d: Discipline, states: seq<State>, actions: seq<Action>)
    requires IsRun(d, states, actions) && (d.success == 0 || Suffices(d))
    ensures OncePerWindow(states, actions)
  {
    forall i, j | 0 <= i < j < |actions| && actions[i].Succeed? && actions[j].Succeed?
      ensures Expired(states, actions, i, j)
    {
      StartsAreInThePast(d, states, actions, i);
      assert Keeps(d, states[i], actions[i]);
      SufficesMeansPrompt(d, states, actions);
      var m := OneSuccessPerWindow(states, actions, i, j);
    }
  }

  lemma UnsafeRun(d: Discipline) returns (states: seq<State>, actions: seq<Action>)
    requires d.success > 0 && !Suffices(d)
    ensures IsRun(d, states, actions) && !OncePerWindow(states, actions)
  {
    if !d.atomic {
      states, actions := TwoSuccessesIfLooksInterleave(d, 1);
    } else if !d.reliable {
      states, actions := TwoSuccessesIfResponseIsLost(d, 1);
    } else if d.success > STALE_AFTER_MS {
      states, actions := TwoSuccessesIfHandlerIsLate(d, 1, STALE_AFTER_MS);
    } else if d.landing > STALE_AFTER_MS {
      states, actions := TwoSuccessesIfResponseLandsLate(d, 1, STALE_AFTER_MS);
    } else {
      states, actions := TwoSuccessesIfDeleteLandsLate(d, 1, STALE_AFTER_MS);
    }
  }
}
