// Any number of clients using one lock server: who can be inside a locked body, and when.
module LockRuns {
  import opened Prelude
  import opened TtlStore
  import opened DistributedLock

  type BodyId = nat

  // A running body of withLock: its token, and when its lock runs out (the acquire, or the
  // last extend that succeeded, plus the time to live).
  datatype Body = Body(resource: string, token: string, order: nat, expiresAt: Time)

  // `locks` holds live entries only; `issued` the tokens drawn so far.
  datatype State = State(clock: Time, locks: Locks, issued: set<string>, started: nat, bodies: map<BodyId, Body>)

  datatype Action =
    | Tick(elapsed: Time)
    | Enter(body: BodyId, resource: string, ttl: int, token: string, lost: bool)
    | Finish(body: BodyId, down: bool)
    | ExtendOwn(body: BodyId, ttl: int)
    | ForeignRelease(resource: string, token: string)
    | ForeignExtend(resource: string, token: string, ttl: int)

  // The token is known to no body but the one it was drawn for.
  predicate Foreign(s: State, token: string) {
    forall b :: b in s.bodies ==> s.bodies[b].token != token
  }

  // Tokens are fresh: none is drawn twice. An acquire whose reply is lost leaves a lock that
  // nobody knows to hold.
  predicate Enabled(s: State, a: Action) {
    match a
    case Tick(_) => true
    case Enter(b, _, _, token, _) => b !in s.bodies && token !in s.issued
    case Finish(b, _) => b in s.bodies
    case ExtendOwn(b, _) => b in s.bodies
    case ForeignRelease(_, token) => Foreign(s, token)
    case ForeignExtend(_, token, _) => Foreign(s, token)
  }

  function Next(s: State, a: Action): State
    requires Enabled(s, a)
  {
    match a
    case Tick(elapsed) =>
      s.(clock := s.clock + elapsed, locks := LiveEntries(s.locks, s.clock + elapsed))
    case Enter(b, resource, ttl, token, lost) =>
      var key := LockKey(resource);
      var tried := s.(locks := Acquired(s.locks, s.clock, key, token, ttl), issued := s.issued + {token});
      if ttl <= 0 || key in s.locks || lost then tried
      else tried.(started := s.started + 1, bodies := s.bodies[b := Body(resource, token, s.started, s.clock + ttl)])
    case Finish(b, down) =>
      var body := s.bodies[b];
      s.(locks := if down then s.locks else Released(s.locks, LockKey(body.resource), body.token),
         bodies := s.bodies - {b})
    case ExtendOwn(b, ttl) =>
      var body := s.bodies[b];
      var key := LockKey(body.resource);
      s.(locks := Extended(s.locks, s.clock, key, body.token, ttl),
         bodies := if HeldBy(s.locks, key, body.token)
                   then s.bodies[b := body.(expiresAt := After(s.clock, Max(0, ttl)))] else s.bodies)
    case ForeignRelease(resource, token) => s.(locks := Released(s.locks, LockKey(resource), token))
    case ForeignExtend(resource, token, ttl) => s.(locks := Extended(s.locks, s.clock, LockKey(resource), token, ttl))
  }

  ghost predicate IsRun(states: seq<State>, actions: seq<Action>) {
    && |states| == |actions| + 1
    && states[0].locks == map[] && states[0].issued == {} && states[0].bodies == map[]
    && forall i :: 0 <= i < |actions| ==>
         Enabled(states[i], actions[i]) && states[i + 1] == Next(states[i], actions[i])
  }

  // ----- The invariant -----

  // The body's lock has not run out, so the server still has it, with that deadline; or it has.
  ghost predicate BodyOk(s: State, body: Body) {
    var key := LockKey(body.resource);
    && body.token in s.issued && body.order < s.started
    && (s.clock < body.expiresAt ==> key in s.locks && s.locks[key] == Entry(body.token, body.expiresAt))
    && (key in s.locks && s.locks[key].value == body.token ==> s.locks[key].expiresAt == body.expiresAt)
  }

  // Both bodies are in the same resource's lock, and `b` got it first.
  predicate Before(b: Body, c: Body) {
    b.resource == c.resource && b.order < c.order
  }

  ghost predicate Inv(s: State) {
    && (forall k :: k in s.locks ==> s.clock < s.locks[k].expiresAt && s.locks[k].value in s.issued)
    && (forall b :: b in s.bodies ==> BodyOk(s, s.bodies[b]))
    && (forall b, c :: b in s.bodies && c in s.bodies && b != c ==>
          s.bodies[b].token != s.bodies[c].token && s.bodies[b].order != s.bodies[c].order)
    && (forall b, c :: b in s.bodies && c in s.bodies && Before(s.bodies[b], s.bodies[c]) ==> s.bodies[b].expiresAt <= s.clock)
  }

  lemma InvStep(s: State, a: Action)
    requires Inv(s) && Enabled(s, a)
    ensures Inv(Next(s, a))
  {
    var s' := Next(s, a);
    forall b | b in s'.bodies
      ensures BodyOk(s', s'.bodies[b])
    {
      BodyStep(s, a, b);
    }
    forall b, c | b in s'.bodies && c in s'.bodies && b != c
      ensures s'.bodies[b].token != s'.bodies[c].token && s'.bodies[b].order != s'.bodies[c].order
      ensures Before(s'.bodies[b], s'.bodies[c]) ==> s'.bodies[b].expiresAt <= s'.clock
    {
      PairStep(s, a, b, c);
    }
  }

  lemma PairStep(s: State, a: Action, b: BodyId, c: BodyId)
    requires Inv(s) && Enabled(s, a) && b in Next(s, a).bodies && c in Next(s, a).bodies && b != c
    ensures var s' := Next(s, a);
            && s'.bodies[b].token != s'.bodies[c].token && s'.bodies[b].order != s'.bodies[c].order
            && (Before(s'.bodies[b], s'.bodies[c]) ==> s'.bodies[b].expiresAt <= s'.clock)
  {
    if b in s.bodies {
      assert BodyOk(s, s.bodies[b]);
    }
    if c in s.bodies {
      assert BodyOk(s, s.bodies[c]);
    }
  }

  lemma BodyStep(s: State, a: Action, b: BodyId)
    requires Inv(s) && Enabled(s, a) && b in Next(s, a).bodies
    ensures BodyOk(Next(s, a), Next(s, a).bodies[b])
  {
    if b in s.bodies {
      assert BodyOk(s, s.bodies[b]);
    }
  }

  lemma {:induction false} InvAlways(states: seq<State>, actions: seq<Action>, i: nat)
    requires IsRun(states, actions) && i < |states|
    ensures Inv(states[i])
  {
    if i > 0 {
      InvAlways(states, actions, i - 1);
      InvStep(states[i - 1], actions[i - 1]);
    }
  }

  // ----- Mutual exclusion -----

  // Two bodies on one resource overlap only if the one that got the lock first is still
  // running although its lock has run out.
  lemma OverlapOnlyAfterExpiry(states: seq<State>, actions: seq<Action>, i: nat, b: BodyId, c: BodyId)
    requires IsRun(states, actions) && i < |states|
    requires b in states[i].bodies && c in states[i].bodies && b != c
    requires states[i].bodies[b].resource == states[i].bodies[c].resource
    ensures states[i].bodies[b].order < states[i].bodies[c].order ==> states[i].bodies[b].expiresAt <= states[i].clock
    ensures states[i].bodies[c].order < states[i].bodies[b].order ==> states[i].bodies[c].expiresAt <= states[i].clock
    ensures states[i].bodies[b].order != states[i].bodies[c].order
  {
    InvAlways(states, actions, i);
  }

  // A release or extend by anyone else, or by a body whose lock has run out, changes nothing
  // for the resource's holder.
  lemma OthersCannotTouchAHeldLock(states: seq<State>, actions: seq<Action>, i: nat, b: BodyId)
    requires IsRun(states, actions) && i < |actions|
    requires b in states[i].bodies && states[i + 1].clock < states[i].bodies[b].expiresAt
    requires match actions[i]
             case Finish(c, _) => c != b
             case ExtendOwn(c, _) => c != b
             case _ => true
    ensures var key := LockKey(states[i].bodies[b].resource);
            && b in states[i + 1].bodies && states[i + 1].bodies[b] == states[i].bodies[b]
            && key in states[i + 1].locks && states[i + 1].locks[key] == Entry(states[i].bodies[b].token, states[i].bodies[b].expiresAt)
  {
    InvAlways(states, actions, i);
    InvAlways(states, actions, i + 1);
    assert states[i + 1] == Next(states[i], actions[i]);
    assert BodyOk(states[i + 1], states[i + 1].bodies[b]);
  }

  // ----- Availability -----

  // The resource that a step is about, if any.
  function ResourceOf(s: State, a: Action): Option<string> {
    match a
    case Tick(_) => None
    case Enter(_, resource, _, _, _) => Some(resource)
    case Finish(b, _) => if b in s.bodies then Some(s.bodies[b].resource) else None
    case ExtendOwn(b, _) => if b in s.bodies then Some(s.bodies[b].resource) else None
    case ForeignRelease(resource, _) => Some(resource)
    case ForeignExtend(resource, _, _) => Some(resource)
  }

  // A step about another resource leaves a resource's lock alone.
  lemma OtherResourcesAreLeftAlone(s: State, a: Action, resource: string)
    requires Inv(s) && Enabled(s, a) && !a.Tick? && ResourceOf(s, a) != Some(resource)
    ensures LockOf(Next(s, a).locks, resource) == LockOf(s.locks, resource)
  {
    LockKeysDiffer();
  }

  // The lock of one resource, told from the steps about that resource alone: who got it last
  // and until when, if it has not been given back since.
  ghost function Remembered(states: seq<State>, actions: seq<Action>, resource: string, i: nat): Option<Entry<string>>
    requires IsRun(states, actions) && i < |states|
  {
    if i == 0 then None else
      var s, a := states[i - 1], actions[i - 1];
      assert Enabled(s, a);
      LockAfter(s, a, resource, Remembered(states, actions, resource, i - 1))
  }

  // What a step makes of the lock of a resource.
  function LockAfter(s: State, a: Action, resource: string, lock: Option<Entry<string>>): Option<Entry<string>>
    requires Enabled(s, a)
  {
    if a.Tick? then (if lock.Some? && s.clock + a.elapsed < lock.value.expiresAt then lock else None)
    else if ResourceOf(s, a) != Some(resource) then lock
    else
      match a
      case Enter(_, _, ttl, token, _) => if lock.None? && ttl > 0 then Some(Entry(token, s.clock + ttl)) else lock
      case Finish(b, down) => if !down && lock.Some? && lock.value.value == s.bodies[b].token then None else lock
      case ForeignRelease(_, token) => if lock.Some? && lock.value.value == token then None else lock
      case ExtendOwn(b, ttl) => Moved(lock, s.bodies[b].token, s.clock, ttl)
      case ForeignExtend(_, token, ttl) => Moved(lock, token, s.clock, ttl)
      case Tick(_) => lock
  }

  lemma LockStep(s: State, a: Action, resource: string)
    requires Inv(s) && Enabled(s, a)
    ensures LockOf(Next(s, a).locks, resource) == LockAfter(s, a, resource, LockOf(s.locks, resource))
  {
    if !a.Tick? && ResourceOf(s, a) != Some(resource) {
      OtherResourcesAreLeftAlone(s, a, resource);
    }
  }

  // An extend by the holder moves the deadline, or gives the lock back if it is no time.
  function Moved(lock: Option<Entry<string>>, token: string, now: Time, ttl: int): Option<Entry<string>> {
    if lock.None? || lock.value.value != token then lock
    else if ttl <= 0 then None else Some(Entry(token, now + ttl))
  }

  // The server's locks are, resource by resource, what is remembered.
  lemma {:induction false} LocksAreRemembered(states: seq<State>, actions: seq<Action>, resource: string, i: nat)
    requires IsRun(states, actions) && i < |states|
    ensures LockOf(states[i].locks, resource) == Remembered(states, actions, resource, i)
  {
    if i > 0 {
      LocksAreRemembered(states, actions, resource, i - 1);
      InvAlways(states, actions, i - 1);
      LockStep(states[i - 1], actions[i - 1], resource);
    }
  }

  // An acquire for some time whose reply arrives gets its body exactly if no earlier step about that very
  // resource has left a lock on it that is still live.
  lemma GrantedExactlyWhenFree(states: seq<State>, actions: seq<Action>, i: nat)
    requires IsRun(states, actions) && i < |actions| && actions[i].Enter? && !actions[i].lost
    ensures actions[i].body in states[i + 1].bodies <==> actions[i].ttl > 0 && Remembered(states, actions, actions[i].resource, i).None?
  {
    LocksAreRemembered(states, actions, actions[i].resource, i);
    assert Enabled(states[i], actions[i]) && states[i + 1] == Next(states[i], actions[i]);
  }
}
