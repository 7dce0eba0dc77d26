// The per-address rate limiter: a window counter, two limits, and a block record.
module IpRateLimit {
  import opened Prelude
  import opened TtlStore

  datatype Limits = Limits(soft: int, hard: int, windowMs: nat, blockMs: nat)

  // A configured zero counts as not configured.
  function OrDefault(configured: Option<int>, fallback: int): int {
    if configured.Some? && configured.value != 0 then configured.value else fallback
  }

  // The counter's life: EXPIRE takes whole seconds, rounded up.
  function WindowLength(windowMs: nat): nat {
    (windowMs + 999) / 1000 * 1000
  }

  // floor(limit * scale), the scale being 1 or 0.75.
  function Scaled(limit: int, authenticated: bool): int {
    if authenticated then limit else 3 * limit / 4
  }

  datatype Verdict = Admit | TooMany | Block

  function Judge(limits: Limits, authenticated: bool, count: nat): Verdict {
    if count > Scaled(limits.hard, authenticated) then Block
    else if count > Scaled(limits.soft, authenticated) then TooMany
    else Admit
  }

  // The most that one window admits.
  function Cap(limits: Limits, authenticated: bool): nat {
    Max(0, Min(Scaled(limits.soft, authenticated), Scaled(limits.hard, authenticated)))
  }

  lemma AdmitsUpToTheCap(limits: Limits, authenticated: bool, count: nat)
    requires count >= 1
    ensures Judge(limits, authenticated, count) == Admit <==> count <= Cap(limits, authenticated)
    ensures 4 * Cap(limits, false) <= 3 * Cap(limits, true)
  {
  }

  // The three answers to a count, in whole numbers: three quarters of a limit are exceeded
  // when four times the count exceeds three times the limit.
  lemma AnswersExactly(limits: Limits, count: nat)
    ensures Judge(limits, true, count) == Block <==> count > limits.hard
    ensures Judge(limits, true, count) == Admit <==> count <= limits.hard && count <= limits.soft
    ensures Judge(limits, false, count) == Block <==> 4 * count > 3 * limits.hard
    ensures Judge(limits, false, count) == Admit <==> 4 * count <= 3 * limits.hard && 4 * count <= 3 * limits.soft
  {
  }

  // A window lasts for the configured time, rounded up to whole seconds.
  lemma WindowIsRoundedUp(windowMs: nat)
    ensures windowMs <= WindowLength(windowMs) < windowMs + 1000 && WindowLength(windowMs) % 1000 == 0
  {
  }

  datatype BlockRecord = BlockRecord(blockedUntil: Time)

  predicate Blocks(record: Option<BlockRecord>, now: Time) {
    record.Some? && record.value.blockedUntil > now
  }

  // ----- The guard -----

  function Incremented(counters: map<string, Entry<nat>>, now: Time, key: string, ttl: nat): map<string, Entry<nat>> {
    if key in counters then counters[key := counters[key].(value := counters[key].value + 1)]
    else if ttl > 0 then counters[key := Entry(1, now + ttl)]
    else counters
  }

  class IpRateLimitGuard {
    const limits: Limits
    const counters: Store<nat>
    const blocks: Store<BlockRecord>

    constructor (soft: Option<int>, hard: Option<int>, windowSeconds: Option<int>, blockSeconds: Option<int>,
                 counters: Store<nat>, blocks: Store<BlockRecord>)
      requires OrDefault(windowSeconds, 60) >= 0 && OrDefault(blockSeconds, 900) >= 0
      ensures limits == Limits(OrDefault(soft, 50), OrDefault(hard, 100), OrDefault(windowSeconds, 60) * 1000,
                               OrDefault(blockSeconds, 900) * 1000)
      ensures (soft == None || soft == Some(0) ==> limits.soft == 50) && (hard == None || hard == Some(0) ==> limits.hard == 100)
      ensures soft.Some? && soft.value != 0 ==> limits.soft == soft.value
      ensures hard.Some? && hard.value != 0 ==> limits.hard == hard.value
      ensures windowSeconds == None || windowSeconds == Some(0) ==> limits.windowMs == 60000
      ensures windowSeconds.Some? && windowSeconds.value != 0 ==> limits.windowMs == 1000 * windowSeconds.value
      ensures blockSeconds == None || blockSeconds == Some(0) ==> limits.blockMs == 900000
      ensures blockSeconds.Some? && blockSeconds.value != 0 ==> limits.blockMs == 1000 * blockSeconds.value
      ensures this.counters == counters && this.blocks == blocks
    {
      limits := Limits(OrDefault(soft, 50), OrDefault(hard, 100), OrDefault(windowSeconds, 60) * 1000,
                       OrDefault(blockSeconds, 900) * 1000);
      this.counters, this.blocks := counters, blocks;
    }

    // INCR, and EXPIRE when the counter is new, taken as one step.
    method Increment(key: string) returns (count: nat)
      modifies counters`entries
      ensures count == 1 + if key in old(counters.Live()) then old(counters.Live())[key].value else 0
      ensures counters.Live() == Incremented(old(counters.Live()), counters.now, key, WindowLength(limits.windowMs))
      ensures forall other :: other != key ==>
                (other in counters.Live() <==> other in old(counters.Live()))
                && (other in counters.Live() ==> counters.Live()[other] == old(counters.Live())[other])
      ensures key in old(counters.Live()) ==>
                key in counters.Live() && counters.Live()[key] == Entry(count, old(counters.Live())[key].expiresAt)
      ensures key !in old(counters.Live()) && limits.windowMs > 0 ==>
                key in counters.Live() && counters.Live()[key] == Entry(1, counters.now + WindowLength(limits.windowMs))
    {
      var current := counters.Get(key);
      match current
      case None =>
        count := 1;
        counters.Set(key, 1, WindowLength(limits.windowMs));
      case Some(n) =>
        count := n + 1;
        counters.entries := counters.entries[key := counters.entries[key].(value := count)];
    }

    // One request on its own; LimitRuns interleaves the reads and writes of many.
    method CanActivate(key: string, authenticated: bool) returns (admitted: bool)
      modifies counters`entries, blocks`entries
      ensures var record := if key in old(blocks.Live()) then Some(old(blocks.Live())[key].value) else None;
              if Blocks(record, blocks.now) then
                !admitted && counters.Live() == old(counters.Live()) && blocks.Live() == old(blocks.Live())
              else
                var count := 1 + if key in old(counters.Live()) then old(counters.Live())[key].value else 0;
                var verdict := Judge(limits, authenticated, count);
                && counters.Live() == Incremented(old(counters.Live()), counters.now, key, WindowLength(limits.windowMs))
                && (admitted <==> verdict == Admit)
                && (verdict != Block ==> blocks.Live() == old(blocks.Live()))
                && (verdict == Block && limits.blockMs > 0 ==>
                      blocks.Live() == old(blocks.Live())[key :=
                        Entry(BlockRecord(blocks.now + limits.blockMs), blocks.now + limits.blockMs)])
      ensures var blocked := key in old(blocks.Live()) && blocks.now < old(blocks.Live())[key].value.blockedUntil;
              var count := 1 + if key in old(counters.Live()) then old(counters.Live())[key].value else 0;
              && (admitted <==>
                    !blocked && if authenticated then count <= limits.hard && count <= limits.soft
                                else 4 * count <= 3 * limits.hard && 4 * count <= 3 * limits.soft)
              && (limits.blockMs > 0 ==>
                    blocks.Live() ==
                      if !blocked && (if authenticated then count > limits.hard else 4 * count > 3 * limits.hard) then
                        old(blocks.Live())[key := Entry(BlockRecord(blocks.now + limits.blockMs), blocks.now + limits.blockMs)]
                      else old(blocks.Live()))
    {
      var record := blocks.Get(key);
      var now := blocks.now;
      if Blocks(record, now) {
        return false;
      }
      var count := Increment(key);
      AnswersExactly(limits, count);
      match Judge(limits, authenticated, count)
      case Block =>
        blocks.Set(key, BlockRecord(now + limits.blockMs), limits.blockMs);
        admitted := false;
      case TooMany => admitted := false;
      case Admit => admitted := true;
    }
  }
}
