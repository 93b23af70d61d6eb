/** The poll loop of `watch` as a state machine over a finite run of
    cycles: what each cycle publishes, counts and sleeps. */
module WatchSpec {
  import opened DnsTypes
  import opened Resolving
  import opened Backends

  /** What the outside world does during one cycle: how the resolver
      answers, the time since the cycle started as measured when the sleep
      is computed (`Time.now - start_time`, after any publish), and whether
      `set_backends` raises if it is called. */
  datatype Tick = Tick(dns: Resolver, elapsed: real, sinkRaises: bool)

  /** The watcher's settings once `start` has run. */
  datatype Env = Env(servers: seq<Server>, nameserver: Option<string>, isIpLiteral: string -> bool, checkInterval: real)

  /** What one cycle sees: the outcome of its round, the time since the
      cycle started when the sleep is computed, and whether `set_backends`
      raises if it is called. */
  datatype Observed = Observed(round: Option<Resolution>, elapsed: real, sinkRaises: bool)

  function Observe(env: Env, tick: Tick): Observed
  {
    Observed(Round(env.servers, env.nameserver, env.isIpLiteral, tick.dns), tick.elapsed, tick.sinkRaises)
  }

  function ObserveAll(env: Env, ticks: seq<Tick>): (observed: seq<Observed>)
    ensures |observed| == |ticks|
  {
    seq(|ticks|, i requires 0 <= i < |ticks| => Observe(env, ticks[i]))
  }

  /** The `i`-th cycle sees the round against its own resolver, its own
      elapsed time and its own publish outcome. */
  lemma ObservedInOrder(env: Env, ticks: seq<Tick>, i: nat)
    requires i < |ticks|
    ensures ObserveAll(env, ticks)[i].round == Round(env.servers, env.nameserver, env.isIpLiteral, ticks[i].dns)
    ensures ObserveAll(env, ticks)[i].elapsed == ticks[i].elapsed
    ensures ObserveAll(env, ticks)[i].sinkRaises == ticks[i].sinkRaises
  {
  }

  /** What `resolve_servers` returns during the cycle. */
  function Current(observed: Observed): Resolution
  {
    ResolvedOrEmpty(observed.round)
  }

  /** How much the cycle adds to the `resolve_failed` counter. */
  function FailuresOf(observed: Observed): nat
  {
    if observed.round.None? then 1 else 0
  }

  /** `sleep_until_next_check`: the sleep taken, if any, listed. */
  function SleepFor(interval: real, elapsed: real): seq<real>
  {
    var remaining := interval - elapsed;
    if remaining > 0.0 then [remaining] else []
  }

  /** The watcher sleeps only for a positive time, and the next cycle starts
      when the interval has passed since this one started, or at once when
      the cycle already took longer than the interval. */
  lemma Cadence(interval: real, elapsed: real)
    ensures |SleepFor(interval, elapsed)| <= 1
    ensures forall d :: d in SleepFor(interval, elapsed) ==> d > 0.0
    ensures var slept := if SleepFor(interval, elapsed) == [] then 0.0 else SleepFor(interval, elapsed)[0];
            elapsed + slept == if elapsed < interval then interval else elapsed
  {
  }

  /** What the loop has done so far: the last accepted round, every call
      of `set_backends`, the failures counted and the sleeps taken. */
  datatype Trace = Trace(last: Resolution, calls: seq<seq<Backend>>, failures: nat, sleeps: seq<real>)

  /** Before the loop: the first round is published whatever it is, after
      whatever `prior` had recorded. */
  function Initial(first: Observed, prior: Trace): Trace
  {
    var current := Current(first);
    Trace(current, prior.calls + [Flatten(current)], prior.failures + FailuresOf(first), prior.sleeps)
  }

  /** One pass of the `until` loop. A changed round replaces the last one and
      is published; if `set_backends` then raises, the rescue skips the
      sleep and the loop goes on. */
  function Cycle(interval: real, state: Trace, observed: Observed): Trace
  {
    var current := Current(observed);
    var failures := state.failures + FailuresOf(observed);
    var sleep := SleepFor(interval, observed.elapsed);
    if state.last == current then
      Trace(state.last, state.calls, failures, state.sleeps + sleep)
    else
      Trace(current, state.calls + [Flatten(current)], failures,
            if observed.sinkRaises then state.sleeps else state.sleeps + sleep)
  }

  /** The cycles run in order; the exit flag is found set after the last. */
  function Run(interval: real, state: Trace, cycles: seq<Observed>): Trace
    decreases |cycles|
  {
    if cycles == [] then state
    else Cycle(interval, Run(interval, state, cycles[..|cycles| - 1]), cycles[|cycles| - 1])
  }

  /** A run one cycle longer is that run followed by the cycle. */
  lemma RunStep(interval: real, state: Trace, cycles: seq<Observed>, i: nat)
    requires i < |cycles|
    ensures Run(interval, state, cycles[..i + 1]) == Cycle(interval, Run(interval, state, cycles[..i]), cycles[i])
  {
    assert cycles[..i + 1][..i] == cycles[..i];
  }

  /** How `watch` ends: the exit flag was seen, or the first publish (which
      is outside the `begin`/`rescue`) raised and ended the thread. */
  datatype Exit = Exited | Crashed

  function WatchExit(first: Observed): Exit
  {
    if first.sinkRaises then Crashed else Exited
  }

  function WatchTrace(interval: real, first: Observed, cycles: seq<Observed>, prior: Trace): Trace
  {
    if first.sinkRaises then Initial(first, prior) else Run(interval, Initial(first, prior), cycles)
  }

  /** One cycle publishes exactly when its round differs from the last
      accepted one; the last accepted round changes only then, and after
      the cycle it always equals the cycle's round. */
  lemma PublishIffChanged(interval: real, state: Trace, observed: Observed)
    ensures var next := Cycle(interval, state, observed);
            |next.calls| == |state.calls| + (if Current(observed) != state.last then 1 else 0)
    ensures var next := Cycle(interval, state, observed);
            next.calls[..|state.calls|] == state.calls
    ensures var next := Cycle(interval, state, observed);
            Current(observed) != state.last ==> next.calls[|state.calls|] == Flatten(Current(observed))
    ensures var next := Cycle(interval, state, observed);
            next.last != state.last ==> |next.calls| == |state.calls| + 1
    ensures Cycle(interval, state, observed).last == Current(observed)
  {
  }

  /** A failed round after a non-empty accepted one publishes an empty
      backend list and counts one failure. */
  lemma FailedRoundDrains(interval: real, state: Trace, observed: Observed)
    requires observed.round.None? && state.last != []
    ensures Cycle(interval, state, observed).calls == state.calls + [[]]
    ensures Cycle(interval, state, observed).failures == state.failures + 1
  {
  }

  /** A cycle whose `set_backends` call raised skips the sleep; every other
      cycle sleeps as `sleep_until_next_check` says. The loop goes on with
      the next cycle either way. */
  lemma SleepSkippedOnlyOnRaise(interval: real, state: Trace, observed: Observed)
    ensures Current(observed) != state.last && observed.sinkRaises ==>
              Cycle(interval, state, observed).sleeps == state.sleeps
    ensures !(Current(observed) != state.last && observed.sinkRaises) ==>
              Cycle(interval, state, observed).sleeps == state.sleeps + SleepFor(interval, observed.elapsed)
  {
  }

  /** A run only ever appends calls of `set_backends`. */
  lemma {:induction false} RunExtendsCalls(interval: real, state: Trace, cycles: seq<Observed>)
    ensures |Run(interval, state, cycles).calls| >= |state.calls|
    ensures Run(interval, state, cycles).calls[..|state.calls|] == state.calls
    decreases |cycles|
  {
    if cycles != [] {
      var before := Run(interval, state, cycles[..|cycles| - 1]);
      RunExtendsCalls(interval, state, cycles[..|cycles| - 1]);
      PublishIffChanged(interval, before, cycles[|cycles| - 1]);
      assert Run(interval, state, cycles).calls[..|before.calls|] == before.calls;
      assert before.calls[..|state.calls|] == state.calls;
    }
  }

  /** The first round is always published, right after what was recorded
      before, whatever happens afterwards. */
  lemma FirstRoundPublished(interval: real, first: Observed, cycles: seq<Observed>, prior: Trace)
    ensures |WatchTrace(interval, first, cycles, prior).calls| > |prior.calls|
    ensures WatchTrace(interval, first, cycles, prior).calls[|prior.calls|] == Flatten(Current(first))
  {
    var start := Initial(first, prior);
    RunExtendsCalls(interval, start, cycles);
    assert start.calls[|prior.calls|] == Flatten(Current(first));
  }

  /** The rounds `resolve_servers` returned, cycle by cycle. */
  function Rounds(observed: seq<Observed>): (rounds: seq<Resolution>)
    ensures |rounds| == |observed|
  {
    seq(|observed|, i requires 0 <= i < |observed| => Current(observed[i]))
  }

  /** A sequence of rounds with every round that equals the one just before
      it dropped. */
  function Compress(rounds: seq<Resolution>): seq<Resolution>
    decreases |rounds|
  {
    if |rounds| <= 1 then rounds
    else if rounds[|rounds| - 1] == rounds[|rounds| - 2] then Compress(rounds[..|rounds| - 1])
    else Compress(rounds[..|rounds| - 1]) + [rounds[|rounds| - 1]]
  }

  function Publications(rounds: seq<Resolution>): (lists: seq<seq<Backend>>)
    ensures |lists| == |rounds|
  {
    seq(|rounds|, i requires 0 <= i < |rounds| => Flatten(rounds[i]))
  }

  lemma RoundsAppend(observed: seq<Observed>, next: Observed)
    ensures Rounds(observed + [next]) == Rounds(observed) + [Current(next)]
  {
  }

  lemma PublicationsAppend(rounds: seq<Resolution>, round: Resolution)
    ensures Publications(rounds + [round]) == Publications(rounds) + [Flatten(round)]
  {
  }

  /** Over a whole run, `set_backends` receives the flattened rounds with
      consecutive repeats removed: the last accepted round is always the
      round of the previous cycle. */
  lemma {:induction false} CallsAreCompressedRounds(interval: real, first: Observed, cycles: seq<Observed>, prior: Trace)
    ensures Run(interval, Initial(first, prior), cycles).calls
         == prior.calls + Publications(Compress(Rounds([first] + cycles)))
    ensures Run(interval, Initial(first, prior), cycles).last == Current(([first] + cycles)[|cycles|])
    decreases |cycles|
  {
    if cycles == [] {
      assert Rounds([first]) == [Current(first)];
    } else {
      var prefix := cycles[..|cycles| - 1];
      var next := cycles[|cycles| - 1];
      CallsAreCompressedRounds(interval, first, prefix, prior);
      var before := Run(interval, Initial(first, prior), prefix);
      assert cycles == prefix + [next];
      assert [first] + cycles == ([first] + prefix) + [next];
      assert before.last == Current(([first] + prefix)[|prefix|]);
      var earlier := Rounds([first] + prefix);
      RoundsAppend([first] + prefix, next);
      var all := earlier + [Current(next)];
      assert all[..|all| - 1] == earlier;
      assert all[|all| - 2] == before.last;
      PublicationsAppend(Compress(earlier), Current(next));
      var published := Publications(Compress(earlier));
      assert prior.calls + (published + [Flatten(Current(next))])
          == (prior.calls + published) + [Flatten(Current(next))];
    }
  }

  /** The number of cycles whose round failed. */
  function FailedRounds(observed: seq<Observed>): nat
    decreases |observed|
  {
    if observed == [] then 0 else FailuresOf(observed[0]) + FailedRounds(observed[1..])
  }

  lemma {:induction false} FailedRoundsAppend(observed: seq<Observed>, next: Observed)
    ensures FailedRounds(observed + [next]) == FailedRounds(observed) + FailuresOf(next)
    decreases |observed|
  {
    if observed != [] {
      assert (observed + [next])[1..] == observed[1..] + [next];
      FailedRoundsAppend(observed[1..], next);
    }
  }

  /** The `resolve_failed` counter goes up by exactly one per failed round. */
  lemma {:induction false} FailuresCounted(interval: real, state: Trace, cycles: seq<Observed>)
    ensures Run(interval, state, cycles).failures == state.failures + FailedRounds(cycles)
    decreases |cycles|
  {
    if cycles != [] {
      var prefix, next := cycles[..|cycles| - 1], cycles[|cycles| - 1];
      FailuresCounted(interval, state, prefix);
      FailedRoundsAppend(prefix, next);
      assert prefix + [next] == cycles;
    }
  }

  /** A resolver that only reorders the answers of the one behind the last
      accepted round leads to no publish. */
  lemma ReorderedAnswersPublishNothing(env: Env, state: Trace, before: Tick, after: Tick)
    requires state.last == Current(Observe(env, before))
    requires forall i :: 0 <= i < |env.servers| && !env.isIpLiteral(env.servers[i].host) ==>
               SameUpToOrder(before.dns(env.nameserver, env.servers[i].host), after.dns(env.nameserver, env.servers[i].host))
    ensures Cycle(env.checkInterval, state, Observe(env, after)).calls == state.calls
  {
    ReorderedAnswersGiveEqualRounds(env.servers, env.nameserver, env.isIpLiteral, before.dns, after.dns);
  }
}
