/** The watcher object (`DnsWatcher`): `start`, the `watch` loop, and the
    collaborators it changes — the `set_backends` sink, the
    `resolve_failed` counter and the clock it sleeps on — as fields. */
module DnsWatcher {
  import opened DnsTypes
  import opened Config
  import opened Resolving
  import opened Backends
  import opened WatchSpec

  class Watcher {
    /** `@name`, the service name. Kept for documentation only: the tag it
        gives the failure counter is not modelled. */
    const name: string
    const discovery: Discovery
    /** `IP_REGEX`: whether a host is an IPv4 or IPv6 literal. */
    const isIpLiteral: string -> bool

    /** `@check_interval` and `@nameserver`, absent until `start`. */
    var checkInterval: Option<real>
    var nameserver: Option<string>

    /** Every call of `set_backends`, in order, with the list it received. */
    var backendCalls: seq<seq<Backend>>
    /** The `synapse.watcher.dns.resolve_failed` counter. */
    var resolveFailures: nat
    /** Every sleep taken between cycles. */
    var sleeps: seq<real>

    /** A watcher is only built from options that pass validation. */
    constructor (name: string, discovery: Discovery, isIpLiteral: string -> bool)
      requires ValidateDiscoveryOpts(discovery).Accepted?
      ensures this.name == name && this.discovery == discovery && this.isIpLiteral == isIpLiteral
      ensures checkInterval == None && nameserver == None
      ensures backendCalls == [] && resolveFailures == 0 && sleeps == []
    {
      this.name := name;
      this.discovery := discovery;
      this.isIpLiteral := isIpLiteral;
      checkInterval := None;
      nameserver := None;
      backendCalls := [];
      resolveFailures := 0;
      sleeps := [];
    }

    function Settings(): Env
      reads this
      requires checkInterval.Some?
    {
      Env(discovery.servers, nameserver, isIpLiteral, checkInterval.value)
    }

    /** What the watcher has recorded, with the last accepted round that the
        loop keeps in a local variable. */
    function Snapshot(last: Resolution): Trace
      reads this
    {
      Trace(last, backendCalls, resolveFailures, sleeps)
    }

    /** Fills in the interval (default 30.0) and the nameserver, then runs
        the watch loop for the cycles given. */
    method Start(first: Tick, cycles: seq<Tick>) returns (exit: Exit)
      modifies this
      ensures checkInterval == Some(CheckInterval(discovery))
      ensures nameserver == discovery.nameserver
      ensures exit == WatchExit(Observe(Settings(), first))
      ensures var trace := WatchTrace(checkInterval.value, Observe(Settings(), first),
                                      ObserveAll(Settings(), cycles), old(Snapshot([])));
              backendCalls == trace.calls && resolveFailures == trace.failures && sleeps == trace.sleeps
    {
      checkInterval := Some(CheckInterval(discovery));
      nameserver := discovery.nameserver;
      exit := Watch(first, cycles);
    }

    /** The poll loop: publish the first round, then publish each round that
        differs from the last accepted one, sleeping out the interval. */
    method Watch(first: Tick, cycles: seq<Tick>) returns (exit: Exit)
      requires checkInterval.Some?
      modifies this`backendCalls, this`resolveFailures, this`sleeps
      ensures exit == WatchExit(Observe(Settings(), first))
      ensures var trace := WatchTrace(checkInterval.value, Observe(Settings(), first),
                                      ObserveAll(Settings(), cycles), old(Snapshot([])));
              backendCalls == trace.calls && resolveFailures == trace.failures && sleeps == trace.sleeps
    {
      ghost var env := Settings();
      ghost var observed := ObserveAll(env, cycles);
      ghost var start := Initial(Observe(env, first), Snapshot([]));
      var last := ResolveServers(first.dns);
      var raised := ConfigureBackends(last, first.sinkRaises);
      assert Snapshot(last) == start;
      if raised {
        return Crashed;
      }
      assert observed[..0] == [];
      var i := 0;
      while i < |cycles|
        invariant 0 <= i <= |cycles|
        invariant Snapshot(last) == Run(env.checkInterval, start, observed[..i])
      {
        RunStep(env.checkInterval, start, observed, i);
        last := CheckOnce(last, cycles[i]);
        i := i + 1;
      }
      assert observed[..i] == observed;
      assert env == Settings();
      exit := Exited;
    }

    /** One pass of the loop body: resolve, publish if the round changed,
        then sleep out the interval unless `set_backends` raised (the
        `rescue` skips the sleep). Returns the last accepted round. */
    method CheckOnce(last: Resolution, tick: Tick) returns (accepted: Resolution)
      requires checkInterval.Some?
      modifies this`backendCalls, this`resolveFailures, this`sleeps
      ensures Snapshot(accepted) == Cycle(checkInterval.value, old(Snapshot(last)), Observe(Settings(), tick))
    {
      var current := ResolveServers(tick.dns);
      var raised := false;
      accepted := last;
      if accepted != current {
        accepted := current;
        raised := ConfigureBackends(accepted, tick.sinkRaises);
      }
      if !raised {
        SleepUntilNextCheck(tick.elapsed);
      }
    }

    /** Sleeps out what is left of the interval, if anything. */
    method SleepUntilNextCheck(elapsed: real)
      requires checkInterval.Some?
      modifies this`sleeps
      ensures sleeps == old(sleeps) + SleepFor(checkInterval.value, elapsed)
    {
      var sleepTime := checkInterval.value - elapsed;
      if sleepTime > 0.0 {
        sleeps := sleeps + [sleepTime];
      }
    }

    /** One resolution round; a failed round counts one failure and gives
        `[]`. */
    method ResolveServers(dns: Resolver) returns (resolution: Resolution)
      modifies this`resolveFailures
      ensures var round := Round(discovery.servers, nameserver, isIpLiteral, dns);
              && resolution == ResolvedOrEmpty(round)
              && resolveFailures == old(resolveFailures) + (if round.None? then 1 else 0)
    {
      var round := Round(discovery.servers, nameserver, isIpLiteral, dns);
      match round
      case Some(servers) =>
        resolution := servers;
      case None =>
        resolveFailures := resolveFailures + 1;
        resolution := [];
    }

    /** Flattens the round and hands it to `set_backends`; `raised` tells
        whether that call raised. */
    method ConfigureBackends(servers: Resolution, sinkRaises: bool) returns (raised: bool)
      modifies this`backendCalls
      ensures backendCalls == old(backendCalls) + [Flatten(servers)]
      ensures raised == sinkRaises
    {
      backendCalls := backendCalls + [Flatten(servers)];
      raised := sinkRaises;
    }
  }
}
