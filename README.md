# DNS service watcher — a verified model

Synapse's DNS watcher (`DnsWatcher` in
`lib/synapse/service_watcher/dns/dns.rb`) keeps a service's load-balancer
backends in step with the DNS answers for a fixed, configured list of
servers. This project models the watcher in Dafny:

- validating its discovery options and filling in the defaults in `start`;
- one resolution round (`resolve_servers`): each configured server, in
  configuration order, paired with its sorted addresses. An IP literal is
  used as is, any other host is looked up, and a failed lookup anywhere
  turns the round into `[]` and counts one `resolve_failed`;
- flattening a round into backend records (`configure_backends`) and handing
  them to `set_backends`;
- the `watch` poll loop. The first round is always published. A later round
  is published only when it differs from the last accepted one. An exception
  from `set_backends` inside the loop is rescued and skips that cycle's
  sleep. The sleep is whatever is left of the check interval.

Modules and files:

| file | module | what it holds |
|---|---|---|
| `types.dfy` | `DnsTypes` | servers, backends, rounds, resolver answers, discovery options |
| `config.dfy` | `Config` | `validate_discovery_opts` and the `check_interval` default |
| `addresses.dfy` | `AddressOrder` | Ruby's string order and `sort`, modelled as insertion sort and proved to be the only sorted permutation |
| `resolution.dfy` | `Resolving` | `resolve_servers` as a function of an abstract resolver |
| `backends.dfy` | `Backends` | the `flat_map` of `configure_backends` |
| `watch_spec.dfy` | `WatchSpec` | the loop as a state machine over a finite run of cycles, and what a whole run publishes |
| `dns_watcher.dfy` | `DnsWatcher` | the `Watcher` class: `start`, `watch` with its loop, and the methods it calls, each proved against `WatchSpec` |
| `scenario.dfy` | `Scenario` | a worked run of three checks |

Abstractions:

- **Resolver.** The DNS resolver is a function `(nameserver, host) -> Found(addresses) | Failed`. A fresh one is supplied for every round, so answers can change over time.
- **One answer per host within a round.** The code makes a separate `getaddresses` call per server. The model gives two servers with the same host the same answer within one round.
- **IP literals.** Recognition of IPv4/IPv6 literals (`IP_REGEX`) is an uninterpreted predicate that the watcher is built with.
- **`set_backends`.** The sink is the field `backendCalls`, a history of every list it received.
- **Failure counter.** The `resolve_failed` statsd counter is the field `resolveFailures`.
- **Sleeps.** The sleeps taken are the field `sleeps`.
- **What the outside world does in a cycle.** Each cycle is a `Tick`:
  - the resolver for that round;
  - the time since the cycle started, measured when the sleep is computed (`Time.now - start_time`, so after any publish), as a `real`;
  - whether `set_backends` raises when called.
- **Exit flag.** The loop runs over a finite sequence of ticks. The exit flag is taken to be set after the last one.

## Model

| member | source | states |
|---|---|---|
| Config.ValidateDiscoveryOpts | lib/synapse/service_watcher/dns/dns.rb:26-31 | options are accepted iff the method is "dns" and the server list is non-empty; a wrong method is reported first (with the method in the message, nil shown as empty), then an empty list, each as its own ArgumentError |
| Config.CheckInterval | lib/synapse/service_watcher/dns/dns.rb:9 | the check interval is the configured one when present and 30.0 when absent |
| AddressOrder.LeTotal | lib/synapse/service_watcher/dns/dns.rb:72 | any two address strings are comparable under the byte-wise order `sort` uses |
| AddressOrder.LeAntisymmetric | lib/synapse/service_watcher/dns/dns.rb:72 | two strings each at most the other are equal |
| AddressOrder.LeTransitive | lib/synapse/service_watcher/dns/dns.rb:72 | the string order is transitive |
| AddressOrder.Insert | lib/synapse/service_watcher/dns/dns.rb:72 | inserting into a sorted list gives a sorted list holding the old elements plus the new one |
| AddressOrder.Sort | lib/synapse/service_watcher/dns/dns.rb:72 | `addresses.sort` is sorted and a permutation of its input |
| AddressOrder.SortedUnique | lib/synapse/service_watcher/dns/dns.rb:72 | two sorted lists with the same elements are equal, so the result of `sort` does not depend on the algorithm |
| AddressOrder.SortIgnoresOrder | lib/synapse/service_watcher/dns/dns.rb:72 | sorting two permutations of one list gives the same list |
| Resolving.ResolveServer | lib/synapse/service_watcher/dns/dns.rb:67-72 | an IP-literal host gives exactly `[host]`; any other host fails iff its lookup fails, and otherwise gives the resolver's addresses, sorted and as a permutation |
| Resolving.RoundShape | lib/synapse/service_watcher/dns/dns.rb:66-80 | a round fails iff the resolver fails for some host that is not an IP literal; a successful round has one entry per configured server, the i-th holding the i-th server (configuration order, not sorted) with `[host]` for a literal and the sorted resolver answer otherwise; a failed round yields `[]` |
| Resolving.ReorderedAnswersGiveEqualRounds | lib/synapse/service_watcher/dns/dns.rb:70-72 | resolvers whose answers for the non-literal hosts differ only in order (and fail for the same hosts) give equal rounds |
| Resolving.Consulted | lib/synapse/service_watcher/dns/dns.rb:66-71 | the hosts handed to the resolver in one round, in order: at most one lookup per server |
| Resolving.ConsultedIsPrefix | lib/synapse/service_watcher/dns/dns.rb:66-71 | the hosts asked are a prefix of the non-literal hosts in configuration order |
| Resolving.ConsultedLastFailed | lib/synapse/service_watcher/dns/dns.rb:66-71 | some lookup of the round fails exactly when the last host asked failed |
| Resolving.ConsultedStopsAtFailure | lib/synapse/service_watcher/dns/dns.rb:66-71 | the `map` stops at the first failing lookup: every host asked before the last one resolved, and the round fails exactly when the last host asked failed |
| Resolving.LiteralsNeverConsulted | lib/synapse/service_watcher/dns/dns.rb:67-70 | the resolver is never asked about an IP literal; in a successful round it is asked about exactly the other hosts, in configuration order |
| Backends.ServerBackends | lib/synapse/service_watcher/dns/dns.rb:90-96 | one record per address of the server, in address order, each with that address as host and the server's port, name and labels |
| Backends.Flatten | lib/synapse/service_watcher/dns/dns.rb:89-98 | the flattened list has exactly as many records as the round has addresses in total |
| Backends.AddressCountPrefix | lib/synapse/service_watcher/dns/dns.rb:89-98 | the records of server i start after the addresses of the servers before it |
| Backends.FlattenAt | lib/synapse/service_watcher/dns/dns.rb:89-98 | address j of server i becomes the record at position (addresses before server i) + j, with host = that address and the server's port, name and labels: ordered by server, then address |
| Backends.FlattenFrom | lib/synapse/service_watcher/dns/dns.rb:89-98 | every record comes from some address of some server of the round and copies that server's fields |
| WatchSpec.ObserveAll | lib/synapse/service_watcher/dns/dns.rb:36-39 | one observation per cycle |
| WatchSpec.ObservedInOrder | lib/synapse/service_watcher/dns/dns.rb:36-39 | the i-th observation holds the round resolved against the i-th cycle's resolver, that cycle's elapsed time and whether its publish raises |
| WatchSpec.Cadence | lib/synapse/service_watcher/dns/dns.rb:55-60 | at most one sleep per check, only for a positive time, and the next check starts once the interval has passed since this one started, or at once if the cycle already took longer |
| WatchSpec.RunStep | lib/synapse/service_watcher/dns/dns.rb:36-50 | one more loop iteration is the run so far followed by one cycle |
| WatchSpec.PublishIffChanged | lib/synapse/service_watcher/dns/dns.rb:39-43 | a cycle calls `set_backends` iff its round differs from the last accepted one, with the flattened round, and keeps the earlier calls; the last accepted round only changes on a publish and afterwards equals the cycle's round |
| WatchSpec.FailedRoundDrains | lib/synapse/service_watcher/dns/dns.rb:39-43 | a failed round after a non-empty accepted one publishes an empty backend list and counts one failure |
| WatchSpec.SleepSkippedOnlyOnRaise | lib/synapse/service_watcher/dns/dns.rb:42-49 | a cycle that published and whose `set_backends` raised takes no sleep (the rescue jumps past it); every other cycle sleeps exactly as `sleep_until_next_check` says |
| WatchSpec.RunExtendsCalls | lib/synapse/service_watcher/dns/dns.rb:36-50 | the loop only ever appends calls of `set_backends` |
| WatchSpec.FirstRoundPublished | lib/synapse/service_watcher/dns/dns.rb:34-35 | the first round is always published, right after what was recorded before |
| WatchSpec.RoundsAppend | lib/synapse/service_watcher/dns/dns.rb:39 | the rounds of one more cycle are the earlier rounds plus that cycle's |
| WatchSpec.PublicationsAppend | lib/synapse/service_watcher/dns/dns.rb:42 | the lists published for one more round are the earlier ones plus its flattening |
| WatchSpec.CallsAreCompressedRounds | lib/synapse/service_watcher/dns/dns.rb:34-50 | over a whole run, `set_backends` receives exactly the flattened rounds with consecutive repeats removed, and the last accepted round is the last cycle's |
| WatchSpec.FailedRoundsAppend | lib/synapse/service_watcher/dns/dns.rb:77-78 | the failed rounds of one more cycle are the earlier ones plus that cycle's |
| WatchSpec.FailuresCounted | lib/synapse/service_watcher/dns/dns.rb:77-80 | the `resolve_failed` counter goes up by exactly one per failed round over a run |
| WatchSpec.ReorderedAnswersPublishNothing | lib/synapse/service_watcher/dns/dns.rb:40 | if the resolver only reorders its answers for the non-literal hosts behind the last accepted round, the cycle publishes nothing |
| DnsWatcher.Watcher.constructor | lib/synapse/service_watcher/dns/dns.rb:26-31 | a watcher is built only from accepted options and starts with no calls, failures or sleeps |
| DnsWatcher.Watcher.Start | lib/synapse/service_watcher/dns/dns.rb:8-15 | sets the interval (default 30.0) and the nameserver, then runs the watch loop: its exit and its calls, failures and sleeps are those of the loop specification |
| DnsWatcher.Watcher.Watch | lib/synapse/service_watcher/dns/dns.rb:33-53 | the `set_backends` calls, failure count and sleeps are those of the loop specification for the first round and the cycles; it ends by the exit flag, or crashes if the first publish raises |
| DnsWatcher.Watcher.CheckOnce | lib/synapse/service_watcher/dns/dns.rb:37-49 | one loop iteration changes the watcher's record and the last accepted round exactly as one cycle of the specification does |
| DnsWatcher.Watcher.SleepUntilNextCheck | lib/synapse/service_watcher/dns/dns.rb:55-60 | sleeps `interval - elapsed` when that is positive, and not at all otherwise |
| DnsWatcher.Watcher.ResolveServers | lib/synapse/service_watcher/dns/dns.rb:64-81 | returns the round, or `[]` and one more failure counted when a lookup failed |
| DnsWatcher.Watcher.ConfigureBackends | lib/synapse/service_watcher/dns/dns.rb:88-101 | calls `set_backends` once with the flattened round, and reports whether it raised |
| Scenario.ThreeRounds | lib/synapse/service_watcher/dns/dns.rb:34-43 | with one server answering one address, then two, then the same two reversed, `set_backends` is called twice: the third round equals the second |

## Left out

- Threads: `Thread.new` in `start` is not modelled. `start` runs the loop directly and returns how it ended.
- The exit flag: `@should_exit` is set by another thread, so it is modelled as the length of the run of cycles.
- `ping?`: not modelled, because it does a live lookup of a fixed external host and asks whether the thread is alive.
- `resolver`, `Resolv::DNS.open` and `getaddresses`: modelled as an abstract resolver function. The nameserver setting is passed to it; how a nameserver is chosen is foreign network I/O.
- `IP_REGEX`: modelled as an uninterpreted predicate, because the `Resolv` regexes are library code that is not part of this model.
- `Time.now`, `sleep` and floating point: each cycle's elapsed time is an input `real` and a sleep is recorded, not taken. Float rounding is not modelled.
- `statsd_increment`: modelled as a counter. The service-name tag is not modelled.
- `log.warn` and `log.info`: not modelled, because they have no effect on the watcher's state.
- `set_backends`: modelled as a history of the lists it received plus a per-cycle flag telling whether it raises. Its implementation in the base watcher is not part of this model, and neither is the `config_for_generator` argument, which is always `{}` here.
- `discovery_servers`: modelled as the `servers` field of the options. A missing `servers` key (a `NoMethodError` on `nil`) is not modelled; the list is always present.
- Option validation: when it runs is decided by the base watcher, which is not part of this model. The constructor requires options that pass it.
- Exceptions inside a round: other than a failed lookup, none are modelled. Any exception in `resolve_servers` is rescued there the same way, and a failed lookup stands for all of them.
- `Resolving.Round`: has no contract of its own. The lemma `Resolving.RoundShape` states when it fails and what each entry holds.

Behaviour worth noting:

- A failed round after a non-empty one is a change, so the code publishes an empty backend list (`WatchSpec.FailedRoundDrains`).
- The last accepted round is replaced before `set_backends` is called. So a raising `set_backends` still counts as accepted, and the same round is not published again.
- The publish comes before the sleep. A raising `set_backends` therefore skips that cycle's sleep.
- The first publish is outside the `begin`/`rescue`. If it raises, `watch` ends (`Crashed`).
- `check_interval` falls back to 30.0 only when it is absent (Ruby's `||`). A configured `0` is kept.
