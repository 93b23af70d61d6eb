/** One resolution round (`resolve_servers`): each configured server,
    in configuration order, paired with its sorted address list. */
module Resolving {
  import opened DnsTypes
  import opened AddressOrder

  /** The addresses of one server in a round: the host itself when it is an
      IP literal (no lookup), otherwise the resolver's answer, sorted. */
  function ResolveServer(server: Server, nameserver: Option<string>, isIpLiteral: string -> bool, dns: Resolver): (r: Lookup)
    ensures isIpLiteral(server.host) ==> r == Found([server.host])
    ensures !isIpLiteral(server.host) ==> (r.Failed? <==> dns(nameserver, server.host).Failed?)
    ensures !isIpLiteral(server.host) && r.Found? ==>
              multiset(r.addresses) == multiset(dns(nameserver, server.host).addresses)
    ensures r.Found? ==> Sorted(r.addresses)
  {
    if isIpLiteral(server.host) then Found([server.host])
    else
      match dns(nameserver, server.host)
      case Found(addresses) => Found(Sort(addresses))
      case Failed => Failed
  }

  /** Whether the lookup of some server of the round fails. */
  predicate SomeLookupFails(servers: seq<Server>, nameserver: Option<string>, isIpLiteral: string -> bool, dns: Resolver)
  {
    exists i :: 0 <= i < |servers| && ResolveServer(servers[i], nameserver, isIpLiteral, dns).Failed?
  }

  /** The round as a whole (the `map` over the servers): `None` when the
      lookup of any server fails, as the exception then escapes the `map`;
      otherwise the `i`-th entry pairs the `i`-th server with its addresses. */
  function Round(servers: seq<Server>, nameserver: Option<string>, isIpLiteral: string -> bool, dns: Resolver): Option<Resolution>
  {
    if SomeLookupFails(servers, nameserver, isIpLiteral, dns) then None
    else Some(seq(|servers|, i requires 0 <= i < |servers| =>
                Entry(servers[i], ResolveServer(servers[i], nameserver, isIpLiteral, dns).addresses)))
  }

  /** What `resolve_servers` returns: the round, or `[]` when it failed. */
  function ResolvedOrEmpty(round: Option<Resolution>): Resolution
  {
    match round
    case Some(resolution) => resolution
    case None => []
  }

  /** A round fails exactly when the resolver fails for some host that is
      not an IP literal. A successful round keeps the configured servers in
      configuration order, each with its host for a literal and otherwise the
      resolver's answer, sorted; a failed one gives `[]`. */
  lemma RoundShape(servers: seq<Server>, nameserver: Option<string>, isIpLiteral: string -> bool, dns: Resolver)
    ensures Round(servers, nameserver, isIpLiteral, dns).None? <==>
              exists i :: 0 <= i < |servers| && !isIpLiteral(servers[i].host) && dns(nameserver, servers[i].host).Failed?
    ensures var round := Round(servers, nameserver, isIpLiteral, dns);
            round.Some? ==>
              && |round.value| == |servers|
              && (forall i :: 0 <= i < |servers| ==> round.value[i].server == servers[i])
              && (forall i :: 0 <= i < |servers| ==>
                    round.value[i].addresses
                      == if isIpLiteral(servers[i].host) then [servers[i].host]
                         else Sort(dns(nameserver, servers[i].host).addresses))
              && (forall i :: 0 <= i < |servers| ==> Sorted(round.value[i].addresses))
    ensures var round := Round(servers, nameserver, isIpLiteral, dns);
            round.None? ==> ResolvedOrEmpty(round) == []
  {
    var round := Round(servers, nameserver, isIpLiteral, dns);
    if round.Some? {
      forall i | 0 <= i < |servers|
        ensures round.value[i].addresses
                  == if isIpLiteral(servers[i].host) then [servers[i].host]
                     else Sort(dns(nameserver, servers[i].host).addresses)
        ensures Sorted(round.value[i].addresses)
      {
        var lookup := ResolveServer(servers[i], nameserver, isIpLiteral, dns);
        assert lookup.Found?;
      }
    } else {
      var i :| 0 <= i < |servers| && ResolveServer(servers[i], nameserver, isIpLiteral, dns).Failed?;
      assert !isIpLiteral(servers[i].host) && dns(nameserver, servers[i].host).Failed?;
    }
  }

  /** Two resolver answers that hold the same addresses for every configured
      host, in whatever order, and fail for the same hosts, are alike. */
  predicate SameUpToOrder(a: Lookup, b: Lookup)
  {
    || (a.Failed? && b.Failed?)
    || (a.Found? && b.Found? && multiset(a.addresses) == multiset(b.addresses))
  }

  /** Rounds against resolvers that differ only in the order of their
      answers are equal, so the watcher sees no change between them. */
  lemma ReorderedAnswersGiveEqualRounds(servers: seq<Server>, nameserver: Option<string>, isIpLiteral: string -> bool, dns1: Resolver, dns2: Resolver)
    requires forall i :: 0 <= i < |servers| && !isIpLiteral(servers[i].host) ==>
               SameUpToOrder(dns1(nameserver, servers[i].host), dns2(nameserver, servers[i].host))
    ensures Round(servers, nameserver, isIpLiteral, dns1) == Round(servers, nameserver, isIpLiteral, dns2)
  {
    var r1 := Round(servers, nameserver, isIpLiteral, dns1);
    var r2 := Round(servers, nameserver, isIpLiteral, dns2);
    forall i | 0 <= i < |servers|
      ensures ResolveServer(servers[i], nameserver, isIpLiteral, dns1)
           == ResolveServer(servers[i], nameserver, isIpLiteral, dns2)
    {
      var a := ResolveServer(servers[i], nameserver, isIpLiteral, dns1);
      var b := ResolveServer(servers[i], nameserver, isIpLiteral, dns2);
      if !isIpLiteral(servers[i].host) && a.Found? {
        SortedUnique(a.addresses, b.addresses);
      }
    }
    if r1.Some? {
      assert r2.Some?;
      assert r1.value == r2.value;
    }
  }

  /** The host names of the servers that are not IP literals, in order. */
  function NonLiteralHosts(servers: seq<Server>, isIpLiteral: string -> bool): seq<string>
    decreases |servers|
  {
    if servers == [] then []
    else if isIpLiteral(servers[0].host) then NonLiteralHosts(servers[1..], isIpLiteral)
    else [servers[0].host] + NonLiteralHosts(servers[1..], isIpLiteral)
  }

  /** The host names handed to the resolver during one round, in order;
      the `map` stops at the first lookup that fails. At most one lookup is
      made per server. */
  function Consulted(servers: seq<Server>, nameserver: Option<string>, isIpLiteral: string -> bool, dns: Resolver): (hosts: seq<string>)
    ensures |hosts| <= |servers|
    decreases |servers|
  {
    if servers == [] then []
    else
      var asked := if isIpLiteral(servers[0].host) then [] else [servers[0].host];
      if ResolveServer(servers[0], nameserver, isIpLiteral, dns).Failed? then asked
      else asked + Consulted(servers[1..], nameserver, isIpLiteral, dns)
  }

  /** The resolver is never asked about an IP literal; in a successful round
      it is asked about every other host exactly in configuration order. */
  lemma {:induction false} LiteralsNeverConsulted(servers: seq<Server>, nameserver: Option<string>, isIpLiteral: string -> bool, dns: Resolver)
    ensures forall h :: h in Consulted(servers, nameserver, isIpLiteral, dns) ==> !isIpLiteral(h)
    ensures Round(servers, nameserver, isIpLiteral, dns).Some? ==>
              Consulted(servers, nameserver, isIpLiteral, dns) == NonLiteralHosts(servers, isIpLiteral)
    decreases |servers|
  {
    if servers != [] {
      LiteralsNeverConsulted(servers[1..], nameserver, isIpLiteral, dns);
      if Round(servers, nameserver, isIpLiteral, dns).Some? {
        assert ResolveServer(servers[0], nameserver, isIpLiteral, dns).Found?;
        assert Round(servers[1..], nameserver, isIpLiteral, dns).Some?;
      }
    }
  }

  /** The round fails exactly when the head's lookup fails or the rest of
      the round fails. */
  lemma SomeLookupFailsUnfold(servers: seq<Server>, nameserver: Option<string>, isIpLiteral: string -> bool, dns: Resolver)
    requires servers != []
    ensures SomeLookupFails(servers, nameserver, isIpLiteral, dns) <==>
              ResolveServer(servers[0], nameserver, isIpLiteral, dns).Failed?
              || SomeLookupFails(servers[1..], nameserver, isIpLiteral, dns)
  {
    if SomeLookupFails(servers, nameserver, isIpLiteral, dns) {
      var i :| 0 <= i < |servers| && ResolveServer(servers[i], nameserver, isIpLiteral, dns).Failed?;
      if i > 0 {
        assert servers[1..][i - 1] == servers[i];
      }
    }
    if SomeLookupFails(servers[1..], nameserver, isIpLiteral, dns) {
      var i :| 0 <= i < |servers| - 1 && ResolveServer(servers[1..][i], nameserver, isIpLiteral, dns).Failed?;
      assert servers[i + 1] == servers[1..][i];
    }
  }

  /** Every host asked before the last one resolved. */
  lemma {:induction false} ConsultedResolvedBeforeLast(servers: seq<Server>, nameserver: Option<string>, isIpLiteral: string -> bool, dns: Resolver, k: nat)
    requires k < |Consulted(servers, nameserver, isIpLiteral, dns)| - 1
    ensures dns(nameserver, Consulted(servers, nameserver, isIpLiteral, dns)[k]).Found?
    decreases |servers|
  {
    var hosts := Consulted(servers, nameserver, isIpLiteral, dns);
    var rest := Consulted(servers[1..], nameserver, isIpLiteral, dns);
    var head := servers[0];
    var lookup := ResolveServer(head, nameserver, isIpLiteral, dns);
    if isIpLiteral(head.host) {
      assert lookup.Found? && hosts == rest;
      ConsultedResolvedBeforeLast(servers[1..], nameserver, isIpLiteral, dns, k);
    } else {
      assert lookup.Found?;
      assert hosts == [head.host] + rest;
      if k > 0 {
        assert hosts[k] == rest[k - 1] && k - 1 < |rest| - 1;
        ConsultedResolvedBeforeLast(servers[1..], nameserver, isIpLiteral, dns, k - 1);
      }
    }
  }

  /** The last host asked, if any, failed to resolve. */
  predicate LastAskedFailed(hosts: seq<string>, nameserver: Option<string>, dns: Resolver)
  {
    hosts != [] && dns(nameserver, hosts[|hosts| - 1]).Failed?
  }

  lemma LastAskedFailedCons(h: string, rest: seq<string>, nameserver: Option<string>, dns: Resolver)
    ensures LastAskedFailed([h] + rest, nameserver, dns)
            == if rest == [] then dns(nameserver, h).Failed? else LastAskedFailed(rest, nameserver, dns)
  {
    if rest != [] {
      assert ([h] + rest)[|rest|] == rest[|rest| - 1];
    }
  }

  /** Some lookup of the round fails exactly when the last host asked
      failed. */
  lemma {:induction false} ConsultedLastFailed(servers: seq<Server>, nameserver: Option<string>, isIpLiteral: string -> bool, dns: Resolver)
    ensures SomeLookupFails(servers, nameserver, isIpLiteral, dns)
            == LastAskedFailed(Consulted(servers, nameserver, isIpLiteral, dns), nameserver, dns)
    decreases |servers|
  {
    if servers != [] {
      var hosts := Consulted(servers, nameserver, isIpLiteral, dns);
      var rest := Consulted(servers[1..], nameserver, isIpLiteral, dns);
      var head := servers[0];
      var lookup := ResolveServer(head, nameserver, isIpLiteral, dns);
      ConsultedLastFailed(servers[1..], nameserver, isIpLiteral, dns);
      SomeLookupFailsUnfold(servers, nameserver, isIpLiteral, dns);
      if lookup.Failed? {
        assert !isIpLiteral(head.host);
        assert hosts == [head.host] + [];
        LastAskedFailedCons(head.host, [], nameserver, dns);
      } else if isIpLiteral(head.host) {
        assert hosts == rest;
      } else {
        assert hosts == [head.host] + rest;
        assert dns(nameserver, head.host).Found?;
        LastAskedFailedCons(head.host, rest, nameserver, dns);
        if rest == [] {
          assert !SomeLookupFails(servers[1..], nameserver, isIpLiteral, dns);
        }
      }
    }
  }

  /** The `map` asks the resolver host by host and stops at the first lookup
      that fails: every host asked before the last one resolved, and the
      round fails exactly when the last host asked failed. */
  lemma ConsultedStopsAtFailure(servers: seq<Server>, nameserver: Option<string>, isIpLiteral: string -> bool, dns: Resolver)
    ensures var hosts := Consulted(servers, nameserver, isIpLiteral, dns);
            forall k :: 0 <= k < |hosts| - 1 ==> dns(nameserver, hosts[k]).Found?
    ensures var hosts := Consulted(servers, nameserver, isIpLiteral, dns);
            Round(servers, nameserver, isIpLiteral, dns).None? <==>
              hosts != [] && dns(nameserver, hosts[|hosts| - 1]).Failed?
  {
    var hosts := Consulted(servers, nameserver, isIpLiteral, dns);
    forall k | 0 <= k < |hosts| - 1
      ensures dns(nameserver, hosts[k]).Found?
    {
      ConsultedResolvedBeforeLast(servers, nameserver, isIpLiteral, dns, k);
    }
    ConsultedLastFailed(servers, nameserver, isIpLiteral, dns);
    assert Round(servers, nameserver, isIpLiteral, dns).None? == SomeLookupFails(servers, nameserver, isIpLiteral, dns);
  }

  /** The hosts asked are a prefix of the hosts that are not IP literals, in
      configuration order. */
  lemma {:induction false} ConsultedIsPrefix(servers: seq<Server>, nameserver: Option<string>, isIpLiteral: string -> bool, dns: Resolver)
    ensures var hosts := Consulted(servers, nameserver, isIpLiteral, dns);
            |hosts| <= |NonLiteralHosts(servers, isIpLiteral)| && hosts == NonLiteralHosts(servers, isIpLiteral)[..|hosts|]
    decreases |servers|
  {
    if servers != [] {
      var hosts := Consulted(servers, nameserver, isIpLiteral, dns);
      var rest := Consulted(servers[1..], nameserver, isIpLiteral, dns);
      var later := NonLiteralHosts(servers[1..], isIpLiteral);
      var head := servers[0].host;
      ConsultedIsPrefix(servers[1..], nameserver, isIpLiteral, dns);
      if isIpLiteral(head) {
        assert hosts == rest && NonLiteralHosts(servers, isIpLiteral) == later;
      } else {
        assert NonLiteralHosts(servers, isIpLiteral) == [head] + later;
        if ResolveServer(servers[0], nameserver, isIpLiteral, dns).Failed? {
          assert hosts == [head] && ([head] + later)[..1] == [head];
        } else {
          assert hosts == [head] + rest;
          assert ([head] + later)[..|rest| + 1] == [head] + later[..|rest|];
        }
      }
    }
  }
}
