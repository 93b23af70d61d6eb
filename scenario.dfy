/** A worked run of the watcher: one server whose name first resolves to
    one address, then to two, then to the same two in the other order. */
module Scenario {
  import opened DnsTypes
  import opened AddressOrder
  import opened Resolving
  import opened Backends
  import opened WatchSpec

  const Svc := Server("example.internal", 80, "svc", Some(map[]))

  function Answer(addresses: seq<string>): Resolver
  {
    (nameserver: Option<string>, host: string) => Found(addresses)
  }

  lemma RoundOfOne(isIpLiteral: string -> bool, answer: seq<string>, expected: Resolution)
    requires !isIpLiteral(Svc.host)
    requires expected == [Entry(Svc, Sort(answer))]
    ensures Round([Svc], None, isIpLiteral, Answer(answer)) == Some(expected)
  {
    var lookup := ResolveServer(Svc, None, isIpLiteral, Answer(answer));
    assert Answer(answer)(None, Svc.host) == Found(answer);
    assert lookup == Found(Sort(answer));
    assert !SomeLookupFails([Svc], None, isIpLiteral, Answer(answer));
    var round := Round([Svc], None, isIpLiteral, Answer(answer));
    assert round.Some? && |round.value| == 1 && round.value[0] == Entry(Svc, Sort(answer));
    assert round.value == expected;
  }

  /** Strings that share a prefix compare as what follows it. */
  lemma {:induction false} LeAfterPrefix(prefix: string, x: string, y: string)
    ensures Le(prefix + x, prefix + y) == Le(x, y)
    decreases |prefix|
  {
    if prefix != [] {
      assert (prefix + x)[1..] == prefix[1..] + x;
      assert (prefix + y)[1..] == prefix[1..] + y;
      LeAfterPrefix(prefix[1..], x, y);
    } else {
      assert prefix + x == x && prefix + y == y;
    }
  }

  const One: string := "10.0.0.1"
  const Two: string := "10.0.0.2"
  /** The round while the name resolves to one address, then to two. */
  const OneAddress: Resolution := [Entry(Svc, [One])]
  const TwoAddresses: Resolution := [Entry(Svc, [One, Two])]

  /** How `sort` orders the two addresses used below. */
  lemma SortTwo()
    ensures Sort([One]) == [One]
    ensures Sort([One, Two]) == [One, Two] && Sort([Two, One]) == [One, Two]
  {
    assert One == "10.0.0." + "1" && Two == "10.0.0." + "2";
    LeAfterPrefix("10.0.0.", "1", "2");
    assert Le(One, Two);
    assert Sorted([One]) && Sorted([One, Two]);
    SortedUnique(Sort([One]), [One]);
    SortedUnique(Sort([One, Two]), [One, Two]);
    assert multiset([Two, One]) == multiset([One, Two]);
    SortedUnique(Sort([Two, One]), [One, Two]);
  }

  /** A repeated round is dropped, a changed one kept. */
  lemma CompressRepeat(r1: Resolution, r2: Resolution)
    requires r1 != r2
    ensures Compress([r1, r2, r2]) == [r1, r2]
  {
    assert [r1, r2][..1] == [r1];
    assert Compress([r1, r2]) == Compress([r1]) + [r2];
    assert [r1, r2, r2][..2] == [r1, r2];
  }

  /** A round of one server publishes that server's records. */
  lemma FlattenOne(entry: Entry)
    ensures Flatten([entry]) == ServerBackends(entry)
  {
    assert [entry][1..] == [];
  }

  /** What the watcher sees on each of the three checks. */
  lemma ScenarioObserved(isIpLiteral: string -> bool, answer: seq<string>, expected: Resolution)
    requires !isIpLiteral(Svc.host)
    requires answer in {[One], [One, Two], [Two, One]}
    requires expected == if answer == [One] then OneAddress else TwoAddresses
    ensures Observe(Env([Svc], None, isIpLiteral, 30.0), Tick(Answer(answer), 0.5, false))
            == Observed(Some(expected), 0.5, false)
  {
    SortTwo();
    RoundOfOne(isIpLiteral, answer, expected);
  }

  /** Rounds of three successful checks whose last two agree. */
  lemma RoundsOfThree(a: Resolution, b: Resolution, elapsed: real)
    ensures Rounds([Observed(Some(a), elapsed, false), Observed(Some(b), elapsed, false), Observed(Some(b), elapsed, false)])
            == [a, b, b]
  {
  }

  /** The rounds the three checks give: the third equals the second. */
  lemma ScenarioRounds(isIpLiteral: string -> bool, first: Observed, cycles: seq<Observed>)
    requires !isIpLiteral(Svc.host)
    requires var env := Env([Svc], None, isIpLiteral, 30.0);
             && first == Observe(env, Tick(Answer([One]), 0.5, false))
             && cycles == [Observe(env, Tick(Answer([One, Two]), 0.5, false)),
                           Observe(env, Tick(Answer([Two, One]), 0.5, false))]
    ensures Rounds([first] + cycles) == [OneAddress, TwoAddresses, TwoAddresses]
  {
    ScenarioObserved(isIpLiteral, [One], OneAddress);
    ScenarioObserved(isIpLiteral, [One, Two], TwoAddresses);
    ScenarioObserved(isIpLiteral, [Two, One], TwoAddresses);
    assert [first] + cycles == [Observed(Some(OneAddress), 0.5, false), Observed(Some(TwoAddresses), 0.5, false),
                                Observed(Some(TwoAddresses), 0.5, false)];
    RoundsOfThree(OneAddress, TwoAddresses, 0.5);
  }

  /** The lists those rounds publish: the repeated round adds none. */
  lemma ScenarioPublications()
    ensures Publications(Compress([OneAddress, TwoAddresses, TwoAddresses]))
            == [[Backend(One, 80, "svc", Some(map[]))],
                [Backend(One, 80, "svc", Some(map[])), Backend(Two, 80, "svc", Some(map[]))]]
  {
    assert OneAddress[0] != TwoAddresses[0];
    CompressRepeat(OneAddress, TwoAddresses);
    var b1, b2 := Backend(One, 80, "svc", Some(map[])), Backend(Two, 80, "svc", Some(map[]));
    FlattenOne(OneAddress[0]);
    FlattenOne(TwoAddresses[0]);
    assert Flatten(OneAddress) == [b1];
    assert Flatten(TwoAddresses) == [b1, b2];
  }

  /** Only the first two rounds reach `set_backends`: the third differs from
      the second only in the order the resolver listed the addresses. */
  lemma ThreeRounds(isIpLiteral: string -> bool)
    requires !isIpLiteral("example.internal")
    ensures var env := Env([Svc], None, isIpLiteral, 30.0);
            var first := Observe(env, Tick(Answer(["10.0.0.1"]), 0.5, false));
            var cycles := [Observe(env, Tick(Answer(["10.0.0.1", "10.0.0.2"]), 0.5, false)),
                           Observe(env, Tick(Answer(["10.0.0.2", "10.0.0.1"]), 0.5, false))];
            WatchTrace(30.0, first, cycles, Trace([], [], 0, [])).calls
              == [[Backend("10.0.0.1", 80, "svc", Some(map[]))],
                  [Backend("10.0.0.1", 80, "svc", Some(map[])), Backend("10.0.0.2", 80, "svc", Some(map[]))]]
  {
    var env := Env([Svc], None, isIpLiteral, 30.0);
    var first := Observe(env, Tick(Answer([One]), 0.5, false));
    var cycles := [Observe(env, Tick(Answer([One, Two]), 0.5, false)),
                   Observe(env, Tick(Answer([Two, One]), 0.5, false))];
    ScenarioRounds(isIpLiteral, first, cycles);
    ScenarioPublications();
    CallsAreCompressedRounds(30.0, first, cycles, Trace([], [], 0, []));
  }
}
