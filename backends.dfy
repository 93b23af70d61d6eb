/** Backend flattening (`configure_backends`): every address of every
    server of a round becomes one backend record. */
module Backends {
  import opened DnsTypes

  /** The record built for one address of one server. */
  function BackendFor(server: Server, address: string): Backend
  {
    Backend(address, server.port, server.name, server.labels)
  }

  /** The number of addresses in a round, summed over its servers. */
  function AddressCount(resolution: Resolution): nat
    decreases |resolution|
  {
    if resolution == [] then 0
    else |resolution[0].addresses| + AddressCount(resolution[1..])
  }

  /** The records of one server, one per address, in address order. */
  function ServerBackends(entry: Entry): (backends: seq<Backend>)
    ensures |backends| == |entry.addresses|
    ensures forall j :: 0 <= j < |backends| ==> backends[j] == BackendFor(entry.server, entry.addresses[j])
  {
    seq(|entry.addresses|, j requires 0 <= j < |entry.addresses| => BackendFor(entry.server, entry.addresses[j]))
  }

  /** The `flat_map` over the round: the servers' records one after another. */
  function Flatten(resolution: Resolution): (backends: seq<Backend>)
    ensures |backends| == AddressCount(resolution)
    decreases |resolution|
  {
    if resolution == [] then []
    else ServerBackends(resolution[0]) + Flatten(resolution[1..])
  }

  /** Where the records of server `i` start: after those of the servers
      before it. */
  lemma {:induction false} AddressCountPrefix(resolution: Resolution, i: nat)
    requires i < |resolution|
    ensures AddressCount(resolution[..i + 1]) == AddressCount(resolution[..i]) + |resolution[i].addresses|
    ensures AddressCount(resolution[..i + 1]) <= AddressCount(resolution)
    decreases i
  {
    assert resolution[..i + 1][1..] == resolution[1..][..i];
    if i == 0 {
      assert resolution[..0] == [] && resolution[1..][..0] == [];
    } else {
      assert resolution[..i][1..] == resolution[1..][..i - 1];
      AddressCountPrefix(resolution[1..], i - 1);
    }
  }

  /** The `j`-th address of the `i`-th server gives the record at position
      "addresses of the servers before it, plus `j`": the records are ordered
      by server, then by address, and copy that server's port, name and
      labels. */
  lemma {:induction false} FlattenAt(resolution: Resolution, i: nat, j: nat)
    requires i < |resolution| && j < |resolution[i].addresses|
    ensures AddressCount(resolution[..i]) + j < |Flatten(resolution)|
    ensures Flatten(resolution)[AddressCount(resolution[..i]) + j]
         == Backend(resolution[i].addresses[j], resolution[i].server.port, resolution[i].server.name, resolution[i].server.labels)
    decreases i
  {
    AddressCountPrefix(resolution, i);
    if i == 0 {
      assert resolution[..0] == [];
    } else {
      assert resolution[..i][1..] == resolution[1..][..i - 1];
      FlattenAt(resolution[1..], i - 1, j);
    }
  }

  /** Conversely, every record comes from one address of one server. */
  lemma {:induction false} FlattenFrom(resolution: Resolution, k: nat)
    requires k < |Flatten(resolution)|
    ensures exists i, j :: 0 <= i < |resolution| && 0 <= j < |resolution[i].addresses|
              && Flatten(resolution)[k] == BackendFor(resolution[i].server, resolution[i].addresses[j])
    decreases |resolution|
  {
    var head := ServerBackends(resolution[0]);
    if k < |head| {
      assert Flatten(resolution)[k] == BackendFor(resolution[0].server, resolution[0].addresses[k]);
    } else {
      FlattenFrom(resolution[1..], k - |head|);
      var i, j :| 0 <= i < |resolution[1..]| && 0 <= j < |resolution[1..][i].addresses|
              && Flatten(resolution[1..])[k - |head|] == BackendFor(resolution[1..][i].server, resolution[1..][i].addresses[j]);
      assert resolution[1..][i] == resolution[i + 1];
    }
  }
}
