/** The values the DNS watcher works on: its discovery configuration, the
    servers it watches, the answers of the resolver and the backend records
    it publishes. */
module DnsTypes {

  datatype Option<T> = None | Some(value: T)

  /** One entry of the configured `servers` list: `host`, `port`, `name`
      and the optional `labels` hash, passed through untouched. */
  datatype Server = Server(host: string, port: int, name: string, labels: Option<map<string, string>>)

  /** One backend record handed to `set_backends`. */
  datatype Backend = Backend(host: string, port: int, name: string, labels: Option<map<string, string>>)

  /** One pair `[server, addresses]` of a resolution round. */
  datatype Entry = Entry(server: Server, addresses: seq<string>)

  /** The result of one resolution round, in configuration order. */
  type Resolution = seq<Entry>

  /** What the resolver answers for one host name: its addresses (possibly
      none, as for a name that does not exist), or an exception raised by
      the lookup. */
  datatype Lookup = Found(addresses: seq<string>) | Failed

  /** The resolver as it behaves during one round: given the configured
      nameserver (absent: the system default) and a host name. */
  type Resolver = (Option<string>, string) -> Lookup

  /** The `@discovery` hash: `method`, `servers`, `check_interval` and
      `nameserver`. */
  datatype Discovery = Discovery(
    discoveryMethod: Option<string>,
    servers: seq<Server>,
    checkInterval: Option<real>,
    nameserver: Option<string>)
}
