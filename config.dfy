/** The discovery options the watcher accepts (`validate_discovery_opts`)
    and the defaults `start` fills in. */
module Config {
  import opened DnsTypes

  /** Ruby's `ArgumentError`, with its message. */
  datatype ArgumentError = ArgumentError(message: string)

  datatype Validation = Accepted | Rejected(error: ArgumentError)

  /** The discovery method as string interpolation shows it (`nil` as ""). */
  function MethodText(discoveryMethod: Option<string>): string
  {
    match discoveryMethod
    case Some(text) => text
    case None => ""
  }

  /** The method must be "dns" and the server list non-empty; the method is
      checked first. */
  function ValidateDiscoveryOpts(discovery: Discovery): (r: Validation)
    ensures r.Accepted? <==> discovery.discoveryMethod == Some("dns") && discovery.servers != []
    ensures discovery.discoveryMethod != Some("dns") ==>
              r == Rejected(ArgumentError("invalid discovery method " + MethodText(discovery.discoveryMethod)))
    ensures discovery.discoveryMethod == Some("dns") && discovery.servers == [] ==>
              r == Rejected(ArgumentError("a non-empty list of servers is required"))
  {
    if discovery.discoveryMethod != Some("dns") then
      Rejected(ArgumentError("invalid discovery method " + MethodText(discovery.discoveryMethod)))
    else if discovery.servers == [] then
      Rejected(ArgumentError("a non-empty list of servers is required"))
    else
      Accepted
  }

  const DefaultCheckInterval: real := 30.0

  /** `@discovery['check_interval'] || 30.0`: only an absent value falls back
      to the default (in Ruby a configured 0 is kept). */
  function CheckInterval(discovery: Discovery): (interval: real)
    ensures discovery.checkInterval.None? ==> interval == DefaultCheckInterval
    ensures discovery.checkInterval.Some? ==> interval == discovery.checkInterval.value
  {
    match discovery.checkInterval
    case Some(configured) => configured
    case None => DefaultCheckInterval
  }
}
