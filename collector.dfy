/**
 * The expiration collector, `GetExpirationMap`: one inspection per configured
 * host; a failing host is skipped and the others are kept.
 */
module Collector {
  import opened Wrappers
  import opened Times
  import opened Settings
  import opened Inspector

  /** The snapshot a check cycle works on: every host whose inspection succeeded. */
  function Collected(hosts: seq<Host>, dial: Host -> Option<Chain>): map<Host, Time> {
    map h | h in hosts && GetExpiration(h, dial).Success? :: GetExpiration(h, dial).value
  }

  /** One more host: present with its expiration if it succeeds, nothing changes if it fails. */
  lemma CollectedStep(hosts: seq<Host>, host: Host, dial: Host -> Option<Chain>)
    ensures GetExpiration(host, dial).Success? ==>
      Collected(hosts + [host], dial) == Collected(hosts, dial)[host := GetExpiration(host, dial).value]
    ensures GetExpiration(host, dial).Failure? ==>
      Collected(hosts + [host], dial) == Collected(hosts, dial)
  {
  }

  method GetExpirationMap(config: Config, dial: Host -> Option<Chain>) returns (expirationMap: map<Host, Time>)
    ensures expirationMap == Collected(config.hosts, dial)
  {
    expirationMap := map[];
    for i := 0 to |config.hosts|
      invariant expirationMap == Collected(config.hosts[..i], dial)
    {
      var host := config.hosts[i];
      assert config.hosts[..i + 1] == config.hosts[..i] + [host];
      CollectedStep(config.hosts[..i], host, dial);
      var exp := GetExpiration(host, dial);
      if exp.Failure? {
        continue;
      }
      expirationMap := expirationMap[host := exp.value];
    }
    assert config.hosts[..|config.hosts|] == config.hosts;
  }

  /**
   * The snapshot holds exactly the configured hosts whose inspection
   * succeeded, each with its own inspection's expiration.
   */
  lemma CollectedContents(hosts: seq<Host>, dial: Host -> Option<Chain>)
    ensures forall h :: h in Collected(hosts, dial) <==> h in hosts && GetExpiration(h, dial).Success?
    ensures forall h :: h in Collected(hosts, dial) ==> GetExpiration(h, dial) == Success(Collected(hosts, dial)[h])
    ensures hosts == [] ==> Collected(hosts, dial) == map[]
  {
  }

  /**
   * A failing host, wherever it stands in the list, neither removes nor
   * alters any other host's entry.
   */
  lemma FailingHostChangesNothing(before: seq<Host>, host: Host, after: seq<Host>, dial: Host -> Option<Chain>)
    requires GetExpiration(host, dial).Failure?
    ensures Collected(before + [host] + after, dial) == Collected(before + after, dial)
  {
  }
}
