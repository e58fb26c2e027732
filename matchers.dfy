/** The two matching policies a route can carry, behind one calling contract:
    consulted with a hostname, a matcher either declines (and route evaluation
    continues) or names a target. */
module Matchers {
  import opened Base
  import Suffix
  import Consul

  /** A matcher: a suffix rule with a fixed target, or a suffix rule whose
      subdomain is resolved through Consul. */
  datatype Matcher = SuffixRule(rule: Suffix.SuffixMatcher) | ConsulRule(consul: Consul.ConsulMatcher)

  /** SuffixMatcher(suffix, target): every single-label host under the suffix goes
      to the one target. */
  function SuffixMatcher(suffix: string, target: Option<Target>): (m: Matcher)
    ensures m.SuffixRule? && m.rule.target == target
    ensures m.rule.suffix == Suffix.NormalizeSuffix(suffix)
  {
    SuffixRule(Suffix.NewSuffixMatcher(suffix, target))
  }

  /** ConsulMatcher(matchSuffix, consulDnsAddr), with the UDP and TCP clients
      passed in. The suffix rule inside carries no fixed target. */
  function ConsulMatcher(matchSuffix: string, consulDnsAddr: string, udp: Consul.Client, tcp: Consul.Client): (m: Matcher)
    ensures m.ConsulRule? && m.consul.consulDnsAddr == consulDnsAddr
    ensures m.consul.matchSuffix.suffix == Suffix.NormalizeSuffix(matchSuffix) && m.consul.matchSuffix.target == None
    ensures m.consul.udpClient == udp && m.consul.tcpClient == tcp
  {
    ConsulRule(Consul.ConsulMatcher(Suffix.NewSuffixMatcher(matchSuffix, None), consulDnsAddr, udp, tcp))
  }

  /** The suffix rule a matcher selects hostnames with. */
  function RuleOf(m: Matcher): Suffix.SuffixMatcher
  {
    match m
    case SuffixRule(rule) => rule
    case ConsulRule(c) => c.matchSuffix
  }

  /** What a matcher answers for a hostname: a target is named only on a match. */
  function Decision(m: Matcher, hostname: string): (r: (bool, Option<Target>))
    ensures !r.0 ==> r.1 == None
  {
    match m
    case SuffixRule(rule) => Suffix.Lookup(rule, hostname)
    case ConsulRule(c) => Consul.Decision(c, hostname)
  }

  /** Calling a matcher. */
  method Lookup(m: Matcher, hostname: string) returns (ok: bool, target: Option<Target>)
    ensures (ok, target) == Decision(m, hostname)
  {
    match m
    case SuffixRule(rule) =>
      var r := Suffix.Lookup(rule, hostname);
      ok, target := r.0, r.1;
    case ConsulRule(c) =>
      var sent;
      ok, target, sent := Consul.Lookup(c, hostname);
  }

  /** Both policies decline every hostname their suffix does not serve, and the
      fixed-target policy accepts every hostname it does serve. */
  lemma DeclinesOutsideSuffix(m: Matcher, hostname: string)
    ensures !Suffix.Serves(RuleOf(m), hostname) ==> Decision(m, hostname) == (false, None)
    ensures m.SuffixRule? && Suffix.Serves(RuleOf(m), hostname) ==> Decision(m, hostname) == (true, m.rule.target)
  {
    Suffix.HasSuffixIff(RuleOf(m), hostname);
  }

  /** A Consul matcher accepts exactly the served hostnames whose service resolves,
      and then names the dial target for the resolved address. */
  lemma ConsulAcceptsIff(m: Matcher, hostname: string)
    requires m.ConsulRule?
    ensures var (matched, service) := Suffix.HasSuffix(m.consul.matchSuffix, hostname);
      Decision(m, hostname).0 <==> matched && Consul.Resolution(m.consul, service).Success?
    ensures Decision(m, hostname).0 ==>
      Decision(m, hostname).1 == Some(DialProxy(Consul.Resolution(m.consul, Suffix.HasSuffix(m.consul.matchSuffix, hostname).1).value))
  {
  }

  /** A configured suffix rule sends a hostname to its target exactly when the
      hostname is one label followed by the normalised suffix; leading dots in
      the configuration make no difference. */
  lemma SuffixMatcherRoutes(k: nat, suffix: string, target: Option<Target>, hostname: string)
    ensures Decision(SuffixMatcher(Suffix.Dots(k) + suffix, target), hostname) ==
      if exists sub :: Suffix.IsLabel(sub) && hostname == sub + Suffix.NormalizeSuffix(suffix)
      then (true, target) else (false, None)
  {
    Suffix.NormalizeIgnoresLeadingDots(k, suffix);
    Suffix.LookupIff(SuffixMatcher(Suffix.Dots(k) + suffix, target).rule, hostname);
  }

  /** Configured as "localhost", the suffix rule sends "foo.localhost" to its
      target and turns "foo.bar.localhost" and "localhost" away. */
  lemma LocalhostRule(target: Option<Target>)
    ensures Decision(SuffixMatcher("localhost", target), "foo.localhost") == (true, target)
    ensures Decision(SuffixMatcher("localhost", target), "foo.bar.localhost") == (false, None)
    ensures Decision(SuffixMatcher("localhost", target), "localhost") == (false, None)
  {
    Suffix.NormalizeExamples();
    assert SuffixMatcher("localhost", target) == SuffixRule(Suffix.SuffixMatcher(".localhost", target));
    Suffix.LocalhostExamples(target);
  }
}
