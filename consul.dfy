/** The Consul resolver: a subdomain label names a service registered in Consul,
    whose address is found with a DNS SRV query for `_<service>._tcp.consul.`
    (SRV records as in RFC 2782) sent over UDP, repeated over TCP when the UDP
    answer comes back truncated (the TC bit of section 4.1.1 of RFC 1035), and
    completed with the A record the additional section holds for the SRV target. */
module Consul {
  import opened Base
  import Suffix

  newtype u16 = x: int | 0 <= x < 0x1_0000

  /** The query type of an SRV question, and the two response codes the resolver
      tells apart (section 4.1.1 of RFC 1035). */
  const TypeSrv: nat := 33
  const RcodeSuccess: nat := 0
  const RcodeNameError: nat := 3

  datatype Question = Question(name: string, qtype: nat)

  /** A resource record, as far as the resolver looks into it. An A record's
      address is kept as its textual rendering. */
  datatype RR =
    | SRV(owner: string, priority: u16, weight: u16, port: u16, target: string)
    | A(owner: string, ip: string)
    | Other(owner: string, rrtype: nat)

  datatype Msg = Msg(question: seq<Question>, truncated: bool, rcode: nat, answer: seq<RR>, extra: seq<RR>)

  datatype Net = Udp | Tcp

  /** One query put on the wire: the transport, the message and the server address. */
  datatype Exchange = Exchange(net: Net, query: Msg, server: string)

  /** What a DNS client hands back for one exchange. */
  datatype Reply = Received(response: Msg) | ExchangeFailed(reason: string)

  /** A DNS client (dns.Client, or the test's mock): the reply it gives to a query
      sent to a server. */
  type Client = (Msg, string) -> Reply

  datatype DnsError =
    | TransportError(reason: string)
    | NonExistentName(fqdn: string)
    | LookupFailed(fqdn: string, response: Msg)
    | NoSrvRecord(fqdn: string, answer: seq<RR>)
    | NoARecord(fqdn: string, answer: seq<RR>)

  /** consulMatcher: the suffix that selects hostnames, the Consul DNS endpoint and
      the two clients. Nothing in it changes after construction. */
  datatype ConsulMatcher = ConsulMatcher(
    matchSuffix: Suffix.SuffixMatcher,
    consulDnsAddr: string,
    udpClient: Client,
    tcpClient: Client)

  // ---------------------------------------------------------------------------
  // The query name

  const SrvDomain: string := "._tcp.consul."

  /** The fully qualified SRV name queried for a service. */
  function Fqdn(serviceName: string): (q: string)
    ensures |q| == |serviceName| + 1 + |SrvDomain|
    ensures q[0] == '_' && q[1 + |serviceName|..] == SrvDomain
  {
    "_" + serviceName + SrvDomain
  }

  /** The service a fully qualified SRV name stands for, if it has that form. */
  function ServiceName(fqdn: string): Option<string>
  {
    if |fqdn| >= 1 + |SrvDomain| && fqdn[0] == '_' && fqdn[|fqdn| - |SrvDomain|..] == SrvDomain
    then Some(fqdn[1..|fqdn| - |SrvDomain|])
    else None
  }

  /** The query name determines the service and the service the query name. */
  lemma FqdnRoundTrip(serviceName: string, fqdn: string)
    ensures ServiceName(Fqdn(serviceName)) == Some(serviceName)
    ensures ServiceName(fqdn) == Some(serviceName) ==> Fqdn(serviceName) == fqdn
  {
    var q := Fqdn(serviceName);
    assert q[1..|q| - |SrvDomain|] == serviceName;
    if ServiceName(fqdn) == Some(serviceName) {
      assert fqdn == fqdn[..1] + fqdn[1..|fqdn| - |SrvDomain|] + fqdn[|fqdn| - |SrvDomain|..];
    }
  }

  /** The message dnsSrvQuery sends: one question, of type SRV. */
  function SrvQuestion(fqdn: string): (q: Msg)
    ensures q.question == [Question(fqdn, TypeSrv)]
    ensures !q.truncated && q.answer == [] && q.extra == []
  {
    Msg([Question(fqdn, TypeSrv)], false, RcodeSuccess, [], [])
  }

  // ---------------------------------------------------------------------------
  // The exchange: UDP, then TCP when truncated, then the response code

  /** The reply the matcher's clients give to an exchange. */
  function Respond(m: ConsulMatcher, e: Exchange): Reply
  {
    if e.net == Udp then m.udpClient(e.query, e.server) else m.tcpClient(e.query, e.server)
  }

  /** What dnsSrvQuery returns (the answer and additional sections, or an
      error), with the exchanges it issued in order. */
  datatype QueryOutcome = QueryOutcome(result: Result<(seq<RR>, seq<RR>), DnsError>, sent: seq<Exchange>)

  /** dnsSrvQuery. At most two exchanges, both carrying the same SRV question to the
      same server: UDP first, and TCP exactly when the UDP reply arrived truncated.
      The result is judged by the last reply: a transport error is returned as it
      is; otherwise the response code decides between the sections, "non-existent
      name" and "lookup failed". */
  function DnsSrvQuery(m: ConsulMatcher, fqdn: string): (q: QueryOutcome)
    ensures 1 <= |q.sent| <= 2
    ensures forall e :: e in q.sent ==> e.query == SrvQuestion(fqdn) && e.server == m.consulDnsAddr
    ensures q.sent[0].net == Udp
    ensures |q.sent| == 2 <==> Respond(m, q.sent[0]).Received? && Respond(m, q.sent[0]).response.truncated
    ensures |q.sent| == 2 ==> q.sent[1].net == Tcp
    ensures var last := Respond(m, q.sent[|q.sent| - 1]);
      if last.ExchangeFailed? then q.result == Failure(TransportError(last.reason))
      else if last.response.rcode == RcodeSuccess then q.result == Success((last.response.answer, last.response.extra))
      else if last.response.rcode == RcodeNameError then q.result == Failure(NonExistentName(fqdn))
      else q.result == Failure(LookupFailed(fqdn, last.response))
  {
    var msg := SrvQuestion(fqdn);
    var viaUdp := Exchange(Udp, msg, m.consulDnsAddr);
    var viaTcp := Exchange(Tcp, msg, m.consulDnsAddr);
    var r := m.udpClient(msg, m.consulDnsAddr);
    var (r, sent) :=
      if r.Received? && r.response.truncated then (m.tcpClient(msg, m.consulDnsAddr), [viaUdp, viaTcp])
      else (r, [viaUdp]);
    var result :=
      if r.ExchangeFailed? then Failure(TransportError(r.reason))
      else if r.response.rcode == RcodeSuccess then Success((r.response.answer, r.response.extra))
      else if r.response.rcode == RcodeNameError then Failure(NonExistentName(fqdn))
      else Failure(LookupFailed(fqdn, r.response));
    QueryOutcome(result, sent)
  }

  // ---------------------------------------------------------------------------
  // Record selection, by reference searches

  /** Position of the first SRV record of a section (the section's length if none). */
  function FirstSrvAt(ans: seq<RR>): (i: nat)
    ensures i <= |ans|
    ensures i < |ans| ==> ans[i].SRV?
    ensures forall j :: 0 <= j < i ==> !ans[j].SRV?
  {
    if ans == [] then 0
    else if ans[0].SRV? then 0
    else 1 + FirstSrvAt(ans[1..])
  }

  predicate IsAFor(rr: RR, node: string)
  {
    rr.A? && rr.owner == node
  }

  /** Position of the first A record owned by `node` (the section's length if none). */
  function FirstAFor(extra: seq<RR>, node: string): (i: nat)
    ensures i <= |extra|
    ensures i < |extra| ==> IsAFor(extra[i], node)
    ensures forall j :: 0 <= j < i ==> !IsAFor(extra[j], node)
  {
    if extra == [] then 0
    else if IsAFor(extra[0], node) then 0
    else 1 + FirstAFor(extra[1..], node)
  }

  /** The first loop of lookupDns over the answer section: `ok` is overwritten by
      each type test and the loop stops at the first SRV record, so it reports
      exactly the first SRV record's port and target. */
  method ScanAnswer(ans: seq<RR>) returns (ok: bool, port: u16, node: string)
    ensures ok <==> FirstSrvAt(ans) < |ans|
    ensures ok ==> port == ans[FirstSrvAt(ans)].port && node == ans[FirstSrvAt(ans)].target
    ensures !ok ==> port == 0 && node == ""
  {
    ok, port, node := false, 0, "";
    var i := 0;
    while i < |ans|
      invariant 0 <= i <= |ans|
      invariant forall j :: 0 <= j < i ==> !ans[j].SRV?
      invariant !ok && port == 0 && node == ""
    {
      ok := ans[i].SRV?;
      if ok {
        port, node := ans[i].port, ans[i].target;
        break;
      }
      i := i + 1;
    }
  }

  /** The second loop of lookupDns, as written: `ok` is overwritten by the type
      test of every record visited and the loop stops only at an A record owned by
      the node. So `ok` ends up true on a match, and also when there is no match
      but the last additional record is an A record; the host is then still unset. */
  method ScanExtra(extra: seq<RR>, node: string) returns (ok: bool, host: Option<string>)
    ensures FirstAFor(extra, node) < |extra| ==> ok && host == Some(extra[FirstAFor(extra, node)].ip)
    ensures FirstAFor(extra, node) == |extra| ==> host == None && ok == (|extra| > 0 && extra[|extra| - 1].A?)
  {
    ok, host := false, None;
    var i := 0;
    while i < |extra|
      invariant 0 <= i <= |extra|
      invariant forall j :: 0 <= j < i ==> !IsAFor(extra[j], node)
      invariant host == None
      invariant ok == (i > 0 && extra[i - 1].A?)
    {
      ok := extra[i].A?;
      if ok {
        if extra[i].owner == node {
          host := Some(extra[i].ip);
          break;
        }
      }
      i := i + 1;
    }
  }

  /** The second loop as its error message says it was meant: report success only
      when an A record owned by the node exists, and then take the first. */
  method ScanExtraStrict(extra: seq<RR>, node: string) returns (ok: bool, host: Option<string>)
    ensures ok <==> exists j :: 0 <= j < |extra| && IsAFor(extra[j], node)
    ensures ok ==> host == Some(extra[FirstAFor(extra, node)].ip)
    ensures !ok ==> host == None
  {
    ok, host := false, None;
    var i := 0;
    while i < |extra|
      invariant 0 <= i <= |extra|
      invariant forall j :: 0 <= j < i ==> !IsAFor(extra[j], node)
      invariant !ok && host == None
    {
      if extra[i].A? && extra[i].owner == node {
        ok, host := true, Some(extra[i].ip);
        break;
      }
      i := i + 1;
    }
  }

  // ---------------------------------------------------------------------------
  // The dial address

  function DigitChar(d: nat): char
    requires d < 10
  {
    "0123456789"[d]
  }

  predicate IsDigit(c: char)
  {
    '0' <= c <= '9'
  }

  /** The decimal rendering of a number, as fmt's %d prints it. */
  function Decimal(n: nat): (s: string)
    ensures |s| >= 1
    ensures forall k :: 0 <= k < |s| ==> IsDigit(s[k])
    ensures |s| > 1 ==> s[0] != '0'
  {
    if n < 10 then [DigitChar(n)] else Decimal(n / 10) + [DigitChar(n % 10)]
  }

  /** The number a string of decimal digits denotes. */
  function DigitsValue(s: string): nat
    requires forall k :: 0 <= k < |s| ==> IsDigit(s[k])
  {
    if s == [] then 0
    else
      assert IsDigit(s[|s| - 1]);
      DigitsValue(s[..|s| - 1]) * 10 + (s[|s| - 1] as int - '0' as int)
  }

  /** Printing a port in decimal loses nothing. */
  lemma {:induction false} DecimalRoundTrip(n: nat)
    ensures DigitsValue(Decimal(n)) == n
  {
    var s := Decimal(n);
    if n >= 10 {
      DecimalRoundTrip(n / 10);
      assert s[..|s| - 1] == Decimal(n / 10);
      assert s[|s| - 1] == DigitChar(n % 10);
    }
    assert "0123456789"[n % 10] as int - '0' as int == n % 10;
  }

  /** How a net.IP prints: the unset (nil) address prints as "<nil>". */
  function IpText(host: Option<string>): (t: string)
    ensures host.Some? ==> t == host.value
    ensures host.None? ==> t == "<nil>"
  {
    if host.Some? then host.value else "<nil>"
  }

  /** fmt.Sprintf("%s:%d", host, port). */
  function HostPort(host: Option<string>, port: u16): (a: string)
    ensures |IpText(host)| < |a| && a[..|IpText(host)|] == IpText(host)
    ensures LastColon(a) == Some(|IpText(host)|)
    ensures a[|IpText(host)| + 1..] == Decimal(port as nat)
  {
    var a := IpText(host) + ":" + Decimal(port as nat);
    var i := |IpText(host)|;
    assert a[i] == ':' && a[i + 1..] == Decimal(port as nat);
    LastColonAt(a, i);
    a
  }

  /** Position of the last ':' of a string, if any. */
  function LastColon(s: string): (i: Option<nat>)
    ensures i.Some? ==> i.value < |s| && s[i.value] == ':' && ':' !in s[i.value + 1..]
    ensures i.None? ==> ':' !in s
  {
    if s == [] then None
    else if s[|s| - 1] == ':' then Some(|s| - 1)
    else
      var i := LastColon(s[..|s| - 1]);
      assert s == s[..|s| - 1] + [s[|s| - 1]];
      i
  }

  /** A ':' with none after it is the last one. */
  lemma LastColonAt(s: string, i: nat)
    requires i < |s| && s[i] == ':' && ':' !in s[i + 1..]
    ensures LastColon(s) == Some(i)
  {
  }

  /** Split a dial address at its last ':' into host text and decimal port. */
  function SplitHostPort(addr: string): Option<(string, nat)>
  {
    match LastColon(addr)
    case None => None
    case Some(i) =>
      var port := addr[i + 1..];
      if port != [] && forall k :: 0 <= k < |port| ==> IsDigit(port[k])
      then Some((addr[..i], DigitsValue(port)))
      else None
  }

  /** The formatted address splits back into the host text and the port, whatever
      the host text holds (an IPv6 rendering holds ':' too). */
  lemma HostPortRoundTrip(host: Option<string>, port: u16)
    ensures SplitHostPort(HostPort(host, port)) == Some((IpText(host), port as nat))
  {
    DecimalRoundTrip(port as nat);
  }

  // ---------------------------------------------------------------------------
  // lookupDns and Lookup

  /** What lookupDns yields for a service: the query's error; "no valid SRV record"
      when the answer section has no SRV record; otherwise the address built from
      the first SRV record's port and the first A record owned by its target. When
      there is no such A record the code as written still succeeds, with the unset
      host, if the additional section ends with an A record. */
  function Resolution(m: ConsulMatcher, serviceName: string): (r: Result<string, DnsError>)
    ensures var q := DnsSrvQuery(m, Fqdn(serviceName));
      q.result.Failure? ==> r == Failure(q.result.error)
    ensures var q := DnsSrvQuery(m, Fqdn(serviceName));
      q.result.Success? && r.Failure? ==>
        r.error in {NoSrvRecord(Fqdn(serviceName), q.result.value.0), NoARecord(Fqdn(serviceName), q.result.value.0)}
    ensures var q := DnsSrvQuery(m, Fqdn(serviceName));
      r.Success? ==>
        && q.result.Success?
        && FirstSrvAt(q.result.value.0) < |q.result.value.0|
        && SplitHostPort(r.value).Some?
        && SplitHostPort(r.value).value.1 == q.result.value.0[FirstSrvAt(q.result.value.0)].port as nat
  {
    var fqdn := Fqdn(serviceName);
    var q := DnsSrvQuery(m, fqdn);
    if q.result.Failure? then Failure(q.result.error)
    else
      var (ans, extra) := q.result.value;
      var i := FirstSrvAt(ans);
      if i == |ans| then Failure(NoSrvRecord(fqdn, ans))
      else
        var k := FirstAFor(extra, ans[i].target);
        if k < |extra| then
          HostPortRoundTrip(Some(extra[k].ip), ans[i].port);
          Success(HostPort(Some(extra[k].ip), ans[i].port))
        else if |extra| > 0 && extra[|extra| - 1].A? then
          HostPortRoundTrip(None, ans[i].port);
          Success(HostPort(None, ans[i].port))
        else Failure(NoARecord(fqdn, ans))
  }

  /** lookupDns: the query, then the two scans, then the address. */
  method LookupDns(m: ConsulMatcher, serviceName: string) returns (r: Result<string, DnsError>, sent: seq<Exchange>)
    ensures r == Resolution(m, serviceName)
    ensures sent == DnsSrvQuery(m, Fqdn(serviceName)).sent
  {
    var fqdn := Fqdn(serviceName);
    var q := DnsSrvQuery(m, fqdn);
    sent := q.sent;
    if q.result.Failure? {
      return Failure(q.result.error), sent;
    }
    var (ans, extra) := q.result.value;
    var ok, port, node := ScanAnswer(ans);
    if !ok {
      return Failure(NoSrvRecord(fqdn, ans)), sent;
    }
    var host;
    ok, host := ScanExtra(extra, node);
    if !ok {
      return Failure(NoARecord(fqdn, ans)), sent;
    }
    r := Success(HostPort(host, port));
  }

  // ---------------------------------------------------------------------------
  // The scenarios of consul_test.go and the resolver's documented behaviour

  const TestNode: string := "MacBook-Pro.local.node.dc1.consul."

  /** A reply in the manner of the test's mock client: the question echoed back,
      with the given flag, code and sections. */
  function MockClient(truncated: bool, rcode: nat, answer: seq<RR>, extra: seq<RR>): Client
  {
    (q: Msg, server: string) => Received(Msg(q.question, truncated, rcode, answer, extra))
  }

  function TestAnswer(): seq<RR>
  {
    [SRV("_foo._tcp.consul.", 1, 1, 51885, TestNode)]
  }

  function TestExtra(): seq<RR>
  {
    [A(TestNode, "127.0.0.1"), Other(TestNode, 16)]
  }

  /** A mock reply that is neither truncated nor an error ends the query after one
      UDP exchange with the mock's sections. */
  lemma MockUdpQuery(suffix: Suffix.SuffixMatcher, server: string, tcp: Client, answer: seq<RR>, extra: seq<RR>, fqdn: string)
    ensures DnsSrvQuery(ConsulMatcher(suffix, server, MockClient(false, RcodeSuccess, answer, extra), tcp), fqdn) ==
      QueryOutcome(Success((answer, extra)), [Exchange(Udp, SrvQuestion(fqdn), server)])
  {
    var m := ConsulMatcher(suffix, server, MockClient(false, RcodeSuccess, answer, extra), tcp);
    assert m.udpClient(SrvQuestion(fqdn), server) == Received(Msg([Question(fqdn, TypeSrv)], false, RcodeSuccess, answer, extra));
  }

  lemma Decimal51885()
    ensures Decimal(51885) == "51885"
  {
    assert Decimal(5) == "5";
    assert Decimal(51) == "51";
    assert Decimal(518) == "518";
    assert Decimal(5188) == "5188";
  }

  /** Whatever exchanges led to them, the test's answer and additional sections
      resolve to "127.0.0.1:51885". */
  lemma TestSectionsResolve(m: ConsulMatcher)
    requires DnsSrvQuery(m, Fqdn("foo")).result == Success((TestAnswer(), TestExtra()))
    ensures Resolution(m, "foo") == Success("127.0.0.1:51885")
  {
    assert FirstSrvAt(TestAnswer()) == 0;
    assert FirstAFor(TestExtra(), TestNode) == 0;
    Decimal51885();
    assert HostPort(Some("127.0.0.1"), 51885) == "127.0.0.1:51885";
  }

  /** One UDP exchange with the SRV record (port 51885, target node) and the node's
      A record 127.0.0.1, followed by a TXT record, resolves to "127.0.0.1:51885". */
  lemma UdpScenario(suffix: Suffix.SuffixMatcher, server: string, tcp: Client)
    ensures var m := ConsulMatcher(suffix, server, MockClient(false, RcodeSuccess, TestAnswer(), TestExtra()), tcp);
      Resolution(m, "foo") == Success("127.0.0.1:51885") &&
      DnsSrvQuery(m, Fqdn("foo")).sent == [Exchange(Udp, SrvQuestion(Fqdn("foo")), server)]
  {
    MockUdpQuery(suffix, server, tcp, TestAnswer(), TestExtra(), Fqdn("foo"));
    TestSectionsResolve(ConsulMatcher(suffix, server, MockClient(false, RcodeSuccess, TestAnswer(), TestExtra()), tcp));
  }

  /** A truncated UDP reply is followed by the same query over TCP, and the address
      comes from the TCP reply. */
  lemma TruncatedScenario(suffix: Suffix.SuffixMatcher, server: string)
    ensures var m := ConsulMatcher(suffix, server, MockClient(true, RcodeSuccess, [], []),
                                   MockClient(false, RcodeSuccess, TestAnswer(), TestExtra()));
      Resolution(m, "foo") == Success("127.0.0.1:51885") &&
      DnsSrvQuery(m, Fqdn("foo")).sent ==
        [Exchange(Udp, SrvQuestion(Fqdn("foo")), server), Exchange(Tcp, SrvQuestion(Fqdn("foo")), server)]
  {
    var m := ConsulMatcher(suffix, server, MockClient(true, RcodeSuccess, [], []),
                           MockClient(false, RcodeSuccess, TestAnswer(), TestExtra()));
    var question := SrvQuestion(Fqdn("foo"));
    assert m.udpClient(question, server).response.truncated;
    assert m.tcpClient(question, server) == Received(Msg(question.question, false, RcodeSuccess, TestAnswer(), TestExtra()));
    assert DnsSrvQuery(m, Fqdn("foo")).result == Success((TestAnswer(), TestExtra()));
    TestSectionsResolve(m);
  }

  /** A name error is reported as a non-existent name, not as a transport error. */
  lemma NameErrorScenario(suffix: Suffix.SuffixMatcher, server: string, tcp: Client, answer: seq<RR>, extra: seq<RR>)
    ensures var m := ConsulMatcher(suffix, server, MockClient(false, RcodeNameError, answer, extra), tcp);
      Resolution(m, "foo") == Failure(NonExistentName("_foo._tcp.consul."))
  {
    var m := ConsulMatcher(suffix, server, MockClient(false, RcodeNameError, answer, extra), tcp);
    var fqdn := Fqdn("foo");
    assert fqdn == "_foo._tcp.consul.";
    assert m.udpClient(SrvQuestion(fqdn), server).response.rcode == RcodeNameError;
    assert !m.udpClient(SrvQuestion(fqdn), server).response.truncated;
  }

  /** With suffix ".localhost" the composed matcher sends "foo.localhost" to the
      resolved address and turns "foo.bar.localhost" away without a query. */
  lemma ComposedScenario(server: string, tcp: Client)
    ensures var m := ConsulMatcher(Suffix.NewSuffixMatcher(".localhost", None), server,
                                   MockClient(false, RcodeSuccess, TestAnswer(), TestExtra()), tcp);
      Decision(m, "foo.localhost") == (true, Some(DialProxy("127.0.0.1:51885"))) &&
      Decision(m, "foo.bar.localhost") == (false, None)
  {
    Suffix.LocalhostMatcher();
    Suffix.LocalhostExamples(None);
    UdpScenario(Suffix.NewSuffixMatcher(".localhost", None), server, tcp);
  }

  /** The code as written accepts a reply whose additional section ends with an A
      record for another node: no error, and the address has the unset host. */
  lemma NonMatchingLastARecordAccepted(suffix: Suffix.SuffixMatcher, server: string, tcp: Client)
    ensures var m := ConsulMatcher(suffix, server,
                                   MockClient(false, RcodeSuccess, TestAnswer(), [A("other.node.dc1.consul.", "10.0.0.1")]), tcp);
      Resolution(m, "foo") == Success("<nil>:51885")
  {
    var other := [A("other.node.dc1.consul.", "10.0.0.1")];
    var fqdn := Fqdn("foo");
    MockUdpQuery(suffix, server, tcp, TestAnswer(), other, fqdn);
    assert FirstSrvAt(TestAnswer()) == 0;
    assert "other.node.dc1.consul."[0] != TestNode[0];
    assert !IsAFor(other[0], TestNode);
    assert FirstAFor(other, TestNode) == 1;
    Decimal51885();
    assert HostPort(None, 51885) == "<nil>:51885";
  }

  /** Every successful resolution is a dial address whose port is the first SRV
      record's, and whose host is the A record of that record's target when the
      additional section has one. */
  lemma ResolutionAddress(m: ConsulMatcher, serviceName: string)
    requires Resolution(m, serviceName).Success?
    ensures var q := DnsSrvQuery(m, Fqdn(serviceName));
      q.result.Success? &&
      var (ans, extra) := q.result.value;
      var i := FirstSrvAt(ans);
      i < |ans| &&
      var k := FirstAFor(extra, ans[i].target);
      SplitHostPort(Resolution(m, serviceName).value) ==
        Some((if k < |extra| then extra[k].ip else "<nil>", ans[i].port as nat))
  {
    var q := DnsSrvQuery(m, Fqdn(serviceName));
    var (ans, extra) := q.result.value;
    var i := FirstSrvAt(ans);
    var k := FirstAFor(extra, ans[i].target);
    if k < |extra| {
      HostPortRoundTrip(Some(extra[k].ip), ans[i].port);
    } else {
      HostPortRoundTrip(None, ans[i].port);
    }
  }

  /** consulMatcher.Lookup's decision: no match when the suffix does not select the
      hostname or the service cannot be resolved, otherwise a dial target for the
      resolved address. */
  function Decision(m: ConsulMatcher, hostname: string): (r: (bool, Option<Target>))
    ensures r.0 <==> Suffix.HasSuffix(m.matchSuffix, hostname).0 && Resolution(m, Suffix.HasSuffix(m.matchSuffix, hostname).1).Success?
    ensures r.0 ==> r.1 == Some(DialProxy(Resolution(m, Suffix.HasSuffix(m.matchSuffix, hostname).1).value))
    ensures !r.0 ==> r.1 == None
  {
    var (matched, serviceName) := Suffix.HasSuffix(m.matchSuffix, hostname);
    if !matched then (false, None)
    else
      var r := Resolution(m, serviceName);
      if r.Failure? then (false, None) else (true, Some(DialProxy(r.value)))
  }

  /** consulMatcher.Lookup. A hostname the suffix does not select is turned away
      before any exchange; otherwise the subdomain's service is resolved, and
      every resolver error becomes "no match". */
  method Lookup(m: ConsulMatcher, hostname: string) returns (ok: bool, target: Option<Target>, sent: seq<Exchange>)
    ensures (ok, target) == Decision(m, hostname)
    ensures ok ==> target.Some? && target.value.DialProxy?
    ensures !Suffix.HasSuffix(m.matchSuffix, hostname).0 ==> !ok && target == None && sent == []
    ensures Suffix.HasSuffix(m.matchSuffix, hostname).0 ==>
      sent == DnsSrvQuery(m, Fqdn(Suffix.HasSuffix(m.matchSuffix, hostname).1)).sent
  {
    var (matched, serviceName) := Suffix.HasSuffix(m.matchSuffix, hostname);
    ok := matched;
    if !ok {
      return false, None, [];
    }
    var r;
    r, sent := LookupDns(m, serviceName);
    if r.Failure? {
      return false, None, sent;
    }
    target := Some(DialProxy(r.value));
  }
}
