# Hostname routing for a TCP proxy, in Dafny

This project models how the proxy picks a target for a fresh connection from its hostname.
It has three parts:

- **Suffix matcher** (`suffix.dfy`, module `Suffix`). A configured domain suffix is
  normalised to exactly one leading `.`. A hostname matches only when it is a single
  label directly under that suffix, and that label is the subdomain. So `foo.localhost`
  matches `.localhost` with subdomain `foo`, and `foo.bar.localhost` does not match.
- **HTTP Host sniffing** (`bufio.dfy`, module `Bufio`; `http.dfy`, module `Http`). The
  sniffer grows a peek window over a buffered reader and never consumes a byte. The
  window stops growing once it reaches 4096 bytes, but the last read may overshoot: the
  buffer holds at most 4095 bytes plus one read's worth, or what it held before. A stream whose first byte is not an ASCII upper-case letter gets `""`
  at once. A window that holds the end of the header block (`\r\n\r\n` or `\n\n`, the
  empty line of section 3 of RFC 7230) goes to the request parser. More than one Host
  field gives `""`. When the stream ends or the bound is reached first, a scan for a
  `\nHost:` line, then a `\nhost:` line, decides.
- **Consul resolver and composed matchers** (`consul.dfy`, module `Consul`;
  `matchers.dfy`, module `Matchers`). The subdomain names a service. The resolver sends
  the SRV question `_<service>._tcp.consul.` (SRV records as in RFC 2782) over UDP. It
  repeats the question over TCP only when the UDP reply has the TC bit set (section
  4.1.1 of RFC 1035). The response code is then classified three ways. The address is
  `<ip>:<port>`: the port and target of the first SRV record of the answer section, and
  the first A record of the additional section owned by that target. Any resolver error
  makes the composed matcher answer "no match".

The reader is a class. `buf` holds the buffered bytes, `pending` the bytes the
connection will still deliver, and the ghost `Unread()` is their concatenation. `Peek`
may move bytes from `pending` into `buf`, but it keeps `Unread()` unchanged. The request
parser (`http.ReadRequest`) and the two DNS clients are passed in as function values, as
the test's mock client is. Each exchange a resolution puts on the wire is returned in a
`sent` list. That is how "TCP exactly when truncated" and "no query when the suffix does
not match" are stated. Go's `Matcher` function type becomes the tagged variant
`Matchers.Matcher`. Go strings are byte strings, so `Http.AsString` turns a sniffed host
into a `string` one character per byte.

## Model

| member | source | states |
|---|---|---|
| `Suffix.TrimLeftDots` | suffix.go:14 | the result does not start with `.`, and the input is that many dots followed by the result |
| `Suffix.NormalizeSuffix` | suffix.go:14 | the stored suffix has exactly one leading `.`, and after it comes the configured suffix without its leading dots |
| `Suffix.NormalizeIgnoresLeadingDots` | suffix.go:14 | any number of extra leading dots in the configuration gives the same normalised suffix |
| `Suffix.NormalizeIdempotent` | suffix.go:14 | normalising a normalised suffix changes nothing |
| `Suffix.NormalizeExamples` | suffix.go:14 | `localhost`, `.localhost` and `..localhost` all normalise to `.localhost` |
| `Suffix.NewSuffixMatcher` | suffix.go:13-16 | the stored suffix is the normalised configured suffix (exactly one leading `.`), and the target is the configured one |
| `Suffix.LocalhostMatcher` | suffix.go:13-16 | a matcher configured with `.localhost` keeps exactly that suffix |
| `Suffix.HasSuffix` | suffix.go:31-40 | on a match the subdomain is a non-empty label without `.`, and the label followed by the suffix is the hostname; otherwise the subdomain is `""` |
| `Suffix.HasSuffixComplete` | suffix.go:32-37 | every hostname that is a label followed by the suffix matches, with that label |
| `Suffix.HasSuffixIff` | suffix.go:31-40 | hasSuffix matches exactly the hostnames that are a single label followed by the suffix |
| `Suffix.DeeperOrEmptyPrefixRejected` | suffix.go:33-35 | a prefix that holds a `.`, or an empty prefix (the bare suffix), gives no match and `""` |
| `Suffix.Lookup` | suffix.go:23-29 | on a match the answer carries the configured target, otherwise no target |
| `Suffix.LookupIff` | suffix.go:23-29 | Lookup answers `(true, target)` exactly for the hostnames the suffix serves and `(false, nil)` for all others |
| `Suffix.LocalhostExamples` | suffix.go:31-39 | with suffix `.localhost` and any target, `foo.localhost` gives `foo`, while `foo.bar.localhost`, `localhost` and `.localhost` do not match |
| `Matchers.SuffixMatcher` | suffix.go:9-11 | builds a suffix rule whose suffix is the normalised configured suffix and whose target is the given one |
| `Matchers.ConsulMatcher` | consul.go:29-39 | builds a Consul rule from the normalised suffix with no fixed target, the given DNS address, and the given UDP and TCP clients |
| `Matchers.Decision` | consul.go:50-62 | a Consul rule decides as `consulMatcher.Lookup` and a suffix rule as `suffixMatcher.Lookup` (suffix.go:23-29); neither names a target when it reports no match |
| `Matchers.Lookup` | consul.go:50-62 | calling either kind of matcher gives its decision |
| `Matchers.DeclinesOutsideSuffix` | suffix.go:23-29 | both kinds decline every hostname outside their suffix, and the suffix rule accepts every hostname inside it with its target |
| `Matchers.ConsulAcceptsIff` | consul.go:50-62 | a Consul rule accepts exactly the served hostnames whose service resolves, and names `To(addr)` for the resolved address |
| `Matchers.SuffixMatcherRoutes` | suffix.go:9-40 | a configured suffix rule sends a hostname to its target exactly when the hostname is one label followed by the normalised suffix, however many leading dots the configuration has |
| `Matchers.LocalhostRule` | suffix.go:9-40 | configured as `localhost`, the rule sends `foo.localhost` to its target and turns `foo.bar.localhost` and `localhost` away |
| `Consul.Fqdn` | consul.go:93 | the query name is `_`, then the service, then `._tcp.consul.` |
| `Consul.FqdnRoundTrip` | consul.go:93 | the query name gives back the service, and only that service's name does |
| `Consul.SrvQuestion` | consul.go:65-66 | the query asks one question, for the SRV records of the name, with no records and no truncation flag |
| `Consul.DnsSrvQuery` | consul.go:64-90 | one or two exchanges of the same SRV question with the same server; UDP first; TCP exactly when the UDP reply arrived truncated; a transport error of the last exchange is returned as it is; otherwise Success returns the answer and extra sections, Name Error gives "non-existent name", and any other code gives "lookup failed" |
| `Consul.FirstSrvAt` | consul.go:105-112 | the position of the first SRV record of the answer section, or its length if there is none |
| `Consul.FirstAFor` | consul.go:119-128 | the position of the first A record owned by the node, or the section's length if there is none |
| `Consul.ScanAnswer` | consul.go:104-112 | the answer loop succeeds exactly when an SRV record exists, and then yields the first SRV record's port and target |
| `Consul.ScanExtra` | consul.go:118-128 | the additional loop as written: on a matching A record it yields the first one's address; without one the host stays unset, and `ok` is true exactly when the section ends with an A record |
| `Consul.ScanExtraStrict` | consul.go:118-132 | corrected loop: success exactly when an A record owned by the node exists, and then the first one's address |
| `Consul.Decimal` | consul.go:134 | the port prints as one or more decimal digits with no leading zero |
| `Consul.DecimalRoundTrip` | consul.go:134 | the printed digits give back the port |
| `Consul.LastColon` | consul.go:134 | the last `:` of a string, with none after it, or none at all |
| `Consul.LastColonAt` | consul.go:134 | a `:` with none after it is the last one |
| `Consul.IpText` | consul.go:134 | a set address prints as its text, the unset address as `<nil>` |
| `Consul.HostPort` | consul.go:134 | the address is the host text, then a `:` that is the last one, then the port in decimal |
| `Consul.HostPortRoundTrip` | consul.go:134 | the formatted `<ip>:<port>` splits at its last `:` back into the host text and the port |
| `Consul.LookupDns` | consul.go:92-135 | lookupDns gives the query's error; "no valid SRV record" without an SRV record; otherwise the address of the first SRV record's port with the first matching A record's host, or the unset host when the section ends with a non-matching A record, or "no valid A record"; it sends exactly what the query sends |
| `Consul.Resolution` | consul.go:92-135 | a query error is passed on as it is; after a successful query the only errors are "no valid SRV record" and "no valid A record" for the query name and answer section; a success is an address whose port is the first SRV record's |
| `Consul.ResolutionAddress` | consul.go:104-134 | every successful resolution splits into the host of the target's first A record (or `<nil>`) and the port of the first SRV record |
| `Consul.Decision` | consul.go:50-62 | a hostname matches exactly when the suffix selects it and its service resolves; the target is then `To(addr)` for the resolved address, and there is no target otherwise |
| `Consul.Lookup` | consul.go:50-62 | a hostname outside the suffix gets `(false, nil)` without any exchange; otherwise it sends the service's query, and any resolver error gives `(false, nil)` while success gives `(true, To(addr))` |
| `Consul.Decimal51885` | consul.go:134 | port 51885 prints as `51885` |
| `Consul.MockUdpQuery` | consul_test.go:21-38 | a mock reply that is neither truncated nor an error ends the query after one UDP exchange with the mock's sections |
| `Consul.TestSectionsResolve` | consul_test.go:56-63 | the test's answer and additional sections resolve to `127.0.0.1:51885` |
| `Consul.UdpScenario` | consul_test.go:56-63 | one UDP exchange with the test's SRV, A and TXT records resolves to `127.0.0.1:51885` |
| `Consul.TruncatedScenario` | consul.go:73-78 | a truncated UDP reply is followed by the same query over TCP, and the address comes from the TCP reply |
| `Consul.NameErrorScenario` | consul.go:84-86 | a Name Error reply gives the non-existent-name error for `_foo._tcp.consul.` |
| `Consul.ComposedScenario` | consul_test.go:50-70 | with suffix `.localhost`, `foo.localhost` gets the target for `127.0.0.1:51885` and `foo.bar.localhost` gets no match |
| `Consul.NonMatchingLastARecordAccepted` | consul.go:118-134 | as written, an additional section that ends with another node's A record resolves to `<nil>:51885` and not to an error |
| `Bufio.Reader.Peek` | http.go:66 | peeking keeps the unread bytes; it returns the next n of them, or all that remain with an error when fewer exist; the buffer only grows, and only as far as needed |
| `Bufio.Reader.Buffered` | http.go:63-67 | the buffered count is the number of unread bytes already buffered, and they are the next unread bytes |
| `Http.IndexFrom` | http.go:77 | the first position from a given one on where the pattern occurs, or -1 when there is none |
| `Http.Index` | http.go:77 | bytes.Index gives the first position where the pattern occurs, or -1 when it occurs nowhere |
| `Http.UntilEol` | http.go:118-123 | untilEOL gives the prefix of its input before the first newline; it holds no newline, and it is the whole input when there is no newline |
| `Http.TrimLeftSpace` | http.go:108 | the result is what follows the leading white space of the input |
| `Http.TrimRightSpace` | http.go:108 | the result is what precedes the trailing white space of the input |
| `Http.TrimSpace` | http.go:108 | the result neither starts nor ends with ASCII white space |
| `Http.TrimSpaceCut` | http.go:108 | the result is a run of the input with only white space before and after it |
| `Http.LineAfter` | http.go:108 | the result is the rest of the line cut where its leading white space ends, with only white space after it; it holds no newline and does not start or end with white space |
| `Http.HostHeaderFromBytes` | http.go:106-114 | the scan returns one line without a newline and without white space at either end |
| `Http.HostLineFound` | http.go:106-108 | the first `\nHost:` decides, wherever a `\nhost:` line may stand: the result is the trimmed rest of its line |
| `Http.LowerHostLineFound` | http.go:110-111 | the first `\nhost:` decides only when `\nHost:` occurs nowhere |
| `Http.NoHostLine` | http.go:113 | without either field name the scan gives `""` |
| `Http.FirstLineNeverFound` | http.go:98-99 | bytes without a newline, such as a Host field on the first line, give `""` |
| `Http.ParsedHost` | http.go:78-88 | a parse error or more than one Host field gives `""`; otherwise the result is the parsed host |
| `Http.Answer` | http.go:71-93 | a stream that does not start with an upper-case letter gives `""`; a window with a header end gives the parser's outcome; any other window gives a single line without white space at either end |
| `Http.PeekWindow` | http.go:66-70 | a peek keeps the unread bytes, makes the window the whole buffer, and reports an error exactly when the stream is shorter than the requested size; the buffer only grows, and only as far as needed |
| `Http.SniffRound` | http.go:60-93 | one round of the loop keeps the unread bytes; when it answers, the answer is the whole buffer's and the buffer is settled; otherwise the window grew to the whole buffer, which starts like a request and has no header end; the buffer only grows, only from an unsettled buffer and by at most one read, and never past 4095 bytes plus one read (or its old size); a stream that does not start like a request is answered in the first round |
| `Http.HttpHostHeader` | http.go:57-95 | the unread bytes are unchanged; the answer comes from the whole final buffer: `""` for a non-upper-case first byte, the parser's outcome when the buffer holds the end of the header block, the line scan otherwise; the final buffer is settled (header end, 4096 bytes, or end of stream) and holds at most 4095 bytes plus one read (or its old size); it stops at the first settled buffer: when the buffer grew, the last read started from an unsettled buffer and read at most one chunk; a non-HTTP stream is answered after one fill at most |
| `Http.SniffTwice` | http.go:55-56 | sniffing the same stream twice gives the same host |
| `Http.AsString` | http.go:49 | the hostname has one character per sniffed byte |
| `Http.HostMatch` | http.go:48-53 | the unread bytes are unchanged; the target is the matcher's for the host sniffed from the final buffer on a match and none otherwise; that buffer is settled, holds at most 4095 bytes plus one read (or its old size), and was reached by stopping at the first settled buffer |
| `Http.Latin1` | http.go:49 | a string of 8-bit characters turned into bytes gives back the same string under `string(b)` |
| `Http.TestRequestAnswer` | http.go:71-93 | for the request `GET / HTTP/1.1` with `Host: foo.localhost`, every buffer the sniffer can settle on answers `foo.localhost`, whatever the read size |
| `Http.ComposedHostMatch` | consul_test.go:50-70 | the test request is sniffed with any read size and put to the Consul matcher for `.localhost` with the test's mock replies; it goes to `127.0.0.1:51885` |

## Left out

- `HttpRedirect`, `AddHTTPHostRoute` and `AddHTTPHostMatcher` are left out. They serve HTTP and register routes on a proxy engine that is not part of this model.
- `http.ReadRequest` is a library parser. It is the function value `Http.Parser`, which reports a parse error or the Host-field count and the host.
- The buffer-size limit of `bufio.Reader` is left out. Peeking past the buffer gives `ErrBufferFull` in Go, but the default buffer is 4096 bytes, the same as the bound. The model's buffer is unbounded.
- `Bufio.Reader.Peek`: each read from the connection moves `min(chunk, |pending|)` bytes into the buffer, with `chunk` fixed per reader. A real read may return any number of bytes.
- `Http.TrimSpace` trims ASCII white space only. `bytes.TrimSpace` trims every rune for which `unicode.IsSpace` holds, so it also trims the UTF-8 encodings of U+0085, U+00A0, U+1680, U+2000 to U+200A, U+2028, U+2029, U+202F, U+205F and U+3000.
- `Suffix.HasSuffix`: the suffix and the hostname are sequences of characters, and a sniffed hostname has one character per byte. Go compares the UTF-8 bytes of both, so the two agree only for ASCII suffixes and hostnames.
- `Http.HostMatch` takes the matcher's results in the order of `suffixMatcher.Lookup` and `consulMatcher.Lookup`: `(ok, target)`. http.go:49 binds them in the order `target, ok`.
- `Http.ParsedHost`: Go's `http.ReadRequest` moves the Host field out of `req.Header`, so the check at http.go:82 cannot fire with the real parser. The parser here is abstract, so that branch stays reachable.
- The DNS network exchange, the wire encoding of messages, `dns.NewRR` parsing, the message ID, the question class (`ClassINET`) and the recursion-desired flag set by `SetQuestion` are left out. Messages are datatypes and the clients are function values, so a client gives the same reply to the same query.
- `net.IP` rendering is left out. An A record's address is kept as its text, and the unset address prints as `<nil>`.
- Error messages are structured values (`Consul.DnsError`) rather than formatted text. They keep the query name and, for the record errors, the answer section that the message prints.
- `context` cancellation and timeouts are left out. The context is only passed through.
- The `log.Printf` at consul.go:57 is left out.
- `To`, `Target` and `DialProxy` are opaque here. `To(addr)` is the `DialProxy(addr)` target.
- The commented-out target cache is not modelled.
- `crlf` and `lf` are declared in http.go but unused. They are kept as constants.
- `Consul.ScanExtra` and `Consul.LookupDns` keep the code as written, not the corrected scan. The composed matcher therefore has the behaviour of the Findings row below.

## Findings

| source | as written | input that shows it | evidently intended | confidence | as-written member | corrected member |
|---|---|---|---|---|---|---|
| consul.go:118-132 | `ok` is overwritten by the type test of every additional record, so after the loop it only says whether the last record was an A record | answer `[SRV 1 1 51885 MacBook-Pro.local.node.dc1.consul.]`, additional `[A other.node.dc1.consul. 10.0.0.1]`: lookupDns returns `<nil>:51885` and no error | "no valid A record" unless an A record owned by the SRV target exists | high, not executed | `Consul.NonMatchingLastARecordAccepted` | `Consul.ScanExtraStrict` |
