/** HTTP Host sniffing: find the Host of an HTTP/1.x request at the head of a
    connection without consuming any of its bytes, so that the request can still be
    forwarded as it arrived. A window over the buffered bytes grows up to 4096
    bytes; once it holds the empty line that ends the header block (section 3 of
    RFC 7230) it goes to a request parser, otherwise a line scan for "\nHost:" or
    "\nhost:" decides. */
module Http {
  import opened Base
  import opened Bufio
  import Matchers
  import Suffix
  import Consul

  /** The largest window worth peeking at (4 << 10). */
  const MaxPeek: nat := 4096

  const NewLine: byte := 10

  /** "\nHost:" and "\nhost:", the line-anchored header names the scan looks for. */
  const LfHostColon: seq<byte> := [10, 72, 111, 115, 116, 58]
  const LfhostColon: seq<byte> := [10, 104, 111, 115, 116, 58]
  /** "\r\n" and "\n". */
  const CrLf: seq<byte> := [13, 10]
  const Lf: seq<byte> := [10]
  /** "\r\n\r\n" and "\n\n": an empty line, the end of the header block. */
  const CrLfCrLf: seq<byte> := [13, 10, 13, 10]
  const LfLf: seq<byte> := [10, 10]

  // ---------------------------------------------------------------------------
  // Searching bytes

  /** `pat` occurs in `s` starting at position `i`. */
  predicate OccursAt(s: seq<byte>, pat: seq<byte>, i: int)
  {
    0 <= i && i + |pat| <= |s| && s[i..i + |pat|] == pat
  }

  /** The first position from `k` on where `pat` occurs, or -1 when it occurs
      nowhere from `k` on. */
  function IndexFrom(s: seq<byte>, pat: seq<byte>, k: nat): (i: int)
    ensures i == -1 || (k <= i && OccursAt(s, pat, i))
    ensures forall j :: k <= j && (i == -1 || j < i) ==> !OccursAt(s, pat, j)
    decreases |s| - k
  {
    if k + |pat| > |s| then -1
    else if s[k..k + |pat|] == pat then k
    else IndexFrom(s, pat, k + 1)
  }

  /** bytes.Index: the first position where `pat` occurs, or -1 when it occurs nowhere. */
  function Index(s: seq<byte>, pat: seq<byte>): (i: int)
    ensures i == -1 || OccursAt(s, pat, i)
    ensures forall j :: 0 <= j && (i == -1 || j < i) ==> !OccursAt(s, pat, j)
  {
    IndexFrom(s, pat, 0)
  }

  /** The first occurrence is the one Index reports. */
  lemma IndexIsFirst(s: seq<byte>, pat: seq<byte>, i: int)
    requires OccursAt(s, pat, i)
    requires forall j :: 0 <= j < i ==> !OccursAt(s, pat, j)
    ensures Index(s, pat) == i
  {
    var k := Index(s, pat);
    assert k != -1 && !(k < i) && !(i < k);
  }

  function Contains(s: seq<byte>, pat: seq<byte>): bool
  {
    Index(s, pat) != -1
  }

  /** untilEOL: the bytes before the first newline, or all of them when there is
      none. The result may end in a carriage return. */
  function UntilEol(v: seq<byte>): (r: seq<byte>)
    ensures r <= v && NewLine !in r
    ensures |r| < |v| ==> v[|r|] == NewLine
    ensures NewLine !in v ==> r == v
  {
    var i := Index(v, [NewLine]);
    if i != -1 then
      assert forall j :: 0 <= j < i ==> !OccursAt(v, [NewLine], j);
      assert forall j :: 0 <= j < i ==> v[j] != NewLine by {
        forall j | 0 <= j < i ensures v[j] != NewLine {
          assert !OccursAt(v, [NewLine], j);
          assert v[j..j + 1] == [v[j]];
        }
      }
      assert v[i..i + 1] == [NewLine];
      v[..i]
    else
      assert forall j :: 0 <= j < |v| ==> v[j] != NewLine by {
        forall j | 0 <= j < |v| ensures v[j] != NewLine {
          assert !OccursAt(v, [NewLine], j);
          assert v[j..j + 1] == [v[j]];
        }
      }
      v
  }

  // ---------------------------------------------------------------------------
  // Trimming white space

  /** ASCII white space as bytes.TrimSpace sees it: tab, newline, vertical tab,
      form feed, carriage return and space. */
  predicate IsSpace(c: byte)
  {
    c == 9 || c == 10 || c == 11 || c == 12 || c == 13 || c == 32
  }

  /** Every byte of `b` from position `lo` up to (not including) `hi` is white space. */
  predicate SpaceBetween(b: seq<byte>, lo: int, hi: int)
  {
    forall k :: 0 <= lo <= k < hi <= |b| ==> IsSpace(b[k])
  }

  /** Cut the white space off the front: the result is a suffix of `b` and
      everything before it is white space. */
  function TrimLeftSpace(b: seq<byte>): (r: seq<byte>)
    ensures |r| <= |b| && r == b[|b| - |r|..] && SpaceBetween(b, 0, |b| - |r|)
    ensures r == [] || !IsSpace(r[0])
  {
    if b != [] && IsSpace(b[0]) then
      var r := TrimLeftSpace(b[1..]);
      assert forall k :: 1 <= k < |b| ==> b[k] == b[1..][k - 1];
      r
    else
      b
  }

  /** Cut the white space off the back: the result is a prefix of `b` and
      everything after it is white space. */
  function TrimRightSpace(b: seq<byte>): (r: seq<byte>)
    ensures r <= b && SpaceBetween(b, |r|, |b|)
    ensures r == [] || !IsSpace(r[|r| - 1])
  {
    if b != [] && IsSpace(b[|b| - 1]) then
      var r := TrimRightSpace(b[..|b| - 1]);
      assert forall k :: 0 <= k < |b| - 1 ==> b[k] == b[..|b| - 1][k];
      r
    else
      b
  }

  /** `r` is `b` with the white space at its ends cut off at position `i`. */
  predicate TrimmedAt(b: seq<byte>, r: seq<byte>, i: int)
  {
    0 <= i && i + |r| <= |b| && r == b[i..i + |r|] && SpaceBetween(b, 0, i) && SpaceBetween(b, i + |r|, |b|)
  }

  /** bytes.TrimSpace over ASCII: a run of `b` that neither starts nor ends with
      white space. */
  function TrimSpace(b: seq<byte>): (r: seq<byte>)
    ensures |r| <= |b|
    ensures r == [] || (!IsSpace(r[0]) && !IsSpace(r[|r| - 1]))
  {
    TrimRightSpace(TrimLeftSpace(b))
  }

  /** Only white space is removed, and only from the two ends: the result is the
      run of `b` that starts where the leading white space ends. */
  lemma TrimSpaceCut(b: seq<byte>)
    ensures TrimmedAt(b, TrimSpace(b), |b| - |TrimLeftSpace(b)|)
  {
    var left := TrimLeftSpace(b);
    TrimmedAtCut(b, left, TrimRightSpace(left));
  }

  /** A run cut from the right of a left-trimmed `b` is cut from `b` itself. */
  lemma TrimmedAtCut(b: seq<byte>, left: seq<byte>, r: seq<byte>)
    requires |left| <= |b| && left == b[|b| - |left|..] && SpaceBetween(b, 0, |b| - |left|)
    requires r <= left && SpaceBetween(left, |r|, |left|)
    ensures TrimmedAt(b, r, |b| - |left|)
  {
    var i := |b| - |left|;
    assert forall k :: 0 <= k < |left| ==> left[k] == b[i + k];
    assert r == b[i..i + |r|];
  }

  // ---------------------------------------------------------------------------
  // The line scan

  /** The trimmed rest of the line that starts at position `k`: one line, without
      white space at either end, cut from that line where its leading white space
      ends, with only white space after it. */
  function LineAfter(b: seq<byte>, k: nat): (r: seq<byte>)
    requires k <= |b|
    ensures var v := UntilEol(b[k..]); TrimmedAt(v, r, |v| - |TrimLeftSpace(v)|)
    ensures NewLine !in r
    ensures r == [] || (!IsSpace(r[0]) && !IsSpace(r[|r| - 1]))
  {
    var v := UntilEol(b[k..]);
    TrimSpaceCut(v);
    RunWithout(v, TrimSpace(v), |v| - |TrimLeftSpace(v)|);
    TrimSpace(v)
  }

  /** A run cut from bytes without a newline has no newline either. */
  lemma RunWithout(v: seq<byte>, r: seq<byte>, i: int)
    requires TrimmedAt(v, r, i) && NewLine !in v
    ensures NewLine !in r
  {
    assert forall t :: 0 <= t < |r| ==> r[t] == v[i + t];
  }

  /** A single line without white space at either end. */
  predicate OneTrimmedLine(r: seq<byte>)
  {
    NewLine !in r && (r == [] || (!IsSpace(r[0]) && !IsSpace(r[|r| - 1])))
  }

  /** httpHostHeaderFromBytes: the value of the first "\nHost:" line, else of the
      first "\nhost:" line, else nothing. Whatever it returns is a single line
      without white space at either end. */
  function HostHeaderFromBytes(b: seq<byte>): (h: seq<byte>)
    ensures OneTrimmedLine(h)
  {
    var i := Index(b, LfHostColon);
    if i != -1 then LineAfter(b, i + |LfHostColon|)
    else
      var j := Index(b, LfhostColon);
      if j != -1 then LineAfter(b, j + |LfhostColon|) else []
  }

  /** The capitalised field wins wherever it is: its first occurrence decides,
      whatever lower-case lines come before it. */
  lemma HostLineFound(b: seq<byte>, i: nat)
    requires OccursAt(b, LfHostColon, i)
    requires forall j :: 0 <= j < i ==> !OccursAt(b, LfHostColon, j)
    ensures HostHeaderFromBytes(b) == LineAfter(b, i + |LfHostColon|)
  {
    IndexIsFirst(b, LfHostColon, i);
  }

  /** The lower-case field counts only when the capitalised one occurs nowhere. */
  lemma LowerHostLineFound(b: seq<byte>, i: nat)
    requires forall j :: 0 <= j ==> !OccursAt(b, LfHostColon, j)
    requires OccursAt(b, LfhostColon, i)
    requires forall j :: 0 <= j < i ==> !OccursAt(b, LfhostColon, j)
    ensures HostHeaderFromBytes(b) == LineAfter(b, i + |LfhostColon|)
  {
    IndexIsFirst(b, LfhostColon, i);
    var k := Index(b, LfHostColon);
    assert k == -1 || OccursAt(b, LfHostColon, k);
  }

  /** Without either field the scan finds nothing. */
  lemma NoHostLine(b: seq<byte>)
    requires forall j :: 0 <= j ==> !OccursAt(b, LfHostColon, j) && !OccursAt(b, LfhostColon, j)
    ensures HostHeaderFromBytes(b) == []
  {
    assert Index(b, LfHostColon) == -1 by {
      var k := Index(b, LfHostColon);
      assert k == -1 || OccursAt(b, LfHostColon, k);
    }
    assert Index(b, LfhostColon) == -1 by {
      var k := Index(b, LfhostColon);
      assert k == -1 || OccursAt(b, LfhostColon, k);
    }
  }

  /** Both field names are anchored by a preceding newline, so a Host field on the
      very first line, or in bytes without any newline, is never found. */
  lemma FirstLineNeverFound(b: seq<byte>)
    requires NewLine !in b
    ensures HostHeaderFromBytes(b) == []
  {
    forall j | 0 <= j
      ensures !OccursAt(b, LfHostColon, j) && !OccursAt(b, LfhostColon, j)
    {
      if j + |LfHostColon| <= |b| {
        assert b[j] in b;
        assert b[j..j + |LfHostColon|][0] == b[j];
      }
    }
    NoHostLine(b);
  }

  // ---------------------------------------------------------------------------
  // The peek loop

  /** What the request parser (http.ReadRequest) reports of a complete header
      block: how many Host fields it holds and the request's host. */
  datatype Request = Request(hostFields: nat, host: seq<byte>)

  /** The request parser, passed in: nothing when the bytes do not parse. */
  type Parser = seq<byte> -> Option<Request>

  /** The outcome of parsing a complete header block: nothing on a parse error or
      on more than one Host field, the parsed host otherwise. */
  function ParsedHost(parse: Parser, window: seq<byte>): (h: seq<byte>)
    ensures parse(window).None? ==> h == []
    ensures parse(window).Some? && parse(window).value.hostFields > 1 ==> h == []
    ensures parse(window).Some? && parse(window).value.hostFields <= 1 ==> h == parse(window).value.host
  {
    match parse(window)
    case None => []
    case Some(req) => if req.hostFields > 1 then [] else req.host
  }

  predicate IsUpper(c: byte)
  {
    'A' as int <= c as int <= 'Z' as int
  }

  /** A stream that may hold an HTTP request: empty, or starting with an ASCII
      upper-case letter as every request method does. */
  predicate MayBeHttp(s: seq<byte>)
  {
    s == [] || IsUpper(s[0])
  }

  /** The header block is complete: the window holds an empty line. */
  predicate HasHeaderEnd(w: seq<byte>)
  {
    Contains(w, CrLfCrLf) || Contains(w, LfLf)
  }

  /** The answer a window of buffered bytes gives: "" when it does not start like
      a request; the parser's outcome when it holds the end of the header block;
      the line scan's otherwise. */
  function Answer(parse: Parser, w: seq<byte>): (r: seq<byte>)
    ensures !MayBeHttp(w) ==> r == []
    ensures MayBeHttp(w) && HasHeaderEnd(w) ==> r == ParsedHost(parse, w)
    ensures MayBeHttp(w) && !HasHeaderEnd(w) ==> OneTrimmedLine(r)
  {
    if w != [] && !IsUpper(w[0]) then []
    else if HasHeaderEnd(w) then ParsedHost(parse, w)
    else HostHeaderFromBytes(w)
  }

  /** A buffer the sniffer has no reason to grow: it does not start like a
      request, or it holds the end of the header block, or it has reached the
      4096-byte bound, or the stream has ended. */
  predicate Settled(buf: seq<byte>, pending: seq<byte>)
  {
    (buf != [] && !IsUpper(buf[0])) || HasHeaderEnd(buf) || |buf| >= MaxPeek || pending == []
  }

  /** One step of httpHostHeader's window: peek `size` bytes, then widen the
      window to everything buffered. The window is the whole buffer afterwards;
      the error is the first peek's, set when the stream holds fewer than `size`
      bytes. */
  method PeekWindow(br: Reader, size: nat) returns (b: seq<byte>, err: bool, newSize: nat)
    requires br.Valid()
    modifies br
    ensures br.Valid() && br.Unread() == old(br.Unread())
    ensures b == br.buf && newSize == Max(size, |br.buf|)
    ensures err <==> size > |br.Unread()|
    ensures old(br.buf) <= br.buf
    ensures size <= |old(br.buf)| || old(br.pending) == [] ==> br.buf == old(br.buf)
    ensures |br.buf| >= size || br.pending == []
    ensures |br.buf| <= Max(|old(br.buf)|, size - 1 + br.chunk)
  {
    b, err := br.Peek(size);
    newSize := size;
    var n := br.Buffered();
    if n > size {
      var ignored;
      b, ignored := br.Peek(n);
      newSize := n;
    }
  }

  /** The state httpHostHeader's loop keeps between rounds: nothing peeked yet,
      or a window that is the whole buffer, starts like a request and has no
      header end yet. */
  predicate Between(buf: seq<byte>, peekSize: nat)
  {
    peekSize > 0 ==> peekSize == |buf| && !HasHeaderEnd(buf) && MayBeHttp(buf)
  }

  /** The read that last grew a buffer over the unread bytes `s`, now `n` bytes
      long, started from the first `j` of them, which were unsettled, and it read
      at most one chunk. */
  ghost predicate LastReadFrom(s: seq<byte>, j: int, n: nat, chunk: nat)
  {
    0 <= j < n <= j + chunk && n <= |s| && !Settled(s[..j], s[j..])
  }

  /** One round of httpHostHeader's loop: widen the window by one byte (or, past
      the bound, take the whole buffer) and decide whether it answers. When it
      does, the answer is the whole buffer's and the buffer is settled; when it
      does not, the window grew and the loop goes on. A settled buffer is not
      grown, and a stream that does not start like a request is answered in the
      first round. */
  method SniffRound(br: Reader, parse: Parser, peekSize: nat) returns (done: bool, h: seq<byte>, newSize: nat)
    requires br.Valid() && peekSize <= |br.buf| && Between(br.buf, peekSize)
    modifies br
    ensures br.Valid() && br.Unread() == old(br.Unread())
    ensures done ==> h == Answer(parse, br.buf) && Settled(br.buf, br.pending)
    ensures !done ==> peekSize < MaxPeek && peekSize < newSize <= |br.buf| && Between(br.buf, newSize)
    ensures Settled(old(br.buf), old(br.pending)) ==> br.buf == old(br.buf)
    ensures |br.buf| <= Max(|old(br.buf)|, MaxPeek - 1 + br.chunk)
    ensures |old(br.buf)| <= |br.buf|
    ensures |br.buf| > |old(br.buf)| ==>
      !Settled(old(br.buf), old(br.pending)) && |br.buf| <= |old(br.buf)| + br.chunk
    ensures !MayBeHttp(br.Unread()) && peekSize == 0 ==>
      done && h == [] && |br.buf| <= Max(|old(br.buf)|, br.chunk)
  {
    newSize := peekSize + 1;
    if newSize > MaxPeek {
      var b, _ := br.Peek(br.Buffered());
      return true, HostHeaderFromBytes(b), newSize;
    }
    var b, err;
    b, err, newSize := PeekWindow(br, newSize);
    if |b| > 0 {
      if b[0] < 'A' as int as byte || b[0] > 'Z' as int as byte {
        return true, [], newSize;
      }
      if Contains(b, CrLfCrLf) || Contains(b, LfLf) {
        var req := parse(b);
        if req.None? {
          return true, [], newSize;
        }
        if req.value.hostFields > 1 {
          return true, [], newSize;
        }
        return true, req.value.host, newSize;
      }
    }
    if err {
      return true, HostHeaderFromBytes(b), newSize;
    }
    done, h := false, [];
  }

  /** httpHostHeader. It only peeks: the reader's unread bytes are the same
      afterwards. It leaves the buffer settled and answers from the whole buffer,
      and it grows a buffer only while it is unsettled. A stream that starts with
      anything but an upper-case letter gives "" after the reader's first fill at
      most. */
  method HttpHostHeader(br: Reader, parse: Parser) returns (h: seq<byte>)
    requires br.Valid()
    modifies br
    ensures br.Valid() && br.Unread() == old(br.Unread())
    ensures h == Answer(parse, br.buf)
    ensures Settled(br.buf, br.pending)
    ensures Settled(old(br.buf), old(br.pending)) ==> br.buf == old(br.buf)
    ensures |br.buf| <= Max(|old(br.buf)|, MaxPeek - 1 + br.chunk)
    ensures |old(br.buf)| <= |br.buf|
    ensures |br.buf| > |old(br.buf)| ==>
      exists j :: |old(br.buf)| <= j && LastReadFrom(br.Unread(), j, |br.buf|, br.chunk)
    ensures !MayBeHttp(br.Unread()) ==> h == [] && |br.buf| <= Max(|old(br.buf)|, br.chunk)
  {
    var peekSize := 0;
    var done;
    ghost var before, rest := br.buf, br.pending;
    ghost var pre := |br.buf|;
    done, h, peekSize := SniffRound(br, parse, peekSize);
    if |br.buf| > |before| {
      pre := |before|;
      assert br.Unread()[..pre] == before && br.Unread()[pre..] == rest;
    }
    while !done
      invariant br.Valid() && br.Unread() == old(br.Unread())
      invariant done ==> h == Answer(parse, br.buf) && Settled(br.buf, br.pending)
      invariant !done ==> 0 < peekSize <= |br.buf| && Between(br.buf, peekSize)
      invariant Settled(old(br.buf), old(br.pending)) ==> br.buf == old(br.buf)
      invariant |br.buf| <= Max(|old(br.buf)|, MaxPeek - 1 + br.chunk)
      invariant |old(br.buf)| <= |br.buf|
      invariant |br.buf| > |old(br.buf)| ==>
        |old(br.buf)| <= pre && LastReadFrom(br.Unread(), pre, |br.buf|, br.chunk)
      invariant !MayBeHttp(br.Unread()) ==> done && h == [] && |br.buf| <= Max(|old(br.buf)|, br.chunk)
      decreases !done, if peekSize <= MaxPeek then MaxPeek + 1 - peekSize else 0
    {
      before, rest := br.buf, br.pending;
      done, h, peekSize := SniffRound(br, parse, peekSize);
      if |br.buf| > |before| {
        pre := |before|;
        assert br.Unread()[..pre] == before && br.Unread()[pre..] == rest;
      }
    }
  }

  /** Sniffing twice gives the same host: the first call leaves a settled buffer,
      which the second call neither grows nor answers differently. */
  method SniffTwice(br: Reader, parse: Parser) returns (first: seq<byte>, second: seq<byte>)
    requires br.Valid()
    modifies br
    ensures br.Unread() == old(br.Unread())
    ensures first == second
  {
    first := HttpHostHeader(br, parse);
    second := HttpHostHeader(br, parse);
  }

  /** Go's string(b): one character per byte. */
  function AsString(b: seq<byte>): (s: string)
    ensures |s| == |b| && forall k :: 0 <= k < |b| ==> s[k] as int == b[k] as int
  {
    seq(|b|, k requires 0 <= k < |b| => b[k] as int as char)
  }

  /** httpHostMatch.match: sniff the Host without consuming anything and ask the
      matcher; its target on a match, none otherwise. A non-HTTP stream is put to
      the matcher as the empty hostname. */
  method HostMatch(br: Reader, parse: Parser, m: Matchers.Matcher) returns (target: Option<Target>)
    requires br.Valid()
    modifies br
    ensures br.Valid() && br.Unread() == old(br.Unread())
    ensures var d := Matchers.Decision(m, AsString(Answer(parse, br.buf)));
      target == if d.0 then d.1 else None
    ensures Settled(br.buf, br.pending)
    ensures Settled(old(br.buf), old(br.pending)) ==> br.buf == old(br.buf)
    ensures |br.buf| <= Max(|old(br.buf)|, MaxPeek - 1 + br.chunk)
    ensures |old(br.buf)| <= |br.buf|
    ensures |br.buf| > |old(br.buf)| ==>
      exists j :: |old(br.buf)| <= j && LastReadFrom(br.Unread(), j, |br.buf|, br.chunk)
    ensures !MayBeHttp(br.Unread()) ==> target == (if Matchers.Decision(m, "").0 then Matchers.Decision(m, "").1 else None)
  {
    var h := HttpHostHeader(br, parse);
    var ok, t := Matchers.Lookup(m, AsString(h));
    if ok {
      return t;
    }
    return None;
  }

  // ---------------------------------------------------------------------------
  // The composed route: a sniffed Host resolved through Consul

  /** The bytes of a string of 8-bit characters, one byte per character. */
  function Latin1(s: string): (b: seq<byte>)
    requires forall k :: 0 <= k < |s| ==> s[k] as int < 256
    ensures AsString(b) == s
  {
    seq(|s|, k requires 0 <= k < |s| => s[k] as int as byte)
  }

  /** A request for foo.localhost whose header block ends with the stream. */
  function TestRequest(): seq<byte>
  {
    Latin1("GET / HTTP/1.1\r\nHost: foo.localhost") + CrLfCrLf
  }

  function FooLocalhost(): seq<byte>
  {
    Latin1("foo.localhost")
  }

  /** A parser in the manner of http.ReadRequest on the test request: every prefix
      of it that holds the end of the header block reads as one Host field
      naming foo.localhost. */
  ghost predicate ReadsTestRequest(parse: Parser)
  {
    forall w :: w <= TestRequest() && HasHeaderEnd(w) ==> parse(w) == Some(Request(1, FooLocalhost()))
  }

  /** Whatever the reader's read size, a buffer the sniffer settles on while
      reading the test request answers foo.localhost: only a buffer holding the
      header end, or the whole request, is settled. */
  lemma TestRequestAnswer(parse: Parser, buf: seq<byte>, pending: seq<byte>)
    requires ReadsTestRequest(parse)
    requires buf + pending == TestRequest() && Settled(buf, pending)
    ensures Answer(parse, buf) == FooLocalhost()
  {
    var req := TestRequest();
    assert buf <= req && |buf| <= |req|;
    assert req[0] == 'G' as int as byte;
    if buf != [] {
      assert buf[0] == req[0];
    }
    if !HasHeaderEnd(buf) {
      assert pending == [] && buf == req;
      assert req[|req| - 4..] == CrLfCrLf;
      assert OccursAt(req, CrLfCrLf, |req| - 4);
    }
  }

  /** The composed test scenario end to end: the sniffed Host of the test request,
      put to the Consul matcher for ".localhost" with the test's mock DNS replies,
      is routed to 127.0.0.1:51885, whatever the reader's read size. */
  method ComposedHostMatch(parse: Parser, server: string, tcp: Consul.Client, readSize: nat)
    returns (target: Option<Target>)
    requires readSize >= 1 && ReadsTestRequest(parse)
    ensures target == Some(DialProxy("127.0.0.1:51885"))
  {
    var br := new Reader([], TestRequest(), readSize);
    var udp := Consul.MockClient(false, Consul.RcodeSuccess, Consul.TestAnswer(), Consul.TestExtra());
    var m := Matchers.ConsulMatcher(".localhost", server, udp, tcp);
    target := HostMatch(br, parse, m);
    TestRequestAnswer(parse, br.buf, br.pending);
    Suffix.LocalhostMatcher();
    Consul.ComposedScenario(server, tcp);
  }
}
