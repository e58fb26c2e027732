/** The suffix matcher: a configured domain suffix, normalised to exactly one
    leading '.', that accepts a hostname when it is a single label directly under
    that suffix, and hands back that label (the subdomain). */
module Suffix {
  import opened Base

  /** `k` dots in a row. */
  function Dots(k: nat): (d: string)
    ensures |d| == k
    ensures forall i :: 0 <= i < k ==> d[i] == '.'
  {
    if k == 0 then "" else "." + Dots(k - 1)
  }

  /** strings.TrimLeft(s, "."): drop every leading '.'. What is left starts with
      something else (or is empty), and the input is that many dots followed by it. */
  function TrimLeftDots(s: string): (r: string)
    ensures r == [] || r[0] != '.'
    ensures |r| <= |s| && s == Dots(|s| - |r|) + r
  {
    if s != [] && s[0] == '.' then
      var r := TrimLeftDots(s[1..]);
      var k := |s[1..]| - |r|;
      assert Dots(k + 1) == "." + Dots(k);
      assert s == "." + (Dots(k) + r);
      r
    else
      s
  }

  /** A suffix carries exactly one leading label separator. */
  predicate WellFormedSuffix(suffix: string)
  {
    |suffix| >= 1 && suffix[0] == '.' && (|suffix| == 1 || suffix[1] != '.')
  }

  /** The normalisation newSuffixMatcher applies to its configured suffix:
      strip all leading dots, then put exactly one back. */
  function NormalizeSuffix(suffix: string): (n: string)
    ensures WellFormedSuffix(n)
    ensures |n| <= |suffix| + 1 && suffix == Dots(|suffix| + 1 - |n|) + n[1..]
  {
    "." + TrimLeftDots(suffix)
  }

  /** Leading dots in the configuration make no difference:
      "localhost", ".localhost" and "..localhost" give the same matcher. */
  lemma {:induction false} NormalizeIgnoresLeadingDots(k: nat, s: string)
    ensures NormalizeSuffix(Dots(k) + s) == NormalizeSuffix(s)
  {
    if k > 0 {
      var t := Dots(k - 1) + s;
      assert Dots(k) + s == "." + t;
      assert ("." + t)[1..] == t;
      assert TrimLeftDots("." + t) == TrimLeftDots(t);
      NormalizeIgnoresLeadingDots(k - 1, s);
    } else {
      assert Dots(k) + s == s;
    }
  }

  /** Normalising a normalised suffix changes nothing. */
  lemma NormalizeIdempotent(s: string)
    ensures NormalizeSuffix(NormalizeSuffix(s)) == NormalizeSuffix(s)
  {
    var t := TrimLeftDots(s);
    NormalizeIgnoresLeadingDots(1, t);
    assert Dots(1) + t == NormalizeSuffix(s);
  }

  lemma NormalizeExamples()
    ensures NormalizeSuffix("localhost") == ".localhost"
    ensures NormalizeSuffix(".localhost") == ".localhost"
    ensures NormalizeSuffix("..localhost") == ".localhost"
  {
    assert "localhost"[0] == 'l';
    assert TrimLeftDots("localhost") == "localhost";
    assert ".localhost"[0] == '.' && ".localhost"[1..] == "localhost";
    assert TrimLeftDots(".localhost") == TrimLeftDots("localhost");
    assert "..localhost"[0] == '.' && "..localhost"[1..] == ".localhost";
    assert TrimLeftDots("..localhost") == TrimLeftDots(".localhost");
  }

  /** The configuration of suffixMatcher; neither field changes after construction. */
  datatype SuffixMatcher = SuffixMatcher(suffix: string, target: Option<Target>)

  /** newSuffixMatcher: the stored suffix is the normalised one, and the target
      is kept as configured. */
  function NewSuffixMatcher(suffix: string, target: Option<Target>): (m: SuffixMatcher)
    ensures m.suffix == NormalizeSuffix(suffix) && m.target == target
    ensures WellFormedSuffix(m.suffix)
  {
    SuffixMatcher(NormalizeSuffix(suffix), target)
  }

  /** A subdomain label: non-empty, and no separator inside. */
  predicate IsLabel(sub: string)
  {
    sub != [] && '.' !in sub
  }

  /** The hostname is a single label directly under the suffix. */
  ghost predicate Serves(m: SuffixMatcher, hostname: string)
  {
    exists sub :: IsLabel(sub) && hostname == sub + m.suffix
  }

  /** suffixMatcher.hasSuffix: on a match the subdomain is a label and, followed
      by the suffix, gives back the hostname; otherwise the subdomain is "". */
  function HasSuffix(m: SuffixMatcher, hostname: string): (r: (bool, string))
    ensures r.0 ==> IsLabel(r.1) && hostname == r.1 + m.suffix
    ensures !r.0 ==> r.1 == ""
  {
    if |m.suffix| <= |hostname| && hostname[|hostname| - |m.suffix|..] == m.suffix then
      var prefix := hostname[..|hostname| - |m.suffix|];
      assert hostname == prefix + m.suffix;
      if prefix == "" || '.' in prefix then (false, "") else (true, prefix)
    else
      (false, "")
  }

  /** Every single-label hostname under the suffix is matched, with its label. */
  lemma HasSuffixComplete(m: SuffixMatcher, sub: string, hostname: string)
    requires IsLabel(sub) && hostname == sub + m.suffix
    ensures HasSuffix(m, hostname) == (true, sub)
  {
    var cut := |hostname| - |m.suffix|;
    assert cut == |sub|;
    assert hostname[cut..] == m.suffix;
    assert hostname[..cut] == sub;
  }

  /** hasSuffix matches exactly the hostnames the suffix serves. */
  lemma HasSuffixIff(m: SuffixMatcher, hostname: string)
    ensures HasSuffix(m, hostname).0 <==> Serves(m, hostname)
  {
    if Serves(m, hostname) {
      var sub :| IsLabel(sub) && hostname == sub + m.suffix;
      HasSuffixComplete(m, sub, hostname);
    }
  }

  /** A deeper subdomain (a prefix holding a separator) never inherits the route,
      and neither does the bare suffix (an empty prefix). */
  lemma DeeperOrEmptyPrefixRejected(m: SuffixMatcher, prefix: string, hostname: string)
    requires hostname == prefix + m.suffix
    requires prefix == "" || '.' in prefix
    ensures HasSuffix(m, hostname) == (false, "")
  {
    var cut := |hostname| - |m.suffix|;
    assert hostname[cut..] == m.suffix;
    assert hostname[..cut] == prefix;
  }

  /** suffixMatcher.Lookup: the configured target on a match, nothing otherwise. */
  function Lookup(m: SuffixMatcher, hostname: string): (r: (bool, Option<Target>))
    ensures r.0 ==> r.1 == m.target
    ensures !r.0 ==> r.1 == None
  {
    var (ok, _) := HasSuffix(m, hostname);
    if ok then (true, m.target) else (false, None)
  }

  /** Lookup answers (true, target) exactly for the hostnames the suffix serves. */
  lemma LookupIff(m: SuffixMatcher, hostname: string)
    ensures Lookup(m, hostname) == if Serves(m, hostname) then (true, m.target) else (false, None)
  {
    HasSuffixIff(m, hostname);
  }

  /** The matcher configured with ".localhost" keeps that suffix as it is. */
  lemma LocalhostMatcher()
    ensures NewSuffixMatcher(".localhost", None) == SuffixMatcher(".localhost", None)
  {
    NormalizeExamples();
  }

  /** With suffix ".localhost": "foo.localhost" gives "foo"; "foo.bar.localhost",
      "localhost" and ".localhost" are not matched, whatever the target. */
  lemma LocalhostExamples(target: Option<Target>)
    ensures HasSuffix(SuffixMatcher(".localhost", target), "foo.localhost") == (true, "foo")
    ensures HasSuffix(SuffixMatcher(".localhost", target), "foo.bar.localhost") == (false, "")
    ensures HasSuffix(SuffixMatcher(".localhost", target), "localhost") == (false, "")
    ensures HasSuffix(SuffixMatcher(".localhost", target), ".localhost") == (false, "")
  {
    var m := SuffixMatcher(".localhost", target);
    assert "foo" + m.suffix == "foo.localhost";
    HasSuffixComplete(m, "foo", "foo.localhost");
    assert "foo.bar" + m.suffix == "foo.bar.localhost";
    assert "foo.bar"[3] == '.';
    DeeperOrEmptyPrefixRejected(m, "foo.bar", "foo.bar.localhost");
    assert "" + m.suffix == ".localhost";
    DeeperOrEmptyPrefixRejected(m, "", ".localhost");
    assert |"localhost"| < |m.suffix|;
  }
}
