/**
 * The transport beneath the remote procedure calls: how an endpoint string
 * such as "host:1234" or "[::1]:1234" is split into a host name and a port
 * (a host in square brackets, as in section 3.2.2 of RFC 3986, may itself
 * hold colons), and the fixed-size byte buffer the sockets write through,
 * which is filled at its end and drained from its front.
 */
module Network {
  import opened Wrappers
  import opened Decimal

  newtype byte = x: int | 0 <= x < 256

  /** `find(c, from)`: the first position at or after `from` holding `c`. */
  function Find(s: string, c: char, from: nat): (r: Option<nat>)
    ensures r.Some? ==> from <= r.value < |s| && s[r.value] == c &&
                        forall k :: from <= k < r.value ==> s[k] != c
    ensures r.None? ==> forall k :: from <= k < |s| ==> s[k] != c
    decreases |s| - from
  {
    if from >= |s| then None
    else if s[from] == c then Some(from)
    else Find(s, c, from + 1)
  }

  /** The digits a string starts with. */
  function LeadingDigits(s: string): (d: string)
    ensures d <= s && AllDigits(d)
    ensures |d| < |s| ==> !IsDigit(s[|d|])
  {
    if |s| == 0 || !IsDigit(s[0]) then [] else [s[0]] + LeadingDigits(s[1..])
  }

  lemma {:induction false} LeadingDigitsAre(s: string, n: nat)
    requires n <= |s| && AllDigits(s[..n]) && (n < |s| ==> !IsDigit(s[n]))
    ensures LeadingDigits(s) == s[..n]
  {
    if n > 0 {
      assert IsDigit(s[..n][0]);
      LeadingDigitsAre(s[1..], n - 1);
      assert s[1..][..n - 1] == s[..n][1..];
    }
  }

  datatype Endpoint = Endpoint(hostname: string, port: nat)

  /** The bracketed host, when there is a '[' and a ']' after it: the host and the text after ']'. */
  function Bracketed(endpoint: string): Option<(string, string)>
  {
    match Find(endpoint, '[', 0)
    case None => None
    case Some(b) =>
      match Find(endpoint, ']', b)
      case None => None
      case Some(e) => Some((endpoint[b + 1..e], endpoint[e + 1..]))
  }

  /**
   * `decodeEndpoint` as written: after a bracketed host, the host name is
   * still replaced by the text before ':' when it has the same contents as
   * the text after ']'.
   */
  function EndpointOf(endpoint: string): Endpoint
  {
    var (hostname, rest) := if Bracketed(endpoint).Some? then Bracketed(endpoint).value else (endpoint, endpoint);
    match Find(rest, ':', 0)
    case None => Endpoint(hostname, 0)
    case Some(c) =>
      Endpoint(if hostname == rest then rest[..c] else hostname, ParseNat(LeadingDigits(rest[c + 1..])))
  }

  /** `decodeEndpoint` as evidently intended: a bracketed host is kept whatever follows it. */
  function IntendedEndpointOf(endpoint: string): Endpoint
  {
    match Bracketed(endpoint)
    case Some((hostname, rest)) =>
      Endpoint(hostname, match Find(rest, ':', 0)
                         case None => 0
                         case Some(c) => ParseNat(LeadingDigits(rest[c + 1..])))
    case None =>
      match Find(endpoint, ':', 0)
      case None => Endpoint(endpoint, 0)
      case Some(c) => Endpoint(endpoint[..c], ParseNat(LeadingDigits(endpoint[c + 1..])))
  }

  /** The parsing of `decodeEndpoint`: the bracketed host, then the text before ':', then the port. */
  method DecodeEndpoint(endpoint: string) returns (r: Endpoint)
    ensures r == EndpointOf(endpoint)
  {
    var hostname := endpoint;
    var rest := endpoint;
    var bpos := Find(endpoint, '[', 0);
    if bpos.Some? {
      var bepos := Find(endpoint, ']', bpos.value);
      if bepos.Some? {
        hostname := endpoint[bpos.value + 1..bepos.value];
        rest := endpoint[bepos.value + 1..];
      }
    }
    assert (hostname, rest) == if Bracketed(endpoint).Some? then Bracketed(endpoint).value else (endpoint, endpoint);
    var port := 0;
    var cpos := Find(rest, ':', 0);
    if cpos.Some? {
      if hostname == rest {
        hostname := rest[..cpos.value];
      }
      port := ReadPort(rest, cpos.value + 1);
    }
    r := Endpoint(hostname, port);
  }

  /** The loop that reads the port: decimal digits from `start` up to the first non-digit. */
  method ReadPort(rest: string, start: nat) returns (port: nat)
    requires start <= |rest|
    ensures port == ParseNat(LeadingDigits(rest[start..]))
  {
    port := 0;
    var k := start;
    while k != |rest|
      invariant start <= k <= |rest|
      invariant AllDigits(rest[start..k])
      invariant port == ParseNat(rest[start..k])
    {
      var c := rest[k];
      if !IsDigit(c) {
        break;
      }
      assert rest[start..k + 1] == rest[start..k] + [c];
      port := port * 10 + DigitValue(c);
      k := k + 1;
    }
    assert rest[start..][..k - start] == rest[start..k];
    LeadingDigitsAre(rest[start..], k - start);
  }

  /** Without any ':' the whole endpoint is the host name and the port is 0. */
  lemma NoColon(endpoint: string)
    requires '[' !in endpoint && ':' !in endpoint
    ensures EndpointOf(endpoint) == Endpoint(endpoint, 0)
  {
    assert forall k :: 0 <= k < |endpoint| ==> endpoint[k] != '[' && endpoint[k] != ':';
  }

  /** A host and port joined by ':' decode back to that host and port. */
  lemma PlainRoundTrip(host: string, port: nat)
    requires '[' !in host && ':' !in host
    ensures EndpointOf(host + ":" + NatToString(port)) == Endpoint(host, port)
  {
    var digits := NatToString(port);
    var endpoint := host + ":" + digits;
    assert '[' !in digits && ':' !in digits by {
      assert AllDigits(digits);
    }
    forall k | 0 <= k < |endpoint|
      ensures endpoint[k] != '['
    {
      if k < |host| {
        assert endpoint[k] == host[k];
      } else if k > |host| {
        assert endpoint[k] == digits[k - |host| - 1];
      }
    }
    FindAt(endpoint, ':', |host|);
    assert endpoint[..|host|] == host;
    assert endpoint[|host| + 1..] == digits;
    LeadingDigitsAre(digits, |digits|);
    assert digits[..|digits|] == digits;
    ParseNatToString(port);
  }

  /** Finding `c` where it first occurs. */
  lemma FindAt(s: string, c: char, i: nat)
    requires i < |s| && s[i] == c && forall k :: 0 <= k < i ==> s[k] != c
    ensures Find(s, c, 0) == Some(i)
  {
  }

  /** A '[' first and the first ']' after it split off the bracketed host. */
  lemma BracketedSplit(host: string, tail: string)
    requires ']' !in host
    ensures Bracketed("[" + host + "]" + tail) == Some((host, tail))
  {
    var endpoint := "[" + host + "]" + tail;
    var e := |host| + 1;
    FindAt(endpoint, '[', 0);
    forall k | 1 <= k < e
      ensures endpoint[k] != ']'
    {
      assert endpoint[k] == host[k - 1];
    }
    FindAt(endpoint, ']', e);
    assert endpoint[1..e] == host;
    assert endpoint[e + 1..] == tail;
  }

  /** The port of a host without ':' followed by ':' and the port's digits. */
  lemma PortAfterColon(a: string, port: nat)
    requires ':' !in a
    ensures var text := a + ":" + NatToString(port);
            && Find(text, ':', 0) == Some(|a|)
            && text[..|a|] == a
            && ParseNat(LeadingDigits(text[|a| + 1..])) == port
  {
    var digits := NatToString(port);
    var text := a + ":" + digits;
    FindAt(text, ':', |a|);
    assert text[..|a|] == a;
    assert text[|a| + 1..] == digits;
    LeadingDigitsAre(digits, |digits|);
    assert digits[..|digits|] == digits;
    ParseNatToString(port);
  }

  /**
   * A host in brackets followed by ':' and a port decodes back to that host
   * and port, unless the host has the same text as the part after ']'.
   */
  lemma BracketedRoundTrip(host: string, port: nat)
    requires ']' !in host
    ensures var endpoint := "[" + host + "]" + ":" + NatToString(port);
            && IntendedEndpointOf(endpoint) == Endpoint(host, port)
            && (host != ":" + NatToString(port) ==> EndpointOf(endpoint) == Endpoint(host, port))
  {
    var rest := ":" + NatToString(port);
    assert "[" + host + "]" + ":" + NatToString(port) == "[" + host + "]" + rest;
    BracketedSplit(host, rest);
    PortAfterColon("", port);
    assert "" + ":" + NatToString(port) == rest;
    assert Find(rest, ':', 0) == Some(0);
    assert ParseNat(LeadingDigits(rest[1..])) == port;
  }

  /**
   * As written, a bracketed host that holds ':' and has the same text as
   * what follows ']' is cut at its ':' ("[a:1]a:1" gives host "a"); the
   * intended reading keeps it whole.
   */
  lemma BracketedHostLost(a: string, port: nat)
    requires ':' !in a && ']' !in a
    ensures var host := a + ":" + NatToString(port);
            var endpoint := "[" + host + "]" + host;
            && EndpointOf(endpoint) == Endpoint(a, port)
            && IntendedEndpointOf(endpoint) == Endpoint(host, port)
  {
    var host := a + ":" + NatToString(port);
    assert ']' !in NatToString(port) by {
      assert AllDigits(NatToString(port));
    }
    assert ']' !in host;
    BracketedSplit(host, host);
    PortAfterColon(a, port);
  }

  /** The readings agree everywhere else: they differ only when the bracketed host equals the rest. */
  lemma ReadingsAgree(endpoint: string)
    requires Bracketed(endpoint).Some? ==> Bracketed(endpoint).value.0 != Bracketed(endpoint).value.1
    ensures EndpointOf(endpoint) == IntendedEndpointOf(endpoint)
  {
  }

  /**
   * A fixed-size socket buffer: bytes are appended at `end` while there is
   * room and drained from `begin`.
   */
  class Buffer {
    const maxsize: nat
    const buf: array<byte>
    var begin: nat
    var end: nat

    ghost predicate Valid()
      reads this
    {
      buf.Length == maxsize && begin <= end <= maxsize
    }

    /** The bytes held: appended and not yet freed. */
    function Contents(): seq<byte>
      reads this, buf
      requires Valid()
    {
      buf[begin..end]
    }

    constructor(maxsize: nat)
      ensures Valid() && this.maxsize == maxsize && Contents() == [] && begin == 0 && end == 0
    {
      this.maxsize := maxsize;
      buf := new byte[maxsize];
      begin := 0;
      end := 0;
    }

    function Space(): (n: nat)
      reads this
      requires Valid()
      ensures end + n == maxsize
    {
      buf.Length - end
    }

    /** Copies as many bytes as fit and says how many. */
    method Append(data: seq<byte>) returns (n: nat)
      requires Valid()
      modifies this, buf
      ensures Valid()
      ensures n == Min(|data|, old(Space()))
      ensures Contents() == old(Contents()) + data[..n]
      ensures begin == old(begin) && end == old(end) + n
    {
      n := Min(|data|, Space());
      forall i | 0 <= i < n {
        buf[end + i] := data[i];
      }
      end := end + n;
    }

    /** Drops the first `n` bytes held. */
    method Free(n: nat)
      requires Valid() && n <= end - begin
      modifies this
      ensures Valid()
      ensures Contents() == old(Contents())[n..]
      ensures end == old(end)
    {
      begin := begin + n;
    }

    function Size(): (n: nat)
      reads this, buf
      requires Valid()
      ensures n == |Contents()|
    {
      end - begin
    }

    predicate Empty()
      reads this, buf
      requires Valid()
    {
      Size() == 0
    }
  }
}
