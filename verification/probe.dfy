/** The three probe strategies: one HTTP GET, one TCP connect, and the
    TCP-based stand-in for ICMP. The network and the clock are parameters:
    an HTTP exchange is given as its outcome, a TCP connect as a predicate
    saying which dial addresses accept a connection, and the time an
    attempt took as elapsed nanoseconds. */
module Probe {
  import opened Numeric

  /** Status code of a successful exchange (section 15.3.1 of RFC 9110); the
      TCP probe reports it for a successful connect. */
  const StatusOK := 200

  /** One attempt's result. Status 0 means no response at all. */
  datatype ProbeResult = ProbeResult(statusCode: int, latencyMs: int, networkErr: bool)

  /** How a target is probed. */
  datatype Mode = Http | Tcp | Icmp

  /** The scheduler's dispatch on the stored mode string: anything other
      than "tcp" or "icmp" is probed over HTTP. */
  function ModeOf(mode: string): (m: Mode)
    ensures m == Tcp <==> mode == "tcp"
    ensures m == Icmp <==> mode == "icmp"
    ensures m == Http <==> mode != "tcp" && mode != "icmp"
  {
    if mode == "tcp" then Tcp else if mode == "icmp" then Icmp else Http
  }

  /** `time.Duration.Milliseconds`: nanoseconds truncated toward zero. */
  function Milliseconds(elapsedNs: int): (ms: int)
    ensures elapsedNs >= 0 ==> ms >= 0 && ms * 1_000_000 <= elapsedNs < ms * 1_000_000 + 1_000_000
    ensures elapsedNs < 0 ==> ms <= 0
  {
    GoDiv(elapsedNs, 1_000_000)
  }

  // ---------------------------------------------------------------------
  // HTTP
  // ---------------------------------------------------------------------

  /** What the HTTP client's GET produced: a transport error (DNS, connect,
      TLS, the 5-second timeout) or a response carrying a status code. */
  datatype HttpReply = TransportError | Response(status: int)

  /** DoHTTPProbe: a transport error is reported as status 0 with the
      network-error flag; otherwise the response status is reported as is. */
  function DoHttpProbe(reply: HttpReply, elapsedNs: int): (r: ProbeResult)
    ensures r.networkErr <==> reply.TransportError?
    ensures reply.TransportError? ==> r.statusCode == 0
    ensures reply.Response? ==> r.statusCode == reply.status
    ensures r.latencyMs == Milliseconds(elapsedNs)
  {
    var ms := Milliseconds(elapsedNs);
    match reply
    case TransportError => ProbeResult(0, ms, true)
    case Response(status) => ProbeResult(status, ms, false)
  }

  // ---------------------------------------------------------------------
  // TCP
  // ---------------------------------------------------------------------

  /** The part of `url.Parse` the TCP probe looks at. */
  datatype ParsedUrl = ParseError | Parsed(scheme: string, host: string)

  /** The well-known port for a scheme: 443 for "https" (section 4.2.2 of
      RFC 9110), 80 for everything else (section 4.2.1). */
  function WellKnownPort(scheme: string): (port: string)
    ensures port == "443" <==> scheme == "https"
    ensures port == "443" || port == "80"
  {
    if scheme == "https" then "443" else "80"
  }

  /** Appends the scheme's well-known port to a host that names none. */
  function WithDefaultPort(host: string, scheme: string): (r: string)
    ensures ':' in host ==> r == host
    ensures ':' in r
    ensures |host| <= |r| && r[..|host|] == host
  {
    if ':' in host then host else host + ":" + WellKnownPort(scheme)
  }

  /** The text before the first ':' (all of it when there is none). */
  function HostPart(s: string): (h: string)
    ensures |h| <= |s| && s[..|h|] == h
    ensures ':' !in h
    ensures |h| < |s| ==> s[|h|] == ':'
  {
    if s == [] || s[0] == ':' then [] else [s[0]] + HostPart(s[1..])
  }

  /** The text after the first ':' (empty when there is none). */
  function PortPart(s: string): (p: string)
  {
    var h := HostPart(s);
    if |h| < |s| then s[|h| + 1..] else []
  }

  /** Splitting a defaulted address at its first ':' gives back the host and
      the scheme's well-known port. */
  lemma {:induction false} SplitDefaulted(host: string, scheme: string)
    requires ':' !in host
    ensures HostPart(WithDefaultPort(host, scheme)) == host
    ensures PortPart(WithDefaultPort(host, scheme)) == WellKnownPort(scheme)
  {
    var r := WithDefaultPort(host, scheme);
    assert r == host + ":" + WellKnownPort(scheme);
    HostPartOfColon(host, WellKnownPort(scheme));
  }

  lemma {:induction false} HostPartOfColon(host: string, rest: string)
    requires ':' !in host
    ensures HostPart(host + ":" + rest) == host
  {
    var s := host + ":" + rest;
    if host == [] {
      assert s[0] == ':';
    } else {
      assert s[0] == host[0];
      assert s[1..] == host[1..] + ":" + rest;
      HostPartOfColon(host[1..], rest);
      assert [host[0]] + host[1..] == host;
    }
  }

  /** Defaulting the port twice is the same as defaulting it once. */
  lemma DefaultPortIdempotent(host: string, scheme: string, scheme': string)
    ensures WithDefaultPort(WithDefaultPort(host, scheme), scheme') == WithDefaultPort(host, scheme)
  {
  }

  /** DoTCPPing's dial address: the parsed host with the well-known port
      appended when it has none; the raw string when the parse failed or
      found no host. */
  function DialTarget(raw: string, parsed: ParsedUrl): (r: string)
    ensures parsed.ParseError? || parsed.host == [] ==> r == raw
    ensures parsed.Parsed? && parsed.host != [] && ':' in parsed.host ==> r == parsed.host
    ensures parsed.Parsed? && parsed.host != [] && ':' !in parsed.host ==>
              HostPart(r) == parsed.host && PortPart(r) == WellKnownPort(parsed.scheme)
  {
    match parsed
    case ParseError => raw
    case Parsed(scheme, host) =>
      if host == [] then raw
      else
        var r := WithDefaultPort(host, scheme);
        if ':' in host then r else SplitDefaulted(host, scheme); r
  }

  /** DoTCPPing: one connect to the dial address; success is reported as the
      synthetic status 200, failure as status 0 with the network-error flag. */
  function DoTcpPing(raw: string, parsed: ParsedUrl, accepts: string -> bool, elapsedNs: int): (r: ProbeResult)
    ensures r.statusCode == 0 <==> r.networkErr
    ensures r.statusCode == StatusOK <==> accepts(DialTarget(raw, parsed))
    ensures r.statusCode == 0 || r.statusCode == StatusOK
    ensures r.latencyMs == Milliseconds(elapsedNs)
  {
    var ms := Milliseconds(elapsedNs);
    if accepts(DialTarget(raw, parsed)) then ProbeResult(StatusOK, ms, false) else ProbeResult(0, ms, true)
  }

  /** DoICMPProbe delegates to the TCP probe. */
  function DoIcmpProbe(raw: string, parsed: ParsedUrl, accepts: string -> bool, elapsedNs: int): (r: ProbeResult)
    ensures r.statusCode == 0 <==> r.networkErr
    ensures r.statusCode == StatusOK <==> accepts(DialTarget(raw, parsed))
    ensures r.statusCode == 0 || r.statusCode == StatusOK
    ensures r.latencyMs == Milliseconds(elapsedNs)
  {
    DoTcpPing(raw, parsed, accepts, elapsedNs)
  }

  /** What the world does during one attempt: which dial addresses accept a
      TCP connection, what an HTTP GET yields, and how long the attempt took. */
  datatype Attempt = Attempt(accepts: string -> bool, reply: HttpReply, elapsedNs: int)

  /** One attempt with the strategy the target's mode selects. */
  function RunProbe(mode: string, raw: string, parsed: ParsedUrl, a: Attempt): (r: ProbeResult)
    ensures ModeOf(mode) == Http ==> r == DoHttpProbe(a.reply, a.elapsedNs)
    ensures ModeOf(mode) != Http ==> r == DoTcpPing(raw, parsed, a.accepts, a.elapsedNs)
    ensures a.elapsedNs >= 0 ==> r.latencyMs >= 0
  {
    match ModeOf(mode)
    case Tcp => DoTcpPing(raw, parsed, a.accepts, a.elapsedNs)
    case Icmp => DoIcmpProbe(raw, parsed, a.accepts, a.elapsedNs)
    case Http => DoHttpProbe(a.reply, a.elapsedNs)
  }
}
