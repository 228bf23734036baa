/**
 The client's address and the headers that carry it on (src/client_address.rs): resolution from the
 peer and the header it reports in, and the rewriting of the forwarding headers.
 */
module ClientAddress {
  import opened Basics
  import opened ForwardedFor

  type Headers = map<string, seq<Bytes>>

  const X_FORWARDED_FOR := "x-forwarded-for"
  const X_REAL_IP := "x-real-ip"
  const FORWARDED := "forwarded"

  datatype Source = FromForwardedFor | FromRealIp | FromCleanedReport

  datatype Mode = Verified | Resolved | Append | Preserve | Remove

  datatype Resolution = Peer(ip: Ip) | Forwarded(ip: Ip) | Unreadable(why: Invalid) | Unavailable

  datatype Resolver = Resolver(
    reader: Reader, source: Source, required: bool, mode: Mode,
    clientHeader: Option<string>, auditHeader: Option<string>)
  {
    /** What `build` refuses: names the forwarding already writes. */
    predicate Valid() {
      && (clientHeader.Some? ==> clientHeader.value != X_FORWARDED_FOR && clientHeader.value != FORWARDED)
      && (auditHeader.Some? ==>
            && auditHeader.value != X_FORWARDED_FOR && auditHeader.value != X_REAL_IP && auditHeader.value != FORWARDED
            && auditHeader != clientHeader)
    }
  }

  function Lines(h: Headers, name: string): seq<Bytes> {
    if name in h then h[name] else []
  }

  function WithLines(h: Headers, name: string, lines: seq<Bytes>): Headers {
    if lines == [] then h - {name} else h[name := lines]
  }

  // ---- resolution -----------------------------------------------------------------------------------

  /** One field with one address of at most 128 bytes, spaces included. */
  function RealIp(r: Reader, lines: seq<Bytes>): Result<Option<Ip>, Invalid> {
    if lines == [] then Ok(None)
    else if |lines| > 1 then Err(Repeated)
    else if |lines[0]| > MAX_ELEMENT then Err(Malformed)
    else
      var ip := r.text.parse(Trim(lines[0]));
      if ip.Some? then Ok(ip) else Err(Malformed)
  }

  function CleanedReport(r: Reader, h: Headers): Result<Option<Ip>, Invalid> {
    var reported := RealIp(r, Lines(h, X_REAL_IP));
    if reported.Err? then reported
    else
      var chain := Lines(h, X_FORWARDED_FOR);
      var agrees := Lines(h, FORWARDED) == [] &&
        (chain == [] || (|chain| == 1 && reported.value.Some? && RealIp(r, chain) == reported));
      if agrees then reported else Err(Conflicting)
  }

  /** A cleaned report names an address exactly when everything present names that one address. */
  lemma CleanedReportAgrees(r: Reader, h: Headers, ip: Ip)
    ensures CleanedReport(r, h) == Ok(Some(ip)) <==>
            && RealIp(r, Lines(h, X_REAL_IP)) == Ok(Some(ip))
            && Lines(h, FORWARDED) == []
            && (Lines(h, X_FORWARDED_FOR) == [] || RealIp(r, Lines(h, X_FORWARDED_FOR)) == Ok(Some(ip)))
  {
  }

  function Report(rs: Resolver, h: Headers): Result<Option<Ip>, Invalid> {
    match rs.source
    case FromForwardedFor => Outcome(SeenIn(rs.reader, Lines(h, X_FORWARDED_FOR)))
    case FromRealIp => RealIp(rs.reader, Lines(h, X_REAL_IP))
    case FromCleanedReport => CleanedReport(rs.reader, h)
  }

  function Resolve(rs: Resolver, peer: Option<Ip>, h: Headers): Resolution {
    if peer.None? then Unavailable
    else if !rs.reader.trusts(peer.value) then Peer(peer.value)
    else
      match Report(rs, h)
      case Ok(Some(ip)) => Forwarded(ip)
      case Ok(None) => if rs.required then Unavailable else Peer(peer.value)
      case Err(why) => Unreadable(why)
  }

  /** The trusted proxies noted between the client and this proxy, nearest first. */
  function Noted(rs: Resolver, peer: Option<Ip>, h: Headers): seq<Ip> {
    if rs.mode.Verified? && rs.source.FromForwardedFor? && peer.Some? && rs.reader.trusts(peer.value)
    then NotedHops(SeenIn(rs.reader, Lines(h, X_FORWARDED_FOR))) else []
  }

  // ---- forwarding -------------------------------------------------------------------------------------

  /** Addresses joined with a comma and a space. */
  function ChainText(text: Text, ips: seq<Ip>): Bytes
    requires ips != []
  {
    if |ips| == 1 then text.show(ips[0])
    else ChainText(text, ips[..|ips| - 1]) + [COMMA, SPACE] + text.show(ips[|ips| - 1])
  }

  function Reversed<T>(s: seq<T>): (r: seq<T>)
    ensures |r| == |s|
    ensures forall i :: 0 <= i < |s| ==> r[i] == s[|s| - 1 - i]
  {
    if s == [] then [] else [s[|s| - 1]] + Reversed(s[..|s| - 1])
  }

  /** The verified chain of a resolved request: the client, the noted proxies, this proxy's peer. */
  function Chain(client: Resolution, hops: seq<Ip>, peer: Option<Ip>): seq<Ip> {
    match client
    case Peer(ip) => [ip]
    case Forwarded(ip) => if peer.Some? then [ip] + Reversed(hops) + [peer.value] else []
    case _ => []
  }

  function JoinedLines(lines: seq<Bytes>): Bytes
    requires lines != []
  {
    if |lines| == 1 then lines[0]
    else JoinedLines(lines[..|lines| - 1]) + [COMMA, SPACE] + lines[|lines| - 1]
  }

  /** What `X-Forwarded-For` becomes, by mode. */
  function NewForwardedFor(rs: Resolver, peer: Option<Ip>, h: Headers): seq<Bytes>
    requires !rs.mode.Preserve?
  {
    var client := Resolve(rs, peer, h);
    var arrived := Lines(h, X_FORWARDED_FOR);
    match rs.mode
    case Verified =>
      var chain := Chain(client, Noted(rs, peer, h), peer);
      if chain == [] then [] else [ChainText(rs.reader.text, chain)]
    case Resolved => if client.Peer? || client.Forwarded? then [rs.reader.text.show(client.ip)] else []
    case Append =>
      var lines := if peer.Some? then arrived + [rs.reader.text.show(peer.value)] else arrived;
      if lines == [] then [] else [JoinedLines(lines)]
    case Remove => []
  }

  /** The headers a request leaves with. */
  function Rewritten(rs: Resolver, peer: Option<Ip>, h: Headers): Headers {
    var client := Resolve(rs, peer, h);
    var audited := if rs.auditHeader.Some? then WithLines(h, rs.auditHeader.value, Lines(h, X_FORWARDED_FOR)) else h;
    var forwarded :=
      if rs.mode.Preserve? then audited
      else WithLines(audited - {X_REAL_IP, FORWARDED}, X_FORWARDED_FOR, NewForwardedFor(rs, peer, h));
    if rs.clientHeader.None? then forwarded
    else WithLines(forwarded, rs.clientHeader.value,
                   if client.Peer? || client.Forwarded? then [rs.reader.text.show(client.ip)] else [])
  }

  class Request {
    var headers: Headers
    var client: Option<Resolution>

    constructor (headers: Headers)
      ensures this.headers == headers && client == None
    {
      this.headers := headers;
      client := None;
    }

    /** Resolve the client, put it on the request, and rewrite the forwarding headers. */
    method Apply(rs: Resolver, peer: Option<Ip>)
      requires rs.Valid()
      modifies this
      ensures client == Some(Resolve(rs, peer, old(headers)))
      ensures headers == Rewritten(rs, peer, old(headers))
    {
      var arrived := headers;
      var resolved, hops := ResolveNoting(rs, peer, arrived);
      if rs.auditHeader.Some? {
        headers := WithLines(headers, rs.auditHeader.value, Lines(arrived, X_FORWARDED_FOR));
      }
      if !rs.mode.Preserve? {
        var xff := WriteForwardedFor(rs, peer, arrived, resolved, hops);
        headers := WithLines(headers - {X_REAL_IP, FORWARDED}, X_FORWARDED_FOR, xff);
      }
      if rs.clientHeader.Some? {
        headers := WithLines(headers, rs.clientHeader.value,
                             if resolved.Peer? || resolved.Forwarded? then [rs.reader.text.show(resolved.ip)] else []);
      }
      client := Some(resolved);
    }
  }

  method ResolveNoting(rs: Resolver, peer: Option<Ip>, h: Headers) returns (client: Resolution, hops: seq<Ip>)
    ensures client == Resolve(rs, peer, h)
    ensures Chain(client, hops, peer) == Chain(client, Noted(rs, peer, h), peer)
  {
    hops := [];
    if peer.None? {
      return Unavailable, hops;
    }
    if !rs.reader.trusts(peer.value) {
      return Peer(peer.value), hops;
    }
    var report;
    match rs.source {
      case FromForwardedFor =>
        report, hops := Walk(rs.reader, Lines(h, X_FORWARDED_FOR), rs.mode.Verified?);
      case FromRealIp =>
        report := RealIp(rs.reader, Lines(h, X_REAL_IP));
      case FromCleanedReport =>
        report := CleanedReport(rs.reader, h);
    }
    match report
    case Ok(Some(ip)) => client := Forwarded(ip);
    case Ok(None) => client := if rs.required then Unavailable else Peer(peer.value);
    case Err(why) => client := Unreadable(why);
  }

  method WriteForwardedFor(rs: Resolver, peer: Option<Ip>, h: Headers, client: Resolution, hops: seq<Ip>)
    returns (xff: seq<Bytes>)
    requires !rs.mode.Preserve?
    requires client == Resolve(rs, peer, h)
    requires Chain(client, hops, peer) == Chain(client, Noted(rs, peer, h), peer)
    ensures xff == NewForwardedFor(rs, peer, h)
  {
    xff := [];
    match rs.mode
    case Verified =>
      var chain := Chain(client, hops, peer);
      if chain != [] {
        var text := WriteChain(rs.reader.text, chain);
        xff := [text];
      }
    case Resolved =>
      if client.Peer? || client.Forwarded? {
        xff := [rs.reader.text.show(client.ip)];
      }
    case Append =>
      var lines := Lines(h, X_FORWARDED_FOR);
      if peer.Some? {
        lines := lines + [rs.reader.text.show(peer.value)];
      }
      if lines != [] {
        var text := JoinLines(lines);
        xff := [text];
      }
    case _ =>
  }

  method WriteChain(text: Text, ips: seq<Ip>) returns (chain: Bytes)
    requires ips != []
    ensures chain == ChainText(text, ips)
  {
    chain := text.show(ips[0]);
    for i := 1 to |ips|
      invariant chain == ChainText(text, ips[..i])
    {
      chain := chain + [COMMA, SPACE] + text.show(ips[i]);
      assert ips[..i + 1][..i] == ips[..i];
    }
    assert ips[..|ips|] == ips;
  }

  method JoinLines(lines: seq<Bytes>) returns (joined: Bytes)
    requires lines != []
    ensures joined == JoinedLines(lines)
  {
    joined := lines[0];
    for i := 1 to |lines|
      invariant joined == JoinedLines(lines[..i])
    {
      joined := joined + [COMMA, SPACE] + lines[i];
      assert lines[..i + 1][..i] == lines[..i];
    }
    assert lines[..|lines|] == lines;
  }
}
