/**
 Whose address a request carries, case by case (src/client_address.rs): from the peer and the bytes of
 the headers, without the code's own steps.
 */
module ClientCases {
  import opened Basics
  import opened ForwardedFor
  import opened ClientAddress

  // ---- one element ---------------------------------------------------------------------------------

  predicate AllOws(bytes: Bytes) {
    forall i :: 0 <= i < |bytes| ==> IsOws(bytes[i])
  }

  /** What stands in `bytes[a..b]` has only spaces and tabs around it, and none at its own ends. */
  predicate Around(bytes: Bytes, a: nat, b: nat) {
    && a <= b <= |bytes| && AllOws(bytes[..a]) && AllOws(bytes[b..])
    && (a < b ==> !IsOws(bytes[a]) && !IsOws(bytes[b - 1]))
  }

  /** Trimming leaves exactly what stands between the spaces. */
  lemma TrimIs(bytes: Bytes, a: nat, b: nat)
    requires Around(bytes, a, b)
    ensures Trim(bytes) == bytes[a..b]
  {
    var lead, end := LeadingOws(bytes), EndOfText(bytes);
    assert forall i :: 0 <= i < a ==> bytes[..a][i] == bytes[i];
    assert forall i :: b <= i < |bytes| ==> bytes[b..][i - b] == bytes[i];
  }

  lemma Stands(bytes: Bytes) returns (a: nat, b: nat)
    ensures Around(bytes, a, b)
  {
    a := LeadingOws(bytes);
    b := Max(a, EndOfText(bytes));
  }

  /** The address, if any, that the text without the spaces around it is read as. */
  ghost predicate Spells(r: Reader, bytes: Bytes, ip: Option<Ip>) {
    exists a: nat, b: nat :: Around(bytes, a, b) && r.text.parse(bytes[a..b]) == ip
  }

  lemma SpellsTrimmed(r: Reader, bytes: Bytes, ip: Option<Ip>)
    ensures Spells(r, bytes, ip) <==> r.text.parse(Trim(bytes)) == ip
  {
    var a, b := Stands(bytes);
    TrimIs(bytes, a, b);
    if x: nat, y: nat :| Around(bytes, x, y) && r.text.parse(bytes[x..y]) == ip {
      TrimIs(bytes, x, y);
    }
  }

  /** An element too long, blank, no address, a trusted proxy's or a client's. */
  ghost predicate ElementIs(r: Reader, raw: Raw, s: Seen) {
    if |raw.bytes| > (if raw.first then 129 else 128) then s == Bad
    else if AllOws(raw.bytes) then s == Blank
    else match s
      case Blank => false
      case Bad => Spells(r, raw.bytes, None)
      case Hop(ip) => Spells(r, raw.bytes, Some(ip)) && r.trusts(ip)
      case Client(ip) => Spells(r, raw.bytes, Some(ip)) && !r.trusts(ip)
  }

  lemma BlankIs(bytes: Bytes)
    ensures Trim(bytes) == [] <==> AllOws(bytes)
  {
    var a, b := Stands(bytes);
    TrimIs(bytes, a, b);
    if a == b {
      assert bytes == bytes[..a] + bytes[b..];
    }
  }

  lemma SeeIs(r: Reader, raw: Raw, s: Seen)
    ensures See(r, raw) == s <==> ElementIs(r, raw, s)
  {
    BlankIs(raw.bytes);
    SpellsTrimmed(r, raw.bytes, r.text.parse(Trim(raw.bytes)));
    SpellsTrimmed(r, raw.bytes, None);
    if s.Hop? || s.Client? {
      SpellsTrimmed(r, raw.bytes, Some(s.ip));
    }
  }

  // ---- the list ------------------------------------------------------------------------------------

  predicate PassesTo(seen: seq<Seen>, n: nat) {
    n <= |seen| && forall i :: 0 <= i < n ==> seen[i].Blank? || seen[i].Hop?
  }

  /** The last trusted address from the right, with nothing but blanks left of it. */
  predicate Leftmost(seen: seq<Seen>, n: nat, ip: Ip) {
    n < |seen| && seen[n] == Hop(ip) && forall i :: n < i < |seen| ==> seen[i].Blank?
  }

  ghost predicate HasLeftmost(seen: seq<Seen>, ip: Ip) {
    exists n: nat :: Leftmost(seen, n, ip)
  }

  /** What a list read from the right means, whichever way it ends. */
  ghost predicate ListMeans(seen: seq<Seen>, result: Result<Option<Ip>, Invalid>) {
    match result
    case Ok(Some(ip)) =>
      || (exists n :: 0 <= n < 32 && PassesTo(seen, n) && n < |seen| && seen[n] == Client(ip))
      || (|seen| <= 32 && PassesTo(seen, |seen|) && HasLeftmost(seen, ip))
    case Ok(None) => |seen| <= 32 && forall i :: 0 <= i < |seen| ==> seen[i].Blank?
    case Err(Malformed) => exists n :: 0 <= n < 32 && PassesTo(seen, n) && n < |seen| && seen[n] == Bad
    case Err(TooManyHops) => |seen| > 32 && PassesTo(seen, 32)
    case Err(_) => false
  }

  lemma {:induction false} LastHop(seen: seq<Seen>)
    requires PassesTo(seen, |seen|)
    ensures HopIps(seen) == [] <==> forall i :: 0 <= i < |seen| ==> seen[i].Blank?
    ensures HopIps(seen) != [] ==> HasLeftmost(seen, HopIps(seen)[|HopIps(seen)| - 1])
  {
    if seen != [] {
      var n := |seen| - 1;
      if seen[n].Hop? {
        assert Leftmost(seen, n, seen[n].ip);
      } else {
        LastHop(seen[..n]);
        if HopIps(seen) != [] {
          var ip := HopIps(seen)[|HopIps(seen)| - 1];
          var j: nat :| Leftmost(seen[..n], j, ip);
          assert Leftmost(seen, j, ip);
        }
      }
    }
  }

  lemma OneMeaning(seen: seq<Seen>, x: Result<Option<Ip>, Invalid>, y: Result<Option<Ip>, Invalid>)
    requires ListMeans(seen, x) && ListMeans(seen, y)
    ensures x == y
  {
  }

  lemma OutcomeMeans(seen: seq<Seen>)
    ensures ListMeans(seen, Outcome(seen))
  {
    var n := FirstStop(seen);
    assert PassesTo(seen, n);
    if n == |seen| && n <= 32 {
      LastHop(seen);
    }
  }

  /** The reading of a list is what it means, and nothing else is. */
  lemma OutcomeIs(seen: seq<Seen>, result: Result<Option<Ip>, Invalid>)
    ensures Outcome(seen) == result <==> ListMeans(seen, result)
  {
    OutcomeMeans(seen);
    if ListMeans(seen, result) {
      OneMeaning(seen, Outcome(seen), result);
    }
  }

  // ---- a report ------------------------------------------------------------------------------------

  /** One field of at most 128 bytes that is an address; none; or what is wrong with it. */
  ghost predicate FieldMeans(r: Reader, lines: seq<Bytes>, result: Result<Option<Ip>, Invalid>) {
    match result
    case Ok(None) => lines == []
    case Ok(Some(ip)) => |lines| == 1 && |lines[0]| <= 128 && Spells(r, lines[0], Some(ip))
    case Err(Repeated) => |lines| > 1
    case Err(Malformed) => |lines| == 1 && (|lines[0]| > 128 || Spells(r, lines[0], None))
    case Err(_) => false
  }

  lemma RealIpIs(r: Reader, lines: seq<Bytes>, result: Result<Option<Ip>, Invalid>)
    ensures RealIp(r, lines) == result <==> FieldMeans(r, lines, result)
  {
    if |lines| == 1 {
      SpellsTrimmed(r, lines[0], None);
      if result.Ok? && result.value.Some? {
        SpellsTrimmed(r, lines[0], result.value);
      }
    }
  }

  /** The other headers say nothing else: no `Forwarded`, and no list but one field with the same address. */
  ghost predicate NoneDisagrees(r: Reader, h: Headers, reported: Option<Ip>) {
    && Lines(h, FORWARDED) == []
    && (Lines(h, X_FORWARDED_FOR) == [] ||
        (reported.Some? && FieldMeans(r, Lines(h, X_FORWARDED_FOR), Ok(reported))))
  }

  ghost predicate ReportMeans(r: Reader, h: Headers, result: Result<Option<Ip>, Invalid>) {
    match result
    case Ok(reported) => FieldMeans(r, Lines(h, X_REAL_IP), result) && NoneDisagrees(r, h, reported)
    case Err(Conflicting) =>
      exists reported: Option<Ip> :: FieldMeans(r, Lines(h, X_REAL_IP), Ok(reported)) && !NoneDisagrees(r, h, reported)
    case Err(_) => FieldMeans(r, Lines(h, X_REAL_IP), result)
  }

  lemma CleanedReportIs(r: Reader, h: Headers, result: Result<Option<Ip>, Invalid>)
    ensures CleanedReport(r, h) == result <==> ReportMeans(r, h, result)
  {
    var field := RealIp(r, Lines(h, X_REAL_IP));
    RealIpIs(r, Lines(h, X_REAL_IP), field);
    RealIpIs(r, Lines(h, X_REAL_IP), result);
    if field.Ok? {
      RealIpIs(r, Lines(h, X_FORWARDED_FOR), field);
    }
    if reported: Option<Ip> :| FieldMeans(r, Lines(h, X_REAL_IP), Ok(reported)) && !NoneDisagrees(r, h, reported) {
      RealIpIs(r, Lines(h, X_REAL_IP), Ok(reported));
    }
  }

  // ---- the client ----------------------------------------------------------------------------------

  ghost predicate SourceMeans(rs: Resolver, h: Headers, result: Result<Option<Ip>, Invalid>) {
    match rs.source
    case FromForwardedFor => ListMeans(SeenIn(rs.reader, Lines(h, X_FORWARDED_FOR)), result)
    case FromRealIp => FieldMeans(rs.reader, Lines(h, X_REAL_IP), result)
    case FromCleanedReport => ReportMeans(rs.reader, h, result)
  }

  /**
   Without a peer nothing resolves. A peer that is not trusted is the client, whatever its headers say. A
   trusted one is believed: the address it reports is the client, a report that cannot be read is an
   error, and without one the peer itself is the client, unless a report is required.
   */
  ghost predicate ClientIs(rs: Resolver, peer: Option<Ip>, h: Headers, client: Resolution) {
    if peer.None? then client == Unavailable
    else if !rs.reader.trusts(peer.value) then client == Peer(peer.value)
    else match client
      case Forwarded(ip) => SourceMeans(rs, h, Ok(Some(ip)))
      case Unreadable(why) => SourceMeans(rs, h, Err(why))
      case Unavailable => SourceMeans(rs, h, Ok(None)) && rs.required
      case Peer(ip) => SourceMeans(rs, h, Ok(None)) && !rs.required && ip == peer.value
  }

  lemma ReportIs(rs: Resolver, h: Headers, result: Result<Option<Ip>, Invalid>)
    ensures Report(rs, h) == result <==> SourceMeans(rs, h, result)
  {
    match rs.source
    case FromForwardedFor => OutcomeIs(SeenIn(rs.reader, Lines(h, X_FORWARDED_FOR)), result);
    case FromRealIp => RealIpIs(rs.reader, Lines(h, X_REAL_IP), result);
    case FromCleanedReport => CleanedReportIs(rs.reader, h, result);
  }

  /** A request is resolved to that client and no other. */
  lemma ResolveIs(rs: Resolver, peer: Option<Ip>, h: Headers, client: Resolution)
    ensures Resolve(rs, peer, h) == client <==> ClientIs(rs, peer, h, client)
  {
    ReportIs(rs, h, match client
                    case Forwarded(ip) => Ok(Some(ip))
                    case Unreadable(why) => Err(why)
                    case _ => Ok(None));
  }
}
