/**
 What the client address promises (src/client_address.rs): nothing a client writes left of its own
 address matters, and a verified chain leads the next proxy to the same client.
 */
module ForwardingLaws {
  import opened Basics
  import opened ForwardedFor
  import opened ClientAddress

  // ---- lists of elements -----------------------------------------------------------------------

  lemma {:induction false} RawsOfAppend(a: seq<Bytes>, b: seq<Bytes>)
    ensures RawsOf(a + b) == RawsOf(b) + RawsOf(a)
  {
    if b == [] {
      assert a + b == a;
    } else {
      var n := |b| - 1;
      assert (a + b)[..|a + b| - 1] == a + b[..n];
      RawsOfAppend(a, b[..n]);
    }
  }

  /** The elements of a line, once something precedes it behind a comma: its first no longer opens the line. */
  function NotFirst(raws: seq<Raw>): (s: seq<Raw>)
    requires raws != []
    ensures |s| == |raws|
  {
    raws[..|raws| - 1] + [Raw(raws[|raws| - 1].bytes, false)]
  }

  /** A comma with none after it splits off the last element. */
  lemma RawsAt(before: Bytes, after: Bytes)
    requires forall i :: 0 <= i < |after| ==> after[i] != COMMA
    ensures Raws(before + [COMMA] + after) == [Raw(after, false)] + Raws(before)
  {
    var all := before + [COMMA] + after;
    var c := LastComma(all, 0, |all|);
    assert all[|before|] == COMMA;
    assert forall i :: |before| < i < |all| ==> all[i] == after[i - |before| - 1];
    assert c == Some(|before|);
    assert all[|before| + 1..] == after && all[..|before|] == before;
  }

  lemma {:induction false} RawsBehindComma(left: Bytes, line: Bytes)
    ensures Raws(left + [COMMA] + line) == NotFirst(Raws(line)) + Raws(left)
    decreases |line|
  {
    var c := LastComma(line, 0, |line|);
    if c.None? {
      RawsAt(left, line);
    } else {
      RawsBehindComma(left, line[..c.value]);
      BehindOneMore(left, line[..c.value], line[c.value + 1..]);
      CutAt(line, c.value);
    }
  }

  lemma CutAt(line: Bytes, i: nat)
    requires i < |line| && line[i] == COMMA
    ensures line[..i] + [COMMA] + line[i + 1..] == line
  {
  }

  lemma BehindOneMore(left: Bytes, before: Bytes, after: Bytes)
    requires forall i :: 0 <= i < |after| ==> after[i] != COMMA
    requires Raws(left + [COMMA] + before) == NotFirst(Raws(before)) + Raws(left)
    ensures Raws(left + [COMMA] + (before + [COMMA] + after)) == NotFirst(Raws(before + [COMMA] + after)) + Raws(left)
  {
    var front, raw := left + [COMMA] + before, Raw(after, false);
    Regroup(left, [COMMA], before, [COMMA], after);
    RawsAt(front, after);
    RawsAt(before, after);
    NotFirstTail(raw, Raws(before));
    Regroup([raw], NotFirst(Raws(before)), Raws(left), [], []);
  }

  lemma Regroup<T>(a: seq<T>, b: seq<T>, c: seq<T>, d: seq<T>, e: seq<T>)
    ensures a + b + (c + d + e) == (a + b + c) + d + e
    ensures a + (b + c) == (a + b) + c
  {
  }

  lemma NotFirstTail(raw: Raw, raws: seq<Raw>)
    requires raws != []
    ensures NotFirst([raw] + raws) == [raw] + NotFirst(raws)
  {
    assert ([raw] + raws)[..|raws|] == [raw] + raws[..|raws| - 1];
  }

  /** Readings that agree up to where the first of them stops give the same client and proxies. */
  lemma SameUpToStop(x: seq<Seen>, y: seq<Seen>)
    requires FirstStop(x) < |x| && FirstStop(x) < |y| && FirstStop(x) < MAX_HOPS
    requires forall i :: 0 <= i <= FirstStop(x) ==> x[i] == y[i]
    ensures Outcome(y) == Outcome(x) && NotedHops(y) == NotedHops(x)
  {
    var n := FirstStop(x);
    StopsAt(y, n);
    assert x[..n] == y[..n];
  }

  // ---- nothing left of the client is read --------------------------------------------------------

  /** `line`, with anything at all written before it behind a comma. */
  function Behind(left: Option<Bytes>, line: Bytes): Bytes {
    if left.Some? then left.value + [COMMA] + line else line
  }

  /** The first elements stay; the last of them may no longer open its line. */
  predicate Extends(x: seq<Raw>, y: seq<Raw>, behind: bool) {
    && 0 < |x| <= |y|
    && (forall i :: 0 <= i < |x| - 1 ==> y[i] == x[i])
    && y[|x| - 1] == if behind then Raw(x[|x| - 1].bytes, false) else x[|x| - 1]
  }

  lemma RawsOfMiddle(earlier: seq<Bytes>, line: Bytes, later: seq<Bytes>)
    ensures RawsOf(earlier + [line] + later) == RawsOf(later) + (Raws(line) + RawsOf(earlier))
  {
    RawsOfAppend(earlier + [line], later);
    RawsOfAppend(earlier, [line]);
    OneLine(line);
  }

  lemma ExtendsLine(left: Option<Bytes>, line: Bytes)
    ensures Extends(Raws(line), Raws(Behind(left, line)), left.Some?)
  {
    if left.Some? {
      RawsBehindComma(left.value, line);
    }
  }

  lemma ExtendsAround(x: seq<Raw>, y: seq<Raw>, behind: bool, before: seq<Raw>, after: seq<Raw>)
    requires Extends(x, y, behind)
    ensures Extends(before + x, before + (y + after), behind)
  {
    var p, q := before + x, before + (y + after);
    assert p[|p| - 1] == x[|x| - 1] && q[|p| - 1] == y[|x| - 1];
  }

  /** Bytes and lines added on the left add elements on the left; those there before stay. */
  lemma RawsExtended(earlier: seq<Bytes>, left: Option<Bytes>, line: Bytes, later: seq<Bytes>)
    ensures Extends(RawsOf([line] + later), RawsOf(earlier + [Behind(left, line)] + later), left.Some?)
  {
    RawsOfAppend([line], later);
    OneLine(line);
    RawsOfMiddle(earlier, Behind(left, line), later);
    ExtendsLine(left, line);
    ExtendsAround(Raws(line), Raws(Behind(left, line)), left.Some?, RawsOf(later), RawsOf(earlier));
  }

  lemma {:induction false} HopsTrusted(r: Reader, raws: seq<Raw>, n: nat)
    requires n <= |raws|
    ensures forall ip :: ip in HopIps(SeeAll(r, raws)[..n]) ==> r.trusts(ip)
  {
    if n > 0 {
      var seen := SeeAll(r, raws);
      assert seen[..n][..n - 1] == seen[..n - 1];
      HopsTrusted(r, raws, n - 1);
    }
  }

  /** A client outside the trusted proxies is where the reading stopped. */
  lemma UntrustedStops(r: Reader, raws: seq<Raw>, ip: Ip)
    requires Outcome(SeeAll(r, raws)) == Ok(Some(ip)) && !r.trusts(ip)
    ensures FirstStop(SeeAll(r, raws)) < |raws| && FirstStop(SeeAll(r, raws)) < MAX_HOPS
    ensures SeeAll(r, raws)[FirstStop(SeeAll(r, raws))] == Client(ip)
  {
    var seen := SeeAll(r, raws);
    HopsTrusted(r, raws, |raws|);
    assert seen[..|raws|] == seen;
  }

  /** The element, as it stands in the header, that the reading stops at. */
  function ClientElement(r: Reader, lines: seq<Bytes>): Bytes
    requires FirstStop(SeenIn(r, lines)) < |SeenIn(r, lines)|
  {
    RawsOf(lines)[FirstStop(SeenIn(r, lines))].bytes
  }

  /**
   Non-interference: once a list resolves to an untrusted client, anything added on its left, behind
   a comma or on earlier lines, changes neither the client nor the proxies noted. The one exception
   is exact: a client's element of 129 bytes, allowed only at the start of a field line, becomes
   unreadable when something is written before it on that line.
   */
  lemma LeftIsIgnored(r: Reader, earlier: seq<Bytes>, left: Option<Bytes>, line: Bytes, later: seq<Bytes>, ip: Ip)
    requires Outcome(SeenIn(r, [line] + later)) == Ok(Some(ip)) && !r.trusts(ip)
    ensures FirstStop(SeenIn(r, [line] + later)) < |SeenIn(r, [line] + later)|
    ensures var x, y := SeenIn(r, [line] + later), SeenIn(r, earlier + [Behind(left, line)] + later);
            var pushed := left.Some? && FirstStop(x) == |x| - 1;
            if pushed && |ClientElement(r, [line] + later)| > MAX_ELEMENT
            then Outcome(y) == Err(Malformed)
            else Outcome(y) == Outcome(x) && NotedHops(y) == NotedHops(x)
  {
    var base, changed := RawsOf([line] + later), RawsOf(earlier + [Behind(left, line)] + later);
    RawsExtended(earlier, left, line, later);
    UntrustedStops(r, base, ip);
    PrefixDecides(r, base, changed, left.Some?);
  }

  /** Elements added after the client's, and the client's losing its place at the start of a line. */
  lemma PrefixDecides(r: Reader, base: seq<Raw>, changed: seq<Raw>, behind: bool)
    requires Extends(base, changed, behind)
    requires FirstStop(SeeAll(r, base)) < |base| && FirstStop(SeeAll(r, base)) < MAX_HOPS
    requires SeeAll(r, base)[FirstStop(SeeAll(r, base))].Client?
    ensures var x, y := SeeAll(r, base), SeeAll(r, changed);
            if behind && FirstStop(x) == |x| - 1 && |base[|base| - 1].bytes| > MAX_ELEMENT
            then Outcome(y) == Err(Malformed)
            else Outcome(y) == Outcome(x) && NotedHops(y) == NotedHops(x)
  {
    SeenExtends(r, base, changed, behind);
    SeenDecides(SeeAll(r, base), SeeAll(r, changed), behind && |base[|base| - 1].bytes| > MAX_ELEMENT);
  }

  lemma SeenDecides(x: seq<Seen>, y: seq<Seen>, spoilt: bool)
    requires 0 < |x| <= |y| && FirstStop(x) < |x| && FirstStop(x) < MAX_HOPS
    requires forall i :: 0 <= i < |x| - 1 ==> y[i] == x[i]
    requires y[|x| - 1] == if spoilt then Bad else x[|x| - 1]
    ensures if spoilt && FirstStop(x) == |x| - 1 then Outcome(y) == Err(Malformed)
            else Outcome(y) == Outcome(x) && NotedHops(y) == NotedHops(x)
  {
    var n := FirstStop(x);
    if spoilt && n == |x| - 1 {
      StopsAt(y, n);
    } else {
      SameUpToStop(x, y);
    }
  }

  lemma SeenExtends(r: Reader, base: seq<Raw>, changed: seq<Raw>, behind: bool)
    requires Extends(base, changed, behind)
    ensures var x, y := SeeAll(r, base), SeeAll(r, changed);
            && (forall i :: 0 <= i < |x| - 1 ==> y[i] == x[i])
            && y[|x| - 1] == if behind && |base[|x| - 1].bytes| > MAX_ELEMENT then Bad else x[|x| - 1]
  {
  }

  /** Header maps that differ in `X-Forwarded-For` alone. */
  ghost predicate SameElsewhere(h: Headers, g: Headers) {
    forall name :: name != X_FORWARDED_FOR ==> Lines(h, name) == Lines(g, name)
  }

  lemma LinesWith(h: Headers, n: string, lines: seq<Bytes>, name: string)
    ensures Lines(WithLines(h, n, lines), name) == if name == n then lines else Lines(h, name)
  {
  }

  /** What a resolver that does not preserve leaves under a name that is not the audit header's. */
  function Left(rs: Resolver, peer: Option<Ip>, h: Headers, name: string): seq<Bytes>
    requires !rs.mode.Preserve?
  {
    var client := Resolve(rs, peer, h);
    if rs.clientHeader == Some(name) then
      (if client.Peer? || client.Forwarded? then [rs.reader.text.show(client.ip)] else [])
    else if name == X_FORWARDED_FOR then NewForwardedFor(rs, peer, h)
    else if name == X_REAL_IP || name == FORWARDED then []
    else Lines(h, name)
  }

  lemma RewrittenLines(rs: Resolver, peer: Option<Ip>, h: Headers, name: string)
    requires rs.Valid() && !rs.mode.Preserve? && Some(name) != rs.auditHeader
    ensures Lines(Rewritten(rs, peer, h), name) == Left(rs, peer, h, name)
  {
    var arrived := Lines(h, X_FORWARDED_FOR);
    var audited := if rs.auditHeader.Some? then WithLines(h, rs.auditHeader.value, arrived) else h;
    if rs.auditHeader.Some? {
      LinesWith(h, rs.auditHeader.value, arrived, name);
    }
    var bare := audited - {X_REAL_IP, FORWARDED};
    assert Lines(bare, name) == if name == X_REAL_IP || name == FORWARDED then [] else Lines(audited, name);
    var xff := NewForwardedFor(rs, peer, h);
    LinesWith(bare, X_FORWARDED_FOR, xff, name);
    if rs.clientHeader.Some? {
      LinesWith(WithLines(bare, X_FORWARDED_FOR, xff), rs.clientHeader.value,
                Left(rs, peer, h, rs.clientHeader.value), name);
    }
  }

  /** The same reading of the list leaves the same headers. */
  lemma SameReadingSameHeaders(rs: Resolver, peer: Option<Ip>, h: Headers, g: Headers, name: string)
    requires rs.Valid() && rs.source.FromForwardedFor?
    requires rs.mode.Verified? || rs.mode.Resolved? || rs.mode.Remove?
    requires SameElsewhere(h, g)
    requires var x, y := SeenIn(rs.reader, Lines(h, X_FORWARDED_FOR)), SeenIn(rs.reader, Lines(g, X_FORWARDED_FOR));
             Outcome(y) == Outcome(x) && NotedHops(y) == NotedHops(x)
    requires Some(name) != rs.auditHeader
    ensures Resolve(rs, peer, g) == Resolve(rs, peer, h)
    ensures Lines(Rewritten(rs, peer, g), name) == Lines(Rewritten(rs, peer, h), name)
  {
    SameReadingSameResolution(rs, peer, h, g);
    SameLeft(rs, peer, h, g, name);
  }

  lemma SameLeft(rs: Resolver, peer: Option<Ip>, h: Headers, g: Headers, name: string)
    requires rs.Valid() && !rs.mode.Preserve? && Some(name) != rs.auditHeader && SameElsewhere(h, g)
    requires Resolve(rs, peer, g) == Resolve(rs, peer, h)
    requires NewForwardedFor(rs, peer, g) == NewForwardedFor(rs, peer, h)
    ensures Lines(Rewritten(rs, peer, g), name) == Lines(Rewritten(rs, peer, h), name)
  {
    RewrittenLines(rs, peer, h, name);
    RewrittenLines(rs, peer, g, name);
  }

  lemma SameReadingSameResolution(rs: Resolver, peer: Option<Ip>, h: Headers, g: Headers)
    requires rs.source.FromForwardedFor?
    requires rs.mode.Verified? || rs.mode.Resolved? || rs.mode.Remove?
    requires var x, y := SeenIn(rs.reader, Lines(h, X_FORWARDED_FOR)), SeenIn(rs.reader, Lines(g, X_FORWARDED_FOR));
             Outcome(y) == Outcome(x) && NotedHops(y) == NotedHops(x)
    ensures Resolve(rs, peer, g) == Resolve(rs, peer, h)
    ensures NewForwardedFor(rs, peer, g) == NewForwardedFor(rs, peer, h)
  {
    assert Report(rs, g) == Report(rs, h);
    assert Noted(rs, peer, g) == Noted(rs, peer, h);
  }

  /**
   Non-interference of the headers: in the modes that do not pass the list on, whatever a client
   adds left of its own address, the request carries the same resolution and the same header under
   every name but the audit header's.
   */
  lemma LeftLeavesNoTrace(rs: Resolver, peer: Option<Ip>, h: Headers, g: Headers, name: string,
                          earlier: seq<Bytes>, left: Option<Bytes>, line: Bytes, later: seq<Bytes>, ip: Ip)
    requires rs.Valid() && rs.source.FromForwardedFor?
    requires rs.mode.Verified? || rs.mode.Resolved? || rs.mode.Remove?
    requires SameElsewhere(h, g)
    requires Lines(h, X_FORWARDED_FOR) == [line] + later
    requires Lines(g, X_FORWARDED_FOR) == earlier + [Behind(left, line)] + later
    requires Outcome(SeenIn(rs.reader, [line] + later)) == Ok(Some(ip)) && !rs.reader.trusts(ip)
    requires FirstStop(SeenIn(rs.reader, [line] + later)) < |SeenIn(rs.reader, [line] + later)|
    requires |ClientElement(rs.reader, [line] + later)| <= MAX_ELEMENT
    requires Some(name) != rs.auditHeader
    ensures Resolve(rs, peer, g) == Resolve(rs, peer, h)
    ensures Lines(Rewritten(rs, peer, g), name) == Lines(Rewritten(rs, peer, h), name)
  {
    LeftIsIgnored(rs.reader, earlier, left, line, later, ip);
    SameReadingSameHeaders(rs, peer, h, g, name);
  }

  // ---- the verified chain ------------------------------------------------------------------------

  /** A list element as it should be written: no comma in it, no space or tab around it. */
  predicate Plain(s: Bytes) {
    0 < |s| <= 45 && !IsOws(s[0]) && !IsOws(s[|s| - 1]) && forall i :: 0 <= i < |s| ==> s[i] != COMMA
  }

  /** What holds of addresses as text: showing one and reading it back gives it, and it fits a list. */
  ghost predicate Lawful(text: Text) {
    forall ip: Ip :: text.parse(text.show(ip)) == Some(ip) && Plain(text.show(ip))
  }

  lemma TrimSpaced(s: Bytes)
    requires s != [] && !IsOws(s[0]) && !IsOws(s[|s| - 1])
    ensures Trim(s) == s && Trim([SPACE] + s) == s
  {
    var t := [SPACE] + s;
    assert t[1..] == s;
    assert LeadingOws(t) == 1 && EndOfText(t) == |t|;
    assert LeadingOws(s) == 0 && EndOfText(s) == |s|;
  }

  function Kind(r: Reader, ip: Ip): Seen {
    if r.trusts(ip) then Hop(ip) else Client(ip)
  }

  lemma ShownElement(r: Reader, ip: Ip)
    requires Lawful(r.text)
    ensures See(r, Raw(r.text.show(ip), true)) == Kind(r, ip)
    ensures See(r, Raw([SPACE] + r.text.show(ip), false)) == Kind(r, ip)
  {
    TrimSpaced(r.text.show(ip));
  }

  lemma RawsShown(front: Bytes, shown: Bytes)
    requires Plain(shown)
    ensures Raws(shown) == [Raw(shown, true)]
    ensures Raws(front + [COMMA, SPACE] + shown) == [Raw([SPACE] + shown, false)] + Raws(front)
  {
    assert LastComma(shown, 0, |shown|).None?;
    RawsAt(front, [SPACE] + shown);
    assert front + [COMMA, SPACE] + shown == front + [COMMA] + ([SPACE] + shown);
  }

  /** `raws` are the addresses `ips`, the last first. */
  predicate Lists(r: Reader, raws: seq<Raw>, ips: seq<Ip>) {
    |raws| == |ips| && forall i :: 0 <= i < |ips| ==> See(r, raws[i]) == Kind(r, ips[|ips| - 1 - i])
  }

  lemma ListsOneMore(r: Reader, raws: seq<Raw>, ips: seq<Ip>, raw: Raw)
    requires ips != [] && Lists(r, raws, ips[..|ips| - 1])
    requires See(r, raw) == Kind(r, ips[|ips| - 1])
    ensures Lists(r, [raw] + raws, ips)
  {
    var all := [raw] + raws;
    forall i | 0 <= i < |ips|
      ensures See(r, all[i]) == Kind(r, ips[|ips| - 1 - i])
    {
      if i > 0 {
        assert all[i] == raws[i - 1];
      }
    }
  }

  /** A reader sees in a chain exactly its addresses, the last first. */
  lemma {:induction false} ChainSeen(r: Reader, ips: seq<Ip>)
    requires Lawful(r.text) && ips != []
    ensures Lists(r, Raws(ChainText(r.text, ips)), ips)
  {
    var n := |ips| - 1;
    var shown := r.text.show(ips[n]);
    assert Plain(shown);
    ShownElement(r, ips[n]);
    if n == 0 {
      RawsShown([], shown);
    } else {
      RawsShown(ChainText(r.text, ips[..n]), shown);
      ChainSeen(r, ips[..n]);
      ListsOneMore(r, Raws(ChainText(r.text, ips[..n])), ips, Raw([SPACE] + shown, false));
    }
  }

  /** A list whose every element but the leftmost is a trusted proxy, by its length. */
  lemma AllHopsBut(seen: seq<Seen>, ip: Ip)
    requires seen != []
    requires forall i :: 0 <= i < |seen| - 1 ==> seen[i].Hop?
    requires seen[|seen| - 1] == Hop(ip) || seen[|seen| - 1] == Client(ip)
    ensures Outcome(seen) == if |seen| <= MAX_HOPS then Ok(Some(ip)) else Err(TooManyHops)
  {
    var n := |seen| - 1;
    StopsAt(seen, if seen[n].Client? then n else n + 1);
  }

  lemma {:induction false} HopCount(seen: seq<Seen>)
    ensures |HopIps(seen)| <= |seen|
  {
    if seen != [] {
      HopCount(seen[..|seen| - 1]);
    }
  }

  /** The chain names the client first, then trusted proxies only, and at most 33 addresses. */
  lemma ChainShape(rs: Resolver, peer: Option<Ip>, h: Headers)
    requires var client := Resolve(rs, peer, h); client.Peer? || client.Forwarded?
    ensures var client, chain := Resolve(rs, peer, h), Chain(Resolve(rs, peer, h), Noted(rs, peer, h), peer);
            && 0 < |chain| <= MAX_HOPS + 1 && chain[0] == client.ip
            && forall i :: 0 < i < |chain| ==> rs.reader.trusts(chain[i])
  {
    if Resolve(rs, peer, h).Forwarded? {
      HopsNoted(rs.reader, Lines(h, X_FORWARDED_FOR));
    }
  }

  lemma HopsNoted(r: Reader, lines: seq<Bytes>)
    ensures var seen := SeenIn(r, lines);
            && (forall ip :: ip in NotedHops(seen) ==> r.trusts(ip))
            && (Outcome(seen).Ok? && Outcome(seen).value.Some? ==> |NotedHops(seen)| < MAX_HOPS)
  {
    var seen := SeenIn(r, lines);
    var n := FirstStop(seen);
    HopsTrusted(r, RawsOf(lines), n);
    HopCount(seen[..n]);
    assert n == |seen| ==> seen[..n] == seen;
  }

  /**
   The verified chain round trip: a downstream resolver that trusts this proxy and every address this
   one trusts, reading the rewritten `X-Forwarded-For`, resolves the same client, which is also the
   chain's first address, if and only if the chain has at most 32 addresses. A 33rd is possible, and
   makes the list unreadable downstream.
   */
  lemma VerifiedRoundTrip(rs: Resolver, d: Resolver, peer: Option<Ip>, h: Headers, me: Ip)
    requires rs.Valid() && rs.mode.Verified?
    requires Resolve(rs, peer, h).Peer? || Resolve(rs, peer, h).Forwarded?
    requires d.source.FromForwardedFor? && d.reader.text == rs.reader.text && Lawful(d.reader.text)
    requires d.reader.trusts(me) && forall ip :: rs.reader.trusts(ip) ==> d.reader.trusts(ip)
    ensures var client, chain := Resolve(rs, peer, h), Chain(Resolve(rs, peer, h), Noted(rs, peer, h), peer);
            && 0 < |chain| <= MAX_HOPS + 1 && chain[0] == client.ip
            && Resolve(d, Some(me), Rewritten(rs, peer, h)) ==
               if |chain| <= MAX_HOPS then Forwarded(client.ip) else Unreadable(TooManyHops)
  {
    var chain := Chain(Resolve(rs, peer, h), Noted(rs, peer, h), peer);
    ChainShape(rs, peer, h);
    RewrittenLines(rs, peer, h, X_FORWARDED_FOR);
    var text := ChainText(d.reader.text, chain);
    assert Lines(Rewritten(rs, peer, h), X_FORWARDED_FOR) == [text];
    ChainRead(d.reader, chain);
  }

  lemma ChainRead(r: Reader, chain: seq<Ip>)
    requires Lawful(r.text) && chain != []
    requires forall i :: 0 < i < |chain| ==> r.trusts(chain[i])
    ensures Outcome(SeenIn(r, [ChainText(r.text, chain)])) ==
            if |chain| <= MAX_HOPS then Ok(Some(chain[0])) else Err(TooManyHops)
  {
    ChainSeen(r, chain);
    OneLine(ChainText(r.text, chain));
    ListRead(r, Raws(ChainText(r.text, chain)), chain);
  }

  lemma OneLine(line: Bytes)
    ensures RawsOf([line]) == Raws(line)
  {
  }

  lemma ListRead(r: Reader, raws: seq<Raw>, chain: seq<Ip>)
    requires chain != [] && Lists(r, raws, chain)
    requires forall i :: 0 < i < |chain| ==> r.trusts(chain[i])
    ensures Outcome(SeeAll(r, raws)) == if |chain| <= MAX_HOPS then Ok(Some(chain[0])) else Err(TooManyHops)
  {
    var seen := SeeAll(r, raws);
    forall i | 0 <= i < |seen|
      ensures seen[i] == Kind(r, chain[|chain| - 1 - i])
    {
    }
    AllHopsBut(seen, chain[0]);
  }

  lemma {:induction false} AllHopIps(seen: seq<Seen>)
    requires forall i :: 0 <= i < |seen| ==> seen[i].Hop?
    ensures |HopIps(seen)| == |seen|
  {
    if seen != [] {
      AllHopIps(seen[..|seen| - 1]);
    }
  }

  /** Each proxy that verifies a chain of trusted hops behind an untrusted client makes it one longer: 32 become 33. */
  lemma ChainGrows(rs: Resolver, peer: Ip, h: Headers, chain: seq<Ip>)
    requires rs.mode.Verified? && rs.source.FromForwardedFor? && Lawful(rs.reader.text)
    requires rs.reader.trusts(peer)
    requires 0 < |chain| <= MAX_HOPS && !rs.reader.trusts(chain[0])
    requires forall i :: 0 < i < |chain| ==> rs.reader.trusts(chain[i])
    requires Lines(h, X_FORWARDED_FOR) == [ChainText(rs.reader.text, chain)]
    ensures |Chain(Resolve(rs, Some(peer), h), Noted(rs, Some(peer), h), Some(peer))| == |chain| + 1
  {
    ChainRead(rs.reader, chain);
    ChainNoted(rs.reader, chain);
    OneLonger(rs, peer, h, chain[0]);
  }

  lemma ChainNoted(r: Reader, chain: seq<Ip>)
    requires Lawful(r.text) && chain != [] && !r.trusts(chain[0])
    requires forall i :: 0 < i < |chain| ==> r.trusts(chain[i])
    ensures |NotedHops(SeenIn(r, [ChainText(r.text, chain)]))| == |chain| - 1
  {
    ChainSeen(r, chain);
    OneLine(ChainText(r.text, chain));
    ListHops(r, Raws(ChainText(r.text, chain)), chain);
  }

  /** The chain is the client, the proxies noted and the peer. */
  lemma OneLonger(rs: Resolver, peer: Ip, h: Headers, client: Ip)
    requires rs.mode.Verified? && rs.source.FromForwardedFor? && rs.reader.trusts(peer)
    requires Outcome(SeenIn(rs.reader, Lines(h, X_FORWARDED_FOR))) == Ok(Some(client)) && !rs.reader.trusts(client)
    ensures |Chain(Resolve(rs, Some(peer), h), Noted(rs, Some(peer), h), Some(peer))| ==
            |NotedHops(SeenIn(rs.reader, Lines(h, X_FORWARDED_FOR)))| + 2
  {
  }

  lemma ListHops(r: Reader, raws: seq<Raw>, chain: seq<Ip>)
    requires chain != [] && Lists(r, raws, chain) && !r.trusts(chain[0])
    requires forall i :: 0 < i < |chain| ==> r.trusts(chain[i])
    ensures |NotedHops(SeeAll(r, raws))| == |chain| - 1
  {
    var seen, n := SeeAll(r, raws), |chain| - 1;
    forall i | 0 <= i < |seen|
      ensures seen[i] == Kind(r, chain[|chain| - 1 - i])
    {
    }
    StopsAt(seen, n);
    AllHopIps(seen[..n]);
  }

  // ---- a lawful text form exists ------------------------------------------------------------------

  function Power(k: nat): nat {
    if k == 0 then 1 else 16 * Power(k - 1)
  }

  function Digits(n: nat, k: nat): (s: Bytes)
    ensures |s| == k && forall i :: 0 <= i < k ==> 48 <= s[i] < 64
  {
    if k == 0 then [] else Digits(n / 16, k - 1) + [(48 + n % 16) as Byte]
  }

  function Value(s: Bytes): int {
    if s == [] then 0 else 16 * Value(s[..|s| - 1]) + (s[|s| - 1] as int - 48)
  }

  lemma {:induction false} DigitsValue(n: nat, k: nat)
    requires n < Power(k)
    ensures Value(Digits(n, k)) == n
  {
    if k > 0 {
      DigitsValue(n / 16, k - 1);
      assert Digits(n, k)[..k - 1] == Digits(n / 16, k - 1);
    }
  }

  /** Thirty-two hexadecimal digits for every address. */
  function HexText(): Text {
    Text(s => var v := Value(s); if 0 <= v < IP_COUNT then Some(v) else None, (ip: Ip) => Digits(ip, 32))
  }

  lemma PowerEnough()
    ensures IP_COUNT <= Power(32)
  {
    assert Power(4) == 0x1_0000;
    PowerAdds(4, 4);
    PowerAdds(8, 8);
    PowerAdds(16, 16);
  }

  lemma {:induction false} PowerAdds(j: nat, k: nat)
    ensures Power(j + k) == Power(j) * Power(k)
  {
    if j > 0 {
      PowerAdds(j - 1, k);
    }
  }

  /** So what the laws ask of addresses as text can be had. */
  lemma LawfulTextExists()
    ensures Lawful(HexText())
  {
    PowerEnough();
    forall ip: Ip
      ensures HexText().parse(HexText().show(ip)) == Some(ip) && Plain(HexText().show(ip))
    {
      DigitsValue(ip, 32);
    }
  }
}
