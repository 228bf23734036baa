/**
 What a request leaves with (`apply` in src/client_address.rs), header by header, and what the next
 proxy reads in the list of the mode that appends.
 */
module HeaderCases {
  import opened Basics
  import opened ForwardedFor
  import opened ClientAddress
  import opened ForwardingLaws
  import opened ClientCases

  /** The resolved address as text, or nothing. */
  function Shown(text: Text, client: Resolution): seq<Bytes> {
    match client
    case Peer(ip) => [text.show(ip)]
    case Forwarded(ip) => [text.show(ip)]
    case _ => []
  }

  /**
   Under the client header stands the client and nothing that came with the request; under the audit
   header the list as it came; and every other name is left alone, but the forwarding headers.
   */
  lemma OtherHeadersAre(rs: Resolver, peer: Option<Ip>, h: Headers, client: Resolution, name: string)
    requires rs.Valid() && ClientIs(rs, peer, h, client)
    ensures rs.clientHeader == Some(name) ==> Lines(Rewritten(rs, peer, h), name) == Shown(rs.reader.text, client)
    ensures rs.auditHeader == Some(name) ==> Lines(Rewritten(rs, peer, h), name) == Lines(h, X_FORWARDED_FOR)
    ensures rs.clientHeader != Some(name) && rs.auditHeader != Some(name) && (name == X_REAL_IP || name == FORWARDED) ==>
              Lines(Rewritten(rs, peer, h), name) == if rs.mode.Preserve? then Lines(h, name) else []
    ensures rs.clientHeader != Some(name) && rs.auditHeader != Some(name)
            && name != X_REAL_IP && name != FORWARDED && name != X_FORWARDED_FOR ==>
              Lines(Rewritten(rs, peer, h), name) == Lines(h, name)
  {
    ResolveIs(rs, peer, h, client);
    var arrived := Lines(h, X_FORWARDED_FOR);
    var audited := if rs.auditHeader.Some? then WithLines(h, rs.auditHeader.value, arrived) else h;
    if rs.auditHeader.Some? {
      LinesWith(h, rs.auditHeader.value, arrived, name);
    }
    var bare := audited - {X_REAL_IP, FORWARDED};
    if !rs.mode.Preserve? {
      LinesWith(bare, X_FORWARDED_FOR, NewForwardedFor(rs, peer, h), name);
    }
    var forwarded := if rs.mode.Preserve? then audited else WithLines(bare, X_FORWARDED_FOR, NewForwardedFor(rs, peer, h));
    if rs.clientHeader.Some? {
      LinesWith(forwarded, rs.clientHeader.value, Shown(rs.reader.text, client), name);
    }
  }

  /** The list: kept, gone, the client alone, or as `verified` and `append` write it. */
  lemma ListIs(rs: Resolver, peer: Option<Ip>, h: Headers, client: Resolution)
    requires rs.Valid() && ClientIs(rs, peer, h, client)
    ensures var list, arrived := Lines(Rewritten(rs, peer, h), X_FORWARDED_FOR), Lines(h, X_FORWARDED_FOR);
            match rs.mode
            case Preserve => list == arrived
            case Remove => list == []
            case Resolved => list == Shown(rs.reader.text, client)
            case Verified => (client.Peer? ==> list == Shown(rs.reader.text, client)) &&
                             (client.Unreadable? || client.Unavailable? ==> list == []) &&
                             (client.Forwarded? ==> |list| == 1)
            case Append => if peer.None? && arrived == [] then list == [] else |list| == 1
  {
    ResolveIs(rs, peer, h, client);
    if rs.mode.Preserve? {
      if rs.auditHeader.Some? {
        LinesWith(h, rs.auditHeader.value, Lines(h, X_FORWARDED_FOR), X_FORWARDED_FOR);
      }
    } else {
      RewrittenLines(rs, peer, h, X_FORWARDED_FOR);
    }
  }

  // ---- the appended list ---------------------------------------------------------------------------

  /** The same elements in the same order, spaces around them aside. */
  predicate SameElements(x: seq<Raw>, y: seq<Raw>) {
    |x| == |y| && forall i :: 0 <= i < |x| ==> Trim(x[i].bytes) == Trim(y[i].bytes)
  }

  lemma AroundSpaced(s: Bytes, a: nat, b: nat)
    requires Around(s, a, b)
    ensures Around([SPACE] + s, a + 1, b + 1) && ([SPACE] + s)[a + 1..b + 1] == s[a..b]
  {
    var t := [SPACE] + s;
    assert forall i :: 0 < i < |t| ==> t[i] == s[i - 1];
    assert t[..a + 1] == [SPACE] + s[..a];
    assert t[b + 1..] == s[b..];
  }

  lemma TrimSpace(s: Bytes)
    ensures Trim([SPACE] + s) == Trim(s)
  {
    var a, b := Stands(s);
    TrimIs(s, a, b);
    AroundSpaced(s, a, b);
    TrimIs([SPACE] + s, a + 1, b + 1);
  }

  lemma SameJoined(front: seq<Raw>, x: seq<Raw>, y: seq<Raw>, back: seq<Raw>)
    requires SameElements(x, y)
    ensures SameElements(front + x, front + y) && SameElements(x + back, y + back)
  {
  }

  lemma SameNotFirst(x: seq<Raw>)
    requires x != []
    ensures SameElements(NotFirst(x), x)
  {
  }

  lemma SameTwice(x: seq<Raw>, y: seq<Raw>, z: seq<Raw>)
    requires SameElements(x, y) && SameElements(y, z)
    ensures SameElements(x, z)
  {
  }

  lemma AloneRaws(line: Bytes)
    requires forall i :: 0 <= i < |line| ==> line[i] != COMMA
    ensures Raws(line) == [Raw(line, true)]
  {
    assert LastComma(line, 0, |line|).None?;
  }

  lemma NoCommaSpaced(line: Bytes)
    requires forall i :: 0 <= i < |line| ==> line[i] != COMMA
    ensures var t := [SPACE] + line; forall i :: 0 <= i < |t| ==> t[i] != COMMA
  {
    var t := [SPACE] + line;
    assert forall i :: 0 < i < |t| ==> t[i] == line[i - 1];
  }

  lemma SpacedAlone(line: Bytes)
    requires forall i :: 0 <= i < |line| ==> line[i] != COMMA
    ensures SameElements(Raws([SPACE] + line), Raws(line))
  {
    TrimSpace(line);
    NoCommaSpaced(line);
    AloneRaws(line);
    AloneRaws([SPACE] + line);
  }

  lemma Shifted<T>(x: seq<T>, b: seq<T>, c: seq<T>, a: seq<T>)
    ensures x + (b + c + a) == (x + b) + c + a
  {
  }

  lemma SpacedMore(before: Bytes, after: Bytes)
    requires forall i :: 0 <= i < |after| ==> after[i] != COMMA
    requires SameElements(Raws([SPACE] + before), Raws(before))
    ensures SameElements(Raws([SPACE] + (before + [COMMA] + after)), Raws(before + [COMMA] + after))
  {
    var spaced := [SPACE] + before;
    Shifted([SPACE], before, [COMMA], after);
    RawsAt(before, after);
    RawsAt(spaced, after);
    SameJoined([Raw(after, false)], Raws(spaced), Raws(before), []);
  }

  lemma {:induction false} RawsSpaced(line: Bytes)
    ensures SameElements(Raws([SPACE] + line), Raws(line))
    decreases |line|
  {
    var c := LastComma(line, 0, |line|);
    if c.None? {
      SpacedAlone(line);
    } else {
      RawsSpaced(line[..c.value]);
      SpacedMore(line[..c.value], line[c.value + 1..]);
      CutAt(line, c.value);
    }
  }

  lemma RawsAppended(left: Bytes, line: Bytes)
    ensures SameElements(Raws(left + [COMMA, SPACE] + line), Raws(line) + Raws(left))
  {
    var spaced := [SPACE] + line;
    assert left + [COMMA, SPACE] + line == left + [COMMA] + spaced;
    RawsBehindComma(left, spaced);
    SameNotFirst(Raws(spaced));
    RawsSpaced(line);
    SameTwice(NotFirst(Raws(spaced)), Raws(spaced), Raws(line));
    SameJoined([], NotFirst(Raws(spaced)), Raws(line), Raws(left));
  }

  /** Lines joined into one read as the lines did. */
  lemma {:induction false} JoinedReads(lines: seq<Bytes>)
    requires lines != []
    ensures SameElements(Raws(JoinedLines(lines)), RawsOf(lines))
  {
    var n := |lines| - 1;
    if n == 0 {
      assert lines == [lines[0]];
      OneLine(lines[0]);
    } else {
      JoinedReads(lines[..n]);
      JoinedMore(JoinedLines(lines[..n]), RawsOf(lines[..n]), lines[n]);
    }
  }

  lemma JoinedMore(joined: Bytes, raws: seq<Raw>, line: Bytes)
    requires SameElements(Raws(joined), raws)
    ensures SameElements(Raws(joined + [COMMA, SPACE] + line), Raws(line) + raws)
  {
    RawsAppended(joined, line);
    SameJoined(Raws(line), Raws(joined), raws, []);
    SameTwice(Raws(joined + [COMMA, SPACE] + line), Raws(line) + Raws(joined), Raws(line) + raws);
  }

  /**
   The next proxy reads in an appended list this proxy's peer first, then every element that came, in
   order; without a peer, the elements that came.
   */
  lemma AppendedReads(rs: Resolver, peer: Option<Ip>, h: Headers)
    requires rs.Valid() && rs.mode.Append? && Lawful(rs.reader.text) && (peer.Some? || Lines(h, X_FORWARDED_FOR) != [])
    ensures var list, arrived := Lines(Rewritten(rs, peer, h), X_FORWARDED_FOR), Lines(h, X_FORWARDED_FOR);
            |list| == 1 &&
            SameElements(Raws(list[0]),
                         (if peer.Some? then [Raw(rs.reader.text.show(peer.value), true)] else []) + RawsOf(arrived))
  {
    RewrittenLines(rs, peer, h, X_FORWARDED_FOR);
    if peer.Some? {
      PeerReads(Lines(h, X_FORWARDED_FOR), rs.reader.text, peer.value);
    } else {
      JoinedReads(Lines(h, X_FORWARDED_FOR));
    }
  }

  lemma PeerReads(arrived: seq<Bytes>, text: Text, ip: Ip)
    requires Lawful(text)
    ensures SameElements(Raws(JoinedLines(arrived + [text.show(ip)])), [Raw(text.show(ip), true)] + RawsOf(arrived))
  {
    var shown := text.show(ip);
    JoinedReads(arrived + [shown]);
    assert Plain(shown);
    RawsOfAppend(arrived, [shown]);
    OneLine(shown);
    RawsShown([], shown);
  }

  // ---- the verified list ---------------------------------------------------------------------------

  /** Every trusted address is at one of the positions. */
  predicate Covers(seen: seq<Seen>, at: seq<nat>) {
    forall p :: 0 <= p < |seen| && seen[p].Hop? ==> p in at
  }

  /** `ips` are the trusted addresses among the elements, in their order: those at the positions `at`. */
  predicate Picks(seen: seq<Seen>, ips: seq<Ip>, at: seq<nat>) {
    && |at| == |ips|
    && (forall i :: 0 <= i < |at| ==> at[i] < |seen| && seen[at[i]] == Hop(ips[i]))
    && (forall i, j :: 0 <= i < j < |at| ==> at[i] < at[j])
    && Covers(seen, at)
  }

  lemma CoversMore(seen: seq<Seen>, at: seq<nat>, more: seq<nat>)
    requires seen != [] && Covers(seen[..|seen| - 1], at)
    requires more == if seen[|seen| - 1].Hop? then at + [|seen| - 1] else at
    ensures Covers(seen, more)
  {
    forall p | 0 <= p < |seen| && seen[p].Hop?
      ensures p in more
    {
      if p == |seen| - 1 {
        assert more[|at|] == p;
      } else {
        assert seen[..|seen| - 1][p] == seen[p];
        assert p in at;
      }
    }
  }

  lemma PicksMore(seen: seq<Seen>, ips: seq<Ip>, at: seq<nat>)
    requires seen != [] && Picks(seen[..|seen| - 1], ips, at)
    ensures var n := |seen| - 1;
            if seen[n].Hop? then Picks(seen, ips + [seen[n].ip], at + [n]) else Picks(seen, ips, at)
  {
    var n := |seen| - 1;
    CoversMore(seen, at, if seen[n].Hop? then at + [n] else at);
    forall i | 0 <= i < |at|
      ensures at[i] < n && seen[at[i]] == Hop(ips[i])
    {
      assert seen[..n][at[i]] == seen[at[i]];
    }
  }

  lemma {:induction false} HopsPicked(seen: seq<Seen>) returns (at: seq<nat>)
    ensures Picks(seen, HopIps(seen), at)
  {
    at := [];
    if seen != [] {
      var n := |seen| - 1;
      at := HopsPicked(seen[..n]);
      PicksMore(seen, HopIps(seen[..n]), at);
      if seen[n].Hop? {
        at := at + [n];
      } else {
        assert HopIps(seen) == HopIps(seen[..n]);
      }
    }
  }

  /** Blanks left of the leftmost address add nothing. */
  lemma {:induction false} LeftmostLast(seen: seq<Seen>, n: nat, ip: Ip)
    requires Leftmost(seen, n, ip)
    ensures HopIps(seen) == HopIps(seen[..n]) + [ip]
    decreases |seen|
  {
    var last := |seen| - 1;
    if n < last {
      LeftmostLast(seen[..last], n, ip);
      assert seen[..last][..n] == seen[..n];
    }
  }

  /** The elements of a chain, as text, from the right. */
  function Elements(text: Text, ips: seq<Ip>): seq<Raw> {
    seq(|ips|, i requires 0 <= i < |ips| => Raw(text.show(ips[i]), true))
  }

  lemma ElementsMore(text: Text, ips: seq<Ip>)
    requires ips != []
    ensures var n := |ips| - 1;
            Elements(text, Reversed(ips)) == [Raw(text.show(ips[n]), true)] + Elements(text, Reversed(ips[..n]))
  {
    ElementsFirst(text, ips[|ips| - 1], Reversed(ips[..|ips| - 1]));
  }

  lemma ElementsFirst(text: Text, ip: Ip, ips: seq<Ip>)
    ensures Elements(text, [ip] + ips) == [Raw(text.show(ip), true)] + Elements(text, ips)
  {
    var x, y := Elements(text, [ip] + ips), [Raw(text.show(ip), true)] + Elements(text, ips);
    forall i | 0 <= i < |x|
      ensures x[i] == y[i]
    {
    }
  }

  lemma ShownMore(front: Bytes, raws: seq<Raw>, shown: Bytes)
    requires Plain(shown) && SameElements(Raws(front), raws)
    ensures SameElements(Raws(front + [COMMA, SPACE] + shown), [Raw(shown, true)] + raws)
  {
    RawsShown(front, shown);
    TrimSpace(shown);
    SameJoined([], [Raw([SPACE] + shown, false)], [Raw(shown, true)], Raws(front));
    SameJoined([Raw(shown, true)], Raws(front), raws, []);
    SameTwice([Raw([SPACE] + shown, false)] + Raws(front), [Raw(shown, true)] + Raws(front), [Raw(shown, true)] + raws);
  }

  lemma {:induction false} ChainElements(text: Text, ips: seq<Ip>)
    requires Lawful(text) && ips != []
    ensures SameElements(Raws(ChainText(text, ips)), Elements(text, Reversed(ips)))
  {
    var n := |ips| - 1;
    var shown := text.show(ips[n]);
    assert Plain(shown);
    ElementsMore(text, ips);
    if n == 0 {
      RawsShown([], shown);
    } else {
      ChainElements(text, ips[..n]);
      ShownMore(ChainText(text, ips[..n]), Elements(text, Reversed(ips[..n])), shown);
    }
  }

  /** Where the client stands: the first address that is not trusted, or the leftmost of all. */
  predicate ClientAt(seen: seq<Seen>, n: nat, ip: Ip) {
    PassesTo(seen, n) && n < |seen| && (seen[n] == Client(ip) || (PassesTo(seen, |seen|) && Leftmost(seen, n, ip)))
  }

  /** The proxies noted are the trusted addresses right of the client, nearest first. */
  lemma NotedAre(seen: seq<Seen>, ip: Ip) returns (n: nat, at: seq<nat>)
    requires ListMeans(seen, Ok(Some(ip)))
    ensures ClientAt(seen, n, ip) && Picks(seen[..n], NotedHops(seen), at)
  {
    if i :| 0 <= i < 32 && PassesTo(seen, i) && i < |seen| && seen[i] == Client(ip) {
      n := i;
      StopsAt(seen, n);
    } else {
      n :| Leftmost(seen, n, ip);
      StopsAt(seen, |seen|);
      LeftmostLast(seen, n, ip);
      assert seen[..|seen|] == seen;
    }
    at := HopsPicked(seen[..n]);
  }

  /**
   The next proxy reads in a verified list this proxy's peer, then the trusted proxies right of the
   client in the order they stood in, then the client.
   */
  lemma VerifiedReads(rs: Resolver, peer: Ip, h: Headers, ip: Ip) returns (n: nat, at: seq<nat>, hops: seq<Ip>)
    requires rs.Valid() && rs.mode.Verified? && rs.source.FromForwardedFor? && Lawful(rs.reader.text)
    requires rs.reader.trusts(peer) && ClientIs(rs, Some(peer), h, Forwarded(ip))
    ensures var seen, list := SeenIn(rs.reader, Lines(h, X_FORWARDED_FOR)), Lines(Rewritten(rs, Some(peer), h), X_FORWARDED_FOR);
            && ClientAt(seen, n, ip) && Picks(seen[..n], hops, at)
            && |list| == 1 && SameElements(Raws(list[0]), Elements(rs.reader.text, [peer] + hops + [ip]))
  {
    n, at := NotedAre(SeenIn(rs.reader, Lines(h, X_FORWARDED_FOR)), ip);
    hops := NotedHops(SeenIn(rs.reader, Lines(h, X_FORWARDED_FOR)));
    VerifiedList(rs, peer, h, ip);
    ChainElements(rs.reader.text, [ip] + Reversed(hops) + [peer]);
    ReversedChain(ip, hops, peer);
  }

  lemma VerifiedList(rs: Resolver, peer: Ip, h: Headers, ip: Ip)
    requires rs.Valid() && rs.mode.Verified? && rs.reader.trusts(peer) && ClientIs(rs, Some(peer), h, Forwarded(ip))
    ensures var hops := if rs.source.FromForwardedFor? then NotedHops(SeenIn(rs.reader, Lines(h, X_FORWARDED_FOR))) else [];
            Lines(Rewritten(rs, Some(peer), h), X_FORWARDED_FOR) ==
            [ChainText(rs.reader.text, [ip] + Reversed(hops) + [peer])]
  {
    ResolveIs(rs, Some(peer), h, Forwarded(ip));
    RewrittenLines(rs, Some(peer), h, X_FORWARDED_FOR);
  }

  lemma ReversedChain(ip: Ip, hops: seq<Ip>, peer: Ip)
    ensures Reversed([ip] + Reversed(hops) + [peer]) == [peer] + hops + [ip]
  {
  }

  /** From a header that names the client alone, the peer and the client. */
  lemma ReportedReads(rs: Resolver, peer: Ip, h: Headers, ip: Ip)
    requires rs.Valid() && rs.mode.Verified? && !rs.source.FromForwardedFor? && Lawful(rs.reader.text)
    requires rs.reader.trusts(peer) && ClientIs(rs, Some(peer), h, Forwarded(ip))
    ensures var list := Lines(Rewritten(rs, Some(peer), h), X_FORWARDED_FOR);
            |list| == 1 && SameElements(Raws(list[0]), Elements(rs.reader.text, [peer, ip]))
  {
    VerifiedList(rs, peer, h, ip);
    ChainElements(rs.reader.text, [ip] + Reversed([]) + [peer]);
    ReversedChain(ip, [], peer);
    assert [peer] + [] + [ip] == [peer, ip];
  }
}
