/**
 Reading `X-Forwarded-For` (src/client_address.rs): a bounded walk over the bytes of every field
 line, right to left, against the plain reading of the list it stands for (section 5.3 and section
 5.6.1 of RFC 9110).
 */
module ForwardedFor {
  import opened Basics

  newtype Byte = b: int | 0 <= b < 256

  type Bytes = seq<Byte>

  const COMMA: Byte := 44
  const SPACE: Byte := 32
  const TAB: Byte := 9
  const MAX_HOPS: nat := 32
  const MAX_ELEMENT: nat := 128

  /** The IPv6 addresses, those of the IPv4-mapped block standing for the IPv4 addresses they are folded to. */
  const IP_COUNT: nat := 0x1_0000_0000_0000_0000_0000_0000_0000_0000

  /** An address in canonical form, by number. */
  type Ip = n: nat | n < IP_COUNT

  datatype Invalid = Malformed | TooManyHops | Repeated | Conflicting

  /** Addresses as text: `parse` accepts every form a header may carry, and canonicalizes. */
  datatype Text = Text(parse: Bytes -> Option<Ip>, show: Ip -> Bytes)

  /** What a resolver knows when it reads a list: the text form, and the proxies it trusts. */
  datatype Reader = Reader(text: Text, trusts: Ip -> bool)

  // ---- bytes --------------------------------------------------------------------------------------

  predicate IsOws(b: Byte) {
    b == SPACE || b == TAB
  }

  /** The last comma of `bytes[lo..hi]`. */
  function LastComma(bytes: Bytes, lo: nat, hi: nat): (c: Option<nat>)
    requires hi <= |bytes|
    ensures c.Some? ==> lo <= c.value < hi && bytes[c.value] == COMMA
    ensures c.Some? ==> forall i :: c.value < i < hi ==> bytes[i] != COMMA
    ensures c.None? ==> forall i :: lo <= i < hi ==> bytes[i] != COMMA
    decreases hi
  {
    if hi <= lo then None
    else if bytes[hi - 1] == COMMA then Some(hi - 1)
    else LastComma(bytes, lo, hi - 1)
  }

  function LeadingOws(bytes: Bytes): (n: nat)
    ensures n <= |bytes|
    ensures forall i :: 0 <= i < n ==> IsOws(bytes[i])
    ensures n < |bytes| ==> !IsOws(bytes[n])
  {
    if bytes == [] || !IsOws(bytes[0]) then 0 else 1 + LeadingOws(bytes[1..])
  }

  /** One past the last byte that is not a space or a tab; 0 when there is none. */
  function EndOfText(bytes: Bytes): (n: nat)
    ensures n <= |bytes|
    ensures forall i :: n <= i < |bytes| ==> IsOws(bytes[i])
    ensures n > 0 ==> !IsOws(bytes[n - 1])
  {
    if bytes == [] then 0
    else if !IsOws(bytes[|bytes| - 1]) then |bytes|
    else EndOfText(bytes[..|bytes| - 1])
  }

  function Trim(bytes: Bytes): Bytes {
    var start := LeadingOws(bytes);
    bytes[start..Max(start, EndOfText(bytes))]
  }

  /** The last list element within reach, trimmed, and what precedes its comma. */
  function LastElement(bytes: Bytes): Result<(Bytes, Option<Bytes>), Invalid> {
    var window := Minus(|bytes|, MAX_ELEMENT + 1);
    var comma := LastComma(bytes, window, |bytes|);
    if comma.Some? then Ok((Trim(bytes[comma.value + 1..]), Some(bytes[..comma.value])))
    else if window == 0 then Ok((Trim(bytes), None))
    else Err(Malformed)
  }

  // ---- the list a header stands for -------------------------------------------------------------

  /** An element as it stands between commas, and whether it opens its field line. */
  datatype Raw = Raw(bytes: Bytes, first: bool)

  /** The elements of one field line, left to right: split at every comma. */
  function Split(line: Bytes): (s: seq<Bytes>)
    ensures s != []
  {
    if line == [] then [[]]
    else
      var rest := Split(line[1..]);
      if line[0] == COMMA then [[]] + rest else [[line[0]] + rest[0]] + rest[1..]
  }

  /** The elements of one field line, right to left. */
  function Raws(line: Bytes): (s: seq<Raw>)
    ensures s != []
  {
    var comma := LastComma(line, 0, |line|);
    if comma.None? then [Raw(line, true)]
    else [Raw(line[comma.value + 1..], false)] + Raws(line[..comma.value])
  }

  /** The elements of every field line, the last line first. */
  function RawsOf(lines: seq<Bytes>): seq<Raw> {
    if lines == [] then [] else Raws(lines[|lines| - 1]) + RawsOf(lines[..|lines| - 1])
  }

  lemma {:induction false} NoCommaSplit(line: Bytes)
    requires forall i :: 0 <= i < |line| ==> line[i] != COMMA
    ensures Split(line) == [line]
  {
    if line != [] {
      NoCommaSplit(line[1..]);
      assert [line[0]] + line[1..] == line;
    }
  }

  lemma {:induction false} SplitAtComma(left: Bytes, right: Bytes)
    ensures Split(left + [COMMA] + right) == Split(left) + Split(right)
  {
    var line := left + [COMMA] + right;
    if left == [] {
      assert line[1..] == right;
    } else {
      assert line[1..] == left[1..] + [COMMA] + right;
      SplitAtComma(left[1..], right);
    }
  }

  /** Reading right to left meets exactly the elements of the split, in reverse. */
  lemma {:induction false} RawsAreSplit(line: Bytes)
    ensures var s, r := Split(line), Raws(line);
            && |r| == |s|
            && forall i :: 0 <= i < |r| ==> r[i] == Raw(s[|s| - 1 - i], i == |s| - 1)
    decreases |line|
  {
    var comma := LastComma(line, 0, |line|);
    if comma.None? {
      NoCommaSplit(line);
    } else {
      var c := comma.value;
      assert line == line[..c] + [COMMA] + line[c + 1..];
      SplitAtComma(line[..c], line[c + 1..]);
      NoCommaSplit(line[c + 1..]);
      RawsAreSplit(line[..c]);
    }
  }

  /** The window of `LastElement` reaches an element exactly when it is not overlong. */
  predicate Overlong(raw: Raw) {
    |raw.bytes| > if raw.first then MAX_ELEMENT + 1 else MAX_ELEMENT
  }

  lemma LastElementReads(rest: Bytes)
    ensures var raw := Raws(rest)[0];
            if Overlong(raw) then LastElement(rest) == Err(Malformed)
            else
              && LastElement(rest).Ok? && LastElement(rest).value.0 == Trim(raw.bytes)
              && var before := LastElement(rest).value.1;
                 if raw.first then before == None && Raws(rest) == [raw]
                 else before.Some? && |before.value| < |rest| && Raws(rest)[1..] == Raws(before.value)
  {
    var window := Minus(|rest|, MAX_ELEMENT + 1);
    var full, near := LastComma(rest, 0, |rest|), LastComma(rest, window, |rest|);
    if near.Some? {
      assert full == near;
    } else if full.Some? {
      assert full.value < window;
    }
  }

  // ---- the plain reading ------------------------------------------------------------------------

  /** What one element is to the reader. */
  datatype Seen = Blank | Hop(ip: Ip) | Client(ip: Ip) | Bad

  function SeeElement(r: Reader, element: Bytes): Seen {
    if element == [] then Blank
    else
      var ip := r.text.parse(element);
      if ip.None? then Bad else if r.trusts(ip.value) then Hop(ip.value) else Client(ip.value)
  }

  function See(r: Reader, raw: Raw): Seen {
    if Overlong(raw) then Bad else SeeElement(r, Trim(raw.bytes))
  }

  function SeeAll(r: Reader, raws: seq<Raw>): (s: seq<Seen>)
    ensures |s| == |raws|
  {
    seq(|raws|, i requires 0 <= i < |raws| => See(r, raws[i]))
  }

  predicate Passes(s: Seen) {
    s.Blank? || s.Hop?
  }

  /** The first element, from the right, that ends the reading. */
  function FirstStop(seen: seq<Seen>): (n: nat)
    ensures n <= |seen|
    ensures forall i :: 0 <= i < n ==> Passes(seen[i])
    ensures n < |seen| ==> !Passes(seen[n])
  {
    if seen == [] || !Passes(seen[0]) then 0 else 1 + FirstStop(seen[1..])
  }

  function HopIps(seen: seq<Seen>): seq<Ip> {
    if seen == [] then []
    else HopIps(seen[..|seen| - 1]) + if seen[|seen| - 1].Hop? then [seen[|seen| - 1].ip] else []
  }

  /**
   The client of a list read right to left: the first address outside the trusted proxies, else the
   leftmost one; an element that is no address where one is needed, or more than 32 elements before
   the client, makes the list unreadable.
   */
  function Outcome(seen: seq<Seen>): Result<Option<Ip>, Invalid> {
    var n := FirstStop(seen);
    if n >= MAX_HOPS && |seen| > MAX_HOPS then Err(TooManyHops)
    else if n < |seen| then (if seen[n].Client? then Ok(Some(seen[n].ip)) else Err(Malformed))
    else
      var hops := HopIps(seen);
      Ok(if hops == [] then None else Some(hops[|hops| - 1]))
  }

  /** The trusted proxies right of the client, nearest first; the leftmost of an all-trusted list is the client. */
  function NotedHops(seen: seq<Seen>): seq<Ip> {
    var n := FirstStop(seen);
    var hops := HopIps(seen[..n]);
    if n < |seen| || hops == [] then hops else hops[..|hops| - 1]
  }

  function SeenIn(r: Reader, lines: seq<Bytes>): seq<Seen> {
    SeeAll(r, RawsOf(lines))
  }

  lemma {:induction false} StopsAt(seen: seq<Seen>, n: nat)
    requires n <= |seen|
    requires forall i :: 0 <= i < n ==> Passes(seen[i])
    requires n < |seen| ==> !Passes(seen[n])
    ensures FirstStop(seen) == n
  {
    if n > 0 {
      StopsAt(seen[1..], n - 1);
    }
  }

  // ---- the walk ------------------------------------------------------------------------------------

  /** What the walk holds after reading `n` elements. */
  ghost predicate Progress(seen: seq<Seen>, n: nat, noting: bool, leftmost: Option<Ip>, hops: seq<Ip>) {
    && n <= |seen| && n <= MAX_HOPS
    && (forall j :: 0 <= j < n ==> Passes(seen[j]))
    && var all := HopIps(seen[..n]);
       && hops == (if noting then all else [])
       && leftmost == if all == [] then None else Some(all[|all| - 1])
  }

  lemma PassOne(seen: seq<Seen>, n: nat, noting: bool, leftmost: Option<Ip>, hops: seq<Ip>)
    requires Progress(seen, n, noting, leftmost, hops)
    requires n < |seen| && n < MAX_HOPS
    ensures seen[n].Blank? ==> Progress(seen, n + 1, noting, leftmost, hops)
    ensures seen[n].Hop? ==>
              Progress(seen, n + 1, noting, Some(seen[n].ip), if noting then hops + [seen[n].ip] else [])
  {
    assert seen[..n + 1][..n] == seen[..n];
  }

  lemma Ends(seen: seq<Seen>, n: nat, noting: bool, leftmost: Option<Ip>, hops: seq<Ip>)
    requires Progress(seen, n, noting, leftmost, hops)
    requires n < |seen|
    ensures n == MAX_HOPS ==> Outcome(seen) == Err(TooManyHops)
    ensures n < MAX_HOPS && seen[n].Bad? ==> Outcome(seen) == Err(Malformed)
    ensures n < MAX_HOPS && seen[n].Client? ==>
              Outcome(seen) == Ok(Some(seen[n].ip)) && hops == if noting then NotedHops(seen) else []
  {
    if !Passes(seen[n]) {
      StopsAt(seen, n);
    }
  }

  lemma RunsOut(seen: seq<Seen>, noting: bool, leftmost: Option<Ip>, hops: seq<Ip>)
    requires Progress(seen, |seen|, noting, leftmost, hops)
    ensures Outcome(seen) == Ok(leftmost)
    ensures (if leftmost.Some? && noting then hops[..|hops| - 1] else hops) == if noting then NotedHops(seen) else []
  {
    StopsAt(seen, |seen|);
    assert seen[..|seen|] == seen;
  }

  lemma SeenTail(r: Reader, seen: seq<Seen>, n: nat, raws: seq<Raw>)
    requires n <= |seen| && raws != [] && seen[n..] == SeeAll(r, raws)
    ensures n < |seen| && seen[n] == See(r, raws[0])
    ensures seen[n + 1..] == SeeAll(r, raws[1..])
  {
    assert seen[n] == seen[n..][0];
    assert seen[n + 1..] == seen[n..][1..];
  }

  /** One element off a line leaves the elements before its comma, then the earlier lines. */
  lemma TailStep(r: Reader, seen: seq<Seen>, n: nat, first: seq<Raw>, tail: seq<Raw>)
    requires n <= |seen| && first != [] && seen[n..] == SeeAll(r, first + tail)
    ensures n < |seen| && seen[n] == See(r, first[0])
    ensures seen[n + 1..] == SeeAll(r, first[1..] + tail)
  {
    SeenTail(r, seen, n, first + tail);
    assert (first + tail)[1..] == first[1..] + tail;
  }

  /** What taking the last element off the bytes gives is what the reader sees first. */
  lemma LastElementSeen(r: Reader, rest: Bytes)
    ensures var last, seen := LastElement(rest), See(r, Raws(rest)[0]);
            if last.Err? then seen == Bad && last.error == Malformed else seen == SeeElement(r, last.value.0)
  {
    LastElementReads(rest);
  }

  /** And what it leaves is what the reader sees after that. */
  lemma LastElementLeaves(rest: Bytes, tail: seq<Raw>)
    requires LastElement(rest).Ok?
    ensures var before := LastElement(rest).value.1;
            if before.None? then Raws(rest)[1..] + tail == tail
            else |before.value| < |rest| && Raws(rest)[1..] == Raws(before.value)
  {
    LastElementReads(rest);
    if LastElement(rest).value.1.None? {
      assert |Raws(rest)| == 1;
      assert Raws(rest)[1..] == [];
    }
  }

  /** What reading one element off the bytes says of the list. */
  lemma ReadsOne(r: Reader, seen: seq<Seen>, n: nat, rest: Bytes, tail: seq<Raw>)
    requires n <= |seen| && seen[n..] == SeeAll(r, Raws(rest) + tail)
    ensures n < |seen|
    ensures var last := LastElement(rest);
            if last.Err? then seen[n] == Bad && last.error == Malformed
            else
              var (element, before) := last.value;
              && seen[n] == SeeElement(r, element)
              && (before.None? ==> seen[n + 1..] == SeeAll(r, tail))
              && (before.Some? ==> |before.value| < |rest| && seen[n + 1..] == SeeAll(r, Raws(before.value) + tail))
  {
    TailStep(r, seen, n, Raws(rest), tail);
    LastElementSeen(r, rest);
    if LastElement(rest).Ok? {
      LastElementLeaves(rest, tail);
    }
  }

  /** Read the last element of `rest`: a result that ends the walk, or what precedes its comma. */
  method WalkElement(r: Reader, rest: Bytes, noting: bool, read: nat, leftmost0: Option<Ip>, hops0: seq<Ip>,
                     ghost seen: seq<Seen>, ghost tail: seq<Raw>)
    returns (stop: Option<Result<Option<Ip>, Invalid>>, before: Option<Bytes>, leftmost: Option<Ip>, hops: seq<Ip>)
    requires Progress(seen, read, noting, leftmost0, hops0)
    requires seen[read..] == SeeAll(r, Raws(rest) + tail)
    ensures stop.Some? ==> stop.value == Outcome(seen)
    ensures stop.Some? && stop.value.Ok? ==> hops == if noting then NotedHops(seen) else []
    ensures stop.None? ==>
              && Progress(seen, read + 1, noting, leftmost, hops)
              && (before.None? ==> seen[read + 1..] == SeeAll(r, tail))
              && (before.Some? ==>
                    |before.value| < |rest| && seen[read + 1..] == SeeAll(r, Raws(before.value) + tail))
  {
    leftmost, hops, before, stop := leftmost0, hops0, None, None;
    ReadsOne(r, seen, read, rest, tail);
    Ends(seen, read, noting, leftmost, hops);
    if read + 1 > MAX_HOPS {
      stop := Some(Err(TooManyHops));
      return;
    }
    PassOne(seen, read, noting, leftmost, hops);
    var last := LastElement(rest);
    if last.Err? {
      stop := Some(Err(last.error));
      return;
    }
    before := last.value.1;
    var element := last.value.0;
    if element != [] {
      var ip := r.text.parse(element);
      if ip.None? {
        stop := Some(Err(Malformed));
      } else if !r.trusts(ip.value) {
        stop := Some(Ok(Some(ip.value)));
      } else {
        leftmost := Some(ip.value);
        if noting {
          hops := hops + [ip.value];
        }
      }
    }
  }

  /** Walk one field line: a result that ends the walk, or what it has read so far. */
  method WalkLine(r: Reader, line: Bytes, noting: bool, read0: nat, leftmost0: Option<Ip>, hops0: seq<Ip>,
                  ghost seen: seq<Seen>, ghost tail: seq<Raw>)
    returns (stop: Option<Result<Option<Ip>, Invalid>>, read: nat, leftmost: Option<Ip>, hops: seq<Ip>)
    requires Progress(seen, read0, noting, leftmost0, hops0)
    requires seen[read0..] == SeeAll(r, Raws(line) + tail)
    ensures stop.Some? ==> stop.value == Outcome(seen)
    ensures stop.Some? && stop.value.Ok? ==> hops == if noting then NotedHops(seen) else []
    ensures stop.None? ==> Progress(seen, read, noting, leftmost, hops) && seen[read..] == SeeAll(r, tail)
  {
    read, leftmost, hops := read0, leftmost0, hops0;
    var rest := line;
    while true
      invariant Progress(seen, read, noting, leftmost, hops)
      invariant seen[read..] == SeeAll(r, Raws(rest) + tail)
      decreases |rest|
    {
      var before;
      stop, before, leftmost, hops := WalkElement(r, rest, noting, read, leftmost, hops, seen, tail);
      if stop.Some? {
        return;
      }
      read := read + 1;
      if before.None? {
        return;
      }
      rest := before.value;
    }
  }

  /**
   The windowed walk over the bytes agrees with the plain reading for every list of field lines, and
   notes exactly the trusted proxies right of the client.
   */
  method Walk(r: Reader, lines: seq<Bytes>, noting: bool)
    returns (result: Result<Option<Ip>, Invalid>, hops: seq<Ip>)
    ensures result == Outcome(SeenIn(r, lines))
    ensures result.Ok? ==> hops == if noting then NotedHops(SeenIn(r, lines)) else []
  {
    ghost var seen := SeenIn(r, lines);
    var read: nat, leftmost: Option<Ip> := 0, None;
    hops := [];
    var i := |lines|;
    assert lines[..i] == lines;
    while i > 0
      invariant 0 <= i <= |lines|
      invariant Progress(seen, read, noting, leftmost, hops)
      invariant seen[read..] == SeeAll(r, RawsOf(lines[..i]))
    {
      i := i - 1;
      assert lines[..i + 1][..i] == lines[..i];
      var stop;
      stop, read, leftmost, hops := WalkLine(r, lines[i], noting, read, leftmost, hops, seen, RawsOf(lines[..i]));
      if stop.Some? {
        return stop.value, hops;
      }
    }
    assert |seen[read..]| == 0;
    RunsOut(seen, noting, leftmost, hops);
    if leftmost.Some? && noting {
      hops := hops[..|hops| - 1];
    }
    return Ok(leftmost), hops;
  }
}
