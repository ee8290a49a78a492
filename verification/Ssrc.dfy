/**
  SSRC lines and SSRC groups of an SDP media section (section 4.2 of RFC 5576):
  `addLegacySimulcast` writes them, `getRtpEncodings` reads them back (src/sdp/Utils.cpp), and
  the offer media section writes them for a consumer (src/sdp/MediaSection.cpp).
 */
module Ssrc {
  import opened Text

  datatype SsrcLine = SsrcLine(id: uint32, attribute: Option<string>, value: string)
  datatype SsrcGroup = SsrcGroup(semantics: string, ssrcs: string)
  datatype SsrcInfo = SsrcInfo(lines: seq<SsrcLine>, groups: Option<seq<SsrcGroup>>)
  datatype Encoding = Encoding(ssrc: uint32, rtx: Option<uint32>)

  // ----- reading: getRtpEncodings -----------------------------------------------------------

  function Ids(lines: seq<SsrcLine>): (ids: seq<uint32>)
    ensures |ids| == |lines| && forall i :: 0 <= i < |lines| ==> ids[i] == lines[i].id
  {
    seq(|lines|, i requires 0 <= i < |lines| => lines[i].id)
  }

  /** `std::list::unique`: of each run of equal neighbours only the first stays. */
  function Unique(s: seq<uint32>): seq<uint32>
  {
    if |s| <= 1 then s
    else if s[|s| - 2] == s[|s| - 1] then Unique(s[..|s| - 1])
    else Unique(s[..|s| - 1]) + [s[|s| - 1]]
  }

  /** `std::list::remove`. */
  function Without(s: seq<uint32>, x: uint32): seq<uint32>
  {
    if s == [] then [] else (if s[0] == x then [] else [s[0]]) + Without(s[1..], x)
  }

  /** The media SSRCs still in the list and the media-to-RTX map. */
  datatype Reading = Reading(ssrcs: seq<uint32>, rtxOf: map<uint32, uint32>)

  /** A number of a group line, cut to 32 bits; `None` when `std::stoull` throws. */
  function Number(s: string): Option<uint32>
  {
    match Stoull(s)
    case None => None
    case Some(n) => Some(n % UINT32)
  }

  lemma NumberOfDecimal(n: uint32)
    ensures Number(Decimal(n)) == Some(n)
  {
    NumberOfStoull(Decimal(n), n) by { StoullOfDecimal(n); }
  }

  lemma NumberOfStoull(s: string, n: uint32)
    requires Stoull(s) == Some(n)
    ensures Number(s) == Some(n)
  {
  }

  /** The code indexes `v[0]` and, unless that is no number, `v[1]` of a group line without a check. */
  predicate HasPair(g: SsrcGroup) {
    var v := Tokens(g.ssrcs, ' ');
    |v| >= 1 && (Number(v[0]).Some? ==> |v| >= 2)
  }

  /** Both numbers of a group line. */
  function Pair(g: SsrcGroup): Option<(uint32, uint32)>
    requires HasPair(g)
  {
    var v := Tokens(g.ssrcs, ' ');
    if Number(v[0]).None? || Number(v[1]).None? then None else Some((Number(v[0]).value, Number(v[1]).value))
  }

  /** Every line the group loop comes to can be indexed: FID lines, up to one that throws. */
  predicate Readable(groups: seq<SsrcGroup>) {
    groups == [] ||
    if groups[0].semantics == "FID" then HasPair(groups[0]) && (Pair(groups[0]).Some? ==> Readable(groups[1..]))
    else Readable(groups[1..])
  }

  /** One turn of the group loop. */
  function ReadGroup(r: Reading, g: SsrcGroup): Result<Reading>
    requires g.semantics == "FID" ==> HasPair(g)
  {
    if g.semantics != "FID" then Ok(r)
    else match Pair(g)
      case None => Err("stoull")
      case Some((ssrc, rtx)) => Ok(Reading(Without(r.ssrcs, rtx), r.rtxOf[ssrc := rtx]))
  }

  function ReadGroups(r: Reading, groups: seq<SsrcGroup>): Result<Reading>
    requires Readable(groups)
    decreases |groups|
  {
    if groups == [] then Ok(r)
    else match ReadGroup(r, groups[0])
      case Err(e) => Err(e)
      case Ok(r') => ReadGroups(r', groups[1..])
  }

  function ToEncoding(ssrc: uint32, rtxOf: map<uint32, uint32>): Encoding
  {
    Encoding(ssrc, if ssrc in rtxOf then Some(rtxOf[ssrc]) else None)
  }

  function ToEncodings(r: Reading): (e: seq<Encoding>)
    ensures |e| == |r.ssrcs| && forall i :: 0 <= i < |e| ==> e[i] == ToEncoding(r.ssrcs[i], r.rtxOf)
  {
    seq(|r.ssrcs|, i requires 0 <= i < |r.ssrcs| => ToEncoding(r.ssrcs[i], r.rtxOf))
  }

  function GroupsOf(info: SsrcInfo): seq<SsrcGroup> { if info.groups.Some? then info.groups.value else [] }

  /** What `getRtpEncodings` returns or throws. */
  function Encodings(info: SsrcInfo): Result<seq<Encoding>>
    requires Readable(GroupsOf(info))
  {
    if info.lines == [] then Err("no a=ssrc lines found")
    else match ReadGroups(Reading(Unique(Ids(info.lines)), map[]), GroupsOf(info))
      case Err(e) => Err(e)
      case Ok(r) => Ok(ToEncodings(r))
  }

  // ----- writing: addLegacySimulcast --------------------------------------------------------

  function FirstWith(lines: seq<SsrcLine>, attribute: string): (r: Option<SsrcLine>)
  {
    if lines == [] then None
    else if lines[0].attribute == Some(attribute) then Some(lines[0])
    else FirstWith(lines[1..], attribute)
  }

  /** Every line the search for `first` comes to can be indexed: `v[0]` up to the line that starts with
      `first` or throws, and `v[1]` of the former. */
  predicate Searchable(groups: seq<SsrcGroup>, first: uint32) {
    groups == [] ||
    var v := Tokens(groups[0].ssrcs, ' ');
    |v| >= 1 &&
    match Stoull(v[0])
    case None => true
    case Some(a) => if a == first then |v| >= 2 else Searchable(groups[1..], first)
  }

  /** The RTX SSRC paired with `first` by the first group that starts with it, whatever the
      semantics of that group; 0 when there is none. */
  function FirstRtx(groups: seq<SsrcGroup>, first: uint32): Result<uint32>
    requires Searchable(groups, first)
  {
    if groups == [] then Ok(0)
    else
      var v := Tokens(groups[0].ssrcs, ' ');
      match Stoull(v[0])
      case None => Err("stoull")
      case Some(a) =>
        if a != first then FirstRtx(groups[1..], first)
        else match Number(v[1])
          case None => Err("stoull")
          case Some(b) => Ok(b)
  }

  /** `n` consecutive SSRCs in 32-bit arithmetic. */
  function Range(first: uint32, n: nat): (r: seq<uint32>)
    ensures |r| == n && forall i :: 0 <= i < n ==> r[i] == (first + i) % UINT32
  {
    seq(n, i requires 0 <= i < n => (first + i) % UINT32)
  }

  function LinesFor(ids: seq<uint32>, cname: string, msid: string): seq<SsrcLine>
  {
    if ids == [] then []
    else
      var id := ids[|ids| - 1];
      LinesFor(ids[..|ids| - 1], cname, msid)
      + [SsrcLine(id, Some("cname"), cname), SsrcLine(id, Some("msid"), msid)]
  }

  function Fid(ssrc: uint32, rtx: uint32): SsrcGroup
  {
    SsrcGroup("FID", Decimal(ssrc) + " " + Decimal(rtx))
  }

  function FidsFor(ssrcs: seq<uint32>, rtxs: seq<uint32>): (g: seq<SsrcGroup>)
    requires |rtxs| <= |ssrcs|
    ensures |g| == |rtxs| && forall i :: 0 <= i < |g| ==> g[i] == Fid(ssrcs[i], rtxs[i])
  {
    seq(|rtxs|, i requires 0 <= i < |rtxs| => Fid(ssrcs[i], rtxs[i]))
  }

  /** The msid line must name a stream and a track: the code reads `v[0]` and `v[1]` unchecked. */
  predicate Offerable(info: SsrcInfo) {
    var m := FirstWith(info.lines, "msid");
    m.Some? ==> |Tokens(m.value.value, ' ')| >= 2 && Searchable(GroupsOf(info), m.value.id)
  }

  /** The lines and groups written for the streams `ssrcs` and their retransmissions `rtxs`. */
  function Written(ssrcs: seq<uint32>, rtxs: seq<uint32>, cname: string, msid: string): SsrcInfo
    requires |rtxs| <= |ssrcs|
  {
    SsrcInfo(
      LinesFor(ssrcs, cname, msid) + LinesFor(rtxs, cname, msid),
      Some([SsrcGroup("SIM", Joined(Decimals(ssrcs), ' '))] + FidsFor(ssrcs, rtxs)))
  }

  /** What `addLegacySimulcast` leaves in the offer, or throws. */
  function LegacySimulcast(info: SsrcInfo, n: nat): Result<SsrcInfo>
    requires n > 1 ==> Offerable(info)
  {
    if n <= 1 then Ok(info)
    else match FirstWith(info.lines, "msid")
      case None => Err("a=ssrc line with msid information not found")
      case Some(m) =>
        var v := Tokens(m.value, ' ');
        match FirstRtx(GroupsOf(info), m.id)
        case Err(e) => Err(e)
        case Ok(rtx) =>
          match FirstWith(info.lines, "cname")
          case None => Err("CNAME line not found")
          case Some(c) =>
            Ok(Written(Range(m.id, n), if rtx == 0 then [] else Range(rtx, n),
                       c.value, v[0] + " " + v[1]))
  }

  // ----- the round trip ---------------------------------------------------------------------

  /** The encodings a reader should find: `n` streams, each with its own retransmission. */
  function Expected(first: uint32, rtx: uint32, n: nat): (e: seq<Encoding>)
    ensures |e| == n
  {
    seq(n, i requires 0 <= i < n =>
      Encoding((first + i) % UINT32, if rtx == 0 then None else Some((rtx + i) % UINT32)))
  }

  /** The media and RTX ranges of length `n` do not meet on the 32-bit circle. */
  predicate Apart(first: uint32, rtx: uint32, n: nat) {
    n <= (rtx - first) % UINT32 <= UINT32 - n
  }

  lemma RangesMeetUnlessApart(first: uint32, rtx: uint32, n: nat)
    requires 0 < n < UINT32
    ensures Apart(first, rtx, n) <==>
            forall i, j :: 0 <= i < n && 0 <= j < n ==> Range(first, n)[i] != Range(rtx, n)[j]
  {
    if Apart(first, rtx, n) {
      forall i, j | 0 <= i < n && 0 <= j < n ensures Range(first, n)[i] != Range(rtx, n)[j] {
        ApartNeverMeet(first, rtx, n, i, j);
      }
    } else {
      var d := (rtx - first) % UINT32;
      if d < n {
        assert Range(first, n)[d] == Range(rtx, n)[0];
      } else {
        assert Range(first, n)[0] == Range(rtx, n)[UINT32 - d];
      }
    }
  }

  lemma ApartNeverMeet(first: uint32, rtx: uint32, n: nat, i: nat, j: nat)
    requires Apart(first, rtx, n) && i < n && j < n
    ensures (first + i) % UINT32 != (rtx + j) % UINT32
  {
    var d := (rtx - first) % UINT32;
    assert rtx == first + d || rtx == first + d - UINT32;
    assert 0 < d + j - i < UINT32;
  }

  lemma FidReadsBack(ssrc: uint32, rtx: uint32)
    ensures HasPair(Fid(ssrc, rtx)) && Pair(Fid(ssrc, rtx)) == Some((ssrc, rtx))
  {
    DecimalPair(ssrc, rtx);
    NumberOfDecimal(ssrc);
    NumberOfDecimal(rtx);
  }

  // The list after `unique` and `remove`.

  function Doubled(s: seq<uint32>): seq<uint32>
  {
    if s == [] then [] else Doubled(s[..|s| - 1]) + [s[|s| - 1], s[|s| - 1]]
  }

  lemma {:induction false} IdsOfLines(ids: seq<uint32>, cname: string, msid: string)
    ensures Ids(LinesFor(ids, cname, msid)) == Doubled(ids)
  {
    if ids == [] {
    } else {
      IdsOfLines(ids[..|ids| - 1], cname, msid);
    }
  }

  lemma {:induction false} DoubledConcat(a: seq<uint32>, b: seq<uint32>)
    ensures Doubled(a + b) == Doubled(a) + Doubled(b)
  {
    if b == [] {
      assert a + b == a;
    } else {
      var b' := b[..|b| - 1];
      assert (a + b)[..|a + b| - 1] == a + b';
      DoubledConcat(a, b');
    }
  }

  /** `unique` keeps every value that occurs, and undoes doubling of a list without repeats. */
  lemma {:induction false} UniqueOfDoubled(s: seq<uint32>)
    requires forall i :: 0 < i < |s| ==> s[i - 1] != s[i]
    ensures Unique(Doubled(s)) == s
  {
    if s == [] {
    } else {
      var front, x := s[..|s| - 1], s[|s| - 1];
      var d := Doubled(front);
      UniqueOfDoubled(front);
      assert (d + [x, x])[..|d| + 1] == d + [x];
      assert (d + [x])[..|d|] == d;
      assert front != [] ==> d[|d| - 1] == front[|front| - 1];
    }
  }

  lemma {:induction false} WithoutMembers(s: seq<uint32>, x: uint32)
    ensures forall y :: y in Without(s, x) <==> y in s && y != x
  {
    if s == [] {
    } else {
      WithoutMembers(s[1..], x);
    }
  }

  lemma {:induction false} WithoutConcat(a: seq<uint32>, b: seq<uint32>, x: uint32)
    ensures Without(a + b, x) == Without(a, x) + Without(b, x)
  {
    if a == [] {
      assert a + b == b;
    } else {
      assert (a + b)[1..] == a[1..] + b;
      WithoutConcat(a[1..], b, x);
    }
  }

  lemma {:induction false} WithoutAbsent(s: seq<uint32>, x: uint32)
    requires x !in s
    ensures Without(s, x) == s
  {
    if s == [] {
    } else {
      WithoutAbsent(s[1..], x);
    }
  }

  /** The list after removing every number of `b`, one `remove` at a time. */
  function Minus(s: seq<uint32>, b: seq<uint32>): seq<uint32>
    decreases |b|
  {
    if b == [] then s else Minus(Without(s, b[0]), b[1..])
  }

  /** The map after storing `b[i]` under `a[i]` from left to right. */
  function Paired(m: map<uint32, uint32>, a: seq<uint32>, b: seq<uint32>): map<uint32, uint32>
    requires |a| == |b|
    decreases |a|
  {
    if a == [] then m else Paired(m[a[0] := b[0]], a[1..], b[1..])
  }

  lemma {:induction false} MinusMembers(s: seq<uint32>, b: seq<uint32>, y: uint32)
    ensures y in Minus(s, b) <==> y in s && y !in b
    decreases |b|
  {
    if b == [] {
    } else {
      WithoutMembers(s, b[0]);
      MinusMembers(Without(s, b[0]), b[1..], y);
    }
  }

  /** Numbers not named by `b` stay where they are; the list `b` itself is used up. */
  lemma {:induction false} MinusOwnTail(a: seq<uint32>, b: seq<uint32>)
    requires forall i, j :: 0 <= i < j < |b| ==> b[i] != b[j]
    requires forall i, j :: 0 <= i < |a| && 0 <= j < |b| ==> a[i] != b[j]
    ensures Minus(a + b, b) == a
    decreases |b|
  {
    if b == [] {
      assert a + b == a;
    } else {
      WithoutConcat(a, b, b[0]);
      WithoutAbsent(a, b[0]);
      WithoutAbsent(b[1..], b[0]);
      assert Without(a + b, b[0]) == a + b[1..];
      MinusOwnTail(a, b[1..]);
    }
  }

  lemma {:induction false} PairedAt(m: map<uint32, uint32>, a: seq<uint32>, b: seq<uint32>, i: nat)
    requires |a| == |b| && i < |a|
    requires forall i, j :: 0 <= i < j < |a| ==> a[i] != a[j]
    ensures a[i] in Paired(m, a, b) && Paired(m, a, b)[a[i]] == b[i]
    decreases |a|
  {
    if i == 0 {
      PairedKeeps(m[a[0] := b[0]], a[1..], b[1..], a[0]);
    } else {
      PairedAt(m[a[0] := b[0]], a[1..], b[1..], i - 1);
    }
  }

  lemma {:induction false} PairedKeeps(m: map<uint32, uint32>, a: seq<uint32>, b: seq<uint32>, x: uint32)
    requires |a| == |b| && x !in a
    ensures x in Paired(m, a, b) <==> x in m
    ensures x in m ==> Paired(m, a, b)[x] == m[x]
    decreases |a|
  {
    if a == [] {
    } else {
      PairedKeeps(m[a[0] := b[0]], a[1..], b[1..], x);
    }
  }

  lemma {:induction false} FidsReadable(a: seq<uint32>, b: seq<uint32>)
    requires |b| <= |a|
    ensures Readable(FidsFor(a, b))
    decreases |b|
  {
    if b == [] {
    } else {
      FidReadsBack(a[0], b[0]);
      FidsReadable(a[1..], b[1..]);
      assert FidsFor(a, b)[1..] == FidsFor(a[1..], b[1..]);
    }
  }

  /** Reading the FID groups of any two lists. */
  lemma {:induction false} ReadFids(r: Reading, a: seq<uint32>, b: seq<uint32>)
    requires |a| == |b| && Readable(FidsFor(a, b))
    ensures ReadGroups(r, FidsFor(a, b)) == Ok(Reading(Minus(r.ssrcs, b), Paired(r.rtxOf, a, b)))
    decreases |a|
  {
    if a == [] {
    } else {
      var g := FidsFor(a, b);
      FidReadsBack(a[0], b[0]);
      FidsReadable(a[1..], b[1..]);
      assert g[1..] == FidsFor(a[1..], b[1..]);
      ReadFids(Reading(Without(r.ssrcs, b[0]), r.rtxOf[a[0] := b[0]]), a[1..], b[1..]);
    }
  }

  lemma WrittenIds(a: seq<uint32>, b: seq<uint32>, cname: string, msid: string)
    ensures Ids(LinesFor(a, cname, msid) + LinesFor(b, cname, msid)) == Doubled(a + b)
  {
    IdsOfLines(a, cname, msid);
    IdsOfLines(b, cname, msid);
    DoubledConcat(a, b);
  }

  /** A leading group that is not FID is skipped. */
  lemma SkipSim(r: Reading, sim: SsrcGroup, g: seq<SsrcGroup>)
    requires sim.semantics == "SIM" && Readable(g)
    ensures Readable([sim] + g) && ReadGroups(r, [sim] + g) == ReadGroups(r, g)
  {
    assert ([sim] + g)[1..] == g;
  }

  /** The reading the loops of `getRtpEncodings` reach on written lines. */
  function ReadingOf(a: seq<uint32>, b: seq<uint32>): Reading
    requires |b| <= |a|
  {
    Reading(Minus(Unique(Doubled(a + b)), b), Paired(map[], a[..|b|], b))
  }

  lemma FidsOfPrefix(a: seq<uint32>, b: seq<uint32>)
    requires |b| <= |a|
    ensures Readable(FidsFor(a, b))
    ensures ReadGroups(Reading(Unique(Doubled(a + b)), map[]), FidsFor(a, b)) == Ok(ReadingOf(a, b))
  {
    FidsReadable(a, b);
    assert FidsFor(a, b) == FidsFor(a[..|b|], b);
    ReadFids(Reading(Unique(Doubled(a + b)), map[]), a[..|b|], b);
  }

  /** What a reader gets from the written lines, whatever the two lists are. */
  lemma EncodingsOfWritten(a: seq<uint32>, b: seq<uint32>, cname: string, msid: string)
    requires |a| >= 2 && |b| <= |a|
    ensures var info := Written(a, b, cname, msid);
            Readable(GroupsOf(info)) && Encodings(info) == Ok(ToEncodings(ReadingOf(a, b)))
  {
    WrittenIds(a, b, cname, msid);
    FidsOfPrefix(a, b);
    SkipSim(Reading(Unique(Doubled(a + b)), map[]), SsrcGroup("SIM", Joined(Decimals(a), ' ')), FidsFor(a, b));
    assert LinesFor(a, cname, msid) != [];
  }

  lemma RangeDistinct(first: uint32, n: nat)
    requires n < UINT32
    ensures forall i, j :: 0 <= i < j < n ==> Range(first, n)[i] != Range(first, n)[j]
  {
  }

  /** Disjoint lists of distinct numbers read back pair by pair. */
  lemma DisjointReadsBack(a: seq<uint32>, b: seq<uint32>)
    requires |a| >= 1 && (b == [] || |b| == |a|)
    requires forall i, j :: 0 <= i < j < |a| ==> a[i] != a[j]
    requires forall i, j :: 0 <= i < j < |b| ==> b[i] != b[j]
    requires forall i, j :: 0 <= i < |a| && 0 <= j < |b| ==> a[i] != b[j]
    ensures var r := ReadingOf(a, b);
            r.ssrcs == a && forall i :: 0 <= i < |a| ==>
              ToEncoding(a[i], r.rtxOf) == Encoding(a[i], if b == [] then None else Some(b[i]))
  {
    UniqueOfDoubled(a + b);
    MinusOwnTail(a, b);
    if b != [] {
      assert a[..|b|] == a;
      forall i | 0 <= i < |a| ensures a[i] in Paired(map[], a, b) && Paired(map[], a, b)[a[i]] == b[i] {
        PairedAt(map[], a, b, i);
      }
    }
  }

  lemma OverlapLosesOne(a: seq<uint32>, b: seq<uint32>, i: nat, j: nat)
    requires i < |a| && j < |b| <= |a| && a[i] == b[j]
    ensures forall k :: 0 <= k < |ReadingOf(a, b).ssrcs| ==> ReadingOf(a, b).ssrcs[k] != a[i]
  {
    MinusMembers(Unique(Doubled(a + b)), b, a[i]);
  }

  /** The round trip on the two ranges. */
  lemma RangesReadBack(first: uint32, rtx: uint32, n: nat)
    requires 1 < n < 256
    ensures var b := if rtx == 0 then [] else Range(rtx, n);
            ToEncodings(ReadingOf(Range(first, n), b)) == Expected(first, rtx, n)
            <==> rtx == 0 || Apart(first, rtx, n)
  {
    var a := Range(first, n);
    var b := if rtx == 0 then [] else Range(rtx, n);
    RangeDistinct(first, n);
    RangeDistinct(rtx, n);
    RangesMeetUnlessApart(first, rtx, n);
    if rtx == 0 || Apart(first, rtx, n) {
      DisjointReadsBack(a, b);
    } else {
      var i, j :| 0 <= i < n && 0 <= j < n && a[i] == b[j];
      OverlapLosesOne(a, b, i, j);
      assert Expected(first, rtx, n)[i].ssrc == a[i];
    }
  }

  /** The round trip: after `addLegacySimulcast` with any stream count above one,
      `getRtpEncodings` finds exactly the consecutive media SSRCs, each paired with its own RTX
      SSRC, if and only if there is no RTX or the two ranges stay apart modulo 2^32. */
  lemma SimulcastRoundTrip(info: SsrcInfo, n: nat)
    requires Offerable(info) && 1 < n < 256 && LegacySimulcast(info, n).Ok?
    ensures var out := LegacySimulcast(info, n).value;
            var first := FirstWith(info.lines, "msid").value.id;
            var rtx := FirstRtx(GroupsOf(info), first).value;
            Readable(GroupsOf(out)) && Encodings(out).Ok? &&
            (Encodings(out) == Ok(Expected(first, rtx, n)) <==> rtx == 0 || Apart(first, rtx, n))
  {
    var m := FirstWith(info.lines, "msid").value;
    var rtx := FirstRtx(GroupsOf(info), m.id).value;
    var v := Tokens(m.value, ' ');
    EncodingsOfWritten(Range(m.id, n), if rtx == 0 then [] else Range(rtx, n),
                       FirstWith(info.lines, "cname").value.value, v[0] + " " + v[1]);
    RangesReadBack(m.id, rtx, n);
  }

  // ----- what is written ----------------------------------------------------------------------

  lemma {:induction false} LinesAt(ids: seq<uint32>, cname: string, msid: string, i: nat)
    requires i < |ids|
    ensures var lines := LinesFor(ids, cname, msid);
            && |lines| == 2 * |ids|
            && lines[2 * i] == SsrcLine(ids[i], Some("cname"), cname)
            && lines[2 * i + 1] == SsrcLine(ids[i], Some("msid"), msid)
  {
    var front := ids[..|ids| - 1];
    if front != [] {
      LinesAt(front, cname, msid, if i < |front| then i else 0);
    }
  }

  /** How many lines say this about this SSRC. */
  function LinesOf(lines: seq<SsrcLine>, line: SsrcLine): nat { multiset(lines)[line] }

  /** There is one line of each kind for every time the number stands in the list. */
  lemma {:induction false} LinesCounted(ids: seq<uint32>, cname: string, msid: string, id: uint32)
    ensures var lines := LinesFor(ids, cname, msid);
            && LinesOf(lines, SsrcLine(id, Some("cname"), cname)) == multiset(ids)[id]
            && LinesOf(lines, SsrcLine(id, Some("msid"), msid)) == multiset(ids)[id]
  {
    if ids == [] {
    } else {
      var front := ids[..|ids| - 1];
      assert ids == front + [ids[|ids| - 1]];
      LinesCounted(front, cname, msid, id);
    }
  }

  /** The numbers of a joined line read back in order. */
  lemma NumbersReadBack(ids: seq<uint32>, i: nat)
    requires i < |ids|
    ensures var v := Tokens(Joined(Decimals(ids), ' '), ' '); |v| == |ids| && Number(v[i]) == Some(ids[i])
  {
    var v := Decimals(ids);
    forall j | 0 <= j < |v| ensures ' ' !in v[j] {
      assert forall c :: c in v[j] ==> IsDigit(c);
    }
    TokensOfJoined(v, ' ');
    NumberOfDecimal(ids[i]);
  }

  /** What `addLegacySimulcast` finds in the offer: the first msid line, the RTX partner of its SSRC or 0, and
      the first cname. */
  predicate Finds(info: SsrcInfo, m: SsrcLine, rtx: uint32, cname: string) {
    && Offerable(info) && FirstWith(info.lines, "msid") == Some(m)
    && FirstRtx(GroupsOf(info), m.id) == Ok(rtx)
    && FirstWith(info.lines, "cname").Some? && FirstWith(info.lines, "cname").value.value == cname
  }

  /** The first line with the attribute, if there is one. */
  lemma {:induction false} FirstWithIs(lines: seq<SsrcLine>, attribute: string, k: nat)
    requires k <= |lines| && forall i :: 0 <= i < k ==> lines[i].attribute != Some(attribute)
    requires k < |lines| ==> lines[k].attribute == Some(attribute)
    ensures FirstWith(lines, attribute) == if k < |lines| then Some(lines[k]) else None
  {
    if k == 0 {
    } else {
      FirstWithIs(lines[1..], attribute, k - 1);
    }
  }

  /** The second number of the first group that starts with the SSRC, or 0. */
  lemma {:induction false} FirstRtxIs(groups: seq<SsrcGroup>, first: uint32, k: nat)
    requires Searchable(groups, first) && k <= |groups|
    requires forall i :: 0 <= i < k ==> StartsWith(groups[i]).Some? && StartsWith(groups[i]).value != first
    requires k < |groups| ==> StartsWith(groups[k]) == Some(first)
    ensures k == |groups| ==> FirstRtx(groups, first) == Ok(0)
    ensures k < |groups| ==>
              var v := Tokens(groups[k].ssrcs, ' ');
              |v| >= 2 && (if Number(v[1]).Some? then FirstRtx(groups, first) == Ok(Number(v[1]).value)
                           else FirstRtx(groups, first).Err?)
  {
    if k == 0 {
    } else {
      FirstRtxIs(groups[1..], first, k - 1);
    }
  }

  function StartsWith(g: SsrcGroup): Option<nat>
  {
    var v := Tokens(g.ssrcs, ' ');
    if v == [] then None else Stoull(v[0])
  }

  lemma SimulcastIsWritten(info: SsrcInfo, n: nat, m: SsrcLine, rtx: uint32, cname: string)
    requires n > 1 && Finds(info, m, rtx, cname)
    ensures var v := Tokens(m.value, ' ');
            |v| >= 2 && LegacySimulcast(info, n) ==
              Ok(Written(Range(m.id, n), if rtx == 0 then [] else Range(rtx, n), cname, v[0] + " " + v[1]))
  {
  }

  /** It succeeds exactly when it finds all three. */
  lemma SimulcastSucceedsIff(info: SsrcInfo, n: nat)
    requires n > 1 && Offerable(info)
    ensures LegacySimulcast(info, n).Ok? <==>
            exists m: SsrcLine, rtx: uint32, cname: string :: Finds(info, m, rtx, cname)
  {
    if LegacySimulcast(info, n).Ok? {
      var m := FirstWith(info.lines, "msid").value;
      assert Finds(info, m, FirstRtx(GroupsOf(info), m.id).value, FirstWith(info.lines, "cname").value.value);
    }
  }

  lemma GroupsOfWritten(a: seq<uint32>, b: seq<uint32>, cname: string, msid: string, i: nat)
    requires |b| <= |a| && i < |a|
    ensures var groups := GroupsOf(Written(a, b, cname, msid));
            && |groups| == 1 + |b| && groups[0].semantics == "SIM"
            && (forall j :: 1 <= j < |groups| ==> groups[j].semantics == "FID")
            && (var v := Tokens(groups[0].ssrcs, ' '); |v| == |a| && Number(v[i]) == Some(a[i]))
            && (i < |b| ==> HasPair(groups[i + 1]) && Pair(groups[i + 1]) == Some((a[i], b[i])))
  {
    ShapeOfWritten(a, b, cname, msid);
    NumbersReadBack(a, i);
    if i < |b| {
      FidReadsBack(a[i], b[i]);
    }
  }

  lemma ShapeOfWritten(a: seq<uint32>, b: seq<uint32>, cname: string, msid: string)
    requires |b| <= |a|
    ensures var groups := GroupsOf(Written(a, b, cname, msid));
            && |groups| == 1 + |b| && groups[0] == SsrcGroup("SIM", Joined(Decimals(a), ' '))
            && forall j :: 1 <= j < |groups| ==> groups[j] == Fid(a[j - 1], b[j - 1])
  {
  }

  /** The groups that `addLegacySimulcast` writes. The first, and only the first, is SIM: split at spaces it
      names the `n` consecutive SSRCs from the first one on, in order. All others are FID and pair each of
      these with its own RTX SSRC, if there is one. */
  lemma SimulcastGroups(info: SsrcInfo, n: nat, m: SsrcLine, rtx: uint32, cname: string, i: nat)
    requires n > 1 && Finds(info, m, rtx, cname) && i < n
    ensures LegacySimulcast(info, n).Ok?
    ensures SimThenFids(GroupsOf(LegacySimulcast(info, n).value), m.id, rtx, n, i)
  {
    var v := Tokens(m.value, ' ');
    SimulcastIsWritten(info, n, m, rtx, cname);
    GroupsOfRanges(m.id, rtx, n, cname, v[0] + " " + v[1], i);
  }

  predicate SimThenFids(groups: seq<SsrcGroup>, first: uint32, rtx: uint32, n: nat, i: nat)
    requires i < n
  {
    && |groups| == (if rtx == 0 then 1 else n + 1) && groups[0].semantics == "SIM"
    && (forall j :: 1 <= j < |groups| ==> groups[j].semantics == "FID")
    && (var v := Tokens(groups[0].ssrcs, ' '); |v| == n && Number(v[i]) == Some((first + i) % 0x1_0000_0000))
    && (rtx != 0 ==> HasPair(groups[i + 1]))
    && (rtx != 0 ==> Pair(groups[i + 1]) == Some(((first + i) % 0x1_0000_0000, (rtx + i) % 0x1_0000_0000)))
  }

  lemma GroupsOfRanges(first: uint32, rtx: uint32, n: nat, cname: string, msid: string, i: nat)
    requires i < n
    ensures var b := if rtx == 0 then [] else Range(rtx, n);
            SimThenFids(GroupsOf(Written(Range(first, n), b, cname, msid)), first, rtx, n, i)
  {
    GroupsOfWritten(Range(first, n), if rtx == 0 then [] else Range(rtx, n), cname, msid, i);
  }

  /** The written numbers: the media SSRCs, then the RTX SSRCs if there are any. */
  function WrittenNumbers(first: uint32, rtx: uint32, n: nat): (r: seq<uint32>)
    ensures |r| == if rtx == 0 then n else 2 * n
    ensures forall i :: 0 <= i < |r| ==> r[i] == (if i < n then first + i else rtx + i - n) % 0x1_0000_0000
  {
    Range(first, n) + if rtx == 0 then [] else Range(rtx, n)
  }

  lemma LinesConcat(a: seq<uint32>, b: seq<uint32>, cname: string, msid: string)
    ensures LinesFor(a, cname, msid) + LinesFor(b, cname, msid) == LinesFor(a + b, cname, msid)
  {
    if b == [] {
      assert a + b == a;
    } else {
      var front := b[..|b| - 1];
      assert (a + b)[..|a + b| - 1] == a + front;
      LinesConcat(a, front, cname, msid);
    }
  }

  lemma SimulcastLinesAre(info: SsrcInfo, n: nat, m: SsrcLine, rtx: uint32, cname: string)
    requires n > 1 && Finds(info, m, rtx, cname)
    ensures var v := Tokens(m.value, ' ');
            |v| >= 2 && LegacySimulcast(info, n).Ok? &&
            LegacySimulcast(info, n).value.lines ==
              LinesFor(WrittenNumbers(m.id, rtx, n), cname, v[0] + " " + v[1])
  {
    var v := Tokens(m.value, ' ');
    SimulcastIsWritten(info, n, m, rtx, cname);
    LinesConcat(Range(m.id, n), if rtx == 0 then [] else Range(rtx, n), cname, v[0] + " " + v[1]);
  }

  /** The lines that `addLegacySimulcast` writes: for each number in turn a cname line with the cname found
      and a msid line with the stream and the track found, and nothing else. */
  lemma SimulcastLines(info: SsrcInfo, n: nat, m: SsrcLine, rtx: uint32, cname: string, i: nat)
    requires n > 1 && Finds(info, m, rtx, cname) && i < |WrittenNumbers(m.id, rtx, n)|
    ensures LegacySimulcast(info, n).Ok? && |Tokens(m.value, ' ')| >= 2
    ensures var ids, v := WrittenNumbers(m.id, rtx, n), Tokens(m.value, ' ');
            var lines := LegacySimulcast(info, n).value.lines;
            && |lines| == 2 * |ids|
            && lines[2 * i] == SsrcLine(ids[i], Some("cname"), cname)
            && lines[2 * i + 1] == SsrcLine(ids[i], Some("msid"), v[0] + " " + v[1])
  {
    var v := Tokens(m.value, ' ');
    SimulcastLinesAre(info, n, m, rtx, cname);
    LinesAt(WrittenNumbers(m.id, rtx, n), cname, v[0] + " " + v[1], i);
  }

  /** Each number has exactly one cname line and one msid line. */
  ghost predicate OneLineEach(lines: seq<SsrcLine>, ids: seq<uint32>, cname: string, msid: string) {
    forall id :: id in ids ==>
      && LinesOf(lines, SsrcLine(id, Some("cname"), cname)) == 1
      && LinesOf(lines, SsrcLine(id, Some("msid"), msid)) == 1
  }

  /** Each written SSRC has exactly one cname line and one msid line if and only if there is no RTX or the
      two ranges stay apart modulo 2^32. */
  lemma OneLineEachIff(info: SsrcInfo, n: nat, m: SsrcLine, rtx: uint32, cname: string)
    requires 1 < n < 256 && Finds(info, m, rtx, cname)
    ensures LegacySimulcast(info, n).Ok? && |Tokens(m.value, ' ')| >= 2
    ensures var v := Tokens(m.value, ' ');
            OneLineEach(LegacySimulcast(info, n).value.lines, WrittenNumbers(m.id, rtx, n), cname, v[0] + " " + v[1])
            <==> rtx == 0 || Apart(m.id, rtx, n)
  {
    var v := Tokens(m.value, ' ');
    SimulcastLinesAre(info, n, m, rtx, cname);
    OneLineEachOf(WrittenNumbers(m.id, rtx, n), cname, v[0] + " " + v[1]);
    OnceEachIff(m.id, rtx, n);
  }

  lemma OneLineEachOf(ids: seq<uint32>, cname: string, msid: string)
    ensures OneLineEach(LinesFor(ids, cname, msid), ids, cname, msid) <==>
            forall id :: id in ids ==> multiset(ids)[id] == 1
  {
    forall id
      ensures LinesOf(LinesFor(ids, cname, msid), SsrcLine(id, Some("cname"), cname)) == multiset(ids)[id]
      ensures LinesOf(LinesFor(ids, cname, msid), SsrcLine(id, Some("msid"), msid)) == multiset(ids)[id]
    {
      LinesCounted(ids, cname, msid, id);
    }
  }

  lemma OnceEachIff(first: uint32, rtx: uint32, n: nat)
    requires 1 < n < 256
    ensures var ids := WrittenNumbers(first, rtx, n);
            (forall id :: id in ids ==> multiset(ids)[id] == 1) <==> rtx == 0 || Apart(first, rtx, n)
  {
    var ids := WrittenNumbers(first, rtx, n);
    RangeDistinct(first, n);
    RangeDistinct(rtx, n);
    RangesMeetUnlessApart(first, rtx, n);
    if rtx == 0 || Apart(first, rtx, n) {
      DistinctOnce(ids);
    } else {
      var i, j :| 0 <= i < n && 0 <= j < n && Range(first, n)[i] == Range(rtx, n)[j];
      assert ids[i] == ids[n + j];
      TwiceCounted(ids, i, n + j);
    }
  }

  lemma {:induction false} DistinctOnce(ids: seq<uint32>)
    requires forall i, j :: 0 <= i < j < |ids| ==> ids[i] != ids[j]
    ensures forall id :: id in ids ==> multiset(ids)[id] == 1
  {
    if ids == [] {
    } else {
      var front, last := ids[..|ids| - 1], ids[|ids| - 1];
      DistinctOnce(front);
      assert ids == front + [last] && last !in front;
    }
  }

  lemma TwiceCounted(ids: seq<uint32>, i: nat, j: nat)
    requires i < j < |ids| && ids[i] == ids[j]
    ensures multiset(ids)[ids[i]] >= 2
  {
    assert ids == ids[..j] + [ids[j]] + ids[j + 1..];
    assert ids[..j][i] == ids[i];
  }

  // ----- the offer media section ------------------------------------------------------------

  /** The RTX number the section writes: a missing RTX SSRC is 0 in the code, and 0 writes none. */
  function RtxOf(e: Encoding): seq<uint32>
  {
    if e.rtx == None || e.rtx == Some(0) then [] else [e.rtx.value]
  }

  /** The SSRC lines and groups of an `OfferMediaSection` for encoding `e`; without a cname nothing
      is written. */
  function OfferLines(e: Encoding, cname: Option<string>, streamId: string, trackId: string): SsrcInfo
  {
    match cname
    case None => SsrcInfo([], Some([]))
    case Some(c) =>
      var msid := streamId + " " + trackId;
      SsrcInfo(LinesFor([e.ssrc], c, msid) + LinesFor(RtxOf(e), c, msid), Some(FidsFor([e.ssrc], RtxOf(e))))
  }

  lemma OneReadsBack(e: Encoding)
    ensures ToEncodings(ReadingOf([e.ssrc], RtxOf(e))) == [e] <==> e.rtx != Some(0) && e.rtx != Some(e.ssrc)
  {
    var a, b := [e.ssrc], RtxOf(e);
    if e.rtx != Some(e.ssrc) || b == [] {
      DisjointReadsBack(a, b);
    } else {
      OverlapLosesOne(a, b, 0, 0);
      assert [e][0].ssrc == a[0];
    }
  }

  /** Reading an offer section back gives the one encoding it was built from exactly when a cname
      was given and the RTX SSRC, if any, is neither 0 nor the media SSRC. */
  lemma OfferLinesRoundTrip(e: Encoding, cname: Option<string>, streamId: string, trackId: string)
    ensures var info := OfferLines(e, cname, streamId, trackId);
            Readable(GroupsOf(info)) &&
            (Encodings(info) == Ok([e]) <==> cname.Some? && e.rtx != Some(0) && e.rtx != Some(e.ssrc))
  {
    if cname.Some? {
      WrittenIds([e.ssrc], RtxOf(e), cname.value, streamId + " " + trackId);
      FidsOfPrefix([e.ssrc], RtxOf(e));
      OneReadsBack(e);
    }
  }

  /** `addLegacySimulcast` on the lines of a one-stream section finds that stream, its RTX partner,
      its cname and its msid again, and spreads them over `n` consecutive SSRCs. */
  lemma SimulcastOfOneStream(e: Encoding, cname: string, streamId: string, trackId: string, n: nat)
    requires ' ' !in streamId && ' ' !in trackId && trackId != "" && 1 < n < 256
    ensures var info := OfferLines(e, Some(cname), streamId, trackId);
            var rtx := if e.rtx == None then 0 else e.rtx.value;
            Offerable(info) &&
            LegacySimulcast(info, n) ==
              Ok(Written(Range(e.ssrc, n), if rtx == 0 then [] else Range(rtx, n),
                         cname, streamId + " " + trackId))
  {
    var msid := streamId + " " + trackId;
    var info := OfferLines(e, Some(cname), streamId, trackId);
    TwoTokens(streamId, trackId, ' ');
    assert LinesFor([e.ssrc][..0], cname, msid) == [];
    var first, second := SsrcLine(e.ssrc, Some("cname"), cname), SsrcLine(e.ssrc, Some("msid"), msid);
    assert LinesFor([e.ssrc], cname, msid) == [first, second];
    assert FirstWith(info.lines[1..], "msid") == Some(info.lines[1]);
    FirstRtxOfOne(e);
  }

  lemma FirstRtxOfOne(e: Encoding)
    ensures Searchable(FidsFor([e.ssrc], RtxOf(e)), e.ssrc)
    ensures FirstRtx(FidsFor([e.ssrc], RtxOf(e)), e.ssrc) == Ok(if e.rtx == None then 0 else e.rtx.value)
  {
    if RtxOf(e) != [] {
      DecimalPair(e.ssrc, e.rtx.value);
      StoullOfDecimal(e.ssrc);
      NumberOfDecimal(e.rtx.value);
    }
  }

  // ----- the code ---------------------------------------------------------------------------

  /** The counting loop of `addLegacySimulcast`. */
  method Count(firstSsrc: uint32, firstRtxSsrc: uint32, n: nat) returns (media: seq<uint32>, rtxs: seq<uint32>)
    ensures media == Range(firstSsrc, n)
    ensures rtxs == if firstRtxSsrc == 0 then [] else Range(firstRtxSsrc, n)
  {
    media, rtxs := [], [];
    for i := 0 to n
      invariant media == Range(firstSsrc, i)
      invariant rtxs == if firstRtxSsrc == 0 then [] else Range(firstRtxSsrc, i)
    {
      media := media + [(firstSsrc + i) % UINT32];
      if firstRtxSsrc != 0 {
        rtxs := rtxs + [(firstRtxSsrc + i) % UINT32];
      }
    }
  }

  /** The two writing loops of `addLegacySimulcast`. */
  method Write(media: seq<uint32>, rtxs: seq<uint32>, cname: string, msid: string) returns (info: SsrcInfo)
    requires |rtxs| <= |media|
    ensures info == Written(media, rtxs, cname, msid)
  {
    var ssrcsLine := JoinNumbers(media, ' ');
    var lines := WriteLines(media, cname, msid);
    var fids, rtxLines := WriteRtxs(media, rtxs, cname, msid);
    info := SsrcInfo(lines + rtxLines, Some([SsrcGroup("SIM", ssrcsLine)] + fids));
  }

  /** The part of `addLegacySimulcast` after it has found everything. */
  method WriteStreams(first: uint32, rtx: uint32, n: nat, cname: string, msid: string) returns (info: SsrcInfo)
    ensures info == Written(Range(first, n), if rtx == 0 then [] else Range(rtx, n), cname, msid)
  {
    var media, rtxs := Count(first, rtx, n);
    info := Write(media, rtxs, cname, msid);
  }

  method WriteLines(ids: seq<uint32>, cname: string, msid: string) returns (lines: seq<SsrcLine>)
    ensures lines == LinesFor(ids, cname, msid)
  {
    lines := [];
    for i := 0 to |ids|
      invariant lines == LinesFor(ids[..i], cname, msid)
    {
      LinesForNext(ids, i, cname, msid);
      lines := lines + [SsrcLine(ids[i], Some("cname"), cname), SsrcLine(ids[i], Some("msid"), msid)];
    }
    assert ids[..|ids|] == ids;
  }

  method WriteRtxs(media: seq<uint32>, rtxs: seq<uint32>, cname: string, msid: string)
    returns (fids: seq<SsrcGroup>, lines: seq<SsrcLine>)
    requires |rtxs| <= |media|
    ensures fids == FidsFor(media, rtxs) && lines == LinesFor(rtxs, cname, msid)
  {
    fids, lines := [], [];
    for i := 0 to |rtxs|
      invariant |fids| == i && forall j :: 0 <= j < i ==> fids[j] == Fid(media[j], rtxs[j])
      invariant lines == LinesFor(rtxs[..i], cname, msid)
    {
      LinesForNext(rtxs, i, cname, msid);
      fids := fids + [SsrcGroup("FID", Decimal(media[i]) + " " + Decimal(rtxs[i]))];
      lines := lines + [SsrcLine(rtxs[i], Some("cname"), cname), SsrcLine(rtxs[i], Some("msid"), msid)];
    }
    assert rtxs[..|rtxs|] == rtxs;
  }

  lemma LinesForNext(ids: seq<uint32>, i: nat, cname: string, msid: string)
    requires i < |ids|
    ensures LinesFor(ids[..i + 1], cname, msid) == LinesFor(ids[..i], cname, msid)
              + [SsrcLine(ids[i], Some("cname"), cname), SsrcLine(ids[i], Some("msid"), msid)]
  {
    assert ids[..i + 1][..i] == ids[..i];
  }

  /** The part of a parsed media object that the two functions read and rewrite in place. */
  class OfferMediaObject {
    var ssrcs: seq<SsrcLine>
    var ssrcGroups: Option<seq<SsrcGroup>>

    constructor (info: SsrcInfo)
      ensures Info() == info
    {
      ssrcs, ssrcGroups := info.lines, info.groups;
    }

    function Info(): SsrcInfo
      reads this
    {
      SsrcInfo(ssrcs, ssrcGroups)
    }

    /** `None` when the call returns, the message when it throws; a throw leaves the object alone. */
    method AddLegacySimulcast(numStreams: nat) returns (thrown: Option<string>)
      requires numStreams < 256 && (numStreams > 1 ==> Offerable(Info()))
      modifies this
      ensures match LegacySimulcast(old(Info()), numStreams)
              case Ok(info) => thrown == None && Info() == info
              case Err(e) => thrown == Some(e) && Info() == old(Info())
    {
      if numStreams <= 1 {
        return None;
      }
      var msidLine := FirstWith(ssrcs, "msid");
      if msidLine == None {
        return Some("a=ssrc line with msid information not found");
      }
      var v := Split(msidLine.value.value, ' ');
      var firstSsrc := msidLine.value.id;
      var firstRtxSsrc := FirstRtx(GroupsOf(Info()), firstSsrc);
      if firstRtxSsrc.Err? {
        return Some(firstRtxSsrc.error);
      }
      var cnameLine := FirstWith(ssrcs, "cname");
      if cnameLine == None {
        return Some("CNAME line not found");
      }
      var cname := cnameLine.value.value;

      SimulcastIsWritten(Info(), numStreams, msidLine.value, firstRtxSsrc.value, cname);
      var info := WriteStreams(firstSsrc, firstRtxSsrc.value, numStreams, cname, v[0] + " " + v[1]);
      ssrcs, ssrcGroups := info.lines, info.groups;
      return None;
    }

    method GetRtpEncodings() returns (encodings: Result<seq<Encoding>>)
      requires Readable(GroupsOf(Info()))
      ensures encodings == Encodings(Info())
    {
      var list: seq<uint32> := [];
      for i := 0 to |ssrcs|
        invariant list == Ids(ssrcs)[..i]
      {
        list := list + [ssrcs[i].id];
      }
      if list == [] {
        return Err("no a=ssrc lines found");
      }
      assert list == Ids(ssrcs);
      list := ListUnique(list);
      var reading := PairUp(list, GroupsOf(Info()));
      if reading.Err? {
        return Err(reading.error);
      }
      var result := Fill(reading.value);
      return Ok(result);
    }
  }

  /** The loop over the SSRC groups in `getRtpEncodings`. */
  method PairUp(ssrcs: seq<uint32>, groups: seq<SsrcGroup>) returns (r: Result<Reading>)
    requires Readable(groups)
    ensures r == ReadGroups(Reading(ssrcs, map[]), groups)
  {
    var list := ssrcs;
    var ssrcToRtxSsrc: map<uint32, uint32> := map[];
    var rest := groups;
    while rest != []
      invariant Readable(rest)
      invariant ReadGroups(Reading(list, ssrcToRtxSsrc), rest) == ReadGroups(Reading(ssrcs, map[]), groups)
      decreases |rest|
    {
      if rest[0].semantics == "FID" {
        var v := Split(rest[0].ssrcs, ' ');
        var ssrc := Number(v[0]);
        if ssrc == None {
          return Err("stoull");
        }
        var rtxSsrc := Number(v[1]);
        if rtxSsrc == None {
          return Err("stoull");
        }
        list := Without(list, rtxSsrc.value);
        ssrcToRtxSsrc := ssrcToRtxSsrc[ssrc.value := rtxSsrc.value];
      }
      rest := rest[1..];
    }
    return Ok(Reading(list, ssrcToRtxSsrc));
  }

  /** The last loop of `getRtpEncodings`. */
  method Fill(r: Reading) returns (encodings: seq<Encoding>)
    ensures encodings == ToEncodings(r)
  {
    encodings := [];
    for i := 0 to |r.ssrcs|
      invariant encodings == ToEncodings(r)[..i]
    {
      encodings := encodings + [ToEncoding(r.ssrcs[i], r.rtxOf)];
    }
  }

  /** `std::list::unique` in one pass. */
  method ListUnique(s: seq<uint32>) returns (r: seq<uint32>)
    ensures r == Unique(s)
  {
    r := [];
    for i := 0 to |s|
      invariant r == Unique(s[..i])
    {
      assert s[..i + 1][..i] == s[..i];
      if i == 0 || s[i - 1] != s[i] {
        r := r + [s[i]];
      }
    }
    assert s[..|s|] == s;
  }
}
