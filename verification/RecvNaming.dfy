/**
  Mids of consumers: a mid that is not given is the decimal size of the mid-to-transceiver map
  (src/Handler.cpp). When is it new, and what must a caller respect so that a whole run is safe?
 */
module RecvNaming {
  import opened Text
  import opened MediaSections
  import opened RemoteSdpModel
  import opened HandlerModel
  import opened Endpoints
  import opened RecvModel

  ghost predicate Numeral(mid: string) { exists n: nat :: mid == Decimal(n) }

  lemma ReservedAreNoNumerals()
    ensures !Numeral(PROBATOR) && !Numeral("datachannel")
  {
    forall n: nat ensures Decimal(n) != PROBATOR && Decimal(n) != "datachannel" {
      var s := Decimal(n);
      assert IsDigit(s[0]);
      assert PROBATOR[0] == 'p' && "datachannel"[0] == 'd';
    }
  }

  // ----- when a generated mid is taken --------------------------------------------------------

  /** Call `j` of the run was carried out and gave this mid. */
  ghost predicate Given(t: seq<Recv>, calls: seq<Call>, j: nat, mid: string)
    requires |t| == |calls| + 1 && j < |calls|
  {
    Refusal(t[j], calls[j]).None? && calls[j].Consume? && calls[j].mid == Some(mid)
  }

  lemma ReceiveMids(h: Handler, id: string, kind: string, mid: Option<string>, params: RtpParams)
    requires Sound(h)
    ensures HReceive(h, id, kind, mid, params).transceivers == h.transceivers[LocalId(h, mid) := LocalId(h, mid)]
  {
  }

  lemma ReceiveKeys(h: Handler, id: string, kind: string, mid: Option<string>, params: RtpParams)
    requires Sound(h)
    ensures HReceive(h, id, kind, mid, params).transceivers.Keys == h.transceivers.Keys + {LocalId(h, mid)}
  {
    ReceiveMids(h, id, kind, mid, params);
  }

  lemma ConsumeMids(r: Recv, c: Call)
    requires c.Consume? && Sound(r.h)
    ensures Consumed(r, c).h.transceivers.Keys ==
            r.h.transceivers.Keys + {LocalId(r.h, c.mid)} + (if StartsProbator(r, c) then {PROBATOR} else {})
  {
    ReceiveKeys(r.h, c.id, c.kind, c.mid, c.params);
    ReceiveKeys(Received(r, c), PROBATOR, c.kind, Some(PROBATOR), c.probatorParams);
  }

  /** One call's effect on the mid-to-transceiver map: nothing is ever removed, and what is added is
      the consumer's mid and perhaps the probator. */
  lemma ApplyMids(r: Recv, c: Call)
    requires Callable(r, c)
    ensures var m, m' := r.h.transceivers, Apply(r, c).h.transceivers;
            if c.Consume? && Refusal(r, c).None?
            then m'.Keys == m.Keys + {LocalId(r.h, c.mid)} + (if StartsProbator(r, c) then {PROBATOR} else {})
            else m' == m
  {
    if c.Consume? && Refusal(r, c).None? {
      ConsumeMids(r, c);
    }
  }

  lemma MapGrows(m: map<string, string>, m': map<string, string>, mid: string)
    requires mid !in m && m.Keys + {mid} <= m'.Keys
    ensures |m'| > |m|
  {
    assert |m.Keys + {mid}| == |m.Keys| + 1;
    SubsetSize(m.Keys + {mid}, m'.Keys);
  }

  lemma SubsetSize<T>(a: set<T>, b: set<T>)
    requires a <= b
    ensures |a| <= |b|
  {
    assert |b| == |a| + |b - a|;
  }

  /** A call before the `i`-th gave this mid. */
  ghost predicate GivenBefore(t: seq<Recv>, calls: seq<Call>, i: nat, mid: string)
    requires |t| == |calls| + 1 && i <= |calls|
  {
    exists j :: 0 <= j < i && Given(t, calls, j, mid)
  }

  /** In any run at all, every numeral in the map is below its size or was given by a caller. */
  lemma {:induction false} NumeralsBounded(t: seq<Recv>, calls: seq<Call>, i: nat, n: nat)
    requires Calls(t, calls) && i < |t| && Decimal(n) in t[i].h.transceivers
    ensures n < |t[i].h.transceivers| || GivenBefore(t, calls, i, Decimal(n))
    decreases i
  {
    if i == 0 {
    } else {
      var j := i - 1;
      if Decimal(n) in t[j].h.transceivers {
        NumeralsBounded(t, calls, j, n);
        MapStays(t[j], calls[j]);
      } else {
        NewNumeral(t[j], calls[j], n);
        assert calls[j].mid == Some(Decimal(n)) ==> Given(t, calls, j, Decimal(n));
      }
      assert i == j + 1;
    }
  }

  lemma MapStays(r: Recv, c: Call)
    requires Callable(r, c)
    ensures |r.h.transceivers| <= |Apply(r, c).h.transceivers|
  {
    ApplyMids(r, c);
    SubsetSize(r.h.transceivers.Keys, Apply(r, c).h.transceivers.Keys);
  }

  /** A numeral that a call adds was given or is the old size of the map. */
  lemma NewNumeral(r: Recv, c: Call, n: nat)
    requires Callable(r, c) && Decimal(n) !in r.h.transceivers && Decimal(n) in Apply(r, c).h.transceivers
    ensures Refusal(r, c).None? && c.Consume?
    ensures c.mid == Some(Decimal(n)) || n < |Apply(r, c).h.transceivers|
  {
    ApplyMids(r, c);
    ReservedAreNoNumerals();
    assert Decimal(n) == LocalId(r.h, c.mid);
    if c.mid != Some(Decimal(n)) {
      DecimalInjective(n, |r.h.transceivers|);
      MapGrows(r.h.transceivers, Apply(r, c).h.transceivers, Decimal(n));
    }
  }

  lemma {:induction false} GivenStays(t: seq<Recv>, calls: seq<Call>, j: nat, i: nat, mid: string)
    requires Calls(t, calls) && j < i < |t| && mid != "" && Given(t, calls, j, mid)
    ensures mid in t[i].h.transceivers
  {
    if j == i - 1 {
      GivenEnters(t[j], calls[j], mid);
    } else {
      GivenStays(t, calls, j, i - 1, mid);
      MidStays(t[i - 1], calls[i - 1], mid);
    }
  }

  lemma GivenEnters(r: Recv, c: Call, mid: string)
    requires Callable(r, c) && c.Consume? && Refusal(r, c).None? && c.mid == Some(mid) && mid != ""
    ensures mid in Apply(r, c).h.transceivers
  {
    ApplyMids(r, c);
    assert LocalId(r.h, c.mid) == mid;
  }

  lemma MidStays(r: Recv, c: Call, mid: string)
    requires Callable(r, c) && mid in r.h.transceivers
    ensures mid in Apply(r, c).h.transceivers
  {
    ApplyMids(r, c);
  }

  /** In any run at all, the next generated mid is already in the map exactly when a caller has given
      that very numeral before. */
  lemma GeneratedMidTakenIffGiven(t: seq<Recv>, calls: seq<Call>, i: nat)
    requires Calls(t, calls) && i < |t|
    ensures var mid := LocalId(t[i].h, None);
            mid in t[i].h.transceivers <==> GivenBefore(t, calls, i, mid)
  {
    var n := |t[i].h.transceivers|;
    if Decimal(n) in t[i].h.transceivers {
      NumeralsBounded(t, calls, i, n);
    }
    if j :| 0 <= j < i && Given(t, calls, j, Decimal(n)) {
      GivenStays(t, calls, j, i, Decimal(n));
    }
  }

  // ----- tidy runs ----------------------------------------------------------------------------

  /** What a caller can check on its own: live ids differ, and a given mid was never used, is not a
      numeral and not one of the two reserved names. */
  ghost predicate Tidy(r: Recv, c: Call) {
    c.Consume? ==>
      && c.id !in r.book.index
      && (c.mid.Some? && c.mid.value != "" ==>
            && c.mid.value !in r.h.transceivers && !Numeral(c.mid.value)
            && c.mid.value != PROBATOR && c.mid.value != "datachannel")
  }

  /** The names in use: numerals are counted, sections carry known mids, reserved names are kept apart. */
  ghost predicate NamesOf(h: Handler, probator: bool) {
    && (forall n: nat :: Decimal(n) in h.transceivers ==> n < |h.transceivers|)
    && h.sdp.midToIndex.Keys <= h.transceivers.Keys + {"datachannel"}
    && "datachannel" !in h.transceivers
    && (PROBATOR in h.transceivers ==> probator)
    && ("datachannel" in h.sdp.midToIndex ==> h.hasData)
  }

  ghost predicate Names(r: Recv) { NamesOf(r.h, r.probator) }

  /** A tidy consumer's mid is new everywhere. */
  lemma TidyMidIsNew(r: Recv, c: Call)
    requires Names(r) && c.Consume? && Tidy(r, c)
    ensures var mid := LocalId(r.h, c.mid);
            && mid !in r.h.transceivers && mid != PROBATOR && mid != "datachannel" && mid != ""
            && mid !in r.h.sdp.midToIndex && (Numeral(mid) ==> mid == Decimal(|r.h.transceivers|))
  {
    ReservedAreNoNumerals();
    var mid := LocalId(r.h, c.mid);
    if !(c.mid.Some? && c.mid.value != "") {
      assert Numeral(mid);
    }
  }

  lemma TidyAllowed(r: Recv, c: Call)
    requires Inv(r) && Names(r) && Callable(r, c) && Tidy(r, c)
    ensures Allowed(r, c)
  {
    if c.Consume? && Refusal(r, c).None? {
      TidyMidIsNew(r, c);
      if StartsProbator(r, c) {
        ProbatorIsNew(r, c);
      }
    }
  }

  lemma ProbatorIsNew(r: Recv, c: Call)
    requires Inv(r) && Names(r) && !r.probator && c.Consume?
    requires Enters(r.h.sdp, LocalId(r.h, c.mid)) && LocalId(r.h, c.mid) != PROBATOR
    ensures PROBATOR !in Received(r, c).sdp.midToIndex
  {
    ReceiveHolds(r.h, c.id, c.kind, c.mid, c.params);
  }

  /** The map after a tidy consumer still counts its numerals. */
  lemma NumeralsCounted(m: map<string, string>, mid: string)
    requires forall n: nat :: Decimal(n) in m ==> n < |m|
    requires mid !in m && (Numeral(mid) ==> mid == Decimal(|m|))
    ensures forall n: nat :: Decimal(n) in m[mid := mid] ==> n < |m[mid := mid]|
  {
    MapGrows(m, m[mid := mid], mid);
    forall n: nat | Decimal(n) in m[mid := mid] ensures n < |m[mid := mid]| {
      if Decimal(n) == mid {
        DecimalInjective(n, |m|);
      }
    }
  }

  lemma ReceiveKeepsNames(
    h: Handler, probator: bool, id: string, kind: string, mid: Option<string>, params: RtpParams)
    requires Sound(h) && Coherent(h.sdp) && NamesOf(h, probator) && Enters(h.sdp, LocalId(h, mid))
    requires LocalId(h, mid) !in h.transceivers && LocalId(h, mid) != "datachannel"
    requires Numeral(LocalId(h, mid)) ==> LocalId(h, mid) == Decimal(|h.transceivers|)
    ensures NamesOf(HReceive(h, id, kind, mid, params), probator || LocalId(h, mid) == PROBATOR)
  {
    ReceiveHolds(h, id, kind, mid, params);
    NumeralsCounted(h.transceivers, LocalId(h, mid));
  }

  lemma TidyConsumeKeepsNames(r: Recv, c: Call)
    requires Inv(r) && Names(r) && Callable(r, c) && Tidy(r, c) && c.Consume? && Refusal(r, c).None?
    ensures Names(Consumed(r, c))
  {
    TidyAllowed(r, c);
    TidyMidIsNew(r, c);
    ReceiveKeepsNames(r.h, r.probator, c.id, c.kind, c.mid, c.params);
    if StartsProbator(r, c) {
      ReceivedHolds(r, c);
      ProbatorKeepsNames(Received(r, c), c.kind, c.probatorParams);
    }
  }

  lemma ProbatorKeepsNames(h: Handler, kind: string, params: RtpParams)
    requires Sound(h) && Coherent(h.sdp) && NamesOf(h, false) && Enters(h.sdp, PROBATOR)
    requires PROBATOR !in h.transceivers
    ensures NamesOf(HReceive(h, PROBATOR, kind, Some(PROBATOR), params), true)
  {
    ReservedAreNoNumerals();
    ReceiveKeepsNames(h, false, PROBATOR, kind, Some(PROBATOR), params);
  }

  lemma CloseKeepsNames(r: Recv, k: nat)
    requires Inv(r) && Names(r) && k < |r.book.all|
    ensures Names(ConsumerClosed(r, k))
  {
    if !r.book.all[k].closed && !r.book.closed {
      assert Backed(r.h, r.book.all[k].localId);
      StopHolds(r.h, r.book.all[k].localId);
    }
  }

  lemma TidyKeepsNames(r: Recv, c: Call)
    requires Inv(r) && Names(r) && Callable(r, c) && Tidy(r, c)
    ensures Names(Apply(r, c))
  {
    if Refusal(r, c).None? {
      match c
      case Consume(_, _, _, _, _, _, _) => TidyConsumeKeepsNames(r, c);
      case CloseConsumer(k) => CloseKeepsNames(r, k);
      case CloseTransport =>
      case ConsumeData(_, _, _) => DataKeepsNames(r.h, r.probator);
      case RestartIce(ice) => IceKeepsNames(r.h, r.probator, ice);
    }
  }

  lemma DataKeepsNames(h: Handler, probator: bool)
    requires Sound(h) && Coherent(h.sdp) && NamesOf(h, probator)
    ensures NamesOf(HReceiveData(h), probator)
  {
    ReceiveDataHolds(h);
  }

  lemma IceKeepsNames(h: Handler, probator: bool, ice: Ice)
    requires Coherent(h.sdp) && NamesOf(h, probator)
    ensures NamesOf(HRestartIce(h, ice), probator)
  {
    RestartIceHolds(h, ice);
  }

  lemma NextMidIsNew(r: Recv)
    requires Names(r)
    ensures LocalId(r.h, None) !in r.h.transceivers && LocalId(r.h, None) !in r.h.sdp.midToIndex
  {
    ReservedAreNoNumerals();
    assert Numeral(LocalId(r.h, None));
  }

  /** In every run whose calls are tidy all mids are admissible: a generated mid never meets an earlier
      mid, the probator or the data channel. */
  lemma {:induction false} TidyRunIsSafe(t: seq<Recv>, calls: seq<Call>, i: nat)
    requires Calls(t, calls) && (forall j :: 0 <= j < |calls| ==> Tidy(t[j], calls[j])) && i < |t|
    ensures Inv(t[i]) && Names(t[i]) && (i < |calls| ==> Allowed(t[i], calls[i]))
    ensures LocalId(t[i].h, None) !in t[i].h.transceivers && LocalId(t[i].h, None) !in t[i].h.sdp.midToIndex
  {
    if i > 0 {
      TidyRunIsSafe(t, calls, i - 1);
      ApplyKeeps(t[i - 1], calls[i - 1]);
      TidyKeepsNames(t[i - 1], calls[i - 1]);
    } else {
      NewIsNamed(t[0]);
    }
    if i < |calls| {
      TidyAllowed(t[i], calls[i]);
    }
    NextMidIsNew(t[i]);
  }

  lemma NewIsNamed(r: Recv)
    requires exists ice: Ice, role: Option<string>, extended: Ortc.Extended :: r == NewRecv(ice, role, extended)
    ensures Inv(r) && Names(r)
  {
  }

  /** Without that care it goes wrong: if the first call consumes audio under the mid "1", the mid generated
      next is "1" again, and may not enter the table. If it consumes video, the probator comes in between
      and the next mid is "2". */
  lemma GivenNumeralCollides(t: seq<Recv>, calls: seq<Call>)
    requires Calls(t, calls) && calls != [] && calls[0].Consume? && calls[0].mid == Some("1")
    requires Refusal(t[0], calls[0]).None?
    ensures calls[0].kind == "audio" ==>
              LocalId(t[1].h, None) == "1" && "1" in t[1].h.transceivers && !Enters(t[1].h.sdp, "1")
    ensures calls[0].kind == "video" ==> LocalId(t[1].h, None) == "2" && "2" !in t[1].h.transceivers
  {
    NewIsNamed(t[0]);
    if calls[0].kind == "audio" {
      FirstAudioCollides(t[0], calls[0]);
    } else {
      FirstVideoDoesNot(t[0], calls[0]);
    }
  }

  lemma FirstAudioCollides(r: Recv, c: Call)
    requires Inv(r) && r.h.transceivers == map[] && r.h.sdp.midToIndex == map[] && c.Consume?
    requires c.mid == Some("1") && c.kind == "audio"
    ensures var h := Consumed(r, c).h;
            LocalId(h, None) == "1" && "1" in h.transceivers && !Enters(h.sdp, "1")
  {
    assert Consumed(r, c).h == Received(r, c);
    ReceiveHolds(r.h, c.id, c.kind, c.mid, c.params);
    OnlyNumeralOne(Received(r, c));
    HeldMayNotEnter(Received(r, c).sdp, "1");
  }

  lemma OnlyNumeralOne(h: Handler)
    requires h.transceivers == map["1" := "1"]
    ensures LocalId(h, None) == "1" && "1" in h.transceivers
  {
    assert Decimal(1) == "1";
  }

  lemma HeldMayNotEnter(s: Sdp, mid: string)
    requires Coherent(s) && Holds(s, mid)
    ensures !Enters(s, mid)
  {
  }

  lemma FirstVideoDoesNot(r: Recv, c: Call)
    requires Sound(r.h) && !r.probator && r.h.transceivers == map[] && c.Consume?
    requires c.mid == Some("1") && c.kind == "video"
    ensures var h := Consumed(r, c).h; LocalId(h, None) == "2" && "2" !in h.transceivers
  {
    ConsumeMids(r, c);
    var m := Consumed(r, c).h.transceivers;
    assert m.Keys == {"1", PROBATOR};
    TwoMids(m);
  }

  lemma TwoMids(m: map<string, string>)
    requires m.Keys == {"1", PROBATOR}
    ensures Decimal(|m|) == "2" && "2" !in m
  {
    assert PROBATOR[0] == 'p' && "1"[0] == '1' && "2"[0] == '2';
    assert |m| == |m.Keys| == 2;
    assert Decimal(2) == "2";
  }
}
