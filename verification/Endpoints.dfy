/**
  The book a transport keeps on its producers or consumers: the closed flag, the map from id to
  endpoint, and the endpoints' own closed flags (src/Transport.cpp, src/Producer.cpp, src/Consumer.cpp).
  Producers and consumers are booked alike. A book lists every endpoint ever created; `index` maps an
  id to a position in that list.
 */
module Endpoints {
  import opened MediaSections
  import opened RemoteSdpModel
  import opened HandlerModel

  /** `notified` counts the `OnTransportClose` events the endpoint's listener got. */
  datatype Endpoint = Endpoint(id: string, localId: string, closed: bool, notified: nat)

  datatype Book = Book(closed: bool, index: map<string, nat>, all: seq<Endpoint>)

  const EMPTY := Book(false, map[], [])

  function Enlist(b: Book, id: string, localId: string): Book
  {
    b.(index := b.index[id := |b.all|], all := b.all + [Endpoint(id, localId, false, 0)])
  }

  /** `Close` on an open endpoint sets its flag, and `OnClose` erases its id from the map. */
  function Strike(b: Book, k: nat): Book
    requires k < |b.all|
  {
    if b.all[k].closed then b
    else b.(index := b.index - {b.all[k].id}, all := b.all[k := b.all[k].(closed := true)])
  }

  function TransportClosed(e: Endpoint): Endpoint
  {
    if e.closed then e else e.(closed := true, notified := e.notified + 1)
  }

  /** Closing the transport tells every endpoint in the map. */
  function Shut(b: Book): Book
  {
    if b.closed then b
    else b.(closed := true,
            all := seq(|b.all|, k requires 0 <= k < |b.all| =>
              if k in b.index.Values then TransportClosed(b.all[k]) else b.all[k]))
  }

  // ----- the book is exact ------------------------------------------------------------------

  /** While the transport is open its map holds exactly the live endpoints; after that none is live. */
  ghost predicate Exact(b: Book) {
    if b.closed then forall k :: 0 <= k < |b.all| ==> b.all[k].closed
    else
      && (forall id :: id in b.index ==>
            b.index[id] < |b.all| && b.all[b.index[id]].id == id && !b.all[b.index[id]].closed)
      && (forall k :: 0 <= k < |b.all| && !b.all[k].closed ==> b.all[k].id in b.index && b.index[b.all[k].id] == k)
  }

  /** A new endpoint keeps the book exact if and only if no live endpoint has its id. */
  lemma EnlistKeeps(b: Book, id: string, localId: string)
    requires Exact(b) && !b.closed
    ensures Exact(Enlist(b, id, localId)) <==> id !in b.index
  {
    var t := Enlist(b, id, localId);
    if id in b.index {
      assert t.all[b.index[id]].id == id && !t.all[b.index[id]].closed;
    }
  }

  lemma StrikeKeeps(b: Book, k: nat)
    requires Exact(b) && k < |b.all|
    ensures Exact(Strike(b, k))
  {
    var t := Strike(b, k);
    if !b.closed && !b.all[k].closed {
      forall j | 0 <= j < |t.all| && !t.all[j].closed ensures t.all[j].id in t.index && t.index[t.all[j].id] == j {
        assert b.index[b.all[k].id] == k && b.index[b.all[j].id] == j;
      }
    }
  }

  lemma ShutKeeps(b: Book)
    requires Exact(b)
    ensures Exact(Shut(b))
  {
    if !b.closed {
      forall k | 0 <= k < |b.all| ensures Shut(b).all[k].closed {
        if !b.all[k].closed {
          assert b.index[b.all[k].id] == k;
        }
      }
    }
  }

  // ----- who is told that the transport closed ------------------------------------------------

  /** What one call may do to the flags: closed stays closed, only closing an open transport notifies,
      and it notifies exactly the open endpoints. */
  ghost predicate Told(b: Book, closing: bool, b': Book) {
    && |b.all| <= |b'.all| && (b'.closed <==> b.closed || closing)
    && (forall k :: 0 <= k < |b.all| ==> ToldOne(closing && !b.closed, b.all[k], b'.all[k]))
    && (forall k :: |b.all| <= k < |b'.all| ==> b'.all[k].notified == 0 && !b'.closed)
    && (b'.closed ==> forall k :: 0 <= k < |b'.all| ==> b'.all[k].closed)
  }

  ghost predicate ToldOne(closing: bool, before: Endpoint, after: Endpoint) {
    && (before.closed ==> after.closed)
    && after.notified == before.notified + if closing && !before.closed then 1 else 0
  }

  lemma ShutTells(b: Book)
    requires Exact(b)
    ensures Told(b, true, Shut(b))
  {
    ShutKeeps(b);
    forall k | 0 <= k < |b.all| ensures ToldOne(!b.closed, b.all[k], Shut(b).all[k]) {
      if !b.closed && !b.all[k].closed {
        assert b.index[b.all[k].id] == k;
      }
    }
  }

  lemma StrikeTells(b: Book, k: nat)
    requires Exact(b) && k < |b.all|
    ensures Told(b, false, Strike(b, k))
  {
  }

  lemma EnlistTells(b: Book, id: string, localId: string)
    requires !b.closed
    ensures Told(b, false, Enlist(b, id, localId))
  {
  }

  lemma IdleTells(b: Book)
    requires Exact(b)
    ensures Told(b, false, b)
  {
  }

  ghost predicate ToldAlong(t: seq<Book>, closing: seq<bool>) {
    && |t| == |closing| + 1 && t[0] == EMPTY
    && forall i :: 0 <= i < |closing| ==> Told(t[i], closing[i], t[i + 1])
  }

  /** The number of the first closing call, or the number of calls. */
  ghost function FirstClosing(closing: seq<bool>): (n: nat)
    ensures n <= |closing|
    ensures n < |closing| ==> closing[n]
    ensures forall i :: 0 <= i < n ==> !closing[i]
  {
    if closing == [] || closing[0] then 0 else 1 + FirstClosing(closing[1..])
  }

  lemma {:induction false} OpenUntilClosing(t: seq<Book>, closing: seq<bool>, i: nat)
    requires ToldAlong(t, closing) && i < |t|
    ensures t[i].closed <==> i > FirstClosing(closing)
  {
    if i == 0 {
    } else {
      OpenUntilClosing(t, closing, i - 1);
      assert Told(t[i - 1], closing[i - 1], t[i]);
    }
  }

  /** Along any run an endpoint is notified once if it was open when the transport was closed, and never
      otherwise; from then on every endpoint is closed. */
  lemma {:induction false} NotifiedOnce(t: seq<Book>, closing: seq<bool>, i: nat, k: nat)
    requires ToldAlong(t, closing) && i < |t| && k < |t[i].all|
    ensures var n := FirstClosing(closing);
            && t[i].all[k].notified == (if i > n && k < |t[n].all| && !t[n].all[k].closed then 1 else 0)
            && (i > n ==> t[i].all[k].closed)
    decreases i
  {
    OpenUntilClosing(t, closing, i);
    if i == 0 {
    } else {
      OpenUntilClosing(t, closing, i - 1);
      assert Told(t[i - 1], closing[i - 1], t[i]);
      if k < |t[i - 1].all| {
        NotifiedOnce(t, closing, i - 1, k);
        assert ToldOne(closing[i - 1] && !t[i - 1].closed, t[i - 1].all[k], t[i].all[k]);
      }
    }
  }

  // ----- ownership of sections ----------------------------------------------------------------

  /** Every live endpoint owns an open section under its own mid, and no two share one. */
  ghost predicate Owned(h: Handler, all: seq<Endpoint>) {
    && (forall k :: 0 <= k < |all| && !all[k].closed ==> Backed(h, all[k].localId))
    && forall i, k :: 0 <= i < k < |all| && !all[i].closed && !all[k].closed ==> all[i].localId != all[k].localId
  }

  ghost predicate Backed(h: Handler, mid: string) {
    mid in h.transceivers && h.transceivers[mid] == mid && Holds(h.sdp, mid)
  }

  lemma OwnedAfter(h: Handler, h': Handler, all: seq<Endpoint>)
    requires Owned(h, all) && OpenKept(h.sdp, h'.sdp, "") && Coherent(h.sdp)
    requires forall mid :: mid in h.transceivers ==> mid in h'.transceivers
    requires forall mid :: mid in h.transceivers && h.transceivers[mid] == mid ==> h'.transceivers[mid] == mid
    ensures Owned(h', all)
  {
    forall k | 0 <= k < |all| && !all[k].closed ensures Backed(h', all[k].localId) {
      assert Backed(h, all[k].localId);
      HeldMidNonEmpty(h.sdp, all[k].localId);
    }
  }

  /** An endpoint on a section that was not held before joins the owners. */
  lemma OwnedEnlist(h: Handler, h': Handler, b: Book, id: string, localId: string)
    requires Owned(h, b.all) && Owned(h', b.all) && Backed(h', localId) && !Holds(h.sdp, localId)
    ensures Owned(h', Enlist(b, id, localId).all)
  {
    forall k | 0 <= k < |b.all| && !b.all[k].closed ensures b.all[k].localId != localId {
      assert Backed(h, b.all[k].localId);
    }
  }

  lemma OwnedStrike(h: Handler, h': Handler, b: Book, k: nat)
    requires Owned(h, b.all) && k < |b.all| && !b.all[k].closed
    requires h'.transceivers == h.transceivers && OpenKept(h.sdp, h'.sdp, b.all[k].localId)
    ensures Owned(h', Strike(b, k).all)
  {
    forall j | 0 <= j < |b.all| && j != k && !b.all[j].closed ensures Backed(h', b.all[j].localId) {
      assert Backed(h, b.all[j].localId);
      assert b.all[j].localId != b.all[k].localId;
    }
  }

  lemma OwnedShut(h: Handler, b: Book)
    requires Owned(h, b.all)
    ensures Owned(h, Shut(b).all)
  {
    forall k | 0 <= k < |Shut(b).all| && !Shut(b).all[k].closed ensures !b.all[k].closed {
    }
  }

  lemma IceKeeps(h: Handler, all: seq<Endpoint>, ice: Ice)
    requires Sound(h) && Coherent(h.sdp) && Owned(h, all)
    ensures Sound(HRestartIce(h, ice)) && Coherent(HRestartIce(h, ice).sdp) && Owned(HRestartIce(h, ice), all)
  {
    RestartIceHolds(h, ice);
    RestartIceSound(h, ice);
    OwnedAfter(h, HRestartIce(h, ice), all);
  }

  /** Closing a live endpoint finds its transceiver and closes a section that is in the table and open.
      Every other section stays exactly as it is, so every other live endpoint keeps its own. */
  lemma StopIsSafe(h: Handler, b: Book, k: nat)
    requires Sound(h) && Coherent(h.sdp) && Owned(h, b.all) && k < |b.all| && !b.all[k].closed
    ensures var mid := b.all[k].localId;
            var stopped := HStop(h, mid);
            && Holds(h.sdp, mid) && stopped.Some? && OpenKept(h.sdp, stopped.value.sdp, mid)
            && ClosedBy(h.sdp, mid, stopped.value.sdp)
            && (Holds(stopped.value.sdp, mid) <==> mid == h.sdp.firstMid)
            && |stopped.value.sdp.sections| == |h.sdp.sections|
            && (forall i :: 0 <= i < |h.sdp.sections| && i != h.sdp.midToIndex[mid] ==>
                  stopped.value.sdp.sections[i] == h.sdp.sections[i])
            && (forall j :: 0 <= j < |b.all| && j != k && !b.all[j].closed ==>
                  && Holds(h.sdp, b.all[j].localId)
                  && h.sdp.midToIndex[b.all[j].localId] != h.sdp.midToIndex[mid])
  {
    var mid := b.all[k].localId;
    assert Backed(h, mid);
    StopHolds(h, mid);
    StopCloses(h, mid);
    forall j | 0 <= j < |b.all| && j != k && !b.all[j].closed
      ensures Backed(h, b.all[j].localId) && b.all[j].localId != mid {
    }
  }
}
