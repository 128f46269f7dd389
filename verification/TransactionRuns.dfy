/** Transactions over whole runs: any interleaving of new requests, block clones (core/packet.c:
    248-366), responses, timer steps and removal of a peer. */
module TransactionRuns {
  import opened Bytes
  import opened Coap
  import opened Transaction

  /** The state with the next unused serial number and user-data identity. */
  datatype World = World(st: State, nextSerial: nat, nextData: nat)

  datatype Event =
    | Start(mid: uint16, peer: nat, code: uint8, token: seq<byte>, withData: bool, clock: int)
    | CloneBlock(of: uint16, mid: uint16, clock: int)
    | Respond(peer: nat, message: Message, clock: int)
    | Step(now: int)
    | RemovePeer(peer: nat)

  function FindMid(list: seq<Tx>, mid: uint16): (i: nat)
    ensures i <= |list|
    ensures i < |list| ==> list[i].mid == mid
    ensures i == |list| ==> forall t :: t in list ==> t.mid != mid
  {
    if list == [] then 0 else if list[0].mid == mid then 0 else 1 + FindMid(list[1..], mid)
  }

  predicate MidInUse(list: seq<Tx>, mid: uint16) {
    FindMid(list, mid) < |list|
  }

  /** `LWM2M_LIST_ADD` followed by `transaction_send`. */
  function AddAndSend(st: State, t: Tx, clock: int): State
    requires Sorted(st.list) && !MidInUse(st.list, t.mid)
  {
    InsertSorted(st.list, t);
    var added := st.(list := Insert(st.list, t));
    var i := FindMid(added.list, t.mid);
    if i < |added.list| then Transmit(added, i, clock).0 else added
  }

  /** Transactions of one peer, removed without a callback (`transaction_remove_client`). */
  function WithoutPeer(list: seq<Tx>, peer: nat): seq<Tx>
  {
    if list == [] then []
    else if list[0].peer == peer then WithoutPeer(list[1..], peer)
    else [list[0]] + WithoutPeer(list[1..], peer)
  }

  /** One event. Message IDs of new transactions are fresh, as is their user data; a clone takes over
      peer, code, token, callback and user data. */
  function Apply(w: World, e: Event): World
    requires Sorted(w.st.list)
  {
    match e
    case Start(mid, peer, code, token, withData, clock) =>
      if MidInUse(w.st.list, mid) then w
      else
        var t := Tx(w.nextSerial, mid, peer, code, token, false, 0, 0, true, if withData then Some(w.nextData) else None);
        World(AddAndSend(w.st, t, clock), w.nextSerial + 1, if withData then w.nextData + 1 else w.nextData)
    case CloneBlock(of, mid, clock) =>
      var i := FindMid(w.st.list, of);
      if i == |w.st.list| || MidInUse(w.st.list, mid) then w
      else
        var t := w.st.list[i].(serial := w.nextSerial, mid := mid, ackReceived := false, retransTime := 0, retransCounter := 0);
        World(AddAndSend(w.st, t, clock), w.nextSerial + 1, w.nextData)
    case Respond(peer, m, clock) => w.(st := RespondFrom(w.st, 0, peer, m, clock).0)
    case Step(now) => w.(st := StepFrom(w.st, 0, now))
    case RemovePeer(peer) => w.(st := w.st.(list := WithoutPeer(w.st.list, peer)))
  }

  const Empty: World := World(State([], Trace(multiset{}, multiset{}, multiset{}, map[], {})), 0, 0)

  // ----- lists --------------------------------------------------------------------------------

  lemma {:induction false} InsertAt(list: seq<Tx>, t: Tx) returns (i: nat)
    requires Sorted(list) && !MidInUse(list, t.mid)
    ensures i <= |list| && InsertAfterHead(list, t) == list[..i] + [t] + list[i..]
    ensures forall j :: 0 <= j < i ==> list[j].mid < t.mid
    ensures forall j :: i <= j < |list| ==> t.mid < list[j].mid
  {
    assert forall x :: x in list ==> x.mid != t.mid;
    hide FindMid, MidInUse;
    i := InsertPosition(list, t);
  }

  lemma {:induction false} InsertPosition(list: seq<Tx>, t: Tx) returns (i: nat)
    requires Sorted(list) && (forall j :: 0 <= j < |list| ==> list[j].mid != t.mid)
    ensures i <= |list| && InsertAfterHead(list, t) == list[..i] + [t] + list[i..]
    ensures forall j :: 0 <= j < i ==> list[j].mid < t.mid
    ensures forall j :: i <= j < |list| ==> t.mid < list[j].mid
  {
    if list == [] || list[0].mid >= t.mid {
      i := 0;
    } else {
      i := InsertPosition(list[1..], t);
      assert forall j :: 1 <= j < |list| ==> list[j] == list[1..][j - 1];
      assert list[..i + 1] + [t] + list[i + 1..] == [list[0]] + (list[1..][..i] + [t] + list[1..][i..]);
      i := i + 1;
    }
  }

  lemma {:induction false} InsertSame(list: seq<Tx>, t: Tx)
    requires Sorted(list) && !MidInUse(list, t.mid)
    ensures Insert(list, t) == InsertAfterHead(list, t)
  {
  }

  lemma {:induction false} InsertSorted(list: seq<Tx>, t: Tx)
    requires Sorted(list) && !MidInUse(list, t.mid)
    ensures Sorted(Insert(list, t))
  {
    var i := InsertAt(list, t);
    InsertSame(list, t);
  }

  // ----- lifecycle invariant ------------------------------------------------------------------

  predicate Listed(list: seq<Tx>, serial: nat) {
    exists i :: 0 <= i < |list| && list[i].serial == serial
  }

  predicate Referenced(list: seq<Tx>, data: nat) {
    exists i :: 0 <= i < |list| && list[i].userData == Some(data)
  }

  predicate DistinctSerials(list: seq<Tx>) {
    forall i, j :: 0 <= i < j < |list| ==> list[i].serial != list[j].serial
  }

  /** The listed transactions are told apart by ID and by serial, and each has a callback. */
  predicate WellListed(w: World) {
    && Sorted(w.st.list)
    && DistinctSerials(w.st.list)
    && (forall i :: 0 <= i < |w.st.list| ==> w.st.list[i].callback && w.st.list[i].serial < w.nextSerial)
    && (forall i :: 0 <= i < |w.st.list| && w.st.list[i].userData.Some? ==> w.st.list[i].userData.value < w.nextData)
  }

  /** No callback has run for a listed transaction and none has run twice; nothing freed is still
      referenced and nothing was freed twice. */
  ghost predicate OnceOnly(w: World) {
    && (forall s: nat :: Listed(w.st.list, s) || s >= w.nextSerial ==> w.st.trace.callbacks[s] == 0)
    && (forall s: nat :: w.st.trace.callbacks[s] <= 1)
    && (forall d: nat :: Referenced(w.st.list, d) || d >= w.nextData ==> w.st.trace.freed[d] == 0)
    && (forall d: nat :: w.st.trace.freed[d] <= 1)
  }

  /** Every transaction that left had its callback, and all unreferenced user data is freed. */
  ghost predicate Settled(w: World) {
    && (forall s: nat :: s < w.nextSerial && !Listed(w.st.list, s) ==> w.st.trace.callbacks[s] == 1)
    && (forall d: nat :: d < w.nextData && !Referenced(w.st.list, d) ==> w.st.trace.freed[d] == 1)
  }

  ghost predicate Lifecycle(w: World) {
    WellListed(w) && OnceOnly(w)
  }

  /** Whoever has left stays away and gets no callback any more; what nobody refers to is neither taken up nor freed
      any more. */
  ghost predicate Gone(before: World, after: World) {
    && before.nextSerial <= after.nextSerial && before.nextData <= after.nextData
    && (forall s: nat :: s < before.nextSerial && !Listed(before.st.list, s) ==>
          !Listed(after.st.list, s) && after.st.trace.callbacks[s] == before.st.trace.callbacks[s])
    && (forall d: nat :: d < before.nextData && !Referenced(before.st.list, d) ==>
          !Referenced(after.st.list, d) && after.st.trace.freed[d] == before.st.trace.freed[d])
  }

  ghost predicate Keeps(before: World, after: World) {
    Lifecycle(before) ==> Lifecycle(after) && (Settled(before) ==> Settled(after)) && Gone(before, after)
  }

  lemma {:induction false} KeepsTwice(a: World, b: World, c: World)
    requires Keeps(a, b) && Keeps(b, c)
    ensures Keeps(a, c)
  {
    hide Listed, Referenced, WellListed, OnceOnly, Settled;
  }

  /** Only the fields that say who a transaction is matter to its lifecycle. */
  predicate SameIdentity(a: Tx, b: Tx) {
    a.serial == b.serial && a.mid == b.mid && a.callback == b.callback && a.userData == b.userData
  }

  predicate SameLife(a: State, b: State) {
    && |a.list| == |b.list| && (forall i :: 0 <= i < |a.list| ==> SameIdentity(a.list[i], b.list[i]))
    && a.trace.callbacks == b.trace.callbacks && a.trace.freed == b.trace.freed
  }

  lemma {:induction false} SameLifeKeeps(a: World, b: World)
    requires SameLife(a.st, b.st) && a.nextSerial == b.nextSerial && a.nextData == b.nextData
    ensures Keeps(a, b)
  {
    assert forall s :: Listed(a.st.list, s) <==> Listed(b.st.list, s);
    assert forall d :: Referenced(a.st.list, d) <==> Referenced(b.st.list, d);
  }

  /** Who is left after the transaction at `i` went. */
  lemma {:induction false} RemainingListed(list: seq<Tx>, i: nat, rest: seq<Tx>, s: nat)
    requires i < |list| && rest == list[..i] + list[i + 1..]
    requires forall j :: 0 <= j < |list| && j != i ==> list[j].serial != list[i].serial
    ensures Listed(rest, s) <==> Listed(list, s) && s != list[i].serial
  {
    if Listed(rest, s) {
      var j :| 0 <= j < |rest| && rest[j].serial == s;
      assert rest[j] == list[if j < i then j else j + 1];
    }
    if Listed(list, s) && s != list[i].serial {
      var j :| 0 <= j < |list| && list[j].serial == s;
      assert list[j] == rest[if j < i then j else j - 1];
    }
  }

  lemma {:induction false} RemainingReferenced(list: seq<Tx>, i: nat, rest: seq<Tx>, d: nat)
    requires i < |list| && rest == list[..i] + list[i + 1..]
    ensures Referenced(rest, d) <==> Referenced(list, d) && (list[i].userData != Some(d) || Shared(list, i))
  {
    if Referenced(rest, d) {
      var j :| 0 <= j < |rest| && rest[j].userData == Some(d);
      assert rest[j] == list[if j < i then j else j + 1];
    }
    if Referenced(list, d) && (list[i].userData != Some(d) || Shared(list, i)) {
      var j :| 0 <= j < |list| && j != i && list[j].userData == Some(d);
      assert list[j] == rest[if j < i then j else j - 1];
    }
  }

  lemma {:induction false} RemainingWellListed(w: World, i: nat, rest: seq<Tx>)
    requires WellListed(w) && i < |w.st.list| && rest == w.st.list[..i] + w.st.list[i + 1..]
    ensures WellListed(w.(st := w.st.(list := rest)))
    ensures forall s: nat :: Listed(rest, s) <==> Listed(w.st.list, s) && s != w.st.list[i].serial
    ensures forall d: nat :: Referenced(rest, d) <==> Referenced(w.st.list, d) && (w.st.list[i].userData != Some(d) || Shared(w.st.list, i))
  {
    forall s: nat { RemainingListed(w.st.list, i, rest, s); }
    forall d: nat { RemainingReferenced(w.st.list, i, rest, d); }
    assert forall j :: 0 <= j < |rest| ==> rest[j] == w.st.list[if j < i then j else j + 1];
    hide Listed, Referenced, Shared;
  }

  /** Finishing runs the callback and frees the user data exactly when nobody else refers to it. */
  lemma {:induction false} FinishTrace(st: State, i: nat)
    requires Sorted(st.list) && i < |st.list| && st.list[i].callback
    ensures var (t, trace) := (st.list[i], Finish(st, i).trace);
            && trace.callbacks == st.trace.callbacks + multiset{t.serial}
            && trace.freed == if t.userData.Some? && !Shared(st.list, i) then st.trace.freed + multiset{t.userData.value} else st.trace.freed
  {
  }

  lemma {:induction false} FinishKeeps(w: World, i: nat)
    requires Lifecycle(w) && i < |w.st.list|
    ensures Keeps(w, w.(st := Finish(w.st, i)))
  {
    var t := w.st.list[i];
    var after := w.(st := Finish(w.st, i));
    RemainingWellListed(w, i, Finish(w.st, i).list);
    ListedAt(w, i);
    FinishTrace(w.st, i);
    assert WellListed(after);
    hide Listed, Referenced, Shared, Finish, WellListed, RunCallback;
    assert OnceOnly(after);
    assert Gone(w, after);
    hide OnceOnly, Gone;
  }

  lemma {:induction false} ListedAt(w: World, i: nat)
    requires WellListed(w) && i < |w.st.list|
    ensures var t := w.st.list[i];
            && Listed(w.st.list, t.serial) && t.callback && t.serial < w.nextSerial && Sorted(w.st.list)
            && (t.userData.Some? ==> Referenced(w.st.list, t.userData.value) && t.userData.value < w.nextData)
  {
  }

  lemma {:induction false} TransmitKeeps(w: World, i: nat, clock: int)
    requires Lifecycle(w) && i < |w.st.list|
    ensures Keeps(w, w.(st := Transmit(w.st, i, clock).0))
    ensures var (after, removed) := Transmit(w.st, i, clock); |after.list| == if removed then |w.st.list| - 1 else |w.st.list|
  {
    hide Settled, OnceOnly, Gone, Finish, Shared;
    var copied := w.(st := SendCopy(w.st, w.st.list[i].serial, clock));
    SameLifeKeeps(w, copied);
    FinishKeeps(w, i);
    FinishKeeps(copied, i);
    KeepsTwice(w, copied, w.(st := Finish(copied.st, i)));
    var after := w.(st := Transmit(w.st, i, clock).0);
    if !Transmit(w.st, i, clock).1 {
      SameLifeKeeps(w, after);
    }
  }

  lemma {:induction false} StepKeeps(w: World, i: nat, now: int)
    requires Lifecycle(w) && i <= |w.st.list|
    ensures Keeps(w, w.(st := StepFrom(w.st, i, now)))
    decreases |w.st.list| - i
  {
    hide Settled, OnceOnly, Gone;
    if i < |w.st.list| {
      if w.st.list[i].retransTime > now {
        StepKeeps(w, i + 1, now);
      } else {
        TransmitKeeps(w, i, now);
        var (after, removed) := Transmit(w.st, i, now);
        StepKeeps(w.(st := after), if removed then i else i + 1, now);
        KeepsTwice(w, w.(st := after), w.(st := StepFrom(w.st, i, now)));
      }
    } else {
      SameLifeKeeps(w, w);
    }
  }

  lemma {:induction false} RespondKeeps(w: World, i: nat, peer: nat, m: Message, clock: int)
    requires Lifecycle(w) && i <= |w.st.list|
    ensures Keeps(w, w.(st := RespondFrom(w.st, i, peer, m, clock).0))
    decreases |w.st.list| - i
  {
    hide Settled, OnceOnly, Gone;
    if i == |w.st.list| {
      SameLifeKeeps(w, w);
    } else {
      RespondKeeps(w, i + 1, peer, m, clock);
      var t := w.st.list[i];
      var touched := w.(st := Touch(w.st, i, if Answers(t, m) then t.(ackReceived := true) else t));
      SameLifeKeeps(w, touched);
      FinishKeeps(touched, i);
      KeepsTwice(w, touched, w.(st := Finish(touched.st, i)));
      var after := w.(st := RespondFrom(w.st, i, peer, m, clock).0);
      if |after.st.list| == |w.st.list| && after.st != RespondFrom(w.st, i + 1, peer, m, clock).0 {
        SameLifeKeeps(w, after);
      }
    }
  }

  lemma {:induction false} AddedListed(list: seq<Tx>, t: Tx, i: nat, longer: seq<Tx>, s: nat)
    requires i <= |list| && longer == list[..i] + [t] + list[i..]
    ensures Listed(longer, s) <==> Listed(list, s) || s == t.serial
  {
    assert longer[i] == t;
    if Listed(list, s) {
      var j :| 0 <= j < |list| && list[j].serial == s;
      assert longer[if j < i then j else j + 1] == list[j];
    }
  }

  lemma {:induction false} AddedReferenced(list: seq<Tx>, t: Tx, i: nat, longer: seq<Tx>, d: nat)
    requires i <= |list| && longer == list[..i] + [t] + list[i..]
    ensures Referenced(longer, d) <==> Referenced(list, d) || t.userData == Some(d)
  {
    assert longer[i] == t;
    if Referenced(list, d) {
      var j :| 0 <= j < |list| && list[j].userData == Some(d);
      assert longer[if j < i then j else j + 1] == list[j];
    }
  }

  lemma {:induction false} AddedWellListed(w: World, t: Tx, nextData: nat, i: nat)
    requires WellListed(w) && t.serial == w.nextSerial && t.callback && w.nextData <= nextData
    requires t.userData.Some? ==> t.userData.value < nextData
    requires i <= |w.st.list| && (forall j :: 0 <= j < i ==> w.st.list[j].mid < t.mid)
    requires forall j :: i <= j < |w.st.list| ==> t.mid < w.st.list[j].mid
    ensures WellListed(World(w.st.(list := w.st.list[..i] + [t] + w.st.list[i..]), w.nextSerial + 1, nextData))
  {
  }

  /** A new transaction brings either nothing, fresh user data, or that of a listed transaction. */
  lemma {:induction false} AddKeeps(w: World, t: Tx, nextData: nat)
    requires Lifecycle(w) && !MidInUse(w.st.list, t.mid) && t.serial == w.nextSerial && t.callback
    requires t.userData.Some? ==> t.userData.value < nextData
    requires if nextData == w.nextData then t.userData.Some? ==> Referenced(w.st.list, t.userData.value)
             else nextData == w.nextData + 1 && t.userData == Some(w.nextData)
    ensures Keeps(w, World(w.st.(list := Insert(w.st.list, t)), w.nextSerial + 1, nextData))
  {
    var list := w.st.list;
    var i := InsertAt(list, t);
    InsertSame(list, t);
    var longer := list[..i] + [t] + list[i..];
    forall s: nat { AddedListed(list, t, i, longer, s); }
    forall d: nat { AddedReferenced(list, t, i, longer, d); }
    AddedWellListed(w, t, nextData, i);
    hide Listed, Referenced, WellListed, MidInUse, Insert, InsertAfterHead;
  }

  lemma {:induction false} AddAndSendIs(st: State, t: Tx, clock: int)
    requires Sorted(st.list) && !MidInUse(st.list, t.mid)
    ensures var added := st.(list := Insert(st.list, t));
            var i := FindMid(added.list, t.mid);
            Sorted(added.list) && AddAndSend(st, t, clock) == if i < |added.list| then Transmit(added, i, clock).0 else added
  {
    InsertSorted(st.list, t);
    hide Transmit, Insert, Sorted, FindMid, MidInUse;
  }

  lemma {:induction false} AddAndSendKeeps(w: World, t: Tx, clock: int, nextData: nat)
    requires Lifecycle(w) && !MidInUse(w.st.list, t.mid) && t.serial == w.nextSerial && t.callback
    requires t.userData.Some? ==> t.userData.value < nextData
    requires if nextData == w.nextData then t.userData.Some? ==> Referenced(w.st.list, t.userData.value)
             else nextData == w.nextData + 1 && t.userData == Some(w.nextData)
    ensures Keeps(w, World(AddAndSend(w.st, t, clock), w.nextSerial + 1, nextData))
  {
    AddKeeps(w, t, nextData);
    var added := World(w.st.(list := Insert(w.st.list, t)), w.nextSerial + 1, nextData);
    var i := FindMid(added.st.list, t.mid);
    AddAndSendIs(w.st, t, clock);
    assert Lifecycle(added);
    hide Settled, Gone, Insert, Referenced, Lifecycle, Transmit, Sorted, AddAndSend, MidInUse, FindMid;
    if i < |added.st.list| {
      TransmitKeeps(added, i, clock);
      KeepsTwice(w, added, added.(st := Transmit(added.st, i, clock).0));
    }
  }

  lemma {:induction false} WithoutPeerMembers(list: seq<Tx>, peer: nat, t: Tx)
    ensures t in WithoutPeer(list, peer) <==> t in list && t.peer != peer
  {
    if list != [] {
      WithoutPeerMembers(list[1..], peer, t);
      assert t in list <==> t == list[0] || t in list[1..];
    }
  }

  lemma {:induction false} ConsSorted(t: Tx, list: seq<Tx>)
    requires Sorted(list) && DistinctSerials(list)
    requires forall x :: x in list ==> t.mid < x.mid && t.serial != x.serial
    ensures Sorted([t] + list) && DistinctSerials([t] + list)
  {
  }

  lemma {:induction false} WithoutPeerKept(list: seq<Tx>, peer: nat)
    requires Sorted(list) && DistinctSerials(list)
    ensures Sorted(WithoutPeer(list, peer)) && DistinctSerials(WithoutPeer(list, peer))
  {
    if list != [] {
      WithoutPeerKept(list[1..], peer);
      var rest := WithoutPeer(list[1..], peer);
      forall x | x in rest ensures list[0].mid < x.mid && list[0].serial != x.serial {
        WithoutPeerMembers(list[1..], peer, x);
        assert x in list[1..];
      }
      hide Sorted, DistinctSerials;
      ConsSorted(list[0], rest);
    }
  }

  /** Membership in terms of transactions. */
  lemma {:induction false} Members(list: seq<Tx>, s: nat, d: nat)
    ensures Listed(list, s) <==> exists t :: t in list && t.serial == s
    ensures Referenced(list, d) <==> exists t :: t in list && t.userData == Some(d)
  {
  }

  lemma {:induction false} SerialIdentifies(list: seq<Tx>, a: Tx, b: Tx)
    requires DistinctSerials(list) && a in list && b in list && a.serial == b.serial
    ensures a == b
  {
  }

  /** Who and what is left once a peer is dropped. */
  lemma {:induction false} PeerRemaining(w: World, peer: nat, s: nat, d: nat)
    requires WellListed(w)
    ensures var rest := WithoutPeer(w.st.list, peer);
            && (Listed(rest, s) <==> Listed(w.st.list, s) && !(exists t :: t in w.st.list && t.serial == s && t.peer == peer))
            && (Referenced(rest, d) <==> exists t :: t in w.st.list && t.userData == Some(d) && t.peer != peer)
  {
    var (list, rest) := (w.st.list, WithoutPeer(w.st.list, peer));
    forall t { WithoutPeerMembers(list, peer, t); }
    Members(list, s, d);
    Members(rest, s, d);
    assert DistinctSerials(list);
    hide WithoutPeer, Listed, Referenced, DistinctSerials, WellListed;
    if a, b :| a in list && b in list && a.serial == s && b.serial == s && a.peer == peer && b.peer != peer {
      SerialIdentifies(list, a, b);
    }
  }

  lemma {:induction false} RemovePeerKeeps(w: World, peer: nat)
    requires Lifecycle(w)
    ensures var after := w.(st := w.st.(list := WithoutPeer(w.st.list, peer))); Lifecycle(after) && Gone(w, after)
  {
    WithoutPeerKept(w.st.list, peer);
    var rest := WithoutPeer(w.st.list, peer);
    assert DistinctSerials(rest);
    forall i | 0 <= i < |rest|
      ensures Listed(w.st.list, rest[i].serial)
      ensures rest[i].callback && rest[i].serial < w.nextSerial
      ensures rest[i].userData.Some? ==> Referenced(w.st.list, rest[i].userData.value) && rest[i].userData.value < w.nextData
    {
      WithoutPeerMembers(w.st.list, peer, rest[i]);
      assert rest[i] in w.st.list;
    }
    hide Sorted, WithoutPeer;
  }

  lemma {:induction false} StartKeeps(w: World, e: Event)
    requires Lifecycle(w) && e.Start?
    ensures Keeps(w, Apply(w, e))
  {
    assert Sorted(w.st.list);
    if MidInUse(w.st.list, e.mid) {
      SameLifeKeeps(w, w);
    } else {
      hide Lifecycle, Sorted, Keeps, AddAndSend, MidInUse, Referenced;
      var t := Tx(w.nextSerial, e.mid, e.peer, e.code, e.token, false, 0, 0, true, if e.withData then Some(w.nextData) else None);
      AddAndSendKeeps(w, t, e.clock, if e.withData then w.nextData + 1 else w.nextData);
    }
  }

  lemma {:induction false} CloneKeeps(w: World, e: Event)
    requires Lifecycle(w) && e.CloneBlock?
    ensures Keeps(w, Apply(w, e))
  {
    var i := FindMid(w.st.list, e.of);
    if i == |w.st.list| || MidInUse(w.st.list, e.mid) {
      SameLifeKeeps(w, w);
    } else {
      ListedAt(w, i);
      hide Sorted, Lifecycle;
      var t := w.st.list[i].(serial := w.nextSerial, mid := e.mid, ackReceived := false, retransTime := 0, retransCounter := 0);
      hide Keeps, AddAndSend, MidInUse, Listed, Referenced, WellListed, OnceOnly, FindMid;
      AddAndSendKeeps(w, t, e.clock, w.nextData);
    }
  }

  lemma {:induction false} ApplyKeeps(w: World, e: Event)
    requires Lifecycle(w)
    ensures Lifecycle(Apply(w, e))
    ensures Gone(w, Apply(w, e))
    ensures !e.RemovePeer? && Settled(w) ==> Settled(Apply(w, e))
  {
    assert Sorted(w.st.list);
    hide Settled, OnceOnly, Gone, WellListed, AddAndSend, MidInUse, StepFrom, RespondFrom;
    match e
    case Start(_, _, _, _, _, _) => StartKeeps(w, e);
    case CloneBlock(_, _, _) => CloneKeeps(w, e);
    case Respond(peer, m, clock) => RespondKeeps(w, 0, peer, m, clock);
    case Step(now) => StepKeeps(w, 0, now);
    case RemovePeer(peer) => RemovePeerKeeps(w, peer);
  }

  /** The state after a run that began with an empty list. */
  ghost function After(events: seq<Event>): (w: World)
    ensures Sorted(w.st.list)
    ensures Lifecycle(w)
  {
    if events == [] then Empty
    else
      var w := After(events[..|events| - 1]);
      ApplyKeeps(w, events[|events| - 1]);
      Apply(w, events[|events| - 1])
  }

  // ----- dropped peers ------------------------------------------------------------------------

  /** A transaction left without its callback. */
  ghost predicate Silenced(w: World, s: nat) {
    s < w.nextSerial && !Listed(w.st.list, s) && w.st.trace.callbacks[s] == 0
  }

  /** User data that nobody refers to and nobody has freed. */
  ghost predicate Leaked(w: World, d: nat) {
    d < w.nextData && !Referenced(w.st.list, d) && w.st.trace.freed[d] == 0
  }

  /** Does this event drop a peer for which a transaction is listed? */
  predicate Drops(w: World, e: Event) {
    e.RemovePeer? && exists i :: 0 <= i < |w.st.list| && w.st.list[i].peer == e.peer
  }

  /** Dropping a peer silences exactly its listed transactions, and leaks exactly the user data that is referenced, but
      by transactions of this peer only. */
  lemma {:induction false} RemovePeerLeaksExactly(w: World, peer: nat, s: nat, d: nat)
    requires Lifecycle(w)
    ensures var after := Apply(w, RemovePeer(peer));
            && (Silenced(after, s) && !Silenced(w, s) <==> exists t :: t in w.st.list && t.serial == s && t.peer == peer)
            && (Leaked(after, d) && !Leaked(w, d) <==>
                  Referenced(w.st.list, d) && forall t :: t in w.st.list && t.userData == Some(d) ==> t.peer == peer)
  {
    PeerRemaining(w, peer, s, d);
    Members(w.st.list, s, d);
    assert Listed(w.st.list, s) ==> s < w.nextSerial;
    assert Referenced(w.st.list, d) ==> d < w.nextData;
    hide WithoutPeer, Listed, Referenced, WellListed;
  }

  /** Once a peer is dropped, everything is settled exactly when nothing was listed for it. */
  lemma {:induction false} RemovePeerLeaks(w: World, peer: nat)
    requires Lifecycle(w) && Settled(w)
    ensures Settled(Apply(w, RemovePeer(peer))) <==> forall t :: t in w.st.list ==> t.peer != peer
  {
    var after := Apply(w, RemovePeer(peer));
    RemovePeerKeeps(w, peer);
    UnsettledShows(w);
    UnsettledShows(after);
    hide Settled, OnceOnly, Gone, Silenced, Leaked, Apply;
    if i :| 0 <= i < |w.st.list| && w.st.list[i].peer == peer {
      RemovePeerLeaksExactly(w, peer, w.st.list[i].serial, 0);
      assert w.st.list[i] in w.st.list;
    } else {
      forall s: nat ensures !Silenced(after, s) {
        RemovePeerLeaksExactly(w, peer, s, 0);
      }
      forall d: nat ensures !Leaked(after, d) {
        RemovePeerLeaksExactly(w, peer, 0, d);
        assert Referenced(w.st.list, d) ==> exists t :: t in w.st.list && t.userData == Some(d);
      }
    }
  }

  lemma {:induction false} UnsettledShows(w: World)
    requires Lifecycle(w)
    ensures Settled(w) <==> (forall s: nat :: !Silenced(w, s)) && (forall d: nat :: !Leaked(w, d))
  {
    hide Listed, Referenced, WellListed;
    if (forall s: nat :: !Silenced(w, s)) && (forall d: nat :: !Leaked(w, d)) {
      assert forall s: nat :: !Silenced(w, s) ==> (s < w.nextSerial && !Listed(w.st.list, s) ==> w.st.trace.callbacks[s] == 1);
      assert forall d: nat :: !Leaked(w, d) ==> (d < w.nextData && !Referenced(w.st.list, d) ==> w.st.trace.freed[d] == 1);
    }
  }

  /** What is silenced or leaked stays so. */
  lemma {:induction false} UnsettledStays(w: World, after: World)
    requires Lifecycle(w) && Lifecycle(after) && Gone(w, after) && !Settled(w)
    ensures !Settled(after)
  {
    hide Listed, Referenced, WellListed;
    UnsettledShows(w);
    if s: nat :| Silenced(w, s) {
      assert after.st.trace.callbacks[s] == 0;
    } else {
      var d: nat :| Leaked(w, d);
      assert after.st.trace.freed[d] == 0;
    }
  }

  /** No event of a run dropped a peer for which a transaction was listed. */
  ghost predicate NobodyDropped(events: seq<Event>) {
    forall k :: 0 <= k < |events| ==> !Drops(After(events[..k]), events[k])
  }

  lemma {:induction false} NobodyDroppedSnoc(events: seq<Event>, e: Event)
    ensures NobodyDropped(events + [e]) <==> NobodyDropped(events) && !Drops(After(events), e)
  {
    var longer := events + [e];
    hide After, Drops;
    assert longer[..|events|] == events && longer[|events|] == e;
    assert forall k :: 0 <= k < |events| ==> longer[..k] == events[..k] && longer[k] == events[k];
  }

  /** After a run everything is settled exactly when no event dropped a peer for which a transaction was listed. */
  lemma {:induction false} SettledExactly(events: seq<Event>)
    ensures Settled(After(events)) <==> NobodyDropped(events)
  {
    if events != [] {
      var (front, e) := (events[..|events| - 1], events[|events| - 1]);
      assert events == front + [e];
      var w := After(front);
      SettledExactly(front);
      NobodyDroppedSnoc(front, e);
      ApplyKeeps(w, e);
      if !Settled(w) {
        UnsettledStays(w, After(events));
      } else if e.RemovePeer? {
        RemovePeerLeaks(w, e.peer);
      }
      hide Settled, Gone, Lifecycle, Apply;
    }
  }

  /** Over every run a callback runs at most once and only as its transaction leaves the list; user data
      is freed at most once and never while a listed transaction still refers to it. As long as no peer is
      dropped while something is listed for it, whoever left had its callback and whatever nobody refers to has
      been freed. */
  lemma {:induction false} LifecycleOverRuns(events: seq<Event>, s: nat, d: nat)
    ensures var w := After(events); w.st.trace.callbacks[s] <= 1 && w.st.trace.freed[d] <= 1
    ensures var w := After(events); Listed(w.st.list, s) ==> w.st.trace.callbacks[s] == 0
    ensures var w := After(events); Referenced(w.st.list, d) ==> w.st.trace.freed[d] == 0
    ensures var w := After(events);
            NobodyDropped(events) ==>
              && (w.st.trace.callbacks[s] == 1 <==> s < w.nextSerial && !Listed(w.st.list, s))
              && (w.st.trace.freed[d] == 1 <==> d < w.nextData && !Referenced(w.st.list, d))
  {
    SettledExactly(events);
    assert Lifecycle(After(events));
    hide After, Listed, Referenced, NobodyDropped;
  }
}
