/** The retransmission schedule over whole runs (section 4.8.2 of RFC 7252). */
module TransactionTiming {
  import opened Bytes
  import opened Coap
  import opened Transaction
  import opened TransactionRuns

  /** COAP_MAX_TRANSMIT_WAIT with the random factor of 1.5 */
  const MAX_TRANSMIT_WAIT: nat := RESPONSE_TIMEOUT * 31 * 3 / 2

  /** Time from the first copy to the deadline of the `k`-th. */
  function Backoff(k: nat): nat {
    RESPONSE_TIMEOUT * (Pow2(k) - 1)
  }

  predicate OnSchedule(trace: Trace, t: Tx) {
    && 2 <= t.retransCounter <= MAX_RETRANSMIT + 2
    && trace.copies[t.serial] == t.retransCounter - 1
    && t.serial in trace.firstSent
    && (t.serial !in trace.touched ==>
          !t.ackReceived && t.retransTime == trace.firstSent[t.serial] + Backoff(t.retransCounter - 1))
  }

  predicate Unsent(trace: Trace, serial: nat) {
    trace.copies[serial] == 0 && serial !in trace.firstSent && serial !in trace.touched
  }

  /** Every listed transaction is on schedule, except those that are about to be sent for the first time. */
  ghost predicate Timed(w: World, pending: set<nat>) {
    && (forall i :: 0 <= i < |w.st.list| && w.st.list[i].serial !in pending ==> OnSchedule(w.st.trace, w.st.list[i]))
    && (forall s: nat :: w.st.trace.copies[s] <= MAX_RETRANSMIT + 1)
    && (forall s: nat :: s >= w.nextSerial ==> Unsent(w.st.trace, s))
  }

  lemma {:induction false} FinishTimed(w: World, i: nat)
    requires i < |w.st.list| && WellListed(w) && Timed(w, {w.st.list[i].serial})
    ensures Timed(w.(st := Finish(w.st, i)), {})
  {
    var (rest, trace) := (Finish(w.st, i).list, Finish(w.st, i).trace);
    assert trace.copies == w.st.trace.copies && trace.firstSent == w.st.trace.firstSent && trace.touched == w.st.trace.touched;
    hide Finish;
    forall j | 0 <= j < |rest| ensures OnSchedule(trace, rest[j]) {
      var t := w.st.list[if j < i then j else j + 1];
      assert rest[j] == t;
      assert t.serial != w.st.list[i].serial;
      assert OnSchedule(w.st.trace, t);
    }
    assert forall s: nat :: Unsent(w.st.trace, s) ==> Unsent(trace, s);
  }

  lemma {:induction false} CopyTimed(w: World, i: nat, clock: int)
    requires i < |w.st.list| && WellListed(w) && Timed(w, {w.st.list[i].serial})
    requires w.st.trace.copies[w.st.list[i].serial] <= MAX_RETRANSMIT
    ensures Timed(w.(st := SendCopy(w.st, w.st.list[i].serial, clock)), {w.st.list[i].serial})
  {
    var serial := w.st.list[i].serial;
    var trace := SendCopy(w.st, serial, clock).trace;
    forall j | 0 <= j < |w.st.list| && w.st.list[j].serial != serial ensures OnSchedule(trace, w.st.list[j]) {
      assert OnSchedule(w.st.trace, w.st.list[j]);
    }
    assert forall s: nat :: Unsent(w.st.trace, s) && s != serial ==> Unsent(trace, s);
  }

  /** One copy more, or the end: what `transaction_send` does to the schedule. */
  lemma {:induction false} TransmitTimed(w: World, i: nat, clock: int, pending: set<nat>)
    requires WellListed(w) && Timed(w, pending) && i < |w.st.list|
    requires var t := w.st.list[i];
             if pending == {} then true
             else pending == {t.serial} && t.retransCounter == 0 && !t.ackReceived && Unsent(w.st.trace, t.serial)
    ensures Timed(w.(st := Transmit(w.st, i, clock).0), {})
  {
    var t := w.st.list[i];
    var after := w.(st := Transmit(w.st, i, clock).0);
    var copied := w.(st := SendCopy(w.st, t.serial, clock));
    assert Timed(w, {t.serial});
    if t.retransCounter == 0 {
      assert t.serial in pending;
      CopyTimed(w, i, clock);
    }
    if Transmit(w.st, i, clock).1 {
      hide Timed;
      assert t.retransCounter == 0 && !t.ackReceived ==> Timed(copied, {t.serial});
      FinishTimed(if t.retransCounter == 0 && !t.ackReceived then copied else w, i);
    } else {
      hide Finish;
      assert pending == {} ==> OnSchedule(w.st.trace, t);
      assert OnSchedule(after.st.trace, after.st.list[i]);
      assert forall s: nat :: Unsent(w.st.trace, s) && s != t.serial ==> Unsent(after.st.trace, s);
      assert after.st.trace.copies[t.serial] <= MAX_RETRANSMIT + 1;
      forall j | 0 <= j < |after.st.list| && j != i ensures OnSchedule(after.st.trace, after.st.list[j]) {
        assert OnSchedule(w.st.trace, w.st.list[j]);
      }
    }
  }

  lemma {:induction false} StepTimed(w: World, i: nat, now: int)
    requires Lifecycle(w) && Timed(w, {}) && i <= |w.st.list|
    ensures Timed(w.(st := StepFrom(w.st, i, now)), {})
    decreases |w.st.list| - i
  {
    hide OnceOnly, Timed;
    if i < |w.st.list| {
      if w.st.list[i].retransTime > now {
        StepTimed(w, i + 1, now);
      } else {
        TransmitKeeps(w, i, now);
        TransmitTimed(w, i, now, {});
        var (after, removed) := Transmit(w.st, i, now);
        StepTimed(w.(st := after), if removed then i else i + 1, now);
      }
    }
  }

  /** A response may move a deadline, but marks the transaction when it does. */
  lemma {:induction false} TouchTimed(w: World, i: nat, t: Tx)
    requires i < |w.st.list| && WellListed(w) && Timed(w, {})
    requires t.serial == w.st.list[i].serial && t.retransCounter == w.st.list[i].retransCounter
    ensures Timed(w.(st := Touch(w.st, i, t)), {})
  {
    var after := Touch(w.st, i, t);
    assert OnSchedule(w.st.trace, w.st.list[i]);
    forall j | 0 <= j < |after.list| ensures OnSchedule(after.trace, after.list[j]) {
      assert OnSchedule(w.st.trace, w.st.list[j]);
    }
    assert forall s: nat :: Unsent(w.st.trace, s) && s != t.serial ==> Unsent(after.trace, s);
  }

  lemma {:induction false} RespondTimed(w: World, i: nat, peer: nat, m: Message, clock: int)
    requires Lifecycle(w) && Timed(w, {}) && i <= |w.st.list|
    ensures Timed(w.(st := RespondFrom(w.st, i, peer, m, clock).0), {})
    decreases |w.st.list| - i
  {
    hide OnceOnly, Settled;
    if i < |w.st.list| {
      RespondTimed(w, i + 1, peer, m, clock);
      var t := w.st.list[i];
      var acked := if Answers(t, m) then t.(ackReceived := true) else t;
      var touched := w.(st := Touch(w.st, i, acked));
      TouchTimed(w, i, acked);
      SameLifeKeeps(w, touched);
      assert Timed(touched, {t.serial});
      FinishTimed(touched, i);
      TouchTimed(w, i, t.(ackReceived := false, retransTime := t.retransTime + RESPONSE_TIMEOUT));
      TouchTimed(w, i, acked.(retransTime := AckDeadline(t, m, clock)));
      hide Timed, Finish, Touch;
    }
  }

  lemma {:induction false} AddTimed(w: World, t: Tx, longer: seq<Tx>, at: nat, nextData: nat)
    requires Timed(w, {}) && t.serial == w.nextSerial && at <= |w.st.list|
    requires longer == w.st.list[..at] + [t] + w.st.list[at..]
    ensures Timed(World(w.st.(list := longer), w.nextSerial + 1, nextData), {t.serial})
  {
    forall j | 0 <= j < |longer| && j != at ensures OnSchedule(w.st.trace, longer[j]) {
      assert longer[j] == w.st.list[if j < at then j else j - 1];
    }
    hide OnSchedule;
  }

  lemma {:induction false} AddAndSendTimed(w: World, t: Tx, clock: int, nextData: nat)
    requires Lifecycle(w) && Timed(w, {}) && !MidInUse(w.st.list, t.mid) && t.serial == w.nextSerial && t.callback
    requires t.retransCounter == 0 && !t.ackReceived
    requires t.userData.Some? ==> t.userData.value < nextData
    requires if nextData == w.nextData then t.userData.Some? ==> Referenced(w.st.list, t.userData.value)
             else nextData == w.nextData + 1 && t.userData == Some(w.nextData)
    ensures Timed(World(AddAndSend(w.st, t, clock), w.nextSerial + 1, nextData), {})
  {
    AddKeeps(w, t, nextData);
    var at := InsertAt(w.st.list, t);
    InsertSame(w.st.list, t);
    var added := World(w.st.(list := Insert(w.st.list, t)), w.nextSerial + 1, nextData);
    AddTimed(w, t, added.st.list, at, nextData);
    assert Unsent(w.st.trace, t.serial);
    hide Timed, OnceOnly, Insert, InsertAfterHead, Unsent;
    var i := FindMid(added.st.list, t.mid);
    assert added.st.list[at] == t && i < |added.st.list|;
    assert i == at by {
      assert added.st.list[i].mid == added.st.list[at].mid;
    }
    TransmitTimed(added, i, clock, {t.serial});
  }

  lemma {:induction false} ApplyTimed(w: World, e: Event)
    requires Lifecycle(w) && Timed(w, {})
    ensures Timed(Apply(w, e), {})
  {
    match e
    case Start(mid, peer, code, token, withData, clock) =>
      hide Timed, OnceOnly;
      if !MidInUse(w.st.list, mid) {
        AddAndSendTimed(w, Tx(w.nextSerial, mid, peer, code, token, false, 0, 0, true, if withData then Some(w.nextData) else None),
                        clock, if withData then w.nextData + 1 else w.nextData);
      }
    case CloneBlock(of, mid, clock) =>
      hide Timed, OnceOnly;
      var i := FindMid(w.st.list, of);
      if i < |w.st.list| && !MidInUse(w.st.list, mid) {
        AddAndSendTimed(w, w.st.list[i].(serial := w.nextSerial, mid := mid, ackReceived := false, retransTime := 0,
                                         retransCounter := 0), clock, w.nextData);
      }
    case Respond(peer, m, clock) => RespondTimed(w, 0, peer, m, clock);
    case Step(now) => StepTimed(w, 0, now);
    case RemovePeer(peer) =>
      var rest := WithoutPeer(w.st.list, peer);
      forall j | 0 <= j < |rest| ensures OnSchedule(w.st.trace, rest[j]) {
        WithoutPeerMembers(w.st.list, peer, rest[j]);
        assert rest[j] in w.st.list;
      }
  }

  lemma {:induction false} AfterTimed(events: seq<Event>)
    ensures Timed(After(events), {})
  {
    if events != [] {
      AfterTimed(events[..|events| - 1]);
      ApplyTimed(After(events[..|events| - 1]), events[|events| - 1]);
    }
  }

  lemma {:induction false} BackoffMonotone(k: nat, n: nat)
    requires k <= n
    ensures Backoff(k) <= Backoff(n)
    decreases n - k
  {
    if k < n {
      BackoffMonotone(k + 1, n);
    }
  }

  /** Over every run no transaction is sent more than COAP_MAX_RETRANSMIT + 1 times, and the deadline of one
      that no response has touched is t0 + 2 * (2^k - 1) after k copies, which is never later than
      COAP_MAX_TRANSMIT_WAIT. */
  lemma {:induction false} ScheduleOverRuns(events: seq<Event>, s: nat)
    ensures var st := After(events).st; st.trace.copies[s] <= MAX_RETRANSMIT + 1
    ensures var st := After(events).st;
            forall i :: 0 <= i < |st.list| && st.list[i].serial == s && s !in st.trace.touched ==>
              && 1 <= st.trace.copies[s] && s in st.trace.firstSent
              && st.list[i].retransTime == st.trace.firstSent[s] + Backoff(st.trace.copies[s])
              && st.list[i].retransTime < st.trace.firstSent[s] + MAX_TRANSMIT_WAIT
  {
    AfterTimed(events);
    var st := After(events).st;
    hide After;
    forall i | 0 <= i < |st.list| && st.list[i].serial == s ensures OnSchedule(st.trace, st.list[i]) && Backoff(st.trace.copies[s]) <= 62 {
      assert OnSchedule(st.trace, st.list[i]);
      BackoffMonotone(st.trace.copies[s], 5);
      BackoffOfFive();
    }
  }

  lemma {:induction false} BackoffOfFive()
    ensures Backoff(5) == 62
  {
    assert Pow2(2) == 4 && Pow2(4) == 16;
  }

  // ----- what a step does to a transaction that is due ----------------------------------------

  lemma {:induction false} StepListed(w: World, i: nat, now: int, s: nat)
    requires Lifecycle(w) && i <= |w.st.list| && !Listed(w.st.list, s)
    ensures !Listed(StepFrom(w.st, i, now).list, s) && StepFrom(w.st, i, now).trace.copies[s] == w.st.trace.copies[s]
    decreases |w.st.list| - i
  {
    hide OnceOnly;
    if i < |w.st.list| {
      if w.st.list[i].retransTime > now {
        StepListed(w, i + 1, now, s);
      } else {
        TransmitKeeps(w, i, now);
        var (after, removed) := Transmit(w.st, i, now);
        if removed {
          RemainingListed(w.st.list, i, after.list, s);
          hide Listed, Finish;
          StepListed(w.(st := after), i, now, s);
        } else {
          assert forall j :: 0 <= j < |after.list| ==> after.list[j].serial == w.st.list[j].serial;
          StepListed(w.(st := after), i + 1, now, s);
        }
      }
    }
  }

  /** A step that has passed position `i` leaves what came before alone. */
  lemma {:induction false} StepFrame(w: World, i: nat, now: int, j: nat)
    requires Lifecycle(w) && j < i <= |w.st.list|
    ensures var after := StepFrom(w.st, i, now);
            && j < |after.list| && after.list[j] == w.st.list[j]
            && after.trace.copies[w.st.list[j].serial] == w.st.trace.copies[w.st.list[j].serial]
    decreases |w.st.list| - i
  {
    hide OnceOnly;
    if i < |w.st.list| {
      if w.st.list[i].retransTime > now {
        StepFrame(w, i + 1, now, j);
      } else {
        TransmitKeeps(w, i, now);
        var (after, removed) := Transmit(w.st, i, now);
        StepFrame(w.(st := after), if removed then i else i + 1, now, j);
      }
    }
  }

  /** What a step at `now` is to do to transaction `t`: nothing before its deadline, then one more copy, and
      the end after COAP_MAX_RETRANSMIT + 1 copies. */
  predicate Served(before: State, t: Tx, now: int, after: State) {
    && (t.retransTime > now ==> t in after.list && after.trace.copies[t.serial] == before.trace.copies[t.serial])
    && (t.retransTime <= now && t.serial !in before.trace.touched ==>
          if before.trace.copies[t.serial] <= MAX_RETRANSMIT
          then Listed(after.list, t.serial) && after.trace.copies[t.serial] == before.trace.copies[t.serial] + 1
          else !Listed(after.list, t.serial) && after.trace.copies[t.serial] == before.trace.copies[t.serial])
  }

  lemma {:induction false} ServeNow(w: World, i: nat, now: int)
    requires Lifecycle(w) && Timed(w, {}) && i < |w.st.list|
    ensures Served(w.st, w.st.list[i], now, StepFrom(w.st, i, now))
  {
    var t := w.st.list[i];
    assert OnSchedule(w.st.trace, t);
    hide Timed, OnceOnly, Finish;
    if t.retransTime > now {
      StepFrame(w, i + 1, now, i);
    } else if t.serial !in w.st.trace.touched {
      TransmitKeeps(w, i, now);
      var (after, removed) := Transmit(w.st, i, now);
      if removed {
        RemainingListed(w.st.list, i, after.list, t.serial);
        assert after.trace.copies == w.st.trace.copies by { FinishCopies(w.st, i); }
        StepListed(w.(st := after), i, now, t.serial);
      } else {
        StepFrame(w.(st := after), i + 1, now, i);
      }
    }
  }

  lemma {:induction false} FinishCopies(st: State, i: nat)
    requires Sorted(st.list) && i < |st.list|
    ensures Finish(st, i).trace.copies == st.trace.copies && Finish(st, i).trace.touched == st.trace.touched
  {
  }

  /** The position of the `i`-th transaction after the one at `k` was served, and that nothing else changed for it. */
  lemma {:induction false} OthersAlone(w: World, k: nat, i: nat, now: int)
    requires Lifecycle(w) && k < i < |w.st.list|
    ensures var (after, removed) := Transmit(w.st, k, now); var t := w.st.list[i];
            && |after.list| == (if removed then |w.st.list| - 1 else |w.st.list|)
            && after.list[if removed then i - 1 else i] == t
            && after.trace.copies[t.serial] == w.st.trace.copies[t.serial]
            && after.trace.touched == w.st.trace.touched
  {
    FinishCopies(w.st, k);
    FinishCopies(SendCopy(w.st, w.st.list[k].serial, now), k);
    hide OnceOnly, Finish;
  }

  /** Every transaction that a step still has to look at is served. */
  lemma {:induction false} StepOnSchedule(w: World, k: nat, i: nat, now: int)
    requires Lifecycle(w) && Timed(w, {}) && k <= i < |w.st.list|
    ensures Served(w.st, w.st.list[i], now, StepFrom(w.st, k, now))
    decreases |w.st.list| - k
  {
    if k == i {
      ServeNow(w, i, now);
    } else if w.st.list[k].retransTime > now {
      StepOnSchedule(w, k + 1, i, now);
    } else {
      TransmitKeeps(w, k, now);
      TransmitTimed(w, k, now, {});
      OthersAlone(w, k, i, now);
      var (after, removed) := Transmit(w.st, k, now);
      hide Lifecycle, Timed, Transmit;
      StepOnSchedule(w.(st := after), if removed then k else k + 1, if removed then i - 1 else i, now);
    }
  }
}
