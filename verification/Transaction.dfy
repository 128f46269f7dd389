/** Reliable transactions (coap/transaction.c; sections 4.2 and 4.8 of RFC 7252). */
module Transaction {
  import opened Bytes
  import opened Coap

  const RESPONSE_TIMEOUT: nat := 2
  const MAX_RETRANSMIT: nat := 4
  const SEPARATE_TIMEOUT: nat := 15
  const CODE_DELETE: uint8 := 4
  const CODE_UNAUTHORIZED: uint8 := 0x81

  datatype MessageType = CON | NON | ACK | RST

  /** `lwm2m_transaction_t` with the header of the message it sends. `serial` tells transactions apart
      over a whole run; an absent token is empty. */
  datatype Tx = Tx(serial: nat, mid: uint16, peer: nat, code: uint8, token: seq<byte>, ackReceived: bool,
                   retransTime: int, retransCounter: nat, callback: bool, userData: Option<nat>)

  datatype Message = Message(msgType: MessageType, code: uint8, mid: uint16, token: seq<byte>)

  /** What a run has done so far: copies put on the wire, callbacks run and user data freed, when each
      transaction was first sent, and which ones a response has changed the timing of. */
  datatype Trace = Trace(copies: multiset<nat>, callbacks: multiset<nat>, freed: multiset<nat>,
                         firstSent: map<nat, int>, touched: set<nat>)

  datatype State = State(list: seq<Tx>, trace: Trace)

  // ----- the list, ordered by message ID ------------------------------------------------------

  predicate Sorted(list: seq<Tx>) {
    forall i, j :: 0 <= i < j < |list| ==> list[i].mid < list[j].mid
  }

  /** `lwm2m_list_add` */
  function Insert(list: seq<Tx>, t: Tx): seq<Tx>
  {
    if list == [] || list[0].mid > t.mid then [t] + list else [list[0]] + InsertAfterHead(list[1..], t)
  }

  function InsertAfterHead(list: seq<Tx>, t: Tx): seq<Tx>
  {
    if list == [] || list[0].mid >= t.mid then [t] + list else [list[0]] + InsertAfterHead(list[1..], t)
  }

  /** `lwm2m_list_remove`, which stops at the first larger ID. */
  function RemoveMid(list: seq<Tx>, mid: uint16): seq<Tx>
  {
    if list == [] then []
    else if list[0].mid == mid then list[1..]
    else [list[0]] + RemoveAfterHead(list[1..], mid)
  }

  function RemoveAfterHead(list: seq<Tx>, mid: uint16): seq<Tx>
  {
    if list == [] then []
    else if list[0].mid < mid then [list[0]] + RemoveAfterHead(list[1..], mid)
    else if list[0].mid == mid then list[1..]
    else list
  }

  /** On a list with distinct IDs, removal by ID removes the transaction that was meant. */
  lemma {:induction false} RemoveMidAt(list: seq<Tx>, i: nat)
    requires Sorted(list) && i < |list|
    ensures RemoveMid(list, list[i].mid) == list[..i] + list[i + 1..]
  {
    if i > 0 {
      RemoveAfterHeadAt(list[1..], i - 1);
      assert list[..i] + list[i + 1..] == [list[0]] + (list[1..][..i - 1] + list[1..][i..]);
    }
  }

  lemma {:induction false} RemoveAfterHeadAt(list: seq<Tx>, i: nat)
    requires Sorted(list) && i < |list|
    ensures RemoveAfterHead(list, list[i].mid) == list[..i] + list[i + 1..]
  {
    if i > 0 {
      RemoveAfterHeadAt(list[1..], i - 1);
      assert list[..i] + list[i + 1..] == [list[0]] + (list[1..][..i - 1] + list[1..][i..]);
    }
  }

  // ----- finishing a transaction --------------------------------------------------------------

  /** Does another listed transaction use the same user data? */
  predicate Shared(list: seq<Tx>, i: nat)
    requires i < |list|
  {
    exists j :: 0 <= j < |list| && j != i && list[j].userData == list[i].userData
  }

  /** A callback that, as those of the library do, ends with `transaction_free_userData`. */
  function RunCallback(st: State, i: nat): State
    requires i < |st.list|
  {
    var t := st.list[i];
    var called := st.trace.(callbacks := st.trace.callbacks + multiset{t.serial});
    if t.userData.Some? && !Shared(st.list, i)
    then st.(trace := called.(freed := called.freed + multiset{t.userData.value}))
    else st.(trace := called)
  }

  /** The callback if there is one, then `transaction_remove`. */
  function Finish(st: State, i: nat): (r: State)
    requires Sorted(st.list) && i < |st.list|
    ensures r.list == st.list[..i] + st.list[i + 1..]
  {
    RemoveMidAt(st.list, i);
    var called := if st.list[i].callback then RunCallback(st, i) else st;
    called.(list := RemoveMid(st.list, st.list[i].mid))
  }

  // ----- sending ------------------------------------------------------------------------------

  function SendCopy(st: State, serial: nat, clock: int): State
  {
    st.(trace := st.trace.(
      copies := st.trace.copies + multiset{serial},
      firstSent := if serial in st.trace.firstSent then st.trace.firstSent else st.trace.firstSent[serial := clock]))
  }

  /** `transaction_send`; true when the transaction was removed. The clock only matters for the first
      copy: later deadlines build on the previous deadline. */
  function Transmit(st: State, i: nat, clock: int): (State, bool)
    requires Sorted(st.list) && i < |st.list|
  {
    var t := st.list[i];
    if t.ackReceived then (Finish(st, i), true)
    else if t.retransCounter == 0 then
      if clock >= 0 then
        var sent := t.(retransTime := clock + RESPONSE_TIMEOUT, retransCounter := 2);
        (SendCopy(st.(list := st.list[i := sent]), t.serial, clock), false)
      else (Finish(SendCopy(st, t.serial, clock), i), true)
    else if t.retransCounter <= MAX_RETRANSMIT + 1 then
      var sent := t.(retransTime := t.retransTime + RESPONSE_TIMEOUT * Pow2(t.retransCounter - 1),
                     retransCounter := t.retransCounter + 1);
      (SendCopy(st.(list := st.list[i := sent]), t.serial, clock), false)
    else (Finish(st, i), true)
  }

  /** `transaction_step` from position `i` on. */
  function StepFrom(st: State, i: nat, now: int): State
    requires Sorted(st.list) && i <= |st.list|
    decreases |st.list| - i
  {
    if i == |st.list| then st
    else if st.list[i].retransTime > now then StepFrom(st, i + 1, now)
    else
      var (after, removed) := Transmit(st, i, now);
      if removed then StepFrom(after, i, now) else StepFrom(after, i + 1, now)
  }

  // ----- responses ----------------------------------------------------------------------------

  /** `prv_checkFinished` */
  predicate CheckFinished(t: Tx, m: Message) {
    if t.mid == m.mid && (CODE_DELETE < t.code || t.token == []) then t.ackReceived
    else t.code <= CODE_DELETE && t.token != [] && t.token == m.token
  }

  /** Is this the acknowledgement or reset the transaction is waiting for? */
  predicate Answers(t: Tx, m: Message) {
    !t.ackReceived && (m.msgType.ACK? || m.msgType.RST?) && t.mid == m.mid
  }

  /** The new deadline once an acknowledgement was found that does not finish the transaction. */
  function AckDeadline(t: Tx, m: Message, clock: int): int
  {
    (if clock >= 0 then clock else t.retransTime)
      + (if m.code == 0 then SEPARATE_TIMEOUT else RESPONSE_TIMEOUT * t.retransCounter)
  }

  function Touch(st: State, i: nat, t: Tx): State
    requires i < |st.list|
  {
    st.(list := st.list[i := t], trace := st.trace.(touched := st.trace.touched + {t.serial}))
  }

  /** `transaction_handleResponse` from position `i` on: the state and whether the message was used. */
  function RespondFrom(st: State, i: nat, peer: nat, m: Message, clock: int): (State, bool)
    requires Sorted(st.list) && i <= |st.list|
    decreases |st.list| - i
  {
    if i == |st.list| then (st, false)
    else
      var t := st.list[i];
      if t.peer != peer then RespondFrom(st, i + 1, peer, m, clock)
      else
        var found := Answers(t, m);
        var acked := if found then t.(ackReceived := true) else t;
        var reset := found && m.msgType.RST?;
        if reset || CheckFinished(acked, m) then
          if !reset && m.code == CODE_UNAUTHORIZED && t.retransCounter < MAX_RETRANSMIT
          then (Touch(st, i, t.(ackReceived := false, retransTime := t.retransTime + RESPONSE_TIMEOUT)), true)
          else (Finish(Touch(st, i, acked), i), true)
        else if found then (Touch(st, i, acked.(retransTime := AckDeadline(t, m, clock))), true)
        else RespondFrom(st, i + 1, peer, m, clock)
  }

  // ----- which response ends which transaction ------------------------------------------------

  /** A transaction of another peer, or one of which the message bears neither the ID nor, if it is a request, the
      token. */
  predicate Unconcerned(t: Tx, peer: nat, m: Message) {
    t.peer != peer || (t.mid != m.mid && (t.code > 4 || t.token == [] || t.token != m.token))
  }

  predicate OthersUnconcerned(list: seq<Tx>, k: nat, peer: nat, m: Message) {
    forall j :: 0 <= j < |list| && j != k ==> Unconcerned(list[j], peer, m)
  }

  lemma {:induction false} SkipsUnconcerned(st: State, i: nat, k: nat, peer: nat, m: Message, clock: int)
    requires Sorted(st.list) && i <= k <= |st.list|
    requires forall j :: i <= j < k ==> Unconcerned(st.list[j], peer, m)
    ensures RespondFrom(st, i, peer, m, clock) == RespondFrom(st, k, peer, m, clock)
    decreases k - i
  {
    if i < k {
      assert Unconcerned(st.list[i], peer, m);
      SkipsUnconcerned(st, i + 1, k, peer, m, clock);
    }
  }

  /** The message is the acknowledgement or reset the transaction waits for. */
  predicate Acknowledges(t: Tx, m: Message) {
    !t.ackReceived && t.mid == m.mid && (m.msgType.ACK? || m.msgType.RST?)
  }

  /** The message ends the transaction: it bears the token of the request; or nothing but an acknowledgement was
      awaited, and that is there; or it is a reset. */
  predicate Ends(t: Tx, m: Message) {
    || (t.code <= 4 && t.token != [] && t.token == m.token)
    || (t.mid == m.mid && (t.token == [] || t.code > 4) && (t.ackReceived || Acknowledges(t, m)))
    || (Acknowledges(t, m) && m.msgType.RST?)
  }

  /** A request that was denied for authentication (4.01) is kept and sent again, unless it was reset. */
  predicate Repeats(t: Tx, m: Message) {
    m.code == 0x81 && t.retransCounter < 4 && !(Acknowledges(t, m) && m.msgType.RST?)
  }

  /** What a message does that concerns one transaction at most. */
  lemma {:induction false} ResponseTable(st: State, k: nat, peer: nat, m: Message, clock: int)
    requires Sorted(st.list) && k < |st.list| && st.list[k].peer == peer && OthersUnconcerned(st.list, k, peer, m)
    ensures var (t, r) := (st.list[k], RespondFrom(st, 0, peer, m, clock));
            var (list, trace) := (r.0.list, r.0.trace);
            if Ends(t, m) && !Repeats(t, m) then
              && r.1 && list == st.list[..k] + st.list[k + 1..]
              && trace.callbacks == st.trace.callbacks + (if t.callback then multiset{t.serial} else multiset{})
              && trace.copies == st.trace.copies
            else if Ends(t, m) then
              && r.1 && list == st.list[k := t.(ackReceived := false, retransTime := t.retransTime + 2)]
              && trace.callbacks == st.trace.callbacks && trace.copies == st.trace.copies && trace.freed == st.trace.freed
            else if Acknowledges(t, m) then
              && r.1
              && list == st.list[k := t.(ackReceived := true, retransTime :=
                   (if clock >= 0 then clock else t.retransTime) + (if m.code == 0 then 15 else 2 * t.retransCounter))]
              && trace.callbacks == st.trace.callbacks && trace.copies == st.trace.copies && trace.freed == st.trace.freed
            else r == (st, false)
  {
    SkipsUnconcerned(st, 0, k, peer, m, clock);
    SkipsUnconcerned(st, k + 1, |st.list|, peer, m, clock);
  }

  /** A message that bears the token of a listed request, and of no other one, ends exactly this request, whatever its
      type and ID, if it is no denial to be repeated. */
  lemma {:induction false} TokenEndsRequest(st: State, k: nat, peer: nat, m: Message, clock: int)
    requires Sorted(st.list) && k < |st.list| && OthersUnconcerned(st.list, k, peer, m)
    requires var t := st.list[k]; t.peer == peer && t.code <= 4 && t.token != [] && t.token == m.token
    requires m.code != 0x81 || st.list[k].retransCounter >= 4
    ensures var (after, used) := RespondFrom(st, 0, peer, m, clock);
            && used && after.list == st.list[..k] + st.list[k + 1..]
            && after.trace.callbacks == st.trace.callbacks + (if st.list[k].callback then multiset{st.list[k].serial} else multiset{})
  {
    ResponseTable(st, k, peer, m, clock);
  }

  /** A message that concerns nothing listed is not used. */
  lemma {:induction false} UnrelatedIsIgnored(st: State, peer: nat, m: Message, clock: int)
    requires Sorted(st.list) && forall j :: 0 <= j < |st.list| ==> Unconcerned(st.list[j], peer, m)
    ensures RespondFrom(st, 0, peer, m, clock) == (st, false)
  {
    SkipsUnconcerned(st, 0, |st.list|, peer, m, clock);
  }

  // ----- the transaction list of the context, updated in place --------------------------------

  class TransactionList {
    var list: seq<Tx>
    var trace: Trace

    function St(): State
      reads this
    {
      State(list, trace)
    }

    constructor ()
      ensures St() == State([], Trace(multiset{}, multiset{}, multiset{}, map[], {}))
    {
      list := [];
      trace := Trace(multiset{}, multiset{}, multiset{}, map[], {});
    }

    /** `transaction_free_userData` for the transaction at position `i`. */
    method FreeUserData(i: nat) returns (freed: bool)
      requires i < |list|
      modifies this`trace
      ensures freed == !Shared(list, i)
      ensures trace == if freed && list[i].userData.Some?
                       then old(trace).(freed := old(trace).freed + multiset{list[i].userData.value})
                       else old(trace)
    {
      var target := 0;
      while target < |list|
        invariant 0 <= target <= |list|
        invariant forall j :: 0 <= j < target && j != i ==> list[j].userData != list[i].userData
      {
        if list[target].userData == list[i].userData && target != i { return false; }
        target := target + 1;
      }
      if list[i].userData.Some? {
        trace := trace.(freed := trace.freed + multiset{list[i].userData.value});
      }
      return true;
    }

    /** Callback and `transaction_remove`. */
    method End(i: nat)
      requires Sorted(list) && i < |list|
      modifies this
      ensures St() == Finish(old(St()), i)
    {
      RemoveMidAt(list, i);
      if list[i].callback {
        trace := trace.(callbacks := trace.callbacks + multiset{list[i].serial});
        var _ := FreeUserData(i);
      }
      list := list[..i] + list[i + 1..];
    }

    /** `transaction_send` */
    method Send(i: nat, clock: int) returns (removed: bool)
      requires Sorted(list) && i < |list|
      modifies this
      ensures (St(), removed) == Transmit(old(St()), i, clock)
    {
      var maxRetriesReached := false;
      var t := list[i];
      if t.ackReceived {
        End(i);
        return true;
      }
      var timeout := 0;
      var sent := t;
      if t.retransCounter == 0 {
        if clock >= 0 {
          sent := sent.(retransTime := clock + RESPONSE_TIMEOUT, retransCounter := 1);
        } else {
          maxRetriesReached := true;
        }
      } else {
        timeout := RESPONSE_TIMEOUT * Pow2(t.retransCounter - 1);
      }
      if sent.retransCounter <= MAX_RETRANSMIT + 1 {
        trace := SendCopy(State(list, trace), t.serial, clock).trace;
        if !maxRetriesReached {
          list := list[i := sent.(retransTime := sent.retransTime + timeout, retransCounter := sent.retransCounter + 1)];
        }
      } else {
        maxRetriesReached := true;
      }
      if maxRetriesReached {
        End(i);
      }
      return maxRetriesReached;
    }

    /** `transaction_step` */
    method Step(now: int)
      requires Sorted(list)
      modifies this
      ensures St() == StepFrom(old(St()), 0, now)
    {
      var i := 0;
      while i < |list|
        invariant 0 <= i <= |list| && Sorted(list)
        invariant StepFrom(St(), i, now) == StepFrom(old(St()), 0, now)
        decreases |list| - i
      {
        if list[i].retransTime <= now {
          var removed := Send(i, now);
          if !removed {
            i := i + 1;
          }
        } else {
          i := i + 1;
        }
      }
    }

    /** `transaction_handleResponse` */
    method HandleResponse(peer: nat, m: Message, clock: int) returns (used: bool)
      requires Sorted(list)
      modifies this
      ensures (St(), used) == RespondFrom(old(St()), 0, peer, m, clock)
    {
      var i := 0;
      while i < |list|
        invariant 0 <= i <= |list| && unchanged(this)
        invariant RespondFrom(St(), i, peer, m, clock) == RespondFrom(old(St()), 0, peer, m, clock)
      {
        var t := list[i];
        if t.peer == peer {
          var found := Answers(t, m);
          var acked := if found then t.(ackReceived := true) else t;
          var reset := found && m.msgType.RST?;
          if reset || CheckFinished(acked, m) {
            trace := trace.(touched := trace.touched + {t.serial});
            if !reset && m.code == CODE_UNAUTHORIZED && t.retransCounter < MAX_RETRANSMIT {
              list := list[i := t.(ackReceived := false, retransTime := t.retransTime + RESPONSE_TIMEOUT)];
              return true;
            }
            list := list[i := acked];
            End(i);
            return true;
          }
          if found {
            trace := trace.(touched := trace.touched + {t.serial});
            list := list[i := acked.(retransTime := AckDeadline(t, m, clock))];
            return true;
          }
        }
        i := i + 1;
      }
      return false;
    }
  }
}
