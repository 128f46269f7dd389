/** A Block1 transfer end to end: the sender of core/packet.c:348-392 and 766-786, the receiver of
    coap/block.c:187-275 with the answers of core/packet.c:577-684, and between them channels that
    lose and repeat messages but keep their order (section 2 of RFC 7959). */
module BlockTransfer {
  import opened Bytes
  import opened Block
  import opened Block1Sender

  /** The transfer: its payload and block size, the URI, the message ID of each block, and the
      receiver's own block size. */
  datatype Config = Config(payload: seq<byte>, size: nat, uri: seq<byte>, mids: seq<uint16>, receiverSize: nat)

  predicate ValidConfig(c: Config) {
    && 0 < c.size <= c.receiverSize
    && 0 < |c.payload| <= MAX_MESSAGE_SIZE
    && |c.mids| > |c.payload|
    && forall i, j :: 0 <= i < j < |c.mids| ==> c.mids[i] != c.mids[j]
  }

  /** An acknowledgement: the message ID it answers, its Block1 option, and whether its code is 2.xx. */
  datatype Ack = Ack(mid: uint16, num: nat, size: nat, success: bool)

  /** `current` is the block the sender has in flight, `accepted` how many blocks of this transfer
      the receiver has stored; `outputs` collects what the receiver completed, `refused` whether it
      ever answered 4.08 or 4.13. */
  datatype State = State(current: nat, active: bool, forward: seq<Request>, backward: seq<Ack>,
                         store: seq<BlockData>, accepted: nat, outputs: seq<seq<byte>>, refused: bool)

  /** Everything that can happen next. `Other` is a block of any other transfer reaching the same list. */
  datatype Step =
    | Retransmit | LoseRequest(i: nat) | RepeatRequest(i: nat) | Deliver(applicationAgrees: bool)
    | LoseAck(i: nat) | RepeatAck(i: nat) | Acknowledge | GiveUp | Other(block: Incoming)

  /** Block `n` of the transfer, as the sender sends it. */
  function BlockAt(c: Config, n: nat): Option<Request>
    requires n < |c.mids|
  {
    NewBlock1(c.payload, n, c.size, c.mids[n])
  }

  function Lose<T>(s: seq<T>, i: nat): seq<T>
  {
    if i < |s| then s[..i] + s[i + 1..] else s
  }

  function Repeat<T>(s: seq<T>, i: nat): seq<T>
  {
    if i < |s| then s[..i + 1] + s[i..] else s
  }

  /** The receiver takes the next request: reassembly, then the answer. A repeated block is answered
      like the first time; a completed payload is answered as the application decides. */
  function Receive(c: Config, s: State, applicationAgrees: bool): State
    requires s.forward != []
  {
    var r := s.forward[0];
    var handled := Handle(s.store, Incoming(Uri(c.uri), r.payload, r.size, r.num, r.more));
    var success := match handled.status
                   case Continue => true
                   case Retransmission => true
                   case Complete => applicationAgrees
                   case _ => false;
    s.(forward := s.forward[1..],
       backward := s.backward + [Ack(r.mid, r.num, Min(r.size, c.receiverSize), success)],
       store := handled.blocks,
       accepted := if r.num == s.accepted then s.accepted + 1 else s.accepted,
       outputs := if handled.status == Complete then s.outputs + [handled.output] else s.outputs,
       refused := s.refused || handled.status == Incomplete || handled.status == TooLarge)
  }

  /** The sender takes the next acknowledgement. One that answers no transaction is dropped; one that
      does ends the transaction, and a 2.xx code starts the next block. */
  function HandleAck(c: Config, s: State): State
    requires s.backward != []
  {
    var a := s.backward[0];
    var rest := s.(backward := s.backward[1..]);
    if !s.active || s.current + 1 >= |c.mids| || a.mid != c.mids[s.current] || BlockAt(c, s.current) == None || c.size == 0 then rest
    else if !a.success then rest.(active := false)
    else
      match NextBlock1(c.payload, BlockAt(c, s.current).value, a.size, c.mids[s.current + 1])
      case None => rest.(active := false)
      case Some(next) => rest.(current := next.num, forward := s.forward + [next])
  }

  function Next(c: Config, s: State, step: Step): State
  {
    match step
    case Retransmit =>
      if s.active && s.current < |c.mids| && BlockAt(c, s.current).Some?
      then s.(forward := s.forward + [BlockAt(c, s.current).value]) else s
    case LoseRequest(i) => s.(forward := Lose(s.forward, i))
    case RepeatRequest(i) => s.(forward := Repeat(s.forward, i))
    case Deliver(agrees) => if s.forward == [] then s else Receive(c, s, agrees)
    case LoseAck(i) => s.(backward := Lose(s.backward, i))
    case RepeatAck(i) => s.(backward := Repeat(s.backward, i))
    case Acknowledge => if s.backward == [] then s else HandleAck(c, s)
    case GiveUp => s.(active := false)
    case Other(b) => if b.identifier == Uri(c.uri) then s else s.(store := Handle(s.store, b).blocks)
  }

  /** The sender has just sent block 0; the receiver's list may hold anything, even a stale entry
      for the same URI. */
  function Initial(c: Config, store: seq<BlockData>): State
    requires ValidConfig(c)
  {
    State(0, true, [BlockAt(c, 0).value], [], store, 0, [], false)
  }

  function Run(c: Config, s: State, steps: seq<Step>): State
  {
    if steps == [] then s else Next(c, Run(c, s, steps[..|steps| - 1]), steps[|steps| - 1])
  }

  // ----- the invariant ------------------------------------------------------------------------

  /** Block `n` starts within the payload. */
  predicate InPayload(c: Config, n: nat) {
    Offset(n, c.size) < |c.payload|
  }

  /** What the receiver holds: the first `accepted` blocks. */
  function Prefix(c: Config, accepted: nat): seq<byte>
  {
    c.payload[..Min(|c.payload|, Offset(accepted, c.size))]
  }

  /** A request in the channel is a copy of the block in flight or of the last one stored. */
  predicate GoodRequest(c: Config, current: nat, accepted: nat, r: Request) {
    && r.num < |c.mids| && BlockAt(c, r.num) == Some(r)
    && accepted <= r.num + 1 && r.num <= current
  }

  /** Requests are good and their numbers never fall. */
  predicate GoodRequests(c: Config, current: nat, accepted: nat, forward: seq<Request>) {
    && (forall r :: r in forward ==> GoodRequest(c, current, accepted, r))
    && forall i, j :: 0 <= i < j < |forward| ==> forward[i].num <= forward[j].num
  }

  /** An acknowledgement answers a block that is stored. */
  predicate GoodAck(c: Config, accepted: nat, a: Ack) {
    a.num < |c.mids| && a.mid == c.mids[a.num] && a.num < accepted && a.size == c.size
  }

  predicate GoodAcks(c: Config, accepted: nat, backward: seq<Ack>) {
    forall a :: a in backward ==> GoodAck(c, accepted, a)
  }

  predicate GoodStore(c: Config, accepted: nat, store: seq<BlockData>) {
    && Distinct(store)
    && (accepted > 0 ==> Lookup(store, Uri(c.uri)) == Some(BlockData(Uri(c.uri), Prefix(c, accepted), accepted - 1)))
  }

  predicate Invariant(c: Config, s: State) {
    && InPayload(c, s.current) && s.current <= s.accepted <= s.current + 1
    && GoodRequests(c, s.current, s.accepted, s.forward)
    && GoodAcks(c, s.accepted, s.backward)
    && GoodStore(c, s.accepted, s.store)
    && (forall o :: o in s.outputs ==> o == c.payload)
    && !s.refused
  }

  // ----- block arithmetic ---------------------------------------------------------------------

  lemma {:induction false} BlockNumbers(c: Config, n: nat)
    requires ValidConfig(c) && InPayload(c, n)
    ensures n < |c.payload| && n + 1 < |c.mids|
    ensures BlockAt(c, n).Some? && BlockAt(c, n).value.num == n && BlockAt(c, n).value.size == c.size
    ensures BlockAt(c, n).value.mid == c.mids[n]
    ensures BlockAt(c, n).value.more <==> InPayload(c, n + 1)
  {
    OffsetSteps(n, c.size);
    hide Offset;
  }

  lemma {:induction false} BlockExtendsPrefix(c: Config, n: nat)
    requires ValidConfig(c) && InPayload(c, n) && n < |c.mids|
    ensures |Prefix(c, n)| == Offset(n, c.size) && Prefix(c, 0) == []
    ensures Prefix(c, n + 1) == Prefix(c, n) + BlockAt(c, n).value.payload
    ensures !InPayload(c, n + 1) ==> Prefix(c, n + 1) == c.payload
  {
    OffsetSteps(n, c.size);
    hide Offset;
    var offset := Offset(n, c.size);
    CutAt(c.payload, offset, Min(c.size, |c.payload| - offset));
  }

  lemma {:induction false} CutAt(payload: seq<byte>, offset: nat, length: nat)
    requires offset + length <= |payload|
    ensures payload[..offset + length] == payload[..offset] + payload[offset..offset + length]
  {
  }

  /** The number that follows block `n` is `n + 1`, at the same size. */
  lemma {:induction false} NextBlockFollows(c: Config, n: nat)
    requires ValidConfig(c) && InPayload(c, n) && n + 1 < |c.mids| && BlockAt(c, n).Some?
    requires BlockAt(c, n).value.num == n && BlockAt(c, n).value.size == c.size
    ensures NextBlock1(c.payload, BlockAt(c, n).value, c.size, c.mids[n + 1]) == BlockAt(c, n + 1)
    ensures BlockAt(c, n + 1).Some? <==> InPayload(c, n + 1)
  {
    hide Offset;
    assert c.size / c.size == 1;
  }

  // ----- each step keeps the invariant --------------------------------------------------------

  lemma {:induction false} InitialInvariant(c: Config, store: seq<BlockData>)
    requires ValidConfig(c) && Distinct(store)
    ensures Invariant(c, Initial(c, store))
  {
    OffsetSteps(0, c.size);
    BlockNumbers(c, 0);
  }

  lemma {:induction false} ChannelKeepsRequests(c: Config, current: nat, accepted: nat, forward: seq<Request>, i: nat)
    requires GoodRequests(c, current, accepted, forward)
    ensures GoodRequests(c, current, accepted, Lose(forward, i))
    ensures GoodRequests(c, current, accepted, Repeat(forward, i))
  {
    hide GoodRequest;
  }

  lemma {:induction false} ChannelKeepsAcks(c: Config, accepted: nat, backward: seq<Ack>, i: nat)
    requires GoodAcks(c, accepted, backward)
    ensures GoodAcks(c, accepted, Lose(backward, i))
    ensures GoodAcks(c, accepted, Repeat(backward, i))
  {
    hide GoodAck;
  }

  lemma {:induction false} ChannelSteps(c: Config, s: State, i: nat)
    requires Invariant(c, s)
    ensures Invariant(c, Next(c, s, LoseRequest(i))) && Invariant(c, Next(c, s, RepeatRequest(i)))
    ensures Invariant(c, Next(c, s, LoseAck(i))) && Invariant(c, Next(c, s, RepeatAck(i)))
  {
    hide Lose, Repeat, GoodRequests, GoodAcks, GoodStore, InPayload;
    ChannelKeepsRequests(c, s.current, s.accepted, s.forward, i);
    ChannelKeepsAcks(c, s.accepted, s.backward, i);
  }

  /** Sending the block in flight, again or for the first time. */
  lemma {:induction false} SendKeepsRequests(c: Config, current: nat, accepted: nat, forward: seq<Request>)
    requires ValidConfig(c) && InPayload(c, current) && accepted <= current + 1 && current < |c.mids|
    requires forall r :: r in forward ==> r.num <= current
    requires GoodRequests(c, current, accepted, forward)
    ensures BlockAt(c, current).Some?
    ensures GoodRequests(c, current, accepted, forward + [BlockAt(c, current).value])
  {
    BlockNumbers(c, current);
    hide BlockAt;
  }

  lemma {:induction false} RetransmitStep(c: Config, s: State)
    requires ValidConfig(c) && Invariant(c, s)
    ensures Invariant(c, Next(c, s, Retransmit))
  {
    BlockNumbers(c, s.current);
    SendKeepsRequests(c, s.current, s.accepted, s.forward);
    hide GoodRequests, GoodAcks, GoodStore, InPayload;
  }

  lemma {:induction false} OtherStep(c: Config, s: State, b: Incoming)
    requires ValidConfig(c) && Invariant(c, s)
    ensures Invariant(c, Next(c, s, Other(b)))
  {
    HandleFrame(s.store, b, Uri(c.uri));
    hide Handle, GoodRequests, GoodAcks, InPayload, Prefix;
  }

  lemma {:induction false} SentNumbers(c: Config, current: nat, accepted: nat, r: Request)
    requires ValidConfig(c) && InPayload(c, current) && GoodRequest(c, current, accepted, r) && current <= accepted
    ensures InPayload(c, r.num) && r.size == c.size && (r.num == accepted || r.num + 1 == accepted)
    ensures r.more <==> InPayload(c, r.num + 1)
    ensures |Prefix(c, r.num)| == Offset(r.num, r.size) && Prefix(c, 0) == []
    ensures Prefix(c, r.num + 1) == Prefix(c, r.num) + r.payload && |Prefix(c, r.num + 1)| <= MAX_MESSAGE_SIZE
    ensures !r.more ==> Prefix(c, r.num + 1) == c.payload
    ensures r.mid == c.mids[r.num]
  {
    OffsetMonotone(r.num, current, c.size);
    BlockNumbers(c, r.num);
    BlockExtendsPrefix(c, r.num);
  }

  /** What the receiver's list does with a request that may be in the channel. */
  lemma {:induction false} RequestHandled(c: Config, current: nat, accepted: nat, store: seq<BlockData>, r: Request)
    requires ValidConfig(c) && InPayload(c, current) && GoodRequest(c, current, accepted, r) && current <= accepted
    requires GoodStore(c, accepted, store)
    ensures var handled := Handle(store, Incoming(Uri(c.uri), r.payload, r.size, r.num, r.more));
            && GoodStore(c, r.num + 1, handled.blocks)
            && (handled.status == Continue || handled.status == Complete || handled.status == Retransmission)
            && (handled.status == Complete ==> handled.output == c.payload)
  {
    var id := Uri(c.uri);
    SentNumbers(c, current, accepted, r);
    hide Prefix, Offset, BlockAt, InPayload;
    HandleFrame(store, Incoming(id, r.payload, r.size, r.num, r.more), id);
    LookupUpdate(store, BlockData(id, r.payload, 0), id);
    LookupUpdate(store, BlockData(id, Prefix(c, r.num) + r.payload, r.num), id);
    assert r.num == 0 ==> Prefix(c, 1) == [] + r.payload;
  }

  /** The remaining requests stay good when the head has been taken. */
  lemma {:induction false} TakeKeepsRequests(c: Config, current: nat, accepted: nat, forward: seq<Request>)
    requires GoodRequests(c, current, accepted, forward) && forward != []
    ensures GoodRequests(c, current, forward[0].num + 1, forward[1..])
  {
    hide BlockAt;
    forall r | r in forward[1..]
      ensures GoodRequest(c, current, forward[0].num + 1, r)
    {
      assert r in forward;
      var i :| 0 <= i < |forward| - 1 && forward[1..][i] == r;
      assert forward[0].num <= forward[i + 1].num;
    }
  }

  lemma {:induction false} NewAckIsGood(c: Config, accepted: nat, backward: seq<Ack>, r: Request, success: bool)
    requires GoodAcks(c, accepted, backward) && accepted <= r.num + 1
    requires r.num < |c.mids| && r.mid == c.mids[r.num]
    ensures GoodAcks(c, r.num + 1, backward + [Ack(r.mid, r.num, c.size, success)])
  {
  }

  lemma {:induction false} DeliverStep(c: Config, s: State, agrees: bool)
    requires ValidConfig(c) && Invariant(c, s)
    ensures Invariant(c, Next(c, s, Deliver(agrees)))
  {
    hide Handle, Prefix, BlockAt, GoodStore, InPayload, GoodAcks;
    if s.forward != [] {
      var r := s.forward[0];
      assert GoodRequest(c, s.current, s.accepted, r);
      RequestHandled(c, s.current, s.accepted, s.store, r);
      SentNumbers(c, s.current, s.accepted, r);
      TakeKeepsRequests(c, s.current, s.accepted, s.forward);
      NewAckIsGood(c, s.accepted, s.backward, r, true);
      NewAckIsGood(c, s.accepted, s.backward, r, false);
      assert Min(r.size, c.receiverSize) == c.size && r.num <= s.current;
      hide GoodRequests, GoodRequest;
    }
  }

  lemma {:induction false} AcknowledgeStep(c: Config, s: State)
    requires ValidConfig(c) && Invariant(c, s)
    ensures Invariant(c, Next(c, s, Acknowledge))
  {
    if s.backward != [] {
      var a := s.backward[0];
      assert GoodAck(c, s.accepted, a);
      assert GoodAcks(c, s.accepted, s.backward[1..]);
      BlockNumbers(c, s.current);
      if s.active && a.mid == c.mids[s.current] && a.success {
        assert a.num == s.current;
        NextBlockFollows(c, s.current);
        if InPayload(c, s.current + 1) {
          BlockNumbers(c, s.current + 1);
          assert GoodRequests(c, s.current + 1, s.accepted, s.forward) by { hide BlockAt; }
          SendKeepsRequests(c, s.current + 1, s.accepted, s.forward);
        }
      }
      hide GoodRequests, GoodStore, GoodAcks, GoodAck, BlockAt, InPayload, NextBlock1, ValidConfig;
    }
  }

  lemma {:induction false} StepInvariant(c: Config, s: State, step: Step)
    requires ValidConfig(c) && Invariant(c, s)
    ensures Invariant(c, Next(c, s, step))
  {
    match step
    case Retransmit => RetransmitStep(c, s);
    case LoseRequest(i) => ChannelSteps(c, s, i);
    case RepeatRequest(i) => ChannelSteps(c, s, i);
    case Deliver(agrees) => DeliverStep(c, s, agrees);
    case LoseAck(i) => ChannelSteps(c, s, i);
    case RepeatAck(i) => ChannelSteps(c, s, i);
    case Acknowledge => AcknowledgeStep(c, s);
    case GiveUp =>
    case Other(b) => OtherStep(c, s, b);
  }

  lemma {:induction false} RunInvariant(c: Config, store: seq<BlockData>, steps: seq<Step>)
    requires ValidConfig(c) && Distinct(store)
    ensures Invariant(c, Run(c, Initial(c, store), steps))
  {
    hide Invariant, Next;
    if steps == [] {
      InitialInvariant(c, store);
    } else {
      RunInvariant(c, store, steps[..|steps| - 1]);
      StepInvariant(c, Run(c, Initial(c, store), steps[..|steps| - 1]), steps[|steps| - 1]);
    }
  }

  /** Whenever the receiver completes, it hands over exactly the sender's payload; it never refuses
      a block; and the sender is never more than one block ahead of what is stored. */
  lemma {:induction false} TransferIsSafe(c: Config, store: seq<BlockData>, steps: seq<Step>)
    requires ValidConfig(c) && Distinct(store)
    ensures var s := Run(c, Initial(c, store), steps);
            && (forall o :: o in s.outputs ==> o == c.payload)
            && !s.refused
            && s.current <= s.accepted <= s.current + 1
  {
    RunInvariant(c, store, steps);
  }

  // ----- without losses the payload arrives ---------------------------------------------------

  /** `n` rounds of delivering one request and one acknowledgement. */
  function Rounds(n: nat): seq<Step>
  {
    if n == 0 then [] else Rounds(n - 1) + [Deliver(true), Acknowledge]
  }

  /** The state in which block `n` has just been sent and everything before it is acknowledged. */
  predicate Clean(c: Config, s: State, n: nat) {
    && s.current == n && s.accepted == n && s.active && n < |c.mids|
    && BlockAt(c, n).Some? && s.forward == [BlockAt(c, n).value] && s.backward == [] && s.outputs == []
  }

  lemma {:induction false} RunTwo(c: Config, s: State, steps: seq<Step>, x: Step, y: Step)
    ensures Run(c, s, steps + [x, y]) == Next(c, Next(c, Run(c, s, steps), x), y)
  {
    hide Next;
    assert (steps + [x, y])[..|steps| + 1] == steps + [x];
    assert (steps + [x])[..|steps|] == steps;
  }

  lemma {:induction false} RoundFromClean(c: Config, s: State, n: nat)
    requires ValidConfig(c) && Invariant(c, s) && Clean(c, s, n)
    ensures var after := Next(c, Next(c, s, Deliver(true)), Acknowledge);
            if InPayload(c, n + 1) then Clean(c, after, n + 1)
            else after.outputs == [c.payload] && !after.active && after.accepted == n + 1
  {
    var t := Next(c, s, Deliver(true));
    DeliveredFresh(c, s, n);
    BlockNumbers(c, n);
    NextBlockFollows(c, n);
    if InPayload(c, n + 1) {
      BlockNumbers(c, n + 1);
    }
    assert Next(c, t, Acknowledge) == HandleAck(c, t);
    hide Next, BlockAt, NextBlock1, InPayload, ValidConfig, Invariant;
  }

  /** A block that arrives for the first time is stored and answered with success. */
  lemma {:induction false} DeliveredFresh(c: Config, s: State, n: nat)
    requires ValidConfig(c) && Invariant(c, s) && Clean(c, s, n)
    ensures var t := Next(c, s, Deliver(true));
            && t.forward == [] && t.backward == [Ack(c.mids[n], n, c.size, true)] && t.active && t.current == n
            && t.accepted == n + 1
            && t.outputs == if InPayload(c, n + 1) then [] else [c.payload]
  {
    var r := BlockAt(c, n).value;
    assert GoodRequest(c, n, n, r);
    SentNumbers(c, n, n, r);
    var b := Incoming(Uri(c.uri), r.payload, r.size, r.num, r.more);
    assert Min(r.size, c.receiverSize) == c.size;
    hide Prefix, Offset, BlockAt, InPayload, GoodRequests, GoodAcks;
    assert Handle(s.store, b).status == (if r.more then Continue else Complete);
    RequestHandled(c, n, n, s.store, r);
  }

  lemma {:induction false} RoundsStayClean(c: Config, store: seq<BlockData>, n: nat)
    requires ValidConfig(c) && Distinct(store) && InPayload(c, n)
    ensures Clean(c, Run(c, Initial(c, store), Rounds(n)), n)
  {
    var s0 := Initial(c, store);
    OffsetSteps(0, c.size);
    BlockNumbers(c, 0);
    hide Next;
    if n > 0 {
      OffsetMonotone(n - 1, n, c.size);
      RoundsStayClean(c, store, n - 1);
      RunInvariant(c, store, Rounds(n - 1));
      RoundFromClean(c, Run(c, s0, Rounds(n - 1)), n - 1);
      RunTwo(c, s0, Rounds(n - 1), Deliver(true), Acknowledge);
    }
  }

  /** When nothing is lost, one round per block delivers the payload once and ends the transfer. */
  lemma {:induction false} LosslessTransferCompletes(c: Config, store: seq<BlockData>, last: nat)
    requires ValidConfig(c) && Distinct(store) && InPayload(c, last) && !InPayload(c, last + 1)
    ensures var s := Run(c, Initial(c, store), Rounds(last + 1));
            s.outputs == [c.payload] && !s.active && s.accepted == last + 1
  {
    hide Next;
    RoundsStayClean(c, store, last);
    RunInvariant(c, store, Rounds(last));
    RoundFromClean(c, Run(c, Initial(c, store), Rounds(last)), last);
    RunTwo(c, Initial(c, store), Rounds(last), Deliver(true), Acknowledge);
  }

  // ----- out of order -------------------------------------------------------------------------

  /** Some entry of the list holds the first blocks of the transfer, up to block `k`. */
  predicate Holding(c: Config, store: seq<BlockData>, k: nat) {
    Lookup(store, Uri(c.uri)) == Some(BlockData(Uri(c.uri), Prefix(c, k + 1), k))
  }

  /** The receiver takes block `n` of the transfer. */
  function Taken(c: Config, store: seq<BlockData>, n: nat): Handled
    requires ValidConfig(c) && InPayload(c, n) && n < |c.mids| && BlockAt(c, n).Some?
  {
    var r := BlockAt(c, n).value;
    Handle(store, Incoming(Uri(c.uri), r.payload, r.size, r.num, r.more))
  }

  /** Storing what is already there changes nothing. */
  lemma {:induction false} UpdateSame(blocks: seq<BlockData>, entry: BlockData)
    requires Lookup(blocks, entry.identifier) == Some(entry)
    ensures Update(blocks, entry) == blocks
  {
    if blocks[0].identifier != entry.identifier {
      UpdateSame(blocks[1..], entry);
    }
  }

  /** Blocks are missing between block `k` and block `n`. */
  lemma {:induction false} PrefixesDiffer(c: Config, k: nat, n: nat)
    requires ValidConfig(c) && InPayload(c, k) && InPayload(c, n) && k + 1 < n
    ensures |Prefix(c, k + 1)| < |c.payload|
  {
    OffsetMonotone(k + 1, n, c.size);
    hide Offset;
  }

  /** Order matters. A receiver that holds the first blocks up to block `k` takes the last block, `n`, for the end of
      the payload with blocks missing exactly when the block before it has not arrived. */
  lemma {:induction false} OvertakingCompletesEarly(c: Config, store: seq<BlockData>, k: nat, n: nat)
    requires ValidConfig(c) && InPayload(c, k) && Holding(c, store, k)
    requires InPayload(c, n) && !InPayload(c, n + 1)
    ensures n < |c.mids| && BlockAt(c, n).Some?
    ensures var handled := Taken(c, store, n);
            && (handled.status == Complete && handled.output != c.payload <==> n > k + 1)
            && (handled.status == Complete && handled.output == c.payload <==> n == k + 1 || n == 0)
            && (handled.status == Retransmission <==> 0 < n <= k)
            && (n > k + 1 ==> handled.blocks == store && handled.output == Prefix(c, k + 1))
  {
    BlockNumbers(c, n);
    BlockExtendsPrefix(c, n);
    if n > k + 1 {
      PrefixesDiffer(c, k, n);
    }
    hide Prefix, Offset, BlockAt, InPayload;
  }

  /** A block that is not the last and is skipped over is acknowledged as if it had been stored: the answer says to go
      on although nothing changed, exactly when the block before it has not arrived. (Block 0 repeated to a receiver
      that holds nothing else changes nothing either, as it should.) */
  lemma {:induction false} SkippedBlockIsAcknowledged(c: Config, store: seq<BlockData>, k: nat, n: nat)
    requires ValidConfig(c) && InPayload(c, k) && Holding(c, store, k)
    requires InPayload(c, n) && InPayload(c, n + 1)
    ensures n < |c.mids| && BlockAt(c, n).Some?
    ensures var handled := Taken(c, store, n);
            && (handled.status == Continue && handled.blocks == store <==> n > k + 1 || (n == 0 && k == 0))
            && (handled.status == Continue && handled.blocks != store <==> n == k + 1 || (n == 0 && k > 0))
            && (handled.status == Retransmission <==> 0 < n <= k)
  {
    BlockNumbers(c, n);
    BlockExtendsPrefix(c, n);
    OffsetMonotone(n, n + 1, c.size);
    var r := BlockAt(c, n).value;
    var id := Uri(c.uri);
    assert |Prefix(c, n + 1)| <= |c.payload|;
    hide Prefix, Offset, BlockAt, InPayload;
    LookupUpdate(store, BlockData(id, r.payload, 0), id);
    LookupUpdate(store, BlockData(id, Prefix(c, k + 1) + r.payload, n), id);
    if n == 0 && k == 0 {
      assert Prefix(c, 1) == [] + r.payload == r.payload;
      UpdateSame(store, BlockData(id, r.payload, 0));
    }
  }
}
