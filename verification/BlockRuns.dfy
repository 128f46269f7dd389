/** What the reassembly list holds after any sequence of incoming blocks and deletions. */
module BlockRuns {
  import opened Bytes
  import opened Block

  datatype Event = Receive(block: Incoming) | Delete(identifier: Identifier)

  function Apply(blocks: seq<BlockData>, e: Event): seq<BlockData>
  {
    match e
    case Receive(b) => Handle(blocks, b).blocks
    case Delete(id) => Remove(blocks, id)
  }

  /** The list after a run that starts from nothing. */
  function Run(events: seq<Event>): seq<BlockData>
  {
    if events == [] then [] else Apply(Run(events[..|events| - 1]), events[|events| - 1])
  }

  /** A block as it was accepted: its payload and the block size of its option. */
  datatype Accepted = Accepted(payload: seq<byte>, size: nat)

  function Joined(accepted: seq<Accepted>): seq<byte>
  {
    if accepted == [] then [] else Joined(accepted[..|accepted| - 1]) + accepted[|accepted| - 1].payload
  }

  /** The blocks of one transfer accepted since its last block 0, read off the input alone: block 0
      starts over; another block is accepted when it carries the next number, its offset by its own
      size is where the data so far ends, and the whole stays within the message limit. */
  function AcceptedBlocks(events: seq<Event>, id: Identifier): Option<seq<Accepted>>
  {
    if events == [] then None
    else
      var before := AcceptedBlocks(events[..|events| - 1], id);
      match events[|events| - 1]
      case Delete(other) => if other == id then None else before
      case Receive(b) =>
        if b.identifier != id then before
        else if b.num == 0 then Some([Accepted(b.payload, b.size)])
        else AcceptNext(before, b)
  }

  function AcceptNext(before: Option<seq<Accepted>>, b: Incoming): Option<seq<Accepted>>
  {
    if before == None then None
    else if b.num == |before.value| && Offset(b.num, b.size) == |Joined(before.value)|
         && |Joined(before.value)| + |b.payload| <= MAX_MESSAGE_SIZE
    then Some(before.value + [Accepted(b.payload, b.size)])
    else before
  }

  /** The entry that a list of accepted blocks amounts to. */
  function EntryOf(id: Identifier, accepted: Option<seq<Accepted>>): Option<BlockData>
    requires accepted.Some? ==> accepted.value != []
  {
    match accepted
    case None => None
    case Some(l) => Some(BlockData(id, Joined(l), |l| - 1))
  }

  lemma {:induction false} JoinedSnoc(l: seq<Accepted>, a: Accepted)
    ensures Joined(l + [a]) == Joined(l) + a.payload
  {
    assert (l + [a])[..|l|] == l;
  }

  lemma {:induction false} AcceptedNonEmpty(events: seq<Event>, id: Identifier)
    ensures AcceptedBlocks(events, id).Some? ==> AcceptedBlocks(events, id).value != []
  {
    if events != [] {
      AcceptedNonEmpty(events[..|events| - 1], id);
    }
  }

  lemma {:induction false} EntryAfterBlock(blocks: seq<BlockData>, b: Incoming)
    ensures Lookup(Handle(blocks, b).blocks, b.identifier)
         == match Lookup(blocks, b.identifier)
            case None => if b.num == 0 then Some(BlockData(b.identifier, b.payload, 0)) else None
            case Some(entry) =>
              if b.num == 0 then Some(BlockData(b.identifier, b.payload, 0))
              else if b.num == entry.blockNum + 1 && |entry.buffer| == Offset(b.num, b.size)
                   && |entry.buffer| + |b.payload| <= MAX_MESSAGE_SIZE
              then Some(BlockData(b.identifier, entry.buffer + b.payload, b.num))
              else Some(entry)
  {
    LookupUpdate(blocks, BlockData(b.identifier, b.payload, 0), b.identifier);
    if Lookup(blocks, b.identifier).Some? {
      LookupUpdate(blocks, BlockData(b.identifier, Lookup(blocks, b.identifier).value.buffer + b.payload, b.num), b.identifier);
    }
  }

  /** After any run, identifiers are unique and every transfer's entry is exactly the concatenation
      of the blocks accepted since its last block 0, with their count. */
  lemma {:induction false} RunHoldsAccepted(events: seq<Event>, id: Identifier)
    ensures Distinct(Run(events))
    ensures AcceptedBlocks(events, id).Some? ==> AcceptedBlocks(events, id).value != []
    ensures Lookup(Run(events), id) == EntryOf(id, AcceptedBlocks(events, id))
  {
    AcceptedNonEmpty(events, id);
    if events != [] {
      var before := events[..|events| - 1];
      var blocks := Run(before);
      RunHoldsAccepted(before, id);
      match events[|events| - 1] {
        case Delete(other) =>
          LookupRemove(blocks, other, id);
          RemoveKeepsDistinct(blocks, other);
        case Receive(b) =>
          HandleFrame(blocks, b, id);
          if b.identifier == id {
            BlockStep(blocks, b, AcceptedBlocks(before, id));
          }
      }
    }
  }

  lemma {:induction false} BlockStep(blocks: seq<BlockData>, b: Incoming, before: Option<seq<Accepted>>)
    requires before.Some? ==> before.value != []
    requires Lookup(blocks, b.identifier) == EntryOf(b.identifier, before)
    ensures var after := if b.num == 0 then Some([Accepted(b.payload, b.size)]) else AcceptNext(before, b);
            && (after.Some? ==> after.value != [])
            && Lookup(Handle(blocks, b).blocks, b.identifier) == EntryOf(b.identifier, after)
  {
    EntryAfterBlock(blocks, b);
    AcceptedStep(before, b);
  }

  lemma {:induction false} AcceptedStep(before: Option<seq<Accepted>>, b: Incoming)
    requires before.Some? ==> before.value != []
    ensures Joined([Accepted(b.payload, b.size)]) == b.payload
    ensures before.Some? ==> Joined(before.value + [Accepted(b.payload, b.size)]) == Joined(before.value) + b.payload
  {
    assert [] + [Accepted(b.payload, b.size)] == [Accepted(b.payload, b.size)];
    JoinedSnoc([], Accepted(b.payload, b.size));
    if before.Some? {
      JoinedSnoc(before.value, Accepted(b.payload, b.size));
    }
  }

  /** How a block is answered after any run, told from the blocks accepted so far: it is incomplete when its transfer has
      not begun or its offset is not where the data ends, known when its number was accepted before, and too large when the
      whole would not fit in 2048 bytes. Otherwise the last block completes the transfer, even one that skips ahead. */
  lemma {:induction false} AnswersOverRuns(events: seq<Event>, b: Incoming)
    ensures var (h, before) := (Handle(Run(events), b), AcceptedBlocks(events, b.identifier));
            var got := if before.Some? then Joined(before.value) else [];
            && (before.None? && b.num > 0 ==> h.status == Incomplete)
            && (before.Some? && 0 < b.num < |before.value| ==> h.status == Retransmission)
            && (before.Some? && b.num == |before.value| ==>
                  && (|got| != Offset(b.num, b.size) ==> h.status == Incomplete)
                  && (|got| == Offset(b.num, b.size) && |got| + |b.payload| > 2048 ==> h.status == TooLarge)
                  && (|got| == Offset(b.num, b.size) && |got| + |b.payload| <= 2048 ==>
                        h.status == (if b.more then Continue else Complete) && (!b.more ==> h.output == got + b.payload)))
            && (before.Some? && b.num > |before.value| ==>
                  h.status == (if b.more then Continue else Complete) && (!b.more ==> h.output == got))
            && (b.num == 0 ==> h.status == (if b.more then Continue else Complete) && (!b.more ==> h.output == b.payload))
            && (h.status != Complete ==> h.output == [])
            && (h.status.Incomplete? || h.status.Retransmission? || h.status.TooLarge? ==> h.blocks == Run(events))
  {
    RunHoldsAccepted(events, b.identifier);
    hide Run, AcceptedBlocks, Joined, Lookup, Update;
  }

  /** Block n lies at offset n times its own block size. */
  lemma {:induction false} AcceptedOffsets(events: seq<Event>, id: Identifier, n: nat)
    requires AcceptedBlocks(events, id).Some? && n < |AcceptedBlocks(events, id).value|
    ensures var l := AcceptedBlocks(events, id).value;
            var offset := |Joined(l[..n])|;
            && (n > 0 ==> offset == Offset(n, l[n].size))
            && offset + |l[n].payload| <= |Joined(l)|
            && Joined(l)[offset..offset + |l[n].payload|] == l[n].payload
  {
    var l := AcceptedBlocks(events, id).value;
    OffsetInEvents(events, id, n);
    JoinedPart(l, n);
  }

  lemma {:induction false} JoinedPart(l: seq<Accepted>, n: nat)
    requires n < |l|
    ensures var offset := |Joined(l[..n])|;
            && offset + |l[n].payload| <= |Joined(l)|
            && Joined(l)[offset..offset + |l[n].payload|] == l[n].payload
    decreases |l|
  {
    var front := l[..|l| - 1];
    if n < |front| {
      JoinedPart(front, n);
      assert front[..n] == l[..n];
    } else {
      assert l[..n] == front;
    }
  }

  lemma {:induction false} OffsetInEvents(events: seq<Event>, id: Identifier, n: nat)
    requires AcceptedBlocks(events, id).Some? && n < |AcceptedBlocks(events, id).value|
    ensures n > 0 ==> |Joined(AcceptedBlocks(events, id).value[..n])| == Offset(n, AcceptedBlocks(events, id).value[n].size)
    decreases |events|
  {
    var l := AcceptedBlocks(events, id).value;
    var before := AcceptedBlocks(events[..|events| - 1], id);
    if before.Some? && n < |before.value| <= |l| && l[..|before.value|] == before.value {
      OffsetInEvents(events[..|events| - 1], id, n);
      assert l[..n] == before.value[..n];
    } else if before.Some? && |l| == |before.value| + 1 {
      assert l[..n] == before.value;
    }
  }
}
