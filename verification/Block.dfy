/** Reassembly of block-wise transfers (coap/block.c:75-136, 187-357; section 2 of RFC 7959). */
module Block {
  import opened Bytes

  const MAX_MESSAGE_SIZE: nat := 2048

  /** What identifies a transfer: the URI of a Block1 request, the message ID of a Block2 response. */
  datatype Identifier = Uri(uri: seq<byte>) | Mid(mid: int)

  /** `lwm2m_block_data_t`; the buffer size is the length of the buffer. */
  datatype BlockData = BlockData(identifier: Identifier, buffer: seq<byte>, blockNum: nat)

  datatype Status = Continue | Complete | Retransmission | Incomplete | TooLarge

  /** An incoming block. */
  datatype Incoming = Incoming(identifier: Identifier, payload: seq<byte>, size: nat, num: nat, more: bool)

  /** Where block `num` of a transfer starts. */
  function Offset(num: nat, size: nat): nat
  {
    num * size
  }

  lemma {:induction false} OffsetSteps(num: nat, size: nat)
    ensures Offset(0, size) == 0
    ensures Offset(num + 1, size) == Offset(num, size) + size
    ensures size > 0 ==> num <= Offset(num, size)
  {
  }

  lemma {:induction false} OffsetMonotone(a: nat, b: nat, size: nat)
    requires a <= b
    ensures Offset(a, size) <= Offset(b, size)
  {
  }

  // ----- the list of transfers ----------------------------------------------------------------

  /** The entry `find_block_data` returns. */
  function Lookup(blocks: seq<BlockData>, id: Identifier): Option<BlockData>
  {
    if blocks == [] then None
    else if blocks[0].identifier == id then Some(blocks[0])
    else Lookup(blocks[1..], id)
  }

  /** The list with the first entry of `id` replaced. */
  function Update(blocks: seq<BlockData>, entry: BlockData): (r: seq<BlockData>)
    ensures |r| == |blocks|
  {
    if blocks == [] then []
    else if blocks[0].identifier == entry.identifier then [entry] + blocks[1..]
    else [blocks[0]] + Update(blocks[1..], entry)
  }

  /** `prv_block_data_delete` */
  function Remove(blocks: seq<BlockData>, id: Identifier): seq<BlockData>
  {
    if blocks == [] then []
    else if blocks[0].identifier == id then blocks[1..]
    else [blocks[0]] + Remove(blocks[1..], id)
  }

  /** No identifier occurs twice. */
  predicate Distinct(blocks: seq<BlockData>) {
    blocks == [] || (Lookup(blocks[1..], blocks[0].identifier) == None && Distinct(blocks[1..]))
  }

  lemma {:induction false} DistinctIdentifiers(blocks: seq<BlockData>, i: nat, j: nat)
    requires Distinct(blocks) && i < j < |blocks|
    ensures blocks[i].identifier != blocks[j].identifier
  {
    if i == 0 {
      LookupFinds(blocks[1..], blocks[0].identifier);
      assert blocks[j] == blocks[1..][j - 1];
    } else {
      DistinctIdentifiers(blocks[1..], i - 1, j - 1);
    }
  }

  lemma {:induction false} LookupFinds(blocks: seq<BlockData>, id: Identifier)
    ensures match Lookup(blocks, id)
            case None => forall b :: b in blocks ==> b.identifier != id
            case Some(b) => b in blocks && b.identifier == id
  {
    if blocks != [] {
      LookupFinds(blocks[1..], id);
    }
  }

  lemma {:induction false} LookupUpdate(blocks: seq<BlockData>, entry: BlockData, id: Identifier)
    ensures Lookup(Update(blocks, entry), id)
         == if id == entry.identifier && Lookup(blocks, id).Some? then Some(entry) else Lookup(blocks, id)
  {
    if blocks != [] {
      LookupUpdate(blocks[1..], entry, id);
    }
  }

  lemma {:induction false} LookupRemove(blocks: seq<BlockData>, id: Identifier, other: Identifier)
    ensures other != id ==> Lookup(Remove(blocks, id), other) == Lookup(blocks, other)
    ensures Distinct(blocks) ==> Lookup(Remove(blocks, id), id) == None
  {
    if blocks != [] {
      LookupRemove(blocks[1..], id, other);
    }
  }

  lemma {:induction false} UpdateKeepsDistinct(blocks: seq<BlockData>, entry: BlockData)
    requires Distinct(blocks)
    ensures Distinct(Update(blocks, entry))
  {
    if blocks != [] {
      UpdateKeepsDistinct(blocks[1..], entry);
      LookupUpdate(blocks[1..], entry, blocks[0].identifier);
    }
  }

  lemma {:induction false} RemoveKeepsDistinct(blocks: seq<BlockData>, id: Identifier)
    requires Distinct(blocks)
    ensures Distinct(Remove(blocks, id))
  {
    if blocks != [] {
      RemoveKeepsDistinct(blocks[1..], id);
      LookupRemove(blocks[1..], id, blocks[0].identifier);
    }
  }

  // ----- one incoming block -------------------------------------------------------------------

  datatype Handled = Handled(blocks: seq<BlockData>, status: Status, output: seq<byte>)

  /** `prv_coap_block_handler`: the list afterwards, the status, and the output on completion. A
      number that skips ahead is answered like an accepted one although nothing is stored. */
  function Handle(blocks: seq<BlockData>, b: Incoming): Handled
  {
    match Lookup(blocks, b.identifier)
    case None =>
      if b.num != 0 then Handled(blocks, Incomplete, [])
      else Answer([BlockData(b.identifier, b.payload, 0)] + blocks, b.payload, b.more)
    case Some(entry) =>
      if b.num == 0 then
        Answer(Update(blocks, BlockData(b.identifier, b.payload, 0)), b.payload, b.more)
      else if b.num <= entry.blockNum then Handled(blocks, Retransmission, [])
      else if b.num == entry.blockNum + 1 then
        if |entry.buffer| != Offset(b.num, b.size) then Handled(blocks, Incomplete, [])
        else if |entry.buffer| + |b.payload| > MAX_MESSAGE_SIZE then Handled(blocks, TooLarge, [])
        else Answer(Update(blocks, BlockData(b.identifier, entry.buffer + b.payload, b.num)), entry.buffer + b.payload, b.more)
      else Answer(blocks, entry.buffer, b.more)
  }

  function Answer(blocks: seq<BlockData>, buffer: seq<byte>, more: bool): Handled
  {
    if more then Handled(blocks, Continue, []) else Handled(blocks, Complete, buffer)
  }

  /** Handling a block keeps the identifiers unique and touches no other transfer. */
  lemma {:induction false} HandleFrame(blocks: seq<BlockData>, b: Incoming, other: Identifier)
    requires Distinct(blocks)
    ensures Distinct(Handle(blocks, b).blocks)
    ensures other != b.identifier ==> Lookup(Handle(blocks, b).blocks, other) == Lookup(blocks, other)
  {
    var first := BlockData(b.identifier, b.payload, 0);
    UpdateKeepsDistinct(blocks, first);
    LookupUpdate(blocks, first, other);
    if Lookup(blocks, b.identifier).Some? {
      var next := BlockData(b.identifier, Lookup(blocks, b.identifier).value.buffer + b.payload, b.num);
      UpdateKeepsDistinct(blocks, next);
      LookupUpdate(blocks, next, other);
    }
  }

  // ----- the linked list, updated in place ----------------------------------------------------

  class BlockStore {
    var blocks: seq<BlockData>

    constructor ()
      ensures blocks == []
    {
      blocks := [];
    }

    /** `find_block_data` */
    method Find(id: Identifier) returns (found: Option<nat>)
      ensures match found
              case None => Lookup(blocks, id) == None
              case Some(i) => FirstAt(blocks, id, i) && Lookup(blocks, id) == Some(blocks[i])
    {
      var i := 0;
      assert blocks[0..] == blocks;
      while i < |blocks| && blocks[i].identifier != id
        invariant 0 <= i <= |blocks|
        invariant forall j :: 0 <= j < i ==> blocks[j].identifier != id
        invariant Lookup(blocks, id) == Lookup(blocks[i..], id)
      {
        assert blocks[i..][1..] == blocks[i + 1..];
        i := i + 1;
      }
      found := if i < |blocks| then Some(i) else None;
    }

    /** `prv_block_insert`: new entries go to the head. */
    method Insert(entry: BlockData)
      modifies this
      ensures blocks == [entry] + old(blocks)
    {
      blocks := [entry] + blocks;
    }

    /** `prv_block_data_delete` */
    method Delete(id: Identifier)
      modifies this
      ensures blocks == Remove(old(blocks), id)
    {
      var found := Find(id);
      match found {
        case None => RemoveMissing(blocks, id);
        case Some(i) =>
          RemoveAt(blocks, id, i);
          blocks := blocks[..i] + blocks[i + 1..];
      }
    }

    /** `prv_coap_block_handler` */
    method HandleBlock(b: Incoming) returns (status: Status, output: seq<byte>)
      modifies this
      ensures Handled(blocks, status, output) == Handle(old(blocks), b)
    {
      var found := Find(b.identifier);
      var at: nat := 0;
      if b.num == 0 {
        if found == None {
          Insert(BlockData(b.identifier, [], 0));
        } else {
          at := found.value;
        }
        UpdateAt(blocks, BlockData(b.identifier, b.payload, 0), at);
        blocks := blocks[at := BlockData(b.identifier, b.payload, 0)];
      } else {
        if found == None { return Incomplete, []; }
        at := found.value;
        var entry := blocks[at];
        if b.num <= entry.blockNum { return Retransmission, []; }
        if b.num == entry.blockNum + 1 {
          if |entry.buffer| != Offset(b.num, b.size) { return Incomplete, []; }
          if |entry.buffer| + |b.payload| > MAX_MESSAGE_SIZE { return TooLarge, []; }
          var grown := BlockData(b.identifier, entry.buffer + b.payload, b.num);
          UpdateAt(blocks, grown, at);
          blocks := blocks[at := grown];
        }
      }
      if b.more {
        return Continue, [];
      }
      return Complete, blocks[at].buffer;
    }
  }

  /** Is `i` the index of the first entry of `id`? */
  predicate FirstAt(blocks: seq<BlockData>, id: Identifier, i: nat) {
    i < |blocks| && blocks[i].identifier == id && forall j :: 0 <= j < i ==> blocks[j].identifier != id
  }

  lemma {:induction false} UpdateAt(blocks: seq<BlockData>, entry: BlockData, i: nat)
    requires FirstAt(blocks, entry.identifier, i)
    ensures Update(blocks, entry) == blocks[i := entry]
  {
    if i > 0 {
      UpdateAt(blocks[1..], entry, i - 1);
    }
  }

  lemma {:induction false} RemoveAt(blocks: seq<BlockData>, id: Identifier, i: nat)
    requires FirstAt(blocks, id, i)
    ensures Remove(blocks, id) == blocks[..i] + blocks[i + 1..]
  {
    if i > 0 {
      RemoveAt(blocks[1..], id, i - 1);
      assert blocks[..i] + blocks[i + 1..] == [blocks[0]] + (blocks[1..][..i - 1] + blocks[1..][i..]);
    }
  }

  lemma {:induction false} RemoveMissing(blocks: seq<BlockData>, id: Identifier)
    requires Lookup(blocks, id) == None
    ensures Remove(blocks, id) == blocks
  {
    if blocks != [] {
      RemoveMissing(blocks[1..], id);
    }
  }
}
