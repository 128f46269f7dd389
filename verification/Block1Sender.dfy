/** The Block1 sender (core/packet.c:348-432): slicing a payload, the next block after an
    acknowledgement, and the retry with a smaller block size after 4.13. */
module Block1Sender {
  import opened Bytes
  import opened Coap
  import opened Block

  /** A Block1 request as it is sent. */
  datatype Request = Request(mid: uint16, num: nat, more: bool, size: nat, payload: seq<byte>)

  /** `prv_send_new_block1`: nothing to send once the offset reaches the end of the payload. */
  function NewBlock1(payload: seq<byte>, num: nat, size: nat, mid: uint16): Option<Request>
  {
    if Offset(num, size) >= |payload| then None
    else
      var offset := Offset(num, size);
      var remaining := |payload| - offset;
      Some(Request(mid, num, remaining > size, size, payload[offset..offset + Min(size, remaining)]))
  }

  /** The number and size `prv_send_next_block1` goes on with: a smaller size is taken over from the
      acknowledgement, and block 0 counts for as many of the smaller blocks as fit into it. */
  function NextNumber(request: Request, ackSize: nat): (nat, nat)
    requires request.size > 0
  {
    var size := if ackSize > request.size || ackSize == 0 then request.size else ackSize;
    (if request.num == 0 then request.size / size else request.num + 1, size)
  }

  /** `prv_send_next_block1` */
  function NextBlock1(payload: seq<byte>, request: Request, ackSize: nat, mid: uint16): Option<Request>
    requires request.size > 0
  {
    var (num, size) := NextNumber(request, ackSize);
    NewBlock1(payload, num, size, mid)
  }

  /** The block size `prv_retry_block1` falls back to, or None when it gives up. */
  function RetrySize(current: nat, suggested: nat): Option<nat>
  {
    var size := if suggested == current && suggested > 16 then suggested / 2 else suggested;
    if size >= current || size == 0 then None else Some(size)
  }

  /** `prv_retry_block1` on a request that already used Block1. */
  function RetryBlock1(payload: seq<byte>, request: Request, suggested: nat, mid: uint16): Option<Request>
  {
    match RetrySize(request.size, suggested)
    case None => None
    case Some(size) => NewBlock1(payload, request.num, size, mid)
  }

  // ----- slicing ------------------------------------------------------------------------------

  /** The payloads of the blocks from number `num` on. */
  function SlicesFrom(payload: seq<byte>, size: nat, num: nat): seq<Request>
    requires size > 0
    decreases |payload| - Offset(num, size)
  {
    match NewBlock1(payload, num, size, 0)
    case None => []
    case Some(r) =>
      OffsetSteps(num, size);
      [r] + SlicesFrom(payload, size, num + 1)
  }

  function JoinSlices(slices: seq<Request>): seq<byte>
  {
    if slices == [] then [] else slices[0].payload + JoinSlices(slices[1..])
  }

  lemma {:induction false} CutSlice(payload: seq<byte>, offset: nat, length: nat)
    requires offset + length <= |payload|
    ensures payload[offset..] == payload[offset..offset + length] + payload[offset + length..]
  {
  }

  lemma {:induction false} FirstSlice(payload: seq<byte>, size: nat, num: nat)
    requires size > 0 && Offset(num, size) < |payload|
    ensures SlicesFrom(payload, size, num)
         == [NewBlock1(payload, num, size, 0).value] + SlicesFrom(payload, size, num + 1)
  {
  }

  /** The slices concatenate to the payload. */
  lemma {:induction false} SlicesJoin(payload: seq<byte>, size: nat, num: nat)
    requires size > 0 && Offset(num, size) <= |payload|
    ensures JoinSlices(SlicesFrom(payload, size, num)) == payload[Offset(num, size)..]
    decreases |payload| - Offset(num, size)
  {
    var offset := Offset(num, size);
    if offset < |payload| {
      FirstSlice(payload, size, num);
      OffsetSteps(num, size);
      var length := Min(size, |payload| - offset);
      CutSlice(payload, offset, length);
      hide SlicesFrom, NewBlock1;
      if offset + size <= |payload| {
        SlicesJoin(payload, size, num + 1);
      } else {
        NothingLeft(payload, size, num + 1);
        assert payload[offset + length..] == [];
      }
      FirstPayload(payload, size, num);
    }
  }

  lemma {:induction false} FirstPayload(payload: seq<byte>, size: nat, num: nat)
    requires size > 0 && Offset(num, size) < |payload|
    ensures NewBlock1(payload, num, size, 0).value.payload
         == payload[Offset(num, size)..Offset(num, size) + Min(size, |payload| - Offset(num, size))]
    ensures JoinSlices(SlicesFrom(payload, size, num))
         == NewBlock1(payload, num, size, 0).value.payload + JoinSlices(SlicesFrom(payload, size, num + 1))
  {
    FirstSlice(payload, size, num);
  }

  lemma {:induction false} NothingLeft(payload: seq<byte>, size: nat, num: nat)
    requires size > 0 && Offset(num, size) >= |payload|
    ensures SlicesFrom(payload, size, num) == []
  {
  }

  /** Consecutive numbers, full blocks but for the last, and `more` false on exactly the last. */
  predicate WellSliced(slices: seq<Request>, size: nat, num: nat)
    decreases |slices|
  {
    slices == [] ||
    (&& slices[0].num == num
     && (slices[0].more <==> |slices| > 1)
     && 0 < |slices[0].payload| <= size && (slices[0].more ==> |slices[0].payload| == size)
     && WellSliced(slices[1..], size, num + 1))
  }

  lemma {:induction false} SlicesShape(payload: seq<byte>, size: nat, num: nat)
    requires size > 0
    ensures SlicesFrom(payload, size, num) != [] <==> Offset(num, size) < |payload|
    ensures WellSliced(SlicesFrom(payload, size, num), size, num)
    decreases |payload| - Offset(num, size)
  {
    if Offset(num, size) < |payload| {
      OffsetSteps(num, size);
      SlicesShape(payload, size, num + 1);
      assert SlicesFrom(payload, size, num)[1..] == SlicesFrom(payload, size, num + 1);
    }
  }

  /** A transfer that starts at block 0 carries exactly the payload. */
  lemma {:induction false} SlicesPartition(payload: seq<byte>, size: nat)
    requires size > 0
    ensures JoinSlices(SlicesFrom(payload, size, 0)) == payload
    ensures WellSliced(SlicesFrom(payload, size, 0), size, 0)
  {
    SlicesJoin(payload, size, 0);
    SlicesShape(payload, size, 0);
  }

  /** After an acknowledgement that asks for another size the blocks from the next one on, at its size, carry exactly what
      the block left over if the size stays, or if the block was the first and the smaller size divides it; otherwise they
      begin somewhere before that. */
  lemma {:induction false} SizeChange(payload: seq<byte>, request: Request, ackSize: nat, mid: uint16)
    requires request.size > 0 && request.more && NewBlock1(payload, request.num, request.size, request.mid) == Some(request)
    ensures NextBlock1(payload, request, ackSize, mid).Some?
    ensures var (next, left) := (NextBlock1(payload, request, ackSize, mid).value, Offset(request.num, request.size) + |request.payload|);
            && next.size == (if 0 < ackSize < request.size then ackSize else request.size)
            && Offset(next.num, next.size) <= left <= |payload|
            && JoinSlices(SlicesFrom(payload, next.size, next.num)) == payload[Offset(next.num, next.size)..]
            && (JoinSlices(SlicesFrom(payload, next.size, next.num)) == payload[left..] <==>
                  ackSize == 0 || ackSize >= request.size || (request.num == 0 && request.size % ackSize == 0))
  {
    var (num, size) := NextNumber(request, ackSize);
    var left := Offset(request.num, request.size) + |request.payload|;
    OffsetSteps(request.num, request.size);
    NextOffset(request.num, request.size, size);
    SlicesJoin(payload, size, num);
    hide SlicesFrom, JoinSlices, Offset;
  }

  lemma {:induction false} NextOffset(num: nat, size: nat, small: nat)
    requires 0 < small <= size
    ensures var next := if num == 0 then size / small else num + 1;
            && Offset(next, small) <= Offset(num + 1, size)
            && (Offset(next, small) == Offset(num + 1, size) <==> small == size || (num == 0 && size % small == 0))
  {
    if num == 0 {
      assert size == size / small * small + size % small;
    } else {
      assert (num + 1) * size == (num + 1) * small + (num + 1) * (size - small);
      assert small < size ==> (num + 1) * (size - small) >= 1 * 1;
    }
  }

  // ----- retries after 4.13 -------------------------------------------------------------------

  /** The block sizes of a chain of retries, given the sizes the peer suggests one after the other. */
  function RetryChain(size: nat, suggestions: seq<nat>): seq<nat>
    decreases |suggestions|
  {
    [size] + (if suggestions == [] then []
              else match RetrySize(size, suggestions[0])
                   case None => []
                   case Some(next) => RetryChain(next, suggestions[1..]))
  }

  /** A CoAP Block option carries only powers of two from 16 to 2048. */
  lemma {:induction false} RetryShrinks(current: nat, suggested: nat)
    requires IsBlockSize(current) && IsBlockSize(suggested)
    ensures match RetrySize(current, suggested)
            case None => suggested > current || (suggested == current && current == 16)
            case Some(size) =>
              && IsBlockSize(size) && 2 * size <= current
              && (if suggested == current then 2 * size == current else size == suggested)
  {
  }

  /** Whatever the peer suggests, the sizes strictly decrease and stay expressible. */
  lemma {:induction false} RetryChainDecreases(size: nat, suggestions: seq<nat>)
    requires IsBlockSize(size) && forall s :: s in suggestions ==> IsBlockSize(s)
    ensures var chain := RetryChain(size, suggestions);
            && chain[0] == size
            && (forall i :: 0 <= i < |chain| ==> IsBlockSize(chain[i]))
            && (forall i :: 0 <= i < |chain| - 1 ==> 2 * chain[i + 1] <= chain[i])
    decreases |suggestions|
  {
    if suggestions != [] && RetrySize(size, suggestions[0]).Some? {
      var next := RetrySize(size, suggestions[0]).value;
      RetryShrinks(size, suggestions[0]);
      RetryChainDecreases(next, suggestions[1..]);
      var rest := RetryChain(next, suggestions[1..]);
      var chain := RetryChain(size, suggestions);
      assert chain == [size] + rest;
      assert forall i :: 1 <= i < |chain| ==> chain[i] == rest[i - 1];
    }
  }

  /** So no chain makes more than seven retries. */
  lemma {:induction false} RetryChainTerminates(size: nat, suggestions: seq<nat>)
    requires IsBlockSize(size) && forall s :: s in suggestions ==> IsBlockSize(s)
    ensures 16 * Pow2(|RetryChain(size, suggestions)| - 1) <= size
    ensures |RetryChain(size, suggestions)| <= 8
    decreases |suggestions|
  {
    if suggestions != [] && RetrySize(size, suggestions[0]).Some? {
      RetryShrinks(size, suggestions[0]);
      RetryChainTerminates(RetrySize(size, suggestions[0]).value, suggestions[1..]);
    }
    Pow2Small(7);
    if |RetryChain(size, suggestions)| > 8 {
      Pow2Monotone(8, |RetryChain(size, suggestions)| - 1);
    }
  }

  /** The requests of a chain of retries: each goes on with the block that was refused, at the smaller size. */
  function RetryRequests(payload: seq<byte>, request: Request, suggestions: seq<nat>, mid: uint16): seq<Request>
    decreases |suggestions|
  {
    [request] + (if suggestions == [] then []
                 else match RetryBlock1(payload, request, suggestions[0], mid)
                      case None => []
                      case Some(next) => RetryRequests(payload, next, suggestions[1..], mid))
  }

  /** The requests of a chain have the sizes of the chain and are blocks of the payload; a retry is never given up for
      want of payload. So after a refused block 0 each retry starts a transfer of the whole payload. */
  lemma {:induction false} RetriesFollowChain(payload: seq<byte>, request: Request, suggestions: seq<nat>, mid: uint16)
    requires request.size > 0 && NewBlock1(payload, request.num, request.size, request.mid) == Some(request)
    ensures var requests, chain := RetryRequests(payload, request, suggestions, mid), RetryChain(request.size, suggestions);
            |requests| == |chain| &&
            forall i :: 0 <= i < |chain| ==>
              && chain[i] > 0 && requests[i].num == request.num
              && NewBlock1(payload, request.num, chain[i], requests[i].mid) == Some(requests[i])
              && (request.num == 0 ==> SlicesFrom(payload, chain[i], 0) != [] && JoinSlices(SlicesFrom(payload, chain[i], 0)) == payload)
    decreases |suggestions|
  {
    SlicesPartition(payload, request.size);
    SlicesShape(payload, request.size, 0);
    var requests, chain := RetryRequests(payload, request, suggestions, mid), RetryChain(request.size, suggestions);
    if suggestions != [] && RetrySize(request.size, suggestions[0]).Some? {
      var size := RetrySize(request.size, suggestions[0]).value;
      SmallerOffset(request.num, size, request.size);
      var next := NewBlock1(payload, request.num, size, mid).value;
      RetriesFollowChain(payload, next, suggestions[1..], mid);
      assert forall i :: 1 <= i < |chain| ==> chain[i] == RetryChain(size, suggestions[1..])[i - 1];
      assert forall i :: 1 <= i < |requests| ==> requests[i] == RetryRequests(payload, next, suggestions[1..], mid)[i - 1];
    }
    hide NewBlock1, SlicesFrom, JoinSlices, RetrySize;
  }

  lemma {:induction false} SmallerOffset(num: nat, small: nat, size: nat)
    requires small <= size
    ensures Offset(num, small) <= Offset(num, size)
  {
    assert num * size == num * small + num * (size - small);
  }

  // ----- the switch to Block1 -----------------------------------------------------------------

  /** The size choice of `prv_change_to_block1`: the largest power of two within the peer's Size
      option, at least 16, and not above the own block size. */
  method ChangeToBlock1Size(sizeOption: uint32, own: uint16) returns (blockSize: nat)
    requires IsBlockSize(own) && own <= 1024
    ensures IsBlockSize(blockSize) && blockSize <= own
    ensures var limit := sizeOption % 0x1_0000;
            && (blockSize > 16 ==> blockSize <= limit)
            && (2 * blockSize <= own ==> limit < 2 * blockSize)
  {
    var limit := sizeOption % 0x1_0000;
    blockSize := 16;
    var n := 1;
    while 16 * Pow2(n) <= limit
      invariant n >= 1 && blockSize == 16 * Pow2(n - 1)
      invariant blockSize == 16 || blockSize <= limit
      decreases limit - 16 * Pow2(n)
    {
      blockSize := 16 * Pow2(n);
      n := n + 1;
    }
    ghost var k := n - 1;
    assert limit < 2 * blockSize;
    blockSize := Min(blockSize, own);
    PowerBelow(k, own);
  }

  lemma {:induction false} PowerBelow(k: nat, own: nat)
    requires IsBlockSize(own) && own <= 1024
    ensures 16 * Pow2(k) <= own ==> IsBlockSize(16 * Pow2(k))
  {
    if k < 8 {
      Pow2Small(k);
    } else {
      Pow2Small(7);
      Pow2Monotone(7, k);
    }
  }
}
