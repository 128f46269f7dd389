/** The loops of data/senml_cbor.c over byte buffers. */
module SenmlCborCodec {
  import opened Bytes
  import opened Data
  import opened Uri
  import opened Cbor
  import opened SenmlRecords
  import opened SenmlCborWriter
  import opened SenmlCborReader
  import Decimal

  // ----- reading ------------------------------------------------------------------------------

  /** `prv_parseItem` */
  method ReadItem(buffer: seq<byte>, base: Base) returns (r: Option<Parsed>)
    requires IsBase(base)
    ensures r == ParseItem(buffer, base)
  {
    hide ReadPair, ReadHeadUntagged;
    var head := ReadHeadUntagged(buffer);
    if head.None? { return None; }
    var h := head.value;
    if !h.itemType.TMap? || h.value > INT_MAX || h.value == 0 || h.value > |buffer| / 2 { return None; }
    var s := Fresh(base);
    var offset: nat := h.size;
    var count: int := h.value;
    while count > 0
      invariant 0 <= count && offset <= |buffer|
      invariant ReadPairs(buffer, offset, count, s) == ReadPairs(buffer, h.size, h.value, Fresh(base))
    {
      var pair := ReadPair(buffer, offset, s);
      if pair.None? { return None; }
      s, offset := pair.value.0, pair.value.1;
      count := count - 1;
    }
    var path := PathOf(s.base.name, s.name);
    var value := Combine(s.value, s.base.value);
    if path.None? || value.None? { return None; }
    return Some(Parsed(Record(path.value, value.value), s.base, offset));
  }

  function Prepend(records: seq<Record>, more: Option<seq<Record>>): Option<seq<Record>>
  {
    match more case None => None case Some(m) => Some(records + m)
  }

  lemma {:induction false} PrependMore(records: seq<Record>, r: Record, more: Option<seq<Record>>)
    ensures Prepend(records, Prepend([r], more)) == Prepend(records + [r], more)
  {
    if more.Some? {
      ConcatAssociative(records, [r], more.value);
    }
  }

  lemma {:induction false} ParseRecordsStep(buffer: seq<byte>, at: nat, count: nat, base: Base)
    requires at <= |buffer| && IsBase(base) && count > 0
    ensures ParseRecords(buffer, at, count, base)
         == match ParseItem(buffer[at..], base)
            case None => None
            case Some(p) => Prepend([p.record], ParseRecords(buffer, at + p.size, count - 1, p.base))
  {
    hide ParseItem;
  }

  /** `senml_cbor_parse` */
  method ReadDocument(uri: Option<Path>, buffer: seq<byte>) returns (r: Option<seq<Node>>)
    requires uri.Some? ==> |uri.value| <= 4
    ensures r == Parse(uri, buffer)
  {
    hide ReadHeadUntagged, ParseItem, Select, AddAll;
    var head := ReadHeadUntagged(buffer);
    if head.None? { return None; }
    var h := head.value;
    if !h.itemType.TArray? || h.value > INT_MAX || h.value == 0 || h.value > |buffer| / 3 { return None; }
    var records: seq<Record> := [];
    var base := Base([], None);
    var offset: nat := h.size;
    var index := 0;
    ghost var all := ParseRecords(buffer, h.size, h.value, base);
    assert all == Prepend([], all) by { if all.Some? { assert [] + all.value == all.value; } }
    while index < h.value
      invariant 0 <= index <= h.value && offset <= |buffer| && IsBase(base) && IsRecords(records)
      invariant all == Prepend(records, ParseRecords(buffer, offset, h.value - index, base))
    {
      hide ParseRecords;
      ParseRecordsStep(buffer, offset, h.value - index, base);
      var item := ReadItem(buffer[offset..], base);
      if item.None? { return None; }
      PrependMore(records, item.value.record, ParseRecords(buffer, offset + item.value.size, h.value - index - 1, item.value.base));
      records := records + [item.value.record];
      offset := offset + item.value.size;
      base := item.value.base;
      index := index + 1;
    }
    if offset != |buffer| { return None; }
    assert records + [] == records;
    var parsed := ConvertRecords(records);
    if parsed.None? { return None; }
    return Select(uri, parsed.value);
  }

  // ----- writing ------------------------------------------------------------------------------

  /** Whether the names of these records can be composed in the room the library has for them. */
  predicate Nameable(nodes: seq<Node>, parent: seq<byte>, named: bool)
    decreases nodes
  {
    nodes == [] || (NodeNameable(nodes[0], parent, named) && Nameable(nodes[1..], parent, named))
  }

  predicate NodeNameable(n: Node, parent: seq<byte>, named: bool)
    decreases n
  {
    var name := parent + Decimal.Digits(n.id);
    if IsRecord(n) then named ==> |name| <= MAX_STRING_LEN
    else |name| < MAX_STRING_LEN && Nameable(n.children, name + [SLASH], named)
  }

  /** An outcome as it should be, unless it is a refusal for a name that cannot be composed. */
  predicate Agrees(o: Outcome, nameable: bool, expected: Outcome) {
    o == expected || (o.Refused? && !nameable)
  }

  /** One outcome and, if it fits, the one behind it. */
  function Both(first: Outcome, second: Outcome): Outcome
  {
    if first.Fits? then Then(first.n, second) else first
  }

  lemma {:induction false} BothAgree(a: seq<Piece>, b: seq<Piece>, room: nat, nameable: bool, first: Outcome, second: Outcome)
    requires Agrees(first, nameable, Outcomes(a, room))
    requires first.Fits? ==> first.n <= room && Agrees(second, nameable, Outcomes(b, room - first.n))
    ensures Agrees(Both(first, second), nameable, Outcomes(a + b, room))
  {
    OutcomesConcat(a, b, room);
    hide Outcomes;
  }

  lemma {:induction false} PairOutcome(p: Pair, room: nat)
    requires Sizable(p.key) && Sizable(p.value)
    ensures Outcomes(PairPieces(p), room)
         == match PutOutcome(p.key, room) case Fits(n) => Then(n, PutOutcome(p.value, room - n)) case o => o
  {
    var (key, value) := (Single(p.key), Single(p.value));
    OneOutcome(key, room);
    if PutOutcome(p.key, room).Fits? {
      OneOutcome(value, room - PutOutcome(p.key, room).n);
    }
    OutcomesConcat([key], [value], room);
    assert PairPieces(p) == [key] + [value];
    hide PutOutcome, Sizable, Outcomes;
  }

  /** A label and its value. */
  method PutPair(buffer: array<byte>, at: nat, p: Pair) returns (o: Outcome)
    requires at <= buffer.Length && Sizable(p.key) && Sizable(p.value)
    modifies buffer
    ensures o == Outcomes(PairPieces(p), buffer.Length - at)
    ensures o.Fits? ==> o.n == |PairBytes(p)| && Wrote(old(buffer[..]), buffer[..], at, PairBytes(p))
  {
    hide SingularBytes, Sizable, Wrote, Outcomes, Overruns, SingularRoom;
    ghost var s0 := buffer[..];
    PairOutcome(p, buffer.Length - at);
    var label_ := PutSingular(buffer, at, p.key);
    if !label_.Fits? { return label_; }
    ghost var s1 := buffer[..];
    var res := PutSingular(buffer, at + label_.n, p.value);
    if !res.Fits? { return res; }
    WroteMore(s0, s1, buffer[..], at, SingularBytes(p.key), SingularBytes(p.value));
    return Fits(label_.n + res.n);
  }

  lemma {:induction false} WroteFits(before: seq<byte>, after: seq<byte>, at: nat, bytes: seq<byte>)
    requires Wrote(before, after, at, bytes)
    ensures at + |bytes| <= |after|
  {
  }

  /** `prv_serializeName`: the name is composed in a buffer of its own. */
  method SerializeName(parent: seq<byte>, id: uint16, buffer: array<byte>, at: nat) returns (o: Outcome)
    requires at <= buffer.Length
    modifies buffer
    ensures var name := parent + Decimal.Digits(id);
            if |name| > MAX_STRING_LEN then o == Refused
            else
              && o == Outcomes(PairPieces(Pair(Unsigned(NAME_LABEL), Str(name))), buffer.Length - at)
              && (o.Fits? ==> o.n == |PairBytes(Pair(Unsigned(NAME_LABEL), Str(name)))|
                              && Wrote(old(buffer[..]), buffer[..], at, PairBytes(Pair(Unsigned(NAME_LABEL), Str(name)))))
  {
    if |parent| > MAX_STRING_LEN { return Refused; }
    var uriStr := new byte[MAX_STRING_LEN];
    CopyBytes(uriStr, 0, parent);
    assert uriStr[..|parent|] == parent;
    var res := Decimal.PrintUnsigned(id, uriStr, |parent|, MAX_STRING_LEN - |parent|);
    if res == 0 { return Refused; }
    var uriLen := |parent| + res;
    assert uriStr[..uriLen] == parent + Decimal.Digits(id);
    o := PutPair(buffer, at, Pair(Unsigned(NAME_LABEL), Str(uriStr[..uriLen])));
  }

  // The three parts of a record, each possibly absent.

  function BasePart(base: seq<byte>): seq<byte>
    requires |base| <= UINT64_MAX
  {
    if base == [] then [] else PairBytes(Pair(Integer(BASE_NAME_LABEL), Str(base)))
  }

  function NamePart(name: seq<byte>): seq<byte>
    requires |name| <= UINT64_MAX
  {
    if name == [] then [] else PairBytes(Pair(Unsigned(NAME_LABEL), Str(name)))
  }

  function ValuePart(value: Option<Value>): seq<byte>
    requires value.Some? ==> Sizable(value.value)
  {
    if value.None? then [] else PairBytes(Pair(ValueKey(value.value), value.value))
  }

  function BasePieces(base: seq<byte>): seq<Piece>
  {
    if base == [] then [] else PairPieces(Pair(Integer(BASE_NAME_LABEL), Str(base)))
  }

  function NamePieces(name: seq<byte>): seq<Piece>
  {
    if name == [] then [] else PairPieces(Pair(Unsigned(NAME_LABEL), Str(name)))
  }

  function ValuePieces(value: Option<Value>): seq<Piece>
  {
    if value.None? then [] else PairPieces(Pair(ValueKey(value.value), value.value))
  }

  lemma {:induction false} OnePairPieces(p: Pair)
    ensures PairsPieces([p]) == PairPieces(p)
  {
    hide PairPieces;
    assert [p][1..] == [];
  }

  lemma {:induction false} ConsPairs(p: Pair, more: seq<Pair>)
    requires Sizable(p.key) && Sizable(p.value) && SizablePairs(more)
    ensures SizablePairs([p] + more) && PairsBytes([p] + more) == PairBytes(p) + PairsBytes(more)
  {
    hide PairBytes, Sizable;
    assert ([p] + more)[1..] == more;
  }

  lemma {:induction false} PairsBytesConcat(a: seq<Pair>, b: seq<Pair>)
    requires SizablePairs(a) && SizablePairs(b)
    ensures SizablePairs(a + b) && PairsBytes(a + b) == PairsBytes(a) + PairsBytes(b)
    decreases a
  {
    if a == [] {
      assert a + b == b;
    } else {
      hide PairBytes, PairsBytes, Sizable;
      var (p, more) := (a[0], a[1..]);
      assert a == [p] + more && a + b == [p] + (more + b);
      PairsBytesConcat(more, b);
      ConsPairs(p, more);
      ConsPairs(p, more + b);
      ConcatAssociative(PairBytes(p), PairsBytes(more), PairsBytes(b));
    }
  }

  lemma {:induction false} OnePair(p: Pair)
    requires Sizable(p.key) && Sizable(p.value)
    ensures SizablePairs([p]) && PairsBytes([p]) == PairBytes(p)
  {
    assert [p][1..] == [];
  }

  lemma {:induction false} ItemParts(item: Item)
    requires SizableItem(item)
    ensures ItemBytes(item) == HeadBytes(MAP, |Pairs(item)|) + BasePart(item.base) + NamePart(item.name) + ValuePart(item.value)
  {
    var a := if item.base != [] then [Pair(Integer(BASE_NAME_LABEL), Str(item.base))] else [];
    var b := if item.name != [] then [Pair(Unsigned(NAME_LABEL), Str(item.name))] else [];
    var c := if item.value.Some? then [Pair(ValueKey(item.value.value), item.value.value)] else [];
    assert Pairs(item) == a + b + c;
    hide PairBytes, HeadBytes;
    if item.base != [] { OnePair(a[0]); }
    if item.name != [] { OnePair(b[0]); }
    if item.value.Some? { OnePair(c[0]); }
    PairsBytesConcat(a, b);
    PairsBytesConcat(a + b, c);
    var h := HeadBytes(MAP, |Pairs(item)|);
    ConcatAssociative(h, PairsBytes(a), PairsBytes(b));
    ConcatAssociative(h, PairsBytes(a) + PairsBytes(b), PairsBytes(c));
  }

  method SerializeBasePart(base: seq<byte>, buffer: array<byte>, at: nat) returns (o: Outcome)
    requires at <= buffer.Length && |base| <= UINT64_MAX
    modifies buffer
    ensures o == Outcomes(BasePieces(base), buffer.Length - at)
    ensures o.Fits? ==> o.n == |BasePart(base)| && Wrote(old(buffer[..]), buffer[..], at, BasePart(base))
  {
    if base == [] { return Fits(0); }
    o := PutPair(buffer, at, Pair(Integer(BASE_NAME_LABEL), Str(base)));
  }

  method SerializeValuePart(value: Option<Value>, buffer: array<byte>, at: nat) returns (o: Outcome)
    requires at <= buffer.Length && (value.Some? ==> Sizable(value.value))
    modifies buffer
    ensures o == Outcomes(ValuePieces(value), buffer.Length - at)
    ensures o.Fits? ==> o.n == |ValuePart(value)| && Wrote(old(buffer[..]), buffer[..], at, ValuePart(value))
  {
    if value.None? { return Fits(0); }
    o := PutPair(buffer, at, Pair(ValueKey(value.value), value.value));
  }

  method SerializeNamePart(named: bool, parent: seq<byte>, id: uint16, buffer: array<byte>, at: nat) returns (o: Outcome)
    requires at <= buffer.Length && |parent + Decimal.Digits(id)| <= UINT64_MAX
    modifies buffer
    ensures var name := if named then parent + Decimal.Digits(id) else [];
            && Agrees(o, |name| <= MAX_STRING_LEN, Outcomes(NamePieces(name), buffer.Length - at))
            && (o.Fits? ==> o.n == |NamePart(name)| && Wrote(old(buffer[..]), buffer[..], at, NamePart(name)))
  {
    if !named { return Fits(0); }
    o := SerializeName(parent, id, buffer, at);
  }

  /** The record of one node. */
  function RecordItem(node: Node, base: seq<byte>, named: bool, parent: seq<byte>): Item
  {
    Item(base, if named then parent + Decimal.Digits(node.id) else [], ValueOf(node))
  }

  /** The start of a record: how many labels it has, and the base name. */
  function StartBytes(count: nat, base: seq<byte>): seq<byte>
    requires count <= 3 && |base| <= UINT64_MAX
  {
    HeadBytes(MAP, count) + BasePart(base)
  }

  /** The rest of a record: its name and value. */
  function RestBytes(name: seq<byte>, value: Option<Value>): seq<byte>
    requires |name| <= UINT64_MAX && (value.Some? ==> Sizable(value.value))
  {
    NamePart(name) + ValuePart(value)
  }

  function StartPieces(count: nat, base: seq<byte>): seq<Piece>
  {
    [Start(count)] + BasePieces(base)
  }

  function RestPieces(name: seq<byte>, value: Option<Value>): seq<Piece>
  {
    NamePieces(name) + ValuePieces(value)
  }

  lemma {:induction false} ItemHalves(item: Item)
    requires SizableItem(item)
    ensures ItemBytes(item) == StartBytes(|Pairs(item)|, item.base) + RestBytes(item.name, item.value)
  {
    ItemParts(item);
    hide HeadBytes, BasePart, NamePart, ValuePart, ItemBytes, Pairs;
    ConcatAssociative(StartBytes(|Pairs(item)|, item.base), NamePart(item.name), ValuePart(item.value));
  }

  lemma {:induction false} ItemPiecesHalves(item: Item)
    ensures ItemPieces(item) == StartPieces(|Pairs(item)|, item.base) + RestPieces(item.name, item.value)
  {
    var a := if item.base != [] then [Pair(Integer(BASE_NAME_LABEL), Str(item.base))] else [];
    var b := if item.name != [] then [Pair(Unsigned(NAME_LABEL), Str(item.name))] else [];
    var c := if item.value.Some? then [Pair(ValueKey(item.value.value), item.value.value)] else [];
    assert Pairs(item) == a + b + c;
    hide PairPieces;
    if item.base != [] { OnePairPieces(a[0]); }
    if item.name != [] { OnePairPieces(b[0]); }
    if item.value.Some? { OnePairPieces(c[0]); }
    PairsPiecesConcat(a, b);
    PairsPiecesConcat(a + b, c);
    var start := [Start(|Pairs(item)|)];
    ConcatAssociative(start, PairsPieces(a), PairsPieces(b));
    ConcatAssociative(start, PairsPieces(a) + PairsPieces(b), PairsPieces(c));
    ConcatAssociative(start + PairsPieces(a), PairsPieces(b), PairsPieces(c));
  }

  method SerializeStart(count: nat, base: seq<byte>, buffer: array<byte>, at: nat) returns (o: Outcome)
    requires at <= buffer.Length && count <= 3 && |base| <= UINT64_MAX
    modifies buffer
    ensures o == Outcomes(StartPieces(count, base), buffer.Length - at)
    ensures o.Fits? ==> o.n == |StartBytes(count, base)| && Wrote(old(buffer[..]), buffer[..], at, StartBytes(count, base))
  {
    hide HeadBytes, BasePart, BasePieces, Wrote;
    ghost var s0 := buffer[..];
    ghost var start := Start(count);
    assert [start][1..] == [];
    assert Outcomes([start], buffer.Length - at) == PieceOutcome(start, buffer.Length - at);
    var first := PutNumber(buffer, at, MAP, count);
    if !first.Fits? {
      BothAgree([start], BasePieces(base), buffer.Length - at, true, first, Refused);
      return first;
    }
    ghost var s1 := buffer[..];
    WroteFits(s0, s1, at, HeadBytes(MAP, count));
    hide Outcomes;
    var more := SerializeBasePart(base, buffer, at + first.n);
    BothAgree([start], BasePieces(base), buffer.Length - at, true, first, more);
    if !more.Fits? { return more; }
    WroteMore(s0, s1, buffer[..], at, HeadBytes(MAP, count), BasePart(base));
    return Fits(first.n + more.n);
  }

  method SerializeRest(named: bool, parent: seq<byte>, id: uint16, value: Option<Value>, buffer: array<byte>, at: nat) returns (o: Outcome)
    requires at <= buffer.Length && |parent + Decimal.Digits(id)| <= UINT64_MAX && (value.Some? ==> Sizable(value.value))
    modifies buffer
    ensures var name := if named then parent + Decimal.Digits(id) else [];
            && Agrees(o, |name| <= MAX_STRING_LEN, Outcomes(RestPieces(name, value), buffer.Length - at))
            && (o.Fits? ==> o.n == |RestBytes(name, value)| && Wrote(old(buffer[..]), buffer[..], at, RestBytes(name, value)))
  {
    hide NamePart, ValuePart, NamePieces, ValuePieces, Wrote, Decimal.Digits, Outcomes;
    ghost var name := if named then parent + Decimal.Digits(id) else [];
    ghost var s0 := buffer[..];
    var first := SerializeNamePart(named, parent, id, buffer, at);
    if !first.Fits? {
      BothAgree(NamePieces(name), ValuePieces(value), buffer.Length - at, |name| <= MAX_STRING_LEN, first, Refused);
      return first;
    }
    ghost var s1 := buffer[..];
    WroteFits(s0, s1, at, NamePart(name));
    var more := SerializeValuePart(value, buffer, at + first.n);
    BothAgree(NamePieces(name), ValuePieces(value), buffer.Length - at, |name| <= MAX_STRING_LEN, first, more);
    if !more.Fits? { return more; }
    WroteMore(s0, s1, buffer[..], at, NamePart(name), ValuePart(value));
    return Fits(first.n + more.n);
  }

  /** Both halves of a record. */
  method SerializeHalves(count: nat, base: seq<byte>, named: bool, parent: seq<byte>, id: uint16, value: Option<Value>,
                         buffer: array<byte>, at: nat, ghost name: seq<byte>) returns (o: Outcome)
    requires at <= buffer.Length && count <= 3 && |base| <= UINT64_MAX && |parent + Decimal.Digits(id)| <= UINT64_MAX
    requires (value.Some? ==> Sizable(value.value)) && name == if named then parent + Decimal.Digits(id) else []
    modifies buffer
    ensures var all := StartBytes(count, base) + RestBytes(name, value);
            && Agrees(o, |name| <= MAX_STRING_LEN, Outcomes(StartPieces(count, base) + RestPieces(name, value), buffer.Length - at))
            && (o.Fits? ==> o.n == |all| && Wrote(old(buffer[..]), buffer[..], at, all))
  {
    hide StartBytes, RestBytes, StartPieces, RestPieces, Wrote, Sizable, Decimal.Digits, Outcomes;
    ghost var s0 := buffer[..];
    var first := SerializeStart(count, base, buffer, at);
    if !first.Fits? {
      BothAgree(StartPieces(count, base), RestPieces(name, value), buffer.Length - at, |name| <= MAX_STRING_LEN, first, Refused);
      return first;
    }
    ghost var s1 := buffer[..];
    WroteFits(s0, s1, at, StartBytes(count, base));
    var more := SerializeRest(named, parent, id, value, buffer, at + first.n);
    BothAgree(StartPieces(count, base), RestPieces(name, value), buffer.Length - at, |name| <= MAX_STRING_LEN, first, more);
    if !more.Fits? { return more; }
    WroteMore(s0, s1, buffer[..], at, StartBytes(count, base), RestBytes(name, value));
    return Fits(first.n + more.n);
  }

  /** `prv_serializeTlv`: one record, with the outcome of its pieces. */
  method SerializeRecord(node: Node, base: seq<byte>, named: bool, parent: seq<byte>, buffer: array<byte>, at: nat)
    returns (o: Outcome)
    requires at <= buffer.Length && |parent + Decimal.Digits(node.id)| <= UINT64_MAX
    requires SizableItem(RecordItem(node, base, named, parent))
    modifies buffer
    ensures var item := RecordItem(node, base, named, parent);
            && Agrees(o, |item.name| <= MAX_STRING_LEN, Outcomes(ItemPieces(item), buffer.Length - at))
            && (o.Fits? ==> o.n == |ItemBytes(item)| && Wrote(old(buffer[..]), buffer[..], at, ItemBytes(item)))
  {
    ghost var item := RecordItem(node, base, named, parent);
    var count := (if base != [] then 1 else 0) + (if named then 1 else 0) + (if node.Resource? then 1 else 0);
    assert count == |Pairs(item)|;
    ItemHalves(item);
    ItemPiecesHalves(item);
    hide StartBytes, RestBytes, StartPieces, RestPieces, Pairs, Decimal.Digits, ItemBytes, ItemPieces, Wrote, Outcomes;
    o := SerializeHalves(count, base, named, parent, node.id, ValueOf(node), buffer, at, item.name);
  }

  // ----- trees --------------------------------------------------------------------------------

  /** The base name that is still to be written before sibling `index`. */
  function Pending(index: nat, base: seq<byte>): seq<byte>
  {
    if index == 0 then base else []
  }

  lemma {:induction false} SizableParts(a: seq<Item>, b: seq<Item>)
    requires SizableItems(a + b)
    ensures SizableItems(a) && SizableItems(b)
  {
    hide SizableItem;
    forall x | x in a || x in b ensures SizableItem(x) {
      assert x in a + b;
    }
  }

  lemma {:induction false} NameableAt(nodes: seq<Node>, index: nat, parent: seq<byte>, named: bool)
    requires Nameable(nodes, parent, named) && index < |nodes|
    ensures NodeNameable(nodes[index], parent, named)
  {
    hide NodeNameable;
    if index > 0 {
      NameableAt(nodes[1..], index - 1, parent, named);
    }
  }

  /** The records of the first `index` siblings. */
  predicate IsPart(done: seq<Item>, nodes: seq<Node>, index: nat, parent: seq<byte>, named: bool, base: seq<byte>) {
    index <= |nodes| && done == Items(nodes[..index], parent, named, base)
  }

  lemma {:induction false} PartStep(done: seq<Item>, nodes: seq<Node>, index: nat, parent: seq<byte>, named: bool, base: seq<byte>)
    requires index < |nodes| && IsPart(done, nodes, index, parent, named, base)
    ensures IsPart(done + NodeItems(nodes[index], parent, named, Pending(index, base)), nodes, index + 1, parent, named, base)
  {
    assert nodes[..index + 1] == nodes[..index] + [nodes[index]];
    ItemsConcat(nodes[..index], [nodes[index]], parent, named, base);
    OneNode(nodes[index], parent, named, Pending(index, base));
  }

  lemma {:induction false} PartOf(done: seq<Item>, nodes: seq<Node>, index: nat, parent: seq<byte>, named: bool, base: seq<byte>)
    requires 0 < index <= |nodes| && IsPart(done, nodes, index, parent, named, base)
    ensures Items(nodes, parent, named, base) == done + Items(nodes[index..], parent, named, [])
    ensures index == |nodes| ==> done == Items(nodes, parent, named, base)
  {
    assert nodes == nodes[..index] + nodes[index..];
    ItemsConcat(nodes[..index], nodes[index..], parent, named, base);
    hide Items;
    if index == |nodes| { assert nodes[..index] == nodes; }
  }

  /** The next sibling of a part that was already written. */
  lemma {:induction false} SiblingStep(done: seq<Item>, next: seq<Item>, nodes: seq<Node>, index: nat, parent: seq<byte>, named: bool, base: seq<byte>, all: seq<Item>)
    requires index < |nodes| && IsPart(done, nodes, index, parent, named, base)
    requires next == NodeItems(nodes[index], parent, named, Pending(index, base))
    requires all == Items(nodes, parent, named, base) && SizableItems(all)
    ensures IsPart(done + next, nodes, index + 1, parent, named, base)
    ensures SizableItems(done) && SizableItems(next) && done + next <= all
    ensures index + 1 == |nodes| ==> done + next == all
  {
    hide Items, NodeItems, SizableItems, IsPart;
    PartStep(done, nodes, index, parent, named, base);
    PartOf(done + next, nodes, index + 1, parent, named, base);
    var rest := Items(nodes[index + 1..], parent, named, []);
    SizableParts(done + next, rest);
    SizableParts(done, next);
  }

  lemma {:induction false} OneNode(n: Node, parent: seq<byte>, named: bool, base: seq<byte>)
    ensures Items([n], parent, named, base) == NodeItems(n, parent, named, base)
  {
    hide NodeItems;
    assert [n][1..] == [];
  }

  lemma {:induction false} OneItem(item: Item)
    requires SizableItem(item)
    ensures SizableItems([item]) && ItemsBytes([item]) == ItemBytes(item)
  {
    hide ItemBytes, SizableItem;
    assert [item][1..] == [];
  }

  /** How many bytes and records `prv_serializeData` has written, or that it failed or ran behind the end. */
  datatype Written = Failed(overran: bool) | Written(n: nat, records: nat)

  function OutcomeOf(w: Written): Outcome
  {
    if w.Written? then Fits(w.n) else if w.overran then Overran else Refused
  }

  /** These records were written at `at`, and counted; and they fit. */
  ghost predicate Done(before: seq<byte>, after: seq<byte>, at: nat, items: seq<Item>, w: Written) {
    && w.Written? && SizableItems(items) && w.n == |ItemsBytes(items)| && w.records == |items|
    && at + w.n <= |after| && Wrote(before, after, at, ItemsBytes(items))
    && Outcomes(Pieces(items), |after| - at) == Fits(w.n)
  }

  /** Writing these records with this much room ends as it should. */
  predicate Ends(w: Written, nameable: bool, items: seq<Item>, room: nat) {
    Agrees(OutcomeOf(w), nameable, Outcomes(Pieces(items), room))
  }

  /** What stops a part of the records stops all of them. */
  lemma {:induction false} PartStops(done: seq<Item>, next: seq<Item>, all: seq<Item>, room: nat, n: nat, x: Written, part: bool, whole: bool)
    requires Outcomes(Pieces(done), room) == Fits(n) && done + next <= all
    requires x.Failed? && n <= room && Ends(x, part, next, room - n) && (whole ==> part)
    ensures Ends(x, whole, all, room)
  {
    var rest := all[|done + next|..];
    assert all == done + next + rest;
    hide Outcomes, Pieces, Agrees;
    PiecesConcat(done, next);
    PiecesConcat(done + next, rest);
    PiecesStop(Pieces(done), Pieces(next), Pieces(rest), room, n, OutcomeOf(x), part, whole);
  }

  lemma {:induction false} PiecesStop(a: seq<Piece>, b: seq<Piece>, c: seq<Piece>, room: nat, n: nat, o: Outcome, part: bool, whole: bool)
    requires Outcomes(a, room) == Fits(n) && n <= room && !o.Fits?
    requires Agrees(o, part, Outcomes(b, room - n)) && (whole ==> part)
    ensures Agrees(o, whole, Outcomes(a + b + c, room))
  {
    hide Outcomes;
    OutcomesConcat(a, b, room);
    OutcomesConcat(a + b, c, room);
  }

  lemma {:induction false} PartsFit(a: seq<Item>, b: seq<Item>, room: nat, n: nat, m: nat)
    requires Outcomes(Pieces(a), room) == Fits(n) && n <= room && Outcomes(Pieces(b), room - n) == Fits(m)
    ensures Outcomes(Pieces(a + b), room) == Fits(n + m)
  {
    hide Outcomes, Pieces;
    PiecesConcat(a, b);
    OutcomesConcat(Pieces(a), Pieces(b), room);
  }

  function Plus(v: Written, w: Written): Written
    requires v.Written? && w.Written?
  {
    Written(v.n + w.n, v.records + w.records)
  }

  lemma {:induction false} DoneMore(s0: seq<byte>, s1: seq<byte>, s2: seq<byte>, at: nat, a: seq<Item>, b: seq<Item>, v: Written, w: Written)
    requires Done(s0, s1, at, a, v) && Done(s1, s2, at + v.n, b, w)
    ensures v.Written? && w.Written? && Done(s0, s2, at, a + b, Plus(v, w))
  {
    hide ItemsBytes, Wrote, SizableItems, Done, Outcomes, Pieces;
    DoneFacts(s0, s1, at, a, v);
    DoneFacts(s1, s2, at + v.n, b, w);
    BothFit(s0, s1, s2, at, a, b, v, w, |s2| - at);
    ItemsBytesConcat(a, b);
    WroteFrom(s0, s1, s2, at, at + v.n, ItemsBytes(a), ItemsBytes(b));
    MakeDone(s0, s2, at, a + b, Plus(v, w), |s2| - at);
  }

  lemma {:induction false} BothFit(s0: seq<byte>, s1: seq<byte>, s2: seq<byte>, at: nat, a: seq<Item>, b: seq<Item>,
                                   v: Written, w: Written, room: nat)
    requires Done(s0, s1, at, a, v) && Done(s1, s2, at + v.n, b, w) && room == |s2| - at
    ensures Outcomes(Pieces(a + b), room) == Fits(Plus(v, w).n)
  {
    hide ItemsBytes, SizableItems, Outcomes, Pieces;
    assert |s1| == |s2|;
    DoneRoom(s0, s1, at, a, v, room);
    DoneRoom(s1, s2, at + v.n, b, w, room - v.n);
    hide Done;
    PartsFit(a, b, room, v.n, w.n);
  }

  lemma {:induction false} DoneRoom(before: seq<byte>, after: seq<byte>, at: nat, items: seq<Item>, w: Written, room: int)
    requires Done(before, after, at, items, w) && room == |after| - at
    ensures 0 <= room && Outcomes(Pieces(items), room) == Fits(w.n)
  {
    hide ItemsBytes, SizableItems, Wrote;
  }

  lemma {:induction false} MakeDone(before: seq<byte>, after: seq<byte>, at: nat, items: seq<Item>, w: Written, room: nat)
    requires w.Written? && SizableItems(items) && w.n == |ItemsBytes(items)| && w.records == |items|
    requires Wrote(before, after, at, ItemsBytes(items))
    requires room == |after| - at && Outcomes(Pieces(items), room) == Fits(w.n)
    ensures Done(before, after, at, items, w)
  {
    hide ItemsBytes, SizableItems;
  }

  lemma {:induction false} WroteFrom(s0: seq<byte>, s1: seq<byte>, s2: seq<byte>, at: nat, middle: nat, x: seq<byte>, y: seq<byte>)
    requires Wrote(s0, s1, at, x) && Wrote(s1, s2, middle, y) && middle == at + |x|
    ensures Wrote(s0, s2, at, x + y) && |x + y| == |x| + |y|
  {
    WroteMore(s0, s1, s2, at, x, y);
  }

  lemma {:induction false} DoneNothing(s: seq<byte>, at: nat)
    requires at <= |s|
    ensures Done(s, s, at, [], Written(0, 0))
  {
  }

  lemma {:induction false} DoneFacts(before: seq<byte>, after: seq<byte>, at: nat, items: seq<Item>, w: Written)
    requires Done(before, after, at, items, w)
    ensures w.Written? && SizableItems(items) && w.n == |ItemsBytes(items)| && w.records == |items| && at + w.n <= |after|
    ensures Wrote(before, after, at, ItemsBytes(items))
  {
    hide ItemsBytes, SizableItems, Wrote;
  }

  /** The branch of `prv_serializeData` for a node that is a record of its own. */
  method SerializeLeaf(node: Node, base: seq<byte>, named: bool, parent: seq<byte>, buffer: array<byte>, at: nat,
                       ghost items: seq<Item>)
    returns (w: Written)
    requires at <= buffer.Length && |parent| <= MAX_STRING_LEN && IsRecord(node)
    requires items == NodeItems(node, parent, named, base) && SizableItems(items)
    modifies buffer
    ensures if w.Failed? then Ends(w, NodeNameable(node, parent, named), items, buffer.Length - at)
            else Done(old(buffer[..]), buffer[..], at, items, w)
  {
    Decimal.DigitsLength16(node.id);
    ghost var item := RecordItem(node, base, named, parent);
    assert items == [item];
    assert SizableItem(item) by { assert item in [item]; }
    OneItem(item);
    OneItemPieces(item);
    hide SizableItem, ItemBytes, ItemPieces, SizableItems, ItemsBytes, Outcomes, Pieces;
    ghost var s0 := buffer[..];
    var o := SerializeRecord(node, base, named, parent, buffer, at);
    if !o.Fits? { return Failed(o.Overran?); }
    WroteFits(s0, buffer[..], at, ItemBytes(item));
    return Written(o.n, 1);
  }

  /** `prv_serializeData`: a node and everything below it. */
  method SerializeNode(node: Node, base: seq<byte>, named: bool, parent: seq<byte>, buffer: array<byte>, at: nat,
                       ghost items: seq<Item>)
    returns (w: Written)
    requires at <= buffer.Length && |parent| <= MAX_STRING_LEN
    requires items == NodeItems(node, parent, named, base) && SizableItems(items)
    modifies buffer
    ensures if w.Failed? then Ends(w, NodeNameable(node, parent, named), items, buffer.Length - at)
            else Done(old(buffer[..]), buffer[..], at, items, w)
    decreases node, 0
  {
    Decimal.DigitsLength16(node.id);
    if IsRecord(node) {
      w := SerializeLeaf(node, base, named, parent, buffer, at, items);
    } else {
      var uriStr := new byte[MAX_STRING_LEN];
      CopyBytes(uriStr, 0, parent);
      var res := Decimal.PrintUnsigned(node.id, uriStr, |parent|, MAX_STRING_LEN - |parent|);
      if res == 0 { return Failed(false); }
      var uriLen := |parent| + res;
      if uriLen >= MAX_STRING_LEN { return Failed(false); }
      assert uriStr[..uriLen] == parent + Decimal.Digits(node.id);
      uriStr[uriLen] := SLASH;
      var prefix := uriStr[..uriLen + 1];
      assert prefix == uriStr[..uriLen] + [SLASH] == parent + Decimal.Digits(node.id) + [SLASH];
      hide Items, SizableItems, ItemsBytes, Wrote, Decimal.Digits, Nameable, Done, Outcomes, Pieces;
      w := SerializeSiblings(node.children, base, named, prefix, buffer, at, items);
    }
  }

  lemma {:induction false} OneItemPieces(item: Item)
    ensures Pieces([item]) == ItemPieces(item)
  {
    hide ItemPieces;
    assert [item][1..] == [];
  }

  /** The first `index` siblings were written. */
  ghost predicate Progress(before: seq<byte>, after: seq<byte>, at: nat, done: seq<Item>, w: Written,
                           nodes: seq<Node>, index: nat, parent: seq<byte>, named: bool, base: seq<byte>) {
    Done(before, after, at, done, w) && IsPart(done, nodes, index, parent, named, base)
  }

  lemma {:induction false} ProgressStart(s: seq<byte>, at: nat, nodes: seq<Node>, parent: seq<byte>, named: bool, base: seq<byte>)
    requires at <= |s|
    ensures Progress(s, s, at, [], Written(0, 0), nodes, 0, parent, named, base)
  {
    DoneNothing(s, at);
    assert nodes[..0] == [];
    hide Done;
  }

  lemma {:induction false} ProgressEnd(before: seq<byte>, after: seq<byte>, at: nat, done: seq<Item>, w: Written,
                    nodes: seq<Node>, parent: seq<byte>, named: bool, base: seq<byte>)
    requires Progress(before, after, at, done, w, nodes, |nodes|, parent, named, base)
    ensures done == Items(nodes, parent, named, base) && Done(before, after, at, done, w)
  {
    assert nodes[..|nodes|] == nodes;
    hide Done, Items;
  }

  /** One iteration of the loop of `prv_serializeData`. */
  method SerializeNext(nodes: seq<Node>, index: nat, base: seq<byte>, named: bool, parent: seq<byte>, buffer: array<byte>, at: nat,
                       v: Written, ghost s0: seq<byte>, ghost done: seq<Item>, ghost items: seq<Item>)
    returns (w: Written, ghost longer: seq<Item>)
    requires index < |nodes| && |parent| <= MAX_STRING_LEN
    requires items == Items(nodes, parent, named, base) && SizableItems(items)
    requires Progress(s0, buffer[..], at, done, v, nodes, index, parent, named, base)
    modifies buffer
    ensures if w.Failed? then at <= buffer.Length && Ends(w, Nameable(nodes, parent, named), items, buffer.Length - at)
            else Progress(s0, buffer[..], at, longer, w, nodes, index + 1, parent, named, base)
    decreases nodes, 1
  {
    hide Done, Items, NodeItems, ItemsBytes, SizableItems, Nameable, NodeNameable, IsPart, Ends, Outcomes, Pieces;
    ghost var s1 := buffer[..];
    ghost var next := NodeItems(nodes[index], parent, named, Pending(index, base));
    longer := done + next;
    DoneFacts(s0, s1, at, done, v);
    DoneRoom(s0, s1, at, done, v, buffer.Length - at);
    SiblingStep(done, next, nodes, index, parent, named, base, items);
    var x := SerializeNode(nodes[index], Pending(index, base), named, parent, buffer, at + v.n, next);
    if x.Failed? {
      if Nameable(nodes, parent, named) { NameableAt(nodes, index, parent, named); }
      PartStops(done, next, items, buffer.Length - at, v.n, x, NodeNameable(nodes[index], parent, named), Nameable(nodes, parent, named));
      w := x;
    } else {
      DoneMore(s0, s1, buffer[..], at, done, next, v, x);
      w := Plus(v, x);
    }
  }

  /** The loop of `prv_serializeData` over the children. */
  method SerializeSiblings(nodes: seq<Node>, base: seq<byte>, named: bool, parent: seq<byte>, buffer: array<byte>, at: nat,
                           ghost items: seq<Item>)
    returns (w: Written)
    requires at <= buffer.Length && |parent| <= MAX_STRING_LEN
    requires items == Items(nodes, parent, named, base) && SizableItems(items)
    modifies buffer
    ensures if w.Failed? then Ends(w, Nameable(nodes, parent, named), items, buffer.Length - at)
            else Done(old(buffer[..]), buffer[..], at, items, w)
    decreases nodes, 2
  {
    hide Done, Items, NodeItems, ItemsBytes, SizableItems, Nameable, NodeNameable, IsPart, Ends, Progress;
    ghost var s0 := buffer[..];
    ghost var done: seq<Item> := [];
    ProgressStart(s0, at, nodes, parent, named, base);
    w := Written(0, 0);
    var index := 0;
    while index < |nodes|
      invariant 0 <= index <= |nodes|
      invariant Progress(s0, buffer[..], at, done, w, nodes, index, parent, named, base)
    {
      w, done := SerializeNext(nodes, index, base, named, parent, buffer, at, w, s0, done, items);
      if w.Failed? { return; }
      index := index + 1;
    }
    ProgressEnd(s0, buffer[..], at, done, w, nodes, parent, named, base);
    NotFailed(s0, buffer[..], at, items, w);
  }

  lemma {:induction false} NotFailed(before: seq<byte>, after: seq<byte>, at: nat, items: seq<Item>, w: Written)
    requires Done(before, after, at, items, w)
    ensures w.Written?
  {
  }

  // ----- documents ----------------------------------------------------------------------------

  function DepthOf(uri: Option<Path>): nat
  {
    if uri.Some? then |uri.value| else 0
  }

  /** Are the records of this target named relative to the base name? */
  predicate IsNamed(uri: Option<Path>, target: Target)
    requires uri.Some? ==> |uri.value| <= 4
  {
    BaseText(uri, target.level) == [] || target.level > DepthOf(uri)
  }

  /** The base name, composed in a buffer of its own. */
  method ComposeBase(uri: Option<Path>, level: nat) returns (base: seq<byte>)
    requires uri.Some? ==> |uri.value| <= 4
    ensures base == BaseText(uri, level)
  {
    if uri.Some? { UriFits(uri.value); TextLength(uri.value); }
    hide Text;
    var baseUriStr := new byte[MAX_STRING_LEN];
    var baseUriLen := UriToString(uri, baseUriStr);
    assert baseUriLen != -1;
    base := baseUriStr[..baseUriLen];
    if baseUriLen > 1 && DepthOf(uri) < 3 {
      base := base + [SLASH];
    } else if baseUriLen > 1 && DepthOf(uri) < level {
      base := base + [SLASH];
    }
  }

  /** A target without nodes, or the first nodes of one. */
  function Shortened(t: Target, k: nat): Target
    requires k <= |t.nodes|
  {
    Target(t.nodes[..k], t.level)
  }

  lemma {:induction false} ItemsCount(items: seq<Item>)
    requires SizableItems(items)
    ensures |items| <= |ItemsBytes(items)|
  {
    if items != [] {
      ItemsCount(items[1..]);
    }
  }

  /** The document in its own buffer, behind the number of its records. */
  method Assemble(body: seq<byte>, ghost items: seq<Item>, records: nat) returns (n: nat, out: array<byte>)
    requires SizableItems(items) && body == ItemsBytes(items) && records == |items| && |body| <= BUFFER_SIZE
    ensures |items| <= UINT64_MAX && n > 0 && n <= out.Length && out[..n] == DocumentBytes(items)
  {
    ItemsCount(items);
    hide ItemsBytes, SizableItems;
    out := new byte[|body| + 3];
    var res := SerializeHead(out, 0, ARRAY, records);
    ghost var s1 := out[..];
    assert out[..res] == HeadBytes(ARRAY, records);
    CopyBytes(out, res, body);
    n := res + |body|;
    assert out[..n] == s1[..res] + body;
  }

  predicate IsFull(w: Written, length: nat) {
    w.Written? && w.n >= length
  }

  /** The loop of `senml_cbor_serialize`; it also stops, without an error, when the buffer is exactly full. */
  method SerializeTargets(nodes: seq<Node>, base: seq<byte>, named: bool, parent: seq<byte>, buffer: array<byte>, ghost items: seq<Item>)
    returns (w: Written, ghost done: seq<Item>, ghost k: nat)
    requires |parent| <= MAX_STRING_LEN
    requires items == Items(nodes, parent, named, base) && SizableItems(items)
    modifies buffer
    ensures if w.Failed? then Ends(w, Nameable(nodes, parent, named), items, buffer.Length)
            else Done(old(buffer[..]), buffer[..], 0, done, w) && IsPart(done, nodes, k, parent, named, base)
    ensures w.Written? && k < |nodes| ==> IsFull(w, buffer.Length)
  {
    hide Done, Items, NodeItems, ItemsBytes, SizableItems, Nameable, NodeNameable, IsPart, Ends, IsFull, Progress;
    ghost var s0 := buffer[..];
    done := [];
    ProgressStart(s0, 0, nodes, parent, named, base);
    w := Written(0, 0);
    var index := 0;
    while index < |nodes| && !IsFull(w, buffer.Length)
      invariant 0 <= index <= |nodes|
      invariant Progress(s0, buffer[..], 0, done, w, nodes, index, parent, named, base)
    {
      w, done := SerializeNext(nodes, index, base, named, parent, buffer, 0, w, s0, done, items);
      if w.Failed? { return w, done, index; }
      index := index + 1;
    }
    k := index;
    ProgressParts(s0, buffer[..], 0, done, w, nodes, k, parent, named, base);
  }

  lemma {:induction false} ProgressParts(before: seq<byte>, after: seq<byte>, at: nat, done: seq<Item>, w: Written,
                      nodes: seq<Node>, index: nat, parent: seq<byte>, named: bool, base: seq<byte>)
    requires Progress(before, after, at, done, w, nodes, index, parent, named, base)
    ensures w.Written? && Done(before, after, at, done, w) && IsPart(done, nodes, index, parent, named, base)
  {
    hide IsPart;
  }

  /** These bytes are the document of the first `k` nodes of a target, of fewer than all only if they fill the buffer. */
  ghost predicate IsDocument(bytes: seq<byte>, uri: Option<Path>, t: Target, k: nat)
    requires uri.Some? ==> |uri.value| <= 4
  {
    k <= |t.nodes| &&
    var items := Document(uri, Shortened(t, k));
    && SizableItems(items) && |items| <= UINT64_MAX && bytes == DocumentBytes(items)
    && (k < |t.nodes| ==> |ItemsBytes(items)| == BUFFER_SIZE)
  }

  /** What comes of writing the document of a target in the buffer the library has for it. */
  function DocumentOutcome(uri: Option<Path>, t: Target): Outcome
    requires uri.Some? ==> |uri.value| <= 4
  {
    Outcomes(Pieces(Document(uri, t)), BUFFER_SIZE)
  }

  /** Can the names in the document be composed in the room the library has for them? */
  predicate CanName(uri: Option<Path>, t: Target)
    requires uri.Some? ==> |uri.value| <= 4
  {
    Nameable(t.nodes, ParentText(BaseText(uri, t.level)), IsNamed(uri, t))
  }

  /** The length of the document, a refusal, or bytes behind the end of the buffer. */
  datatype Serialized = Length(n: nat) | Error | Overrun

  /** The serializer does with a target what its pieces come to; a name that cannot be composed may stop it earlier. */
  predicate Reports(r: Serialized, uri: Option<Path>, t: Target)
    requires uri.Some? ==> |uri.value| <= 4
  {
    var o := DocumentOutcome(uri, t);
    && (r.Overrun? ==> o.Overran?)
    && (r.Error? ==> o.Refused? || !CanName(uri, t))
    && (r.Length? ==> !o.Overran?)
  }

  lemma {:induction false} DocumentOfSome(uri: Option<Path>, t: Target)
    requires uri.Some? ==> |uri.value| <= 4
    requires t.nodes != []
    ensures Document(uri, t) == Items(t.nodes, ParentText(BaseText(uri, t.level)), IsNamed(uri, t), BaseText(uri, t.level))
  {
  }

  /** Nodes were written: the document of those that were. */
  lemma {:induction false} WrittenIsDocument(uri: Option<Path>, t: Target, done: seq<Item>, k: nat, bytes: seq<byte>, body: seq<byte>)
    requires uri.Some? ==> |uri.value| <= 4
    requires t.nodes != [] && SizableItems(done) && |done| <= UINT64_MAX && bytes == DocumentBytes(done) && body == ItemsBytes(done)
    requires IsPart(done, t.nodes, k, ParentText(BaseText(uri, t.level)), IsNamed(uri, t), BaseText(uri, t.level))
    requires 0 < k && (k < |t.nodes| ==> |body| == BUFFER_SIZE)
    ensures IsDocument(bytes, uri, t, k)
  {
    DocumentOfSome(uri, Shortened(t, k));
    hide Document, Items, ItemsBytes, DocumentBytes, SizableItems;
  }

  /** `senml_cbor_serialize` */
  method Serialize(uri: Option<Path>, nodes: seq<Node>) returns (r: Serialized, out: array<byte>, ghost k: nat)
    requires uri.Some? ==> |uri.value| <= 4
    requires FindTarget(uri, nodes).Some? ==> SizableItems(Document(uri, FindTarget(uri, nodes).value))
    ensures FindTarget(uri, nodes).None? ==> r.Error?
    ensures FindTarget(uri, nodes).Some? ==> Reports(r, uri, FindTarget(uri, nodes).value)
    ensures r.Length? ==> FindTarget(uri, nodes).Some? && 0 < r.n <= out.Length
                          && IsDocument(out[..r.n], uri, FindTarget(uri, nodes).value, k)
  {
    k := 0;
    out := new byte[0];
    var target := FindTarget(uri, nodes);
    if target.None? { return Error, out, 0; }
    var t := target.value;
    hide FindTarget, Items, ItemsBytes, DocumentBytes, SizableItems, IsDocument, Reports;
    var base := ComposeBase(uri, t.level);
    if t.nodes == [] {
      r, out := SerializeBaseAlone(uri, t, base);
      return r, out, 0;
    }
    r, out, k := SerializeTarget(uri, t, base);
  }

  /** At least one node. */
  method SerializeTarget(uri: Option<Path>, t: Target, base: seq<byte>) returns (r: Serialized, out: array<byte>, ghost k: nat)
    requires uri.Some? ==> |uri.value| <= 4
    requires t.nodes != [] && base == BaseText(uri, t.level) && SizableItems(Document(uri, t))
    ensures Reports(r, uri, t)
    ensures r.Length? ==> 0 < r.n <= out.Length && IsDocument(out[..r.n], uri, t, k)
  {
    out := new byte[0];
    DocumentOfSome(uri, t);
    ghost var items := Document(uri, t);
    var parent := ParentText(base);
    var named := IsNamed(uri, t);
    var buffer := new byte[BUFFER_SIZE];
    hide Document, Items, ItemsBytes, DocumentBytes, SizableItems, IsDocument, BaseText, IsPart, Outcomes, Pieces;
    assert |parent| <= 1;
    hide ParentText;
    ghost var s0 := buffer[..];
    var w;
    ghost var done;
    w, done, k := SerializeTargets(t.nodes, base, named, parent, buffer, items);
    if w.Failed? { return if w.overran then Overrun else Error, out, k; }
    DoneFacts(s0, buffer[..], 0, done, w);
    DoneRoom(s0, buffer[..], 0, done, w, BUFFER_SIZE);
    assert buffer[..w.n] == ItemsBytes(done);
    var n;
    n, out := Assemble(buffer[..w.n], done, w.records);
    r := Length(n);
    FirstPart(done, t.nodes, k, parent, named, base, w.n);
    PartInside(done, t.nodes, k, parent, named, base, w.n);
    WrittenIsDocument(uri, t, done, k, out[..n], buffer[..w.n]);
  }

  /** When the buffer is full to the last byte, the next record would be refused. */
  lemma {:induction false} PartInside(done: seq<Item>, nodes: seq<Node>, k: nat, parent: seq<byte>, named: bool, base: seq<byte>, n: nat)
    requires 0 < k && IsPart(done, nodes, k, parent, named, base)
    requires n <= BUFFER_SIZE && Outcomes(Pieces(done), BUFFER_SIZE) == Fits(n) && (k < |nodes| ==> n >= BUFFER_SIZE)
    ensures !Outcomes(Pieces(Items(nodes, parent, named, base)), BUFFER_SIZE).Overran?
  {
    PartOf(done, nodes, k, parent, named, base);
    var rest := Items(nodes[k..], parent, named, []);
    PiecesConcat(done, rest);
    OutcomesConcat(Pieces(done), Pieces(rest), BUFFER_SIZE);
    if rest != [] {
      assert Pieces(rest) == ItemPieces(rest[0]) + Pieces(rest[1..]);
      assert Pieces(rest)[0].Start?;
    }
  }

  lemma {:induction false} FirstPart(done: seq<Item>, nodes: seq<Node>, k: nat, parent: seq<byte>, named: bool, base: seq<byte>, n: nat)
    requires nodes != [] && IsPart(done, nodes, k, parent, named, base)
    requires SizableItems(done) && n == |ItemsBytes(done)| && (k < |nodes| ==> n >= BUFFER_SIZE)
    ensures 0 < k
  {
    assert nodes[..0] == [];
  }

  /** The base name as it is written when there is no node: without its last character. */
  function Stripped(base: seq<byte>): seq<byte>
  {
    if |base| > 1 then base[..|base| - 1] else base
  }

  lemma {:induction false} AloneDocument(uri: Option<Path>, t: Target, base: seq<byte>)
    requires uri.Some? ==> |uri.value| <= 4
    requires t.nodes == [] && base == BaseText(uri, t.level) && base != []
    ensures var (items, stripped) := (Document(uri, t), Stripped(base));
            && items == [Item(stripped, [], None)] && |stripped| <= 100 && SizableItems(items)
            && ItemsBytes(items) == StartBytes(1, stripped) && Pieces(items) == StartPieces(1, stripped)
  {
    var item := Item(Stripped(base), [], None);
    assert Document(uri, t) == [item];
    BaseShort(uri, t.level);
    hide BaseText, Document;
    assert SizableItem(item);
    OneItem(item);
    OneItemPieces(item);
    ItemHalves(item);
    ItemPiecesHalves(item);
    assert RestBytes([], None) == [] && RestPieces([], None) == [];
    hide StartBytes, StartPieces, ItemBytes, ItemPieces, ItemsBytes, Pieces;
  }

  /** No node: at most the base name, without its last character. */
  method SerializeBaseAlone(uri: Option<Path>, t: Target, base: seq<byte>) returns (r: Serialized, out: array<byte>)
    requires uri.Some? ==> |uri.value| <= 4
    requires t.nodes == [] && base == BaseText(uri, t.level) && SizableItems(Document(uri, t))
    ensures r.Length? && 0 < r.n <= out.Length && IsDocument(out[..r.n], uri, t, 0)
    ensures Reports(r, uri, t)
  {
    assert Shortened(t, 0) == t;
    var n;
    if base == [] {
      n, out := Assemble([], [], 0);
      r := Length(n);
    } else {
      var stripped := Stripped(base);
      ghost var items := Document(uri, t);
      hide StartBytes, ItemsBytes, SizableItems, DocumentBytes, BaseText, Document, Outcomes, Pieces, StartPieces;
      AloneDocument(uri, t, base);
      StartShort(1, stripped, BUFFER_SIZE);
      var buffer := new byte[BUFFER_SIZE];
      var start := SerializeStart(1, stripped, buffer, 0);
      assert buffer[..start.n] == StartBytes(1, stripped);
      n, out := Assemble(buffer[..start.n], items, 1);
      r := Length(n);
    }
  }

  lemma {:induction false} StartShort(count: nat, base: seq<byte>, room: nat)
    requires count <= 3 && |base| <= 100 && room > 200
    ensures Outcomes(StartPieces(count, base), room).Fits?
  {
    hide Outcomes, PieceOutcome, BasePieces;
    StartFits(count, room);
    ShortBaseFits(base, room - 1);
    OutcomesConcat([Start(count)], BasePieces(base), room);
  }

  lemma {:induction false} StartFits(count: nat, room: nat)
    requires count <= 3 && room > 0
    ensures Outcomes([Start(count)], room) == Fits(1)
  {
    hide Outcomes;
    OneOutcome(Start(count), room);
  }

  lemma {:induction false} ShortBaseFits(base: seq<byte>, room: nat)
    requires |base| <= 100 && room >= 200
    ensures Outcomes(BasePieces(base), room).Fits?
  {
    if base != [] {
      var p := Pair(Integer(BASE_NAME_LABEL), Str(base));
      hide Outcomes;
      PairOutcome(p, room);
      hide ToBigEndian;
    } else {
      assert Outcomes([], room) == Fits(0);
    }
  }

  lemma {:induction false} BaseShort(uri: Option<Path>, level: nat)
    requires uri.Some? ==> |uri.value| <= 4
    ensures |BaseText(uri, level)| <= MAX_STRING_LEN + 1
  {
    if uri.Some? { UriFits(uri.value); }
  }
}
