/** The SenML-CBOR serializer (data/senml_cbor.c:397-781, data/senml_common.c:283-437; sections 4.6 and 6
    of RFC 8428): a resource tree is flattened into records that carry a path and a value. */
module SenmlCborWriter {
  import opened Bytes
  import opened Data
  import opened Uri
  import opened Cbor
  import Decimal

  const BUFFER_SIZE: nat := 1024

  const BASE_NAME_LABEL: int64 := -2
  const NAME_LABEL: uint64 := 0
  const NUMERIC_VALUE_LABEL: uint64 := 2
  const STRING_VALUE_LABEL: uint64 := 3
  const BOOLEAN_VALUE_LABEL: uint64 := 4
  const DATA_VALUE_LABEL: uint64 := 8
  const LINK_LABEL: seq<byte> := [118, 108, 111] // "vlo"

  /** One record on the wire; an empty base name or name is not written. */
  datatype Item = Item(base: seq<byte>, name: seq<byte>, value: Option<Value>)

  /** A label and what it labels. */
  datatype Pair = Pair(key: Value, value: Value)

  // ----- flattening ---------------------------------------------------------------------------

  function ValueOf(n: Node): Option<Value>
  {
    if n.Resource? then Some(n.value) else None
  }

  /** Is the node written as a record of its own? */
  predicate IsRecord(n: Node) {
    !n.Container? || n.children == []
  }

  /** The records of `prv_serializeData` for several siblings. Only the first record carries the base name. */
  function Items(nodes: seq<Node>, parent: seq<byte>, named: bool, base: seq<byte>): (items: seq<Item>)
    ensures nodes != [] ==> items != []
    decreases nodes
  {
    if nodes == [] then []
    else NodeItems(nodes[0], parent, named, base) + Items(nodes[1..], parent, named, [])
  }

  function NodeItems(n: Node, parent: seq<byte>, named: bool, base: seq<byte>): (items: seq<Item>)
    ensures items != []
    decreases n
  {
    var name := parent + Decimal.Digits(n.id);
    if IsRecord(n) then [Item(base, if named then name else [], ValueOf(n))]
    else Items(n.children, name + [SLASH], named, base)
  }

  // ----- bytes --------------------------------------------------------------------------------

  function ValueKey(v: Value): Value
  {
    match v
    case Str(_) => Unsigned(STRING_VALUE_LABEL)
    case CoreLink(_) => Unsigned(STRING_VALUE_LABEL)
    case Opaque(_) => Unsigned(DATA_VALUE_LABEL)
    case Integer(_) => Unsigned(NUMERIC_VALUE_LABEL)
    case Unsigned(_) => Unsigned(NUMERIC_VALUE_LABEL)
    case Boolean(_) => Unsigned(BOOLEAN_VALUE_LABEL)
    case ObjectLink(_, _) => Str(LINK_LABEL)
  }

  predicate SizableItem(item: Item) {
    |item.base| <= UINT64_MAX && |item.name| <= UINT64_MAX && (item.value.Some? ==> Sizable(item.value.value))
  }

  predicate SizableItems(items: seq<Item>) {
    forall item :: item in items ==> SizableItem(item)
  }

  /** The labels of a record and what they label, in the order in which they are written. */
  function Pairs(item: Item): (ps: seq<Pair>)
    ensures |ps| <= 3
  {
    (if item.base != [] then [Pair(Integer(BASE_NAME_LABEL), Str(item.base))] else [])
    + (if item.name != [] then [Pair(Unsigned(NAME_LABEL), Str(item.name))] else [])
    + (if item.value.Some? then [Pair(ValueKey(item.value.value), item.value.value)] else [])
  }

  predicate SizablePairs(ps: seq<Pair>) {
    forall i :: 0 <= i < |ps| ==> Sizable(ps[i].key) && Sizable(ps[i].value)
  }

  function PairBytes(p: Pair): seq<byte>
    requires Sizable(p.key) && Sizable(p.value)
  {
    SingularBytes(p.key) + SingularBytes(p.value)
  }

  function PairsBytes(ps: seq<Pair>): seq<byte>
    requires SizablePairs(ps)
  {
    if ps == [] then [] else PairBytes(ps[0]) + PairsBytes(ps[1..])
  }

  function ItemBytes(item: Item): (s: seq<byte>)
    requires SizableItem(item)
  {
    HeadBytes(MAP, |Pairs(item)|) + PairsBytes(Pairs(item))
  }

  function ItemsBytes(items: seq<Item>): seq<byte>
    requires SizableItems(items)
  {
    if items == [] then [] else ItemBytes(items[0]) + ItemsBytes(items[1..])
  }

  lemma {:induction false} ItemsBytesCons(item: Item, more: seq<Item>)
    requires SizableItem(item) && SizableItems(more)
    ensures SizableItems([item] + more) && ItemsBytes([item] + more) == ItemBytes(item) + ItemsBytes(more)
  {
    hide ItemBytes, SizableItem;
    assert ([item] + more)[1..] == more;
  }

  lemma {:induction false} ItemsBytesConcat(a: seq<Item>, b: seq<Item>)
    requires SizableItems(a) && SizableItems(b)
    ensures SizableItems(a + b) && ItemsBytes(a + b) == ItemsBytes(a) + ItemsBytes(b)
  {
    if a == [] {
      assert a + b == b;
    } else {
      hide ItemBytes, ItemsBytes, SizableItem;
      var (x, more) := (a[0], a[1..]);
      assert a == [x] + more && a + b == [x] + (more + b);
      ItemsBytesConcat(more, b);
      ItemsBytesCons(x, more);
      ItemsBytesCons(x, more + b);
      ConcatAssociative(ItemBytes(x), ItemsBytes(more), ItemsBytes(b));
    }
  }

  lemma {:induction false} ItemsConcat(a: seq<Node>, b: seq<Node>, parent: seq<byte>, named: bool, base: seq<byte>)
    ensures Items(a + b, parent, named, base) == Items(a, parent, named, base) + Items(b, parent, named, if a == [] then base else [])
  {
    if a == [] {
      assert a + b == b;
    } else {
      ItemsConcat(a[1..], b, parent, named, []);
      assert (a + b)[1..] == a[1..] + b;
      hide NodeItems;
      ConcatAssociative(NodeItems(a[0], parent, named, base), Items(a[1..], parent, named, []), Items(b, parent, named, []));
    }
  }

  // ----- what comes of writing ----------------------------------------------------------------

  /** What is written with a check of its own: the start of a record, or one label or value. */
  datatype Piece = Start(labels: nat) | Single(value: Value)

  /** The pieces of a record, in the order in which they are written. */
  function ItemPieces(item: Item): seq<Piece>
  {
    [Start(|Pairs(item)|)] + PairsPieces(Pairs(item))
  }

  function PairPieces(p: Pair): seq<Piece>
  {
    [Single(p.key), Single(p.value)]
  }

  function PairsPieces(ps: seq<Pair>): seq<Piece>
  {
    if ps == [] then [] else PairPieces(ps[0]) + PairsPieces(ps[1..])
  }

  function Pieces(items: seq<Item>): seq<Piece>
  {
    if items == [] then [] else ItemPieces(items[0]) + Pieces(items[1..])
  }

  /** What comes of one piece with this much room. (Lengths that no head can carry do not occur.) */
  function PieceOutcome(p: Piece, room: nat): (o: Outcome)
    ensures o.Fits? ==> 0 < o.n <= room
  {
    match p
    case Start(labels) =>
      if labels <= 3 && |HeadBytes(MAP, labels)| <= room then Fits(|HeadBytes(MAP, labels)|) else Refused
    case Single(v) => if Sizable(v) then PutOutcome(v, room) else Refused
  }

  /** One outcome after another: the first that does not fit ends it. */
  function Then(first: nat, second: Outcome): Outcome
  {
    if second.Fits? then Fits(first + second.n) else second
  }

  /** What comes of writing these pieces one behind the other, with this much room for all of them. */
  function Outcomes(ps: seq<Piece>, room: nat): (o: Outcome)
    ensures o.Fits? ==> o.n <= room
  {
    if ps == [] then Fits(0)
    else
      match PieceOutcome(ps[0], room)
      case Fits(n) => Then(n, Outcomes(ps[1..], room - n))
      case o => o
  }

  lemma {:induction false} OutcomesConcat(a: seq<Piece>, b: seq<Piece>, room: nat)
    ensures Outcomes(a + b, room)
         == match Outcomes(a, room) case Fits(n) => Then(n, Outcomes(b, room - n)) case o => o
    decreases |a|
  {
    hide PieceOutcome;
    if a == [] {
      assert a + b == b;
    } else {
      assert (a + b)[1..] == a[1..] + b;
      var first := PieceOutcome(a[0], room);
      if first.Fits? {
        OutcomesConcat(a[1..], b, room - first.n);
      }
    }
  }

  lemma {:induction false} PiecesConcat(a: seq<Item>, b: seq<Item>)
    ensures Pieces(a + b) == Pieces(a) + Pieces(b)
  {
    if a == [] {
      assert a + b == b;
    } else {
      hide ItemPieces;
      PiecesConcat(a[1..], b);
      assert (a + b)[1..] == a[1..] + b;
      ConcatAssociative(ItemPieces(a[0]), Pieces(a[1..]), Pieces(b));
    }
  }

  lemma {:induction false} PairsPiecesConcat(a: seq<Pair>, b: seq<Pair>)
    ensures PairsPieces(a + b) == PairsPieces(a) + PairsPieces(b)
  {
    if a == [] {
      assert a + b == b;
    } else {
      hide PairPieces;
      PairsPiecesConcat(a[1..], b);
      assert (a + b)[1..] == a[1..] + b;
      ConcatAssociative(PairPieces(a[0]), PairsPieces(a[1..]), PairsPieces(b));
    }
  }

  predicate SizablePiece(p: Piece) {
    match p
    case Start(labels) => labels <= 3
    case Single(v) => Sizable(v)
  }

  predicate SizablePieces(ps: seq<Piece>) {
    forall i :: 0 <= i < |ps| ==> SizablePiece(ps[i])
  }

  function PieceBytes(p: Piece): (s: seq<byte>)
    requires SizablePiece(p)
    ensures s != []
  {
    match p
    case Start(labels) => HeadBytes(MAP, labels)
    case Single(v) => SingularBytes(v)
  }

  function PiecesBytes(ps: seq<Piece>): seq<byte>
    requires SizablePieces(ps)
  {
    if ps == [] then [] else PieceBytes(ps[0]) + PiecesBytes(ps[1..])
  }

  predicate IsLink(p: Piece) {
    p.Single? && p.value.ObjectLink?
  }

  lemma {:induction false} PieceFits(p: Piece, room: nat)
    requires SizablePiece(p)
    ensures PieceOutcome(p, room).Fits? <==> |PieceBytes(p)| < room || (|PieceBytes(p)| == room && !IsLink(p))
    ensures PieceOutcome(p, room).Fits? ==> PieceOutcome(p, room).n == |PieceBytes(p)|
  {
    hide HeadBytes, SingularBytes;
  }

  /** Pieces fit exactly when their bytes do; a link at the very end needs one byte more, for a final NUL. */
  lemma {:induction false} FitsExactly(ps: seq<Piece>, room: nat)
    requires SizablePieces(ps)
    ensures Outcomes(ps, room).Fits? <==>
              |PiecesBytes(ps)| < room || (|PiecesBytes(ps)| == room && (ps == [] || !IsLink(ps[|ps| - 1])))
    ensures Outcomes(ps, room).Fits? ==> Outcomes(ps, room).n == |PiecesBytes(ps)|
    decreases |ps|
  {
    if ps != [] {
      hide PieceOutcome, PieceBytes, SizablePiece, IsLink;
      PieceFits(ps[0], room);
      var first := PieceOutcome(ps[0], room);
      var more := ps[1..];
      assert |PiecesBytes(ps)| == |PieceBytes(ps[0])| + |PiecesBytes(more)|;
      assert more != [] ==> more[|more| - 1] == ps[|ps| - 1] && |PiecesBytes(more)| > 0;
      assert Outcomes(ps, room) == if first.Fits? then Then(first.n, Outcomes(more, room - first.n)) else first;
      hide Outcomes, PiecesBytes;
      if first.Fits? {
        FitsExactly(more, room - first.n);
      }
    }
  }

  lemma {:induction false} OneOutcome(p: Piece, room: nat)
    ensures Outcomes([p], room) == PieceOutcome(p, room)
  {
    hide PieceOutcome;
    assert [p][1..] == [];
  }

  /** Writing runs behind the end exactly when some piece does for which everything before it fits. */
  predicate OverrunsAt(ps: seq<Piece>, i: nat, room: nat) {
    i < |ps| && Outcomes(ps[..i], room).Fits? && PieceOutcome(ps[i], room - Outcomes(ps[..i], room).n).Overran?
  }

  lemma {:induction false} OverrunsExactly(ps: seq<Piece>, room: nat)
    ensures Outcomes(ps, room).Overran? <==> exists i :: 0 <= i < |ps| && OverrunsAt(ps, i, room)
    decreases |ps|
  {
    hide PieceOutcome;
    if ps != [] {
      var n := |ps| - 1;
      OverrunsExactly(ps[..n], room);
      OverrunsLast(ps, room);
      hide Outcomes;
      if Outcomes(ps[..n], room).Overran? {
        var i :| 0 <= i < n && OverrunsAt(ps[..n], i, room);
        assert ps[..n][..i] == ps[..i];
        assert OverrunsAt(ps, i, room);
      }
      if i :| 0 <= i < n && OverrunsAt(ps, i, room) {
        assert ps[..n][..i] == ps[..i];
        assert OverrunsAt(ps[..n], i, room);
      }
    }
  }

  lemma {:induction false} OverrunsLast(ps: seq<Piece>, room: nat)
    requires ps != []
    ensures var n := |ps| - 1;
            Outcomes(ps, room).Overran? <==> Outcomes(ps[..n], room).Overran? || OverrunsAt(ps, n, room)
  {
    hide PieceOutcome, Outcomes;
    var (front, last) := (ps[..|ps| - 1], ps[|ps| - 1]);
    assert ps == front + [last];
    OutcomesConcat(front, [last], room);
    if Outcomes(front, room).Fits? { OneOutcome(last, room - Outcomes(front, room).n); }
  }

  /** The pieces of the records are their bytes. */
  lemma {:induction false} BytesOfPieces(items: seq<Item>)
    requires SizableItems(items)
    ensures SizablePieces(Pieces(items)) && PiecesBytes(Pieces(items)) == ItemsBytes(items)
  {
    if items != [] {
      assert SizableItem(items[0]);
      BytesOfItem(items[0]);
      BytesOfPieces(items[1..]);
      hide ItemPieces, ItemBytes, SizablePiece, SizableItem;
      PiecesBytesConcat(ItemPieces(items[0]), Pieces(items[1..]));
    }
  }

  lemma {:induction false} BytesOfItem(item: Item)
    requires SizableItem(item)
    ensures SizablePieces(ItemPieces(item)) && PiecesBytes(ItemPieces(item)) == ItemBytes(item)
  {
    var ps := Pairs(item);
    BytesOfPairs(ps);
    hide Pairs, HeadBytes, PairsPieces;
    var start := Start(|ps|);
    assert [start][1..] == [];
    PiecesBytesConcat([start], PairsPieces(ps));
  }

  lemma {:induction false} BytesOfPairs(ps: seq<Pair>)
    requires SizablePairs(ps)
    ensures SizablePieces(PairsPieces(ps)) && PiecesBytes(PairsPieces(ps)) == PairsBytes(ps)
  {
    if ps != [] {
      hide SingularBytes, Sizable;
      var p := ps[0];
      BytesOfPairs(ps[1..]);
      var (key, value) := (Single(p.key), Single(p.value));
      OnePiece(key);
      OnePiece(value);
      PiecesBytesConcat([key], [value]);
      assert PairPieces(p) == [key] + [value];
      hide PiecesBytes, PairPieces;
      PiecesBytesConcat([key] + [value], PairsPieces(ps[1..]));
    }
  }

  lemma {:induction false} OnePiece(p: Piece)
    requires SizablePiece(p)
    ensures SizablePieces([p]) && PiecesBytes([p]) == PieceBytes(p)
  {
    hide PieceBytes;
    assert [p][1..] == [];
  }

  lemma {:induction false} PiecesBytesConcat(a: seq<Piece>, b: seq<Piece>)
    requires SizablePieces(a) && SizablePieces(b)
    ensures SizablePieces(a + b) && PiecesBytes(a + b) == PiecesBytes(a) + PiecesBytes(b)
    decreases |a|
  {
    hide SizablePiece, PieceBytes;
    if a == [] {
      assert a + b == b;
    } else {
      PiecesBytesConcat(a[1..], b);
      assert (a + b)[1..] == a[1..] + b;
      ConcatAssociative(PieceBytes(a[0]), PiecesBytes(a[1..]), PiecesBytes(b));
    }
  }

  // ----- which nodes are written --------------------------------------------------------------

  /** The nodes to write and their level: 1 for objects to 4 for resource instances. */
  datatype Target = Target(nodes: seq<Node>, level: nat)

  predicate HasKind(n: Node, kind: Kind) {
    n.Container? && n.kind == kind
  }

  predicate IsUpper(n: Node) {
    HasKind(n, KObject) || HasKind(n, KInstance)
  }

  /** Siblings are all objects, all object instances, or all neither. */
  predicate Uniform(nodes: seq<Node>) {
    nodes != [] ==>
      if IsUpper(nodes[0]) then forall n :: n in nodes ==> HasKind(n, nodes[0].kind) else forall n :: n in nodes ==> !IsUpper(n)
  }

  function IndexOf(nodes: seq<Node>, id: uint16): (i: nat)
    ensures i <= |nodes|
    ensures i < |nodes| ==> nodes[i].id == id
  {
    if nodes == [] || nodes[0].id == id then 0 else 1 + IndexOf(nodes[1..], id)
  }

  /** `prv_findAndCheckData`: descend to the siblings of the desired level along the path of the request. */
  function FindAndCheck(path: Path, desired: nat, nodes: seq<Node>, level: nat): Option<Target>
    requires 1 <= desired <= 4 && desired - 1 <= |path|
    decreases nodes
  {
    if nodes == [] then Some(Target([], level))
    else if |nodes| > 1 && !Uniform(nodes) then None
    else
      var depth := if HasKind(nodes[0], KObject) then 1 else if HasKind(nodes[0], KInstance) then 2
                   else if desired == 4 && HasKind(nodes[0], KMultiple) then 3 else 5;
      if depth < desired then
        var i := IndexOf(nodes, path[depth - 1]);
        if i < |nodes| && nodes[i].Container? then FindAndCheck(path, desired, nodes[i].children, depth + 1) else None
      else if desired == 1 then (if depth == 1 then Some(Target(nodes, 1)) else None)
      else if desired == 2 then (if depth == 2 then Some(Target(nodes, level)) else None)
      else Some(Target(nodes, level))
  }

  /** `senml_findAndCheckData` */
  function FindTarget(uri: Option<Path>, nodes: seq<Node>): Option<Target>
    requires uri.Some? ==> |uri.value| <= 4
  {
    var path := if uri.Some? then uri.value else [];
    var desired := if |path| < 4 then |path| + 1 else 4;
    FindAndCheck(path, desired, nodes, if |path| < 3 then desired else |path|)
  }

  // ----- the document -------------------------------------------------------------------------

  /** The base name: the text of the request, with a slash when names are to follow. */
  function BaseText(uri: Option<Path>, level: nat): seq<byte>
    requires uri.Some? ==> |uri.value| <= 4
  {
    var text := Printed(uri);
    if |text| > 1 && (|uri.value| < 3 || |uri.value| < level) then text + [SLASH] else text
  }

  /** The prefix of the names: a slash unless the base name ends in one. */
  function ParentText(base: seq<byte>): seq<byte>
  {
    if base == [] || base[|base| - 1] != SLASH then [SLASH] else []
  }

  /** The records of a whole document. Without any node the base name stands alone, with its last character removed. */
  function Document(uri: Option<Path>, target: Target): seq<Item>
    requires uri.Some? ==> |uri.value| <= 4
  {
    var base := BaseText(uri, target.level);
    var depth := if uri.Some? then |uri.value| else 0;
    if target.nodes == [] && base != [] then [Item(if |base| > 1 then base[..|base| - 1] else base, [], None)]
    else Items(target.nodes, ParentText(base), base == [] || target.level > depth, base)
  }

  function DocumentBytes(items: seq<Item>): seq<byte>
    requires SizableItems(items) && |items| <= UINT64_MAX
  {
    HeadBytes(ARRAY, |items|) + ItemsBytes(items)
  }
}
