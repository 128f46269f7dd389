/** The sorted intrusive list that everything hangs on (core/list.c). */
module SortedList {
  import opened Bytes

  // ----- identifiers --------------------------------------------------------------------------

  predicate Sorted(ids: seq<uint16>) {
    forall i, j :: 0 <= i < j < |ids| ==> ids[i] < ids[j]
  }

  /** Where `lwm2m_list_add` puts an identifier: in front of a larger head, else behind the head and all smaller ones. */
  function Place(ids: seq<uint16>, id: uint16): (k: nat)
    ensures k <= |ids|
  {
    if ids == [] || ids[0] > id then 0 else 1 + FirstNotBelow(ids[1..], id)
  }

  /** The first position whose identifier is not below `id`. */
  function FirstNotBelow(ids: seq<uint16>, id: uint16): (k: nat)
    ensures k <= |ids|
    ensures forall j :: 0 <= j < k ==> ids[j] < id
    ensures k < |ids| ==> ids[k] >= id
  {
    if ids == [] || ids[0] >= id then 0 else 1 + FirstNotBelow(ids[1..], id)
  }

  function Inserted(ids: seq<uint16>, id: uint16): seq<uint16>
  {
    var k := Place(ids, id);
    ids[..k] + [id] + ids[k..]
  }

  /** A fresh identifier keeps the list strictly sorted and is the only one added. */
  lemma {:induction false} InsertedSorted(ids: seq<uint16>, id: uint16)
    requires Sorted(ids) && id !in ids
    ensures Sorted(Inserted(ids, id))
    ensures forall x :: x in Inserted(ids, id) <==> x in ids || x == id
  {
    var k := Place(ids, id);
    PlaceSplits(ids, id);
    hide Place;
    SplitMembers(ids, k, id);
  }

  lemma {:induction false} PlaceSplits(ids: seq<uint16>, id: uint16)
    requires Sorted(ids) && id !in ids
    ensures forall j :: 0 <= j < Place(ids, id) ==> ids[j] < id
    ensures forall j :: Place(ids, id) <= j < |ids| ==> ids[j] > id
  {
    var k := Place(ids, id);
    if ids != [] && ids[0] <= id {
      assert ids[0] in ids;
      assert forall j :: 1 <= j < |ids| ==> ids[j] == ids[1..][j - 1];
    }
    if k < |ids| {
      assert ids[k] in ids;
    }
  }

  lemma {:induction false} SplitMembers(ids: seq<uint16>, k: nat, id: uint16)
    requires k <= |ids|
    ensures forall x :: x in ids[..k] + [id] + ids[k..] <==> x in ids || x == id
  {
    assert ids == ids[..k] + ids[k..];
  }

  /** Where an identifier is, if it is there. */
  function Removed(ids: seq<uint16>, id: uint16): seq<uint16>
  {
    var k := FirstNotBelow(ids, id);
    if k < |ids| && ids[k] == id then ids[..k] + ids[k + 1..] else ids
  }

  /** Stopping at the first larger identifier misses nothing. */
  lemma {:induction false} FindIsMembership(ids: seq<uint16>, id: uint16)
    requires Sorted(ids)
    ensures var k := FirstNotBelow(ids, id); (k < |ids| && ids[k] == id) <==> id in ids
  {
  }

  lemma {:induction false} RemovedSorted(ids: seq<uint16>, id: uint16)
    requires Sorted(ids)
    ensures Sorted(Removed(ids, id))
    ensures forall x :: x in Removed(ids, id) <==> x in ids && x != id
  {
    FindIsMembership(ids, id);
    var k := FirstNotBelow(ids, id);
    hide FirstNotBelow;
    if k < |ids| && ids[k] == id {
      OmittedMembers(ids, k);
    }
  }

  lemma {:induction false} OmittedMembers(ids: seq<uint16>, k: nat)
    requires Sorted(ids) && k < |ids|
    ensures Sorted(ids[..k] + ids[k + 1..])
    ensures forall x :: x in ids[..k] + ids[k + 1..] <==> x in ids && x != ids[k]
  {
    assert ids == ids[..k] + [ids[k]] + ids[k + 1..];
    assert ids[k] !in ids[..k] && ids[k] !in ids[k + 1..];
  }

  // ----- runs ---------------------------------------------------------------------------------

  datatype Op = Add(id: uint16) | Remove(id: uint16)

  /** The list after a run; only fresh identifiers are added. */
  function After(ops: seq<Op>): seq<uint16>
  {
    if ops == [] then []
    else
      var ids := After(ops[..|ops| - 1]);
      match ops[|ops| - 1]
      case Add(id) => if id in ids then ids else Inserted(ids, id)
      case Remove(id) => Removed(ids, id)
  }

  /** What a set would hold after the run. */
  function SetAfter(ops: seq<Op>): set<uint16>
  {
    if ops == [] then {}
    else
      var s := SetAfter(ops[..|ops| - 1]);
      match ops[|ops| - 1]
      case Add(id) => s + {id}
      case Remove(id) => s - {id}
  }

  /** Every list built from fresh identifiers is strictly sorted and holds exactly what a set would. */
  lemma {:induction false} ListIsSet(ops: seq<Op>, id: uint16)
    ensures Sorted(After(ops))
    ensures id in After(ops) <==> id in SetAfter(ops)
  {
    if ops != [] {
      var ids := After(ops[..|ops| - 1]);
      ListIsSet(ops[..|ops| - 1], id);
      match ops[|ops| - 1]
      case Add(x) =>
        ListIsSet(ops[..|ops| - 1], x);
        if x !in ids { InsertedSorted(ids, x); }
      case Remove(x) => RemovedSorted(ids, x);
    }
  }

  // ----- new identifiers ----------------------------------------------------------------------

  /** How far the list counts up from zero. */
  function Run(ids: seq<uint16>, from: nat): (n: nat)
    ensures n <= |ids|
    ensures forall j :: 0 <= j < n ==> ids[j] == from + j
    ensures n < |ids| ==> ids[n] != from + n
  {
    if ids == [] || ids[0] != from then 0 else 1 + Run(ids[1..], from + 1)
  }

  /** `lwm2m_list_newId`, which counts in sixteen bits. */
  function NewId(ids: seq<uint16>): uint16
  {
    Run(ids, 0) % 0x1_0000
  }

  predicate IsLeastUnused(ids: seq<uint16>, id: nat) {
    id !in ids && forall x :: 0 <= x < id ==> x in ids
  }

  lemma {:induction false} SortedGrows(ids: seq<uint16>, i: nat)
    requires Sorted(ids) && i < |ids|
    ensures ids[i] >= i
  {
    if i > 0 {
      SortedGrows(ids, i - 1);
    }
  }

  /** The new identifier is the least that is not used, exactly when there is one. */
  lemma {:induction false} NewIdIsLeastUnused(ids: seq<uint16>)
    requires Sorted(ids)
    ensures IsLeastUnused(ids, NewId(ids)) <==> |ids| < 0x1_0000
  {
    var n := Run(ids, 0);
    if |ids| > 0 {
      SortedGrows(ids, |ids| - 1);
    }
    if n < |ids| {
      SortedGrows(ids, n);
      assert ids[n] > n;
    }
    forall x | 0 <= x < n ensures x in ids {
      assert ids[x] == x;
    }
    if n < |ids| {
      forall j | 0 <= j < |ids| ensures ids[j] != n {
        if j >= n { assert ids[j] >= ids[n]; }
      }
    }
    if |ids| >= 0x1_0000 {
      assert n == |ids| by {
        if n < |ids| {
          GapCostsRoom(ids, n);
        }
      }
      assert ids[0] == 0;
    }
  }

  /** Behind a gap every identifier is larger than its position. */
  lemma {:induction false} GapCostsRoom(ids: seq<uint16>, n: nat)
    requires Sorted(ids) && n < |ids| && ids[n] > n
    ensures |ids| <= 0xFFFF
  {
    GapGrows(ids, n, |ids| - 1);
  }

  lemma {:induction false} GapGrows(ids: seq<uint16>, n: nat, i: nat)
    requires Sorted(ids) && n <= i < |ids| && ids[n] > n
    ensures ids[i] > i
    decreases i
  {
    if i > n {
      GapGrows(ids, n, i - 1);
    }
  }

  // ----- the linked list ----------------------------------------------------------------------

  class Node {
    const id: uint16
    var next: Node?

    constructor (id: uint16)
      ensures this.id == id && next == null
    {
      this.id := id;
      next := null;
    }
  }

  /** Every node is followed by the next. */
  ghost predicate Linked(nodes: seq<Node>)
    reads nodes
  {
    forall i :: 0 <= i < |nodes| ==> nodes[i].next == NodeAt(nodes, i + 1)
  }

  predicate Numbered(nodes: seq<Node>, ids: seq<uint16>)
  {
    |ids| == |nodes| && forall i :: 0 <= i < |nodes| ==> nodes[i].id == ids[i]
  }

  lemma {:induction false} NumberedInserted(nodes: seq<Node>, ids: seq<uint16>, k: nat, node: Node)
    requires Numbered(nodes, ids) && k <= |nodes|
    ensures Numbered(nodes[..k] + [node] + nodes[k..], ids[..k] + [node.id] + ids[k..])
  {
  }

  lemma {:induction false} NumberedOmitted(nodes: seq<Node>, ids: seq<uint16>, k: nat)
    requires Numbered(nodes, ids) && k < |nodes|
    ensures Numbered(nodes[..k] + nodes[k + 1..], ids[..k] + ids[k + 1..])
  {
  }

  predicate Distinct(nodes: seq<Node>) {
    forall i, j :: 0 <= i < j < |nodes| ==> nodes[i] != nodes[j]
  }

  lemma {:induction false} DistinctInserted(nodes: seq<Node>, k: nat, node: Node)
    requires Distinct(nodes) && k <= |nodes| && node !in nodes
    ensures Distinct(nodes[..k] + [node] + nodes[k..])
  {
    var all := nodes[..k] + [node] + nodes[k..];
    assert forall i :: 0 <= i < |all| ==> all[i] == if i < k then nodes[i] else if i == k then node else nodes[i - 1];
  }

  lemma {:induction false} DistinctOmitted(nodes: seq<Node>, k: nat)
    requires Distinct(nodes) && k < |nodes|
    ensures Distinct(nodes[..k] + nodes[k + 1..]) && nodes[k] !in nodes[..k] + nodes[k + 1..]
  {
    var rest := nodes[..k] + nodes[k + 1..];
    assert forall i :: 0 <= i < |rest| ==> rest[i] == nodes[if i < k then i else i + 1];
  }

  class List {
    var head: Node?
    ghost var nodes: seq<Node>
    ghost var ids: seq<uint16>

    ghost predicate Valid()
      reads this, nodes
    {
      head == NodeAt(nodes, 0) && Linked(nodes) && Numbered(nodes, ids) && Distinct(nodes)
    }

    constructor ()
      ensures Valid() && nodes == [] && ids == []
    {
      head := null;
      nodes, ids := [], [];
    }

    /** What a node says about itself and the next. */
    lemma {:induction false} NodeFacts(k: nat)
      requires Valid() && k < |nodes|
      ensures |ids| == |nodes| && nodes[k].id == ids[k] && nodes[k].next == NodeAt(nodes, k + 1)
    {
    }

    lemma {:induction false} HeadFacts()
      requires Valid()
      ensures |ids| == |nodes| && head == NodeAt(nodes, 0)
    {
    }

    /** The search of `lwm2m_list_add` and `lwm2m_list_remove` behind the head. */
    method Predecessor(id: uint16) returns (target: Node, ghost k: nat)
      requires Valid() && nodes != []
      ensures k < |nodes| && target == nodes[k] && k == FirstNotBelow(ids[1..], id)
      ensures target.next == NodeAt(nodes, k + 1)
    {
      HeadFacts();
      hide Valid, Linked, Numbered, Distinct;
      target := head;
      k := 0;
      NodeFacts(0);
      while target.next != null && target.next.id < id
        invariant 0 <= k < |nodes| && target == nodes[k] && target.next == NodeAt(nodes, k + 1)
        invariant forall j :: 1 <= j <= k ==> ids[j] < id
        decreases |nodes| - k
      {
        NodeFacts(k + 1);
        target := target.next;
        k := k + 1;
      }
      if k + 1 < |nodes| { NodeFacts(k + 1); }
      FirstIs(ids[1..], id, k);
    }

    /** Link a node in front of the list. */
    method LinkFront(node: Node)
      requires Valid() && node !in nodes && (nodes == [] ==> node.next == null)
      modifies this, node`next
      ensures Valid() && nodes == [node] + old(nodes) && ids == [node.id] + old(ids)
    {
      if head != null {
        node.next := head;
      }
      head := node;
      nodes, ids := [node] + nodes, [node.id] + ids;
    }

    /** Link a node behind another. */
    method LinkBehind(target: Node, ghost k: nat, node: Node)
      requires Valid() && k < |nodes| && target == nodes[k] && node !in nodes
      modifies this`nodes, this`ids, target`next, node`next
      ensures Valid() && nodes == old(nodes)[..k + 1] + [node] + old(nodes)[k + 1..]
      ensures ids == old(ids)[..k + 1] + [node.id] + old(ids)[k + 1..]
    {
      ghost var before := nodes;
      assert nodes[k].next == NodeAt(nodes, k + 1);
      DistinctInserted(nodes, k + 1, node);
      NumberedInserted(nodes, ids, k + 1, node);
      hide Numbered;
      node.next := target.next;
      target.next := node;
      nodes, ids := nodes[..k + 1] + [node] + nodes[k + 1..], ids[..k + 1] + [node.id] + ids[k + 1..];
      forall i | 0 <= i < |nodes| ensures nodes[i].next == NodeAt(nodes, i + 1) {
        if i < k {
          assert nodes[i] == before[i] && nodes[i] != target;
        } else if i > k + 1 {
          assert nodes[i] == before[i - 1] && nodes[i] != target;
        }
      }
    }

    /** `lwm2m_list_add`; the only node of a list keeps the successor it came with. */
    method Add(node: Node)
      requires Valid() && node !in nodes && (nodes == [] ==> node.next == null)
      modifies this, nodes, node
      ensures Valid() && ids == Inserted(old(ids), node.id)
      ensures var k := Place(old(ids), node.id); nodes == old(nodes)[..k] + [node] + old(nodes)[k..]
    {
      hide FirstNotBelow;
      if head == null || head.id > node.id {
        LinkFront(node);
      } else {
        ghost var k: nat;
        var target: Node;
        target, k := Predecessor(node.id);
        LinkBehind(target, k, node);
      }
    }

    /** `lwm2m_list_find` */
    method Find(id: uint16) returns (found: Node?)
      requires Valid() && Sorted(ids)
      ensures found != null <==> id in ids
      ensures found != null ==> found in nodes && found.id == id
    {
      HeadFacts();
      hide Valid, Linked, Numbered, Distinct;
      var target := head;
      ghost var k := 0;
      while target != null && target.id < id
        invariant 0 <= k <= |nodes| && target == NodeAt(nodes, k)
        invariant forall j :: 0 <= j < k ==> ids[j] < id
        decreases |nodes| - k
      {
        NodeFacts(k);
        target := target.next;
        k := k + 1;
      }
      if k < |nodes| { NodeFacts(k); }
      if target != null && target.id == id {
        return target;
      }
      return null;
    }

    /** Unlink the node behind another. */
    method UnlinkBehind(target: Node, ghost k: nat)
      requires Valid() && k + 1 < |nodes| && target == nodes[k]
      modifies this`nodes, this`ids, target`next
      ensures Valid() && nodes == old(nodes)[..k + 1] + old(nodes)[k + 2..] && old(nodes)[k + 1] !in nodes
      ensures ids == old(ids)[..k + 1] + old(ids)[k + 2..]
    {
      assert nodes[k].next == NodeAt(nodes, k + 1) && nodes[k + 1].next == NodeAt(nodes, k + 2);
      ghost var before := nodes;
      DistinctOmitted(nodes, k + 1);
      NumberedOmitted(nodes, ids, k + 1);
      hide Numbered;
      target.next := target.next.next;
      nodes, ids := nodes[..k + 1] + nodes[k + 2..], ids[..k + 1] + ids[k + 2..];
      forall i | 0 <= i < |nodes| ensures nodes[i].next == NodeAt(nodes, i + 1) {
        if i < k {
          assert nodes[i] == before[i] && nodes[i] != target;
        } else if i > k {
          assert nodes[i] == before[i + 1] && nodes[i] != target;
        }
      }
    }

    /** Unlink the head. */
    method UnlinkFront()
      requires Valid() && nodes != []
      modifies this
      ensures Valid() && nodes == old(nodes)[1..] && ids == old(ids)[1..] && old(nodes)[0] !in nodes
    {
      assert nodes[0].next == NodeAt(nodes, 1);
      head := head.next;
      nodes, ids := nodes[1..], ids[1..];
    }

    /** `lwm2m_list_remove`: the node that was taken out, or null. */
    method Remove(id: uint16) returns (removed: Node?)
      requires Valid() && Sorted(ids)
      modifies this, nodes
      ensures Valid() && ids == Removed(old(ids), id)
      ensures if id in old(ids) then removed != null && removed in old(nodes) && removed.id == id && removed !in nodes
              else removed == null && nodes == old(nodes)
    {
      HeadFacts();
      if head == null { return null; }
      hide Linked, Numbered, Distinct, Valid;
      NodeFacts(0);
      if head.id == id {
        HeadGoes(ids);
        removed := head;
        UnlinkFront();
      } else {
        HeadFirst(ids, id);
        ghost var k: nat;
        var target: Node;
        target, k := Predecessor(id);
        if k + 1 < |nodes| { NodeFacts(k + 1); }
        hide FirstNotBelow, Removed, Sorted;
        removed := target.next;
        if removed != null && removed.id == id {
          UnlinkBehind(target, k);
        } else {
          removed := null;
        }
      }
    }

    /** `lwm2m_list_newId` */
    method NewIdentifier() returns (id: uint16)
      requires Valid() && Sorted(ids)
      ensures id == NewId(ids)
    {
      AtMost16Bits(ids);
      HeadFacts();
      hide NewId, Run, Sorted, Valid, Linked, Numbered, Distinct;
      id := 0;
      var target := head;
      ghost var k := 0;
      while target != null && id == target.id
        invariant 0 <= k <= |nodes| && target == NodeAt(nodes, k)
        invariant id == if k == 0x1_0000 then 0 else k
        invariant forall j :: 0 <= j < k ==> ids[j] == j
        decreases |nodes| - k
      {
        NodeFacts(k);
        id := if target.id == 0xFFFF then 0 else target.id + 1;
        target := target.next;
        k := k + 1;
      }
      if k < |nodes| { NodeFacts(k); }
      RunIs(ids, 0, k);
      NewIdIs(ids, k);
    }
  }

  lemma {:induction false} NewIdIs(ids: seq<uint16>, k: nat)
    requires Run(ids, 0) == k <= 0x1_0000
    ensures NewId(ids) == if k == 0x1_0000 then 0 else k
  {
  }

  lemma {:induction false} AtMost16Bits(ids: seq<uint16>)
    requires Sorted(ids)
    ensures |ids| <= 0x1_0000
  {
    if |ids| > 0 { SortedGrows(ids, |ids| - 1); }
  }

  function NodeAt(nodes: seq<Node>, i: nat): Node?
  {
    if i < |nodes| then nodes[i] else null
  }

  lemma {:induction false} FirstIs(ids: seq<uint16>, id: uint16, k: nat)
    requires k <= |ids| && (forall j :: 0 <= j < k ==> ids[j] < id) && (k < |ids| ==> ids[k] >= id)
    ensures FirstNotBelow(ids, id) == k
  {
  }

  lemma {:induction false} HeadGoes(ids: seq<uint16>)
    requires ids != []
    ensures Removed(ids, ids[0]) == ids[1..]
  {
    assert ids[..0] + ids[1..] == ids[1..];
  }

  lemma {:induction false} HeadFirst(ids: seq<uint16>, id: uint16)
    requires ids != [] && Sorted(ids) && ids[0] != id
    ensures var k := FirstNotBelow(ids[1..], id);
            (id in ids <==> k + 1 < |ids| && ids[k + 1] == id) && Removed(ids, id) == if k + 1 < |ids| && ids[k + 1] == id then ids[..k + 1] + ids[k + 2..] else ids
  {
    assert forall j :: 1 <= j < |ids| ==> ids[j] == ids[1..][j - 1];
  }

  lemma {:induction false} RunIs(ids: seq<uint16>, from: nat, k: nat)
    requires k <= |ids| && (forall j :: 0 <= j < k ==> ids[j] == from + j) && (k < |ids| ==> ids[k] != from + k)
    ensures Run(ids, from) == k
  {
    if k > 0 {
      RunIs(ids[1..], from + 1, k - 1);
    }
  }
}
