/** From path/value records to a resource tree (data/senml_common.c). */
module SenmlRecords {
  import opened Bytes
  import opened Data
  import opened Uri

  /** `senml_record_t`: the identifiers that are set, and the value if there is one. */
  datatype Record = Record(path: Path, value: Option<Value>)

  /** `senml_findDataItem`: nodes whose type is undefined are not found. */
  function Find(nodes: seq<Node>, id: uint16): (i: nat)
    ensures i <= |nodes|
    ensures i < |nodes| ==> nodes[i].id == id && !nodes[i].Undefined?
    ensures forall j :: 0 <= j < i ==> nodes[j].id != id || nodes[j].Undefined?
  {
    if nodes == [] || (nodes[0].id == id && !nodes[0].Undefined?) then 0 else 1 + Find(nodes[1..], id)
  }

  /** What `senml_extendData` appends at a level; the type of a resource is known only with its value. */
  function NewNode(level: nat, id: uint16): Node
  {
    if level == 0 then Container(id, KObject, []) else if level == 1 then Container(id, KInstance, []) else Undefined(id)
  }

  function Zero(v: Value): Value
  {
    match v
    case Str(_) => Str([])
    case Opaque(_) => Opaque([])
    case CoreLink(_) => CoreLink([])
    case Integer(_) => Integer(0)
    case Unsigned(_) => Unsigned(0)
    case Boolean(_) => Boolean(false)
    case ObjectLink(_, _) => ObjectLink(0, 0)
  }

  /** `prv_convertValue`: a record without a value keeps the type of the node but clears its contents. */
  function Convert(node: Node, value: Option<Value>): Node
  {
    match value
    case Some(v) => Resource(node.id, v)
    case None =>
      (match node
       case Undefined(_) => node
       case Resource(id, v) => Resource(id, Zero(v))
       case Container(id, kind, _) => Container(id, kind, []))
  }

  /** One record, from `level` of the tree on. Hanging an identifier below a node that holds a value makes no
      sense and is refused. */
  function AddRecord(nodes: seq<Node>, level: nat, path: Path, value: Option<Value>): Option<seq<Node>>
    requires path != [] && level + |path| <= 4
    decreases |path|, 0
  {
    var i := if level == 3 then |nodes| else Find(nodes, path[0]);
    var node := if i < |nodes| then nodes[i] else NewNode(level, path[0]);
    var changed := if |path| == 1 then Some(Convert(node, value)) else AddBelow(node, level, path[1..], value);
    match changed
    case None => None
    case Some(n) => Some(if i < |nodes| then nodes[i := n] else nodes + [n])
  }

  /** The rest of the path, below `node`. */
  function AddBelow(node: Node, level: nat, rest: Path, value: Option<Value>): Option<Node>
    requires rest != [] && level + 1 + |rest| <= 4
    decreases |rest|, 1
  {
    match node
    case Resource(_, _) => None
    case Undefined(id) =>
      if level != 2 then None
      else
        (match AddRecord([], level + 1, rest, value)
         case None => None
         case Some(ch) => Some(Container(id, KMultiple, ch)))
    case Container(id, kind, children) =>
      (match AddRecord(children, level + 1, rest, value)
       case None => None
       case Some(ch) => Some(Container(id, if level == 2 then KMultiple else kind, ch)))
  }

  /** One iteration of `prv_convertRecord`. A record without any identifier is a root of its own. */
  function AddTop(nodes: seq<Node>, r: Record): Option<seq<Node>>
    requires |r.path| <= 4
  {
    if r.path != [] then AddRecord(nodes, 0, r.path, r.value)
    else
      var i := Find(nodes, MAX_ID);
      if i < |nodes| then Some(nodes[i := Convert(nodes[i], r.value)]) else Some(nodes + [Convert(Undefined(MAX_ID), r.value)])
  }

  predicate IsRecords(records: seq<Record>) {
    forall i :: 0 <= i < |records| ==> |records[i].path| <= 4
  }

  /** The tree built from all records, in order, on top of `nodes`. */
  function AddAll(nodes: seq<Node>, records: seq<Record>): Option<seq<Node>>
    requires IsRecords(records)
  {
    if records == [] then Some(nodes)
    else
      match AddAll(nodes, records[..|records| - 1])
      case None => None
      case Some(built) => AddTop(built, records[|records| - 1])
  }

  lemma {:induction false} AddAllConcat(nodes: seq<Node>, a: seq<Record>, b: seq<Record>)
    requires IsRecords(a) && IsRecords(b)
    ensures IsRecords(a + b)
    ensures AddAll(nodes, a + b) == match AddAll(nodes, a) case None => None case Some(built) => AddAll(built, b)
  {
    if b == [] {
      assert a + b == a;
    } else {
      AddAllConcat(nodes, a, b[..|b| - 1]);
      assert (a + b)[..|a + b| - 1] == a + b[..|b| - 1];
    }
  }

  /** `senml_findDataItem`, the loop. */
  method FindDataItem(nodes: seq<Node>, id: uint16) returns (found: Option<nat>)
    ensures found == if Find(nodes, id) < |nodes| then Some(Find(nodes, id)) else None
  {
    var i := 0;
    while i < |nodes|
      invariant 0 <= i <= |nodes|
      invariant forall j :: 0 <= j < i ==> nodes[j].id != id || nodes[j].Undefined?
    {
      if !nodes[i].Undefined? && nodes[i].id == id { return Some(i); }
      i := i + 1;
    }
    return None;
  }

  /** `prv_convertRecord`, the loop over the records. */
  method ConvertRecords(records: seq<Record>) returns (r: Option<seq<Node>>)
    requires IsRecords(records)
    ensures r == AddAll([], records)
  {
    hide AddTop;
    var root: seq<Node> := [];
    var index := 0;
    while index < |records|
      invariant 0 <= index <= |records|
      invariant AddAll([], records[..index]) == Some(root)
    {
      var next := AddTop(root, records[index]);
      assert records[..index + 1][..index] == records[..index];
      if next.None? {
        AddAllConcat([], records[..index + 1], records[index + 1..]);
        assert records[..index + 1] + records[index + 1..] == records;
        return None;
      }
      root := next.value;
      index := index + 1;
    }
    assert records[..index] == records;
    return Some(root);
  }

  // ----- what the tree looks like -------------------------------------------------------------

  function Ids(nodes: seq<Node>): (ids: seq<uint16>)
    ensures |ids| == |nodes|
    ensures forall i :: 0 <= i < |nodes| ==> ids[i] == nodes[i].id
  {
    if nodes == [] then [] else [nodes[0].id] + Ids(nodes[1..])
  }

  /** What lies at a path: a leaf, or a branch with the identifiers below it in order (none when nothing is there). */
  datatype Entry = Leaf(value: Value) | Branch(ids: seq<uint16>)

  function Look(nodes: seq<Node>, q: Path): Entry
    decreases |q|, 0
  {
    if q == [] then Branch(Ids(nodes))
    else
      var i := Find(nodes, q[0]);
      if i == |nodes| then Branch([]) else LookIn(nodes[i], q[1..])
  }

  function LookIn(n: Node, rest: Path): Entry
    requires !n.Undefined?
    decreases |rest|, 1
  {
    match n
    case Resource(_, v) => if rest == [] then Leaf(v) else Branch([])
    case Container(_, _, children) => Look(children, rest)
  }

  lemma {:induction false} LookAt(nodes: seq<Node>, q: Path)
    requires q != [] && Find(nodes, q[0]) < |nodes|
    ensures var n := nodes[Find(nodes, q[0])];
            Look(nodes, q) == if n.Container? then Look(n.children, q[1..]) else if |q| == 1 then Leaf(n.value) else Branch([])
  {
  }

  /** A value lies on the way to the path. */
  ghost predicate PastValue(nodes: seq<Node>, path: Path) {
    exists k :: 0 < k < |path| && Look(nodes, path[..k]).Leaf?
  }

  lemma {:induction false} PastValueBelow(nodes: seq<Node>, path: Path)
    requires path != [] && Find(nodes, path[0]) < |nodes| && nodes[Find(nodes, path[0])].Container?
    ensures PastValue(nodes, path) <==> PastValue(nodes[Find(nodes, path[0])].children, path[1..])
  {
    var (id, rest, children) := (path[0], path[1..], nodes[Find(nodes, path[0])].children);
    forall k | 0 < k <= |path| ensures Look(nodes, path[..k]) == Look(children, rest[..k - 1]) {
      assert path[..k][1..] == rest[..k - 1];
    }
    assert Look(children, rest[..0]).Branch?;
    if k :| 0 < k < |rest| && Look(children, rest[..k]).Leaf? {
      assert Look(nodes, path[..k + 1]).Leaf?;
    }
    hide Look;
  }

  lemma {:induction false} NothingPast(nodes: seq<Node>, path: Path)
    requires path != [] && Find(nodes, path[0]) == |nodes|
    ensures !PastValue(nodes, path)
  {
    forall k | 0 < k < |path| ensures Look(nodes, path[..k]) == Branch([]) {
      assert path[..k][0] == path[0];
    }
  }

  /** A record is refused exactly when a value lies on the way to its path. */
  lemma {:induction false} RefusedExactly(nodes: seq<Node>, level: nat, path: Path, value: Option<Value>)
    requires path != [] && level + |path| <= 4
    ensures AddRecord(nodes, level, path, value).None? <==> PastValue(nodes, path)
    decreases |path|
  {
    var i := Find(nodes, path[0]);
    if |path| > 1 {
      if i == |nodes| {
        NothingPast(nodes, path);
        RefusedExactly([], level + 1, path[1..], value);
        NothingPast([], path[1..]);
      } else if nodes[i].Resource? {
        assert path[..1] == [path[0]] && Look(nodes, path[..1]).Leaf?;
      } else {
        PastValueBelow(nodes, path);
        RefusedExactly(nodes[i].children, level + 1, path[1..], value);
      }
    }
    hide PastValue, Look;
  }

  function LevelKind(level: nat): Kind
  {
    if level == 0 then KObject else if level == 1 then KInstance else KMultiple
  }

  predicate DistinctIds(nodes: seq<Node>) {
    forall i, j :: 0 <= i < j < |nodes| ==> nodes[i].id != nodes[j].id
  }

  /** A tree whose siblings have distinct identifiers, whose values lie at the resource levels and whose
      containers are of the kind of their level and not empty. */
  predicate Built(nodes: seq<Node>, level: nat) {
    DistinctIds(nodes) && forall n :: n in nodes ==> BuiltNode(n, level)
  }

  predicate BuiltNode(n: Node, level: nat) {
    match n
    case Undefined(_) => false
    case Resource(_, _) => 2 <= level <= 3
    case Container(_, kind, children) => level < 3 && kind == LevelKind(level) && children != [] && Built(children, level + 1)
  }

  /** Nothing lies at the path, and no value above it. */
  predicate Free(nodes: seq<Node>, p: Path)
    requires p != []
    decreases |p|
  {
    var i := Find(nodes, p[0]);
    i == |nodes| || (nodes[i].Container? && |p| > 1 && Free(nodes[i].children, p[1..]))
  }

  function Appended(ids: seq<uint16>, id: uint16): seq<uint16>
  {
    if id in ids then ids else ids + [id]
  }

  /** What the tree looks like at `q` once a leaf was added at `p`. */
  function WithLeaf(before: Entry, p: Path, v: Value, q: Path): Entry
  {
    if q == p then Leaf(v)
    else if |q| < |p| && p[..|q|] == q && before.Branch? then Branch(Appended(before.ids, p[|q|]))
    else before
  }

  // ----- one record ---------------------------------------------------------------------------

  function Put(nodes: seq<Node>, n: Node): seq<Node>
  {
    var i := Find(nodes, n.id);
    if i < |nodes| then nodes[i := n] else nodes + [n]
  }

  lemma {:induction false} PutBuilt(nodes: seq<Node>, level: nat, n: Node)
    requires Built(nodes, level) && BuiltNode(n, level)
    ensures Put(nodes, n) != [] && Built(Put(nodes, n), level)
  {
    var i := Find(nodes, n.id);
    var r := Put(nodes, n);
    forall m | m in r ensures BuiltNode(m, level) {
      assert m == n || m in nodes;
    }
    if i == |nodes| {
      forall j | 0 <= j < |nodes| ensures nodes[j].id != n.id {
        assert nodes[j] in nodes;
        assert BuiltNode(nodes[j], level);
      }
    }
    assert DistinctIds(r);
  }

  lemma {:induction false} PutIds(nodes: seq<Node>, level: nat, n: Node)
    requires Built(nodes, level)
    ensures Ids(Put(nodes, n)) == Appended(Ids(nodes), n.id)
  {
    var i := Find(nodes, n.id);
    var r := Put(nodes, n);
    if i < |nodes| {
      assert Ids(nodes)[i] == n.id;
    } else {
      forall j | 0 <= j < |nodes| ensures Ids(nodes)[j] != n.id {
        assert nodes[j] in nodes && BuiltNode(nodes[j], level);
      }
    }
  }

  lemma {:induction false} FindIs(nodes: seq<Node>, id: uint16, i: nat)
    requires i < |nodes| && nodes[i].id == id && !nodes[i].Undefined?
    requires forall j :: 0 <= j < i ==> nodes[j].id != id || nodes[j].Undefined?
    ensures Find(nodes, id) == i
  {
  }

  lemma {:induction false} PutFind(nodes: seq<Node>, n: Node, id: uint16)
    requires !n.Undefined?
    ensures var (r, k) := (Put(nodes, n), Find(Put(nodes, n), id));
            if id == n.id then k < |r| && r[k] == n
            else if Find(nodes, id) < |nodes| then k < |r| && r[k] == nodes[Find(nodes, id)] else k == |r|
  {
    var r := Put(nodes, n);
    if id == n.id {
      FindIs(r, id, Find(nodes, n.id));
    } else if Find(nodes, id) < |nodes| {
      FindIs(r, id, Find(nodes, id));
    }
  }

  lemma {:induction false} PutLook(nodes: seq<Node>, level: nat, n: Node, q: Path)
    requires Built(nodes, level) && !n.Undefined?
    ensures Look(Put(nodes, n), q) == if q == [] then Branch(Appended(Ids(nodes), n.id))
                                      else if q[0] == n.id then LookIn(n, q[1..])
                                      else Look(nodes, q)
  {
    if q == [] {
      PutIds(nodes, level, n);
    } else {
      PutFind(nodes, n, q[0]);
    }
  }

  /** The nodes below an identifier, none when it is not there. */
  function Below(nodes: seq<Node>, id: uint16): seq<Node>
  {
    var i := Find(nodes, id);
    if i < |nodes| && nodes[i].Container? then nodes[i].children else []
  }

  lemma {:induction false} BelowBuilt(nodes: seq<Node>, level: nat, p: Path)
    requires |p| > 1 && Built(nodes, level) && Free(nodes, p)
    ensures Built(Below(nodes, p[0]), level + 1) && Free(Below(nodes, p[0]), p[1..])
  {
    var i := Find(nodes, p[0]);
    if i < |nodes| {
      assert nodes[i] in nodes && BuiltNode(nodes[i], level);
    }
  }

  lemma {:induction false} BelowLook(nodes: seq<Node>, p: Path, q: Path)
    requires p != [] && Free(nodes, p) && q != [] && q[0] == p[0]
    ensures if |p| > 1 then Look(nodes, q) == Look(Below(nodes, p[0]), q[1..]) else Look(nodes, q) == Branch([])
  {
  }

  /** A record changes one node of a level: a new value, or a container with the rest of the record added. */
  lemma {:induction false} AddRecordPut(nodes: seq<Node>, level: nat, p: Path, v: Value)
    requires p != [] && 3 <= level + |p| <= 4 && Built(nodes, level) && Free(nodes, p)
    ensures AddRecord(nodes, level, p, Some(v)) ==
            if |p| == 1 then Some(Put(nodes, Resource(p[0], v)))
            else match AddRecord(Below(nodes, p[0]), level + 1, p[1..], Some(v))
                 case None => None
                 case Some(ch) => Some(Put(nodes, Container(p[0], LevelKind(level), ch)))
  {
    var i := Find(nodes, p[0]);
    if i < |nodes| {
      assert nodes[i] in nodes && BuiltNode(nodes[i], level);
    }
  }

  /** Adding a record where nothing lies changes the tree at its path, and the branches above it, only. */
  lemma {:induction false} AddRecordEffect(nodes: seq<Node>, level: nat, p: Path, v: Value, q: Path)
    requires p != [] && 3 <= level + |p| <= 4 && Built(nodes, level) && Free(nodes, p)
    ensures var r := AddRecord(nodes, level, p, Some(v));
            r.Some? && r.value != [] && Built(r.value, level) && Look(r.value, q) == WithLeaf(Look(nodes, q), p, v, q)
    decreases |p|
  {
    hide AddRecord, Find, Free, Look, LookIn, Put, Below, WithLeaf;
    AddRecordPut(nodes, level, p, v);
    var n := Resource(p[0], v);
    if |p| > 1 {
      var rest := if q == [] then [] else q[1..];
      BelowBuilt(nodes, level, p);
      AddRecordEffect(Below(nodes, p[0]), level + 1, p[1..], v, rest);
      n := Container(p[0], LevelKind(level), AddRecord(Below(nodes, p[0]), level + 1, p[1..], Some(v)).value);
    }
    PutBuilt(nodes, level, n);
    PutLook(nodes, level, n, q);
    hide Built, BuiltNode;
    LookAndLeaf(nodes, n, p, v, q);
  }

  lemma {:induction false} LookAndLeaf(nodes: seq<Node>, n: Node, p: Path, v: Value, q: Path)
    requires p != [] && Free(nodes, p) && n.id == p[0]
    requires if |p| == 1 then n == Resource(p[0], v)
             else n.Container? && Look(n.children, if q == [] then [] else q[1..])
                                  == WithLeaf(Look(Below(nodes, p[0]), if q == [] then [] else q[1..]), p[1..], v, if q == [] then [] else q[1..])
    ensures (if q == [] then Branch(Appended(Ids(nodes), n.id)) else if q[0] == n.id then LookIn(n, q[1..]) else Look(nodes, q))
         == WithLeaf(Look(nodes, q), p, v, q)
  {
    if q != [] && q[0] == p[0] {
      BelowLook(nodes, p, q);
      hide Free, Find, Ids;
      assert q == [q[0]] + q[1..] && p == [p[0]] + p[1..];
      assert |q| < |p| ==> p[..|q|] == [p[0]] + p[1..][..|q| - 1];
    }
  }

  /** The contents of a value are gone, its type is not. */
  predicate IsCleared(v: Value, was: Value) {
    match was
    case Str(_) => v == Str([])
    case Opaque(_) => v == Opaque([])
    case CoreLink(_) => v == CoreLink([])
    case Integer(_) => v == Integer(0)
    case Unsigned(_) => v == Unsigned(0)
    case Boolean(_) => v == Boolean(false)
    case ObjectLink(_, _) => v == ObjectLink(0, 0)
  }

  /** What lies at the path of a record that comes where something lies: the new value; without one, what was there
      without its contents. */
  predicate Replaced(after: Entry, before: Entry, value: Option<Value>) {
    if value.Some? then after == Leaf(value.value)
    else if before.Leaf? then after.Leaf? && IsCleared(after.value, before.value)
    else after == Branch([])
  }

  /** A record down to a resource, where something lies already, replaces that with everything below it, and changes
      nothing else. */
  lemma {:induction false} RecordAgain(nodes: seq<Node>, level: nat, p: Path, value: Option<Value>, q: Path)
    requires p != [] && level + |p| <= 3 && Built(nodes, level) && Look(nodes, p) != Branch([])
    ensures var r := AddRecord(nodes, level, p, value);
            && r.Some?
            && (q == p ==> Replaced(Look(r.value, q), Look(nodes, p), value))
            && (|p| < |q| && q[..|p|] == p ==> Look(r.value, q) == Branch([]))
            && (!(|p| <= |q| && q[..|p|] == p) ==> Look(r.value, q) == Look(nodes, q))
    decreases |p|
  {
    var old_ := nodes[Find(nodes, p[0])];
    AgainPut(nodes, level, p, value);
    hide Built, AddRecord, Put, Look, Find, Convert;
    if |p| == 1 {
      AgainLook(nodes, level, p, Convert(old_, value), q);
    } else {
      var rest := if q == [] then [] else q[1..];
      RecordAgain(old_.children, level + 1, p[1..], value, rest);
      AgainLook(nodes, level, p, Container(p[0], old_.kind, AddRecord(old_.children, level + 1, p[1..], value).value), q);
    }
    ConvertLook(old_, value);
    hide Replaced, IsCleared, LookIn;
  }

  /** The node that is there is the one that changes. */
  lemma {:induction false} AgainPut(nodes: seq<Node>, level: nat, p: Path, value: Option<Value>)
    requires p != [] && level + |p| <= 3 && Built(nodes, level) && Look(nodes, p) != Branch([])
    ensures Find(nodes, p[0]) < |nodes|
    ensures var n := nodes[Find(nodes, p[0])];
            && n.id == p[0] && !n.Undefined?
            && (|p| == 1 ==> AddRecord(nodes, level, p, value) == Some(Put(nodes, Convert(n, value))) && Look(nodes, p) == LookIn(n, []))
            && (|p| > 1 ==>
                  && n.Container? && Built(n.children, level + 1) && Look(n.children, p[1..]) == Look(nodes, p)
                  && AddRecord(nodes, level, p, value)
                     == match AddRecord(n.children, level + 1, p[1..], value)
                        case None => None
                        case Some(ch) => Some(Put(nodes, Container(p[0], n.kind, ch))))
  {
    var i := Find(nodes, p[0]);
    assert nodes[i] in nodes && BuiltNode(nodes[i], level);
    assert |p| == 1 ==> p[1..] == [];
  }

  /** What is seen below the node that changed, and beside it. */
  lemma {:induction false} AgainLook(nodes: seq<Node>, level: nat, p: Path, n: Node, q: Path)
    requires p != [] && Built(nodes, level) && n.id == p[0] && !n.Undefined? && Find(nodes, p[0]) < |nodes|
    ensures Look(Put(nodes, n), q) == if q != [] && q[0] == p[0] then LookIn(n, q[1..]) else Look(nodes, q)
    ensures q != [] && q[0] == p[0] ==> Look(nodes, q) == LookIn(nodes[Find(nodes, p[0])], q[1..])
    ensures q != [] && q[0] == p[0] ==> (q == p <==> q[1..] == p[1..])
    ensures q != [] && q[0] == p[0] && |p| <= |q| ==> (q[..|p|] == p <==> q[1..][..|p| - 1] == p[1..])
  {
    PutLook(nodes, level, n, q);
    assert Ids(nodes)[Find(nodes, p[0])] == p[0];
    hide Built, Put;
    if q != [] && q[0] == p[0] {
      assert q == [q[0]] + q[1..] && p == [p[0]] + p[1..];
      if |p| <= |q| {
        assert q[..|p|] == [q[0]] + q[1..][..|p| - 1];
      }
    }
  }

  lemma {:induction false} ConvertLook(n: Node, value: Option<Value>)
    requires !n.Undefined?
    ensures var m := Convert(n, value);
            && m.id == n.id && !m.Undefined? && Replaced(LookIn(m, []), LookIn(n, []), value)
            && forall rest: Path :: rest != [] ==> LookIn(m, rest) == Branch([])
  {
  }

  /** A second record of a resource instance does not replace the first: there are two of them then. */
  lemma {:induction false} InstanceTwice(nodes: seq<Node>, id: uint16, value: Value)
    ensures AddRecord(nodes, 3, [id], Some(value)) == Some(nodes + [Resource(id, value)])
  {
  }

  // ----- all records --------------------------------------------------------------------------

  /** Is `q` the path itself or a path above it? */
  predicate Above(q: Path, p: Path) {
    |q| <= |p| && p[..|q|] == q
  }

  /** Records with a value at a resource or resource instance, none at or above the path of another. */
  predicate Regular(records: seq<Record>) {
    && (forall i :: 0 <= i < |records| ==> 3 <= |records[i].path| <= 4 && records[i].value.Some?)
    && (forall i, j :: 0 <= i < |records| && 0 <= j < |records| && i != j ==> !Above(records[i].path, records[j].path))
  }

  /** The identifiers right below `q` in the order in which the records first mention them. */
  function FirstMentions(records: seq<Record>, q: Path): seq<uint16>
  {
    if records == [] then []
    else
      var earlier := FirstMentions(records[..|records| - 1], q);
      var p := records[|records| - 1].path;
      if |q| < |p| && p[..|q|] == q then Appended(earlier, p[|q|]) else earlier
  }

  /** A path with nothing above it but branches, and nothing at it, is free. */
  lemma {:induction false} LookFree(nodes: seq<Node>, level: nat, p: Path)
    requires p != [] && Built(nodes, level)
    requires forall k :: 0 <= k <= |p| ==> Look(nodes, p[..k]).Branch?
    requires Look(nodes, p) == Branch([])
    ensures Free(nodes, p)
    decreases |p|
  {
    var i := Find(nodes, p[0]);
    if i < |nodes| {
      assert nodes[i] in nodes && BuiltNode(nodes[i], level);
      assert Look(nodes, p[..1]).Branch? && p[..1][1..] == [] && p[..1][0] == p[0];
      LookAt(nodes, p[..1]);
      assert nodes[i].Container? && p[..|p|] == p;
      if |p| == 1 {
        assert false;
      } else {
        forall k | 0 <= k <= |p| - 1 ensures Look(nodes[i].children, p[1..][..k]).Branch? {
          assert Look(nodes, p[..k + 1]).Branch?;
          LookAt(nodes, p[..k + 1]);
          assert p[..k + 1][1..] == p[1..][..k];
        }
        LookFree(nodes[i].children, level + 1, p[1..]);
      }
    }
  }

  lemma {:induction false} NoMentions(records: seq<Record>, q: Path)
    requires forall i :: 0 <= i < |records| ==> !Above(q, records[i].path)
    ensures FirstMentions(records, q) == []
  {
    if records != [] {
      NoMentions(records[..|records| - 1], q);
      assert records[|records| - 1] == records[..][|records| - 1];
    }
  }

  /** What the tree is to look like at `q`. */
  ghost predicate Shows(records: seq<Record>, q: Path, e: Entry) {
    match e
    case Leaf(v) => exists i :: 0 <= i < |records| && records[i] == Record(q, Some(v))
    case Branch(ids) => ids == FirstMentions(records, q) && forall i :: 0 <= i < |records| ==> records[i].path != q
  }

  /** The tree of regular records, in any order: it has the value of each record at its path and no other values,
      and the siblings below every path are distinct and in the order of their first mention. */
  lemma {:induction false} Regroup(records: seq<Record>, q: Path)
    requires IsRecords(records) && Regular(records)
    ensures var r := AddAll([], records); r.Some? && Built(r.value, 0) && Shows(records, q, Look(r.value, q))
    decreases |records|
  {
    if records != [] {
      hide Look, Built, Shows, FirstMentions, Above, AddRecord, WithLeaf, Free;
      var n := |records| - 1;
      var (earlier, last) := (records[..n], records[n]);
      assert Regular(earlier);
      Regroup(earlier, q);
      var nodes := AddAll([], earlier).value;
      NewPathFree(records, nodes);
      AddRecordEffect(nodes, 0, last.path, last.value.value, q);
      RegroupStep(records, q, Look(nodes, q));
    }
  }

  lemma {:induction false} NewPathFree(records: seq<Record>, nodes: seq<Node>)
    requires IsRecords(records) && Regular(records) && records != []
    requires AddAll([], records[..|records| - 1]) == Some(nodes) && Built(nodes, 0)
    ensures Free(nodes, records[|records| - 1].path)
    decreases |records|, 0
  {
    var n := |records| - 1;
    var (earlier, p) := (records[..n], records[n].path);
    forall k | 0 <= k <= |p| ensures Look(nodes, p[..k]).Branch? {
      Regroup(earlier, p[..k]);
      forall i | 0 <= i < n ensures records[i].path != p[..k] {
        assert earlier[i] == records[i] && !Above(records[i].path, p);
      }
    }
    Regroup(earlier, p);
    assert p[..|p|] == p;
    NoMentions(earlier, p) by {
      forall i | 0 <= i < n ensures !Above(p, earlier[i].path) {
        assert earlier[i] == records[i];
      }
    }
    LookFree(nodes, 0, p);
  }

  lemma {:induction false} RegroupStep(records: seq<Record>, q: Path, before: Entry)
    requires Regular(records) && records != [] && Shows(records[..|records| - 1], q, before)
    ensures var last := records[|records| - 1]; Shows(records, q, WithLeaf(before, last.path, last.value.value, q))
  {
    var n := |records| - 1;
    assert forall i :: 0 <= i < n ==> records[..n][i] == records[i];
    if before.Leaf? {
      var i :| 0 <= i < n && records[..n][i] == Record(q, Some(before.value));
      assert records[i] == Record(q, Some(before.value));
      assert !Above(q, records[n].path);
    }
  }
}
