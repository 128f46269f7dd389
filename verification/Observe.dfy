/** Observations and notifications (core/observe.c:57-332, 517-841). Reading and serializing a resource, the
    clock and the sessions of servers are parameters; values and thresholds are reals. */
module Observe {
  import opened Bytes
  import opened Uri

  datatype Attributes = Attributes(minPeriod: Option<nat>, maxPeriod: Option<nat>,
                                   greaterThan: Option<real>, lessThan: Option<real>, step: Option<real>)

  datatype Watcher = Watcher(server: nat, active: bool, update: bool, attributes: Option<Attributes>,
                             lastTime: int, lastMid: uint16, counter: uint32, lastValue: real)

  datatype Observed = Observed(uri: Path, watchers: seq<Watcher>)

  /** A notification that was sent. */
  datatype Notification = Notification(uri: Path, server: nat, time: int)

  // ----- finding ------------------------------------------------------------------------------

  /** `prv_findObserved` asks only for the identifiers that are set: any observation at or below the path will do. */
  predicate IsBelow(target: Path, uri: Path) {
    uri <= target
  }

  function FindObserved(list: seq<Observed>, uri: Path): (i: nat)
    ensures i <= |list|
    ensures i < |list| ==> IsBelow(list[i].uri, uri)
    ensures forall j :: 0 <= j < i ==> !IsBelow(list[j].uri, uri)
  {
    if list == [] || IsBelow(list[0].uri, uri) then 0 else 1 + FindObserved(list[1..], uri)
  }

  function FindWatcher(ws: seq<Watcher>, server: nat): (i: nat)
    ensures i <= |ws|
    ensures i < |ws| ==> ws[i].server == server
    ensures forall j :: 0 <= j < i ==> ws[j].server != server
  {
    if ws == [] || ws[0].server == server then 0 else 1 + FindWatcher(ws[1..], server)
  }

  function NewWatcher(server: nat): Watcher
  {
    Watcher(server, false, false, None, 0, 0, 0, 0.0)
  }

  /** What a server asks of its watcher: to notify from now on, starting from the value it gets now if that is a number,
      or to use other attributes. */
  datatype Request = Watch(now: int, mid: uint16, value: Option<real>) | SetAttributes(attributes: Option<Attributes>)

  /** The watcher's part of `observe_handleRequest` and `observe_setParameters`. */
  function Modified(w: Watcher, r: Request): (m: Watcher)
    ensures m.server == w.server
  {
    match r
    case Watch(now, mid, value) =>
      w.(active := true, lastTime := now, lastMid := mid, lastValue := if value.Some? then value.value else w.lastValue,
         counter := (w.counter + 1) % 0x1_0000_0000)
    case SetAttributes(attributes) => w.(attributes := attributes)
  }

  function ModifiedIn(ws: seq<Watcher>, server: nat, r: Request): seq<Watcher>
  {
    var k := FindWatcher(ws, server);
    if k == |ws| then [Modified(NewWatcher(server), r)] + ws else ws[k := Modified(ws[k], r)]
  }

  /** The watcher that `prv_getWatcher` finds or makes, modified. */
  function Requested(list: seq<Observed>, uri: Path, server: nat, r: Request): seq<Observed>
  {
    var i := FindObserved(list, uri);
    if i == |list| then [Observed(uri, ModifiedIn([], server, r))] + list
    else list[i := list[i].(watchers := ModifiedIn(list[i].watchers, server, r))]
  }

  // ----- structure ----------------------------------------------------------------------------

  predicate DistinctServers(ws: seq<Watcher>) {
    forall i, j :: 0 <= i < j < |ws| ==> ws[i].server != ws[j].server
  }

  /** Every observation is watched, by each server once, and none was entered while one at or below it was there. */
  predicate Structure(list: seq<Observed>) {
    && (forall i :: 0 <= i < |list| ==> list[i].watchers != [] && DistinctServers(list[i].watchers))
    && (forall i, j :: 0 <= i < j < |list| ==> !IsBelow(list[j].uri, list[i].uri))
  }

  lemma {:induction false} UrisDistinct(list: seq<Observed>, i: nat, j: nat)
    requires Structure(list) && i < j < |list|
    ensures list[i].uri != list[j].uri
  {
    assert !IsBelow(list[j].uri, list[i].uri);
  }

  lemma {:induction false} ModifiedInKeeps(ws: seq<Watcher>, server: nat, r: Request)
    requires DistinctServers(ws)
    ensures ModifiedIn(ws, server, r) != [] && DistinctServers(ModifiedIn(ws, server, r))
  {
  }

  lemma {:induction false} RequestedKeeps(list: seq<Observed>, uri: Path, server: nat, r: Request)
    requires Structure(list)
    ensures Structure(Requested(list, uri, server, r))
  {
    var i := FindObserved(list, uri);
    ModifiedInKeeps([], server, r);
    if i < |list| {
      ModifiedInKeeps(list[i].watchers, server, r);
    }
    hide ModifiedIn, DistinctServers;
  }

  // ----- cancelling ---------------------------------------------------------------------------

  /** Does this watcher belong to the message with this ID from one of these servers? */
  predicate IsMeant(w: Watcher, mid: uint16, peers: set<nat>) {
    w.lastMid == mid && w.server in peers
  }

  function FindMeant(ws: seq<Watcher>, mid: uint16, peers: set<nat>): (i: nat)
    ensures i <= |ws|
    ensures i < |ws| ==> IsMeant(ws[i], mid, peers)
    ensures forall j :: 0 <= j < i ==> !IsMeant(ws[j], mid, peers)
  {
    if ws == [] || IsMeant(ws[0], mid, peers) then 0 else 1 + FindMeant(ws[1..], mid, peers)
  }

  /** `observe_cancel`: the first watcher that is meant goes, and its observation if nobody else watches. */
  function Cancelled(list: seq<Observed>, mid: uint16, peers: set<nat>): seq<Observed>
  {
    if list == [] then []
    else
      var ws := list[0].watchers;
      var k := FindMeant(ws, mid, peers);
      if k == |ws| then [list[0]] + Cancelled(list[1..], mid, peers)
      else
        var rest := ws[..k] + ws[k + 1..];
        if rest == [] then list[1..] else [list[0].(watchers := rest)] + list[1..]
  }

  lemma {:induction false} CancelledUris(list: seq<Observed>, mid: uint16, peers: set<nat>)
    ensures forall o :: o in Cancelled(list, mid, peers) ==> exists p :: p in list && p.uri == o.uri
  {
    if list != [] {
      CancelledUris(list[1..], mid, peers);
      assert list[0] in list && (forall p :: p in list[1..] ==> p in list);
    }
  }

  lemma {:induction false} StructureCons(o: Observed, list: seq<Observed>)
    requires Structure(list) && o.watchers != [] && DistinctServers(o.watchers)
    requires forall p :: p in list ==> !IsBelow(p.uri, o.uri)
    ensures Structure([o] + list)
  {
  }

  lemma {:induction false} StructureTail(list: seq<Observed>)
    requires Structure(list) && list != []
    ensures Structure(list[1..]) && list[0].watchers != [] && DistinctServers(list[0].watchers)
    ensures forall p :: p in list[1..] ==> !IsBelow(p.uri, list[0].uri)
  {
  }

  lemma {:induction false} CancelledKeeps(list: seq<Observed>, mid: uint16, peers: set<nat>)
    requires Structure(list)
    ensures Structure(Cancelled(list, mid, peers))
  {
    if list != [] {
      StructureTail(list);
      CancelledKeeps(list[1..], mid, peers);
      var ws := list[0].watchers;
      var k := FindMeant(ws, mid, peers);
      hide Structure;
      if k == |ws| {
        CancelledUris(list[1..], mid, peers);
        StructureCons(list[0], Cancelled(list[1..], mid, peers));
      } else if ws[..k] + ws[k + 1..] != [] {
        StructureCons(list[0].(watchers := ws[..k] + ws[k + 1..]), list[1..]);
      }
    }
  }

  // ----- clearing -----------------------------------------------------------------------------

  /** `observe_clear` is for an object, or an instance of it, that is deleted. */
  predicate IsCleared(target: Path, uri: Path)
    requires 1 <= |uri|
  {
    target != [] && target[0] == uri[0] && (|uri| == 1 || (|target| >= 2 && target[1] == uri[1]))
  }

  function Cleared(list: seq<Observed>, uri: Path): seq<Observed>
    requires 1 <= |uri|
  {
    if list == [] then []
    else if IsCleared(list[0].uri, uri) then Cleared(list[1..], uri)
    else [list[0]] + Cleared(list[1..], uri)
  }

  /** Exactly the observations of paths that begin with the object, or the object instance, go; the others stay as they
      were. */
  lemma {:induction false} ClearedMembers(list: seq<Observed>, uri: Path, o: Observed)
    requires 1 <= |uri|
    ensures o in Cleared(list, uri) <==> o in list && !IsCleared(o.uri, uri)
    ensures o in Cleared(list, uri) <==> o in list && !(uri[..Min(|uri|, 2)] <= o.uri)
  {
    assert IsCleared(o.uri, uri) <==> uri[..Min(|uri|, 2)] <= o.uri;
    if list != [] {
      ClearedMembers(list[1..], uri, o);
      assert o in list <==> o == list[0] || o in list[1..];
    }
  }

  lemma {:induction false} ClearedKeeps(list: seq<Observed>, uri: Path)
    requires Structure(list) && 1 <= |uri|
    ensures Structure(Cleared(list, uri))
  {
    if list != [] {
      StructureTail(list);
      ClearedKeeps(list[1..], uri);
      forall p | p in Cleared(list[1..], uri) ensures !IsBelow(p.uri, list[0].uri) {
        ClearedMembers(list[1..], uri, p);
      }
      hide Structure;
      if !IsCleared(list[0].uri, uri) {
        StructureCons(list[0], Cleared(list[1..], uri));
      }
    }
  }

  lemma {:induction false} ClearedConcat(a: seq<Observed>, b: seq<Observed>, uri: Path)
    requires 1 <= |uri|
    ensures Cleared(a + b, uri) == Cleared(a, uri) + Cleared(b, uri)
  {
    if a == [] {
      assert a + b == b;
    } else {
      ClearedConcat(a[1..], b, uri);
      assert (a + b)[1..] == a[1..] + b;
    }
  }

  // ----- notifying ----------------------------------------------------------------------------

  /** What reading an observed path gives: a number, if the resource holds one, and whether it can be serialized. */
  datatype Reading = Unreadable | Readable(value: Option<real>, serializes: bool)

  predicate Crosses(limit: real, before: real, after: real) {
    (after < limit && before > limit) || (after > limit && before < limit)
  }

  /** Is one of the numeric conditions met? */
  predicate ThresholdMet(a: Attributes, before: real, value: Option<real>) {
    value.Some? &&
    (|| (a.lessThan.Some? && Crosses(a.lessThan.value, before, value.value))
     || (a.greaterThan.Some? && Crosses(a.greaterThan.value, before, value.value))
     || (a.step.Some? && (if value.value < before then before - value.value else value.value - before) >= a.step.value))
  }

  /** No attribute is set. */
  predicate Unconditional(attributes: Option<Attributes>) {
    attributes.None? || attributes.value == Attributes(None, None, None, None, None)
  }

  /** Does an active watcher get a notification? Once a value has changed and the minimum period is over, the
      thresholds no longer matter. */
  predicate Due(w: Watcher, value: Option<real>, now: int) {
    var a := if w.attributes.Some? then w.attributes.value else Attributes(None, None, None, None, None);
    var changed :=
      w.update &&
      if a.minPeriod.Some? then w.lastTime + a.minPeriod.value <= now
      else Unconditional(w.attributes) || ThresholdMet(a, w.lastValue, value);
    w.active && (changed || (a.maxPeriod.Some? && w.lastTime + a.maxPeriod.value <= now))
  }

  /** The watcher after it was notified. */
  function Notified(w: Watcher, value: Option<real>, now: int, mid: uint16): Watcher
  {
    w.(lastTime := now, lastMid := mid, counter := (w.counter + 1) % 0x1_0000_0000, update := false,
       lastValue := if value.Some? then value.value else w.lastValue)
  }

  function NextMid(mid: uint16): uint16
  {
    if mid == 0xFFFF then 0 else mid + 1
  }

  /** The watchers of one observation, their servers that were notified, and the next message ID. */
  datatype Round = Round(watchers: seq<Watcher>, servers: seq<nat>, mid: uint16)

  /** The inner loop of `observe_step`: where the value cannot be serialized it ends before anyone is notified. */
  function StepWatchers(ws: seq<Watcher>, r: Reading, now: int, mid: uint16): Round
  {
    if ws == [] || r.Unreadable? || !r.serializes then Round(ws, [], mid)
    else if Due(ws[0], r.value, now) then
      var rest := StepWatchers(ws[1..], r, now, NextMid(mid));
      Round([Notified(ws[0], r.value, now, mid)] + rest.watchers, [ws[0].server] + rest.servers, rest.mid)
    else
      var rest := StepWatchers(ws[1..], r, now, mid);
      Round([ws[0]] + rest.watchers, rest.servers, rest.mid)
  }

  function Notes(uri: Path, servers: seq<nat>, now: int): seq<Notification>
  {
    if servers == [] then [] else [Notification(uri, servers[0], now)] + Notes(uri, servers[1..], now)
  }

  datatype Stepped = Stepped(list: seq<Observed>, notes: seq<Notification>, mid: uint16)

  /** `observe_step`; the readings are those of the observations in their order. */
  function StepAll(list: seq<Observed>, readings: seq<Reading>, now: int, mid: uint16): Stepped
    decreases |list|
  {
    if list == [] then Stepped([], [], mid)
    else
      var round := StepWatchers(list[0].watchers, if readings == [] then Unreadable else readings[0], now, mid);
      var rest := StepAll(list[1..], if readings == [] then [] else readings[1..], now, round.mid);
      Stepped([list[0].(watchers := round.watchers)] + rest.list, Notes(list[0].uri, round.servers, now) + rest.notes, rest.mid)
  }

  /** The minimum period is kept by every notification, whatever the values, exactly when the maximum period is
      unset or not below it. */
  lemma {:induction false} MinimumPeriodKept(a: Attributes)
    requires a.minPeriod.Some?
    ensures (forall w: Watcher, value: Option<real>, now: int ::
               w.attributes == Some(a) && Due(w, value, now) ==> now - w.lastTime >= a.minPeriod.value)
            <==> (a.maxPeriod.None? || a.minPeriod.value <= a.maxPeriod.value)
  {
    if a.maxPeriod.Some? && a.minPeriod.value > a.maxPeriod.value {
      var w := Watcher(0, true, false, Some(a), 0, 0, 0, 0.0);
      assert Due(w, None, a.maxPeriod.value);
    }
  }

  /** Is this path above or below the other? */
  predicate Related(target: Path, uri: Path) {
    target != [] && uri != [] && (target <= uri || uri <= target)
  }

  function TagWatchers(ws: seq<Watcher>): (r: seq<Watcher>)
    ensures |r| == |ws|
    ensures forall i :: 0 <= i < |ws| ==> r[i] == ws[i].(update := ws[i].update || ws[i].active)
  {
    if ws == [] then [] else [ws[0].(update := ws[0].update || ws[0].active)] + TagWatchers(ws[1..])
  }

  /** `lwm2m_resource_value_changed` */
  function Tagged(list: seq<Observed>, uri: Path): (r: seq<Observed>)
    ensures |r| == |list|
    ensures forall i :: 0 <= i < |list| ==>
              r[i] == if Related(list[i].uri, uri) then list[i].(watchers := TagWatchers(list[i].watchers)) else list[i]
  {
    if list == [] then []
    else
      [if Related(list[0].uri, uri) then list[0].(watchers := TagWatchers(list[0].watchers)) else list[0]]
      + Tagged(list[1..], uri)
  }

  /** What one round of the loop of `observe_cancel` comes to. */
  lemma {:induction false} CancelStep(list: seq<Observed>, i: nat, mid: uint16, peers: set<nat>)
    requires i < |list| && Cancelled(list, mid, peers) == list[..i] + Cancelled(list[i..], mid, peers)
    ensures var (ws, k) := (list[i].watchers, FindMeant(list[i].watchers, mid, peers));
            Cancelled(list, mid, peers)
            == if k == |ws| then list[..i + 1] + Cancelled(list[i + 1..], mid, peers)
               else if ws[..k] + ws[k + 1..] == [] then list[..i] + list[i + 1..]
               else list[i := list[i].(watchers := ws[..k] + ws[k + 1..])]
  {
    var (ws, k) := (list[i].watchers, FindMeant(list[i].watchers, mid, peers));
    assert list[i..][0] == list[i] && list[i..][1..] == list[i + 1..];
    if k == |ws| {
      assert list[..i] + ([list[i]] + Cancelled(list[i + 1..], mid, peers)) == list[..i + 1] + Cancelled(list[i + 1..], mid, peers);
    } else if ws[..k] + ws[k + 1..] != [] {
      assert list[..i] + ([list[i].(watchers := ws[..k] + ws[k + 1..])] + list[i + 1..]) == list[i := list[i].(watchers := ws[..k] + ws[k + 1..])];
    }
  }

  /** The search of `observe_cancel`, which looks at the first watcher without asking whether there is one. */
  method FindMeantIn(ws: seq<Watcher>, mid: uint16, peers: set<nat>) returns (k: nat)
    requires ws != []
    ensures k == FindMeant(ws, mid, peers)
  {
    if IsMeant(ws[0], mid, peers) { return 0; }
    var parent := 0;
    while parent + 1 < |ws| && !IsMeant(ws[parent + 1], mid, peers)
      invariant 0 <= parent < |ws| && forall j :: 0 <= j <= parent ==> !IsMeant(ws[j], mid, peers)
    {
      parent := parent + 1;
    }
    return parent + 1;
  }

  function Join(done: seq<Watcher>, servers: seq<nat>, rest: Round): Round
  {
    Round(done + rest.watchers, servers + rest.servers, rest.mid)
  }

  /** One round of the inner loop of `observe_step`. */
  lemma {:induction false} JoinStep(done: seq<Watcher>, servers: seq<nat>, ws: seq<Watcher>, k: nat, r: Reading, now: int, mid: uint16)
    requires k < |ws| && r.Readable? && (Due(ws[k], r.value, now) ==> r.serializes)
    ensures Join(done, servers, StepWatchers(ws[k..], r, now, mid))
         == if Due(ws[k], r.value, now)
            then Join(done + [Notified(ws[k], r.value, now, mid)], servers + [ws[k].server], StepWatchers(ws[k + 1..], r, now, NextMid(mid)))
            else Join(done + [ws[k]], servers, StepWatchers(ws[k + 1..], r, now, mid))
  {
    assert ws[k..][0] == ws[k] && ws[k..][1..] == ws[k + 1..];
    hide Due, Notified;
    if Due(ws[k], r.value, now) {
      var rest := StepWatchers(ws[k + 1..], r, now, NextMid(mid));
      ConcatAssociative(done, [Notified(ws[k], r.value, now, mid)], rest.watchers);
      ConcatAssociative(servers, [ws[k].server], rest.servers);
    } else {
      if !r.serializes { QuietEnd(ws[k + 1..], r, now, mid); }
      ConcatAssociative(done, [ws[k]], StepWatchers(ws[k + 1..], r, now, mid).watchers);
      if !r.serializes { assert ws[k..] == [ws[k]] + ws[k + 1..]; }
    }
  }

  lemma {:induction false} QuietEnd(ws: seq<Watcher>, r: Reading, now: int, mid: uint16)
    requires r.Unreadable? || !r.serializes
    ensures StepWatchers(ws, r, now, mid) == Round(ws, [], mid)
  {
  }

  /** The inner loop of `observe_step`. */
  method StepObserved(ws: seq<Watcher>, r: Reading, now: int, firstMid: uint16) returns (round: Round)
    ensures round == StepWatchers(ws, r, now, firstMid)
  {
    if r.Unreadable? { return Round(ws, [], firstMid); }
    var done: seq<Watcher> := [];
    var servers: seq<nat> := [];
    var mid := firstMid;
    var k := 0;
    assert ws[0..] == ws && [] + StepWatchers(ws, r, now, mid).watchers == StepWatchers(ws, r, now, mid).watchers;
    assert [] + StepWatchers(ws, r, now, mid).servers == StepWatchers(ws, r, now, mid).servers;
    hide Due, Notified, Join;
    while k < |ws|
      invariant 0 <= k <= |ws|
      invariant Join(done, servers, StepWatchers(ws[k..], r, now, mid)) == Join([], [], StepWatchers(ws, r, now, firstMid))
    {
      hide StepWatchers;
      var due := Due(ws[k], r.value, now);
      if due && !r.serializes { break; }
      JoinStep(done, servers, ws, k, r, now, mid);
      if due {
        done := done + [Notified(ws[k], r.value, now, mid)];
        servers := servers + [ws[k].server];
        mid := NextMid(mid);
      } else {
        done := done + [ws[k]];
      }
      k := k + 1;
    }
    JoinEnd(done, servers, ws[k..], r, now, mid, StepWatchers(ws, r, now, firstMid));
    return Round(done + ws[k..], servers, mid);
  }

  lemma {:induction false} JoinEnd(done: seq<Watcher>, servers: seq<nat>, ws: seq<Watcher>, r: Reading, now: int, mid: uint16, all: Round)
    requires r.Readable? && (ws == [] || !r.serializes)
    requires Join(done, servers, StepWatchers(ws, r, now, mid)) == Join([], [], all)
    ensures Round(done + ws, servers, mid) == all
  {
    assert servers + [] == servers && [] + all.watchers == all.watchers && [] + all.servers == all.servers;
  }

  function JoinAll(done: seq<Observed>, notes: seq<Notification>, rest: Stepped): Stepped
  {
    Stepped(done + rest.list, notes + rest.notes, rest.mid)
  }

  lemma {:induction false} JoinAllStart(all: Stepped)
    ensures JoinAll([], [], all) == all
  {
    assert [] + all.list == all.list && [] + all.notes == all.notes;
  }

  /** One round of the outer loop of `observe_step`. */
  lemma {:induction false} JoinAllStep(done: seq<Observed>, notes: seq<Notification>, list: seq<Observed>, readings: seq<Reading>, i: nat, now: int, mid: uint16)
    requires i < |list| == |readings|
    ensures var round := StepWatchers(list[i].watchers, readings[i], now, mid);
            JoinAll(done, notes, StepAll(list[i..], readings[i..], now, mid))
            == JoinAll(done + [list[i].(watchers := round.watchers)], notes + Notes(list[i].uri, round.servers, now),
                       StepAll(list[i + 1..], readings[i + 1..], now, round.mid))
  {
    assert list[i..][0] == list[i] && list[i..][1..] == list[i + 1..];
    assert readings[i..][0] == readings[i] && readings[i..][1..] == readings[i + 1..];
    hide StepWatchers, Notes;
    var round := StepWatchers(list[i].watchers, readings[i], now, mid);
    var rest := StepAll(list[i + 1..], readings[i + 1..], now, round.mid);
    ConcatAssociative(done, [list[i].(watchers := round.watchers)], rest.list);
    ConcatAssociative(notes, Notes(list[i].uri, round.servers, now), rest.notes);
  }

  lemma {:induction false} JoinAllEnd(done: seq<Observed>, notes: seq<Notification>, list: seq<Observed>, readings: seq<Reading>, now: int, mid: uint16, all: Stepped)
    requires |list| == |readings| && JoinAll(done, notes, StepAll(list[|list|..], readings[|list|..], now, mid)) == all
    ensures all == Stepped(done, notes, mid)
  {
    assert done + [] == done && notes + [] == notes;
  }

  // ----- the context, updated in place --------------------------------------------------------

  class ObserveContext {
    var observed: seq<Observed>
    var nextMid: uint16
    var log: seq<Notification>

    constructor ()
      ensures observed == [] && log == []
    {
      observed, nextMid, log := [], 0, [];
    }

    /** `prv_getWatcher`, with what the caller does to the watcher. */
    method HandleRequest(uri: Path, server: nat, r: Request)
      modifies this`observed
      ensures observed == Requested(old(observed), uri, server, r)
    {
      var i := 0;
      while i < |observed| && !IsBelow(observed[i].uri, uri)
        invariant 0 <= i <= |observed|
        invariant forall j :: 0 <= j < i ==> !IsBelow(observed[j].uri, uri)
      {
        i := i + 1;
      }
      if i == |observed| {
        observed := [Observed(uri, [])] + observed;
        i := 0;
      }
      var ws := observed[i].watchers;
      var k := 0;
      while k < |ws| && ws[k].server != server
        invariant 0 <= k <= |ws|
        invariant forall j :: 0 <= j < k ==> ws[j].server != server
      {
        k := k + 1;
      }
      if k == |ws| {
        ws := [Modified(NewWatcher(server), r)] + ws;
      } else {
        ws := ws[k := Modified(ws[k], r)];
      }
      observed := observed[i := observed[i].(watchers := ws)];
    }

    /** `observe_cancel`, which relies on every observation having a watcher. */
    method Cancel(mid: uint16, peers: set<nat>)
      requires Structure(observed)
      modifies this`observed
      ensures observed == Cancelled(old(observed), mid, peers)
    {
      ghost var before := observed;
      var i := 0;
      assert before[0..] == before;
      while i < |observed|
        invariant 0 <= i <= |observed| && observed == before
        invariant Cancelled(before, mid, peers) == before[..i] + Cancelled(before[i..], mid, peers)
      {
        var ws := observed[i].watchers;
        var k := FindMeantIn(ws, mid, peers);
        CancelStep(before, i, mid, peers);
        hide Cancelled, Structure;
        if k < |ws| {
          ws := ws[..k] + ws[k + 1..];
          if ws == [] {
            observed := observed[..i] + observed[i + 1..];
          } else {
            observed := observed[i := observed[i].(watchers := ws)];
          }
          return;
        }
        i := i + 1;
      }
      assert before[..i] == before;
    }

    /** `observe_clear`, which unlinks while it walks. */
    method Clear(uri: Path)
      requires 1 <= |uri|
      modifies this`observed
      ensures observed == Cleared(old(observed), uri)
    {
      ghost var before := observed;
      var i := 0;
      while i < |observed|
        invariant 0 <= i <= |observed|
        invariant observed[..i] + Cleared(observed[i..], uri) == Cleared(before, uri)
        decreases |observed| - i
      {
        assert observed[i..][0] == observed[i] && observed[i..][1..] == observed[i + 1..];
        if IsCleared(observed[i].uri, uri) {
          ghost var after := observed[..i] + observed[i + 1..];
          assert after[..i] == observed[..i] && after[i..] == observed[i + 1..];
          observed := observed[..i] + observed[i + 1..];
        } else {
          assert observed[..i] + ([observed[i]] + Cleared(observed[i + 1..], uri)) == observed[..i + 1] + Cleared(observed[i + 1..], uri);
          i := i + 1;
        }
      }
      assert observed[..i] == observed;
    }

    /** `lwm2m_resource_value_changed` */
    method ValueChanged(uri: Path)
      modifies this`observed
      ensures observed == Tagged(old(observed), uri)
    {
      var i := 0;
      ghost var before := observed;
      while i < |observed|
        invariant 0 <= i <= |observed| == |before|
        invariant forall j :: 0 <= j < i ==> observed[j] == Tagged(before, uri)[j]
        invariant forall j :: i <= j < |before| ==> observed[j] == before[j]
      {
        if Related(observed[i].uri, uri) {
          observed := observed[i := observed[i].(watchers := TagWatchers(observed[i].watchers))];
        }
        i := i + 1;
      }
      assert observed == Tagged(before, uri);
    }

    /** `observe_step` */
    method Step(readings: seq<Reading>, now: int)
      requires |readings| == |observed|
      modifies this
      ensures var stepped := StepAll(old(observed), readings, now, old(nextMid));
              observed == stepped.list && nextMid == stepped.mid && log == old(log) + stepped.notes
    {
      ghost var (before, mid0, log0) := (observed, nextMid, log);
      var done: seq<Observed> := [];
      ghost var notes: seq<Notification> := [];
      var i := 0;
      assert before[0..] == before && readings[0..] == readings;
      JoinAllStart(StepAll(before, readings, now, mid0));
      hide JoinAll, StepAll, StepWatchers, Notes;
      while i < |observed|
        invariant 0 <= i <= |observed| && observed == before && log == log0 + notes
        invariant JoinAll(done, notes, StepAll(before[i..], readings[i..], now, nextMid)) == StepAll(before, readings, now, mid0)
      {
        JoinAllStep(done, notes, before, readings, i, now, nextMid);
        var round := StepObserved(observed[i].watchers, readings[i], now, nextMid);
        var sent := Notes(observed[i].uri, round.servers, now);
        done := done + [observed[i].(watchers := round.watchers)];
        log := log + sent;
        assert log == log0 + (notes + sent);
        notes := notes + sent;
        nextMid := round.mid;
        i := i + 1;
      }
      JoinAllEnd(done, notes, before, readings, now, nextMid, StepAll(before, readings, now, mid0));
      observed := done;
    }
  }
}
