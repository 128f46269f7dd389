/** Observations over whole runs. */
module ObserveRuns {
  import opened Bytes
  import opened Uri
  import opened Observe

  datatype World = World(list: seq<Observed>, mid: uint16, log: seq<Notification>)

  datatype Event =
    | Ask(uri: Path, server: nat, request: Request)
    | Cancel(mid: uint16, peers: set<nat>)
    | Clear(uri: Path)
    | Change(uri: Path)
    | Tick(now: int, readings: seq<Reading>)

  function Next(w: World, e: Event): World
  {
    match e
    case Ask(uri, server, request) => w.(list := Requested(w.list, uri, server, request))
    case Cancel(mid, peers) => w.(list := Cancelled(w.list, mid, peers))
    case Clear(uri) => if uri == [] then w else w.(list := Cleared(w.list, uri))
    case Change(uri) => w.(list := Tagged(w.list, uri))
    case Tick(now, readings) =>
      var s := StepAll(w.list, readings, now, w.mid);
      World(s.list, s.mid, w.log + s.notes)
  }

  // ----- structure ----------------------------------------------------------------------------

  /** Two lists with the same paths and servers. */
  predicate SameShape(a: seq<Observed>, b: seq<Observed>) {
    && |a| == |b|
    && forall i :: 0 <= i < |a| ==> a[i].uri == b[i].uri && SameServers(a[i].watchers, b[i].watchers)
  }

  predicate SameServers(a: seq<Watcher>, b: seq<Watcher>) {
    |a| == |b| && forall i :: 0 <= i < |a| ==> a[i].server == b[i].server
  }

  lemma {:induction false} SameShapeKeeps(a: seq<Observed>, b: seq<Observed>)
    requires Structure(a) && SameShape(a, b)
    ensures Structure(b)
  {
    forall i | 0 <= i < |b| ensures b[i].watchers != [] && DistinctServers(b[i].watchers) {
      assert a[i].watchers != [] && DistinctServers(a[i].watchers);
      assert SameServers(a[i].watchers, b[i].watchers);
    }
  }

  lemma {:induction false} StepWatchersShape(ws: seq<Watcher>, r: Reading, now: int, mid: uint16)
    ensures SameServers(ws, StepWatchers(ws, r, now, mid).watchers)
  {
    if ws != [] && r.Readable? && r.serializes {
      StepWatchersShape(ws[1..], r, now, if Due(ws[0], r.value, now) then NextMid(mid) else mid);
      hide Due;
    }
  }

  lemma {:induction false} StepAllShape(list: seq<Observed>, readings: seq<Reading>, now: int, mid: uint16)
    ensures SameShape(list, StepAll(list, readings, now, mid).list)
    decreases |list|
  {
    if list != [] {
      var reading := if readings == [] then Unreadable else readings[0];
      var round := StepWatchers(list[0].watchers, reading, now, mid);
      StepWatchersShape(list[0].watchers, reading, now, mid);
      StepAllShape(list[1..], if readings == [] then [] else readings[1..], now, round.mid);
      hide StepWatchers;
    }
  }

  lemma {:induction false} NextKeepsStructure(w: World, e: Event)
    requires Structure(w.list)
    ensures Structure(Next(w, e).list)
  {
    hide Structure;
    match e
    case Ask(uri, server, request) => RequestedKeeps(w.list, uri, server, request);
    case Cancel(mid, peers) => CancelledKeeps(w.list, mid, peers);
    case Clear(uri) => if uri != [] { ClearedKeeps(w.list, uri); }
    case Change(uri) =>
      assert SameShape(w.list, Tagged(w.list, uri));
      SameShapeKeeps(w.list, Tagged(w.list, uri));
    case Tick(now, readings) =>
      StepAllShape(w.list, readings, now, w.mid);
      SameShapeKeeps(w.list, StepAll(w.list, readings, now, w.mid).list);
  }

  /** In every reachable state each observation has a watcher, each server watches it once, and no two observations
      are of the same path. */
  function After(events: seq<Event>): (w: World)
    ensures Structure(w.list)
  {
    if events == [] then World([], 0, [])
    else
      var w := After(events[..|events| - 1]);
      NextKeepsStructure(w, events[|events| - 1]);
      Next(w, events[|events| - 1])
  }

  lemma {:induction false} StructureOverRuns(events: seq<Event>)
    ensures var list := After(events).list;
            && (forall i :: 0 <= i < |list| ==> list[i].watchers != [] && DistinctServers(list[i].watchers))
            && (forall i, j :: 0 <= i < j < |list| ==> list[i].uri != list[j].uri)
  {
    var list := After(events).list;
    forall i, j | 0 <= i < j < |list| ensures list[i].uri != list[j].uri {
      UrisDistinct(list, i, j);
    }
  }

  // ----- one watcher --------------------------------------------------------------------------

  function FindUri(list: seq<Observed>, uri: Path): (i: nat)
    ensures i <= |list|
    ensures i < |list| ==> list[i].uri == uri
    ensures forall j :: 0 <= j < i ==> list[j].uri != uri
  {
    if list == [] || list[0].uri == uri then 0 else 1 + FindUri(list[1..], uri)
  }

  function InWatchers(ws: seq<Watcher>, server: nat): Option<Watcher>
  {
    var k := FindWatcher(ws, server);
    if k < |ws| then Some(ws[k]) else None
  }

  /** The watcher of a server at the observation of a path. */
  function Current(list: seq<Observed>, uri: Path, server: nat): Option<Watcher>
  {
    if list == [] then None
    else if list[0].uri == uri then InWatchers(list[0].watchers, server)
    else Current(list[1..], uri, server)
  }

  /** When the server was notified about the path. */
  function Times(notes: seq<Notification>, uri: Path, server: nat): seq<int>
  {
    if notes == [] then []
    else (if notes[0].uri == uri && notes[0].server == server then [notes[0].time] else []) + Times(notes[1..], uri, server)
  }

  lemma {:induction false} TimesConcat(a: seq<Notification>, b: seq<Notification>, uri: Path, server: nat)
    ensures Times(a + b, uri, server) == Times(a, uri, server) + Times(b, uri, server)
  {
    if a == [] {
      assert a + b == b;
    } else {
      assert (a + b)[1..] == a[1..] + b;
      TimesConcat(a[1..], b, uri, server);
    }
  }

  lemma {:induction false} NoCurrent(list: seq<Observed>, uri: Path, server: nat)
    requires forall o :: o in list ==> o.uri != uri
    ensures Current(list, uri, server).None?
  {
    if list != [] {
      assert list[0] in list;
      NoCurrent(list[1..], uri, server);
    }
  }

  /** What a step does to one watcher: nothing, or one notification. */
  ghost predicate TickEffect(before: Option<Watcher>, after: Option<Watcher>, times: seq<int>, now: int) {
    || (after == before && times == [])
    || (&& before.Some? && after.Some? && times == [now]
        && after.value.attributes == before.value.attributes && after.value.active == before.value.active
        && after.value.lastTime == now && exists value: Option<real> :: Due(before.value, value, now))
  }

  lemma {:induction false} OthersQuiet(ws: seq<Watcher>, r: Reading, now: int, mid: uint16, uri: Path, server: nat)
    requires forall w :: w in ws ==> w.server != server
    ensures Times(Notes(uri, StepWatchers(ws, r, now, mid).servers, now), uri, server) == []
  {
    if ws != [] && r.Readable? && r.serializes {
      assert ws[0] in ws && forall w :: w in ws[1..] ==> w in ws;
      var due := Due(ws[0], r.value, now);
      hide Due;
      var rest := StepWatchers(ws[1..], r, now, if due then NextMid(mid) else mid);
      OthersQuiet(ws[1..], r, now, if due then NextMid(mid) else mid, uri, server);
      if due {
        var servers := [ws[0].server] + rest.servers;
        assert servers[1..] == rest.servers;
        assert Notes(uri, servers, now)[1..] == Notes(uri, rest.servers, now);
      }
    }
  }

  lemma {:induction false} OtherPathsQuiet(uri: Path, servers: seq<nat>, now: int, other: Path, server: nat)
    requires uri != other
    ensures Times(Notes(uri, servers, now), other, server) == []
  {
    if servers != [] {
      OtherPathsQuiet(uri, servers[1..], now, other, server);
      assert Notes(uri, servers, now)[1..] == Notes(uri, servers[1..], now);
    }
  }

  lemma {:induction false} InTail(ws: seq<Watcher>, server: nat)
    requires ws != []
    ensures InWatchers(ws, server) == if ws[0].server == server then Some(ws[0]) else InWatchers(ws[1..], server)
  {
  }

  lemma {:induction false} WatchersEffect(ws: seq<Watcher>, r: Reading, now: int, mid: uint16, uri: Path, server: nat)
    requires DistinctServers(ws)
    ensures var round := StepWatchers(ws, r, now, mid);
            TickEffect(InWatchers(ws, server), InWatchers(round.watchers, server), Times(Notes(uri, round.servers, now), uri, server), now)
  {
    if ws != [] && r.Readable? && r.serializes {
      var due := Due(ws[0], r.value, now);
      var next := if due then NextMid(mid) else mid;
      var round := StepWatchers(ws, r, now, mid);
      var rest := StepWatchers(ws[1..], r, now, next);
      hide Due;
      assert round.watchers[1..] == rest.watchers;
      InTail(ws, server);
      InTail(round.watchers, server);
      if due {
        assert round.servers[1..] == rest.servers;
        assert Notes(uri, round.servers, now)[1..] == Notes(uri, rest.servers, now);
      }
      if ws[0].server == server {
        OthersQuiet(ws[1..], r, now, next, uri, server);
        assert due ==> Due(ws[0], r.value, now);
      } else {
        WatchersEffect(ws[1..], r, now, next, uri, server);
      }
    }
  }

  lemma {:induction false} StepEffect(list: seq<Observed>, readings: seq<Reading>, now: int, mid: uint16, uri: Path, server: nat)
    requires Structure(list)
    ensures var s := StepAll(list, readings, now, mid);
            TickEffect(Current(list, uri, server), Current(s.list, uri, server), Times(s.notes, uri, server), now)
    decreases |list|
  {
    if list != [] {
      StructureTail(list);
      var reading := if readings == [] then Unreadable else readings[0];
      var more := if readings == [] then [] else readings[1..];
      var round := StepWatchers(list[0].watchers, reading, now, mid);
      var s := StepAll(list, readings, now, mid);
      var rest := StepAll(list[1..], more, now, round.mid);
      TimesConcat(Notes(list[0].uri, round.servers, now), rest.notes, uri, server);
      StepEffect(list[1..], more, now, round.mid, uri, server);
      assert s.list[1..] == rest.list && s.list[0].uri == list[0].uri;
      if list[0].uri == uri {
        WatchersEffect(list[0].watchers, reading, now, mid, uri, server);
        forall o | o in list[1..] ensures o.uri != uri {
          assert !IsBelow(o.uri, uri);
        }
        NoCurrent(list[1..], uri, server);
        hide StepWatchers, StepAll, Structure, InWatchers, Due;
        assert Times(rest.notes, uri, server) == [];
        assert Times(s.notes, uri, server) == Times(Notes(uri, round.servers, now), uri, server) + [];
      } else {
        OtherPathsQuiet(list[0].uri, round.servers, now, uri, server);
        hide StepWatchers, StepAll, Structure, InWatchers, Due;
        assert Times(s.notes, uri, server) == [] + Times(rest.notes, uri, server);
      }
    }
  }

  // ----- the other events ---------------------------------------------------------------------

  lemma {:induction false} CurrentAt(list: seq<Observed>, i: nat, uri: Path, server: nat)
    requires Structure(list) && i < |list| && list[i].uri == uri
    ensures Current(list, uri, server) == InWatchers(list[i].watchers, server)
  {
    if i > 0 {
      assert !IsBelow(list[i].uri, list[0].uri);
      StructureTail(list);
      CurrentAt(list[1..], i - 1, uri, server);
    }
  }

  lemma {:induction false} CurrentElsewhere(a: seq<Observed>, i: nat, o: Observed, uri: Path, server: nat)
    requires i < |a| && a[i].uri == o.uri && (o.uri == uri ==> InWatchers(o.watchers, server) == InWatchers(a[i].watchers, server))
    ensures Current(a[i := o], uri, server) == Current(a, uri, server)
  {
    var b := a[i := o];
    if i > 0 {
      CurrentElsewhere(a[1..], i - 1, o, uri, server);
      assert b[1..] == a[1..][i - 1 := o];
    } else {
      assert b[1..] == a[1..];
    }
  }

  /** Other requests leave a watcher alone; its own requests modify it. */
  lemma {:induction false} RequestEffect(list: seq<Observed>, uri: Path, server: nat, r: Request, p: Path, s: nat)
    requires Structure(list) && Current(list, p, s).Some?
    ensures var after := Current(Requested(list, uri, server, r), p, s);
            after == Current(list, p, s) || after == Some(Modified(Current(list, p, s).value, r))
  {
    var i := FindObserved(list, uri);
    var after := Requested(list, uri, server, r);
    RequestedKeeps(list, uri, server, r);
    if i == |list| {
      if uri == p {
        forall o | o in list ensures o.uri != p { assert !IsBelow(o.uri, p) || o.uri != p; }
        NoCurrent(list, p, s);
      }
      assert after[1..] == list;
    } else if list[i].uri == p {
      CurrentAt(list, i, p, s);
      CurrentAt(after, i, p, s);
      hide Structure;
      ModifiedInEffect(list[i].watchers, server, r, s);
    } else {
      hide Structure;
      CurrentElsewhere(list, i, after[i], p, s);
    }
  }

  lemma {:induction false} ModifiedInEffect(ws: seq<Watcher>, server: nat, r: Request, s: nat)
    requires InWatchers(ws, s).Some?
    ensures InWatchers(ModifiedIn(ws, server, r), s) == if s == server then Some(Modified(InWatchers(ws, s).value, r)) else InWatchers(ws, s)
  {
    var after := ModifiedIn(ws, server, r);
    var k := FindWatcher(ws, server);
    if k == |ws| {
      assert after[1..] == ws;
      InTail(after, s);
    } else {
      FindIsAt(after, s, FindWatcher(ws, s));
    }
  }

  /** The watcher a request is for, found or new, as it should be afterwards. */
  function Meant(list: seq<Observed>, uri: Path, server: nat, r: Request): Watcher
  {
    var current := Current(list, uri, server);
    Modified(if current.Some? then current.value else NewWatcher(server), r)
  }

  lemma {:induction false} ModifiedInMeant(ws: seq<Watcher>, server: nat, r: Request)
    ensures InWatchers(ModifiedIn(ws, server, r), server)
         == Some(Modified(if InWatchers(ws, server).Some? then InWatchers(ws, server).value else NewWatcher(server), r))
  {
    if InWatchers(ws, server).Some? {
      ModifiedInEffect(ws, server, r, server);
    }
  }

  /** Something below the path, but not the path itself, is observed. */
  predicate ObservedBelow(list: seq<Observed>, uri: Path) {
    exists i :: 0 <= i < |list| && IsBelow(list[i].uri, uri) && list[i].uri != uri
  }

  /** The watcher the request modifies or makes, at the entry it finds. */
  lemma {:induction false} RequestTakesEntry(list: seq<Observed>, uri: Path, server: nat, r: Request)
    requires Structure(list)
    ensures var i := FindObserved(list, uri);
            var entry := if i == |list| then uri else list[i].uri;
            Current(Requested(list, uri, server, r), entry, server) == Some(Meant(list, entry, server, r))
  {
    var i := FindObserved(list, uri);
    var after := Requested(list, uri, server, r);
    RequestedKeeps(list, uri, server, r);
    if i == |list| {
      NoCurrent(list, uri, server);
      CurrentAt(after, 0, uri, server);
      ModifiedInMeant([], server, r);
    } else {
      CurrentAt(list, i, list[i].uri, server);
      CurrentAt(after, i, list[i].uri, server);
      ModifiedInMeant(list[i].watchers, server, r);
    }
  }

  /** What lies below a path comes before the path itself, so it is found first. */
  lemma {:induction false} FoundBelow(list: seq<Observed>, uri: Path)
    requires Structure(list)
    ensures var i := FindObserved(list, uri); ObservedBelow(list, uri) <==> i < |list| && list[i].uri != uri
  {
    var i := FindObserved(list, uri);
    assert i < |list| ==> forall j :: i < j < |list| ==> !IsBelow(list[j].uri, list[i].uri);
  }

  lemma {:induction false} WatchCounts(w: Watcher, r: Request)
    requires r.Watch?
    ensures Modified(w, r) != w
  {
    assert Modified(w, r).counter != w.counter;
  }

  /** A request to observe a path is entered there exactly when nothing below the path is observed. Otherwise the
      server's watcher at the path, if it has one, stays as it was, and a watcher of something below takes the request. */
  lemma {:induction false} RequestJoinsBelow(list: seq<Observed>, uri: Path, server: nat, r: Request)
    requires Structure(list)
    ensures var after := Requested(list, uri, server, r);
            if ObservedBelow(list, uri) then
              && Current(after, uri, server) == Current(list, uri, server)
              && (exists i :: 0 <= i < |list| && IsBelow(list[i].uri, uri) && list[i].uri != uri
                              && Current(after, list[i].uri, server) == Some(Meant(list, list[i].uri, server, r)))
            else Current(after, uri, server) == Some(Meant(list, uri, server, r))
    ensures r.Watch? ==>
              (Current(Requested(list, uri, server, r), uri, server) == Some(Meant(list, uri, server, r)) <==> !ObservedBelow(list, uri))
  {
    var i := FindObserved(list, uri);
    RequestTakesEntry(list, uri, server, r);
    FoundBelow(list, uri);
    if i < |list| && list[i].uri != uri {
      CurrentElsewhere(list, i, Requested(list, uri, server, r)[i], uri, server);
      if r.Watch? && Current(list, uri, server).Some? {
        WatchCounts(Current(list, uri, server).value, r);
      }
    }
    hide ModifiedIn, Modified, Structure, Current, Requested, ObservedBelow;
  }

  lemma {:induction false} FindIsAt(ws: seq<Watcher>, server: nat, k: nat)
    requires k < |ws| && ws[k].server == server && forall j :: 0 <= j < k ==> ws[j].server != server
    ensures FindWatcher(ws, server) == k
  {
  }

  lemma {:induction false} RemovedWatcher(ws: seq<Watcher>, k: nat, server: nat)
    requires DistinctServers(ws) && k < |ws|
    ensures InWatchers(ws[..k] + ws[k + 1..], server).Some? ==> InWatchers(ws[..k] + ws[k + 1..], server) == InWatchers(ws, server)
  {
    var rest := ws[..k] + ws[k + 1..];
    var j := FindWatcher(rest, server);
    if j < |rest| {
      var at := if j < k then j else j + 1;
      assert rest[j] == ws[at];
      FindIsAt(ws, server, at);
    }
  }

  lemma {:induction false} CancelEffect(list: seq<Observed>, mid: uint16, peers: set<nat>, p: Path, s: nat)
    requires Structure(list)
    ensures var after := Current(Cancelled(list, mid, peers), p, s); after.Some? ==> after == Current(list, p, s)
  {
    if list != [] {
      StructureTail(list);
      CancelEffect(list[1..], mid, peers, p, s);
      var ws := list[0].watchers;
      var k := FindMeant(ws, mid, peers);
      var after := Cancelled(list, mid, peers);
      if k < |ws| {
        RemovedWatcher(ws, k, s);
        if list[0].uri == p {
          forall o | o in list[1..] ensures o.uri != p { assert !IsBelow(o.uri, p); }
          NoCurrent(list[1..], p, s);
        }
      }
      assert after != [] ==> after[0].uri == list[0].uri || after == list[1..];
      hide Structure, InWatchers, FindMeant;
      if after != [] && after != list[1..] {
        assert after[1..] == if k == |ws| then Cancelled(list[1..], mid, peers) else list[1..];
      }
    }
  }

  lemma {:induction false} ClearEffect(list: seq<Observed>, uri: Path, p: Path, s: nat)
    requires Structure(list) && uri != []
    ensures Current(Cleared(list, uri), p, s) == if IsCleared(p, uri) then None else Current(list, p, s)
  {
    if list != [] {
      StructureTail(list);
      ClearEffect(list[1..], uri, p, s);
      hide Structure, InWatchers;
      assert !IsCleared(list[0].uri, uri) ==> Cleared(list, uri)[1..] == Cleared(list[1..], uri);
    }
  }

  lemma {:induction false} TagInWatchers(ws: seq<Watcher>, s: nat)
    ensures var (before, after) := (InWatchers(ws, s), InWatchers(TagWatchers(ws), s));
            && before.Some? == after.Some?
            && (after.Some? ==> after.value == before.value.(update := before.value.update || before.value.active))
  {
    var t := TagWatchers(ws);
    var k := FindWatcher(ws, s);
    assert forall j :: 0 <= j < |ws| ==> t[j].server == ws[j].server;
    if k < |ws| {
      FindIsAt(t, s, k);
    } else {
      assert FindWatcher(t, s) == |t|;
    }
  }

  lemma {:induction false} TagEffect(list: seq<Observed>, uri: Path, p: Path, s: nat)
    ensures var (before, after) := (Current(list, p, s), Current(Tagged(list, uri), p, s));
            && before.Some? == after.Some?
            && (after.Some? ==>
                  after.value == before.value.(update := before.value.update || (Related(p, uri) && before.value.active)))
  {
    if list != [] {
      TagEffect(list[1..], uri, p, s);
      assert Tagged(list, uri)[1..] == Tagged(list[1..], uri);
      TagInWatchers(list[0].watchers, s);
      hide InWatchers, TagWatchers;
    }
  }

  // ----- spacing of notifications -------------------------------------------------------------

  /** Each time is at least `gap` after the one before it, and the first after `last`. */
  predicate Spaced(last: int, times: seq<int>, gap: nat)
    decreases |times|
  {
    times == [] || (times[0] >= last + gap && Spaced(times[0], times[1..], gap))
  }

  function TimeAfter(e: Event, clock: int): int
  {
    if e.Tick? then e.now else if e.Ask? && e.request.Watch? then e.request.now else clock
  }

  /** Time does not run backwards. */
  predicate InOrder(run: seq<Event>, clock: int)
    decreases |run|
  {
    run == [] || (clock <= TimeAfter(run[0], clock) && InOrder(run[1..], TimeAfter(run[0], clock)))
  }

  /** All along the run the server watches the path with these attributes. */
  predicate Stays(w: World, run: seq<Event>, uri: Path, server: nat, a: Attributes)
    decreases |run|
  {
    && Current(w.list, uri, server).Some? && Current(w.list, uri, server).value.attributes == Some(a)
    && (run != [] ==> Stays(Next(w, run[0]), run[1..], uri, server, a))
  }

  /** When the server is notified about the path during the run. */
  function Sent(w: World, run: seq<Event>, uri: Path, server: nat): seq<int>
    decreases |run|
  {
    if run == [] then []
    else
      (if run[0].Tick? then Times(StepAll(w.list, run[0].readings, run[0].now, w.mid).notes, uri, server) else [])
      + Sent(Next(w, run[0]), run[1..], uri, server)
  }

  /** What one event means for the last time a watcher was served. */
  lemma {:induction false} NextEffect(w: World, e: Event, clock: int, uri: Path, server: nat, a: Attributes)
    requires Structure(w.list) && clock <= TimeAfter(e, clock)
    requires Current(w.list, uri, server).Some? && Current(Next(w, e).list, uri, server).Some?
    requires Current(w.list, uri, server).value.attributes == Some(a)
    requires a.minPeriod.Some? && (a.maxPeriod.None? || a.minPeriod.value <= a.maxPeriod.value)
    requires Current(w.list, uri, server).value.lastTime <= clock
    ensures var (before, after) := (Current(w.list, uri, server).value, Current(Next(w, e).list, uri, server).value);
            var times := if e.Tick? then Times(StepAll(w.list, e.readings, e.now, w.mid).notes, uri, server) else [];
            && before.lastTime <= after.lastTime <= TimeAfter(e, clock)
            && (times == [] || (times == [after.lastTime] && before.lastTime + a.minPeriod.value <= after.lastTime))
  {
    hide Current, StepAll, Requested, Cancelled, Cleared, Tagged, Structure;
    match e
    case Ask(p, s, request) => RequestEffect(w.list, p, s, request, uri, server);
    case Cancel(mid, peers) => CancelEffect(w.list, mid, peers, uri, server);
    case Clear(p) => if p != [] { ClearEffect(w.list, p, uri, server); }
    case Change(p) => TagEffect(w.list, p, uri, server);
    case Tick(now, readings) =>
      StepEffect(w.list, readings, now, w.mid, uri, server);
      MinimumPeriodKept(a);
  }

  lemma {:induction false} SpacedEarlier(earlier: int, last: int, times: seq<int>, gap: nat)
    requires earlier <= last && Spaced(last, times, gap)
    ensures Spaced(earlier, times, gap)
  {
  }

  /** Over every run with time in order and attributes unchanged, with pmin not above pmax, the notifications of a
      watcher are at least pmin apart. */
  lemma {:induction false} NotificationSpacing(w: World, run: seq<Event>, clock: int, uri: Path, server: nat, a: Attributes)
    requires Structure(w.list) && InOrder(run, clock) && Stays(w, run, uri, server, a)
    requires a.minPeriod.Some? && (a.maxPeriod.None? || a.minPeriod.value <= a.maxPeriod.value)
    requires Current(w.list, uri, server).value.lastTime <= clock
    ensures Spaced(Current(w.list, uri, server).value.lastTime, Sent(w, run, uri, server), a.minPeriod.value)
    decreases |run|
  {
    hide Structure, Current, Next, StepAll;
    if run != [] {
      var (e, more) := (run[0], run[1..]);
      var next := Next(w, e);
      assert Stays(next, more, uri, server, a);
      NextKeepsStructure(w, e);
      NextEffect(w, e, clock, uri, server, a);
      NotificationSpacing(next, more, TimeAfter(e, clock), uri, server, a);
      var times := if e.Tick? then Times(StepAll(w.list, e.readings, e.now, w.mid).notes, uri, server) else [];
      var (last, after) := (Current(w.list, uri, server).value.lastTime, Current(next.list, uri, server).value.lastTime);
      hide Stays, InOrder, Times;
      assert Sent(w, run, uri, server) == times + Sent(next, more, uri, server);
      if times == [] {
        assert times + Sent(next, more, uri, server) == Sent(next, more, uri, server);
        SpacedEarlier(last, after, Sent(next, more, uri, server), a.minPeriod.value);
      } else {
        assert (times + Sent(next, more, uri, server))[1..] == Sent(next, more, uri, server);
      }
    }
  }

  // ----- the maximum period -------------------------------------------------------------------

  lemma {:induction false} DueIsSent(ws: seq<Watcher>, r: Reading, now: int, mid: uint16, uri: Path, server: nat)
    requires InWatchers(ws, server).Some? && r.Readable? && r.serializes && Due(InWatchers(ws, server).value, r.value, now)
    ensures Times(Notes(uri, StepWatchers(ws, r, now, mid).servers, now), uri, server) != []
  {
    var due := Due(ws[0], r.value, now);
    var next := if due then NextMid(mid) else mid;
    var round := StepWatchers(ws, r, now, mid);
    InTail(ws, server);
    if due {
      assert round.servers[1..] == StepWatchers(ws[1..], r, now, next).servers;
      assert Notes(uri, round.servers, now)[1..] == Notes(uri, round.servers[1..], now);
    }
    if ws[0].server != server {
      DueIsSent(ws[1..], r, now, next, uri, server);
    }
  }

  lemma {:induction false} MaximumPeriodNotifies(list: seq<Observed>, readings: seq<Reading>, now: int, mid: uint16, uri: Path, server: nat)
    requires |readings| == |list| && Current(list, uri, server).Some?
    requires var w := Current(list, uri, server).value;
             w.active && w.attributes.Some? && w.attributes.value.maxPeriod.Some? && w.lastTime + w.attributes.value.maxPeriod.value <= now
    requires forall i :: 0 <= i < |list| && list[i].uri == uri ==> readings[i].Readable? && readings[i].serializes
    ensures Times(StepAll(list, readings, now, mid).notes, uri, server) != []
    decreases |list|
  {
    var round := StepWatchers(list[0].watchers, readings[0], now, mid);
    var rest := StepAll(list[1..], readings[1..], now, round.mid);
    TimesConcat(Notes(list[0].uri, round.servers, now), rest.notes, uri, server);
    if list[0].uri == uri {
      DueIsSent(list[0].watchers, readings[0], now, mid, uri, server);
    } else {
      MaximumPeriodNotifies(list[1..], readings[1..], now, round.mid, uri, server);
    }
  }

  /** A step at or after the end of the maximum period notifies an active watcher, if the resource can be read and
      serialized. */
  lemma {:induction false} MaximumPeriodKept(list: seq<Observed>, readings: seq<Reading>, now: int, mid: uint16, uri: Path, server: nat)
    requires Structure(list) && |readings| == |list| && Current(list, uri, server).Some?
    requires var w := Current(list, uri, server).value;
             w.active && w.attributes.Some? && w.attributes.value.maxPeriod.Some? && w.lastTime + w.attributes.value.maxPeriod.value <= now
    requires forall i :: 0 <= i < |list| && list[i].uri == uri ==> readings[i].Readable? && readings[i].serializes
    ensures var s := StepAll(list, readings, now, mid);
            Times(s.notes, uri, server) == [now] && Current(s.list, uri, server).Some? && Current(s.list, uri, server).value.lastTime == now
  {
    MaximumPeriodNotifies(list, readings, now, mid, uri, server);
    StepEffect(list, readings, now, mid, uri, server);
    hide StepAll, Structure, Current;
  }
}
