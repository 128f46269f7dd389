/** Which notifications a server gets, told from the history of events alone (core/observe.c:161-226, 471-841). */
module ObserveHistory {
  import opened Bytes
  import opened Uri
  import opened Observe
  import opened ObserveRuns

  /** What has happened to a watcher: whether its path was touched by a change since it was last served, when it was
      served, with which value and message ID, how often, and the attributes it was given. */
  datatype Served = Served(touched: bool, time: int, value: real, mid: uint16, count: nat, attributes: Option<Attributes>)

  /** A change of one path touches the other when they agree in all the identifiers that both have. */
  predicate Touches(changed: Path, uri: Path) {
    changed != [] && uri != [] && forall i :: 0 <= i < |changed| && i < |uri| ==> changed[i] == uri[i]
  }

  /** What the step reads for a path. */
  function ReadingOf(list: seq<Observed>, readings: seq<Reading>, uri: Path): Reading
  {
    var i := FindUri(list, uri);
    if i < |list| && i < |readings| then readings[i] else Unreadable
  }

  /** The path of the entry a request is taken to. */
  function Entry(list: seq<Observed>, uri: Path): Path
  {
    var i := FindObserved(list, uri);
    if i < |list| then list[i].uri else uri
  }

  predicate IsNotified(w: World, e: Event, uri: Path, server: nat) {
    e.Tick? && Times(StepAll(w.list, e.readings, e.now, w.mid).notes, uri, server) != []
  }

  /** Message IDs are counted in 16 bits. */
  function MidAfter(mid: uint16, k: nat): uint16
  {
    (mid + k) % 0x1_0000
  }

  /** Which of the notifications is the first of the server about the path. */
  function PlaceOf(notes: seq<Notification>, uri: Path, server: nat): nat
  {
    if notes == [] || (notes[0].uri == uri && notes[0].server == server) then 0 else 1 + PlaceOf(notes[1..], uri, server)
  }

  function Follow(s: Served, w: World, e: Event, uri: Path, server: nat): Served
  {
    match e
    case Change(changed) => s.(touched := s.touched || Touches(changed, uri))
    case Tick(now, readings) =>
      if !IsNotified(w, e, uri, server) then s
      else
        var r := ReadingOf(w.list, readings, uri);
        s.(touched := false, time := now, value := if r.Readable? && r.value.Some? then r.value.value else s.value,
           mid := MidAfter(w.mid, PlaceOf(StepAll(w.list, readings, now, w.mid).notes, uri, server)), count := s.count + 1)
    case Ask(p, asking, request) =>
      if asking != server || Entry(w.list, p) != uri then s
      else
        (match request
         case Watch(now, mid, value) =>
           s.(time := now, value := if value.Some? then value.value else s.value, mid := mid, count := s.count + 1)
         case SetAttributes(attributes) => s.(attributes := attributes))
    case Cancel(_, _) => s
    case Clear(_) => s
  }

  function FollowRun(s: Served, w: World, run: seq<Event>, uri: Path, server: nat): Served
    decreases |run|
  {
    if run == [] then s else FollowRun(Follow(s, w, run[0], uri, server), Next(w, run[0]), run[1..], uri, server)
  }

  function AfterRun(w: World, run: seq<Event>): World
    decreases |run|
  {
    if run == [] then w else AfterRun(Next(w, run[0]), run[1..])
  }

  /** All along the run the server has a watcher at the path. */
  predicate Watched(w: World, run: seq<Event>, uri: Path, server: nat)
    decreases |run|
  {
    Current(w.list, uri, server).Some? && (run != [] ==> Watched(Next(w, run[0]), run[1..], uri, server))
  }

  predicate Matches(x: Watcher, s: Served) {
    && x.active && x.update == s.touched && x.lastTime == s.time && x.lastValue == s.value && x.attributes == s.attributes
    && x.lastMid == s.mid && x.counter == s.count % 0x1_0000_0000
  }

  // ----- one step -----------------------------------------------------------------------------

  /** A watcher of the observation that is stepped through, and its notification. */
  lemma {:induction false} WatchersExact(ws: seq<Watcher>, r: Reading, now: int, mid: uint16, uri: Path, server: nat)
    requires DistinctServers(ws) && InWatchers(ws, server).Some?
    ensures var (x, round) := (InWatchers(ws, server).value, StepWatchers(ws, r, now, mid));
            var due := r.Readable? && r.serializes && Due(x, r.value, now);
            && InWatchers(round.watchers, server).Some?
            && (due <==> Times(Notes(uri, round.servers, now), uri, server) != [])
            && (!due ==> InWatchers(round.watchers, server).value == x)
            && (due ==> var m := MidAfter(mid, PlaceOf(Notes(uri, round.servers, now), uri, server));
                        InWatchers(round.watchers, server).value == Notified(x, r.value, now, m))
  {
    if r.Readable? && r.serializes {
      var first := Due(ws[0], r.value, now);
      var next := if first then NextMid(mid) else mid;
      InTail(ws, server);
      FirstOfRound(ws, r, now, mid, uri, server);
      hide Due, MidAfter, Notified, StepWatchers, InWatchers;
      if ws[0].server == server {
        OthersQuiet(ws[1..], r, now, next, uri, server);
      } else {
        WatchersExact(ws[1..], r, now, next, uri, server);
      }
    }
  }

  /** What the first watcher adds to a round. */
  lemma {:induction false} FirstOfRound(ws: seq<Watcher>, r: Reading, now: int, mid: uint16, uri: Path, server: nat)
    requires ws != [] && r.Readable? && r.serializes
    ensures var (first, round) := (Due(ws[0], r.value, now), StepWatchers(ws, r, now, mid));
            var rest := StepWatchers(ws[1..], r, now, if first then NextMid(mid) else mid);
            var (notes, more) := (Notes(uri, round.servers, now), Notes(uri, rest.servers, now));
            && InWatchers(round.watchers, server)
               == (if ws[0].server == server then Some(if first then Notified(ws[0], r.value, now, mid) else ws[0]) else InWatchers(rest.watchers, server))
            && Times(notes, uri, server) == (if first && ws[0].server == server then [now] else []) + Times(more, uri, server)
            && MidAfter(mid, PlaceOf(notes, uri, server))
               == (if first && ws[0].server == server then mid
                   else MidAfter(if first then NextMid(mid) else mid, PlaceOf(more, uri, server)))
  {
    var first := Due(ws[0], r.value, now);
    var next := if first then NextMid(mid) else mid;
    var (round, rest) := (StepWatchers(ws, r, now, mid), StepWatchers(ws[1..], r, now, next));
    assert round.watchers[1..] == rest.watchers;
    InTail(round.watchers, server);
    hide Due, MidAfter, Notified, InWatchers;
    NextMids(mid, PlaceOf(Notes(uri, rest.servers, now), uri, server));
    if first {
      assert round.servers[1..] == rest.servers;
      assert Notes(uri, round.servers, now)[1..] == Notes(uri, rest.servers, now);
    }
  }

  lemma {:induction false} NextMids(mid: uint16, k: nat)
    ensures MidAfter(mid, 0) == mid && MidAfter(NextMid(mid), k) == MidAfter(mid, k + 1)
  {
    if mid == 0xFFFF {
      assert (mid + (k + 1)) % 0x1_0000 == k % 0x1_0000;
    }
  }

  lemma {:induction false} MidsAdd(mid: uint16, a: nat, b: nat)
    ensures MidAfter(MidAfter(mid, a), b) == MidAfter(mid, a + b)
  {
  }

  /** A round uses one message ID for each server it notifies. */
  lemma {:induction false} RoundMids(ws: seq<Watcher>, r: Reading, now: int, mid: uint16)
    ensures StepWatchers(ws, r, now, mid).mid == MidAfter(mid, |StepWatchers(ws, r, now, mid).servers|)
  {
    hide Due, Notified, MidAfter;
    NextMids(mid, 0);
    if ws != [] && r.Readable? && r.serializes {
      var next := if Due(ws[0], r.value, now) then NextMid(mid) else mid;
      RoundMids(ws[1..], r, now, next);
      NextMids(mid, |StepWatchers(ws[1..], r, now, next).servers|);
    }
  }

  lemma {:induction false} NotesLength(uri: Path, servers: seq<nat>, now: int)
    ensures |Notes(uri, servers, now)| == |servers|
  {
    if servers != [] {
      NotesLength(uri, servers[1..], now);
    }
  }

  lemma {:induction false} PlaceFirst(a: seq<Notification>, b: seq<Notification>, uri: Path, server: nat)
    ensures PlaceOf(a + b, uri, server) == if Times(a, uri, server) != [] then PlaceOf(a, uri, server) else |a| + PlaceOf(b, uri, server)
  {
    if a == [] {
      assert a + b == b;
    } else {
      PlaceFirst(a[1..], b, uri, server);
      assert (a + b)[1..] == a[1..] + b;
    }
  }

  /** Message IDs are consecutive: a step uses one for each notification. */
  lemma {:induction false} MidsConsecutive(list: seq<Observed>, readings: seq<Reading>, now: int, mid: uint16)
    ensures var s := StepAll(list, readings, now, mid); s.mid == MidAfter(mid, |s.notes|)
    decreases |list|
  {
    if list == [] {
      NextMids(mid, 0);
    } else {
      var round := StepWatchers(list[0].watchers, if readings == [] then Unreadable else readings[0], now, mid);
      var rest := StepAll(list[1..], if readings == [] then [] else readings[1..], now, round.mid);
      RoundMids(list[0].watchers, if readings == [] then Unreadable else readings[0], now, mid);
      NotesLength(list[0].uri, round.servers, now);
      hide StepWatchers, MidAfter;
      MidsConsecutive(list[1..], if readings == [] then [] else readings[1..], now, round.mid);
      MidsAdd(mid, |round.servers|, |rest.notes|);
    }
  }

  /** The step at the observation of the path: its watcher is notified exactly when it is due and the value can be read
      and serialized. */
  lemma {:induction false} StepExact(list: seq<Observed>, readings: seq<Reading>, now: int, mid: uint16, uri: Path, server: nat)
    requires Structure(list) && Current(list, uri, server).Some?
    ensures var (x, r, s) := (Current(list, uri, server).value, ReadingOf(list, readings, uri), StepAll(list, readings, now, mid));
            var due := r.Readable? && r.serializes && Due(x, r.value, now);
            && Current(s.list, uri, server).Some?
            && (due <==> Times(s.notes, uri, server) != [])
            && (!due ==> Current(s.list, uri, server).value == x)
            && (due ==> Current(s.list, uri, server).value == Notified(x, r.value, now, MidAfter(mid, PlaceOf(s.notes, uri, server))))
    decreases |list|
  {
    StructureTail(list);
    var reading := if readings == [] then Unreadable else readings[0];
    var more := if readings == [] then [] else readings[1..];
    var round := StepWatchers(list[0].watchers, reading, now, mid);
    FirstOfStep(list, readings, now, mid, uri, server);
    if list[0].uri == uri {
      WatchersExact(list[0].watchers, reading, now, mid, uri, server);
      RestQuiet(list, more, now, round.mid, uri, server);
      hide StepWatchers, StepAll, Structure, InWatchers, Due, MidAfter, Notified, ReadingOf;
    } else {
      OtherPathsQuiet(list[0].uri, round.servers, now, uri, server);
      hide StepWatchers, StepAll, Structure, InWatchers, Due, MidAfter, Notified, ReadingOf;
      StepExact(list[1..], more, now, round.mid, uri, server);
    }
  }

  /** What the first observation adds to a step. */
  lemma {:induction false} FirstOfStep(list: seq<Observed>, readings: seq<Reading>, now: int, mid: uint16, uri: Path, server: nat)
    requires list != []
    ensures var (reading, more) := (if readings == [] then Unreadable else readings[0], if readings == [] then [] else readings[1..]);
            var (round, s) := (StepWatchers(list[0].watchers, reading, now, mid), StepAll(list, readings, now, mid));
            var (first, rest) := (Notes(list[0].uri, round.servers, now), StepAll(list[1..], more, now, round.mid));
            && Current(s.list, uri, server) == (if list[0].uri == uri then InWatchers(round.watchers, server) else Current(rest.list, uri, server))
            && ReadingOf(list, readings, uri) == (if list[0].uri == uri then reading else ReadingOf(list[1..], more, uri))
            && Times(s.notes, uri, server) == Times(first, uri, server) + Times(rest.notes, uri, server)
            && MidAfter(mid, PlaceOf(s.notes, uri, server))
               == (if Times(first, uri, server) != [] then MidAfter(mid, PlaceOf(first, uri, server))
                   else MidAfter(round.mid, PlaceOf(rest.notes, uri, server)))
  {
    var reading := if readings == [] then Unreadable else readings[0];
    var more := if readings == [] then [] else readings[1..];
    var round := StepWatchers(list[0].watchers, reading, now, mid);
    var rest := StepAll(list[1..], more, now, round.mid);
    var first := Notes(list[0].uri, round.servers, now);
    assert StepAll(list, readings, now, mid) == Stepped([list[0].(watchers := round.watchers)] + rest.list, first + rest.notes, rest.mid);
    hide StepWatchers, StepAll, MidAfter, InWatchers, ReadingOf, Times, Current, Notes, PlaceOf;
    CurrentCons(list[0].(watchers := round.watchers), rest.list, uri, server);
    TimesConcat(first, rest.notes, uri, server);
    MidFirst(list[0], reading, now, mid, rest.notes, uri, server);
    ReadingFirst(list, readings, uri);
  }

  lemma {:induction false} MidFirst(o: Observed, reading: Reading, now: int, mid: uint16, more: seq<Notification>, uri: Path, server: nat)
    ensures var round := StepWatchers(o.watchers, reading, now, mid);
            var first := Notes(o.uri, round.servers, now);
            MidAfter(mid, PlaceOf(first + more, uri, server))
            == if Times(first, uri, server) != [] then MidAfter(mid, PlaceOf(first, uri, server)) else MidAfter(round.mid, PlaceOf(more, uri, server))
  {
    hide StepWatchers, MidAfter, Times, Notes, PlaceOf;
    var round := StepWatchers(o.watchers, reading, now, mid);
    RoundMids(o.watchers, reading, now, mid);
    NotesLength(o.uri, round.servers, now);
    PlaceFirst(Notes(o.uri, round.servers, now), more, uri, server);
    MidsAdd(mid, |round.servers|, PlaceOf(more, uri, server));
  }

  lemma {:induction false} ReadingFirst(list: seq<Observed>, readings: seq<Reading>, uri: Path)
    requires list != []
    ensures ReadingOf(list, readings, uri)
         == if list[0].uri == uri then (if readings == [] then Unreadable else readings[0])
            else ReadingOf(list[1..], if readings == [] then [] else readings[1..], uri)
  {
  }

  /** Behind the observation of a path nobody is notified about it. */
  lemma {:induction false} RestQuiet(list: seq<Observed>, readings: seq<Reading>, now: int, mid: uint16, uri: Path, server: nat)
    requires Structure(list) && list != [] && list[0].uri == uri
    ensures Times(StepAll(list[1..], readings, now, mid).notes, uri, server) == []
  {
    forall o | o in list[1..] ensures o.uri != uri {
      assert !IsBelow(o.uri, list[0].uri);
    }
    hide Structure;
    NobodyNotified(list[1..], readings, now, mid, uri, server);
  }

  lemma {:induction false} NobodyNotified(list: seq<Observed>, readings: seq<Reading>, now: int, mid: uint16, uri: Path, server: nat)
    requires forall o :: o in list ==> o.uri != uri
    ensures Times(StepAll(list, readings, now, mid).notes, uri, server) == []
    decreases |list|
  {
    if list != [] {
      var round := StepWatchers(list[0].watchers, if readings == [] then Unreadable else readings[0], now, mid);
      var rest := StepAll(list[1..], if readings == [] then [] else readings[1..], now, round.mid);
      assert list[0] in list && forall o :: o in list[1..] ==> o in list;
      hide StepWatchers;
      NobodyNotified(list[1..], if readings == [] then [] else readings[1..], now, round.mid, uri, server);
      OtherPathsQuiet(list[0].uri, round.servers, now, uri, server);
      TimesConcat(Notes(list[0].uri, round.servers, now), rest.notes, uri, server);
    }
  }

  // ----- the other events ---------------------------------------------------------------------

  /** A request changes the watcher of its server at the entry it is taken to, and no other. */
  lemma {:induction false} RequestExact(list: seq<Observed>, p: Path, asking: nat, request: Request, uri: Path, server: nat)
    requires Structure(list) && Current(list, uri, server).Some?
    ensures Current(Requested(list, p, asking, request), uri, server)
         == if asking == server && Entry(list, p) == uri then Some(Modified(Current(list, uri, server).value, request))
            else Current(list, uri, server)
  {
    var i := FindObserved(list, p);
    var after := Requested(list, p, asking, request);
    RequestTakesEntry(list, p, asking, request);
    if i == |list| {
      if p == uri {
        NoCurrent(list, uri, server);
      }
      assert after[1..] == list;
    } else if list[i].uri == uri {
      RequestedKeeps(list, p, asking, request);
      CurrentAt(list, i, uri, server);
      CurrentAt(after, i, uri, server);
      hide Structure;
      ModifiedInEffect(list[i].watchers, asking, request, server);
    } else {
      hide Structure;
      CurrentElsewhere(list, i, after[i], uri, server);
    }
  }

  lemma {:induction false} TouchesIsRelated(changed: Path, uri: Path)
    ensures Touches(changed, uri) <==> Related(uri, changed)
  {
    if Touches(changed, uri) {
      if |changed| <= |uri| {
        assert changed == uri[..|changed|];
      } else {
        assert uri == changed[..|uri|];
      }
    }
  }

  lemma {:induction false} FollowStep(s: Served, w: World, e: Event, uri: Path, server: nat)
    requires Structure(w.list) && Current(w.list, uri, server).Some? && Matches(Current(w.list, uri, server).value, s)
    requires Current(Next(w, e).list, uri, server).Some?
    ensures Matches(Current(Next(w, e).list, uri, server).value, Follow(s, w, e, uri, server))
  {
    hide Current, StepAll, Requested, Cancelled, Cleared, Tagged, Structure, Entry, ReadingOf, Due, Related, Touches;
    match e
    case Ask(p, asking, request) => RequestExact(w.list, p, asking, request, uri, server);
    case Cancel(mid, peers) => CancelEffect(w.list, mid, peers, uri, server);
    case Clear(p) => if p != [] { ClearEffect(w.list, p, uri, server); }
    case Change(p) =>
      TagEffect(w.list, p, uri, server);
      TouchesIsRelated(p, uri);
    case Tick(now, readings) => StepExact(w.list, readings, now, w.mid, uri, server);
  }

  lemma {:induction false} FollowKeeps(s: Served, w: World, run: seq<Event>, uri: Path, server: nat)
    requires Structure(w.list) && Watched(w, run, uri, server) && Matches(Current(w.list, uri, server).value, s)
    ensures var after := AfterRun(w, run);
            && Structure(after.list) && Current(after.list, uri, server).Some?
            && Matches(Current(after.list, uri, server).value, FollowRun(s, w, run, uri, server))
    decreases |run|
  {
    if run != [] {
      hide Structure, Current, Matches, Follow, Next;
      NextKeepsStructure(w, run[0]);
      assert Watched(Next(w, run[0]), run[1..], uri, server);
      assert Current(Next(w, run[0]).list, uri, server).Some? by { WatchedNow(Next(w, run[0]), run[1..], uri, server); }
      FollowStep(s, w, run[0], uri, server);
      FollowKeeps(Follow(s, w, run[0], uri, server), Next(w, run[0]), run[1..], uri, server);
    }
  }

  lemma {:induction false} WatchedNow(w: World, run: seq<Event>, uri: Path, server: nat)
    requires Watched(w, run, uri, server)
    ensures Current(w.list, uri, server).Some?
  {
  }

  // ----- cancelling ---------------------------------------------------------------------------

  /** The first watcher, in the order of the lists, that last sent this message ID and belongs to one of the servers. */
  predicate IsFirstBearer(list: seq<Observed>, i: nat, k: nat, mid: uint16, peers: set<nat>) {
    && i < |list| && k < |list[i].watchers| && list[i].watchers[k].lastMid == mid && list[i].watchers[k].server in peers
    && (forall l :: 0 <= l < k ==> list[i].watchers[l].lastMid != mid || list[i].watchers[l].server !in peers)
    && (forall j, l :: 0 <= j < i && 0 <= l < |list[j].watchers| ==>
          list[j].watchers[l].lastMid != mid || list[j].watchers[l].server !in peers)
  }

  /** A cancellation takes away the first watcher it may mean, and leaves all others as they were. */
  lemma {:induction false} CancelExact(list: seq<Observed>, i: nat, k: nat, mid: uint16, peers: set<nat>, uri: Path, server: nat)
    requires Structure(list) && IsFirstBearer(list, i, k, mid, peers)
    ensures Current(Cancelled(list, mid, peers), uri, server)
         == if list[i].uri == uri && list[i].watchers[k].server == server then None else Current(list, uri, server)
    decreases |list|
  {
    StructureTail(list);
    var (ws, rest) := (list[0].watchers, Cancelled(list[1..], mid, peers));
    if i > 0 {
      BearerBehind(list, i, k, mid, peers);
      var o := list[i];
      assert o.uri != list[0].uri by { UrisDistinct(list, 0, i); }
      assert Cancelled(list, mid, peers) == [list[0]] + rest;
      CurrentCons(list[0], rest, uri, server);
      CurrentCons(list[0], list[1..], uri, server);
      assert list == [list[0]] + list[1..] && list[1..][i - 1] == o;
      hide Structure, Current, IsFirstBearer, Cancelled;
      CancelExact(list[1..], i - 1, k, mid, peers, uri, server);
    } else {
      CancelFirst(list, k, mid, peers, uri, server);
    }
  }

  lemma {:induction false} BearerBehind(list: seq<Observed>, i: nat, k: nat, mid: uint16, peers: set<nat>)
    requires IsFirstBearer(list, i, k, mid, peers) && i > 0
    ensures IsFirstBearer(list[1..], i - 1, k, mid, peers)
    ensures FindMeant(list[0].watchers, mid, peers) == |list[0].watchers|
  {
    assert forall j :: 0 <= j < |list[1..]| ==> list[1..][j] == list[j + 1];
  }

  lemma {:induction false} CurrentCons(o: Observed, list: seq<Observed>, uri: Path, server: nat)
    ensures Current([o] + list, uri, server) == if o.uri == uri then InWatchers(o.watchers, server) else Current(list, uri, server)
  {
    hide InWatchers;
    assert ([o] + list)[1..] == list;
  }

  /** The watcher is one of the first observation. */
  lemma {:induction false} CancelFirst(list: seq<Observed>, k: nat, mid: uint16, peers: set<nat>, uri: Path, server: nat)
    requires Structure(list) && IsFirstBearer(list, 0, k, mid, peers)
    ensures Current(Cancelled(list, mid, peers), uri, server)
         == if list[0].uri == uri && list[0].watchers[k].server == server then None else Current(list, uri, server)
  {
    var (o, ws, more) := (list[0], list[0].watchers, list[1..]);
    assert FindMeant(ws, mid, peers) == k;
    var left := ws[..k] + ws[k + 1..];
    WithoutWatcher(ws, k, server);
    forall p | p in more ensures p.uri != o.uri { assert !IsBelow(p.uri, o.uri); }
    assert Cancelled(list, mid, peers) == if left == [] then more else [o.(watchers := left)] + more;
    assert list == [o] + more;
    assert left == [] ==> InWatchers(left, server) == None;
    hide Structure, FindMeant, IsFirstBearer, Cancelled, InWatchers, Current;
    CurrentCons(o, more, uri, server);
    CurrentCons(o.(watchers := left), more, uri, server);
    if o.uri == uri {
      NoCurrent(more, uri, server);
    }
  }

  lemma {:induction false} WithoutWatcher(ws: seq<Watcher>, k: nat, server: nat)
    requires DistinctServers(ws) && k < |ws|
    ensures InWatchers(ws[..k] + ws[k + 1..], server) == if ws[k].server == server then None else InWatchers(ws, server)
  {
    var rest := ws[..k] + ws[k + 1..];
    var j := FindWatcher(ws, server);
    if j < |ws| && ws[k].server != server {
      FindIsAt(rest, server, if j < k then j else j - 1);
    } else {
      RemovedWatcher(ws, k, server);
      if FindWatcher(rest, server) < |rest| {
        assert ws[k].server != server;
      }
    }
  }

  /** A cancellation that means no watcher changes nothing. */
  lemma {:induction false} CancelNothing(list: seq<Observed>, mid: uint16, peers: set<nat>)
    requires forall i, k :: 0 <= i < |list| && 0 <= k < |list[i].watchers| ==>
               list[i].watchers[k].lastMid != mid || list[i].watchers[k].server !in peers
    ensures Cancelled(list, mid, peers) == list
  {
    if list != [] {
      assert forall i :: 0 <= i < |list[1..]| ==> list[1..][i] == list[i + 1];
      CancelNothing(list[1..], mid, peers);
    }
  }

  // ----- who is notified ----------------------------------------------------------------------

  /** The value has crossed a limit since the last notification. */
  predicate Crossed(limit: Option<real>, last: real, value: real) {
    limit.Some? && ((last < limit.value < value) || (value < limit.value < last))
  }

  predicate Moved(step: Option<real>, last: real, value: real) {
    step.Some? && (value - last >= step.value || last - value >= step.value)
  }

  /** A notification is owed: after a change, at once without attributes, once pmin is over if there is one, and
      otherwise when the value has passed a threshold since it was last sent; and in any case once pmax is over. */
  predicate Owed(s: Served, value: Option<real>, now: int) {
    match s.attributes
    case None => s.touched
    case Some(Attributes(pmin, pmax, gt, lt, st)) =>
      || (s.touched && pmin.Some? && now >= s.time + pmin.value)
      || (s.touched && pmin.None? && pmax.None? && gt.None? && lt.None? && st.None?)
      || (s.touched && pmin.None? && value.Some? && (Crossed(lt, s.value, value.value) || Crossed(gt, s.value, value.value) || Moved(st, s.value, value.value)))
      || (pmax.Some? && now >= s.time + pmax.value)
  }

  /** Over every run in which the server keeps its watcher, a step notifies it exactly when the history says that a
      notification is owed and the value can be read and serialized. */
  lemma {:induction false} NotifiedExactly(s: Served, w: World, run: seq<Event>, tick: Event, uri: Path, server: nat)
    requires Structure(w.list) && Watched(w, run, uri, server) && Matches(Current(w.list, uri, server).value, s)
    requires tick.Tick?
    ensures var (v, h) := (AfterRun(w, run), FollowRun(s, w, run, uri, server));
            var r := ReadingOf(v.list, tick.readings, uri);
            IsNotified(v, tick, uri, server) <==> r.Readable? && r.serializes && Owed(h, r.value, tick.now)
  {
    FollowKeeps(s, w, run, uri, server);
    var (v, h) := (AfterRun(w, run), FollowRun(s, w, run, uri, server));
    var r := ReadingOf(v.list, tick.readings, uri);
    hide FollowRun, AfterRun, Current, StepAll, Structure, ReadingOf, Watched;
    StepExact(v.list, tick.readings, tick.now, v.mid, uri, server);
    if r.Readable? {
      DueIsOwed(Current(v.list, uri, server).value, h, r.value, tick.now);
    }
    hide Due, Owed, Matches;
  }

  lemma {:induction false} DueIsOwed(x: Watcher, s: Served, value: Option<real>, now: int)
    requires Matches(x, s)
    ensures Due(x, value, now) <==> Owed(s, value, now)
  {
  }

  /** A server that observes a path for the first time, with nothing observed below it, begins with this history. */
  lemma {:induction false} NewWatcher(w: World, uri: Path, server: nat, now: int, mid: uint16, value: Option<real>)
    requires Structure(w.list) && Current(w.list, uri, server).None? && !ObservedBelow(w.list, uri)
    ensures var after := Next(w, Ask(uri, server, Watch(now, mid, value)));
            && Current(after.list, uri, server).Some?
            && Matches(Current(after.list, uri, server).value, Served(false, now, if value.Some? then value.value else 0.0, mid, 1, None))
  {
    RequestJoinsBelow(w.list, uri, server, Watch(now, mid, value));
    hide Requested, ObservedBelow, Current, Structure;
  }

  /** A server that sets attributes first gets a watcher that waits: it is notified of nothing before it is activated. */
  lemma {:induction false} NewAttributes(w: World, uri: Path, server: nat, attributes: Option<Attributes>)
    requires Structure(w.list) && Current(w.list, uri, server).None? && !ObservedBelow(w.list, uri)
    ensures Current(Next(w, Ask(uri, server, SetAttributes(attributes))).list, uri, server)
         == Some(Watcher(server, false, false, attributes, 0, 0, 0, 0.0))
  {
    RequestJoinsBelow(w.list, uri, server, SetAttributes(attributes));
    hide Requested, ObservedBelow, Current, Structure;
  }

  /** In particular: a server that has just begun to observe a path is notified at the first step after a change that
      touches the path, if the value can be read and serialized. */
  lemma {:induction false} ChangeIsNotified(w: World, uri: Path, server: nat, now: int, mid: uint16, value: Option<real>,
                                            changed: Path, tick: Event)
    requires Structure(w.list) && Current(w.list, uri, server).None? && !ObservedBelow(w.list, uri)
    requires Touches(changed, uri) && tick.Tick?
    ensures var v := Next(Next(w, Ask(uri, server, Watch(now, mid, value))), Change(changed));
            var r := ReadingOf(v.list, tick.readings, uri);
            IsNotified(v, tick, uri, server) <==> r.Readable? && r.serializes
  {
    var ask := Ask(uri, server, Watch(now, mid, value));
    var after := Next(w, ask);
    NextKeepsStructure(w, ask);
    NewWatcher(w, uri, server, now, mid, value);
    var s := Served(false, now, if value.Some? then value.value else 0.0, mid, 1, None);
    hide Structure, Current, Requested, ObservedBelow, IsNotified, ReadingOf, Matches, Touches;
    OneChange(s, after, changed, uri, server);
    hide FollowRun, AfterRun, Next, Watched;
    NotifiedExactly(s, after, [Change(changed)], tick, uri, server);
  }

  lemma {:induction false} OneChange(s: Served, w: World, changed: Path, uri: Path, server: nat)
    requires Current(w.list, uri, server).Some?
    ensures var run := [Change(changed)];
            && AfterRun(w, run) == Next(w, Change(changed))
            && FollowRun(s, w, run, uri, server) == s.(touched := s.touched || Touches(changed, uri))
            && Watched(w, run, uri, server)
  {
    var run := [Change(changed)];
    var v := Next(w, run[0]);
    TagEffect(w.list, changed, uri, server);
    hide Current, Touches, Tagged;
    assert run[1..] == [];
    assert AfterRun(v, run[1..]) == v && Watched(v, run[1..], uri, server);
    assert Follow(s, w, run[0], uri, server) == s.(touched := s.touched || Touches(changed, uri));
    assert FollowRun(s.(touched := s.touched || Touches(changed, uri)), v, run[1..], uri, server) == s.(touched := s.touched || Touches(changed, uri));
  }
}
