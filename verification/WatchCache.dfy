// gpustack/client/generated_model_instance_client.py: a cache of the server's
// rows, fed by a watch stream and read by other threads under a lock. Every
// lock-protected block is one atomic step; what a reader can see is the state
// between two of them.
module WatchCache {
  import opened Text

  datatype Item = Item(id: int, attrs: map<string, string>)

  type Cache = map<int, Item>

  datatype EventType = CREATED | UPDATED | DELETED | UNKNOWN | HEARTBEAT

  /** The payload: a row that validates, the bare {"id": ...} of a delete whose
      row was already gone, or something that fails validation. */
  datatype Data = Full(item: Item) | IdOnly | Invalid

  datatype Event = Event(kind: EventType, id: Option<int>, data: Data)

  predicate IdOnlyDelete(e: Event) {
    e.kind == DELETED && e.data.IdOnly? && e.id.Some?
  }

  /** _update_cache_from_event, as far as the cache goes. */
  function Apply(cache: Cache, e: Event): Cache {
    if IdOnlyDelete(e) then cache - {e.id.value}
    else if !e.data.Full? then cache
    else if e.kind == DELETED then cache - {e.data.item.id}
    else cache[e.data.item.id := e.data.item]
  }

  /** The event a callback sees: an id-only delete of a known row gets the row. */
  function Enrich(cache: Cache, e: Event): Event {
    if IdOnlyDelete(e) && e.id.value in cache then e.(data := Full(cache[e.id.value])) else e
  }

  function Fold(cache: Cache, events: seq<Event>): Cache {
    if events == [] then cache
    else Apply(Fold(cache, events[..|events| - 1]), events[|events| - 1])
  }

  // ---------------------------------------------------------------- the runs

  /** What a reader holding the lock sees. */
  datatype View = View(started: bool, cache: Cache)

  const COLD := View(false, map[])

  datatype Step = Opened | Received(e: Event) | Closed

  function Next(v: View, step: Step): View {
    match step
    case Opened => View(true, map[])
    case Received(e) => View(v.started, Apply(v.cache, e))
    case Closed => if v.started then COLD else v
  }

  function After(v: View, steps: seq<Step>): View {
    if steps == [] then v else Next(After(v, steps[..|steps| - 1]), steps[|steps| - 1])
  }

  /** The events since the last Opened or Closed; None when nothing is open. */
  function SinceOpen(steps: seq<Step>): Option<seq<Event>> {
    if steps == [] then None
    else
      match steps[|steps| - 1]
      case Opened => Some([])
      case Closed => None
      case Received(e) =>
        match SinceOpen(steps[..|steps| - 1])
        case None => None
        case Some(es) => Some(es + [e])
  }

  /** A single watcher receives only while it is connected. */
  predicate Wellformed(steps: seq<Step>) {
    steps == [] ||
    (Wellformed(steps[..|steps| - 1]) && (steps[|steps| - 1].Received? ==> SinceOpen(steps[..|steps| - 1]).Some?))
  }

  /** Over every run, at every moment: the cache claims authority exactly while
      a connection is up, then it is the left fold of that connection's events
      and nothing older; otherwise it is empty. */
  lemma {:induction false} CacheIsFoldSinceOpen(steps: seq<Step>)
    requires Wellformed(steps)
    ensures After(COLD, steps) == match SinceOpen(steps)
                                  case None => COLD
                                  case Some(es) => View(true, Fold(map[], es))
  {
    if steps != [] {
      CacheIsFoldSinceOpen(steps[..|steps| - 1]);
      if steps[|steps| - 1].Received? {
        var es := SinceOpen(steps[..|steps| - 1]).value;
        var e := steps[|steps| - 1].e;
        assert (es + [e])[..|es|] == es;
      }
    }
  }

  // ------------------------------------------------------- replica agreement

  datatype Change = Save(item: Item) | Erase(id: int)

  function Touched(c: Change): int {
    match c case Save(item) => item.id case Erase(id) => id
  }

  function Commit(db: Cache, c: Change): Cache {
    match c
    case Save(item) => db[item.id := item]
    case Erase(id) => db - {id}
  }

  /** The server's rows after some changes. */
  function Rows(db: Cache, changes: seq<Change>): Cache {
    if changes == [] then db else Commit(Rows(db, changes[..|changes| - 1]), changes[|changes| - 1])
  }

  /** The event tells of the change: a saved row comes whole, a delete with its
      row or only its id. */
  predicate Carries(e: Event, c: Change) {
    match c
    case Save(item) => e.kind != DELETED && e.data == Full(item)
    case Erase(id) =>
        e.kind == DELETED && ((e.data.IdOnly? && e.id == Some(id)) || (e.data.Full? && e.data.item.id == id))
  }

  /** A CREATED event for a row of the table. */
  predicate TellsRow(e: Event, db: Cache) {
    e.kind == CREATED && e.data.Full? && e.data.item.id in db && db[e.data.item.id] == e.data.item
  }

  /** A replay of the rows: every row, in any order, and nothing else. */
  ghost predicate Replays(events: seq<Event>, db: Cache) {
    && (forall e :: e in events ==> TellsRow(e, db))
    && (forall id :: id in db ==> exists e :: e in events && e.data.Full? && e.data.item.id == id)
  }

  predicate Noise(e: Event) {
    !IdOnlyDelete(e) && !e.data.Full?
  }

  /** The stream without heartbeats and events that do not validate. */
  function Meaningful(events: seq<Event>): seq<Event> {
    if events == [] then []
    else
      var rest := Meaningful(events[..|events| - 1]);
      if Noise(events[|events| - 1]) then rest else rest + [events[|events| - 1]]
  }

  lemma {:induction false} NoiseChangesNothing(cache: Cache, events: seq<Event>)
    ensures Fold(cache, events) == Fold(cache, Meaningful(events))
  {
    if events != [] {
      NoiseChangesNothing(cache, events[..|events| - 1]);
      var rest := Meaningful(events[..|events| - 1]);
      assert (rest + [events[|events| - 1]])[..|rest|] == rest;
    }
  }

  lemma {:induction false} FoldSplit(cache: Cache, a: seq<Event>, b: seq<Event>)
    ensures Fold(cache, a + b) == Fold(Fold(cache, a), b)
  {
    if b == [] {
      assert a + b == a;
    } else {
      assert (a + b)[..|a + b| - 1] == a + b[..|b| - 1];
      FoldSplit(cache, a, b[..|b| - 1]);
    }
  }

  lemma {:induction false} ReplayMember(events: seq<Event>, db: Cache, id: int)
    requires forall e :: e in events ==> TellsRow(e, db)
    ensures var c := Fold(map[], events);
            && (id in c <==> exists e :: e in events && e.data.Full? && e.data.item.id == id)
            && (id in c ==> id in db && c[id] == db[id])
  {
    if events != [] {
      var front, e := events[..|events| - 1], events[|events| - 1];
      assert events == front + [e] && TellsRow(e, db);
      ReplayMember(front, db, id);
    }
  }

  /** Consuming a replay rebuilds the rows. */
  lemma ReplayRebuilds(events: seq<Event>, db: Cache)
    requires Replays(events, db)
    ensures Fold(map[], events) == db
  {
    forall id
      ensures id in Fold(map[], events) <==> id in db
      ensures id in db ==> Fold(map[], events)[id] == db[id]
    {
      ReplayMember(events, db, id);
    }
  }

  lemma {:induction false} DeltasCommit(db: Cache, changes: seq<Change>, events: seq<Event>)
    requires |events| == |changes| && forall i :: 0 <= i < |events| ==> Carries(events[i], changes[i])
    ensures Fold(db, events) == Rows(db, changes)
    decreases |events|
  {
    if events != [] {
      DeltasCommit(db, changes[..|changes| - 1], events[..|events| - 1]);
      assert Carries(events[|events| - 1], changes[|changes| - 1]);
    }
  }

  /** Two tables that differ in a row agree on it again after the same changes
      once one of those touches the row. */
  lemma {:induction false} RowSettles(a: Cache, b: Cache, changes: seq<Change>, id: int)
    requires (exists i :: 0 <= i < |changes| && Touched(changes[i]) == id)
             || ((id in a <==> id in b) && (id in a ==> a[id] == b[id]))
    ensures var x, y := Rows(a, changes), Rows(b, changes); (id in x <==> id in y) && (id in x ==> x[id] == y[id])
  {
    if changes != [] && Touched(changes[|changes| - 1]) != id {
      var front := changes[..|changes| - 1];
      if i :| 0 <= i < |changes| && Touched(changes[i]) == id {
        assert front[i] == changes[i];
      }
      RowSettles(a, b, front, id);
    }
  }

  lemma {:induction false} Untouched(db: Cache, changes: seq<Change>, id: int)
    requires forall i :: 0 <= i < |changes| ==> Touched(changes[i]) != id
    ensures var x := Rows(db, changes); (id in x <==> id in db) && (id in x ==> x[id] == db[id])
  {
    if changes != [] {
      Untouched(db, changes[..|changes| - 1], id);
    }
  }

  /** Replaying a whole history over a table that already has a prefix of it
      gives the same table as replaying it over the original. */
  lemma OverlapIsHarmless(db: Cache, changes: seq<Change>, j: nat)
    requires j <= |changes|
    ensures Rows(Rows(db, changes[..j]), changes) == Rows(db, changes)
  {
    var ahead := Rows(db, changes[..j]);
    var x, y := Rows(ahead, changes), Rows(db, changes);
    forall id
      ensures (id in x <==> id in y) && (id in x ==> x[id] == y[id])
    {
      if forall i :: 0 <= i < |changes| ==> Touched(changes[i]) != id {
        Untouched(db, changes[..j], id);
      }
      RowSettles(ahead, db, changes, id);
    }
  }

  /** The replica theorem. The server subscribes the stream first and reads the
      snapshot afterwards, so the snapshot may already contain the first j of
      the changes that the stream then delivers. Whatever session came before
      and whatever noise is mixed in, once the replay and the first k >= j
      deltas are consumed the cache is the server's table after k changes. */
  lemma ReplicaTracksServer(db: Cache, changes: seq<Change>, j: nat, k: nat,
                            replay: seq<Event>, deltas: seq<Event>, stream: seq<Event>, earlier: View)
    requires j <= k <= |changes| == |deltas|
    requires Replays(replay, Rows(db, changes[..j]))
    requires forall i :: 0 <= i < |deltas| ==> Carries(deltas[i], changes[i])
    requires Meaningful(stream) == replay + deltas[..k]
    ensures Fold(Next(earlier, Opened).cache, stream) == Rows(db, changes[..k])
  {
    NoiseChangesNothing(map[], stream);
    FoldSplit(map[], replay, deltas[..k]);
    ReplayRebuilds(replay, Rows(db, changes[..j]));
    var told := changes[..k];
    forall i | 0 <= i < k
      ensures Carries(deltas[..k][i], told[i])
    {
      assert Carries(deltas[i], changes[i]);
    }
    DeltasCommit(Rows(db, changes[..j]), told, deltas[..k]);
    assert told[..j] == changes[..j];
    OverlapIsHarmless(db, told, j);
  }

  // ------------------------------------------------------------- the client

  /** What the stream hands over: a blank keep-alive, a line that is no event,
      an event, or nothing for 45 seconds; or the watch is cancelled meanwhile. */
  datatype Line = Blank | Garbage | Message(e: Event) | Silence | Cancelled

  datatype Ending =
    | ConnectFailed | ServerClosed | TimedOut | BadLine | WatchCancelled | CallbackRaised | StopRaised | Stopped

  /** The steps of a session that has handled some lines. */
  function Steps(lines: seq<Line>): seq<Step> {
    if lines == [] then [Opened]
    else
      var before := Steps(lines[..|lines| - 1]);
      match lines[|lines| - 1]
      case Message(e) => before + [Received(e)]
      case _ => before
  }

  /** What readers see when a session has handled some lines. */
  function SeenAfter(enableCache: bool, lines: seq<Line>): View {
    if enableCache then After(COLD, Steps(lines)) else COLD
  }

  lemma SeenOneMore(enableCache: bool, lines: seq<Line>, i: nat)
    requires i < |lines|
    ensures var before, after := SeenAfter(enableCache, lines[..i]), SeenAfter(enableCache, lines[..i + 1]);
            after == if enableCache && lines[i].Message?
                     then View(before.started, Apply(before.cache, lines[i].e)) else before
  {
    assert lines[..i + 1][..i] == lines[..i];
    if lines[i].Message? {
      var steps := Steps(lines[..i]);
      assert (steps + [Received(lines[i].e)])[..|steps|] == steps;
    }
  }

  lemma SeenAtOpen(enableCache: bool, lines: seq<Line>)
    ensures SeenAfter(enableCache, lines[..0]) == if enableCache then View(true, map[]) else COLD
  {
    assert lines[..0] == [] && [Opened][..0] == [];
  }

  /** An event that stands for a row the client cannot show. */
  predicate Bare(e: Event) {
    e.data.IdOnly? && e.id.Some?
  }

  /** The event as the callback would get it, when the lines before have been
      handled. */
  function Shown(enableCache: bool, before: seq<Line>, e: Event): Event {
    if enableCache then Enrich(SeenAfter(enableCache, before).cache, e) else e
  }

  /** What the callback is told over some handled lines: every event in order,
      but for those that stand for a row nobody has. */
  function Told(enableCache: bool, lines: seq<Line>): seq<Event> {
    if lines == [] then []
    else
      var front := lines[..|lines| - 1];
      match lines[|lines| - 1]
      case Message(e) =>
        var shown := Shown(enableCache, front, e);
        Told(enableCache, front) + if Bare(shown) then [] else [shown]
      case _ => Told(enableCache, front)
  }

  function Stop(answer: Option<bool>): Option<Ending> {
    match answer
    case None => Some(StopRaised)
    case Some(stop) => if stop then Some(Stopped) else None
  }

  /** Whether a line ends the session, and how; a stop condition that raises is
      None. */
  function EndsAt(enableCache: bool, lines: seq<Line>, i: nat, raises: Event -> bool, stops: Event -> Option<bool>):
    Option<Ending>
    requires i < |lines|
  {
    match lines[i]
    case Blank => None
    case Silence => Some(TimedOut)
    case Garbage => Some(BadLine)
    case Cancelled => Some(WatchCancelled)
    case Message(e) =>
      var shown := Shown(enableCache, lines[..i], e);
      if !Bare(shown) && raises(shown) then Some(CallbackRaised)
      else Stop(stops(shown))
  }

  /** What each line does, told without the helpers: silence, a line that is no
      event and a cancellation end the session each in its way; an event is shown
      as it came, but an id-only delete of a cached row with that row; one of an
      unknown row reaches no callback; and then the stop condition is asked. */
  lemma EndsAtIs(enableCache: bool, lines: seq<Line>, i: nat, raises: Event -> bool, stops: Event -> Option<bool>)
    requires i < |lines|
    ensures lines[i] == Blank ==> EndsAt(enableCache, lines, i, raises, stops) == None
    ensures lines[i] == Silence ==> EndsAt(enableCache, lines, i, raises, stops) == Some(TimedOut)
    ensures lines[i] == Garbage ==> EndsAt(enableCache, lines, i, raises, stops) == Some(BadLine)
    ensures lines[i] == Cancelled ==> EndsAt(enableCache, lines, i, raises, stops) == Some(WatchCancelled)
    ensures lines[i].Message? ==>
              var e, cache := lines[i].e, SeenAfter(enableCache, lines[..i]).cache;
              var bare := e.data.IdOnly? && e.id.Some?;
              var known := enableCache && bare && e.kind == DELETED && e.id.value in cache;
              var shown := if known then Event(DELETED, e.id, Full(cache[e.id.value])) else e;
              && Shown(enableCache, lines[..i], e) == shown && (Bare(shown) <==> bare && !known)
              && EndsAt(enableCache, lines, i, raises, stops)
                 == if (known || !bare) && raises(shown) then Some(CallbackRaised)
                    else match stops(shown)
                         case None => Some(StopRaised)
                         case Some(stop) => if stop then Some(Stopped) else None
  {
    hide SeenAfter;
  }

  /** The first line that ends the session decides how it ends and, n being the
      lines handled, how far it gets; if none does, the server closed it. */
  ghost predicate EndsLike(enableCache: bool, lines: seq<Line>, raises: Event -> bool,
                           stops: Event -> Option<bool>, ending: Ending, n: nat)
  {
    || (ending == ServerClosed && n == |lines|
        && forall i :: 0 <= i < |lines| ==> EndsAt(enableCache, lines, i, raises, stops) == None)
    || (exists k :: 0 <= k < |lines|
          && EndsAt(enableCache, lines, k, raises, stops) == Some(ending)
          && n == (if lines[k].Message? then k + 1 else k)
          && forall i :: 0 <= i < k ==> EndsAt(enableCache, lines, i, raises, stops) == None)
  }

  lemma ToldNothing(enableCache: bool, lines: seq<Line>)
    ensures Told(enableCache, lines[..0]) == []
  {
  }

  lemma ToldOneMore(enableCache: bool, lines: seq<Line>, i: nat)
    requires i < |lines|
    ensures Told(enableCache, lines[..i + 1]) == Told(enableCache, lines[..i]) +
              (if lines[i].Message? && !Bare(Shown(enableCache, lines[..i], lines[i].e))
               then [Shown(enableCache, lines[..i], lines[i].e)] else [])
  {
    assert lines[..i + 1][..i] == lines[..i];
  }

  function Attr(item: Item, key: string): Option<string> {
    if key == "id" then Some(Decimal(item.id))
    else if key in item.attrs then Some(item.attrs[key]) else None
  }

  type Params = seq<(string, string)>

  predicate ParamOk(item: Item, p: (string, string)) {
    p.0 == "watch" || Attr(item, p.0) == None || Attr(item, p.0) == Some(p.1)
  }

  /** An item passes when no parameter contradicts an attribute it has. */
  predicate Matches(item: Item, params: Params) {
    forall i :: 0 <= i < |params| ==> ParamOk(item, params[i])
  }

  /** "watch" is no filter, "id" compares with the printed id, any other parameter
      with the attribute of its name if the row has one. */
  lemma MatchesIs(item: Item, params: Params)
    ensures Matches(item, params) <==> forall p :: p in params ==>
              || p.0 == "watch"
              || (p.0 == "id" && p.1 == Decimal(item.id))
              || (p.0 !in {"id", "watch"} && (p.0 !in item.attrs || item.attrs[p.0] == p.1))
  {
  }

  /** items is the values of the cache, each row once. */
  ghost predicate ListsRows(items: seq<Item>, cache: Cache) {
    && |items| == |cache|
    && (forall i :: 0 <= i < |items| ==> items[i].id in cache && cache[items[i].id] == items[i])
    && (forall i, j :: 0 <= i < j < |items| ==> items[i].id != items[j].id)
  }

  datatype ListCall = FromCache(items: seq<Item>) | CallApi(params: Params)

  predicate Keyed(cache: Cache) {
    forall id :: id in cache ==> cache[id].id == id
  }

  class ModelInstanceClient {
    const enableCache: bool
    var cache: Cache
    var watchStarted: bool
    var initialSyncLogged: bool

    predicate Valid()
      reads this
    {
      Keyed(cache) && (!watchStarted ==> cache == map[])
    }

    function Seen(): View
      reads this
    {
      View(watchStarted, cache)
    }

    constructor (enableCache: bool)
      ensures Valid() && Seen() == COLD && this.enableCache == enableCache
    {
      this.enableCache, cache, watchStarted, initialSyncLogged := enableCache, map[], false, false;
    }

    /** _update_cache_from_event; returns the event as the callback gets it. */
    method UpdateCacheFromEvent(e: Event) returns (enriched: Event)
      requires Valid()
      modifies this`cache
      ensures Keyed(cache)
      ensures cache == if enableCache then Apply(old(cache), e) else old(cache)
      ensures enriched == if enableCache then Enrich(old(cache), e) else e
    {
      enriched := e;
      if !enableCache {
        return;
      }
      if IdOnlyDelete(e) {
        if e.id.value in cache {
          enriched := e.(data := Full(cache[e.id.value]));
          cache := cache - {e.id.value};
        }
        return;
      }
      if !e.data.Full? {
        return;
      }
      var item := e.data.item;
      if e.kind == DELETED {
        cache := cache - {item.id};
      } else {
        cache := cache[item.id := item];
      }
    }

    /** One event of the watch loop: cache, log flag, callback, stop test. */
    method HandleEvent(e: Event, raises: Event -> bool, stops: Event -> Option<bool>)
      returns (delivered: Option<Event>, ending: Option<Ending>)
      requires Valid() && watchStarted == enableCache
      modifies this
      ensures Valid() && watchStarted == enableCache
      ensures cache == if enableCache then Apply(old(cache), e) else old(cache)
      ensures var seen := if enableCache then Enrich(old(cache), e) else e;
              && delivered == (if Bare(seen) then None else Some(seen))
              && ending == (if delivered.Some? && raises(seen) then Some(CallbackRaised)
                            else Stop(stops(seen)))
      ensures var bare := e.data.IdOnly? && e.id.Some?;
              var known := enableCache && bare && e.kind == DELETED && e.id.value in old(cache);
              var shown := if known then Event(DELETED, e.id, Full(old(cache)[e.id.value])) else e;
              && delivered == (if bare && !known then None else Some(shown))
              && (ending == Some(CallbackRaised) <==> delivered.Some? && raises(shown))
              && (ending == Some(StopRaised) <==> ending != Some(CallbackRaised) && stops(shown) == None)
              && (ending == Some(Stopped) <==> ending != Some(CallbackRaised) && stops(shown) == Some(true))
              && (ending == None <==> !(delivered.Some? && raises(shown)) && stops(shown) == Some(false))
    {
      delivered, ending := None, None;
      var seen := UpdateCacheFromEvent(e);
      if enableCache && !initialSyncLogged && seen.kind == CREATED && |cache| > 0 {
        initialSyncLogged := true;
      }
      if !Bare(seen) {
        delivered := Some(seen);
        if raises(seen) {
          return delivered, Some(CallbackRaised);
        }
      }
      var answer := stops(seen);
      if answer.None? {
        ending := Some(StopRaised);
      } else if answer.value {
        ending := Some(Stopped);
      }
    }

    /** awatch with its callback and stop condition. seen[n] is what readers
        can see after n lines; delivered is what the callback got. */
    method Awatch(connects: bool, lines: seq<Line>, raises: Event -> bool, stops: Event -> Option<bool>)
      returns (ending: Ending, delivered: seq<Event>, seen: seq<View>)
      requires Valid() && Seen() == COLD
      modifies this
      ensures Valid() && Seen() == COLD && !watchStarted && cache == map[]
      ensures seen == [] <==> !connects
      ensures !connects ==> ending == ConnectFailed && delivered == []
      ensures |seen| <= |lines| + 1
      ensures forall n :: 0 <= n < |seen| ==> seen[n] == SeenAfter(enableCache, lines[..n])
      ensures connects ==>
                && delivered == Told(enableCache, lines[..|seen| - 1])
                && EndsLike(enableCache, lines, raises, stops, ending, |seen| - 1)
    {
      hide SeenAfter, Told, Apply, Enrich, Bare;
      ToldNothing(enableCache, lines);
      delivered, seen := [], [];
      if !connects {
        return ConnectFailed, delivered, seen;
      }
      if enableCache {
        cache, initialSyncLogged, watchStarted := map[], false, true;
      }
      ending := ServerClosed;
      seen := [Seen()];
      SeenAtOpen(enableCache, lines);
      var i := 0;
      var over := false;
      while i < |lines| && !over
        invariant 0 <= i <= |lines| && 1 <= |seen| <= |lines| + 1
        invariant Valid() && watchStarted == enableCache && Seen() == seen[|seen| - 1]
        invariant forall n :: 0 <= n < |seen| ==> seen[n] == SeenAfter(enableCache, lines[..n])
        invariant delivered == Told(enableCache, lines[..|seen| - 1])
        invariant forall k :: 0 <= k < i ==> EndsAt(enableCache, lines, k, raises, stops) == None
        invariant !over ==> ending == ServerClosed && |seen| == i + 1
        invariant over ==> i < |lines| && EndsAt(enableCache, lines, i, raises, stops) == Some(ending)
        invariant over ==> |seen| == if lines[i].Message? then i + 2 else i + 1
        decreases |lines| - i, !over
      {
        SeenOneMore(enableCache, lines, i);
        ToldOneMore(enableCache, lines, i);
        if lines[i].Silence? || lines[i].Garbage? || lines[i].Cancelled? {
          ending := match lines[i] case Silence => TimedOut case Garbage => BadLine case _ => WatchCancelled;
          over := true;
        } else if lines[i].Message? {
          var d, stop := HandleEvent(lines[i].e, raises, stops);
          seen := seen + [Seen()];
          if d.Some? {
            delivered := delivered + [d.value];
          }
          if stop.Some? {
            ending := stop.value;
            over := true;
          } else {
            i := i + 1;
          }
        } else {
          seen := seen + [Seen()];
          i := i + 1;
        }
      }
      if enableCache && watchStarted {
        watchStarted, cache := false, map[];
      }
    }

    /** list(self._cache.values()) */
    method Values() returns (items: seq<Item>)
      requires Valid()
      ensures ListsRows(items, cache)
    {
      items := [];
      var left := cache.Keys;
      while left != {}
        invariant left <= cache.Keys
        invariant |items| + |left| == |cache.Keys|
        invariant forall i :: 0 <= i < |items| ==>
                    items[i].id in cache && cache[items[i].id] == items[i] && items[i].id !in left
        invariant forall i, j :: 0 <= i < j < |items| ==> items[i].id != items[j].id
        decreases left
      {
        var id := Pick(left);
        items := items + [cache[id]];
        left := left - {id};
      }
    }

    /** _list_from_cache: the rows that match, each once, or None when the cache
        has no authority. */
    method ListFromCache(params: Params) returns (r: Option<seq<Item>>)
      requires Valid()
      ensures r == None <==> !watchStarted
      ensures r.Some? ==>
                && (forall item: Item :: item in r.value <==>
                      item.id in cache && cache[item.id] == item && Matches(item, params))
                && (forall i, j :: 0 <= i < j < |r.value| ==> r.value[i].id != r.value[j].id)
    {
      if !watchStarted {
        return None;
      }
      var all := Values();
      AllRowsListed(all, cache);
      var filtered: seq<Item> := [];
      var i := 0;
      while i < |all|
        invariant 0 <= i <= |all|
        invariant forall item: Item :: item in filtered <==> item in all[..i] && Matches(item, params)
        invariant forall a, b :: 0 <= a < b < |filtered| ==> filtered[a].id != filtered[b].id
      {
        var item := all[i];
        var ok := true;
        var p := 0;
        while p < |params|
          invariant 0 <= p <= |params|
          invariant ok && forall q :: 0 <= q < p ==> ParamOk(item, params[q])
        {
          if params[p].0 != "watch" && Attr(item, params[p].0).Some? && Attr(item, params[p].0).value != params[p].1 {
            ok := false;
            break;
          }
          p := p + 1;
        }
        assert ok <==> Matches(item, params);
        assert all[..i + 1] == all[..i] + [item];
        if ok {
          forall a | 0 <= a < |filtered|
            ensures filtered[a].id != item.id
          {
            assert filtered[a] in filtered;
            var b :| 0 <= b < i && all[b] == filtered[a];
          }
          filtered := filtered + [item];
        }
        i := i + 1;
      }
      assert all[..|all|] == all;
      r := Some(filtered);
    }

    /** list: the cache when it may answer, else the API, unpaginated when the
        cache had been asked for. */
    method List(params: Params, useCache: bool) returns (r: ListCall)
      requires Valid()
      ensures var paged := exists i :: 0 <= i < |params| && params[i].0 in {"page", "perPage"};
              && (r.FromCache? <==> useCache && enableCache && !paged && watchStarted)
              && (r.FromCache? ==> forall item: Item :: item in r.items <==>
                    item.id in cache && cache[item.id] == item && Matches(item, params))
              && (r.CallApi? ==>
                    r.params == if useCache && enableCache && !paged then params + [("page", "-1")] else params)
    {
      var paged := false;
      var i := 0;
      while i < |params|
        invariant 0 <= i <= |params|
        invariant paged <==> exists j :: 0 <= j < i && params[j].0 in {"page", "perPage"}
      {
        if params[i].0 == "page" || params[i].0 == "perPage" {
          paged := true;
        }
        i := i + 1;
      }
      if useCache && enableCache && !paged {
        var cached := ListFromCache(params);
        if cached.Some? {
          return FromCache(cached.value);
        }
        return CallApi(params + [("page", "-1")]);
      }
      r := CallApi(params);
    }

    /** get: a hit is the row readers see; None means ask the API, whose answer
        is never written back. */
    method Get(id: int, useCache: bool) returns (r: Option<Item>)
      requires Valid()
      ensures r == if useCache && enableCache && watchStarted && id in cache then Some(cache[id]) else None
      ensures r.Some? ==> r.value.id == id
    {
      if useCache && enableCache && watchStarted && id in cache {
        return Some(cache[id]);
      }
      r := None;
    }
  }

  /** As many distinct rows as the cache has are all of its rows. */
  lemma AllRowsListed(items: seq<Item>, cache: Cache)
    requires ListsRows(items, cache) && Keyed(cache)
    ensures forall item: Item :: item in items <==> item.id in cache && cache[item.id] == item
  {
    var ids := set i | 0 <= i < |items| :: items[i].id;
    IdsCount(items);
    assert ids <= cache.Keys;
    assert |cache.Keys| == |cache|;
    SubsetOfSameSize(ids, cache.Keys);
    forall item: Item | item.id in cache && cache[item.id] == item
      ensures item in items
    {
      assert item.id in ids;
      var i :| 0 <= i < |items| && items[i].id == item.id;
    }
  }

  lemma {:induction false} IdsCount(items: seq<Item>)
    requires forall i, j :: 0 <= i < j < |items| ==> items[i].id != items[j].id
    ensures |set i | 0 <= i < |items| :: items[i].id| == |items|
  {
    if items != [] {
      var front := items[..|items| - 1];
      IdsCount(front);
      var f := set i | 0 <= i < |front| :: front[i].id;
      var s := set i | 0 <= i < |items| :: items[i].id;
      forall id | id in s
        ensures id in f + {items[|front|].id}
      {
        var i :| 0 <= i < |items| && items[i].id == id;
        if i < |front| {
          assert front[i].id == id;
        }
      }
      forall id | id in f
        ensures id in s
      {
        var i :| 0 <= i < |front| && front[i].id == id;
        assert items[i].id == id;
      }
      assert s == f + {items[|front|].id};
    }
  }

  lemma SubsetOfSameSize(a: set<int>, b: set<int>)
    requires a <= b && |a| == |b|
    ensures a == b
  {
    assert |b - a| == |b| - |a|;
  }
}
