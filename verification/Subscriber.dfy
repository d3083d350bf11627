// gpustack/server/bus.py: a bus subscriber with a bounded queue in which updates
// of one id are coalesced. Enqueueing runs in tasks of its own; the pieces
// between two suspension points are the steps here.
module Subscriber {
  import opened Text

  datatype Type = Created | Updated | Deleted

  datatype Event = Event(kind: Type, id: Option<int>, data: int)

  datatype Bucket = Received | Filtered | Coalesced | Enqueued | Backpressured

  type Counts = map<(Bucket, Type), nat>

  function At(c: Counts, b: Bucket, t: Type): nat {
    if (b, t) in c then c[(b, t)] else 0
  }

  /** _bump */
  function Bump(c: Counts, b: Bucket, t: Type): Counts {
    c[(b, t) := At(c, b, t) + 1]
  }

  /** An update that coalesces. */
  predicate Keyed(e: Event) {
    e.kind == Updated && e.id.Some?
  }

  /** The subscriber: maxsize 0 is unbounded, waiting are the events of tasks
      parked in put. The last four fields are history: what was accepted and what
      was delivered last of each id, the ids whose last update a cancelled task
      took with it, and the events of the cancelled tasks. */
  datatype State = State(queue: seq<Event>, latest: map<int, Event>, waiting: seq<Event>, counts: Counts, closed: bool,
                         newest: map<int, Event>, seen: map<int, Event>, lost: set<int>, cancelled: seq<Event>)

  const FRESH := State([], map[], [], map[], false, map[], map[], {}, [])

  datatype Config = Config(types: Option<set<Type>>, maxsize: nat)

  datatype Step = Publish(e: Event) | Resume(i: nat) | Cancel(i: nat) | Receive | Close

  predicate Full(cfg: Config, queue: seq<Event>) {
    cfg.maxsize > 0 && |queue| >= cfg.maxsize
  }

  /** _put_with_backpressure up to its first suspension. */
  function Put(cfg: Config, s: State, e: Event): State {
    if Full(cfg, s.queue)
    then s.(counts := Bump(s.counts, Backpressured, e.kind), waiting := s.waiting + [e])
    else s.(queue := s.queue + [e], counts := Bump(s.counts, Enqueued, e.kind))
  }

  /** enqueue up to its first suspension. */
  function Enqueue(cfg: Config, s: State, e: Event): State {
    if s.closed then s
    else
      var r := s.(counts := Bump(s.counts, Received, e.kind));
      if cfg.types.Some? && e.kind !in cfg.types.value then r.(counts := Bump(r.counts, Filtered, e.kind))
      else if !Keyed(e) then Put(cfg, r, e)
      else
        var id := e.id.value;
        var n := r.(latest := r.latest[id := e], newest := r.newest[id := e], lost := r.lost - {id});
        if id in s.latest then n.(counts := Bump(n.counts, Coalesced, e.kind)) else Put(cfg, n, e)
  }

  function Without<T>(ts: seq<T>, i: nat): seq<T>
    requires i < |ts|
  {
    ts[..i] + ts[i + 1..]
  }

  /** A parked task gets its place, or is cancelled and rolls its entry back. */
  function Resumed(s: State, i: nat): State
    requires i < |s.waiting|
  {
    s.(queue := s.queue + [s.waiting[i]], waiting := Without(s.waiting, i),
       counts := Bump(s.counts, Enqueued, s.waiting[i].kind))
  }

  function Dropped(s: State, i: nat): State
    requires i < |s.waiting|
  {
    var e := s.waiting[i];
    var r := s.(waiting := Without(s.waiting, i), cancelled := s.cancelled + [e]);
    if Keyed(e) then r.(latest := r.latest - {e.id.value}, lost := r.lost + {e.id.value}) else r
  }

  /** What receive hands over for the event at the front. */
  function Delivered(s: State): Event
    requires s.queue != []
  {
    var e := s.queue[0];
    if Keyed(e) && e.id.value in s.latest then s.latest[e.id.value] else e
  }

  function AfterReceive(s: State): State
    requires s.queue != []
  {
    var e := s.queue[0];
    var r := s.(queue := s.queue[1..]);
    if Keyed(e) then r.(latest := r.latest - {e.id.value}, seen := r.seen[e.id.value := Delivered(s)]) else r
  }

  function Next(cfg: Config, s: State, step: Step): State {
    match step
    case Publish(e) => Enqueue(cfg, s, e)
    case Resume(i) => if i < |s.waiting| && !Full(cfg, s.queue) then Resumed(s, i) else s
    case Cancel(i) => if i < |s.waiting| then Dropped(s, i) else s
    case Receive => if s.queue != [] && !s.closed then AfterReceive(s) else s
    case Close => s.(closed := true, queue := [])
  }

  function Run(cfg: Config, steps: seq<Step>): State {
    if steps == [] then FRESH else Next(cfg, Run(cfg, steps[..|steps| - 1]), steps[|steps| - 1])
  }

  // ---------------------------------------------------------------- counting

  /** Which events are counted. */
  datatype Match = OfId(id: int) | OfType(t: Type)

  predicate Fits(m: Match, e: Event) {
    match m
    case OfId(id) => Keyed(e) && e.id == Some(id)
    case OfType(t) => e.kind == t
  }

  function Count(ts: seq<Event>, m: Match): nat {
    if ts == [] then 0 else Count(ts[..|ts| - 1], m) + if Fits(m, ts[|ts| - 1]) then 1 else 0
  }

  lemma {:induction false} CountPlus(a: seq<Event>, b: seq<Event>, m: Match)
    ensures Count(a + b, m) == Count(a, m) + Count(b, m)
  {
    if b == [] {
      assert a + b == a;
    } else {
      assert (a + b)[..|a + b| - 1] == a + b[..|b| - 1];
      CountPlus(a, b[..|b| - 1], m);
    }
  }

  lemma CountOne(e: Event, m: Match)
    ensures Count([e], m) == if Fits(m, e) then 1 else 0
  {
    assert [e][..0] == [];
  }

  lemma CountPush(ts: seq<Event>, e: Event, m: Match)
    ensures Count(ts + [e], m) == Count(ts, m) + if Fits(m, e) then 1 else 0
  {
    CountPlus(ts, [e], m);
    CountOne(e, m);
  }

  lemma CountWithout(ts: seq<Event>, i: nat, m: Match)
    requires i < |ts|
    ensures Count(ts, m) == Count(Without(ts, i), m) + if Fits(m, ts[i]) then 1 else 0
  {
    assert ts == ts[..i] + ([ts[i]] + ts[i + 1..]);
    CountPlus(ts[..i], [ts[i]] + ts[i + 1..], m);
    CountPlus([ts[i]], ts[i + 1..], m);
    CountOne(ts[i], m);
    CountPlus(ts[..i], ts[i + 1..], m);
  }

  /** The tokens that stand for an id, queued or parked. */
  function Tokens(s: State, id: int): nat {
    Count(s.queue, OfId(id)) + Count(s.waiting, OfId(id))
  }

  // ------------------------------------------------------------ the invariants

  /** An id has an entry exactly if one token, and only one, is under way for
      it, and the entry is the newest update. */
  ghost predicate OneToken(s: State, id: int) {
    && Tokens(s, id) == (if id in s.latest then 1 else 0)
    && (id in s.latest ==> id in s.newest && s.latest[id] == s.newest[id])
  }

  /** The newest update of an id is pending, delivered, or went with a cancelled
      task. */
  predicate Accounted(s: State, id: int) {
    id in s.newest ==> id in s.latest || id in s.lost || (id in s.seen && s.seen[id] == s.newest[id])
  }

  lemma EnqueueKeeps(cfg: Config, s: State, e: Event, id: int)
    requires OneToken(s, id) && Accounted(s, id)
    ensures OneToken(Enqueue(cfg, s, e), id) && Accounted(Enqueue(cfg, s, e), id)
  {
    hide Count, Bump, At, Full;
    CountPush(s.queue, e, OfId(id));
    CountPush(s.waiting, e, OfId(id));
  }

  lemma ResumeKeeps(s: State, i: nat, id: int)
    requires i < |s.waiting| && OneToken(s, id) && Accounted(s, id)
    ensures OneToken(Resumed(s, i), id) && Accounted(Resumed(s, i), id)
  {
    hide Count, Bump, At, Full;
    CountPush(s.queue, s.waiting[i], OfId(id));
    CountWithout(s.waiting, i, OfId(id));
  }

  lemma DropKeeps(s: State, i: nat, id: int)
    requires i < |s.waiting| && OneToken(s, id) && Accounted(s, id)
    ensures OneToken(Dropped(s, i), id) && Accounted(Dropped(s, i), id)
  {
    hide Count, Bump, At, Full;
    CountWithout(s.waiting, i, OfId(id));
  }

  lemma ReceiveKeeps(s: State, id: int)
    requires s.queue != [] && OneToken(s, id) && Accounted(s, id)
    ensures OneToken(AfterReceive(s), id) && Accounted(AfterReceive(s), id)
  {
    hide Count, Bump, At, Full;
    CountWithout(s.queue, 0, OfId(id));
    assert Without(s.queue, 0) == s.queue[1..];
  }

  lemma FreshOneToken(id: int)
    ensures OneToken(FRESH, id) && Accounted(FRESH, id)
  {
  }

  /** In every reachable state of an open subscriber, for every id. */
  lemma {:induction false} RunInv(cfg: Config, steps: seq<Step>, id: int)
    ensures var s := Run(cfg, steps); s.closed || (OneToken(s, id) && Accounted(s, id))
  {
    if steps == [] {
      FreshOneToken(id);
    } else {
      hide OneToken, Accounted, Enqueue, Resumed, Dropped, AfterReceive;
      var n := |steps| - 1;
      var s := Run(cfg, steps[..n]);
      RunInv(cfg, steps[..n], id);
      if !s.closed {
        match steps[n]
        case Publish(e) => EnqueueKeeps(cfg, s, e, id);
        case Resume(i) => if i < |s.waiting| { ResumeKeeps(s, i, id); }
        case Cancel(i) => if i < |s.waiting| { DropKeeps(s, i, id); }
        case Receive => if s.queue != [] { ReceiveKeeps(s, id); }
        case Close =>
      }
    }
  }

  /** A consumer that has drained everything has seen the newest update of every
      id, unless a cancelled task took it. */
  lemma DrainedIsCurrent(cfg: Config, steps: seq<Step>, id: int)
    requires var s := Run(cfg, steps); !s.closed && s.queue == [] && s.waiting == [] && id in s.newest && id !in s.lost
    ensures var s := Run(cfg, steps); id in s.seen && s.seen[id] == s.newest[id]
  {
    RunInv(cfg, steps, id);
  }

  predicate NoCancel(steps: seq<Step>) {
    forall i :: 0 <= i < |steps| ==> !steps[i].Cancel?
  }

  lemma StepLoses(cfg: Config, s: State, step: Step)
    requires s.lost == {} && !step.Cancel?
    ensures Next(cfg, s, step).lost == {}
  {
    hide Bump, Full;
  }

  /** Without cancellations nothing is lost. */
  lemma {:induction false} NothingLost(cfg: Config, steps: seq<Step>)
    requires NoCancel(steps)
    ensures Run(cfg, steps).lost == {}
  {
    hide Next;
    if steps != [] {
      NothingLost(cfg, steps[..|steps| - 1]);
      StepLoses(cfg, Run(cfg, steps[..|steps| - 1]), steps[|steps| - 1]);
    }
  }

  lemma StepBounded(cfg: Config, s: State, step: Step)
    requires cfg.maxsize > 0 && |s.queue| <= cfg.maxsize
    ensures |Next(cfg, s, step).queue| <= cfg.maxsize
  {
    hide Bump;
  }

  /** An event is parked only on meeting maxsize events in the queue, never without
      a bound; and a parked one gets in only when there is room. */
  lemma ParksOnlyIfFull(cfg: Config, s: State, step: Step)
    ensures |Next(cfg, s, step).waiting| > |s.waiting| ==> 0 < cfg.maxsize <= |s.queue|
    ensures step.Resume? && |Next(cfg, s, step).queue| > |s.queue| ==> cfg.maxsize == 0 || |s.queue| < cfg.maxsize
    ensures step.Resume? && step.i < |s.waiting| && (cfg.maxsize == 0 || |s.queue| < cfg.maxsize) ==>
              Next(cfg, s, step).queue == s.queue + [s.waiting[step.i]]
  {
    hide Bump;
    match step
    case Publish(_) => hide Keyed;
    case _ =>
  }

  /** Without a bound nothing is ever parked. */
  lemma {:induction false} UnboundedNeverParks(cfg: Config, steps: seq<Step>)
    requires cfg.maxsize == 0
    ensures Run(cfg, steps).waiting == []
  {
    if steps != [] {
      var n := |steps| - 1;
      UnboundedNeverParks(cfg, steps[..n]);
      ParksOnlyIfFull(cfg, Run(cfg, steps[..n]), steps[n]);
      hide Next;
    }
  }

  /** The queue never exceeds its bound. */
  lemma {:induction false} QueueBounded(cfg: Config, steps: seq<Step>)
    requires cfg.maxsize > 0
    ensures |Run(cfg, steps).queue| <= cfg.maxsize
  {
    hide Next;
    if steps != [] {
      QueueBounded(cfg, steps[..|steps| - 1]);
      StepBounded(cfg, Run(cfg, steps[..|steps| - 1]), steps[|steps| - 1]);
    }
  }

  // ------------------------------------------------------------- conservation

  function One(e: Event, t: Type): int {
    if e.kind == t then 1 else 0
  }

  /** Events received of a type that were neither filtered, coalesced nor
      enqueued, nor are parked or were cancelled. */
  function Gap(c: Counts, waiting: seq<Event>, cancelled: seq<Event>, t: Type): int {
    At(c, Received, t) - At(c, Filtered, t) - At(c, Coalesced, t) - At(c, Enqueued, t)
    - Count(waiting, OfType(t)) - Count(cancelled, OfType(t))
  }

  /** All that met a full queue were enqueued in the end, are parked, or were
      cancelled, and every parked or cancelled one is among them. */
  predicate Pressed(c: Counts, waiting: seq<Event>, cancelled: seq<Event>, t: Type) {
    var held := Count(waiting, OfType(t)) + Count(cancelled, OfType(t));
    held <= At(c, Backpressured, t) <= At(c, Enqueued, t) + held
  }

  /** Every event received is accounted for, once. */
  predicate Conserved(s: State, t: Type) {
    && Gap(s.counts, s.waiting, s.cancelled, t) == 0
    && Pressed(s.counts, s.waiting, s.cancelled, t)
  }

  lemma BumpAt(c: Counts, b: Bucket, t: Type, t': Type)
    ensures forall b' :: At(Bump(c, b, t), b', t') == At(c, b', t') + if b == b' && t == t' then 1 else 0
  {
  }

  lemma BumpGap(c: Counts, b: Bucket, e: Event, waiting: seq<Event>, cancelled: seq<Event>, t: Type)
    requires b != Backpressured
    ensures Gap(Bump(c, b, e.kind), waiting, cancelled, t)
            == Gap(c, waiting, cancelled, t) + if b == Received then One(e, t) else -One(e, t)
    ensures Pressed(c, waiting, cancelled, t) ==> Pressed(Bump(c, b, e.kind), waiting, cancelled, t)
  {
    hide Count, At, Bump;
    BumpAt(c, b, e.kind, t);
  }

  lemma ParkGap(c: Counts, e: Event, waiting: seq<Event>, cancelled: seq<Event>, t: Type)
    ensures Gap(Bump(c, Backpressured, e.kind), waiting + [e], cancelled, t)
                == Gap(c, waiting, cancelled, t) - One(e, t)
    ensures Pressed(c, waiting, cancelled, t) ==> Pressed(Bump(c, Backpressured, e.kind), waiting + [e], cancelled, t)
  {
    hide Count, At, Bump;
    BumpAt(c, Backpressured, e.kind, t);
    CountPush(waiting, e, OfType(t));
  }

  lemma EnqueueConserves(cfg: Config, s: State, e: Event, t: Type)
    requires Conserved(s, t)
    ensures Conserved(Enqueue(cfg, s, e), t)
  {
    hide Gap, Pressed, Bump, Full, Keyed;
    var c, w, x := Bump(s.counts, Received, e.kind), s.waiting, s.cancelled;
    BumpGap(s.counts, Received, e, w, x, t);
    BumpGap(c, Filtered, e, w, x, t);
    BumpGap(c, Coalesced, e, w, x, t);
    BumpGap(c, Enqueued, e, w, x, t);
    ParkGap(c, e, w, x, t);
  }

  lemma ResumeConserves(s: State, i: nat, t: Type)
    requires Conserved(s, t) && i < |s.waiting|
    ensures Conserved(Resumed(s, i), t)
  {
    hide Count, At, Bump, Without;
    BumpAt(s.counts, Enqueued, s.waiting[i].kind, t);
    CountWithout(s.waiting, i, OfType(t));
  }

  lemma DropGap(c: Counts, waiting: seq<Event>, i: nat, cancelled: seq<Event>, t: Type)
    requires i < |waiting|
    ensures Gap(c, Without(waiting, i), cancelled + [waiting[i]], t) == Gap(c, waiting, cancelled, t)
    ensures Pressed(c, waiting, cancelled, t) ==> Pressed(c, Without(waiting, i), cancelled + [waiting[i]], t)
  {
    hide Count, At, Without;
    CountWithout(waiting, i, OfType(t));
    CountPush(cancelled, waiting[i], OfType(t));
  }

  lemma DropConserves(s: State, i: nat, t: Type)
    requires Conserved(s, t) && i < |s.waiting|
    ensures Conserved(Dropped(s, i), t)
  {
    hide Gap, Pressed, Without;
    DropGap(s.counts, s.waiting, i, s.cancelled, t);
  }

  lemma StepConserves(cfg: Config, s: State, step: Step, t: Type)
    requires Conserved(s, t)
    ensures Conserved(Next(cfg, s, step), t)
  {
    hide Gap, Pressed, Full, Enqueue, Resumed, Dropped;
    match step
    case Publish(e) => EnqueueConserves(cfg, s, e, t);
    case Resume(i) => if i < |s.waiting| { ResumeConserves(s, i, t); }
    case Cancel(i) => if i < |s.waiting| { DropConserves(s, i, t); }
    case Receive =>
    case Close =>
  }

  lemma {:induction false} RunConserves(cfg: Config, steps: seq<Step>, t: Type)
    ensures Conserved(Run(cfg, steps), t)
  {
    hide Conserved, Next, Count;
    if steps != [] {
      RunConserves(cfg, steps[..|steps| - 1], t);
      StepConserves(cfg, Run(cfg, steps[..|steps| - 1]), steps[|steps| - 1], t);
    } else {
      FreshConserved(t);
    }
  }

  lemma FreshConserved(t: Type)
    ensures Conserved(FRESH, t)
  {
  }

  // ----------------------------------------------------------------- the filter

  /** Events of a type the subscriber asked for, or any if it asked for none in
      particular, are never filtered; of any other type all are. */
  lemma {:induction false} FilteredIs(cfg: Config, steps: seq<Step>, t: Type)
    ensures At(Run(cfg, steps).counts, Filtered, t)
            == match cfg.types
               case None => 0
               case Some(wanted) => if t in wanted then 0 else At(Run(cfg, steps).counts, Received, t)
  {
    if steps != [] {
      FilteredIs(cfg, steps[..|steps| - 1], t);
      StepFilters(cfg, Run(cfg, steps[..|steps| - 1]), steps[|steps| - 1], t);
      hide Next, At;
    }
  }

  /** What enqueueing counts. */
  lemma EnqueueCounts(cfg: Config, s: State, e: Event, t: Type)
    requires !s.closed
    ensures var c, unwanted := Enqueue(cfg, s, e).counts, cfg.types.Some? && e.kind !in cfg.types.value;
            && At(c, Received, t) == At(s.counts, Received, t) + One(e, t)
            && At(c, Filtered, t) == At(s.counts, Filtered, t) + if unwanted then One(e, t) else 0
  {
    hide At, Bump, Full;
    var c := Bump(s.counts, Received, e.kind);
    BumpAt(s.counts, Received, e.kind, t);
    BumpAt(c, Filtered, e.kind, t);
    BumpAt(c, Coalesced, e.kind, t);
    BumpAt(c, Enqueued, e.kind, t);
    BumpAt(c, Backpressured, e.kind, t);
  }

  lemma StepFilters(cfg: Config, s: State, step: Step, t: Type)
    requires At(s.counts, Filtered, t)
             == if cfg.types.Some? && t !in cfg.types.value then At(s.counts, Received, t) else 0
    ensures var c := Next(cfg, s, step).counts;
            At(c, Filtered, t) == if cfg.types.Some? && t !in cfg.types.value then At(c, Received, t) else 0
  {
    hide At, Bump, Full, Without, Enqueue;
    if step.Publish? && !s.closed {
      EnqueueCounts(cfg, s, step.e, t);
    } else if step.Resume? && step.i < |s.waiting| {
      BumpAt(s.counts, Enqueued, s.waiting[step.i].kind, t);
    }
    EnqueueClosed(cfg, s, step);
  }

  lemma EnqueueClosed(cfg: Config, s: State, step: Step)
    ensures step.Publish? && s.closed ==> Next(cfg, s, step) == s
  {
  }

  /** All that a subscriber which asked for some types holds, parks or has pending
      is of those types. */
  ghost predicate OnlyOf(s: State, wanted: set<Type>) {
    && (forall e :: e in s.queue ==> e.kind in wanted)
    && (forall e :: e in s.waiting ==> e.kind in wanted)
    && (forall id :: id in s.latest ==> s.latest[id].kind in wanted)
  }

  lemma EnqueueOnlyOf(cfg: Config, s: State, e: Event)
    requires cfg.types.Some? && OnlyOf(s, cfg.types.value)
    ensures OnlyOf(Enqueue(cfg, s, e), cfg.types.value)
  {
    hide Bump, Full;
  }

  lemma DeliveredOnlyOf(s: State, wanted: set<Type>)
    requires OnlyOf(s, wanted) && s.queue != []
    ensures Delivered(s).kind in wanted && OnlyOf(AfterReceive(s), wanted)
  {
    assert s.queue[0] in s.queue && forall e :: e in s.queue[1..] ==> e in s.queue;
    if Keyed(s.queue[0]) {
      var id := s.queue[0].id.value;
      assert id in s.latest ==> s.latest[id].kind in wanted;
    }
  }

  lemma WithoutOnlyOf(s: State, i: nat, wanted: set<Type>)
    requires OnlyOf(s, wanted) && i < |s.waiting|
    ensures OnlyOf(Resumed(s, i), wanted) && OnlyOf(Dropped(s, i), wanted)
  {
    hide Bump;
    assert s.waiting[i] in s.waiting && forall e :: e in Without(s.waiting, i) ==> e in s.waiting;
    hide Without;
  }

  lemma StepOnlyOf(cfg: Config, s: State, step: Step)
    requires cfg.types.Some? && OnlyOf(s, cfg.types.value)
    ensures OnlyOf(Next(cfg, s, step), cfg.types.value)
    ensures s.queue != [] ==> Delivered(s).kind in cfg.types.value
  {
    if s.queue != [] {
      DeliveredOnlyOf(s, cfg.types.value);
    }
    CloseOnlyOf(s, cfg.types.value);
    hide Full, Enqueue, Delivered, AfterReceive, Resumed, Dropped, OnlyOf;
    match step
    case Publish(e) => EnqueueOnlyOf(cfg, s, e);
    case Resume(i) => if i < |s.waiting| { WithoutOnlyOf(s, i, cfg.types.value); }
    case Cancel(i) => if i < |s.waiting| { WithoutOnlyOf(s, i, cfg.types.value); }
    case _ =>
  }

  lemma CloseOnlyOf(s: State, wanted: set<Type>)
    requires OnlyOf(s, wanted)
    ensures OnlyOf(s.(closed := true, queue := []), wanted)
  {
  }

  lemma {:induction false} OnlyWanted(cfg: Config, steps: seq<Step>)
    requires cfg.types.Some?
    ensures OnlyOf(Run(cfg, steps), cfg.types.value)
  {
    hide Next;
    if steps != [] {
      OnlyWanted(cfg, steps[..|steps| - 1]);
      StepOnlyOf(cfg, Run(cfg, steps[..|steps| - 1]), steps[|steps| - 1]);
      hide OnlyOf;
    }
  }

  // ----------------------------------------------------------------- the object

  /** The subscriber object; putters are the parked tasks of its queue. */
  class Queue {
    const cfg: Config
    var queue: seq<Event>
    var latestByKey: map<int, Event>
    var eventCounts: Counts
    var closed: bool
    var putters: seq<Event>
    ghost var newest: map<int, Event>
    ghost var seen: map<int, Event>
    ghost var lost: set<int>
    ghost var cancelled: seq<Event>

    constructor (cfg: Config)
      ensures this.cfg == cfg && View() == FRESH
    {
      this.cfg := cfg;
      queue, latestByKey, eventCounts, closed, putters := [], map[], map[], false, [];
      newest, seen, lost, cancelled := map[], map[], {}, [];
    }

    ghost function View(): State
      reads this
    {
      State(queue, latestByKey, putters, eventCounts, closed, newest, seen, lost, cancelled)
    }

    method CountEvent(b: Bucket, t: Type)
      modifies this`eventCounts
      ensures eventCounts == Bump(old(eventCounts), b, t)
    {
      eventCounts := eventCounts[(b, t) := (if (b, t) in eventCounts then eventCounts[(b, t)] else 0) + 1];
    }

    method PutWithBackpressure(e: Event)
      modifies this
      ensures View() == Put(cfg, old(View()), e)
    {
      if cfg.maxsize > 0 && |queue| >= cfg.maxsize {
        CountEvent(Backpressured, e.kind);
        putters := putters + [e];
      } else {
        queue := queue + [e];
        CountEvent(Enqueued, e.kind);
      }
    }

    method Add(e: Event)
      modifies this
      ensures View() == Next(cfg, old(View()), Publish(e))
    {
      if closed {
        return;
      }
      CountEvent(Received, e.kind);
      if cfg.types.Some? && e.kind !in cfg.types.value {
        CountEvent(Filtered, e.kind);
        return;
      }
      if e.kind == Updated && e.id.Some? {
        var id := e.id.value;
        var known := id in latestByKey;
        latestByKey := latestByKey[id := e];
        newest, lost := newest[id := e], lost - {id};
        if known {
          CountEvent(Coalesced, e.kind);
          return;
        }
      }
      PutWithBackpressure(e);
    }

    /** A parked put goes on once there is room. */
    method ResumePut(i: nat)
      requires i < |putters| && !Full(cfg, queue)
      modifies this
      ensures View() == Next(cfg, old(View()), Resume(i))
    {
      var e := putters[i];
      putters := putters[..i] + putters[i + 1..];
      queue := queue + [e];
      CountEvent(Enqueued, e.kind);
    }

    /** A parked put is cancelled; the handler rolls the entry back. */
    method CancelPut(i: nat)
      requires i < |putters|
      modifies this
      ensures View() == Next(cfg, old(View()), Cancel(i))
    {
      var e := putters[i];
      putters := putters[..i] + putters[i + 1..];
      cancelled := cancelled + [e];
      if e.kind == Updated && e.id.Some? {
        latestByKey := latestByKey - {e.id.value};
        lost := lost + {e.id.value};
      }
    }

    /** receive, with an event in the queue. */
    method Take() returns (r: Event)
      requires queue != [] && !closed
      modifies this
      ensures r == Delivered(old(View())) && View() == Next(cfg, old(View()), Receive)
    {
      r := queue[0];
      queue := queue[1..];
      if r.kind == Updated && r.id.Some? {
        var id := r.id.value;
        if id in latestByKey {
          r := latestByKey[id];
          latestByKey := latestByKey - {id};
        } else {
          assert latestByKey - {id} == latestByKey;
        }
        seen := seen[id := r];
      }
    }
  }
}
