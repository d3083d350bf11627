// From a commit on the server to a row in a client's cache: the changes go
// through one bus subscriber, with its coalescing and its parked tasks
// (gpustack/server/bus.py), over the watch stream, which replays the table first
// (gpustack/mixins/active_record.py), into the cache
// (gpustack/client/generated_model_instance_client.py).
module Delivery {
  import opened QueueOrder
  import opened Text
  import B = Subscriber
  import W = WatchCache

  /** The rows behind the events' data. */
  type Decode = int -> map<string, string>

  function ItemOf(decode: Decode, e: B.Event): W.Item
    requires e.id.Some?
  {
    W.Item(e.id.value, decode(e.data))
  }

  /** The change an event tells of. */
  function ChangeOf(decode: Decode, e: B.Event): W.Change
    requires e.id.Some?
  {
    if e.kind == B.Deleted then W.Erase(e.id.value) else W.Save(ItemOf(decode, e))
  }

  /** The event as the client reads it. */
  function Told(decode: Decode, e: B.Event): W.Event {
    var kind := match e.kind case Created => W.CREATED case Updated => W.UPDATED case Deleted => W.DELETED;
    W.Event(kind, e.id, if e.id.Some? then W.Full(ItemOf(decode, e)) else W.Invalid)
  }

  function ToldAll(decode: Decode, es: seq<B.Event>): (r: seq<W.Event>)
    ensures |r| == |es|
  {
    seq(|es|, i requires 0 <= i < |es| => Told(decode, es[i]))
  }

  /** The server's table after the commits of a run, each of which publishes. */
  function TableAfter(decode: Decode, db: W.Cache, steps: seq<B.Step>): W.Cache {
    if steps == [] then db
    else
      var before := TableAfter(decode, db, steps[..|steps| - 1]);
      match steps[|steps| - 1]
      case Publish(e) => if e.id.Some? then W.Commit(before, ChangeOf(decode, e)) else before
      case _ => before
  }

  // ----------------------------------------------------------- sensible commits

  /** An event about a row comes after its creation, and nothing after its
      deletion: ids are not used twice. */
  predicate InOrder(db: W.Cache, table: W.Cache, steps: seq<B.Step>, e: B.Event) {
    && e.id.Some?
    && var id := e.id.value;
       if e.kind == B.Created
       then id !in table && id !in db && forall i :: 0 <= i < |steps| && steps[i].Publish? ==> steps[i].e.id != e.id
       else id in table
  }

  /** The commits make sense; the subscriber filters nothing and stays open. */
  ghost predicate Sensible(cfg: B.Config, decode: Decode, db: W.Cache, steps: seq<B.Step>) {
    && cfg.types == None
    && forall i :: 0 <= i < |steps| ==>
         && !steps[i].Close?
         && (steps[i].Publish? ==> InOrder(db, TableAfter(decode, db, steps[..i]), steps[..i], steps[i].e))
  }

  lemma SensiblePlain(cfg: B.Config, decode: Decode, db: W.Cache, steps: seq<B.Step>)
    requires Sensible(cfg, decode, db, steps)
    ensures Plain(cfg, steps)
  {
    forall i | 0 <= i < |steps| && steps[i].Publish?
      ensures steps[i].e.id.Some?
    {
      assert InOrder(db, TableAfter(decode, db, steps[..i]), steps[..i], steps[i].e);
    }
  }

  lemma SensibleFront(cfg: B.Config, decode: Decode, db: W.Cache, steps: seq<B.Step>, m: nat)
    requires Sensible(cfg, decode, db, steps) && m <= |steps|
    ensures Sensible(cfg, decode, db, steps[..m])
  {
    forall i | 0 <= i < m ensures steps[..m][..i] == steps[..i] {
    }
  }

  function Value(c: W.Cache, id: int): Option<W.Item> {
    if id in c then Some(c[id]) else None
  }

  function Effect(decode: Decode, e: B.Event): Option<W.Item>
    requires e.id.Some?
  {
    if e.kind == B.Deleted then None else Some(ItemOf(decode, e))
  }

  /** The last event published about a row decides what the table holds of it. */
  lemma {:induction false} TableLast(decode: Decode, db: W.Cache, steps: seq<B.Step>, id: int)
    ensures Value(TableAfter(decode, db, steps), id)
            == match LastFor(Published(steps), id)
               case None => Value(db, id)
               case Some(x) => if x.id.Some? then Effect(decode, x) else None
  {
    if steps != [] {
      TableLast(decode, db, steps[..|steps| - 1], id);
      PublishedPush(steps, id);
    }
  }

  /** Nothing is published about a row after its deletion. */
  lemma {:induction false} DeleteIsLast(cfg: B.Config, decode: Decode, db: W.Cache, steps: seq<B.Step>,
                                        y: B.Event, id: int)
    requires Sensible(cfg, decode, db, steps)
    requires y in Published(steps) && y.kind == B.Deleted && y.id == Some(id)
    ensures LastFor(Published(steps), id) == Some(y)
  {
    var n := |steps| - 1;
    PublishedPush(steps, id);
    if y in Published(steps[..n]) {
      SensibleFront(cfg, decode, db, steps, n);
      DeleteIsLast(cfg, decode, db, steps[..n], y, id);
      TableLast(decode, db, steps[..n], id);
      WasPublished(steps[..n], y);
    }
  }

  /** A creation or a deletion of a row is published once. */
  lemma {:induction false} OnceTold(cfg: B.Config, decode: Decode, db: W.Cache, steps: seq<B.Step>,
                                    y: B.Event, z: B.Event)
    requires Sensible(cfg, decode, db, steps) && y in Published(steps) && z in Published(steps)
    requires y.id.Some? && y.id == z.id && y.kind == z.kind != B.Updated
    ensures y == z && multiset(Published(steps))[y] == 1
  {
    var n := |steps| - 1;
    SensibleFront(cfg, decode, db, steps, n);
    var before := Published(steps[..n]);
    if steps[n].Publish? && steps[n].e.id == y.id && steps[n].e.kind == y.kind {
      NotAgain(cfg, decode, db, steps, y);
      NotAgain(cfg, decode, db, steps, z);
    } else {
      OnceTold(cfg, decode, db, steps[..n], y, z);
    }
  }

  lemma NotAgain(cfg: B.Config, decode: Decode, db: W.Cache, steps: seq<B.Step>, y: B.Event)
    requires steps != [] && Sensible(cfg, decode, db, steps)
    requires var e := steps[|steps| - 1]; e.Publish? && y.id.Some? && e.e.id == y.id && e.e.kind == y.kind != B.Updated
    ensures y !in Published(steps[..|steps| - 1])
  {
    var n := |steps| - 1;
    if y in Published(steps[..n]) {
      SensibleFront(cfg, decode, db, steps, n);
      WasPublished(steps[..n], y);
      if y.kind == B.Deleted {
        DeleteIsLast(cfg, decode, db, steps[..n], y, y.id.value);
        TableLast(decode, db, steps[..n], y.id.value);
      }
    }
  }

  /** And nothing is published about it before its creation. */
  lemma CreatedIsFirst(cfg: B.Config, decode: Decode, db: W.Cache, steps: seq<B.Step>, id: int, y: B.Event)
    requires Sensible(cfg, decode, db, steps) && y in Published(steps) && y.id == Some(id)
    requires LastFor(Published(steps), id).Some? && LastFor(Published(steps), id).value.kind == B.Created
    ensures y == LastFor(Published(steps), id).value
  {
    var n := |steps| - 1;
    PublishedPush(steps, id);
    WasPublished(steps[..n], y);
    if !(steps[n].Publish? && steps[n].e.id == Some(id)) {
      SensibleFront(cfg, decode, db, steps, n);
      CreatedIsFirst(cfg, decode, db, steps[..n], id, y);
    }
  }

  // --------------------------------------------------------- when a row arrives

  /** A row has no two tokens of one kind, one queued and one parked. */
  lemma NotBoth(cfg: B.Config, decode: Decode, db: W.Cache, steps: seq<B.Step>, x: B.Event, y: B.Event)
    requires Sensible(cfg, decode, db, steps)
    requires x in B.Run(cfg, steps).queue && y in B.Run(cfg, steps).waiting && x.id.Some? && x.id == y.id
    ensures x.kind != y.kind
  {
    SensiblePlain(cfg, decode, db, steps);
    HandedInOrder(cfg, steps);
    if x.kind == y.kind == B.Updated {
      NotBothUpdates(cfg, steps, x, y);
    } else if x.kind == y.kind {
      QueuedHasEntered(cfg, steps, x);
      EnteredWasPublished(cfg, steps);
      hide B.Run, Entered, Sensible, Published;
      Occurs(Entered(cfg, steps), B.Run(cfg, steps).waiting, Published(steps), x, y);
      OnceTold(cfg, decode, db, steps, x, y);
    }
  }

  /** Once all is drained, what came out last of a row is what was published last
      exactly if the row is in line, unless a cancelled task took its update. */
  lemma LastInDecides(cfg: B.Config, decode: Decode, db: W.Cache, steps: seq<B.Step>, id: int)
    requires Sensible(cfg, decode, db, steps) && Drained(cfg, steps) && Spared(cfg, steps, id)
    ensures LastFor(Handed(cfg, steps), id) == LastFor(Published(steps), id) <==> InLine(cfg, steps, id)
  {
    SensiblePlain(cfg, decode, db, steps);
    DrainedLast(cfg, steps, id);
    if InLine(cfg, steps, id) && LastFor(Published(steps), id).Some? {
      var x, i, h := LastFor(Published(steps), id).value, LastFor(Entered(cfg, steps), id).value,
                     LastFor(Handed(cfg, steps), id).value;
      if x.kind == B.Updated {
        assert B.Run(cfg, steps).queue + B.Run(cfg, steps).waiting == [];
        LastForNothing(id);
        LastForIs(Published(steps), id);
        hide LastFor, B.Run, Published, Handed, Drained, Sensible;
        NothingToCome(cfg, steps, id);
      } else {
        hide B.Run, LastFor, Handed, Drained;
        LastForIs(Entered(cfg, steps), id);
        LastForIs(Published(steps), id);
        EnteredIsPublished(cfg, steps, i);
        OnceTold(cfg, decode, db, steps, i, x);
      }
    }
  }

  /** What enters behind a token of the last kind is of another kind. */
  lemma FollowerDiffers(cfg: B.Config, decode: Decode, db: W.Cache, steps: seq<B.Step>, p: nat, id: int, x: B.Event)
    requires Sensible(cfg, decode, db, steps) && p <= |steps| && Quiet(steps, p, id)
    requires TokenIn(QueuedAt(cfg, steps, p), id, x.kind) && !NoneFollows(cfg, steps, p, |steps|, id)
    ensures LastFor(Entered(cfg, steps), id).Some? && LastFor(Entered(cfg, steps), id).value.kind != x.kind
  {
    SensiblePlain(cfg, decode, db, steps);
    SensibleFront(cfg, decode, db, steps, p);
    assert steps[..|steps|] == steps;
    var i: nat :| p <= i < |steps| && EntersAt(cfg, steps, i).Some? && EntersAt(cfg, steps, i).value.id == Some(id);
    SomethingEntered(cfg, steps, i, |steps|, id);
    var j := LastEnters(cfg, steps, |steps|, id);
    hide B.Run, Entered, EntersAt, LastFor, Sensible;
    assert i <= j;
    var z := EntersAt(cfg, steps, j).value;
    LastForIs(Entered(cfg, steps), id);
    ParkedStep(cfg, steps, j, id);
    ParkedBefore(cfg, steps, p, j, id, z);
    var e :| e in QueuedAt(cfg, steps, p) && e.id == Some(id) && e.kind == x.kind;
    NotBoth(cfg, decode, db, steps[..p], e, z);
  }

  /** When a row arrives. At any moment p after the last event x about the row was
      published at which x's token is in the queue: if no task of the row is
      cancelled from then on, then x is what comes out last of the row exactly if
      at that moment nothing of the row is parked or queued behind the token. */
  lemma RowArrivesIff(cfg: B.Config, decode: Decode, db: W.Cache, steps: seq<B.Step>, p: nat, id: int, x: B.Event)
    requires Sensible(cfg, decode, db, steps) && Drained(cfg, steps) && p <= |steps|
    requires LastFor(Published(steps), id) == Some(x) && Quiet(steps, p, id)
    requires TokenIn(QueuedAt(cfg, steps, p), id, x.kind) && NoneDropped(cfg, steps, p, id)
    ensures LastFor(Handed(cfg, steps), id) == Some(x)
            <==> Foremost(QueuedAt(cfg, steps, p), ParkedAt(cfg, steps, p), id, x.kind)
  {
    SensiblePlain(cfg, decode, db, steps);
    hide B.Run, Entered, LastFor, Sensible, Handed, Drained, TokenIn, QueuedAt, Quiet;
    ArrivesIffKind(cfg, decode, db, steps, p, id, x);
    if LastFor(ParkedAt(cfg, steps, p), id) == None {
      NothingFollows(cfg, steps, p, id, x.kind);
    } else {
      ParkedFollows(cfg, steps, p, id);
      FollowerDiffers(cfg, decode, db, steps, p, id, x);
    }
  }

  lemma ArrivesIffKind(cfg: B.Config, decode: Decode, db: W.Cache, steps: seq<B.Step>, p: nat, id: int, x: B.Event)
    requires Sensible(cfg, decode, db, steps) && Drained(cfg, steps) && p <= |steps|
    requires LastFor(Published(steps), id) == Some(x)
    requires TokenIn(QueuedAt(cfg, steps, p), id, x.kind) && NoneDropped(cfg, steps, p, id)
    ensures LastFor(Handed(cfg, steps), id) == Some(x)
            <==> LastFor(Entered(cfg, steps), id).Some? && LastFor(Entered(cfg, steps), id).value.kind == x.kind
  {
    SensiblePlain(cfg, decode, db, steps);
    if x.kind == B.Updated {
      TokenKeepsUpdate(cfg, steps, p, id);
      LastInDecides(cfg, decode, db, steps, id);
    } else {
      DrainedLast(cfg, steps, id);
      LastForIs(Entered(cfg, steps), id);
      LastForIs(Published(steps), id);
      hide B.Run, LastFor, Handed, Drained;
      var i := LastFor(Entered(cfg, steps), id);
      if i.Some? && i.value.kind == x.kind {
        EnteredIsPublished(cfg, steps, i.value);
        OnceTold(cfg, decode, db, steps, i.value, x);
      }
    }
  }

  // ------------------------------------------------------------------- a delete

  lemma ToldPush(decode: Decode, es: seq<B.Event>)
    requires Named(es) && es != []
    ensures var n := |es| - 1;
            Named(es[..n]) && ToldAll(decode, es)[..n] == ToldAll(decode, es[..n])
            && ToldAll(decode, es)[n] == Told(decode, es[n])
  {
  }

  /** The last event of a row decides what a cache holds of it. */
  lemma {:induction false} FoldLast(decode: Decode, c: W.Cache, es: seq<B.Event>, id: int)
    requires Named(es)
    ensures Value(W.Fold(c, ToldAll(decode, es)), id)
            == match LastFor(es, id) case None => Value(c, id)
               case Some(e) => if e.id.Some? then Effect(decode, e) else None
    decreases |es|
  {
    LastForIs(es, id);
    if es != [] {
      ToldPush(decode, es);
      FoldLast(decode, c, es[..|es| - 1], id);
    }
  }

  /** A delete that has entered the queue was published, and nothing about its row
      is published afterwards. */
  lemma QuietAfterDelete(cfg: B.Config, decode: Decode, db: W.Cache, steps: seq<B.Step>, p: nat, id: int, x: B.Event)
    requires Sensible(cfg, decode, db, steps) && p <= |steps|
    requires x in Published(steps[..p]) && x.kind == B.Deleted && x.id == Some(id)
    ensures Quiet(steps, p, id)
  {
    forall i | p <= i < |steps| && steps[i].Publish?
      ensures steps[i].e.id != Some(id)
    {
      SensibleFront(cfg, decode, db, steps, i);
      var front := steps[..i];
      WasPublished(steps[..p], x);
      var h :| 0 <= h < p && steps[..p][h].Publish? && steps[..p][h].e == x;
      assert front[h].Publish? && front[h].e == x;
      WasPublished(front, x);
      DeleteIsLast(cfg, decode, db, front, x, id);
      TableLast(decode, db, front, id);
      assert InOrder(db, TableAfter(decode, db, front), front, steps[i].e);
    }
  }

  /** A delete, from the moment j at which it enters the queue, whether published
      straight into it or parked before. If no task of the row is cancelled from
      then on, then, once all is drained, the row is gone from a client's cache,
      whatever that held before, exactly if no other event of the row is parked at
      that moment. Otherwise the cache keeps a row that the server deleted. */
  lemma DeleteArrivesIff(cfg: B.Config, decode: Decode, db: W.Cache, steps: seq<B.Step>, j: nat, id: int,
                         x: B.Event, c: W.Cache)
    requires Sensible(cfg, decode, db, steps) && Drained(cfg, steps) && j < |steps|
    requires EntersAt(cfg, steps, j) == Some(x) && x.kind == B.Deleted && x.id == Some(id)
    requires NoneDropped(cfg, steps, j + 1, id)
    ensures id !in TableAfter(decode, db, steps)
    ensures id !in W.Fold(c, ToldAll(decode, Handed(cfg, steps))) <==> LastFor(ParkedAt(cfg, steps, j + 1), id) == None
  {
    DeleteIsIn(cfg, decode, db, steps, j, id, x);
    SensiblePlain(cfg, decode, db, steps);
    RunNamed(cfg, steps);
    hide B.Run, LastFor, EntersAt, Handed, Sensible, Drained, QueuedAt, ParkedAt;
    TableLast(decode, db, steps, id);
    RowArrivesIff(cfg, decode, db, steps, j + 1, id, x);
    FoldLast(decode, c, Handed(cfg, steps), id);
    HandedDelete(cfg, decode, db, steps, id, x);
    EnteredComesOut(cfg, steps, j, id);
  }

  lemma DeleteIsIn(cfg: B.Config, decode: Decode, db: W.Cache, steps: seq<B.Step>, j: nat, id: int, x: B.Event)
    requires Sensible(cfg, decode, db, steps) && j < |steps|
    requires EntersAt(cfg, steps, j) == Some(x) && x.kind == B.Deleted && x.id == Some(id)
    ensures Quiet(steps, j + 1, id) && LastFor(Published(steps), id) == Some(x)
    ensures TokenIn(QueuedAt(cfg, steps, j + 1), id, B.Deleted)
    ensures LastFor(QueuedAt(cfg, steps, j + 1), id) == Some(x)
  {
    SensiblePlain(cfg, decode, db, steps);
    PlainFront(cfg, steps, j + 1);
    EnteredIsQueued(cfg, steps, j);
    hide B.Run, LastFor, B.Next, Sensible, EntersAt, Entered, Published, QueuedAt, Plain;
    EnteredIsPublished(cfg, steps[..j + 1], x);
    QuietAfterDelete(cfg, decode, db, steps, j + 1, id, x);
    LastForPlus(QueuedAt(cfg, steps, j), [x], id);
    LastForOne(x, id);
    var queue := QueuedAt(cfg, steps, j + 1);
    assert queue[|queue| - 1] == x && x in queue;
    PublishedStays(steps, j + 1, |steps|, x);
    assert steps[..|steps|] == steps;
    DeleteIsLast(cfg, decode, db, steps, x, id);
  }

  /** What enters last, if it is a deletion, is the one published. */
  lemma EnteredDelete(cfg: B.Config, decode: Decode, db: W.Cache, steps: seq<B.Step>, id: int, x: B.Event)
    requires Sensible(cfg, decode, db, steps) && LastFor(Published(steps), id) == Some(x)
    ensures var i := LastFor(Entered(cfg, steps), id);
            i.Some? && i.value.kind == x.kind == B.Deleted ==> i == Some(x)
  {
    SensiblePlain(cfg, decode, db, steps);
    LastForIs(Published(steps), id);
    LastForIs(Entered(cfg, steps), id);
    hide B.Run, LastFor, Entered, Published, Sensible;
    var i := LastFor(Entered(cfg, steps), id);
    if i.Some? && i.value.kind == x.kind == B.Deleted {
      EnteredIsPublished(cfg, steps, i.value);
      OnceTold(cfg, decode, db, steps, i.value, x);
    }
  }

  /** What is handed over last, if it is a deletion, is the one published. */
  lemma HandedDelete(cfg: B.Config, decode: Decode, db: W.Cache, steps: seq<B.Step>, id: int, x: B.Event)
    requires Sensible(cfg, decode, db, steps) && Drained(cfg, steps) && LastFor(Published(steps), id) == Some(x)
    ensures var h := LastFor(Handed(cfg, steps), id);
            h.Some? ==> h.value.id == Some(id) && (h.value.kind == x.kind == B.Deleted ==> h == Some(x))
  {
    SensiblePlain(cfg, decode, db, steps);
    DrainedLast(cfg, steps, id);
    EnteredDelete(cfg, decode, db, steps, id, x);
  }

  /** A deletion enters once at most: there is no second one parked. */
  lemma EntersOnce(cfg: B.Config, decode: Decode, db: W.Cache, steps: seq<B.Step>, i: nat, j: nat, x: B.Event)
    requires Sensible(cfg, decode, db, steps) && i < j < |steps| && x.kind == B.Deleted
    requires EntersAt(cfg, steps, i) == Some(x)
    ensures EntersAt(cfg, steps, j) != Some(x)
  {
    hide *;
    if EntersAt(cfg, steps, j) == Some(x) {
      SensiblePlain(cfg, decode, db, steps);
      PlainFront(cfg, steps, j + 1);
      SensibleFront(cfg, decode, db, steps, j + 1);
      EntersTwice(cfg, steps, i, j, x);
      PublishedNamed(cfg, steps[..j + 1], x);
      OnceTold(cfg, decode, db, steps[..j + 1], x, x);
    }
  }

  /** The moment exists, and is one: if no task of the row is cancelled after the
      deletion was published. */
  lemma DeleteEnters(cfg: B.Config, decode: Decode, db: W.Cache, steps: seq<B.Step>, k: nat, id: int)
    requires Sensible(cfg, decode, db, steps) && Drained(cfg, steps) && k < |steps| && steps[k].Publish?
    requires steps[k].e.kind == B.Deleted && steps[k].e.id == Some(id) && NoneDropped(cfg, steps, k + 1, id)
    ensures exists j: nat :: k <= j < |steps| && EntersAt(cfg, steps, j) == Some(steps[k].e)
    ensures forall i: nat, j: nat ::
              i < |steps| && j < |steps| && EntersAt(cfg, steps, i) == EntersAt(cfg, steps, j) == Some(steps[k].e)
              ==> i == j
  {
    var x := steps[k].e;
    SensiblePlain(cfg, decode, db, steps);
    PublishedEnters(cfg, steps, k);
    hide B.Run, EntersAt, Sensible, Drained, Plain;
    if EntersAt(cfg, steps, k) != Some(x) {
      var j := ParkedGetsIn(cfg, steps, k + 1, x, id);
    }
    forall i: nat, j: nat | i < |steps| && j < |steps| && EntersAt(cfg, steps, i) == Some(x)
      && EntersAt(cfg, steps, j) == Some(x)
      ensures i == j
    {
      if i < j {
        EntersOnce(cfg, decode, db, steps, i, j, x);
      } else if j < i {
        EntersOnce(cfg, decode, db, steps, j, i, x);
      }
    }
  }

  /** With cancellations too: the row is gone from every client's cache exactly if
      the delete enters the queue at some moment and nothing of its row after it. */
  lemma DeleteGoneIff(cfg: B.Config, decode: Decode, db: W.Cache, steps: seq<B.Step>, k: nat, id: int)
    requires Sensible(cfg, decode, db, steps) && Drained(cfg, steps) && k < |steps| && steps[k].Publish?
    requires steps[k].e.kind == B.Deleted && steps[k].e.id == Some(id)
    ensures (forall c: W.Cache :: id !in W.Fold(c, ToldAll(decode, Handed(cfg, steps))))
            <==> exists j: nat :: j < |steps| && EntersAt(cfg, steps, j) == Some(steps[k].e)
                                  && NoneFollows(cfg, steps, j + 1, |steps|, id)
  {
    var x := steps[k].e;
    SensiblePlain(cfg, decode, db, steps);
    RunNamed(cfg, steps);
    WasPublished(steps, x);
    DeleteIsLast(cfg, decode, db, steps, x, id);
    HandedDelete(cfg, decode, db, steps, id, x);
    DrainedLast(cfg, steps, id);
    hide *;
    GoneEverywhere(decode, Handed(cfg, steps), id, x);
    LastEntersIff(cfg, steps, id, x);
    EnteredDelete(cfg, decode, db, steps, id, x);
  }

  lemma GoneEverywhere(decode: Decode, handed: seq<B.Event>, id: int, x: B.Event)
    requires Named(handed) && x.id == Some(id)
    ensures (forall c: W.Cache :: id !in W.Fold(c, ToldAll(decode, handed)))
            <==> LastFor(handed, id).Some? && LastFor(handed, id).value.kind == B.Deleted
  {
    hide LastFor, W.Fold, ToldAll;
    var h, all := LastFor(handed, id), ToldAll(decode, handed);
    LastForIs(handed, id);
    forall c: W.Cache ensures id in W.Fold(c, all) <==> if h.Some? then h.value.kind != B.Deleted else id in c {
      FoldLast(decode, c, handed, id);
    }
    var there: W.Cache := map[id := ItemOf(decode, x)];
    assert id in W.Fold(there, all) <==> if h.Some? then h.value.kind != B.Deleted else id in there;
  }

  // -------------------------------------------------- rows that keep their turn

  /** What an update coalesces with is its row's last event, an update too. */
  lemma CoalescesWithLast(cfg: B.Config, decode: Decode, db: W.Cache, steps: seq<B.Step>, e: B.Event, id: int)
    requires Sensible(cfg, decode, db, steps) && InOrder(db, TableAfter(decode, db, steps), steps, e)
    requires e.id == Some(id) && Coalesces(B.Run(cfg, steps), e)
    ensures var x := LastFor(Published(steps), id); x.Some? && x.value.kind == B.Updated
  {
    SensiblePlain(cfg, decode, db, steps);
    HandedInOrder(cfg, steps);
    B.RunInv(cfg, steps, id);
    NewestIs(cfg, steps, id);
    LastForIs(Published(steps), id);
    TableLast(decode, db, steps, id);
    hide B.Run, LastFor, Published, Sensible;
    var u :| u in Published(steps) && u.id == Some(id) && u.kind == B.Updated;
    var x := LastFor(Published(steps), id).value;
    if x.kind == B.Created {
      CreatedIsFirst(cfg, decode, db, steps, id, u);
    }
  }

  lemma {:induction false} PlaceKept(cfg: B.Config, decode: Decode, db: W.Cache, steps: seq<B.Step>, id: int)
    requires Sensible(cfg, decode, db, steps) && InTurn(cfg, steps, id)
    ensures HoldsPlace(cfg, steps, id)
  {
    if steps != [] {
      var n := |steps| - 1;
      var front, step := steps[..n], steps[n];
      assert step.Publish? ==> InOrder(db, TableAfter(decode, db, front), front, step.e);
      SensibleFront(cfg, decode, db, steps, n);
      SensiblePlain(cfg, decode, db, steps);
      hide InTurn, Sensible, B.Run, LastFor, Line, KeepsTurn, InOrder, Plain, TableAfter, Published, Coalesces;
      InTurnFront(cfg, steps, n, id);
      PlaceKept(cfg, decode, db, front, id);
      LinePush(cfg, steps, id);
      PublishedPush(steps, id);
      if step.Publish? && step.e.id == Some(id) && Coalesces(B.Run(cfg, front), step.e) {
        CoalescesWithLast(cfg, decode, db, front, step.e, id);
      }
    }
  }

  lemma LastInLine(cfg: B.Config, steps: seq<B.Step>, id: int)
    requires Plain(cfg, steps)
    ensures var s, i := B.Run(cfg, steps), LastFor(Line(cfg, steps), id);
            var q := LastFor(s.queue + s.waiting, id);
            var o := if q.Some? then q else LastFor(Handed(cfg, steps), id);
            && (i.Some? <==> o.Some?)
            && (i.Some? ==> Alike(i.value, o.value) && i.value.id == Some(id) && i.value in Published(steps))
  {
    LastInLastOut(cfg, steps, id);
    hide LastFor, B.Run, Entered, Handed, Published;
    LastForPlus(Entered(cfg, steps), B.Run(cfg, steps).waiting, id);
    LastForPlus(B.Run(cfg, steps).queue, B.Run(cfg, steps).waiting, id);
    LastForIs(Line(cfg, steps), id);
    if LastFor(Line(cfg, steps), id).Some? {
      EnteredIsPublished(cfg, steps, LastFor(Line(cfg, steps), id).value);
    }
  }

  /** In every state of a sensible run, for every row that keeps its turn, whatever
      happens to others: the last of its events to come, or handed over if none is,
      is the one published last, and so decides what the table holds. */
  lemma RunInv(cfg: B.Config, decode: Decode, db: W.Cache, steps: seq<B.Step>, id: int)
    requires Sensible(cfg, decode, db, steps) && InTurn(cfg, steps, id)
    ensures Upcoming(cfg, steps, id) == LastFor(Published(steps), id)
    ensures Value(TableAfter(decode, db, steps), id)
            == match Upcoming(cfg, steps, id)
               case None => Value(db, id)
               case Some(x) => if x.id.Some? then Effect(decode, x) else None
  {
    PlaceKept(cfg, decode, db, steps, id);
    TableLast(decode, db, steps, id);
    SensiblePlain(cfg, decode, db, steps);
    LastInLine(cfg, steps, id);
    hide LastFor, B.Run, Entered, Handed, Published, Sensible, TableAfter, Line;
    LastForIs(Published(steps), id);
    var x, i := LastFor(Published(steps), id), LastFor(Line(cfg, steps), id);
    var q := LastFor(B.Run(cfg, steps).queue + B.Run(cfg, steps).waiting, id);
    if x.Some? {
      if x.value.kind != B.Updated {
        OnceTold(cfg, decode, db, steps, i.value, x.value);
      } else if q.Some? {
        UpdateUpcoming(cfg, steps, id, q.value);
      } else {
        NothingToCome(cfg, steps, id);
      }
    }
  }

  /** So a row that keeps its turn arrives. */
  lemma InTurnArrives(cfg: B.Config, decode: Decode, db: W.Cache, steps: seq<B.Step>, id: int)
    requires Sensible(cfg, decode, db, steps) && InTurn(cfg, steps, id) && Drained(cfg, steps)
    ensures LastFor(Handed(cfg, steps), id) == LastFor(Published(steps), id)
  {
    RunInv(cfg, decode, db, steps, id);
    assert B.Run(cfg, steps).queue + B.Run(cfg, steps).waiting == [];
    LastForNothing(id);
  }

  /** The row was created with the values of its last update. */
  ghost predicate CreatedAlike(decode: Decode, steps: seq<B.Step>, id: int, x: B.Event) {
    x.kind == B.Updated
    && exists z :: z in Published(steps) && z.id == Some(id) && z.kind == B.Created && decode(z.data) == decode(x.data)
  }

  /** A row of which no task is cancelled. Once all is drained, a client's cache
      has what the server's table has of it exactly if the row is in line; or it
      keeps the row as it was created, and that is what the last update says. */
  lemma RowAgreesIff(cfg: B.Config, decode: Decode, db: W.Cache, steps: seq<B.Step>, id: int, x: B.Event, c: W.Cache)
    requires Sensible(cfg, decode, db, steps) && Drained(cfg, steps) && NoneDropped(cfg, steps, 0, id)
    requires LastFor(Published(steps), id) == Some(x)
    ensures Value(W.Fold(c, ToldAll(decode, Handed(cfg, steps))), id) == Value(TableAfter(decode, db, steps), id)
            <==> InLine(cfg, steps, id) || CreatedAlike(decode, steps, id, x)
  {
    SensiblePlain(cfg, decode, db, steps);
    RunNamed(cfg, steps);
    SomethingComesOut(cfg, steps, id);
    NothingLost(cfg, steps, id);
    LastInDecides(cfg, decode, db, steps, id);
    DrainedLast(cfg, steps, id);
    LastForIs(Published(steps), id);
    LastForIs(Entered(cfg, steps), id);
    var i := LastFor(Entered(cfg, steps), id).value;
    EnteredIsPublished(cfg, steps, i);
    hide B.Run, LastFor, Published, Entered, Handed, Sensible, Drained, NoneDropped, W.Fold, ToldAll, Plain, TableAfter;
    TableLast(decode, db, steps, id);
    FoldLast(decode, c, Handed(cfg, steps), id);
    if i.kind != x.kind {
      OvertakerIsCreation(cfg, decode, db, steps, id, i, x);
    }
  }

  /** What can come out last in its place: an update or the creation in place of a
      deletion, the creation in place of an update, nothing in place of a creation. */
  lemma OvertakerIsCreation(cfg: B.Config, decode: Decode, db: W.Cache, steps: seq<B.Step>, id: int,
                            i: B.Event, x: B.Event)
    requires Sensible(cfg, decode, db, steps) && LastFor(Published(steps), id) == Some(x)
    requires i in Published(steps) && i.id == Some(id) && i.kind != x.kind
    ensures i.kind != B.Deleted && x.kind != B.Created && (x.kind == B.Updated ==> i.kind == B.Created)
    ensures x.kind == B.Updated ==> (CreatedAlike(decode, steps, id, x) <==> decode(i.data) == decode(x.data))
  {
    if x.kind == B.Created {
      CreatedIsFirst(cfg, decode, db, steps, id, i);
    }
    if i.kind == B.Deleted {
      DeleteIsLast(cfg, decode, db, steps, i, id);
    }
    hide LastFor, Published, Sensible;
    forall z | z in Published(steps) && z.id == Some(id) && z.kind == B.Created && i.kind == B.Created
      ensures z == i
    {
      OnceTold(cfg, decode, db, steps, i, z);
    }
  }

  /** End to end. A client connects, gets the table of some moment j since the
      subscription as replay, and reads all that is handed over. Row by row: it
      holds what the server's table holds of every row that is in line, whatever
      happens to the others; and the whole table if every row is in line, in
      particular if each keeps its turn. */
  lemma DrainedReplica(cfg: B.Config, decode: Decode, db: W.Cache, steps: seq<B.Step>, j: nat,
                       replay: seq<W.Event>, stream: seq<W.Event>, earlier: W.View)
    requires Sensible(cfg, decode, db, steps) && Drained(cfg, steps)
    requires j <= |steps| && W.Replays(replay, TableAfter(decode, db, steps[..j]))
    requires W.Meaningful(stream) == replay + ToldAll(decode, Handed(cfg, steps))
    ensures var cache, end := W.Fold(W.Next(earlier, W.Opened).cache, stream), TableAfter(decode, db, steps);
            && (forall id :: Arrives(cfg, steps, id) ==> Value(cache, id) == Value(end, id))
            && ((forall id :: InTurn(cfg, steps, id) || Arrives(cfg, steps, id)) ==> cache == end)
  {
    hide Arrives, InTurn, Sensible, Drained, Handed, TableAfter, W.Fold, ToldAll, W.Meaningful, W.Replays, B.Run;
    var handed, at, end := Handed(cfg, steps), TableAfter(decode, db, steps[..j]), TableAfter(decode, db, steps);
    W.NoiseChangesNothing(map[], stream);
    W.FoldSplit(map[], replay, ToldAll(decode, handed));
    W.ReplayRebuilds(replay, at);
    var cache := W.Fold(at, ToldAll(decode, handed));
    forall id | Arrives(cfg, steps, id) || InTurn(cfg, steps, id)
      ensures Value(cache, id) == Value(end, id)
    {
      ArrivedRow(cfg, decode, db, steps, j, id);
    }
    if forall id :: InTurn(cfg, steps, id) || Arrives(cfg, steps, id) {
      SameTable(cache, end);
    }
  }

  lemma SameTable(a: W.Cache, b: W.Cache)
    requires forall id :: Value(a, id) == Value(b, id)
    ensures a == b
  {
    forall id ensures (id in a <==> id in b) && (id in a ==> a[id] == b[id]) {
      assert Value(a, id) == Value(b, id);
    }
  }

  lemma LastArrives(cfg: B.Config, decode: Decode, db: W.Cache, steps: seq<B.Step>, id: int)
    requires Sensible(cfg, decode, db, steps) && Drained(cfg, steps)
    requires Arrives(cfg, steps, id) || InTurn(cfg, steps, id)
    ensures LastFor(Handed(cfg, steps), id) == LastFor(Published(steps), id)
  {
    if Arrives(cfg, steps, id) {
      LastInDecides(cfg, decode, db, steps, id);
    } else {
      InTurnArrives(cfg, decode, db, steps, id);
    }
  }

  lemma ArrivedRow(cfg: B.Config, decode: Decode, db: W.Cache, steps: seq<B.Step>, j: nat, id: int)
    requires Sensible(cfg, decode, db, steps) && Drained(cfg, steps) && j <= |steps|
    requires Arrives(cfg, steps, id) || InTurn(cfg, steps, id)
    ensures Value(W.Fold(TableAfter(decode, db, steps[..j]), ToldAll(decode, Handed(cfg, steps))), id)
            == Value(TableAfter(decode, db, steps), id)
  {
    SensiblePlain(cfg, decode, db, steps);
    RunNamed(cfg, steps);
    assert steps[..|steps|] == steps;
    LastArrives(cfg, decode, db, steps, id);
    hide *;
    FoldLast(decode, TableAfter(decode, db, steps[..j]), Handed(cfg, steps), id);
    TableLast(decode, db, steps, id);
    TableLast(decode, db, steps[..j], id);
    if LastFor(Published(steps), id) == None {
      UntoldBefore(steps, j, |steps|, id);
    }
  }

  // ---------------------------------------------------------- and it can happen

  const TINY := B.Config(None, 1)

  function About(kind: B.Type, id: int): B.Event {
    B.Event(kind, Some(id), 0)
  }

  const CREATED := About(B.Created, 7)
  const UPDATED := About(B.Updated, 7)
  const DELETED := About(B.Deleted, 7)

  /** A full queue, a parked update, a free place, and the delete is first. */
  const RACE: seq<B.Step> :=
    [B.Publish(CREATED), B.Publish(UPDATED), B.Receive, B.Publish(DELETED), B.Receive, B.Resume(0), B.Receive]

  /** The delete is parked too, behind the update. The update's task is woken,
      finds the queue full again and goes to the end of the line. */
  const PARKED_RACE: seq<B.Step> :=
    [B.Publish(CREATED), B.Publish(UPDATED), B.Publish(DELETED), B.Receive, B.Publish(About(B.Created, 8)),
     B.Receive, B.Resume(1), B.Receive, B.Resume(0), B.Receive]

  /** What of the subscriber's state decides its next steps. */
  datatype Look = Look(queue: seq<B.Event>, waiting: seq<B.Event>, latest: map<int, B.Event>)

  predicate Looks(s: B.State, l: Look) {
    !s.closed && s.queue == l.queue && s.waiting == l.waiting && s.latest == l.latest
  }

  function Move(l: Look, step: B.Step): Look {
    match step
    case Publish(e) =>
      var latest := if B.Keyed(e) then l.latest[e.id.value := e] else l.latest;
      if B.Keyed(e) && e.id.value in l.latest then Look(l.queue, l.waiting, latest)
      else if l.queue == [] then Look([e], l.waiting, latest) else Look(l.queue, l.waiting + [e], latest)
    case Resume(i) =>
      if i < |l.waiting| && l.queue == [] then Look([l.waiting[i]], B.Without(l.waiting, i), l.latest) else l
    case Receive =>
      if l.queue == [] then l
      else Look(l.queue[1..], l.waiting, if B.Keyed(l.queue[0]) then l.latest - {l.queue[0].id.value} else l.latest)
    case _ => l
  }

  lemma Moves(steps: seq<B.Step>, m: nat, l: Look, l': Look)
    requires m < |steps| && Looks(B.Run(TINY, steps[..m]), l) && l' == Move(l, steps[m])
    requires steps[m].Publish? || steps[m].Resume? || steps[m].Receive?
    ensures Looks(B.Run(TINY, steps[..m + 1]), l')
  {
    Onward(TINY, steps, m);
    Stepped(TINY, B.Run(TINY, steps[..m]), steps[m]);
    if steps[m].Publish? {
      Enqueued(TINY, B.Run(TINY, steps[..m]), steps[m].e);
    }
    hide B.Run, B.Bump, B.Enqueue;
  }

  const FULL := Look([CREATED], [], map[])
  const STUCK := Look([CREATED], [UPDATED], map[7 := UPDATED])
  const FREED := Look([], [UPDATED], map[7 := UPDATED])
  const TAKEN := Look([DELETED], [UPDATED], map[7 := UPDATED])
  const WOKEN := Look([UPDATED], [], map[7 := UPDATED])
  const EMPTY := Look([], [], map[])

  predicate IsRace(race: seq<B.Step>) {
    && |race| == 7 && race[0] == B.Publish(CREATED) && race[1] == B.Publish(UPDATED) && race[2] == B.Receive
    && race[3] == B.Publish(DELETED) && race[4] == B.Receive && race[5] == B.Resume(0) && race[6] == B.Receive
  }

  /** Queue, parked tasks and pending updates at each moment of the races. */
  lemma RaceLooks(race: seq<B.Step>)
    requires IsRace(race)
    ensures Looks(B.Run(TINY, race[..3]), FREED) && Looks(B.Run(TINY, race[..4]), TAKEN)
    ensures Looks(B.Run(TINY, race[..7]), EMPTY)
  {
    hide Looks, B.Run;
    FreshLooks(race);
    Moves(race, 0, EMPTY, FULL);
    Moves(race, 1, FULL, STUCK);
    Moves(race, 2, STUCK, FREED);
    Moves(race, 3, FREED, TAKEN);
    Moves(race, 4, TAKEN, FREED);
    Moves(race, 5, FREED, WOKEN);
    Moves(race, 6, WOKEN, EMPTY);
  }

  lemma FreshLooks(steps: seq<B.Step>)
    ensures Looks(B.Run(TINY, steps[..0]), EMPTY)
  {
    assert steps[..0] == [];
  }

  predicate IsParkedRace(race: seq<B.Step>) {
    && |race| == 10 && race[0] == B.Publish(CREATED) && race[1] == B.Publish(UPDATED)
    && race[2] == B.Publish(DELETED) && race[3] == B.Receive && race[4] == B.Publish(About(B.Created, 8))
    && race[5] == B.Receive && race[6] == B.Resume(1) && race[7] == B.Receive && race[8] == B.Resume(0)
    && race[9] == B.Receive
  }

  lemma ParkedRaceLooks(race: seq<B.Step>)
    requires IsParkedRace(race)
    ensures Looks(B.Run(TINY, race[..6]), FREED.(waiting := [UPDATED, DELETED]))
    ensures Looks(B.Run(TINY, race[..7]), TAKEN)
    ensures Looks(B.Run(TINY, race[..10]), EMPTY)
  {
    hide Looks, B.Run;
    var both := [UPDATED, DELETED];
    FreshLooks(race);
    Moves(race, 0, EMPTY, FULL);
    Moves(race, 1, FULL, STUCK);
    Moves(race, 2, STUCK, STUCK.(waiting := both));
    Moves(race, 3, STUCK.(waiting := both), FREED.(waiting := both));
    Moves(race, 4, FREED.(waiting := both), Look([About(B.Created, 8)], both, map[7 := UPDATED]));
    Moves(race, 5, Look([About(B.Created, 8)], both, map[7 := UPDATED]), FREED.(waiting := both));
    Moves(race, 6, FREED.(waiting := both), TAKEN);
    Moves(race, 7, TAKEN, FREED);
    Moves(race, 8, FREED, WOKEN);
    Moves(race, 9, WOKEN, EMPTY);
  }

  lemma RaceTables(decode: Decode, n: nat)
    requires n <= 7
    ensures TableAfter(decode, map[], RACE[..n])
            == if 1 <= n <= 3 then map[7 := ItemOf(decode, CREATED)] else map[]
  {
    if n == 0 {
      assert RACE[..0] == [];
    } else {
      RaceTables(decode, n - 1);
      assert RACE[..n][..n - 1] == RACE[..n - 1];
    }
  }

  lemma ParkedRaceTables(decode: Decode, n: nat)
    requires n <= 10
    ensures TableAfter(decode, map[], PARKED_RACE[..n])
            == if 1 <= n <= 2 then map[7 := ItemOf(decode, CREATED)]
               else if n <= 4 then map[] else map[8 := ItemOf(decode, About(B.Created, 8))]
  {
    if n == 0 {
      assert PARKED_RACE[..0] == [];
    } else {
      ParkedRaceTables(decode, n - 1);
      assert PARKED_RACE[..n][..n - 1] == PARKED_RACE[..n - 1];
    }
  }

  lemma RaceSensible(decode: Decode)
    ensures Sensible(TINY, decode, map[], RACE)
  {
    hide TableAfter;
    forall i | 0 <= i < |RACE| && RACE[i].Publish?
      ensures InOrder(map[], TableAfter(decode, map[], RACE[..i]), RACE[..i], RACE[i].e)
    {
      RaceTables(decode, i);
    }
  }

  lemma ParkedRaceSensible(decode: Decode)
    ensures Sensible(TINY, decode, map[], PARKED_RACE)
  {
    hide TableAfter;
    forall i | 0 <= i < |PARKED_RACE| && PARKED_RACE[i].Publish?
      ensures InOrder(map[], TableAfter(decode, map[], PARKED_RACE[..i]), PARKED_RACE[..i], PARKED_RACE[i].e)
    {
      ParkedRaceTables(decode, i);
      assert i == 0 || i == 1 || i == 2 || i == 4;
    }
  }

  /** In both the server has deleted row 7, everything has been handed over, and a
      client has row 7, whatever its cache held before. */
  lemma OvertakingHappens(decode: Decode, c: W.Cache)
    ensures 7 !in TableAfter(decode, map[], RACE) && Drained(TINY, RACE)
    ensures 7 in W.Fold(c, ToldAll(decode, Handed(TINY, RACE)))
    ensures 7 !in TableAfter(decode, map[], PARKED_RACE) && Drained(TINY, PARKED_RACE)
    ensures 7 in W.Fold(c, ToldAll(decode, Handed(TINY, PARKED_RACE)))
  {
    hide B.Run, Handed, Published, Entered, Sensible, LastFor, W.Fold, ToldAll, TableAfter, Looks;
    RaceLooks(RACE);
    ParkedRaceLooks(PARKED_RACE);
    RaceSensible(decode);
    ParkedRaceSensible(decode);
    RaceKeeps(decode, RACE, 3, c);
    RaceKeeps(decode, PARKED_RACE, 6, c);
  }

  lemma RaceKeeps(decode: Decode, race: seq<B.Step>, j: nat, c: W.Cache)
    requires Sensible(TINY, decode, map[], race) && j < |race|
    requires forall i :: 0 <= i < |race| ==> !race[i].Cancel?
    requires (race[j] == B.Publish(DELETED) && Looks(B.Run(TINY, race[..j]), FREED))
             || (race[j] == B.Resume(1) && Looks(B.Run(TINY, race[..j]), FREED.(waiting := [UPDATED, DELETED])))
    requires Looks(B.Run(TINY, race[..j + 1]), TAKEN) && Looks(B.Run(TINY, race[..|race|]), EMPTY)
    ensures 7 !in TableAfter(decode, map[], race) && Drained(TINY, race)
    ensures 7 in W.Fold(c, ToldAll(decode, Handed(TINY, race)))
  {
    assert race[..|race|] == race;
    LastForOne(UPDATED, 7);
    hide B.Run, Handed, Published, Entered, Sensible, LastFor, W.Fold, ToldAll, TableAfter;
    assert EntersAt(TINY, race, j) == Some(DELETED);
    DeleteArrivesIff(TINY, decode, map[], race, j, 7, DELETED, c);
  }
}
