// What comes out of a bus subscriber's queue (gpustack/server/bus.py), and in which
// order: events enter it when they are published or when their parked tasks are
// woken, and leave it in the order they entered.
module QueueOrder {
  import opened Text
  import B = Subscriber

  predicate Named(es: seq<B.Event>) {
    forall e :: e in es ==> e.id.Some?
  }

  /** What the subscriber has handed over in a run. */
  function Handed(cfg: B.Config, steps: seq<B.Step>): seq<B.Event> {
    if steps == [] then []
    else
      var s, before := B.Run(cfg, steps[..|steps| - 1]), Handed(cfg, steps[..|steps| - 1]);
      if steps[|steps| - 1].Receive? && s.queue != [] && !s.closed then before + [B.Delivered(s)] else before
  }

  /** What was published in a run. */
  function Published(steps: seq<B.Step>): seq<B.Event> {
    if steps == [] then []
    else
      var before := Published(steps[..|steps| - 1]);
      match steps[|steps| - 1]
      case Publish(e) => before + [e]
      case _ => before
  }

  /** An update of a row that has one pending takes no place of its own. */
  predicate Coalesces(s: B.State, e: B.Event) {
    B.Keyed(e) && e.id.value in s.latest
  }

  /** The event a step puts into the queue. */
  function Entering(cfg: B.Config, s: B.State, step: B.Step): Option<B.Event> {
    match step
    case Publish(e) => if Coalesces(s, e) || B.Full(cfg, s.queue) then None else Some(e)
    case Resume(i) => if i < |s.waiting| && !B.Full(cfg, s.queue) then Some(s.waiting[i]) else None
    case _ => None
  }

  /** What has entered the queue in a run, in that order. */
  function Entered(cfg: B.Config, steps: seq<B.Step>): seq<B.Event> {
    if steps == [] then []
    else
      var s, before := B.Run(cfg, steps[..|steps| - 1]), Entered(cfg, steps[..|steps| - 1]);
      match Entering(cfg, s, steps[|steps| - 1])
      case Some(e) => before + [e]
      case None => before
  }

  /** The subscriber filters nothing and stays open, and every event names a row. */
  ghost predicate Plain(cfg: B.Config, steps: seq<B.Step>) {
    && cfg.types == None
    && forall i :: 0 <= i < |steps| ==> !steps[i].Close? && (steps[i].Publish? ==> steps[i].e.id.Some?)
  }

  // ----------------------------------------------------------------- the filter

  /** A subscriber that asked for some types is handed no other, and every event
      published of any type while it is open is counted as received. */
  lemma {:induction false} OnlyWantedHanded(cfg: B.Config, steps: seq<B.Step>)
    requires cfg.types.Some?
    ensures forall e :: e in Handed(cfg, steps) ==> e.kind in cfg.types.value
  {
    if steps != [] {
      var front := steps[..|steps| - 1];
      OnlyWantedHanded(cfg, front);
      B.OnlyWanted(cfg, front);
      B.StepOnlyOf(cfg, B.Run(cfg, front), B.Receive);
      hide B.Run, B.Delivered, B.OnlyOf;
    }
  }

  lemma StepReceives(cfg: B.Config, s: B.State, step: B.Step, t: B.Type)
    requires !s.closed && !step.Close?
    ensures var r := B.Next(cfg, s, step);
            && !r.closed
            && B.At(r.counts, B.Received, t)
               == B.At(s.counts, B.Received, t) + if step.Publish? && step.e.kind == t then 1 else 0
  {
    hide B.Full, B.Without, B.At, B.Bump, B.Enqueue;
    if step.Publish? {
      B.EnqueueCounts(cfg, s, step.e, t);
      EnqueueStaysOpen(cfg, s, step.e);
    } else if step.Resume? && step.i < |s.waiting| {
      B.BumpAt(s.counts, B.Enqueued, s.waiting[step.i].kind, t);
    }
  }

  lemma EnqueueStaysOpen(cfg: B.Config, s: B.State, e: B.Event)
    ensures B.Enqueue(cfg, s, e).closed == s.closed
  {
    hide B.Bump, B.Full;
  }

  lemma {:induction false} ReceivedIs(cfg: B.Config, steps: seq<B.Step>, t: B.Type)
    requires forall i :: 0 <= i < |steps| ==> !steps[i].Close?
    ensures !B.Run(cfg, steps).closed
    ensures B.At(B.Run(cfg, steps).counts, B.Received, t) == B.Count(Published(steps), B.OfType(t))
  {
    if steps != [] {
      var n := |steps| - 1;
      ReceivedIs(cfg, steps[..n], t);
      StepReceives(cfg, B.Run(cfg, steps[..n]), steps[n], t);
      hide B.Next, B.At, B.Count;
      if steps[n].Publish? {
        B.CountPush(Published(steps[..n]), steps[n].e, B.OfType(t));
      }
    }
  }

  // ---------------------------------------------------------------- last events

  function LastFor(es: seq<B.Event>, id: int): Option<B.Event> {
    if es == [] then None
    else if es[|es| - 1].id == Some(id) then Some(es[|es| - 1])
    else LastFor(es[..|es| - 1], id)
  }

  lemma {:induction false} LastForPlus(a: seq<B.Event>, b: seq<B.Event>, id: int)
    ensures LastFor(a + b, id) == if LastFor(b, id).Some? then LastFor(b, id) else LastFor(a, id)
    decreases |b|
  {
    if b == [] {
      assert a + b == a;
    } else {
      assert (a + b)[..|a + b| - 1] == a + b[..|b| - 1];
      LastForPlus(a, b[..|b| - 1], id);
    }
  }

  lemma LastForOne(e: B.Event, id: int)
    ensures LastFor([e], id) == if e.id == Some(id) then Some(e) else None
  {
    assert [e][..0] == [];
  }

  lemma {:induction false} LastForIs(es: seq<B.Event>, id: int)
    ensures LastFor(es, id).Some? ==> LastFor(es, id).value.id == Some(id) && LastFor(es, id).value in es
    ensures LastFor(es, id) == None ==> forall e :: e in es ==> e.id != Some(id)
  {
    if es != [] && es[|es| - 1].id != Some(id) {
      LastForIs(es[..|es| - 1], id);
    }
  }

  lemma LastForWithout(es: seq<B.Event>, i: nat, id: int)
    requires i < |es|
    ensures LastFor(B.Without(es, i), id) ==
            if LastFor(es[i + 1..], id).Some? then LastFor(es[i + 1..], id) else LastFor(es[..i], id)
    ensures LastFor(es, id) ==
            if LastFor(es[i + 1..], id).Some? then LastFor(es[i + 1..], id)
            else if es[i].id == Some(id) then Some(es[i]) else LastFor(es[..i], id)
  {
    LastForPlus(es[..i], es[i + 1..], id);
    assert es == es[..i] + ([es[i]] + es[i + 1..]);
    LastForPlus(es[..i], [es[i]] + es[i + 1..], id);
    LastForPlus([es[i]], es[i + 1..], id);
    LastForOne(es[i], id);
  }

  /** The same event, or two updates of one row. */
  predicate Alike(a: B.Event, b: B.Event) {
    a.kind == b.kind && a.id == b.id && (B.Keyed(a) || a == b)
  }

  ghost predicate AllAlike(xs: seq<B.Event>, ys: seq<B.Event>) {
    |xs| == |ys| && forall i :: 0 <= i < |xs| ==> Alike(xs[i], ys[i])
  }

  lemma {:induction false} LastAlike(xs: seq<B.Event>, ys: seq<B.Event>, id: int)
    requires AllAlike(xs, ys)
    ensures LastFor(xs, id).Some? <==> LastFor(ys, id).Some?
    ensures LastFor(xs, id).Some? ==> Alike(LastFor(xs, id).value, LastFor(ys, id).value)
    decreases |xs|
  {
    if xs != [] && xs[|xs| - 1].id != Some(id) {
      LastAlike(xs[..|xs| - 1], ys[..|ys| - 1], id);
    }
  }

  lemma {:induction false} TokensShow(es: seq<B.Event>, id: int)
    ensures B.Count(es, B.OfId(id)) > 0 <==> exists e :: e in es && B.Keyed(e) && e.id == Some(id)
  {
    if es != [] {
      TokensShow(es[..|es| - 1], id);
      assert es == es[..|es| - 1] + [es[|es| - 1]];
    }
  }

  // ----------------------------------------------------------- moments of a run

  lemma PlainFront(cfg: B.Config, steps: seq<B.Step>, m: nat)
    requires Plain(cfg, steps) && m <= |steps|
    ensures Plain(cfg, steps[..m])
  {
  }

  /** From one moment to the next. */
  lemma Onward(cfg: B.Config, steps: seq<B.Step>, m: nat)
    requires m < |steps|
    ensures B.Run(cfg, steps[..m + 1]) == B.Next(cfg, B.Run(cfg, steps[..m]), steps[m])
    ensures Published(steps[..m + 1])
            == if steps[m].Publish? then Published(steps[..m]) + [steps[m].e] else Published(steps[..m])
    ensures Entered(cfg, steps[..m + 1])
            == match EntersAt(cfg, steps, m)
               case Some(e) => Entered(cfg, steps[..m]) + [e]
               case None => Entered(cfg, steps[..m])
  {
    hide B.Next, Entering;
    assert steps[..m + 1][..m] == steps[..m];
  }

  function EntersAt(cfg: B.Config, steps: seq<B.Step>, m: nat): Option<B.Event>
    requires m < |steps|
  {
    Entering(cfg, B.Run(cfg, steps[..m]), steps[m])
  }

  lemma Enqueued(cfg: B.Config, s: B.State, e: B.Event)
    requires cfg.types == None && !s.closed
    ensures var r := B.Enqueue(cfg, s, e);
            && !r.closed && r.latest == (if B.Keyed(e) then s.latest[e.id.value := e] else s.latest)
            && r.newest == (if B.Keyed(e) then s.newest[e.id.value := e] else s.newest)
            && r.lost == (if B.Keyed(e) then s.lost - {e.id.value} else s.lost) && r.seen == s.seen
            && r.queue == (if Coalesces(s, e) || B.Full(cfg, s.queue) then s.queue else s.queue + [e])
            && r.waiting == if Coalesces(s, e) || !B.Full(cfg, s.queue) then s.waiting else s.waiting + [e]
  {
    hide B.Bump, B.Full;
  }

  /** The queue and the parked events after any step. */
  lemma Stepped(cfg: B.Config, s: B.State, step: B.Step)
    requires cfg.types == None && !s.closed && !step.Close?
    ensures var r, e := B.Next(cfg, s, step), Entering(cfg, s, step);
            && !r.closed
            && r.queue == (if step.Receive? && s.queue != [] then s.queue[1..]
                           else if e.Some? then s.queue + [e.value] else s.queue)
            && r.waiting == match step
                            case Publish(x) =>
                              if Coalesces(s, x) || !B.Full(cfg, s.queue) then s.waiting else s.waiting + [x]
                            case Resume(i) => if e.Some? then B.Without(s.waiting, i) else s.waiting
                            case Cancel(i) => if i < |s.waiting| then B.Without(s.waiting, i) else s.waiting
                            case _ => s.waiting
  {
    if step.Publish? {
      Enqueued(cfg, s, step.e);
    }
    hide B.Bump, B.Enqueue;
  }

  // ---------------------------------------------- what is handed over, in order

  /** Everything under way names its row. */
  ghost predicate AllNamed(s: B.State, handed: seq<B.Event>) {
    && Named(s.queue) && Named(s.waiting) && Named(handed)
    && forall id :: id in s.latest ==> B.Keyed(s.latest[id]) && s.latest[id].id == Some(id)
  }

  lemma NextNamed(cfg: B.Config, s: B.State, step: B.Step, handed: seq<B.Event>)
    requires AllNamed(s, handed) && (step.Publish? ==> step.e.id.Some?)
    ensures AllNamed(B.Next(cfg, s, step),
                     if step.Receive? && s.queue != [] && !s.closed then handed + [B.Delivered(s)] else handed)
  {
    hide B.Bump, B.Full, B.Enqueue;
    match step
    case Publish(e) => EnqueueNamed(cfg, s, e, handed);
    case Resume(i) =>
      if i < |s.waiting| {
        assert s.waiting[i] in s.waiting;
        WithoutNamed(s.waiting, i);
      }
    case Cancel(i) => if i < |s.waiting| { WithoutNamed(s.waiting, i); }
    case Receive =>
      if s.queue != [] {
        ReceiveNamed(s, handed);
        hide B.Delivered, B.AfterReceive, AllNamed;
      }
    case Close =>
  }

  lemma ReceiveNamed(s: B.State, handed: seq<B.Event>)
    requires AllNamed(s, handed) && s.queue != []
    ensures AllNamed(B.AfterReceive(s), handed + [B.Delivered(s)])
  {
    assert s.queue[0] in s.queue && forall e :: e in s.queue[1..] ==> e in s.queue;
    var j := s.queue[0].id.value;
    if j in s.latest {
      assert s.latest[j].id == Some(j);
    }
  }

  lemma WithoutNamed(es: seq<B.Event>, i: nat)
    requires Named(es) && i < |es|
    ensures Named(B.Without(es, i))
  {
  }

  lemma EnqueueNamed(cfg: B.Config, s: B.State, e: B.Event, handed: seq<B.Event>)
    requires AllNamed(s, handed) && e.id.Some?
    ensures AllNamed(B.Enqueue(cfg, s, e), handed)
  {
    hide B.Bump, B.Full;
  }

  lemma {:induction false} RunNamed(cfg: B.Config, steps: seq<B.Step>)
    requires forall i :: 0 <= i < |steps| && steps[i].Publish? ==> steps[i].e.id.Some?
    ensures AllNamed(B.Run(cfg, steps), Handed(cfg, steps))
  {
    hide B.Next, AllNamed;
    if steps != [] {
      RunNamed(cfg, steps[..|steps| - 1]);
      NextNamed(cfg, B.Run(cfg, steps[..|steps| - 1]), steps[|steps| - 1], Handed(cfg, steps[..|steps| - 1]));
    } else {
      FreshNamed();
    }
  }

  lemma FreshNamed()
    ensures AllNamed(B.FRESH, [])
  {
  }

  lemma DeliveredAlike(s: B.State, handed: seq<B.Event>)
    requires AllNamed(s, handed) && s.queue != []
    ensures Alike(s.queue[0], B.Delivered(s))
  {
    var e := s.queue[0];
    assert e in s.queue;
    var j := e.id.value;
    if j in s.latest {
      assert B.Keyed(s.latest[j]) && s.latest[j].id == Some(j);
    }
  }

  lemma AlikePush(xs: seq<B.Event>, out: seq<B.Event>, queue: seq<B.Event>, e: B.Event)
    requires AllAlike(xs, out + queue)
    ensures AllAlike(xs + [e], out + (queue + [e]))
  {
    assert out + (queue + [e]) == (out + queue) + [e];
  }

  lemma AlikeMove(xs: seq<B.Event>, out: seq<B.Event>, queue: seq<B.Event>, e: B.Event)
    requires AllAlike(xs, out + queue) && queue != [] && Alike(queue[0], e)
    ensures AllAlike(xs, out + [e] + queue[1..])
  {
    assert Alike(xs[|out|], (out + queue)[|out|]);
    forall i | 0 <= i < |xs| ensures Alike(xs[i], (out + [e] + queue[1..])[i]) {
      assert Alike(xs[i], (out + queue)[i]);
    }
  }

  /** The events handed over and those still queued are those that entered the
      queue, in the order they entered: each is the event itself or, for an
      update, an update of the same row. */
  lemma {:induction false} HandedInOrder(cfg: B.Config, steps: seq<B.Step>)
    requires Plain(cfg, steps)
    ensures !B.Run(cfg, steps).closed
    ensures AllAlike(Entered(cfg, steps), Handed(cfg, steps) + B.Run(cfg, steps).queue)
  {
    if steps != [] {
      var n := |steps| - 1;
      var front, step := steps[..n], steps[n];
      PlainFront(cfg, steps, n);
      HandedInOrder(cfg, front);
      RunNamed(cfg, front);
      var s := B.Run(cfg, front);
      Stepped(cfg, s, step);
      hide B.Next, Entering, AllAlike, Alike, B.Delivered;
      if step.Receive? && s.queue != [] {
        DeliveredAlike(s, Handed(cfg, front));
        AlikeMove(Entered(cfg, front), Handed(cfg, front), s.queue, B.Delivered(s));
      } else if Entering(cfg, s, step).Some? {
        AlikePush(Entered(cfg, front), Handed(cfg, front), s.queue, Entering(cfg, s, step).value);
      }
    }
  }

  /** So the last event of a row to enter the queue is, up to coalescing, the
      last to come out. */
  lemma LastInLastOut(cfg: B.Config, steps: seq<B.Step>, id: int)
    requires Plain(cfg, steps)
    ensures var s, i := B.Run(cfg, steps), LastFor(Entered(cfg, steps), id);
            var o := if LastFor(s.queue, id).Some? then LastFor(s.queue, id) else LastFor(Handed(cfg, steps), id);
            (i.Some? <==> o.Some?) && (i.Some? ==> Alike(i.value, o.value))
  {
    HandedInOrder(cfg, steps);
    LastAlike(Entered(cfg, steps), Handed(cfg, steps) + B.Run(cfg, steps).queue, id);
    LastForPlus(Handed(cfg, steps), B.Run(cfg, steps).queue, id);
    hide Alike, LastFor, Handed, Entered, B.Run;
  }

  // ---------------------------------------------------------------- what enters

  lemma WithoutBag(es: seq<B.Event>, i: nat)
    requires i < |es|
    ensures multiset(es) == multiset(B.Without(es, i)) + multiset{es[i]}
  {
    assert es == es[..i] + [es[i]] + es[i + 1..];
  }

  lemma StepEnters(cfg: B.Config, s: B.State, step: B.Step, entered: seq<B.Event>, published: seq<B.Event>)
    requires cfg.types == None && !s.closed && !step.Close?
    requires multiset(entered) + multiset(s.waiting) <= multiset(published)
    ensures var e := Entering(cfg, s, step);
            multiset(if e.Some? then entered + [e.value] else entered) + multiset(B.Next(cfg, s, step).waiting)
            <= multiset(if step.Publish? then published + [step.e] else published)
  {
    Stepped(cfg, s, step);
    hide B.Next, B.Full, Coalesces;
    if (step.Resume? || step.Cancel?) && step.i < |s.waiting| {
      WithoutBag(s.waiting, step.i);
      hide B.Without;
    }
  }

  /** What entered or is parked was published, each as often at most. */
  lemma {:induction false} EnteredWasPublished(cfg: B.Config, steps: seq<B.Step>)
    requires Plain(cfg, steps)
    ensures multiset(Entered(cfg, steps)) + multiset(B.Run(cfg, steps).waiting) <= multiset(Published(steps))
  {
    if steps != [] {
      var n := |steps| - 1;
      PlainFront(cfg, steps, n);
      EnteredWasPublished(cfg, steps[..n]);
      HandedInOrder(cfg, steps[..n]);
      hide B.Next, Entering;
      StepEnters(cfg, B.Run(cfg, steps[..n]), steps[n], Entered(cfg, steps[..n]), Published(steps[..n]));
    }
  }

  /** Nothing of the row enters in the moments from p to m. */
  ghost predicate NoneFollows(cfg: B.Config, steps: seq<B.Step>, p: nat, m: nat, id: int)
    requires m <= |steps|
  {
    forall i :: p <= i < m && EntersAt(cfg, steps, i).Some? ==> EntersAt(cfg, steps, i).value.id != Some(id)
  }

  lemma EnteredPush(cfg: B.Config, steps: seq<B.Step>, m: nat, id: int)
    requires m < |steps|
    ensures var e := EntersAt(cfg, steps, m);
            LastFor(Entered(cfg, steps[..m + 1]), id)
            == if e.Some? && e.value.id == Some(id) then e else LastFor(Entered(cfg, steps[..m]), id)
  {
    hide EntersAt, B.Run, B.Next, Entered, Published, LastFor;
    Onward(cfg, steps, m);
    var e := EntersAt(cfg, steps, m);
    if e.Some? {
      LastForPlus(Entered(cfg, steps[..m]), [e.value], id);
      LastForOne(e.value, id);
    }
  }

  lemma {:induction false} NoneFollowed(cfg: B.Config, steps: seq<B.Step>, p: nat, m: nat, id: int)
    requires p <= m <= |steps| && NoneFollows(cfg, steps, p, m, id)
    ensures LastFor(Entered(cfg, steps[..m]), id) == LastFor(Entered(cfg, steps[..p]), id)
    decreases m
  {
    hide EntersAt, Entered, LastFor;
    if p < m {
      NoneFollowed(cfg, steps, p, m - 1, id);
      EnteredPush(cfg, steps, m - 1, id);
    }
  }

  lemma NothingEntered(cfg: B.Config, steps: seq<B.Step>, id: int)
    ensures LastFor(Entered(cfg, steps[..0]), id) == None
  {
    assert steps[..0] == [];
  }

  /** The last event of a row to enter enters at some moment, and nothing of the
      row after it. */
  lemma {:induction false} LastEnters(cfg: B.Config, steps: seq<B.Step>, m: nat, id: int) returns (j: nat)
    requires m <= |steps| && LastFor(Entered(cfg, steps[..m]), id).Some?
    ensures j < m && EntersAt(cfg, steps, j) == LastFor(Entered(cfg, steps[..m]), id)
    ensures NoneFollows(cfg, steps, j + 1, m, id)
    decreases m
  {
    hide EntersAt, Entered, LastFor;
    NothingEntered(cfg, steps, id);
    if m > 0 {
      EnteredPush(cfg, steps, m - 1, id);
      var e := EntersAt(cfg, steps, m - 1);
      if e.Some? && e.value.id == Some(id) {
        j := m - 1;
      } else {
        j := LastEnters(cfg, steps, m - 1, id);
      }
    }
  }

  // --------------------------------------------------------- what was published

  lemma {:induction false} WasPublished(steps: seq<B.Step>, e: B.Event)
    ensures e in Published(steps) <==> exists i :: 0 <= i < |steps| && steps[i].Publish? && steps[i].e == e
  {
    if steps != [] {
      var n := |steps| - 1;
      WasPublished(steps[..n], e);
      if i :| 0 <= i < n && steps[..n][i].Publish? && steps[..n][i].e == e {
        assert steps[i].e == e;
      }
      if i :| 0 <= i < n && steps[i].Publish? && steps[i].e == e {
        assert steps[..n][i].e == e;
      }
    }
  }

  lemma PublishedPush(steps: seq<B.Step>, id: int)
    requires steps != []
    ensures var n := |steps| - 1;
            LastFor(Published(steps), id)
            == if steps[n].Publish? && steps[n].e.id == Some(id) then Some(steps[n].e)
               else LastFor(Published(steps[..n]), id)
  {
    var n := |steps| - 1;
    if steps[n].Publish? {
      LastForPlus(Published(steps[..n]), [steps[n].e], id);
      LastForOne(steps[n].e, id);
    }
  }

  // ------------------------------------------------------------ pending updates

  lemma NextNewest(cfg: B.Config, s: B.State, step: B.Step)
    requires cfg.types == None && !s.closed && !step.Close?
    ensures B.Next(cfg, s, step).newest
            == if step.Publish? && B.Keyed(step.e) then s.newest[step.e.id.value := step.e] else s.newest
  {
    if step.Publish? {
      Enqueued(cfg, s, step.e);
    }
    hide B.Enqueue, B.Bump, B.Full;
  }

  lemma {:induction false} NewestIs(cfg: B.Config, steps: seq<B.Step>, id: int)
    requires Plain(cfg, steps)
    ensures var s, x := B.Run(cfg, steps), LastFor(Published(steps), id);
            && (id in s.newest ==> exists e :: e in Published(steps) && e.id == Some(id) && e.kind == B.Updated)
            && (x.Some? && B.Keyed(x.value) ==> id in s.newest && s.newest[id] == x.value)
  {
    if steps != [] {
      var n := |steps| - 1;
      PlainFront(cfg, steps, n);
      NewestIs(cfg, steps[..n], id);
      HandedInOrder(cfg, steps[..n]);
      PublishedPush(steps, id);
      NextNewest(cfg, B.Run(cfg, steps[..n]), steps[n]);
      hide B.Next, LastFor;
      assert steps[n].Publish? ==> steps[n].e in Published(steps);
    }
  }

  lemma NextSeen(cfg: B.Config, s: B.State, step: B.Step)
    requires cfg.types == None && !s.closed && !step.Close?
    ensures B.Next(cfg, s, step).seen
            == if step.Receive? && s.queue != [] && B.Keyed(s.queue[0])
               then s.seen[s.queue[0].id.value := B.Delivered(s)] else s.seen
  {
    if step.Publish? {
      Enqueued(cfg, s, step.e);
    }
    hide B.Enqueue, B.Bump, B.Full, B.Delivered;
  }

  lemma {:induction false} SeenIs(cfg: B.Config, steps: seq<B.Step>, id: int)
    requires Plain(cfg, steps)
    ensures var s, h := B.Run(cfg, steps), LastFor(Handed(cfg, steps), id);
            h.Some? && B.Keyed(h.value) ==> id in s.seen && s.seen[id] == h.value
  {
    if steps != [] {
      var n := |steps| - 1;
      var s := B.Run(cfg, steps[..n]);
      PlainFront(cfg, steps, n);
      SeenIs(cfg, steps[..n], id);
      HandedInOrder(cfg, steps[..n]);
      RunNamed(cfg, steps[..n]);
      NextSeen(cfg, s, steps[n]);
      hide B.Next, LastFor, B.Delivered;
      if steps[n].Receive? && s.queue != [] {
        DeliveredAlike(s, Handed(cfg, steps[..n]));
        LastForPlus(Handed(cfg, steps[..n]), [B.Delivered(s)], id);
        LastForOne(B.Delivered(s), id);
      }
    }
  }

  lemma NextNotLost(cfg: B.Config, s: B.State, step: B.Step, id: int)
    requires cfg.types == None && !s.closed && !step.Close? && (id in s.latest ==> id !in s.lost)
    ensures var r := B.Next(cfg, s, step); id in r.latest ==> id !in r.lost
  {
    if step.Publish? {
      Enqueued(cfg, s, step.e);
    }
    hide B.Enqueue, B.Bump, B.Full;
  }

  /** A row whose update is pending has lost none. */
  lemma {:induction false} PendingIsNotLost(cfg: B.Config, steps: seq<B.Step>, id: int)
    requires Plain(cfg, steps)
    ensures var s := B.Run(cfg, steps); id in s.latest ==> id !in s.lost
  {
    if steps != [] {
      var n := |steps| - 1;
      PlainFront(cfg, steps, n);
      PendingIsNotLost(cfg, steps[..n], id);
      HandedInOrder(cfg, steps[..n]);
      NextNotLost(cfg, B.Run(cfg, steps[..n]), steps[n], id);
      hide B.Next;
    }
  }

  // -------------------------------------------------------------- parked events

  /** The event whose task a step cancels. */
  function DropsAt(cfg: B.Config, steps: seq<B.Step>, m: nat): Option<B.Event>
    requires m < |steps|
  {
    var s := B.Run(cfg, steps[..m]);
    if steps[m].Cancel? && steps[m].i < |s.waiting| then Some(s.waiting[steps[m].i]) else None
  }

  ghost predicate NoneDropped(cfg: B.Config, steps: seq<B.Step>, p: nat, id: int) {
    forall i :: p <= i < |steps| && DropsAt(cfg, steps, i).Some? ==> DropsAt(cfg, steps, i).value.id != Some(id)
  }

  /** Nothing more is published about the row. */
  predicate Quiet(steps: seq<B.Step>, p: nat, id: int) {
    forall i :: p <= i < |steps| && steps[i].Publish? ==> steps[i].e.id != Some(id)
  }

  function ParkedAt(cfg: B.Config, steps: seq<B.Step>, m: nat): seq<B.Event>
    requires m <= |steps|
  {
    B.Run(cfg, steps[..m]).waiting
  }

  function QueuedAt(cfg: B.Config, steps: seq<B.Step>, m: nat): seq<B.Event>
    requires m <= |steps|
  {
    B.Run(cfg, steps[..m]).queue
  }

  /** What one step does to the parked events of a row it publishes nothing about. */
  lemma ParkedStep(cfg: B.Config, steps: seq<B.Step>, m: nat, id: int)
    requires Plain(cfg, steps) && m < |steps| && !(steps[m].Publish? && steps[m].e.id == Some(id))
    ensures var w, w' := ParkedAt(cfg, steps, m), ParkedAt(cfg, steps, m + 1);
            var i, d := EntersAt(cfg, steps, m), DropsAt(cfg, steps, m);
            && (i.Some? && i.value.id == Some(id) ==> i.value in w && LastFor(w, id).Some?)
            && (LastFor(w, id) == None ==> LastFor(w', id) == None)
            && (forall e :: e in w' && e.id == Some(id) ==> e in w)
            && (!(i.Some? && i.value.id == Some(id)) && !(d.Some? && d.value.id == Some(id))
                ==> LastFor(w', id) == LastFor(w, id))
  {
    PlainFront(cfg, steps, m);
    HandedInOrder(cfg, steps[..m]);
    Onward(cfg, steps, m);
    var s := B.Run(cfg, steps[..m]);
    Stepped(cfg, s, steps[m]);
    hide B.Next, B.Run, LastFor;
    LastForIs(s.waiting, id);
    if (steps[m].Resume? || steps[m].Cancel?) && steps[m].i < |s.waiting| {
      LastForWithout(s.waiting, steps[m].i, id);
      assert s.waiting[steps[m].i] in s.waiting;
    } else if steps[m].Publish? {
      LastForPlus(s.waiting, [steps[m].e], id);
      LastForOne(steps[m].e, id);
    }
  }

  /** With nothing of the row parked nothing follows, and what is parked stays
      until it enters or its task is cancelled. */
  lemma {:induction false} ParkedStays(cfg: B.Config, steps: seq<B.Step>, p: nat, m: nat, id: int)
    requires Plain(cfg, steps) && p <= m <= |steps| && Quiet(steps, p, id) && NoneDropped(cfg, steps, p, id)
    ensures LastFor(ParkedAt(cfg, steps, p), id) == None ==> NoneFollows(cfg, steps, p, m, id)
    ensures NoneFollows(cfg, steps, p, m, id)
            ==> LastFor(ParkedAt(cfg, steps, m), id) == LastFor(ParkedAt(cfg, steps, p), id)
    decreases m
  {
    hide LastFor, ParkedAt, EntersAt, DropsAt;
    if p < m {
      ParkedStays(cfg, steps, p, m - 1, id);
      ParkedStep(cfg, steps, m - 1, id);
    }
  }

  lemma {:induction false} ParkedBefore(cfg: B.Config, steps: seq<B.Step>, p: nat, m: nat, id: int, e: B.Event)
    requires Plain(cfg, steps) && p <= m <= |steps| && Quiet(steps, p, id)
    requires e in ParkedAt(cfg, steps, m) && e.id == Some(id)
    ensures e in ParkedAt(cfg, steps, p)
    decreases m
  {
    hide LastFor, ParkedAt, EntersAt, DropsAt;
    if p < m {
      ParkedStep(cfg, steps, m - 1, id);
      ParkedBefore(cfg, steps, p, m - 1, id, e);
    }
  }

  lemma Occurs(xs: seq<B.Event>, ys: seq<B.Event>, all: seq<B.Event>, x: B.Event, y: B.Event)
    requires multiset(xs) + multiset(ys) <= multiset(all) && x in xs && y in ys
    ensures x in all && y in all && (x == y ==> multiset(all)[x] > 1)
  {
    assert x in multiset(xs) && y in multiset(ys);
    assert x in multiset(all) && y in multiset(all);
  }

  lemma NotBothUpdates(cfg: B.Config, steps: seq<B.Step>, x: B.Event, y: B.Event)
    requires !B.Run(cfg, steps).closed
    requires x in B.Run(cfg, steps).queue && y in B.Run(cfg, steps).waiting && x.id.Some? && x.id == y.id
    ensures !(x.kind == y.kind == B.Updated)
  {
    B.RunInv(cfg, steps, x.id.value);
    TokensShow(B.Run(cfg, steps).queue, x.id.value);
    TokensShow(B.Run(cfg, steps).waiting, x.id.value);
    hide B.Run, B.Count;
  }

  lemma QueuedHasEntered(cfg: B.Config, steps: seq<B.Step>, x: B.Event)
    requires Plain(cfg, steps) && x in B.Run(cfg, steps).queue && !B.Keyed(x)
    ensures x in Entered(cfg, steps)
  {
    HandedInOrder(cfg, steps);
    hide *;
    AlikeHolds(Entered(cfg, steps), Handed(cfg, steps), B.Run(cfg, steps).queue, x);
  }

  lemma AlikeHolds(xs: seq<B.Event>, out: seq<B.Event>, queue: seq<B.Event>, x: B.Event)
    requires AllAlike(xs, out + queue) && x in queue && !B.Keyed(x)
    ensures x in xs
  {
    var i :| 0 <= i < |queue| && queue[i] == x;
    assert Alike(xs[|out| + i], (out + queue)[|out| + i]);
  }

  // -------------------------------------------------------- once all is drained

  ghost predicate Drained(cfg: B.Config, steps: seq<B.Step>) {
    B.Run(cfg, steps).queue == [] && B.Run(cfg, steps).waiting == []
  }

  /** The last event of the row to enter the queue is of the kind published last. */
  predicate InLine(cfg: B.Config, steps: seq<B.Step>, id: int) {
    var x, i := LastFor(Published(steps), id), LastFor(Entered(cfg, steps), id);
    (x.Some? <==> i.Some?) && (x.Some? ==> i.value.kind == x.value.kind)
  }

  lemma DrainedLast(cfg: B.Config, steps: seq<B.Step>, id: int)
    requires Plain(cfg, steps) && B.Run(cfg, steps).queue == []
    ensures var i, h := LastFor(Entered(cfg, steps), id), LastFor(Handed(cfg, steps), id);
            (i.Some? <==> h.Some?) && (i.Some? ==> Alike(i.value, h.value) && h.value.id == Some(id))
  {
    LastInLastOut(cfg, steps, id);
    LastForIs(Handed(cfg, steps), id);
    hide Alike, Handed, Entered, B.Run;
  }

  /** No cancelled task took the row's last update. */
  predicate Spared(cfg: B.Config, steps: seq<B.Step>, id: int) {
    var x := LastFor(Published(steps), id);
    x.Some? && B.Keyed(x.value) ==> id !in B.Run(cfg, steps).lost
  }

  lemma EnteredIsPublished(cfg: B.Config, steps: seq<B.Step>, e: B.Event)
    requires Plain(cfg, steps) && (e in Entered(cfg, steps) || e in B.Run(cfg, steps).waiting)
    ensures e in Published(steps)
  {
    EnteredWasPublished(cfg, steps);
    hide B.Run, Entered, Published;
    assert e in multiset(Entered(cfg, steps)) + multiset(B.Run(cfg, steps).waiting);
    assert e in multiset(Published(steps));
  }

  lemma NothingToCome(cfg: B.Config, steps: seq<B.Step>, id: int)
    requires Plain(cfg, steps) && LastFor(B.Run(cfg, steps).queue + B.Run(cfg, steps).waiting, id) == None
    requires LastFor(Published(steps), id).Some? && B.Keyed(LastFor(Published(steps), id).value)
    requires LastFor(Handed(cfg, steps), id).Some? && B.Keyed(LastFor(Handed(cfg, steps), id).value)
    requires id !in B.Run(cfg, steps).lost
    ensures LastFor(Handed(cfg, steps), id) == LastFor(Published(steps), id)
  {
    var s := B.Run(cfg, steps);
    HandedInOrder(cfg, steps);
    B.RunInv(cfg, steps, id);
    NewestIs(cfg, steps, id);
    SeenIs(cfg, steps, id);
    LastForIs(s.queue + s.waiting, id);
    TokensShow(s.queue, id);
    TokensShow(s.waiting, id);
    hide B.Run, B.Count, LastFor, Published, Handed;
    assert forall e :: e in s.queue || e in s.waiting ==> e in s.queue + s.waiting;
  }

  lemma {:induction false} NotLostLater(cfg: B.Config, steps: seq<B.Step>, p: nat, m: nat, id: int)
    requires Plain(cfg, steps) && p <= m <= |steps| && NoneDropped(cfg, steps, p, id)
    requires id !in B.Run(cfg, steps[..p]).lost
    ensures id !in B.Run(cfg, steps[..m]).lost
    decreases m
  {
    hide B.Run, B.Next, EntersAt, Entered, Published;
    if p < m {
      NotLostLater(cfg, steps, p, m - 1, id);
      PlainFront(cfg, steps, m - 1);
      HandedInOrder(cfg, steps[..m - 1]);
      Onward(cfg, steps, m - 1);
      assert DropsAt(cfg, steps, m - 1).Some? ==> DropsAt(cfg, steps, m - 1).value.id != Some(id);
      StepLoses(cfg, B.Run(cfg, steps[..m - 1]), steps[m - 1], id);
    }
  }

  lemma StepLoses(cfg: B.Config, s: B.State, step: B.Step, id: int)
    requires cfg.types == None && !s.closed && !step.Close? && id !in s.lost
    requires step.Cancel? && step.i < |s.waiting| ==> s.waiting[step.i].id != Some(id)
    ensures id !in B.Next(cfg, s, step).lost
  {
    if step.Publish? {
      Enqueued(cfg, s, step.e);
    }
    hide B.Enqueue, B.Bump, B.Full;
  }

  /** A token of the kind is in the queue. */
  predicate TokenIn(queue: seq<B.Event>, id: int, kind: B.Type) {
    exists e :: e in queue && e.id == Some(id) && e.kind == kind
  }

  lemma TokenKeepsUpdate(cfg: B.Config, steps: seq<B.Step>, p: nat, id: int)
    requires Plain(cfg, steps) && p <= |steps| && NoneDropped(cfg, steps, p, id)
    requires TokenIn(QueuedAt(cfg, steps, p), id, B.Updated)
    ensures id !in B.Run(cfg, steps).lost
  {
    PlainFront(cfg, steps, p);
    HandedInOrder(cfg, steps[..p]);
    B.RunInv(cfg, steps[..p], id);
    TokensShow(QueuedAt(cfg, steps, p), id);
    PendingIsNotLost(cfg, steps[..p], id);
    hide B.Run, B.Count;
    NotLostLater(cfg, steps, p, |steps|, id);
    assert steps[..|steps|] == steps;
  }

  lemma {:induction false} SomethingEntered(cfg: B.Config, steps: seq<B.Step>, i: nat, m: nat, id: int)
    requires i < m <= |steps| && EntersAt(cfg, steps, i).Some? && EntersAt(cfg, steps, i).value.id == Some(id)
    ensures LastFor(Entered(cfg, steps[..m]), id).Some?
    decreases m
  {
    hide EntersAt, Entered, LastFor;
    EnteredPush(cfg, steps, m - 1, id);
    if i < m - 1 {
      SomethingEntered(cfg, steps, i, m - 1, id);
    }
  }

  /** The token of the kind is the row's last in the queue, and nothing of the row
      is parked. */
  predicate Foremost(queue: seq<B.Event>, parked: seq<B.Event>, id: int, kind: B.Type) {
    LastFor(parked, id) == None && LastFor(queue, id).Some? && LastFor(queue, id).value.kind == kind
  }

  lemma NothingFollows(cfg: B.Config, steps: seq<B.Step>, p: nat, id: int, kind: B.Type)
    requires Plain(cfg, steps) && p <= |steps| && Quiet(steps, p, id) && NoneDropped(cfg, steps, p, id)
    requires LastFor(ParkedAt(cfg, steps, p), id) == None && TokenIn(QueuedAt(cfg, steps, p), id, kind)
    ensures var i, q := LastFor(Entered(cfg, steps), id), LastFor(QueuedAt(cfg, steps, p), id);
            i.Some? && q.Some? && i.value.kind == q.value.kind
  {
    hide Entered, LastFor, Handed, B.Run;
    assert steps[..|steps|] == steps;
    PlainFront(cfg, steps, p);
    LastForIs(QueuedAt(cfg, steps, p), id);
    ParkedStays(cfg, steps, p, |steps|, id);
    NoneFollowed(cfg, steps, p, |steps|, id);
    LastInLastOut(cfg, steps[..p], id);
  }

  lemma ParkedFollows(cfg: B.Config, steps: seq<B.Step>, p: nat, id: int)
    requires Plain(cfg, steps) && p <= |steps| && Quiet(steps, p, id) && NoneDropped(cfg, steps, p, id)
    requires LastFor(ParkedAt(cfg, steps, p), id).Some? && Drained(cfg, steps)
    ensures !NoneFollows(cfg, steps, p, |steps|, id)
  {
    DrainedAtEnd(cfg, steps);
    LastForNothing(id);
    hide LastFor, B.Run;
    ParkedStays(cfg, steps, p, |steps|, id);
  }

  lemma LastForNothing(id: int)
    ensures LastFor([], id) == None
  {
  }

  lemma TokenHere(es: seq<B.Event>, e: B.Event, id: int)
    requires e in es && e.id == Some(id)
    ensures TokenIn(es, id, e.kind)
  {
  }

  lemma PendingHasToken(cfg: B.Config, steps: seq<B.Step>, id: int)
    requires !B.Run(cfg, steps).closed && id in B.Run(cfg, steps).latest
    ensures TokenIn(B.Run(cfg, steps).queue, id, B.Updated) || TokenIn(B.Run(cfg, steps).waiting, id, B.Updated)
  {
    B.RunInv(cfg, steps, id);
    TokensShow(B.Run(cfg, steps).queue, id);
    TokensShow(B.Run(cfg, steps).waiting, id);
    hide B.Run, B.Count;
  }

  /** A published event is queued or parked, or a pending update stands for it. */
  lemma PublishedGoes(cfg: B.Config, steps: seq<B.Step>, k: nat, id: int)
    requires Plain(cfg, steps) && k < |steps| && steps[k].Publish? && steps[k].e.id == Some(id)
    ensures TokenIn(QueuedAt(cfg, steps, k + 1), id, steps[k].e.kind)
            || TokenIn(ParkedAt(cfg, steps, k + 1), id, steps[k].e.kind)
  {
    PlainFront(cfg, steps, k);
    HandedInOrder(cfg, steps[..k]);
    Onward(cfg, steps, k);
    var s, s', e := B.Run(cfg, steps[..k]), B.Run(cfg, steps[..k + 1]), steps[k].e;
    Enqueued(cfg, s, e);
    hide B.Run, B.Enqueue, B.Full, TokenIn, Entered, Published, EntersAt;
    if e in s'.queue {
      TokenHere(s'.queue, e, id);
    } else if e in s'.waiting {
      TokenHere(s'.waiting, e, id);
    } else {
      PendingHasToken(cfg, steps[..k + 1], id);
    }
  }

  /** There is such a moment, if no task of the row is cancelled after the last
      event about it. */
  lemma TokenGetsIn(cfg: B.Config, steps: seq<B.Step>, k: nat, id: int) returns (p: nat)
    requires Plain(cfg, steps) && Drained(cfg, steps)
    requires k < |steps| && steps[k].Publish? && steps[k].e.id == Some(id) && NoneDropped(cfg, steps, k + 1, id)
    ensures k < p <= |steps| && TokenIn(QueuedAt(cfg, steps, p), id, steps[k].e.kind)
  {
    hide *;
    PublishedGoes(cfg, steps, k, id);
    if TokenIn(QueuedAt(cfg, steps, k + 1), id, steps[k].e.kind) {
      p := k + 1;
    } else {
      p := ParkedKindGetsIn(cfg, steps, k + 1, id, steps[k].e.kind);
    }
  }

  lemma ParkedKindGetsIn(cfg: B.Config, steps: seq<B.Step>, m: nat, id: int, kind: B.Type) returns (p: nat)
    requires Plain(cfg, steps) && Drained(cfg, steps) && m <= |steps| && NoneDropped(cfg, steps, m, id)
    requires TokenIn(ParkedAt(cfg, steps, m), id, kind)
    ensures m < p <= |steps| && TokenIn(QueuedAt(cfg, steps, p), id, kind)
  {
    hide B.Run, Plain, Drained, NoneDropped, QueuedAt, ParkedAt, EntersAt;
    var e :| e in ParkedAt(cfg, steps, m) && e.id == Some(id) && e.kind == kind;
    hide TokenIn;
    var j := ParkedGetsIn(cfg, steps, m, e, id);
    p := j + 1;
  }

  lemma EnteredIsQueued(cfg: B.Config, steps: seq<B.Step>, m: nat)
    requires Plain(cfg, steps) && m < |steps| && EntersAt(cfg, steps, m).Some?
    ensures QueuedAt(cfg, steps, m + 1) == QueuedAt(cfg, steps, m) + [EntersAt(cfg, steps, m).value]
    ensures Entered(cfg, steps[..m + 1]) == Entered(cfg, steps[..m]) + [EntersAt(cfg, steps, m).value]
  {
    PlainFront(cfg, steps, m);
    HandedInOrder(cfg, steps[..m]);
    Onward(cfg, steps, m);
    Stepped(cfg, B.Run(cfg, steps[..m]), steps[m]);
    hide B.Run, B.Next, Entered, Published;
  }

  lemma ParkedRemains(cfg: B.Config, steps: seq<B.Step>, m: nat, e: B.Event)
    requires Plain(cfg, steps) && m < |steps| && e in ParkedAt(cfg, steps, m)
    requires EntersAt(cfg, steps, m) != Some(e) && DropsAt(cfg, steps, m) != Some(e)
    ensures e in ParkedAt(cfg, steps, m + 1)
  {
    PlainFront(cfg, steps, m);
    HandedInOrder(cfg, steps[..m]);
    Onward(cfg, steps, m);
    hide B.Run, B.Next, Entered, Published;
    var s := B.Run(cfg, steps[..m]);
    Stepped(cfg, s, steps[m]);
    if (steps[m].Resume? || steps[m].Cancel?) && steps[m].i < |s.waiting| {
      WithoutKeeps(s.waiting, steps[m].i, e);
    }
  }

  lemma WithoutKeeps(es: seq<B.Event>, i: nat, e: B.Event)
    requires i < |es| && e in es
    ensures e == es[i] || e in B.Without(es, i)
  {
    assert es == es[..i] + [es[i]] + es[i + 1..];
  }

  lemma DrainedAtEnd(cfg: B.Config, steps: seq<B.Step>)
    requires Drained(cfg, steps)
    ensures QueuedAt(cfg, steps, |steps|) == [] && ParkedAt(cfg, steps, |steps|) == []
  {
    assert steps[..|steps|] == steps;
  }

  /** A parked event enters sooner or later, or its task is cancelled. */
  lemma {:induction false} ParkedGetsIn(cfg: B.Config, steps: seq<B.Step>, m: nat, e: B.Event, id: int)
    returns (j: nat)
    requires Plain(cfg, steps) && Drained(cfg, steps) && m <= |steps| && NoneDropped(cfg, steps, m, id)
    requires e in ParkedAt(cfg, steps, m) && e.id == Some(id)
    ensures m <= j < |steps| && EntersAt(cfg, steps, j) == Some(e)
    ensures TokenIn(QueuedAt(cfg, steps, j + 1), id, e.kind)
    decreases |steps| - m
  {
    hide B.Run, EntersAt, Plain, Drained, QueuedAt, ParkedAt, DropsAt, TokenIn;
    DrainedAtEnd(cfg, steps);
    if m < |steps| {
      if EntersAt(cfg, steps, m) == Some(e) {
        j := m;
        EnteredIsQueued(cfg, steps, m);
        TokenHere(QueuedAt(cfg, steps, m + 1), e, id);
      } else {
        ParkedRemains(cfg, steps, m, e);
        j := ParkedGetsIn(cfg, steps, m + 1, e, id);
      }
    }
  }

  lemma {:induction false} PublishedStays(steps: seq<B.Step>, p: nat, m: nat, x: B.Event)
    requires p <= m <= |steps| && x in Published(steps[..p])
    ensures x in Published(steps[..m])
    decreases m
  {
    if p < m {
      PublishedStays(steps, p, m - 1, x);
      assert steps[..m][..m - 1] == steps[..m - 1];
    }
  }

  lemma EnteredComesOut(cfg: B.Config, steps: seq<B.Step>, j: nat, id: int)
    requires Plain(cfg, steps) && Drained(cfg, steps) && j < |steps|
    requires EntersAt(cfg, steps, j).Some? && EntersAt(cfg, steps, j).value.id == Some(id)
    ensures LastFor(Entered(cfg, steps), id).Some? && LastFor(Handed(cfg, steps), id).Some?
  {
    SomethingEntered(cfg, steps, j, |steps|, id);
    assert steps[..|steps|] == steps;
    DrainedLast(cfg, steps, id);
  }

  lemma {:induction false} EnteredStays(cfg: B.Config, steps: seq<B.Step>, p: nat, m: nat, x: B.Event)
    requires p <= m <= |steps| && x in Entered(cfg, steps[..p])
    ensures x in Entered(cfg, steps[..m])
    decreases m
  {
    hide B.Run, Entering, Entered, EntersAt, B.Next, Published;
    if p < m {
      EnteredStays(cfg, steps, p, m - 1, x);
      Onward(cfg, steps, m - 1);
    }
  }

  lemma EntersTwice(cfg: B.Config, steps: seq<B.Step>, i: nat, j: nat, x: B.Event)
    requires Plain(cfg, steps) && i < j < |steps|
    requires EntersAt(cfg, steps, i) == EntersAt(cfg, steps, j) == Some(x)
    ensures x in Published(steps[..j + 1]) && multiset(Published(steps[..j + 1]))[x] > 1
  {
    hide *;
    EnteredIsQueued(cfg, steps, i);
    EnteredIsQueued(cfg, steps, j);
    EnteredStays(cfg, steps, i + 1, j, x);
    PlainFront(cfg, steps, j + 1);
    EnteredWasPublished(cfg, steps[..j + 1]);
    Occurs(Entered(cfg, steps[..j]), [x], Published(steps[..j + 1]), x, x);
  }

  lemma PublishedNamed(cfg: B.Config, steps: seq<B.Step>, x: B.Event)
    requires Plain(cfg, steps) && x in Published(steps)
    ensures x.id.Some?
  {
    WasPublished(steps, x);
  }

  lemma PublishedEnters(cfg: B.Config, steps: seq<B.Step>, k: nat)
    requires Plain(cfg, steps) && k < |steps| && steps[k].Publish? && !B.Keyed(steps[k].e)
    ensures EntersAt(cfg, steps, k) == Some(steps[k].e) || steps[k].e in ParkedAt(cfg, steps, k + 1)
  {
    PlainFront(cfg, steps, k);
    HandedInOrder(cfg, steps[..k]);
    Onward(cfg, steps, k);
    Enqueued(cfg, B.Run(cfg, steps[..k]), steps[k].e);
    hide B.Run, B.Enqueue, B.Full;
  }

  lemma LastEntersIff(cfg: B.Config, steps: seq<B.Step>, id: int, x: B.Event)
    requires Plain(cfg, steps) && x.id == Some(id)
    ensures LastFor(Entered(cfg, steps), id) == Some(x)
            <==> exists j: nat :: j < |steps| && EntersAt(cfg, steps, j) == Some(x)
                                  && NoneFollows(cfg, steps, j + 1, |steps|, id)
  {
    assert steps[..|steps|] == steps;
    hide B.Run, EntersAt, Plain, Entered, LastFor;
    if LastFor(Entered(cfg, steps), id) == Some(x) {
      var j := LastEnters(cfg, steps, |steps|, id);
    }
    if j: nat :| j < |steps| && EntersAt(cfg, steps, j) == Some(x) && NoneFollows(cfg, steps, j + 1, |steps|, id) {
      NoneFollowed(cfg, steps, j + 1, |steps|, id);
      EnteredPush(cfg, steps, j, id);
    }
  }

  // -------------------------------------------------- rows that keep their turn

  /** No event of the row enters the queue ahead of a parked one published before,
      and none is cancelled. */
  predicate KeepsTurn(cfg: B.Config, s: B.State, step: B.Step, id: int) {
    match step
    case Publish(e) => e.id == Some(id) && Entering(cfg, s, step).Some? ==> LastFor(s.waiting, id) == None
    case Resume(i) =>
        i < |s.waiting| && s.waiting[i].id == Some(id) && !B.Full(cfg, s.queue) ==> LastFor(s.waiting[..i], id) == None
    case Cancel(i) => i < |s.waiting| ==> s.waiting[i].id != Some(id)
    case _ => true
  }

  ghost predicate InTurn(cfg: B.Config, steps: seq<B.Step>, id: int) {
    forall i :: 0 <= i < |steps| ==> KeepsTurn(cfg, B.Run(cfg, steps[..i]), steps[i], id)
  }

  /** Entered or still parked, in the order of their turn. */
  function Line(cfg: B.Config, steps: seq<B.Step>): seq<B.Event> {
    Entered(cfg, steps) + B.Run(cfg, steps).waiting
  }

  lemma LineStep(cfg: B.Config, s: B.State, entered: seq<B.Event>, step: B.Step, id: int)
    requires cfg.types == None && !s.closed && !step.Close? && KeepsTurn(cfg, s, step, id)
    ensures var e := Entering(cfg, s, step);
            LastFor((if e.Some? then entered + [e.value] else entered) + B.Next(cfg, s, step).waiting, id)
            == if step.Publish? && step.e.id == Some(id) && !Coalesces(s, step.e) then Some(step.e)
               else LastFor(entered + s.waiting, id)
  {
    var e, w, w' := Entering(cfg, s, step), s.waiting, B.Next(cfg, s, step).waiting;
    Stepped(cfg, s, step);
    hide B.Next, LastFor, B.Full;
    LastForPlus(entered, w, id);
    LastForPlus(entered, w', id);
    if (step.Resume? || step.Cancel?) && step.i < |w| {
      LastForWithout(w, step.i, id);
    } else if step.Publish? {
      LastForPlus(w, [step.e], id);
      LastForOne(step.e, id);
    }
    if e.Some? {
      LastForPlus(entered, [e.value], id);
      LastForPlus(entered + [e.value], w', id);
      LastForOne(e.value, id);
    }
  }

  /** The last in line is of the kind published last, and nothing is lost. */
  predicate HoldsPlace(cfg: B.Config, steps: seq<B.Step>, id: int) {
    var x, i := LastFor(Published(steps), id), LastFor(Line(cfg, steps), id);
    && (x.Some? <==> i.Some?) && (x.Some? ==> i.value.kind == x.value.kind)
    && id !in B.Run(cfg, steps).lost
  }

  /** What receive will make of a token. */
  function Resolved(s: B.State, e: B.Event): B.Event {
    if Coalesces(s, e) then s.latest[e.id.value] else e
  }

  /** The last event of a row to come or, if none is to come, handed over. */
  function Upcoming(cfg: B.Config, steps: seq<B.Step>, id: int): Option<B.Event> {
    var s := B.Run(cfg, steps);
    match LastFor(s.queue + s.waiting, id)
    case Some(e) => Some(Resolved(s, e))
    case None => LastFor(Handed(cfg, steps), id)
  }

  lemma UpdateUpcoming(cfg: B.Config, steps: seq<B.Step>, id: int, e: B.Event)
    requires Plain(cfg, steps) && LastFor(B.Run(cfg, steps).queue + B.Run(cfg, steps).waiting, id) == Some(e)
    requires B.Keyed(e) && e.id == Some(id)
    requires LastFor(Published(steps), id).Some? && B.Keyed(LastFor(Published(steps), id).value)
    ensures Upcoming(cfg, steps, id) == LastFor(Published(steps), id)
  {
    var s := B.Run(cfg, steps);
    HandedInOrder(cfg, steps);
    B.RunInv(cfg, steps, id);
    NewestIs(cfg, steps, id);
    LastForIs(s.queue + s.waiting, id);
    TokensShow(s.queue, id);
    TokensShow(s.waiting, id);
    hide B.Run, B.Count, LastFor, Published, Handed;
    assert e in s.queue || e in s.waiting;
  }

  lemma InTurnFront(cfg: B.Config, steps: seq<B.Step>, n: nat, id: int)
    requires InTurn(cfg, steps, id) && n <= |steps|
    ensures InTurn(cfg, steps[..n], id)
  {
    hide KeepsTurn, B.Run;
    forall i | 0 <= i < n ensures KeepsTurn(cfg, B.Run(cfg, steps[..n][..i]), steps[..n][i], id) {
      assert steps[..n][..i] == steps[..i];
    }
  }

  lemma LinePush(cfg: B.Config, steps: seq<B.Step>, id: int)
    requires steps != [] && Plain(cfg, steps) && InTurn(cfg, steps, id)
    ensures var front, step := steps[..|steps| - 1], steps[|steps| - 1];
            && LastFor(Line(cfg, steps), id)
               == (if step.Publish? && step.e.id == Some(id) && !Coalesces(B.Run(cfg, front), step.e) then Some(step.e)
                   else LastFor(Line(cfg, front), id))
            && (id !in B.Run(cfg, front).lost ==> id !in B.Run(cfg, steps).lost)
  {
    var n := |steps| - 1;
    PlainFront(cfg, steps, n);
    HandedInOrder(cfg, steps[..n]);
    assert KeepsTurn(cfg, B.Run(cfg, steps[..n]), steps[n], id);
    LineStep(cfg, B.Run(cfg, steps[..n]), Entered(cfg, steps[..n]), steps[n], id);
    hide LastFor, Coalesces, Entering, B.Next;
    if id !in B.Run(cfg, steps[..n]).lost {
      StepLoses(cfg, B.Run(cfg, steps[..n]), steps[n], id);
    }
  }

  lemma {:induction false} LastPublished(steps: seq<B.Step>, id: int) returns (k: nat)
    requires LastFor(Published(steps), id).Some?
    ensures k < |steps| && steps[k].Publish? && LastFor(Published(steps), id) == Some(steps[k].e)
    ensures steps[k].e.id == Some(id)
  {
    var n := |steps| - 1;
    PublishedPush(steps, id);
    if steps[n].Publish? && steps[n].e.id == Some(id) {
      k := n;
    } else {
      k := LastPublished(steps[..n], id);
    }
  }

  lemma SomethingComesOut(cfg: B.Config, steps: seq<B.Step>, id: int)
    requires Plain(cfg, steps) && Drained(cfg, steps) && NoneDropped(cfg, steps, 0, id)
    requires LastFor(Published(steps), id).Some?
    ensures LastFor(Entered(cfg, steps), id).Some?
  {
    var k := LastPublished(steps, id);
    hide B.Run, LastFor, Published, Entered, EntersAt, DropsAt;
    var p := TokenGetsIn(cfg, steps, k, id);
    PlainFront(cfg, steps, p);
    LastForIs(QueuedAt(cfg, steps, p), id);
    LastInLastOut(cfg, steps[..p], id);
    var j := LastEnters(cfg, steps, p, id);
    LastForIs(Entered(cfg, steps[..p]), id);
    SomethingEntered(cfg, steps, j, |steps|, id);
    assert steps[..|steps|] == steps;
  }

  lemma NothingLost(cfg: B.Config, steps: seq<B.Step>, id: int)
    requires Plain(cfg, steps) && NoneDropped(cfg, steps, 0, id)
    ensures id !in B.Run(cfg, steps).lost
  {
    assert steps[..0] == [] && steps[..|steps|] == steps;
    NotLostLater(cfg, steps, 0, |steps|, id);
  }

  /** In line, and its last update not lost to a cancellation. */
  predicate Arrives(cfg: B.Config, steps: seq<B.Step>, id: int) {
    InLine(cfg, steps, id) && Spared(cfg, steps, id)
  }

  lemma {:induction false} UntoldBefore(steps: seq<B.Step>, j: nat, m: nat, id: int)
    requires j <= m <= |steps| && LastFor(Published(steps[..m]), id) == None
    ensures LastFor(Published(steps[..j]), id) == None
    decreases m
  {
    if j < m {
      PublishedPush(steps[..m], id);
      assert steps[..m][..m - 1] == steps[..m - 1];
      UntoldBefore(steps, j, m - 1, id);
    }
  }
}
