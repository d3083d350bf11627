// gpustack/cloud_providers/common.py and the provisioning steps of
// gpustack/server/controllers.py: a worker row is driven one commit at a time,
// each reconcile reading the row, talking to the provider and committing; the
// create call carries a key derived from the row as read, and the provider
// answers a repeated key with the lease it already made.
module Lease {
  import opened Text
  import D = Digest

  datatype Progress = PENDING | PROVISIONING | ERROR | OTHER

  /** The columns that matter. updatedAt is in microseconds of UTC. */
  datatype Worker = Worker(clusterId: Option<int>, id: int, name: string, updatedAt: Option<int>,
                           progress: Progress, sshKey: bool, externalId: Option<int>)

  /** int(updated_at.timestamp()) truncates toward zero; a missing stamp is 0. */
  function Attempt(w: Worker): int {
    match w.updatedAt
    case None => 0
    case Some(t) => if t >= 0 then t / 1000000 else -((-t) / 1000000)
  }

  function ClusterText(id: Option<int>): (s: string)
    ensures '/' !in s
  {
    match id case None => "None" case Some(n) => Decimal(n)
  }

  /** The hashed text <cluster>/<id>/<name>/<attempt>. */
  function Identity(w: Worker): string {
    ClusterText(w.clusterId) + "/" + (Decimal(w.id) + "/" + (w.name + "/" + Decimal(Attempt(w))))
  }

  /** creation_idempotency_key */
  function Key(sha: D.Sha, w: Worker): string {
    "gpustack-" + D.ToHex(sha(Identity(w)))[..32]
  }

  // ------------------------------------------------------------------ the key

  lemma ClusterTextInjective(a: Option<int>, b: Option<int>)
    ensures ClusterText(a) == ClusterText(b) <==> a == b
  {
    if a.Some? && b.Some? {
      DecimalInjective(a.value, b.value);
    } else if a.Some? {
      assert Decimal(a.value)[0] in Decimal(a.value);
    } else if b.Some? {
      assert Decimal(b.value)[0] in Decimal(b.value);
    }
  }

  /** A worker of no cluster is hashed under the text None. */
  lemma NoClusterText(w: Worker)
    requires w.clusterId.None? && w.updatedAt.None?
    ensures Identity(w) == "None/" + Decimal(w.id) + "/" + w.name + "/0"
  {
    assert Decimal(0) == "0";
    hide Decimal;
  }

  const SECOND := 1000000

  /** Two stamps in one whole second, told on the microseconds. Truncation toward
      zero makes the two seconds around zero one; a missing stamp is in that. */
  ghost predicate OneSecond(a: Option<int>, b: Option<int>) {
    match (a, b)
    case (None, None) => true
    case (None, Some(y)) => -SECOND < y < SECOND
    case (Some(x), None) => -SECOND < x < SECOND
    case (Some(x), Some(y)) =>
      || (-SECOND < x < SECOND && -SECOND < y < SECOND)
      || (exists n: nat :: Within(n, x, y, 1))
      || (exists n: nat :: Within(n, x, y, -1))
  }

  /** Both lie in the n-th second behind zero, or before it. */
  predicate Within(n: nat, x: int, y: int, sign: int) {
    n * SECOND <= sign * x < (n + 1) * SECOND && n * SECOND <= sign * y < (n + 1) * SECOND
  }

  lemma AttemptIsSecond(v: Worker, w: Worker)
    ensures Attempt(v) == Attempt(w) <==> OneSecond(v.updatedAt, w.updatedAt)
  {
    if v.updatedAt.Some? && w.updatedAt.Some? {
      var x, y := v.updatedAt.value, w.updatedAt.value;
      if Attempt(v) == Attempt(w) {
        var n: nat := if Attempt(v) < 0 then -Attempt(v) else Attempt(v);
        if x >= 0 && y >= 0 {
          assert Within(n, x, y, 1);
        } else if x <= 0 && y <= 0 {
          assert Within(n, x, y, -1);
        }
      }
    }
  }

  /** The identity determines cluster, id, name and the second of the last write,
      even when the name has slashes. */
  lemma IdentityInjective(v: Worker, w: Worker)
    ensures Identity(v) == Identity(w) <==>
            v.clusterId == w.clusterId && v.id == w.id && v.name == w.name && OneSecond(v.updatedAt, w.updatedAt)
  {
    AttemptIsSecond(v, w);
    if Identity(v) == Identity(w) {
      var tv, tw := v.name + "/" + Decimal(Attempt(v)), w.name + "/" + Decimal(Attempt(w));
      FieldsUnique(ClusterText(v.clusterId), ClusterText(w.clusterId), '/',
                       Decimal(v.id) + "/" + tv, Decimal(w.id) + "/" + tw);
      FieldsUnique(Decimal(v.id), Decimal(w.id), '/', tv, tw);
      LastFieldUnique(v.name, w.name, '/', Decimal(Attempt(v)), Decimal(Attempt(w)));
      ClusterTextInjective(v.clusterId, w.clusterId);
      DecimalInjective(v.id, w.id);
      DecimalInjective(Attempt(v), Attempt(w));
    }
  }

  /** The hash tells two identities apart after truncation. */
  predicate Apart(sha: D.Sha, v: Worker, w: Worker) {
    Identity(v) != Identity(w) ==> sha(Identity(v))[..16] != sha(Identity(w))[..16]
  }

  lemma {:induction false} HexPrefix(b: seq<D.byte>, n: nat)
    requires n <= |b|
    ensures D.ToHex(b)[..2 * n] == D.ToHex(b[..n])
  {
    if n > 0 {
      HexPrefix(b[1..], n - 1);
      assert b[..n][1..] == b[1..][..n - 1];
      assert D.ToHex(b)[2..][..2 * n - 2] == D.ToHex(b)[2..2 * n];
      assert D.ToHex(b)[2..] == D.ToHex(b[1..]);
      assert D.ToHex(b)[..2 * n] == D.ToHex(b)[..2] + D.ToHex(b)[2..2 * n];
    }
  }

  /** Two rows send one key exactly when they are the same worker, last written in
      the same second, as long as the hash tells their identities apart. */
  lemma KeysAgree(sha: D.Sha, v: Worker, w: Worker)
    requires Apart(sha, v, w)
    ensures Key(sha, v) == Key(sha, w) <==>
            v.clusterId == w.clusterId && v.id == w.id && v.name == w.name && OneSecond(v.updatedAt, w.updatedAt)
  {
    var a, b := sha(Identity(v)), sha(Identity(w));
    HexPrefix(a, 16);
    HexPrefix(b, 16);
    D.ToHexInjective(a[..16], b[..16]);
    IdentityInjective(v, w);
    if Key(sha, v) == Key(sha, w) {
      assert Key(sha, v)[9..] == D.ToHex(a)[..32];
      assert Key(sha, w)[9..] == D.ToHex(b)[..32];
    }
  }

  /** The law of the key. One worker sends one key within a second and another in
      any other second, told on the microseconds of its stamps. */
  lemma KeyPerSecond(sha: D.Sha, v: Worker, w: Worker)
    requires Apart(sha, v, w) && v.clusterId == w.clusterId && v.id == w.id && v.name == w.name
    ensures v.updatedAt.Some? && v.updatedAt.value >= 0 && w.updatedAt.Some? && w.updatedAt.value >= 0 ==>
              (Key(sha, v) == Key(sha, w) <==>
               exists n: int :: n * 1000000 <= v.updatedAt.value < (n + 1) * 1000000
                                && n * 1000000 <= w.updatedAt.value < (n + 1) * 1000000)
    ensures v.updatedAt.None? && w.updatedAt.Some? ==>
              (Key(sha, v) == Key(sha, w) <==> -1000000 < w.updatedAt.value < 1000000)
  {
    KeysAgree(sha, v, w);
    if v.updatedAt.Some? && w.updatedAt.Some? && v.updatedAt.value >= 0 && w.updatedAt.value >= 0 {
      var n := Attempt(v);
      assert n * 1000000 <= v.updatedAt.value < (n + 1) * 1000000;
    }
  }

  // --------------------------------------------------------------- provider

  /** One lease per key; a lease can die. */
  datatype Provider = Provider(leases: map<string, nat>, next: nat, dead: set<nat>)

  /** create_vm: a known key returns its lease, a new one makes a lease. */
  function CreateVm(p: Provider, key: string): (Provider, nat) {
    if key in p.leases then (p, p.leases[key])
    else (Provider(p.leases[key := p.next], p.next + 1, p.dead), p.next)
  }

  // -------------------------------------------------------------- controller

  /** A reconcile under way: it works on the row it read and, at the create step,
      has the provider's answer or not yet; dead is a lease that had ended. */
  datatype Pending = Reading(snap: Worker) | Called(snap: Worker, lease: nat, dead: bool)

  /** One controller handles one event at a time. */
  datatype State = State(row: Worker, pending: Option<Pending>, provider: Provider, now: int)

  /** Another component's write renames the worker or not, and may take it out of
      provisioning; nothing but the controller puts a row there. */
  datatype Event =
    | Read
    | Call
    | Commit
    | Fail
    | Kill
    | ForeignWrite(name: string, leaves: bool)
    | Passes(micros: nat)
    | Dies(lease: nat)

  predicate Driven(w: Worker) {
    w.progress == PENDING || w.progress == PROVISIONING
  }

  /** The row is at the step that creates the instance. */
  predicate AtCreate(w: Worker) {
    w.progress == PROVISIONING && w.sshKey && w.externalId.None?
  }

  /** Every write stamps the row and touches the columns it changes. */
  function Committed(s: State, row: Worker): State {
    s.(row := row.(updatedAt := Some(s.now)), pending := None)
  }

  /** What the step taken on the row as read writes into the row as it is. */
  function Advanced(row: Worker, snap: Worker): Worker {
    if snap.progress == PENDING then row.(progress := PROVISIONING)
    else if !snap.sshKey then row.(sshKey := true)
    else row
  }

  function Written(s: State, name: string, leaves: bool): Worker {
    s.row.(name := name, updatedAt := Some(s.now), progress := if leaves then OTHER else s.row.progress)
  }

  function Next(sha: D.Sha, s: State, e: Event): State {
    match e
    case Read => if s.pending.None? && Driven(s.row) then s.(pending := Some(Reading(s.row))) else s
    case Call =>
      if s.pending.Some? && s.pending.value.Reading? && AtCreate(s.pending.value.snap) then
        var snap := s.pending.value.snap;
        var call := CreateVm(s.provider, Key(sha, snap));
        s.(provider := call.0, pending := Some(Called(snap, call.1, call.1 in s.provider.dead)))
      else s
    case Commit =>
      if s.pending.None? then s
      else
        (match s.pending.value
         case Reading(snap) => if AtCreate(snap) then s else Committed(s, Advanced(s.row, snap))
         case Called(_, lease, dead) => if dead then s else Committed(s, s.row.(externalId := Some(lease))))
    case Fail => if s.pending.Some? then Committed(s, s.row.(progress := ERROR)) else s
    case Kill => s.(pending := None)
    case ForeignWrite(name, leaves) => s.(row := Written(s, name, leaves))
    case Passes(d) => s.(now := s.now + d)
    case Dies(l) => s.(provider := s.provider.(dead := s.provider.dead + {l}))
  }

  function Run(sha: D.Sha, s: State, events: seq<Event>): State {
    if events == [] then s
    else Next(sha, Run(sha, s, events[..|events| - 1]), events[|events| - 1])
  }

  predicate Fresh(s: State) {
    && s.row.progress == PENDING && !s.row.sshKey && s.row.externalId.None?
    && s.pending.None? && s.provider.leases == map[]
  }

  /** A create is about to go out, or has made a lease that the row does not know
      of. */
  predicate Exposed(s: State) {
    && AtCreate(s.row)
    && ((s.pending.Some? && AtCreate(s.pending.value.snap)) || s.provider.leases != map[])
  }

  /** Another component renames the row or writes it in another second while it
      is exposed, and leaves it to be driven on. */
  predicate Disturbs(s: State, e: Event) {
    && e.ForeignWrite? && !e.leaves && Exposed(s)
    && (e.name != s.row.name || Attempt(Written(s, e.name, false)) != Attempt(s.row))
  }

  /** The reconcile works on the row as it is, but for what others wrote. */
  predicate Follows(snap: Worker, row: Worker) {
    && Driven(snap) && snap.sshKey == row.sshKey && snap.externalId == row.externalId
    && (row.progress == snap.progress || row.progress == OTHER)
  }

  ghost predicate Inv(sha: D.Sha, s: State) {
    && |s.provider.leases| <= 1
    && (s.row.progress == PENDING ==> !s.row.sshKey)
    && (!s.row.sshKey ==> s.row.externalId.None? && s.provider.leases == map[])
    && (s.row.externalId.Some? ==> exists k :: s.provider.leases == map[k := s.row.externalId.value])
    && (AtCreate(s.row) ==> s.provider.leases.Keys <= {Key(sha, s.row)})
    && (s.pending.Some? ==>
          var snap := s.pending.value.snap;
          && Follows(snap, s.row)
          && (snap.progress == PENDING ==> !snap.sshKey)
          && (AtCreate(snap) ==>
                && s.provider.leases.Keys <= {Key(sha, snap)}
                && (AtCreate(s.row) ==> Key(sha, s.row) == Key(sha, snap))))
    && (s.pending.Some? && s.pending.value.Called? ==>
          var p := s.pending.value; AtCreate(p.snap) && s.provider.leases == map[Key(sha, p.snap) := p.lease])
  }

  lemma SameAttemptSameKey(sha: D.Sha, v: Worker, w: Worker)
    requires v.clusterId == w.clusterId && v.id == w.id && v.name == w.name && Attempt(v) == Attempt(w)
    ensures Key(sha, v) == Key(sha, w)
  {
    AttemptIsSecond(v, w);
    IdentityInjective(v, w);
  }

  lemma ForeignKeeps(sha: D.Sha, s: State, e: Event)
    requires Inv(sha, s) && e.ForeignWrite? && !Disturbs(s, e)
    ensures Inv(sha, Next(sha, s, e))
  {
    if !e.leaves && Exposed(s) {
      SameAttemptSameKey(sha, s.row, Written(s, e.name, false));
    }
  }

  lemma CallKeeps(sha: D.Sha, s: State)
    requires Inv(sha, s) && s.pending.Some? && s.pending.value.Reading? && AtCreate(s.pending.value.snap)
    ensures Inv(sha, Next(sha, s, Call))
  {
    var k := Key(sha, s.pending.value.snap);
    if k in s.provider.leases {
      assert s.provider.leases.Keys == {k};
      assert s.provider.leases == map[k := s.provider.leases[k]];
    } else {
      assert s.provider.leases.Keys == {};
      assert s.provider.leases == map[];
      assert Next(sha, s, Call).provider.leases == map[k := s.provider.next];
    }
  }

  lemma CommitKeeps(sha: D.Sha, s: State)
    requires Inv(sha, s)
    ensures Inv(sha, Next(sha, s, Commit))
  {
    var s' := Next(sha, s, Commit);
    if s.pending.Some? && s.pending.value.Called? && !s.pending.value.dead {
      assert s'.provider.leases == map[Key(sha, s.pending.value.snap) := s'.row.externalId.value];
    }
  }

  lemma NextKeeps(sha: D.Sha, s: State, e: Event)
    requires Inv(sha, s) && !Disturbs(s, e)
    ensures Inv(sha, Next(sha, s, e))
  {
    match e
    case Call =>
      if s.pending.Some? && s.pending.value.Reading? && AtCreate(s.pending.value.snap) {
        CallKeeps(sha, s);
      }
    case Commit => CommitKeeps(sha, s);
    case ForeignWrite(_, _) => ForeignKeeps(sha, s, e);
    case _ =>
  }

  /** No event of a run disturbs. */
  predicate Undisturbed(sha: D.Sha, s: State, events: seq<Event>) {
    forall i :: 0 <= i < |events| ==> !Disturbs(Run(sha, s, events[..i]), events[i])
  }

  lemma {:induction false} RunKeeps(sha: D.Sha, s: State, events: seq<Event>)
    requires Inv(sha, s) && Undisturbed(sha, s, events)
    ensures Inv(sha, Run(sha, s, events))
  {
    if events != [] {
      var n := |events| - 1;
      var front := events[..n];
      forall i | 0 <= i < n
        ensures !Disturbs(Run(sha, s, front[..i]), front[i])
      {
        assert front[..i] == events[..i];
      }
      RunKeeps(sha, s, front);
      NextKeeps(sha, Run(sha, s, front), events[n]);
    }
  }

  /** Over every run of reads, creates, commits, failures and crashes in between,
      and of writes by others that do not disturb, the provider holds at most one
      lease for the worker, and once the row names a lease it is that one. */
  lemma AtMostOneLease(sha: D.Sha, s: State, events: seq<Event>)
    requires Fresh(s) && Undisturbed(sha, s, events)
    ensures var r := Run(sha, s, events);
            && |r.provider.leases| <= 1
            && (r.row.externalId.Some? ==> r.provider.leases.Values == {r.row.externalId.value})
  {
    RunKeeps(sha, s, events);
    var r := Run(sha, s, events);
    if r.row.externalId.Some? {
      var k :| r.provider.leases == map[k := r.row.externalId.value];
      assert r.provider.leases[k] in r.provider.leases.Values;
    }
  }

  // ---------------------------------------------------------------- progress

  /** Only a write by another component, or the end of a reconcile under way,
      changes the row, and each change carries its moment. */
  lemma RowChanges(sha: D.Sha, s: State, e: Event)
    requires Next(sha, s, e).row != s.row
    ensures Next(sha, s, e).row.updatedAt == Some(s.now)
    ensures e.ForeignWrite? || (s.pending.Some? && (e.Commit? || e.Fail?))
  {
    hide Key;
  }

  /** Without a foreign write or a failure a fresh worker gets its lease in three
      reconciles, under the key of its second write. */
  lemma Provisions(sha: D.Sha, s: State, d1: nat, d2: nat)
    requires Fresh(s) && s.provider.next !in s.provider.dead
    ensures var ready := s.row.(progress := PROVISIONING, sshKey := true, updatedAt := Some(s.now + d1));
            var lease := s.provider.next;
            var r := Run(sha, s, [Read, Commit, Passes(d1), Read, Commit, Passes(d2), Read, Call, Commit]);
            && r.provider.leases == map[Key(sha, ready) := lease]
            && r.row == ready.(externalId := Some(lease), updatedAt := Some(s.now + d1 + d2))
            && r.pending.None?
  {
    hide Key, Run;
    Play(sha, s, [Read, Commit, Passes(d1)]);
    var a := Run(sha, s, [Read, Commit, Passes(d1)]);
    assert a.row == s.row.(progress := PROVISIONING, updatedAt := Some(s.now));
    Play(sha, a, [Read, Commit, Passes(d2)]);
    var b := Run(sha, a, [Read, Commit, Passes(d2)]);
    Play(sha, b, [Read, Call, Commit]);
    RunPlus(sha, s, [Read, Commit, Passes(d1)], [Read, Commit, Passes(d2)]);
    RunPlus(sha, s, [Read, Commit, Passes(d1)] + [Read, Commit, Passes(d2)], [Read, Call, Commit]);
    assert [Read, Commit, Passes(d1)] + [Read, Commit, Passes(d2)] + [Read, Call, Commit]
        == [Read, Commit, Passes(d1), Read, Commit, Passes(d2), Read, Call, Commit];
  }

  /** Three events, one after the other. */
  lemma Play(sha: D.Sha, s: State, three: seq<Event>)
    requires |three| == 3
    ensures Run(sha, s, three) == Next(sha, Next(sha, Next(sha, s, three[0]), three[1]), three[2])
  {
    hide Next;
    assert three == [] + [three[0]] + [three[1]] + [three[2]];
    RunPush(sha, s, [], three[0]);
    RunPush(sha, s, [] + [three[0]], three[1]);
    RunPush(sha, s, [] + [three[0]] + [three[1]], three[2]);
  }

  lemma {:induction false} RunPlus(sha: D.Sha, s: State, a: seq<Event>, b: seq<Event>)
    ensures Run(sha, s, a + b) == Run(sha, Run(sha, s, a), b)
    decreases |b|
  {
    if b == [] {
      assert a + b == a;
    } else {
      hide Next;
      RunPlus(sha, s, a, b[..|b| - 1]);
      RunPush(sha, s, a + b[..|b| - 1], b[|b| - 1]);
      assert a + b[..|b| - 1] + [b[|b| - 1]] == a + b;
    }
  }

  /** The lease that a create under the row's key is answered with. */
  function Due(sha: D.Sha, s: State): nat {
    var key := Key(sha, s.row);
    if key in s.provider.leases then s.provider.leases[key] else s.provider.next
  }

  lemma RetryAnswers(sha: D.Sha, s: State)
    requires Inv(sha, s) && AtCreate(s.row)
    ensures var r := Run(sha, s, RETRY);
            && r.row == s.row && r.now == s.now && r.provider.leases == map[Key(sha, s.row) := Due(sha, s)]
            && r.provider.dead == s.provider.dead
            && r.pending == Some(Called(s.row, Due(sha, s), Due(sha, s) in s.provider.dead))
  {
    Play(sha, s, RETRY);
    DueIsAnswer(sha, s);
    hide Key, Run, Inv, CreateVm, Due;
    var a := Next(sha, Next(sha, s, Kill), Read);
    assert a == s.(pending := Some(Reading(s.row)));
  }

  lemma DueIsAnswer(sha: D.Sha, s: State)
    requires Inv(sha, s) && AtCreate(s.row)
    ensures var key := Key(sha, s.row);
            var call := CreateVm(s.provider, key);
            call.1 == Due(sha, s) && call.0.leases == map[key := Due(sha, s)] && call.0.dead == s.provider.dead
  {
    var key := Key(sha, s.row);
    var leases := s.provider.leases;
    assert leases.Keys <= {key};
    hide Key, Inv;
    if key in leases {
      assert leases == map[key := leases[key]];
    } else {
      assert leases.Keys == {};
      assert leases == map[];
    }
  }

  /** A crash costs nothing. At whatever point of an undisturbed run the worker is
      still at the create step, the next reconcile records the lease there is, or
      makes the first one; only if that lease has ended it is stuck with it, and
      fails. */
  lemma CrashRecovers(sha: D.Sha, s: State, events: seq<Event>)
    requires Fresh(s) && Undisturbed(sha, s, events) && AtCreate(Run(sha, s, events).row)
    ensures var b := Run(sha, s, events);
            var r := Run(sha, b, RETRY);
            exists lease: nat ::
              && lease in (if b.provider.leases == map[] then {b.provider.next} else b.provider.leases.Values)
              && r.provider.leases == map[Key(sha, b.row) := lease] && r.row == b.row
              && if lease in b.provider.dead
                 then Next(sha, r, Commit) == r && Next(sha, r, Fail).row.progress == ERROR
                 else Next(sha, r, Commit).row == b.row.(externalId := Some(lease), updatedAt := Some(b.now))
  {
    var b := Run(sha, s, events);
    RunKeeps(sha, s, events);
    RetryAnswers(sha, b);
    DueIsHeld(sha, b);
    hide Run, Key, Inv, Due, Undisturbed, Fresh, AtCreate, CreateVm;
    var lease := Due(sha, b);
    assert Run(sha, b, RETRY).pending == Some(Called(b.row, lease, lease in b.provider.dead));
  }

  lemma DueIsHeld(sha: D.Sha, s: State)
    requires Inv(sha, s) && AtCreate(s.row)
    ensures Due(sha, s) in (if s.provider.leases == map[] then {s.provider.next} else s.provider.leases.Values)
  {
    var leases := s.provider.leases;
    assert leases.Keys <= {Key(sha, s.row)};
    if leases != map[] {
      var k :| k in leases;
      hide Key, Inv;
      assert leases[k] in leases.Values;
    }
  }

  /** The leases that have ended are those that were told to. */
  lemma {:induction false} EndedAre(sha: D.Sha, s: State, events: seq<Event>, lease: nat)
    ensures lease in Run(sha, s, events).provider.dead <==> lease in s.provider.dead || Dies(lease) in events
  {
    if events != [] {
      var n := |events| - 1;
      EndedAre(sha, s, events[..n], lease);
      assert events == events[..n] + [events[n]];
      hide Key;
    }
  }

  // ------------------------------------------------------- the exact condition

  /** From here on nobody else writes the row. */
  predicate Alone(events: seq<Event>) {
    forall e :: e in events ==> !e.ForeignWrite?
  }

  lemma AloneUndisturbed(sha: D.Sha, s: State, events: seq<Event>)
    requires Alone(events)
    ensures Undisturbed(sha, s, events)
  {
  }

  lemma RunPush(sha: D.Sha, s: State, events: seq<Event>, e: Event)
    ensures Run(sha, s, events + [e]) == Next(sha, Run(sha, s, events), e)
  {
    assert (events + [e])[..|events|] == events;
  }

  /** A crash, and the create goes out anew. */
  const RETRY: seq<Event> := [Kill, Read, Call]

  lemma RetryCalls(sha: D.Sha, s: State, events: seq<Event>)
    requires AtCreate(Run(sha, s, events).row)
    ensures var b := Run(sha, s, events);
            Run(sha, s, events + RETRY).provider == CreateVm(b.provider, Key(sha, b.row)).0
  {
    RunPush(sha, s, events, Kill);
    RunPush(sha, s, events + [Kill], Read);
    RunPush(sha, s, events + [Kill] + [Read], Call);
    assert events + [Kill] + [Read] + [Call] == events + RETRY;
  }

  lemma DisturbedRekeys(sha: D.Sha, s: State, e: Event)
    requires Disturbs(s, e) && Apart(sha, s.row, Written(s, e.name, e.leaves))
    ensures Key(sha, s.row) != Key(sha, Next(sha, s, e).row)
  {
    var w := Written(s, e.name, e.leaves);
    KeysAgree(sha, s.row, w);
    AttemptIsSecond(s.row, w);
    hide OneSecond, Attempt, Key, Exposed, Driven, Apart;
    assert Next(sha, s, e).row == w;
  }

  /** The reconcile under way, if it has to call still, makes its lease. */
  lemma LeaseUnderOldKey(sha: D.Sha, s: State, e: Event) returns (first: seq<Event>)
    requires Inv(sha, s) && Disturbs(s, e)
    ensures var s' := Next(sha, s, e);
            var b := Run(sha, s', first);
            Alone(first) && b.row == s'.row && b.provider.leases.Keys == {Key(sha, s.row)} && AtCreate(b.row)
  {
    hide Key, OneSecond, Attempt, Identity;
    var s' := Next(sha, s, e);
    assert Run(sha, s', []) == s';
    if s.provider.leases == map[] {
      first := [Call];
      RunPush(sha, s', [], Call);
      assert [] + [Call] == [Call];
    } else {
      first := [];
      var x :| x in s.provider.leases;
      assert x == Key(sha, s.row);
    }
  }

  /** After a disturbing write the crash of the server is enough for two leases. */
  lemma DisturbedDoubles(sha: D.Sha, s: State, e: Event) returns (more: seq<Event>)
    requires Inv(sha, s) && Disturbs(s, e) && Apart(sha, s.row, Written(s, e.name, e.leaves))
    ensures Alone(more) && |Run(sha, Next(sha, s, e), more).provider.leases| == 2
  {
    var s' := Next(sha, s, e);
    DisturbedRekeys(sha, s, e);
    var first := LeaseUnderOldKey(sha, s, e);
    hide Key, Run, Inv, Disturbs, Next, Apart, AtCreate;
    RetryCalls(sha, s', first);
    more := first + RETRY;
    var leases := Run(sha, s', more).provider.leases;
    assert leases.Keys == {Key(sha, s.row), Key(sha, s'.row)};
    assert |leases.Keys| == 2;
  }

  /** The condition is the right one: in every state a run without disturbance
      reaches, a write by another component leaves at most one lease possible,
      whatever the controller, the crashes and the provider do from then on, if
      and only if it does not disturb. */
  lemma SafeIffUndisturbed(sha: D.Sha, s: State, events: seq<Event>, e: Event)
    requires Fresh(s) && Undisturbed(sha, s, events) && e.ForeignWrite?
    requires var b := Run(sha, s, events); Apart(sha, b.row, Written(b, e.name, e.leaves))
    ensures var b := Run(sha, s, events);
            (forall more :: Alone(more) ==> |Run(sha, Next(sha, b, e), more).provider.leases| <= 1)
            <==> e.leaves || !Exposed(b) || (e.name == b.row.name && OneSecond(Some(b.now), b.row.updatedAt))
  {
    var b := Run(sha, s, events);
    RunKeeps(sha, s, events);
    AttemptIsSecond(Written(b, e.name, false), b.row);
    if Disturbs(b, e) {
      var more := DisturbedDoubles(sha, b, e);
      assert |Run(sha, Next(sha, b, e), more).provider.leases| == 2;
    } else {
      NextKeeps(sha, b, e);
      forall more | Alone(more)
        ensures |Run(sha, Next(sha, b, e), more).provider.leases| <= 1
      {
        AloneUndisturbed(sha, Next(sha, b, e), more);
        RunKeeps(sha, Next(sha, b, e), more);
      }
    }
  }
}
