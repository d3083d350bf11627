// gpustack/gpu_instances/cluster_apis.py: create, upsert, patch and delete of
// one custom resource against an API server that other clients use at the same
// time. Every operation is a short program of server calls; any number of them
// interleave, call by call.
module CrdProtocol {
  import opened Text
  import opened Json

  datatype Scope = ClusterScoped | OrgNamespaced(ns: string) | SystemNamespaced(ns: string)

  datatype CRDSpec = CRDSpec(kind: string, group: string, version: string, scope: Scope)

  /** _namespace */
  function Namespace(crd: CRDSpec): Option<string> {
    match crd.scope
    case OrgNamespaced(n) => Some(n)
    case SystemNamespaced(n) => Some(n)
    case ClusterScoped => None
  }

  type Body = b: map<string, Value> | "metadata" in b && b["metadata"].Obj? && "spec" in b
    witness map["metadata" := Obj(map[]), "spec" := Null]

  /** _envelope */
  function Envelope(crd: CRDSpec, body: Body): Value {
    var metadata := body["metadata"].fields;
    var placed := match Namespace(crd) case Some(n) => metadata["namespace" := Str(n)] case None => metadata;
    Obj(body["apiVersion" := Str(crd.group + "/" + crd.version)]["kind" := Str(crd.kind)]["metadata" := Obj(placed)])
  }

  /** The caller's spec, every metadata field but the namespace and every other
      field survive; version and kind are the resource's, and the namespace is that
      of its scope, or the caller's for a cluster-wide resource. */
  lemma EnvelopeKeeps(crd: CRDSpec, body: Body, k: string)
    ensures var e := Envelope(crd, body);
            && e.Obj? && "spec" in e.fields && e.fields["spec"] == body["spec"]
            && "apiVersion" in e.fields && e.fields["apiVersion"] == Str(crd.group + "/" + crd.version)
            && "kind" in e.fields && e.fields["kind"] == Str(crd.kind)
            && (k !in {"apiVersion", "kind", "metadata"} ==>
                  (k in e.fields <==> k in body) && (k in body ==> e.fields[k] == body[k]))
            && "metadata" in e.fields && e.fields["metadata"].Obj?
            && var was, placed := body["metadata"].fields, e.fields["metadata"].fields;
               && (k != "namespace" || crd.scope.ClusterScoped? ==>
                     (k in placed <==> k in was) && (k in was ==> placed[k] == was[k]))
               && (crd.scope.OrgNamespaced? ==> "namespace" in placed && placed["namespace"] == Str(crd.scope.ns))
               && (crd.scope.SystemNamespaced? ==> "namespace" in placed && placed["namespace"] == Str(crd.scope.ns))
  {
  }

  /** PATCH of the spec alone. */
  function Patched(o: Value, spec: Value): Value {
    Merge(Some(o), Obj(map["spec" := spec]))
  }

  // -------------------------------------------------------------- the server

  /** log lists every state of the object under the one name in question, the
      current one last; None is absent. ns: the Org namespace exists. */
  datatype Server = Server(ns: bool, log: seq<Option<Value>>)

  predicate Ok(s: Server) {
    s.log != []
  }

  function Current(s: Server): Option<Value>
    requires Ok(s)
  {
    s.log[|s.log| - 1]
  }

  function Put(s: Server, o: Option<Value>): Server {
    s.(log := s.log + [o])
  }

  // -------------------------------------------------------------- the client

  datatype Op =
    | Create(body: Body, ignoreExisted: bool)
    | Upsert(up: Body)
    | PatchSpec(spec: Value)
    | Delete

  datatype Status = Conflict | NotFound

  datatype Result = Object(o: Value) | Absent | Existed(yes: bool) | Raised(status: Status)

  datatype Pc = Begin | ReadNs | MakeNs | Read | Post | ReadBack | Patch | Remove | Done(r: Result)

  /** begun: where the log stood when the call started; conflictAt: where it
      stood when the server answered 409; posted: this call created the object. */
  datatype Client = Client(op: Op, pc: Pc, begun: nat, conflictAt: nat, posted: bool)

  function Fresh(op: Op): Client {
    Client(op, Begin, 0, 0, false)
  }

  /** Calls that turn a 409 into a read-back. */
  predicate Tolerant(op: Op) {
    op.Upsert? || (op.Create? && op.ignoreExisted)
  }

  function AfterNamespace(op: Op): Pc {
    match op
    case Create(_, ignore) => if ignore then Read else Post
    case Upsert(_) => Patch
    case PatchSpec(_) => Patch
    case Delete => Remove
  }

  /** Only create and upsert make sure of a namespace, and only of the Org's. */
  function FirstCall(crd: CRDSpec, op: Op): Pc {
    if (op.Create? || op.Upsert?) && crd.scope.OrgNamespaced? then ReadNs else AfterNamespace(op)
  }

  function BodyOf(op: Op): Body
    requires op.Create? || op.Upsert?
  {
    if op.Create? then op.body else op.up
  }

  function SpecOf(op: Op): Value
    requires op.Upsert? || op.PatchSpec?
  {
    if op.Upsert? then op.up["spec"] else op.spec
  }

  predicate Sane(c: Client) {
    match c.pc
    case ReadNs => c.op.Create? || c.op.Upsert?
    case MakeNs => c.op.Create? || c.op.Upsert?
    case Read => Tolerant(c.op) && c.op.Create?
    case Post => c.op.Create? || c.op.Upsert?
    case ReadBack => Tolerant(c.op)
    case Patch => c.op.Upsert? || c.op.PatchSpec?
    case Remove => c.op.Delete?
    case _ => true
  }

  /** One server call of one client. */
  function Call(crd: CRDSpec, s: Server, c: Client): (Server, Client)
    requires Ok(s) && Sane(c)
  {
    var now := Current(s);
    match c.pc
    case Begin => (s, c.(pc := FirstCall(crd, c.op), begun := |s.log| - 1))
    case ReadNs => (s, c.(pc := if s.ns then AfterNamespace(c.op) else MakeNs))
    case MakeNs => (s.(ns := true), c.(pc := AfterNamespace(c.op)))
    case Read => (s, c.(pc := if now.Some? then Done(Object(now.value)) else Post))
    case Post =>
      if crd.scope.OrgNamespaced? && !s.ns then (s, c.(pc := Done(Raised(NotFound))))
      else if now.None? then
        var o := Envelope(crd, BodyOf(c.op));
        (Put(s, Some(o)), c.(pc := Done(Object(o)), posted := true))
      else if Tolerant(c.op) then (s, c.(pc := ReadBack, conflictAt := |s.log| - 1))
      else (s, c.(pc := Done(Raised(Conflict)), conflictAt := |s.log| - 1))
    case ReadBack => (s, c.(pc := Done(if now.Some? then Object(now.value) else Raised(Conflict))))
    case Patch =>
      if now.Some? then
        var o := Patched(now.value, SpecOf(c.op));
        (Put(s, Some(o)), c.(pc := Done(Object(o))))
      else (s, c.(pc := if c.op.Upsert? then Post else Done(Absent)))
    case Remove =>
      if now.Some? then (Put(s, None), c.(pc := Done(Existed(true)))) else (s, c.(pc := Done(Existed(false))))
    case Done(_) => (s, c)
  }

  // ---------------------------------------------------------------- the runs

  datatype State = State(server: Server, clients: map<int, Client>)

  /** A turn of one client, or the operator rewriting an object that exists. */
  datatype Turn = Act(id: int) | Touch(o: Value)

  predicate Valid(s: State) {
    Ok(s.server) && forall i :: i in s.clients ==> Sane(s.clients[i])
  }

  function Take(crd: CRDSpec, s: State, t: Turn): State
    requires Valid(s)
  {
    match t
    case Act(i) =>
      if i !in s.clients then s
      else
        var r := Call(crd, s.server, s.clients[i]);
        State(r.0, s.clients[i := r.1])
    case Touch(o) => if Current(s.server).Some? then s.(server := Put(s.server, Some(o))) else s
  }

  lemma TakeValid(crd: CRDSpec, s: State, t: Turn)
    requires Valid(s)
    ensures Valid(Take(crd, s, t)) && Take(crd, s, t).clients.Keys == s.clients.Keys
    ensures forall i :: i in s.clients ==> Take(crd, s, t).clients[i].op == s.clients[i].op
  {
    if t.Act? && t.id in s.clients {
      CallSane(crd, s.server, s.clients[t.id]);
      hide Call, Sane;
    } else {
      hide Call, Sane;
    }
  }

  lemma CallSane(crd: CRDSpec, s: Server, c: Client)
    requires Ok(s) && Sane(c)
    ensures var r := Call(crd, s, c); Ok(r.0) && Sane(r.1) && r.1.op == c.op
  {
    hide Patched, Envelope;
  }

  /** All clients have yet to begin. */
  predicate Start(s: State) {
    && Ok(s.server)
    && forall i :: i in s.clients ==> s.clients[i] == Fresh(s.clients[i].op)
  }

  function Run(crd: CRDSpec, s: State, turns: seq<Turn>): (r: State)
    requires Start(s)
    ensures Valid(r) && r.clients.Keys == s.clients.Keys
    ensures forall i :: i in s.clients ==> r.clients[i].op == s.clients[i].op
    decreases |turns|
  {
    if turns == [] then s
    else
      var before := Run(crd, s, turns[..|turns| - 1]);
      TakeValid(crd, before, turns[|turns| - 1]);
      Take(crd, before, turns[|turns| - 1])
  }

  // --------------------------------------------------------------- invariant

  /** The server held o at some moment since `from`. */
  ghost predicate Held(s: Server, from: nat, o: Value) {
    exists i :: from <= i < |s.log| && s.log[i] == Some(o)
  }

  /** The object was there at `at` and gone at some later moment. */
  ghost predicate Vanished(s: Server, at: nat) {
    at < |s.log| && s.log[at].Some? && exists i :: at < i < |s.log| && s.log[i].None?
  }

  /** The object was removed at some moment after `from`. */
  ghost predicate Removed(s: Server, from: nat) {
    exists i :: from < i < |s.log| && s.log[i].None? && s.log[i - 1].Some?
  }

  ghost predicate WasAbsent(s: Server, from: nat) {
    exists i :: from <= i < |s.log| && s.log[i].None?
  }

  /** o is what the spec, merged into the object held just before, gave. */
  ghost predicate MergedIn(s: Server, from: nat, spec: Value, o: Value) {
    exists i :: from < i < |s.log| && s.log[i] == Some(o) && s.log[i - 1].Some?
                && o == Merge(s.log[i - 1], Obj(map["spec" := spec]))
  }

  ghost predicate ClientInv(crd: CRDSpec, s: Server, c: Client) {
    && Sane(c)
    && (c.pc != Begin ==> c.begun < |s.log|)
    && (c.pc.ReadBack? ==> c.begun <= c.conflictAt < |s.log| && s.log[c.conflictAt].Some?)
    && (c.pc.Done? && (c.op.Create? || c.op.Upsert?) ==> c.pc.r.Object? || c.pc.r.Raised?)
    && (c.pc.Done? && c.pc.r.Object? ==> Held(s, c.begun, c.pc.r.o))
    && (c.pc.Done? && c.op.PatchSpec? ==>
          if c.pc.r.Object? then MergedIn(s, c.begun, c.op.spec, c.pc.r.o)
          else c.pc.r == Absent && WasAbsent(s, c.begun))
    && (c.pc.Done? && c.op.Delete? ==>
          c.pc.r.Existed? && if c.pc.r.yes then Removed(s, c.begun) else WasAbsent(s, c.begun))
    && (c.pc.Done? && c.pc.r == Raised(Conflict) ==>
          if Tolerant(c.op) then Vanished(s, c.conflictAt)
          else c.conflictAt < |s.log| && s.log[c.conflictAt].Some?)
    && ((c.op.Create? || c.op.Upsert?) && crd.scope.OrgNamespaced? && c.pc !in {Begin, ReadNs, MakeNs} ==>
          s.ns && c.pc != Done(Raised(NotFound)))
    && (!crd.scope.OrgNamespaced? ==> c.pc !in {ReadNs, MakeNs, Done(Raised(NotFound))})
  }

  ghost predicate Inv(crd: CRDSpec, s: State) {
    && Valid(s)
    && forall i :: i in s.clients ==> ClientInv(crd, s.server, s.clients[i])
  }

  /** The server only ever appends to its history and keeps its namespace. */
  predicate Extends(s: Server, s': Server) {
    s.log <= s'.log && (s.ns ==> s'.ns)
  }

  lemma AbsenceStays(s: Server, s': Server, from: nat)
    requires Extends(s, s')
    ensures Removed(s, from) ==> Removed(s', from)
    ensures WasAbsent(s, from) ==> WasAbsent(s', from)
  {
    if i :| from < i < |s.log| && s.log[i].None? && s.log[i - 1].Some? {
      assert s'.log[i].None? && s'.log[i - 1].Some?;
    }
    if i :| from <= i < |s.log| && s.log[i].None? {
      assert s'.log[i].None?;
    }
  }

  lemma MergeStays(s: Server, s': Server, from: nat, spec: Value, o: Value)
    requires Extends(s, s') && MergedIn(s, from, spec, o)
    ensures MergedIn(s', from, spec, o)
  {
    hide Merge;
    var i :| from < i < |s.log| && s.log[i] == Some(o) && s.log[i - 1].Some?
             && o == Merge(s.log[i - 1], Obj(map["spec" := spec]));
    assert s'.log[i] == Some(o) && s'.log[i - 1] == s.log[i - 1];
  }

  lemma ClientInvFrame(crd: CRDSpec, s: Server, s': Server, c: Client)
    requires ClientInv(crd, s, c) && Extends(s, s')
    ensures ClientInv(crd, s', c)
  {
    hide Merge;
    AbsenceStays(s, s', c.begun);
    if c.pc.Done? && c.op.PatchSpec? && c.pc.r.Object? {
      MergeStays(s, s', c.begun, c.op.spec, c.pc.r.o);
    }
    hide MergedIn, Removed, WasAbsent;
    if c.pc.Done? && c.pc.r.Object? {
      var i :| c.begun <= i < |s.log| && s.log[i] == Some(c.pc.r.o);
      assert s'.log[i] == s.log[i];
    }
    if c.pc.Done? && c.pc.r == Raised(Conflict) && Tolerant(c.op) {
      var i :| c.conflictAt < i < |s.log| && s.log[i].None?;
      assert s'.log[i] == s.log[i] && s'.log[c.conflictAt] == s.log[c.conflictAt];
    }
  }

  lemma CallKeeps(crd: CRDSpec, s: Server, c: Client)
    requires Ok(s) && ClientInv(crd, s, c)
    ensures var r := Call(crd, s, c); Extends(s, r.0) && ClientInv(crd, r.0, r.1)
  {
    var r := Call(crd, s, c);
    if r.1.pc.Done? && r.1.pc.r.Object? && !c.pc.Done? {
      assert r.0.log[|r.0.log| - 1] == Some(r.1.pc.r.o);
    }
    if Current(s).None? {
      assert s.log[|s.log| - 1].None?;
    } else if c.pc.Remove? || c.pc.Patch? {
      assert r.0.log[|s.log|] == Current(r.0) && r.0.log[|s.log| - 1] == Current(s);
    }
  }

  lemma {:induction false} RunInv(crd: CRDSpec, s: State, turns: seq<Turn>)
    requires Start(s)
    ensures Inv(crd, Run(crd, s, turns))
    decreases |turns|
  {
    if turns != [] {
      var before, t := Run(crd, s, turns[..|turns| - 1]), turns[|turns| - 1];
      RunInv(crd, s, turns[..|turns| - 1]);
      var after := Take(crd, before, t);
      if t.Act? && t.id in before.clients {
        CallKeeps(crd, before.server, before.clients[t.id]);
      }
      forall i | i in after.clients
        ensures ClientInv(crd, after.server, after.clients[i])
      {
        if !(t.Act? && t.id == i) {
          ClientInvFrame(crd, before.server, after.server, before.clients[i]);
        }
      }
    }
  }

  // ---------------------------------------------------------------- theorems

  /** Every object a finished call returns is a value the server held during
      that call, whoever else was writing or deleting. */
  lemma ReturnsWhatWasHeld(crd: CRDSpec, s: State, turns: seq<Turn>, i: int)
    requires Start(s) && i in s.clients
    ensures var c := Run(crd, s, turns).clients[i];
            c.pc.Done? && c.pc.r.Object? ==> Held(Run(crd, s, turns).server, c.begun, c.pc.r.o)
  {
    RunInv(crd, s, turns);
  }

  /** What one turn of a client does, told on the history alone. A turn that does
      not end the operation writes nothing. A delete answers true iff it appended
      one removal behind an object that was there, false iff there was none and it
      wrote nothing; a spec patch returns what its spec merged into the object held
      just before gave, and appended that, or None iff there was none; a create
      appends its envelope over nothing, or writes nothing and returns what is
      there; an upsert does as either; an error writes nothing. */
  lemma AnswerIsTrue(crd: CRDSpec, s: State, turns: seq<Turn>, i: int)
    requires Start(s) && i in s.clients && turns != [] && turns[|turns| - 1] == Act(i)
    ensures var op, front := s.clients[i].op, turns[..|turns| - 1];
            var was, now := Run(crd, s, front).server.log, Run(crd, s, turns).server.log;
            var begun, pc := Run(crd, s, front).clients[i].pc, Run(crd, s, turns).clients[i].pc;
            var held := was[|was| - 1];
            if begun.Done? || !pc.Done? then now == was
            else
              match pc.r
              case Existed(yes) => op.Delete? && yes == held.Some? && now == if yes then was + [None] else was
              case Absent => op.PatchSpec? && held.None? && now == was
              case Raised(_) => (op.Create? || op.Upsert?) && now == was
              case Object(o) =>
                  if now == was then (op.Create? || op.Upsert?) && held == Some(o)
                  else
                    && now == was + [Some(o)] && !op.Delete?
                    && if held.None? then (op.Create? || op.Upsert?) && o == Envelope(crd, BodyOf(op))
                       else (op.Upsert? || op.PatchSpec?) && o == Merge(held, Obj(map["spec" := SpecOf(op)]))
    ensures !Run(crd, s, turns[..|turns| - 1]).server.ns && Run(crd, s, turns).server.ns ==>
              crd.scope.OrgNamespaced? && (s.clients[i].op.Create? || s.clients[i].op.Upsert?)
  {
    var before := Run(crd, s, turns[..|turns| - 1]);
    TurnIsCall(crd, s, turns, i);
    CallAnswers(crd, before.server, before.clients[i]);
    hide Call, Merge, Envelope, ClientInv, Run, Start;
  }

  lemma TurnIsCall(crd: CRDSpec, s: State, turns: seq<Turn>, i: int)
    requires Start(s) && i in s.clients && turns != [] && turns[|turns| - 1] == Act(i)
    ensures var before, after := Run(crd, s, turns[..|turns| - 1]), Run(crd, s, turns);
            && ClientInv(crd, before.server, before.clients[i]) && Ok(before.server)
            && (after.server, after.clients[i]) == Call(crd, before.server, before.clients[i])
  {
    RunInv(crd, s, turns[..|turns| - 1]);
    hide Call, ClientInv;
  }

  lemma CallAnswers(crd: CRDSpec, s: Server, c: Client)
    requires ClientInv(crd, s, c) && Ok(s)
    ensures var r, held := Call(crd, s, c), Current(s);
            && (s.ns || !r.0.ns || (crd.scope.OrgNamespaced? && (c.op.Create? || c.op.Upsert?)))
            && if c.pc.Done? || !r.1.pc.Done? then r.0.log == s.log
               else
                 match r.1.pc.r
                 case Existed(yes) =>
                     c.op.Delete? && yes == held.Some? && r.0.log == if yes then s.log + [None] else s.log
                 case Absent => c.op.PatchSpec? && held.None? && r.0.log == s.log
                 case Raised(_) => (c.op.Create? || c.op.Upsert?) && r.0.log == s.log
                 case Object(o) =>
                     if r.0.log == s.log then (c.op.Create? || c.op.Upsert?) && held == Some(o)
                     else
                       && r.0.log == s.log + [Some(o)] && !c.op.Delete?
                       && if held.None? then (c.op.Create? || c.op.Upsert?) && o == Envelope(crd, BodyOf(c.op))
                          else (c.op.Upsert? || c.op.PatchSpec?) && o == Merge(held, Obj(map["spec" := SpecOf(c.op)]))
  {
    hide Merge, Envelope;
  }

  /** A 409 escapes from a tolerant create or an upsert only if the object, seen
      by the server at the 409, vanished before the call ended; and a namespaced
      create or upsert never fails for want of the Org namespace. */
  lemma ConflictOnlyIfVanished(crd: CRDSpec, s: State, turns: seq<Turn>, i: int)
    requires Start(s) && i in s.clients && Tolerant(s.clients[i].op)
    ensures var r := Run(crd, s, turns);
            var c := r.clients[i];
            && (c.pc == Done(Raised(Conflict)) ==> Vanished(r.server, c.conflictAt))
            && c.pc != Done(Raised(NotFound))
  {
    RunInv(crd, s, turns);
  }

  /** No call of a create ever changes or removes an object that exists: the
      only thing it writes is its own envelope, over nothing. */
  lemma CreateNeverModifies(crd: CRDSpec, s: Server, c: Client)
    requires Ok(s) && Sane(c) && c.op.Create?
    ensures var s' := Call(crd, s, c).0;
            || s'.log == s.log
            || (Current(s).None? && s'.log == s.log + [Some(Envelope(crd, c.op.body))])
  {
  }

  function FieldOf(o: Value, k: string): Option<Value> {
    if o.Obj? && k in o.fields then Some(o.fields[k]) else None
  }

  /** The race semantics of upsert. The call that ends it returns what the server
      holds at that moment: with its own spec merged in, or created with its own
      spec, or, after a 409, the concurrent writer's object with nothing of its
      own applied. */
  lemma UpsertEnds(crd: CRDSpec, s: Server, c: Client)
    requires Ok(s) && Sane(c) && c.op.Upsert? && !c.pc.Done? && Call(crd, s, c).1.pc.Done?
    ensures var r := Call(crd, s, c);
            var own := c.op.up["spec"];
            && r.1.pc.r.Object? ==>
                 && Current(r.0) == Some(r.1.pc.r.o)
                 && match c.pc
                    case Patch =>
                      && Current(s).Some?
                      && (own != Null ==>
                            FieldOf(r.1.pc.r.o, "spec") == Some(Merge(FieldOf(Current(s).value, "spec"), own)))
                    case Post => Current(s).None? && FieldOf(r.1.pc.r.o, "spec") == Some(own)
                    case ReadBack => r.0 == s
                    case _ => false
  {
    if c.pc.Patch? {
      var now := Current(s).value;
      var p := map["spec" := c.op.up["spec"]];
      MergeFields(if now.Obj? then now.fields else map[], p, "spec");
      assert Merge(Some(now), Obj(p)) == Merge(Some(Obj(if now.Obj? then now.fields else map[])), Obj(p));
    } else if c.pc.Post? {
      EnvelopeKeeps(crd, c.op.up, "spec");
    }
  }

  predicate NoDeleters(s: State) {
    forall i :: i in s.clients ==> !s.clients[i].op.Delete?
  }

  /** Once there, always there. */
  ghost predicate Grows(s: Server) {
    forall i, j :: 0 <= i <= j < |s.log| && s.log[i].Some? ==> s.log[j].Some?
  }

  ghost predicate SomeonePosted(clients: map<int, Client>) {
    exists i :: i in clients && clients[i].posted
  }

  /** Who created the object: nobody while it is absent, one client after. */
  ghost predicate OneCreator(s: State) {
    && Ok(s.server)
    && Grows(s.server)
    && (SomeonePosted(s.clients) <==> Current(s.server).Some?)
    && (forall i, j :: i in s.clients && j in s.clients && s.clients[i].posted && s.clients[j].posted ==> i == j)
  }

  /** What a call other than a delete can do to the history. */
  lemma CallEffect(crd: CRDSpec, s: Server, c: Client)
    requires Ok(s) && Sane(c) && !c.op.Delete?
    ensures var r := Call(crd, s, c);
            || (r.0.log == s.log && r.1.posted == c.posted)
            || (r.0.log == s.log + [r.0.log[|s.log|]] && r.0.log[|s.log|].Some? &&
                if Current(s).None? then r.1.posted else r.1.posted == c.posted)
  {
  }

  lemma CreatorStep(s: State, i: int, server: Server, c: Client)
    requires OneCreator(s) && i in s.clients
    requires || (server.log == s.server.log && c.posted == s.clients[i].posted)
             || (exists o :: server.log == s.server.log + [Some(o)] &&
                   if Current(s.server).None? then c.posted else c.posted == s.clients[i].posted)
    ensures OneCreator(State(server, s.clients[i := c]))
  {
    var after := s.clients[i := c];
    assert after[i] == c;
    if SomeonePosted(s.clients) {
      var j :| j in s.clients && s.clients[j].posted;
      assert after[j].posted;
    }
  }

  lemma {:induction false} WithoutDeleters(crd: CRDSpec, s: State, turns: seq<Turn>)
    requires Start(s) && NoDeleters(s) && s.server.log == [None]
    ensures OneCreator(Run(crd, s, turns))
    decreases |turns|
  {
    if turns != [] {
      WithoutDeleters(crd, s, turns[..|turns| - 1]);
      var before, t := Run(crd, s, turns[..|turns| - 1]), turns[|turns| - 1];
      if t.Act? && t.id in before.clients {
        var r := Call(crd, before.server, before.clients[t.id]);
        CallEffect(crd, before.server, before.clients[t.id]);
        if r.0.log != before.server.log {
          assert r.0.log == before.server.log + [Some(r.0.log[|before.server.log|].value)];
        }
        CreatorStep(before, t.id, r.0, r.1);
      }
    }
  }

  /** N creates and upserts racing on one absent name, nobody deleting: never
      more than one of them creates the object, no tolerant call raises, and as
      soon as any of them has finished exactly one has created it. */
  lemma ExactlyOneCreates(crd: CRDSpec, s: State, turns: seq<Turn>, k: int)
    requires Start(s) && NoDeleters(s) && s.server.log == [None]
    requires k in s.clients && (s.clients[k].op.Create? || s.clients[k].op.Upsert?)
    ensures var r := Run(crd, s, turns);
            && (forall i, j ::
                  i in r.clients && j in r.clients && r.clients[i].posted && r.clients[j].posted ==> i == j)
            && (Tolerant(s.clients[k].op) && r.clients[k].pc.Done? ==> !r.clients[k].pc.r.Raised?)
            && (r.clients[k].pc.Done? ==> exists i :: i in r.clients && r.clients[i].posted)
  {
    WithoutDeleters(crd, s, turns);
    RunInv(crd, s, turns);
    var r := Run(crd, s, turns);
    if r.clients[k].pc.Done? {
      FinishedMeansPresent(crd, r.server, r.clients[k]);
    }
  }

  lemma FinishedMeansPresent(crd: CRDSpec, s: Server, c: Client)
    requires Ok(s) && Grows(s) && ClientInv(crd, s, c) && c.pc.Done? && (c.op.Create? || c.op.Upsert?)
    ensures Tolerant(c.op) ==> !c.pc.r.Raised?
    ensures Current(s).Some?
  {
    assert c.pc.r != Raised(NotFound);
    var seen: nat;
    if c.pc.r.Object? {
      seen :| c.begun <= seen < |s.log| && s.log[seen] == Some(c.pc.r.o);
    } else {
      assert c.pc.r.status == Conflict && c.pc.r == Raised(Conflict);
      seen := c.conflictAt;
    }
    assert seen <= |s.log| - 1 && s.log[seen].Some?;
    assert s.log[|s.log| - 1].Some?;
  }

  function CallsLeft(pc: Pc): nat {
    match pc
    case Begin => 6
    case ReadNs => 5
    case MakeNs => 4
    case Read => 3
    case Patch => 3
    case Post => 2
    case ReadBack => 1
    case Remove => 1
    case Done(_) => 0
  }

  /** Every call gets closer to its end, so each operation is over after at most
      five server calls whatever the others do. */
  lemma CallsRunOut(crd: CRDSpec, s: Server, c: Client)
    requires Ok(s) && Sane(c) && !c.pc.Done?
    ensures CallsLeft(Call(crd, s, c).1.pc) < CallsLeft(c.pc)
  {
  }

  // ------------------------------------------------------ stop and start

  /** stop_instance and start_instance as spec patches. */
  function StopSpec(): Value {
    Obj(map["stop" := Bool(true)])
  }

  function StartSpec(spec: Option<map<string, Value>>): Value {
    Obj(match spec case Some(m) => m["stop" := Bool(false)] case None => map["stop" := Bool(false)])
  }

  function SpecFields(o: Value): map<string, Value> {
    if o.Obj? && "spec" in o.fields && o.fields["spec"].Obj? then o.fields["spec"].fields else map[]
  }

  /** Starting clears stop whatever the re-applied spec says about it; stopping
      sets it; a stop and a bare start leave every other field of the spec and
      everything outside the spec alone. */
  lemma StopThenStart(o: Value, spec: Option<map<string, Value>>, k: string)
    requires o.Obj?
    ensures var f := SpecFields(Patched(o, StopSpec())); "stop" in f && f["stop"] == Bool(true)
    ensures var f := SpecFields(Patched(o, StartSpec(spec))); "stop" in f && f["stop"] == Bool(false)
    ensures var before, after := SpecFields(o), SpecFields(Patched(Patched(o, StopSpec()), StartSpec(None)));
            k != "stop" ==> (k in after <==> k in before) && (k in before ==> after[k] == before[k])
    ensures var r := Patched(Patched(o, StopSpec()), StartSpec(None));
            r.Obj? && (k != "spec" ==>
                (k in r.fields <==> k in o.fields) && (k in o.fields ==> r.fields[k] == o.fields[k]))
  {
    PatchedSpec(o, StopSpec().fields, k);
    PatchedSpec(o, StopSpec().fields, "stop");
    PatchedSpec(o, StartSpec(spec).fields, "stop");
    var stopped := Patched(o, StopSpec());
    PatchedSpec(stopped, StartSpec(None).fields, k);
    PatchedSpec(stopped, StartSpec(None).fields, "stop");
  }

  /** What a spec patch does to one field, inside the spec and outside it. */
  lemma PatchedSpec(o: Value, patch: map<string, Value>, k: string)
    requires o.Obj?
    ensures var r := Patched(o, Obj(patch));
            var before, after := SpecFields(o), SpecFields(r);
            && r.Obj?
            && (k !in patch ==> (k in after <==> k in before) && (k in before ==> after[k] == before[k]))
            && (k in patch && patch[k].Bool? ==> k in after && after[k] == patch[k])
            && (k != "spec" ==> (k in r.fields <==> k in o.fields) && (k in o.fields ==> r.fields[k] == o.fields[k]))
  {
    var p := map["spec" := Obj(patch)];
    MergeFields(o.fields, p, "spec");
    MergeFields(o.fields, p, k);
    MergeFields(SpecFields(o), patch, k);
    var was := if "spec" in o.fields then Some(o.fields["spec"]) else None;
    assert Merge(was, Obj(patch)) == Merge(Some(Obj(SpecFields(o))), Obj(patch));
  }
}
