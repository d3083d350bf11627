// gpustack/gpu_instances/cluster_apis.py in its own form: methods of a client
// that call a server step by step, with branches on 404 and 409. Before every
// server call other clients may do anything at all; what they do is an
// argument, so each contract holds for every interleaving. Each method is
// proved to be the run of one client of module CrdProtocol.
module ClusterOps {
  import opened Text
  import opened Json
  import opened CrdProtocol

  /** What others do to the server: write or remove the object, or create the
      namespace. */
  datatype Effect = Store(o: Option<Value>) | Provision

  function Apply(s: Server, effects: seq<Effect>): (r: Server)
    requires Ok(s)
    ensures Ok(r)
    decreases |effects|
  {
    if effects == [] then s
    else
      match effects[0]
      case Store(o) => Apply(Put(s, o), effects[1..])
      case Provision => Apply(s.(ns := true), effects[1..])
  }

  type Schedule = seq<seq<Effect>>

  function Head(others: Schedule): seq<Effect> {
    if others == [] then [] else others[0]
  }

  function Tail(others: Schedule): Schedule {
    if others == [] then [] else others[1..]
  }

  /** One client run to its end, the others acting before each of its calls. */
  function Play(crd: CRDSpec, s: Server, c: Client, others: Schedule): (Server, Client)
    requires Ok(s) && Sane(c)
    decreases CallsLeft(c.pc)
  {
    if c.pc.Done? then (s, c)
    else
      CallsRunOut(crd, s, c);
      CallsRunOut(crd, Apply(s, Head(others)), c);
      if c.pc.Begin? then
        var r := Call(crd, s, c);
        Play(crd, r.0, r.1, others)
      else
        var r := Call(crd, Apply(s, Head(others)), c);
        Play(crd, r.0, r.1, Tail(others))
  }

  class ApiServer {
    var ns: bool
    var log: seq<Option<Value>>

    predicate Valid()
      reads this
    {
      log != []
    }

    function View(): Server
      reads this
    {
      Server(ns, log)
    }

    constructor (ns: bool, initial: Option<Value>)
      ensures Valid() && View() == Server(ns, [initial])
    {
      this.ns, log := ns, [initial];
    }

    method Others(effects: seq<Effect>)
      requires Valid()
      modifies this
      ensures Valid() && View() == Apply(old(View()), effects)
    {
      var i := 0;
      while i < |effects|
        invariant 0 <= i <= |effects| && Valid()
        invariant Apply(View(), effects[i..]) == Apply(old(View()), effects)
      {
        match effects[i] {
          case Store(o) => log := log + [o];
          case Provision => ns := true;
        }
        i := i + 1;
      }
    }

    method CreateNamespace()
      requires Valid()
      modifies this
      ensures View() == old(View()).(ns := true)
    {
      ns := true;
    }

    method Get() returns (o: Option<Value>)
      requires Valid()
      ensures o == Current(View())
    {
      o := log[|log| - 1];
    }

    /** POST: 404 without the namespace, 409 over an existing object. */
    method Post(crd: CRDSpec, o: Value) returns (r: Result)
      requires Valid()
      modifies this
      ensures Valid()
      ensures if crd.scope.OrgNamespaced? && !old(ns) then r == Raised(NotFound) && View() == old(View())
              else if Current(old(View())).Some? then r == Raised(Conflict) && View() == old(View())
              else r == Object(o) && View() == Put(old(View()), Some(o))
    {
      if crd.scope.OrgNamespaced? && !ns {
        return Raised(NotFound);
      }
      if log[|log| - 1].Some? {
        return Raised(Conflict);
      }
      log := log + [Some(o)];
      r := Object(o);
    }

    /** PATCH of the spec: 404 without the object. */
    method PatchSpec(spec: Value) returns (r: Result)
      requires Valid()
      modifies this
      ensures Valid()
      ensures match Current(old(View()))
              case None => r == Raised(NotFound) && View() == old(View())
              case Some(o) => r == Object(Patched(o, spec)) && View() == Put(old(View()), Some(Patched(o, spec)))
    {
      var now := log[|log| - 1];
      if now.None? {
        return Raised(NotFound);
      }
      log := log + [Some(Patched(now.value, spec))];
      r := Object(Patched(now.value, spec));
    }

    method Delete() returns (existed: bool)
      requires Valid()
      modifies this
      ensures Valid() && existed == Current(old(View())).Some?
      ensures View() == if existed then Put(old(View()), None) else old(View())
    {
      existed := log[|log| - 1].Some?;
      if existed {
        log := log + [None];
      }
    }
  }

  /** ensure_org_namespace, which is create_namespace with ignore_existed. rest
      is what the others do afterwards, c where the client stands. */
  method EnsureOrgNamespace(crd: CRDSpec, server: ApiServer, others: Schedule, ghost c: Client)
    returns (rest: Schedule, ghost d: Client)
    requires server.Valid() && Sane(c) && c.pc == ReadNs
    modifies server
    ensures server.Valid() && d == c.(pc := AfterNamespace(c.op))
    ensures Play(crd, server.View(), d, rest) == Play(crd, old(server.View()), c, others)
    ensures server.ns
    ensures others == [] ==> rest == [] && server.log == old(server.log)
  {
    server.Others(Head(others));
    rest := Tail(others);
    d := Call(crd, server.View(), c).1;
    assert Play(crd, server.View(), d, rest) == Play(crd, old(server.View()), c, others);
    if !server.ns {
      server.Others(Head(rest));
      server.CreateNamespace();
      d := d.(pc := AfterNamespace(d.op));
      rest := Tail(rest);
    }
  }

  /** _create */
  method CreateObject(crd: CRDSpec, server: ApiServer, body: Body, ignoreExisted: bool, others: Schedule)
    returns (r: Result)
    requires server.Valid()
    modifies server
    ensures server.Valid()
    ensures var run := Play(crd, old(server.View()), Fresh(Create(body, ignoreExisted)), others);
            run.0 == server.View() && run.1.pc == Done(r)
  {
    var rest := others;
    ghost var goal := Play(crd, server.View(), Fresh(Create(body, ignoreExisted)), others);
    ghost var c := Call(crd, server.View(), Fresh(Create(body, ignoreExisted))).1;
    if crd.scope.OrgNamespaced? {
      rest, c := EnsureOrgNamespace(crd, server, rest, c);
    }
    assert Play(crd, server.View(), c, rest) == goal;
    if ignoreExisted {
      assert c.pc == Read;
      server.Others(Head(rest));
      var existing := server.Get();
      rest, c := Tail(rest), Call(crd, server.View(), c).1;
      assert Play(crd, server.View(), c, rest) == goal;
      if existing.Some? {
        return Object(existing.value);
      }
    }
    assert c.pc == Post && c.op == Create(body, ignoreExisted);
    server.Others(Head(rest));
    ghost var at := server.View();
    r := server.Post(crd, Envelope(crd, body));
    rest, c := Tail(rest), Call(crd, at, c).1;
    assert Play(crd, server.View(), c, rest) == goal;
    if r == Raised(Conflict) && ignoreExisted {
      assert c.pc == ReadBack;
      server.Others(Head(rest));
      var existing := server.Get();
      rest, c := Tail(rest), Call(crd, server.View(), c).1;
      assert Play(crd, server.View(), c, rest) == goal;
      if existing.Some? {
        r := Object(existing.value);
      }
    }
  }

  /** _upsert */
  method UpsertObject(crd: CRDSpec, server: ApiServer, body: Body, others: Schedule)
    returns (r: Result)
    requires server.Valid()
    modifies server
    ensures server.Valid()
    ensures var run := Play(crd, old(server.View()), Fresh(Upsert(body)), others);
            run.0 == server.View() && run.1.pc == Done(r)
  {
    var rest := others;
    ghost var goal := Play(crd, server.View(), Fresh(Upsert(body)), others);
    ghost var c := Call(crd, server.View(), Fresh(Upsert(body))).1;
    if crd.scope.OrgNamespaced? {
      rest, c := EnsureOrgNamespace(crd, server, rest, c);
    }
    assert Play(crd, server.View(), c, rest) == goal;
    assert c.pc == Patch && c.op == Upsert(body);
    server.Others(Head(rest));
    ghost var at := server.View();
    r := server.PatchSpec(body["spec"]);
    rest, c := Tail(rest), Call(crd, at, c).1;
    assert Play(crd, server.View(), c, rest) == goal;
    if r != Raised(NotFound) {
      return;
    }
    assert c.pc == Post;
    server.Others(Head(rest));
    at := server.View();
    r := server.Post(crd, Envelope(crd, body));
    rest, c := Tail(rest), Call(crd, at, c).1;
    assert Play(crd, server.View(), c, rest) == goal;
    if r == Raised(Conflict) {
      assert c.pc == ReadBack;
      server.Others(Head(rest));
      var existing := server.Get();
      rest, c := Tail(rest), Call(crd, server.View(), c).1;
      assert Play(crd, server.View(), c, rest) == goal;
      if existing.Some? {
        r := Object(existing.value);
      }
    }
  }

  /** _patch_spec: None when the object is absent. */
  method PatchObject(crd: CRDSpec, server: ApiServer, spec: Value, others: Schedule)
    returns (r: Option<Value>)
    requires server.Valid()
    modifies server
    ensures server.Valid()
    ensures var run := Play(crd, old(server.View()), Fresh(Op.PatchSpec(spec)), others);
            run.0 == server.View() && run.1.pc == Done(if r.Some? then Object(r.value) else Absent)
    ensures others == [] ==>
              var was := old(server.log);
              match was[|was| - 1]
              case None => r == None && server.log == was && server.ns == old(server.ns)
              case Some(held) =>
                var o := Merge(Some(held), Obj(map["spec" := spec]));
                r == Some(o) && server.log == was + [Some(o)] && server.ns == old(server.ns)
  {
    ghost var goal := Play(crd, server.View(), Fresh(Op.PatchSpec(spec)), others);
    ghost var c := Call(crd, server.View(), Fresh(Op.PatchSpec(spec))).1;
    assert c.pc == Patch && Play(crd, server.View(), c, others) == goal;
    server.Others(Head(others));
    ghost var at := server.View();
    var answer := server.PatchSpec(spec);
    c := Call(crd, at, c).1;
    assert Play(crd, server.View(), c, Tail(others)) == goal;
    r := if answer.Object? then Some(answer.o) else None;
  }

  /** _delete: whether the object existed. */
  method DeleteObject(crd: CRDSpec, server: ApiServer, others: Schedule)
    returns (existed: bool)
    requires server.Valid()
    modifies server
    ensures server.Valid()
    ensures var run := Play(crd, old(server.View()), Fresh(Op.Delete), others);
            run.0 == server.View() && run.1.pc == Done(Existed(existed))
    ensures server.log[|server.log| - 1] == None
    ensures existed ==> |server.log| > |old(server.log)| && server.log[|server.log| - 2].Some?
    ensures !existed ==> server.View() == Apply(old(server.View()), Head(others))
    ensures others == [] ==>
              var was := old(server.log);
              && existed == was[|was| - 1].Some? && server.ns == old(server.ns)
              && server.log == if existed then was + [None] else was
  {
    ApplyExtends(server.View(), Head(others));
    ghost var c := Call(crd, server.View(), Fresh(Op.Delete)).1;
    assert c.pc == Remove;
    server.Others(Head(others));
    existed := server.Delete();
  }

  // ---------------------------------------------------------------- theorems

  lemma {:induction false} ApplyExtends(s: Server, effects: seq<Effect>)
    requires Ok(s)
    ensures Extends(s, Apply(s, effects))
    decreases |effects|
  {
    if effects != [] {
      match effects[0]
      case Store(o) => ApplyExtends(Put(s, o), effects[1..]);
      case Provision => ApplyExtends(s.(ns := true), effects[1..]);
    }
  }

  /** One operation under arbitrary interference keeps what module CrdProtocol
      proves of whole systems: what it returns was held by the server during the
      call, and a 409 escapes a tolerant one only if the object vanished. */
  lemma {:induction false} PlayKeeps(crd: CRDSpec, s: Server, c: Client, others: Schedule)
    requires Ok(s) && ClientInv(crd, s, c)
    ensures var r := Play(crd, s, c, others);
            Extends(s, r.0) && ClientInv(crd, r.0, r.1) && r.1.pc.Done? && r.1.op == c.op
    decreases CallsLeft(c.pc)
  {
    if !c.pc.Done? {
      var s1 := if c.pc.Begin? then s else Apply(s, Head(others));
      ApplyExtends(s, Head(others));
      ClientInvFrame(crd, s, s1, c);
      CallsRunOut(crd, s1, c);
      CallKeeps(crd, s1, c);
      var r := Call(crd, s1, c);
      PlayKeeps(crd, r.0, r.1, if c.pc.Begin? then others else Tail(others));
    }
  }

  lemma PlayCall(crd: CRDSpec, s: Server, c: Client)
    requires Ok(s) && Sane(c) && !c.pc.Done?
    ensures var r := Call(crd, s, c); Ok(r.0) && Sane(r.1) && Play(crd, s, c, []) == Play(crd, r.0, r.1, [])
  {
    CallSane(crd, s, c);
  }

  lemma PlayDone(crd: CRDSpec, s: Server, c: Client)
    requires Ok(s) && Sane(c) && c.pc.Done?
    ensures Play(crd, s, c, []) == (s, c)
  {
  }

  /** Making sure of the namespace, with nobody in between. */
  lemma NamespaceAlone(crd: CRDSpec, s: Server, op: Op)
    requires Ok(s) && (op.Create? || op.Upsert?)
    ensures var begun := Client(op, AfterNamespace(op), |s.log| - 1, 0, false);
            var ready := s.(ns := s.ns || crd.scope.OrgNamespaced?);
            Sane(begun) && Play(crd, s, Fresh(op), []) == Play(crd, ready, begun, [])
  {
    hide Play;
    PlayCall(crd, s, Fresh(op));
    var c := Call(crd, s, Fresh(op)).1;
    if c.pc == ReadNs {
      PlayCall(crd, s, c);
      var d := Call(crd, s, c).1;
      if d.pc == MakeNs {
        PlayCall(crd, s, d);
      }
    }
  }

  /** What a create does with nobody in between, told on the history: it appends and
      returns its envelope if there is no object; else it writes nothing and returns
      what is there, or the 409, as asked. The Org namespace is there afterwards. */
  lemma CreateAlone(crd: CRDSpec, s: Server, body: Body, ignore: bool)
    requires Ok(s)
    ensures var r, held, o := Play(crd, s, Fresh(Create(body, ignore)), []), s.log[|s.log| - 1], Envelope(crd, body);
            && r.0.ns == (s.ns || crd.scope.OrgNamespaced?)
            && if held.None? then r.1.pc == Done(Object(o)) && r.0.log == s.log + [Some(o)]
               else r.0.log == s.log && r.1.pc == Done(if ignore then Object(held.value) else Raised(Conflict))
  {
    hide Play, Envelope;
    var op := Create(body, ignore);
    NamespaceAlone(crd, s, op);
    var ready := s.(ns := s.ns || crd.scope.OrgNamespaced?);
    var c := Client(op, AfterNamespace(op), |s.log| - 1, 0, false);
    PlayCall(crd, ready, c);
    var one := Call(crd, ready, c);
    if one.1.pc.Done? {
      PlayDone(crd, one.0, one.1);
    } else {
      PlayCall(crd, one.0, one.1);
      var two := Call(crd, one.0, one.1);
      PlayDone(crd, two.0, two.1);
    }
  }

  /** And an upsert: it appends and returns its envelope if there is no object, and
      its spec merged into the object if there is one. */
  lemma UpsertAlone(crd: CRDSpec, s: Server, body: Body)
    requires Ok(s)
    ensures var r, held := Play(crd, s, Fresh(Upsert(body)), []), s.log[|s.log| - 1];
            var o := if held.None? then Envelope(crd, body) else Merge(held, Obj(map["spec" := body["spec"]]));
            && r.0.ns == (s.ns || crd.scope.OrgNamespaced?)
            && r.1.pc == Done(Object(o)) && r.0.log == s.log + [Some(o)]
  {
    hide Play, Envelope, Merge;
    var op := Upsert(body);
    NamespaceAlone(crd, s, op);
    var ready := s.(ns := s.ns || crd.scope.OrgNamespaced?);
    var c := Client(op, AfterNamespace(op), |s.log| - 1, 0, false);
    PlayCall(crd, ready, c);
    var one := Call(crd, ready, c);
    if one.1.pc.Done? {
      PlayDone(crd, one.0, one.1);
    } else {
      PlayCall(crd, one.0, one.1);
      var two := Call(crd, one.0, one.1);
      PlayDone(crd, two.0, two.1);
    }
  }
}
