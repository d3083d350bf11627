// gpustack/gateway/ext_auth.py with ensure_wasm_plugin of gateway/utils.py: one
// custom resource with two owners. Startup rewrites the static base and carries
// the key tables and public routes over; the reconciler replaces those and
// keeps the base. Both read, compute and replace under the resource version,
// so a replace against a stale read is refused.
module ExtAuth {
  import opened Text
  import opened Json

  type Table = map<string, Value>

  datatype Rule = Rule(config: Option<Table>, domain: Option<seq<string>>,
                         ingress: Option<seq<string>>, service: Option<seq<string>>)

  /** WasmPluginSpec; plugin stands for the fields that only the module source
      and the constants of ext_auth_spec decide. */
  datatype Spec = Spec(defaultConfig: Option<Table>, matchRules: Option<seq<Rule>>, plugin: Plugin)

  datatype Plugin = Plugin(disabled: Option<bool>, failStrategy: Option<string>, phase: Option<string>,
                           priority: Option<int>, source: map<string, string>)

  /** What ext_auth_default_config takes from the configuration. */
  datatype Config = Config(routeRegexes: Value, enabled: Value, authz: Value, upstream: Value, authCache: Value,
                           statusOnError: Value, allowAuthenticated: Value, source: map<string, string>)

  type Ingresses = seq<seq<string>>

  /** One rule per public route. */
  function RulesOf(public: Ingresses): (rules: seq<Rule>)
    ensures |rules| == |public|
  {
    if public == [] then []
    else [Rule(Some(map["access_policy" := Str("public")]), Some([]), Some(public[0]), Some([]))] + RulesOf(public[1..])
  }

  /** public_route_match_rules: an empty list is rendered as absent. */
  function PublicRules(public: Ingresses): Option<seq<Rule>> {
    if public == [] then None else Some(RulesOf(public))
  }

  /** local_auth["keys"] = keys; local_auth["refs"] = refs */
  function WithTables(localAuth: Table, keys: Table, refs: Table): Table {
    localAuth["keys" := Obj(keys)]["refs" := Obj(refs)]
  }

  /** ext_auth_default_config */
  function DefaultConfig(cfg: Config, keys: Table, refs: Table): Table {
    map["route_match_regexes" := cfg.routeRegexes,
        "local_auth" := Obj(map["enabled" := cfg.enabled, "keys" := Obj(keys), "refs" := Obj(refs)]),
        "authz" := cfg.authz,
        "upstream_request" := cfg.upstream,
        "auth_cache" := cfg.authCache,
        "status_on_error" := cfg.statusOnError,
        "failure_mode_allow_authenticated" := cfg.allowAuthenticated]
  }

  /** ext_auth_spec: the whole resource from scratch. */
  function Rebuilt(cfg: Config, keys: Table, refs: Table, public: Ingresses): Spec {
    Spec(Some(DefaultConfig(cfg, keys, refs)), PublicRules(public),
         Plugin(Some(false), Some("FAIL_OPEN"), Some("AUTHN"), Some(360), cfg.source))
  }

  predicate Truthy(v: Value) {
    match v
    case Null => false
    case Bool(b) => b
    case Num(n) => n != 0
    case Str(s) => s != ""
    case Arr(items) => items != []
    case Obj(fields) => fields != map[]
  }

  /** The policies that count as none. */
  lemma FalsyAre(v: Value)
    ensures !Truthy(v) <==> v in [Null, Bool(false), Num(0), Str(""), Arr([]), Obj(map[])]
  {
  }

  /** A rule that names an access policy. */
  predicate NamesPolicy(r: Rule) {
    r.config.Some? && "access_policy" in r.config.value && Truthy(r.config.value["access_policy"])
  }

  function KeepPolicies(rules: seq<Rule>): seq<Rule> {
    if rules == [] then []
    else (if NamesPolicy(rules[0]) then [rules[0]] else []) + KeepPolicies(rules[1..])
  }

  /** value.get(k) if that is a dict, else {} */
  function TableAt(m: Table, k: string): Table {
    if k in m && m[k].Obj? then m[k].fields else map[]
  }

  function ConfigOf(s: Spec): Table {
    if s.defaultConfig.Some? then s.defaultConfig.value else map[]
  }

  /** The keys and refs a live spec carries, anything unrecognizable as absent. */
  function Keys(s: Spec): Table {
    TableAt(TableAt(ConfigOf(s), "local_auth"), "keys")
  }

  function Refs(s: Spec): Table {
    TableAt(TableAt(ConfigOf(s), "local_auth"), "refs")
  }

  function Rules(s: Spec): seq<Rule> {
    if s.matchRules.Some? then s.matchRules.value else []
  }

  /** ext_auth_init_spec_diff against the spec rendered without any tables. */
  function Startup(cfg: Config, current: Option<Spec>): Spec {
    var expected := Rebuilt(cfg, map[], map[], []);
    if current.None? then expected
    else
      var kept := KeepPolicies(Rules(current.value));
      var localAuth := TableAt(ConfigOf(expected), "local_auth");
      expected.(defaultConfig := Some(ConfigOf(expected)["local_auth" :=
                  Obj(WithTables(localAuth, Keys(current.value), Refs(current.value)))]),
                matchRules := if kept == [] then None else Some(kept))
  }

  /** ext_auth_reconcile_spec_diff */
  function Reconcile(cfg: Config, keys: Table, refs: Table, public: Ingresses, current: Option<Spec>): Spec {
    if current.None? then Rebuilt(cfg, keys, refs, public)
    else
      var localAuth := TableAt(ConfigOf(current.value), "local_auth");
      var config := ConfigOf(current.value)
                      ["local_auth" := Obj(WithTables(localAuth, keys, refs))]
                      ["route_match_regexes" := cfg.routeRegexes];
      current.value.(defaultConfig := Some(config), matchRules := PublicRules(public))
  }

  /** The copy of the live spec that the reconciler's diff is handed. */
  class LiveSpec {
    var defaultConfig: Option<Table>
    var matchRules: Option<seq<Rule>>
    const plugin: Plugin

    constructor (s: Spec)
      ensures View() == s
    {
      defaultConfig, matchRules, plugin := s.defaultConfig, s.matchRules, s.plugin;
    }

    function View(): Spec
      reads this
    {
      Spec(defaultConfig, matchRules, plugin)
    }

    /** ext_auth_reconcile_spec_diff on a present spec: assigned in place, the
        local dictionaries filled entry by entry. */
    method ReconcileInPlace(cfg: Config, keys: Table, refs: Table, public: Ingresses)
      modifies this
      ensures View() == Reconcile(cfg, keys, refs, public, Some(old(View())))
      ensures match matchRules case None => public == [] case Some(rules) => public != [] && OnePerRoute(rules, public)
    {
      RulesAre(public);
      var config := if defaultConfig.Some? then defaultConfig.value else map[];
      var localAuth := if "local_auth" in config && config["local_auth"].Obj?
              then config["local_auth"].fields else map[];
      localAuth := localAuth["keys" := Obj(keys)];
      localAuth := localAuth["refs" := Obj(refs)];
      config := config["local_auth" := Obj(localAuth)];
      config := config["route_match_regexes" := cfg.routeRegexes];
      defaultConfig := Some(config);
      matchRules := PublicRules(public);
    }
  }

  // --------------------------------------------------------- the two writers

  datatype Job =
    | AtStartup(cfg: Config)
    | AtReconcile(cfg: Config, keys: Table, refs: Table, public: Ingresses)

  function Diff(job: Job, current: Option<Spec>): Spec {
    match job
    case AtStartup(cfg) => Startup(cfg, current)
    case AtReconcile(cfg, keys, refs, public) => Reconcile(cfg, keys, refs, public, current)
  }

  /** The resource: its spec, and whether it carries our labels. */
  datatype Plug = Plug(spec: Option<Spec>, managed: bool)

  /** Writing a spec and reading it back: absent fields take their defaults, and
      a store of one kind omits an empty rule list. */
  function Stored(dropsEmpty: bool, s: Spec): Spec {
    Spec(Some(ConfigOf(s)),
         if s.matchRules.None? || (dropsEmpty && s.matchRules.value == []) then None
         else Some(ReadRules(s.matchRules.value)),
         s.plugin)
  }

  function ReadRules(rules: seq<Rule>): (r: seq<Rule>)
    ensures |r| == |rules|
  {
    if rules == [] then []
    else
      [ReadRule(rules[0])] + ReadRules(rules[1..])
  }

  function ReadRule(x: Rule): Rule {
    Rule(Some(x.config.GetOr(map[])), Some(x.domain.GetOr([])), Some(x.ingress.GetOr([])), Some(x.service.GetOr([])))
  }

  /** ensure_wasm_plugin with nothing in between: create what is missing, leave
      what is not ours, replace only on a difference. */
  function Pass(dropsEmpty: bool, job: Job, plug: Option<Plug>): Option<Plug> {
    match plug
    case None => Some(Plug(Some(Stored(dropsEmpty, Diff(job, None))), true))
    case Some(p) =>
      if Writes(job, plug) then Some(p.(spec := Some(Stored(dropsEmpty, Diff(job, p.spec))))) else plug
  }

  /** Whether a pass writes at all. Comparing without None fields is comparing
      the specs, None being the absent field. */
  predicate Writes(job: Job, plug: Option<Plug>) {
    plug.None? || (plug.value.managed && plug.value.spec != Some(Diff(job, plug.value.spec)))
  }

  // ------------------------------------------------------ agreement, no churn

  lemma {:induction false} OwnRulesSurvive(public: Ingresses)
    ensures KeepPolicies(RulesOf(public)) == RulesOf(public)
    ensures ReadRules(RulesOf(public)) == RulesOf(public)
  {
    if public != [] {
      OwnRulesSurvive(public[1..]);
    }
  }

  lemma RebuiltIsStored(dropsEmpty: bool, cfg: Config, keys: Table, refs: Table, public: Ingresses)
    ensures Stored(dropsEmpty, Rebuilt(cfg, keys, refs, public)) == Rebuilt(cfg, keys, refs, public)
  {
    OwnRulesSurvive(public);
  }

  /** The rendered tables are the tables read back. */
  lemma TablesOf(cfg: Config, keys: Table, refs: Table, s: Spec)
    requires s.defaultConfig == Some(DefaultConfig(cfg, keys, refs))
    ensures Keys(s) == keys && Refs(s) == refs
  {
    assert DefaultConfig(cfg, keys, refs)["local_auth"].Obj?;
  }

  /** Replacing the tables of a rendered config renders the new ones. */
  lemma TablesReplaced(cfg: Config, k: Table, r: Table, keys: Table, refs: Table)
    ensures var c := DefaultConfig(cfg, k, r);
            c["local_auth" := Obj(WithTables(TableAt(c, "local_auth"), keys, refs))] == DefaultConfig(cfg, keys, refs)
  {
    var c := DefaultConfig(cfg, k, r);
    var l := WithTables(TableAt(c, "local_auth"), keys, refs);
    assert c["local_auth"].Obj?;
    assert l == map["enabled" := cfg.enabled, "keys" := Obj(keys), "refs" := Obj(refs)];
  }

  /** Startup puts the base under whatever tables and rules are there. */
  lemma StartupConfig(cfg: Config, s: Spec)
    ensures Startup(cfg, Some(s)).defaultConfig == Some(DefaultConfig(cfg, Keys(s), Refs(s)))
    ensures Startup(cfg, Some(s)).plugin == Rebuilt(cfg, map[], map[], []).plugin
  {
    TablesReplaced(cfg, map[], map[], Keys(s), Refs(s));
  }

  lemma StartupRendered(cfg: Config, before: Option<Spec>)
    ensures exists k, r :: Startup(cfg, before).defaultConfig == Some(DefaultConfig(cfg, k, r))
    ensures Startup(cfg, before).plugin == Rebuilt(cfg, map[], map[], []).plugin
  {
    if before.Some? {
      StartupConfig(cfg, before.value);
    } else {
      assert Startup(cfg, before).defaultConfig == Some(DefaultConfig(cfg, map[], map[]));
    }
  }

  lemma ReconcileInstalls(cfg: Config, keys: Table, refs: Table, public: Ingresses, current: Option<Spec>)
    ensures var s := Reconcile(cfg, keys, refs, public, current);
            Keys(s) == keys && Refs(s) == refs && s.matchRules == PublicRules(public)
  {
    if current.None? {
      TablesOf(cfg, keys, refs, Rebuilt(cfg, keys, refs, public));
    }
  }

  /** Reconciling what startup rendered fills in the rest of the rebuild. */
  lemma ReconcileCompletes(cfg: Config, keys: Table, refs: Table, public: Ingresses, s: Spec, k: Table, r: Table)
    requires s.defaultConfig == Some(DefaultConfig(cfg, k, r)) && s.plugin == Rebuilt(cfg, map[], map[], []).plugin
    ensures Reconcile(cfg, keys, refs, public, Some(s)) == Rebuilt(cfg, keys, refs, public)
  {
    TablesReplaced(cfg, k, r, keys, refs);
    var c := DefaultConfig(cfg, keys, refs);
    assert c["route_match_regexes" := cfg.routeRegexes] == c;
  }

  lemma ReconcileThenStartup(dropsEmpty: bool, cfg: Config, keys: Table, refs: Table,
                               public: Ingresses, plug: Option<Plug>)
    requires plug.Some? ==> plug.value.managed
    ensures Pass(dropsEmpty, AtStartup(cfg), Pass(dropsEmpty, AtReconcile(cfg, keys, refs, public), plug))
            == Some(Plug(Some(Rebuilt(cfg, keys, refs, public)), true))
  {
    var live := if plug.Some? then plug.value.spec else None;
    RebuiltIsStored(dropsEmpty, cfg, keys, refs, public);
    OwnRulesSurvive(public);
    ReconcileInstalls(cfg, keys, refs, public, live);
    var r := Pass(dropsEmpty, AtReconcile(cfg, keys, refs, public), plug).value.spec.value;
    assert Keys(r) == keys && Refs(r) == refs && r.matchRules == PublicRules(public);
    StartupConfig(cfg, r);
    assert Startup(cfg, Some(r)) == Rebuilt(cfg, keys, refs, public);
  }

  lemma StartupThenReconcile(dropsEmpty: bool, cfg: Config, keys: Table, refs: Table,
                               public: Ingresses, plug: Option<Plug>)
    requires plug.Some? ==> plug.value.managed
    ensures Pass(dropsEmpty, AtReconcile(cfg, keys, refs, public), Pass(dropsEmpty, AtStartup(cfg), plug))
            == Some(Plug(Some(Rebuilt(cfg, keys, refs, public)), true))
  {
    var live := if plug.Some? then plug.value.spec else None;
    RebuiltIsStored(dropsEmpty, cfg, keys, refs, public);
    StartupRendered(cfg, live);
    var k, r :| Startup(cfg, live).defaultConfig == Some(DefaultConfig(cfg, k, r));
    var s := Pass(dropsEmpty, AtStartup(cfg), plug).value.spec.value;
    ReconcileCompletes(cfg, keys, refs, public, s, k, r);
  }

  lemma {:induction false} RulesAre(public: Ingresses)
    ensures OnePerRoute(RulesOf(public), public)
  {
    if public != [] {
      RulesAre(public[1..]);
      assert forall i :: 0 < i < |public| ==> public[1..][i - 1] == public[i];
    }
  }

  /** One rule a public route: keyed by exactly its ingresses, it names the public
      policy and nothing else. */
  predicate OnePerRoute(rules: seq<Rule>, public: Ingresses) {
    && |rules| == |public|
    && forall i :: 0 <= i < |rules| ==>
         && rules[i].ingress == Some(public[i]) && rules[i].domain == Some([]) && rules[i].service == Some([])
         && rules[i].config == Some(map["access_policy" := Str("public")])
  }

  /** Every public route, and nothing else, gets its policy by a reconcile. */
  lemma PublicRoutesAdmitted(dropsEmpty: bool, cfg: Config, keys: Table, refs: Table,
                             public: Ingresses, plug: Option<Plug>)
    requires plug.Some? ==> plug.value.managed
    ensures var after := Pass(dropsEmpty, AtReconcile(cfg, keys, refs, public), plug);
            && after.Some? && after.value.managed && after.value.spec.Some?
            && match after.value.spec.value.matchRules
               case None => public == []
               case Some(rules) => public != [] && OnePerRoute(rules, public)
  {
    RulesAre(public);
    OwnRulesSurvive(public);
    ReconcileInstalls(cfg, keys, refs, public, if plug.Some? then plug.value.spec else None);
  }

  /** What a reconcile leaves of a spec that is there: everything but the tables,
      the route gate and the rules. */
  lemma ReconcileKeeps(dropsEmpty: bool, cfg: Config, keys: Table, refs: Table, public: Ingresses, s: Spec, k: string)
    ensures var after := Pass(dropsEmpty, AtReconcile(cfg, keys, refs, public), Some(Plug(Some(s), true)));
            var was, now := ConfigOf(s), ConfigOf(after.value.spec.value);
            && after.value.spec.value.plugin == s.plugin
            && "route_match_regexes" in now && now["route_match_regexes"] == cfg.routeRegexes
            && (k !in {"local_auth", "route_match_regexes"} ==>
                  (k in now <==> k in was) && (k in was ==> now[k] == was[k]))
            && "local_auth" in now && now["local_auth"].Obj?
            && var mine := now["local_auth"].fields;
               && "keys" in mine && mine["keys"] == Obj(keys) && "refs" in mine && mine["refs"] == Obj(refs)
               && (k !in {"keys", "refs"} ==>
                     (k in mine <==> k in TableAt(was, "local_auth"))
                     && (k in mine ==> mine[k] == TableAt(was, "local_auth")[k]))
  {
  }

  /** The resource as the configuration and the tables have it, field by field. */
  ghost predicate Rendered(s: Spec, cfg: Config, keys: Table, refs: Table, public: Ingresses) {
    && s.defaultConfig == Some(map[
         "route_match_regexes" := cfg.routeRegexes,
         "local_auth" := Obj(map["enabled" := cfg.enabled, "keys" := Obj(keys), "refs" := Obj(refs)]),
         "authz" := cfg.authz, "upstream_request" := cfg.upstream, "auth_cache" := cfg.authCache,
         "status_on_error" := cfg.statusOnError, "failure_mode_allow_authenticated" := cfg.allowAuthenticated])
    && s.plugin.disabled == Some(false) && s.plugin.failStrategy == Some("FAIL_OPEN")
    && s.plugin.phase == Some("AUTHN") && s.plugin.priority == Some(360) && s.plugin.source == cfg.source
    && match s.matchRules case None => public == [] case Some(rules) => public != [] && OnePerRoute(rules, public)
  }

  /** Both orders of one startup and one reconcile, on a resource in any state
      or on none, end in exactly the resource rebuilt from scratch; unless it
      does not carry the managed labels, when nobody touches it. */
  lemma BothOrdersRebuild(dropsEmpty: bool, cfg: Config, keys: Table, refs: Table,
                            public: Ingresses, plug: Option<Plug>)
    ensures Rendered(Rebuilt(cfg, keys, refs, public), cfg, keys, refs, public)
    ensures var result := if plug.Some? && !plug.value.managed then plug
                          else Some(Plug(Some(Rebuilt(cfg, keys, refs, public)), true));
            var job := AtReconcile(cfg, keys, refs, public);
            && Pass(dropsEmpty, AtStartup(cfg), Pass(dropsEmpty, job, plug)) == result
            && Pass(dropsEmpty, job, Pass(dropsEmpty, AtStartup(cfg), plug)) == result
  {
    RulesAre(public);
    if plug.None? || plug.value.managed {
      ReconcileThenStartup(dropsEmpty, cfg, keys, refs, public, plug);
      StartupThenReconcile(dropsEmpty, cfg, keys, refs, public, plug);
    }
  }

  lemma {:induction false} PoliciesKept(rules: seq<Rule>)
    ensures KeepPolicies(rules) == rules <==> forall r :: r in rules ==> NamesPolicy(r)
    ensures |KeepPolicies(rules)| <= |rules|
    ensures forall r :: r in KeepPolicies(rules) ==> NamesPolicy(r)
  {
    if rules != [] {
      PoliciesKept(rules[1..]);
      if NamesPolicy(rules[0]) {
        assert KeepPolicies(rules)[1..] == KeepPolicies(rules[1..]);
        assert rules == [rules[0]] + rules[1..];
      }
    }
  }

  lemma {:induction false} ReadPolicies(rules: seq<Rule>)
    requires forall r :: r in rules ==> NamesPolicy(r)
    ensures forall r :: r in ReadRules(rules) ==> NamesPolicy(r)
    ensures ReadRules(ReadRules(rules)) == ReadRules(rules)
  {
    if rules != [] {
      ReadPolicies(rules[1..]);
      assert NamesPolicy(rules[0]) && NamesPolicy(ReadRule(rules[0]));
      assert ReadRules(rules)[1..] == ReadRules(rules[1..]);
    }
  }

  /** What a startup pass stores is a fixed point of startup. */
  lemma StartupSettles(dropsEmpty: bool, cfg: Config, live: Option<Spec>)
    ensures var s := Stored(dropsEmpty, Startup(cfg, live)); Startup(cfg, Some(s)) == s
  {
    var s := Stored(dropsEmpty, Startup(cfg, live));
    StartupRendered(cfg, live);
    var k, r :| Startup(cfg, live).defaultConfig == Some(DefaultConfig(cfg, k, r));
    TablesOf(cfg, k, r, s);
    StartupConfig(cfg, s);
    var kept := Rules(Startup(cfg, live));
    PoliciesKept(if live.Some? then Rules(live.value) else []);
    ReadPolicies(kept);
    PoliciesKept(ReadRules(kept));
    assert Rules(s) == ReadRules(kept);
  }

  /** What a reconcile pass stores is a fixed point of that reconcile. */
  lemma ReconcileSettles(dropsEmpty: bool, cfg: Config, keys: Table, refs: Table, public: Ingresses, live: Option<Spec>)
    ensures var s := Stored(dropsEmpty, Reconcile(cfg, keys, refs, public, live));
            Reconcile(cfg, keys, refs, public, Some(s)) == s
  {
    var s := Stored(dropsEmpty, Reconcile(cfg, keys, refs, public, live));
    OwnRulesSurvive(public);
    var c := ConfigOf(s);
    assert "local_auth" in c && c["local_auth"].Obj?;
    assert WithTables(TableAt(c, "local_auth"), keys, refs) == TableAt(c, "local_auth");
    assert c["local_auth" := c["local_auth"]]["route_match_regexes" := cfg.routeRegexes] == c;
  }

  /** No churn: after a pass of either writer, the same pass again writes
      nothing, whichever way the store treats an empty list. */
  lemma SecondPassIsSilent(dropsEmpty: bool, job: Job, plug: Option<Plug>)
    ensures !Writes(job, Pass(dropsEmpty, job, plug))
  {
    var live := if plug.Some? then plug.value.spec else None;
    match job
    case AtStartup(cfg) => StartupSettles(dropsEmpty, cfg, live);
    case AtReconcile(cfg, keys, refs, public) => ReconcileSettles(dropsEmpty, cfg, keys, refs, public, live);
  }

  /** Yet losing the last public route is a difference, and removes the rules. */
  lemma LastRouteLeaves(dropsEmpty: bool, cfg: Config, keys: Table, refs: Table, s: Spec)
    requires Rules(s) != []
    ensures var job := AtReconcile(cfg, keys, refs, []);
            var plug := Some(Plug(Some(s), true));
            && Writes(job, plug)
            && Pass(dropsEmpty, job, plug).value.spec.value.matchRules == None
  {
  }

  // ------------------------------------------- interleaved readers and writers

  /** What a writer is to apply, and how many commits the database had seen when
      its tables were computed. */
  datatype Task = Task(job: Job, computed: nat)

  /** The resource as a writer read it. */
  datatype Snapshot = Snapshot(plug: Option<Plug>, version: nat)

  /** history is the key table the database stands for after each commit; version
      counts writes of the resource; a task stays until it is through or given
      up, and reads anew for each attempt. */
  datatype State = State(history: seq<Table>, plug: Option<Plug>, version: nat,
                         tasks: map<int, Task>, pending: map<int, Snapshot>)

  datatype Event =
    | Commit(keys: Table)
    | Restart(writer: int, cfg: Config)
    | Compute(writer: int, cfg: Config, refs: Table, public: Ingresses)
    | Read(writer: int)
    | Finish(writer: int)
    | GiveUp(writer: int)
    | Remove
    | Edit(spec: Spec)

  predicate Ready(s: State) {
    s.history != []
  }

  /** The server refuses a create over an existing resource and a replace under
      another version. */
  predicate Accepted(s: State, snap: Snapshot) {
    if snap.plug.None? then s.plug.None? else s.plug.Some? && s.version == snap.version
  }

  /** One attempt comes to its end: through, or refused and to be retried. */
  function Finished(dropsEmpty: bool, s: State, w: int): State
    requires w in s.tasks && w in s.pending
  {
    var job, snap := s.tasks[w].job, s.pending[w];
    var idle := s.(pending := s.pending - {w});
    if !Writes(job, snap.plug) then idle.(tasks := s.tasks - {w})
    else if Accepted(s, snap) then
      idle.(tasks := s.tasks - {w}, plug := Pass(dropsEmpty, job, snap.plug), version := s.version + 1)
    else idle
  }

  function Next(dropsEmpty: bool, s: State, e: Event): State
    requires Ready(s)
  {
    match e
    case Commit(keys) => s.(history := s.history + [keys])
    case Restart(w, cfg) =>
      s.(tasks := s.tasks[w := Task(AtStartup(cfg), |s.history| - 1)], pending := s.pending - {w})
    case Compute(w, cfg, refs, public) =>
      var now := |s.history| - 1;
      s.(tasks := s.tasks[w := Task(AtReconcile(cfg, s.history[now], refs, public), now)], pending := s.pending - {w})
    case Read(w) => if w in s.tasks then s.(pending := s.pending[w := Snapshot(s.plug, s.version)]) else s
    case Finish(w) => if w in s.tasks && w in s.pending then Finished(dropsEmpty, s, w) else s
    case GiveUp(w) => s.(tasks := s.tasks - {w}, pending := s.pending - {w})
    case Remove => s.(plug := None, version := s.version + 1)
    case Edit(spec) =>
      if s.plug.None? then s
      else s.(plug := Some(s.plug.value.(spec := Some(spec))), version := s.version + 1)
  }

  function Run(dropsEmpty: bool, s: State, events: seq<Event>): (r: State)
    requires Ready(s)
    ensures Ready(r)
  {
    if events == [] then s
    else Next(dropsEmpty, Run(dropsEmpty, s, events[..|events| - 1]), events[|events| - 1])
  }

  /** Nothing is under way. */
  predicate Idle(s: State) {
    Ready(s) && s.tasks == map[] && s.pending == map[]
  }

  /** A snapshot under the current version is the current resource, and a
      reconcile's tables are what the database held when they were computed. */
  ghost predicate Inv(s: State) {
    && Ready(s)
    && (forall w :: w in s.pending ==>
          s.pending[w].version <= s.version && (s.pending[w].version == s.version ==> s.pending[w].plug == s.plug))
    && (forall w :: w in s.tasks ==> s.tasks[w].computed < |s.history|)
    && (forall w :: w in s.tasks && s.tasks[w].job.AtReconcile? ==>
          s.tasks[w].job.keys == s.history[s.tasks[w].computed])
  }

  lemma NextInv(dropsEmpty: bool, s: State, e: Event)
    requires Inv(s)
    ensures Inv(Next(dropsEmpty, s, e))
  {
    hide Pass, Writes;
  }

  lemma {:induction false} RunInv(dropsEmpty: bool, s: State, events: seq<Event>)
    requires Idle(s)
    ensures Inv(Run(dropsEmpty, s, events))
  {
    hide Next, Inv;
    if events == [] {
      IdleInv(s);
    } else {
      RunInv(dropsEmpty, s, events[..|events| - 1]);
      NextInv(dropsEmpty, Run(dropsEmpty, s, events[..|events| - 1]), events[|events| - 1]);
    }
  }

  lemma IdleInv(s: State)
    requires Idle(s)
    ensures Inv(s)
  {
  }

  /** Refinement: in every interleaving, a finish either leaves the resource
      alone or does to it exactly what the whole pass would do at that moment,
      with nothing in between. */
  lemma FinishIsAtomic(dropsEmpty: bool, s: State, events: seq<Event>, w: int)
    requires Idle(s)
    requires var r := Run(dropsEmpty, s, events); w in r.tasks && w in r.pending
    ensures var r := Run(dropsEmpty, s, events);
            var after := Next(dropsEmpty, r, Finish(w));
            || (after.plug == r.plug && after.version == r.version)
            || after.plug == Pass(dropsEmpty, r.tasks[w].job, r.plug)
  {
    hide Pass, Writes, Run;
    RunInv(dropsEmpty, s, events);
  }

  /** At any time after its read, however much has been written since, a writer
      whose read is out of date changes the resource in one case only: it read
      that there was none, and there is none again. */
  lemma StaleReadOnlyRecreates(dropsEmpty: bool, s: State, events: seq<Event>, w: int)
    requires Idle(s)
    requires var r := Run(dropsEmpty, s, events);
             w in r.tasks && w in r.pending && r.pending[w].version < r.version
    ensures var r := Run(dropsEmpty, s, events);
            Next(dropsEmpty, r, Finish(w)).version != r.version <==> r.pending[w].plug.None? && r.plug.None?
  {
    hide Pass, Run;
  }

  predicate Holds(plug: Option<Plug>, key: string) {
    plug.Some? && plug.value.spec.Some? && key in Keys(plug.value.spec.value)
  }

  /** A reconcile under way that would bring the key in. */
  predicate Carries(t: Task, key: string) {
    t.job.AtReconcile? && key in t.job.keys
  }

  ghost predicate NobodyCarries(s: State, key: string) {
    forall w :: w in s.tasks ==> !Carries(s.tasks[w], key)
  }

  /** From here on the key is not in the database and nobody edits it in. */
  ghost predicate Revoked(s: State, events: seq<Event>, key: string)
    requires Ready(s)
  {
    && key !in s.history[|s.history| - 1]
    && forall i :: 0 <= i < |events| ==>
         && (events[i].Commit? ==> key !in events[i].keys)
         && (events[i].Edit? ==> key !in Keys(events[i].spec))
  }

  lemma PassAdmits(dropsEmpty: bool, job: Job, plug: Option<Plug>, key: string)
    requires Holds(Pass(dropsEmpty, job, plug), key) && !Holds(plug, key)
    ensures job.AtReconcile? && key in job.keys
  {
  }

  lemma NextKeepsOut(dropsEmpty: bool, s: State, e: Event, key: string)
    requires Inv(s) && Revoked(s, [e], key) && NobodyCarries(s, key) && !Holds(s.plug, key)
    ensures var s' := Next(dropsEmpty, s, e); Revoked(s', [], key) && NobodyCarries(s', key) && !Holds(s'.plug, key)
  {
    hide Pass, Writes, Keys;
    assert [e][0] == e;
    if e.Finish? && e.writer in s.tasks && e.writer in s.pending {
      var snap := s.pending[e.writer];
      if Writes(s.tasks[e.writer].job, snap.plug) && Accepted(s, snap) {
        if Holds(Pass(dropsEmpty, s.tasks[e.writer].job, snap.plug), key) {
          assert snap.plug == s.plug;
          PassAdmits(dropsEmpty, s.tasks[e.writer].job, snap.plug, key);
        }
      }
    }
  }

  /** No resurrection: once a key is out of the database and out of the resource
      and no reconcile under way has it from before, it stays out through all
      restarts, removals, retries and interleavings. */
  lemma {:induction false} NoResurrection(dropsEmpty: bool, s: State, events: seq<Event>, key: string)
    requires Inv(s) && Revoked(s, events, key) && NobodyCarries(s, key) && !Holds(s.plug, key)
    ensures var r := Run(dropsEmpty, s, events);
            Inv(r) && Revoked(r, [], key) && NobodyCarries(r, key) && !Holds(r.plug, key)
  {
    hide NobodyCarries, Holds, Next;
    if events != [] {
      var n := |events| - 1;
      NoResurrection(dropsEmpty, s, events[..n], key);
      var b := Run(dropsEmpty, s, events[..n]);
      assert Revoked(b, [events[n]], key);
      NextInv(dropsEmpty, b, events[n]);
      NextKeepsOut(dropsEmpty, b, events[n], key);
    }
  }

  /** What such a stale reconcile can do: once the resource is gone, or is ours,
      its next attempt brings the revoked key back. */
  lemma StaleReconcileResurrects(dropsEmpty: bool, s: State, w: int, key: string)
    requires Inv(s) && w in s.tasks && Carries(s.tasks[w], key) && !Holds(s.plug, key)
    ensures Holds(Run(dropsEmpty, s, [Remove, Read(w), Finish(w)]).plug, key)
    ensures s.plug.None? || s.plug.value.managed ==> Holds(Run(dropsEmpty, s, [Read(w), Finish(w)]).plug, key)
  {
    var gone := Next(dropsEmpty, s, Remove);
    if s.plug.None? || s.plug.value.managed {
      RetriedInstalls(dropsEmpty, s, w, key);
    }
    RetriedInstalls(dropsEmpty, gone, w, key);
    RunOne(dropsEmpty, s, Remove);
    RunOne(dropsEmpty, s, Read(w));
    hide Run, Next, Holds, Carries, Inv;
    RunPush(dropsEmpty, s, [Remove], Read(w));
    RunPush(dropsEmpty, s, [Remove, Read(w)], Finish(w));
    RunPush(dropsEmpty, s, [Read(w)], Finish(w));
    assert [Remove] + [Read(w)] == [Remove, Read(w)];
    assert [Remove, Read(w)] + [Finish(w)] == [Remove, Read(w), Finish(w)];
    assert [Read(w)] + [Finish(w)] == [Read(w), Finish(w)];
  }

  /** What an attempt reads afterwards of a resource that somebody edited is the
      edited spec under the label it had, and that is what the attempt works on. */
  lemma EditedIsRead(dropsEmpty: bool, s: State, w: int, spec: Spec)
    requires Ready(s) && w in s.tasks && s.plug.Some?
    ensures var job, edited := s.tasks[w].job, Some(Plug(Some(spec), s.plug.value.managed));
            Run(dropsEmpty, s, [Edit(spec), Read(w), Finish(w)]).plug
              == if Writes(job, edited) then Pass(dropsEmpty, job, edited) else edited
  {
    hide Writes, Pass;
    RunOne(dropsEmpty, s, Edit(spec));
    RunPush(dropsEmpty, s, [Edit(spec)], Read(w));
    RunPush(dropsEmpty, s, [Edit(spec), Read(w)], Finish(w));
    assert [Edit(spec)] + [Read(w)] == [Edit(spec), Read(w)];
    assert [Edit(spec), Read(w)] + [Finish(w)] == [Edit(spec), Read(w), Finish(w)];
  }

  lemma RunPush(dropsEmpty: bool, s: State, events: seq<Event>, e: Event)
    requires Ready(s)
    ensures Run(dropsEmpty, s, events + [e]) == Next(dropsEmpty, Run(dropsEmpty, s, events), e)
  {
    hide Next;
    assert (events + [e])[..|events|] == events;
  }

  lemma RunOne(dropsEmpty: bool, s: State, e: Event)
    requires Ready(s)
    ensures Run(dropsEmpty, s, [e]) == Next(dropsEmpty, s, e)
  {
    RunPush(dropsEmpty, s, [], e);
    assert [] + [e] == [e];
  }

  lemma RetriedInstalls(dropsEmpty: bool, s: State, w: int, key: string)
    requires Ready(s) && w in s.tasks && Carries(s.tasks[w], key) && !Holds(s.plug, key)
    requires s.plug.Some? ==> s.plug.value.managed
    ensures Holds(Next(dropsEmpty, Next(dropsEmpty, s, Read(w)), Finish(w)).plug, key)
  {
    var job := s.tasks[w].job;
    ReconcileRevokes(dropsEmpty, job.cfg, job.keys, job.refs, job.public, s.plug);
  }

  /** So this is exact: a revoked key that is out of the resource stays out,
      whatever happens but editing it in or creating it again, if and only if no
      reconcile under way has it from before. */
  lemma StaysOutIff(dropsEmpty: bool, s: State, key: string)
    requires Inv(s) && key !in s.history[|s.history| - 1] && !Holds(s.plug, key)
    ensures (forall events :: Revoked(s, events, key) ==> !Holds(Run(dropsEmpty, s, events).plug, key))
            <==> NobodyCarries(s, key)
  {
    if NobodyCarries(s, key) {
      forall events | Revoked(s, events, key)
        ensures !Holds(Run(dropsEmpty, s, events).plug, key)
      {
        NoResurrection(dropsEmpty, s, events, key);
      }
    } else {
      var w :| w in s.tasks && Carries(s.tasks[w], key);
      var events := [Remove, Read(w), Finish(w)];
      StaleReconcileResurrects(dropsEmpty, s, w, key);
      assert Revoked(s, events, key);
    }
  }

  /** One reconciler: its loop computes only when its last pass is over. */
  ghost predicate Serial(dropsEmpty: bool, s: State, events: seq<Event>)
    requires Ready(s)
  {
    forall i :: 0 <= i < |events| && events[i].Compute? ==>
      var b := Run(dropsEmpty, s, events[..i]);
      forall w :: w in b.tasks && b.tasks[w].job.AtReconcile? ==> w == events[i].writer
  }

  predicate AtMostOneReconcile(s: State) {
    forall v, w :: v in s.tasks && w in s.tasks && s.tasks[v].job.AtReconcile? && s.tasks[w].job.AtReconcile? ==> v == w
  }

  lemma {:induction false} SerialHasOne(dropsEmpty: bool, s: State, events: seq<Event>)
    requires Idle(s) && Serial(dropsEmpty, s, events)
    ensures AtMostOneReconcile(Run(dropsEmpty, s, events))
  {
    hide Pass, Writes;
    if events != [] {
      var n := |events| - 1;
      var front := events[..n];
      forall i | 0 <= i < n && front[i].Compute?
        ensures var b := Run(dropsEmpty, s, front[..i]);
                forall w :: w in b.tasks && b.tasks[w].job.AtReconcile? ==> w == front[i].writer
      {
        assert front[..i] == events[..i];
      }
      SerialHasOne(dropsEmpty, s, front);
    }
  }

  /** One reconciler, too, can bring a revoked key back: by the pass it had
      computed before the revocation, if the resource went in between. */
  lemma OneReconcilerResurrects(dropsEmpty: bool, cfg: Config, keys: Table, refs: Table, public: Ingresses, key: string)
    requires key in keys
    ensures var s := State([keys], None, 0, map[], map[]);
            var done := [Compute(0, cfg, refs, public), Commit(keys - {key})];
            var events := [Remove, Read(0), Finish(0)];
            && Idle(s) && Serial(dropsEmpty, s, done + events)
            && Revoked(Run(dropsEmpty, s, done), events, key)
            && !Holds(Run(dropsEmpty, s, done).plug, key)
            && Holds(Run(dropsEmpty, Run(dropsEmpty, s, done), events).plug, key)
  {
    hide Pass, Writes, Holds;
    var s := State([keys], None, 0, map[], map[]);
    var done := [Compute(0, cfg, refs, public), Commit(keys - {key})];
    assert done[..0] == [] && done[..1][..0] == [];
    assert Run(dropsEmpty, s, []) == s;
    assert Run(dropsEmpty, s, done[..1]) == Next(dropsEmpty, s, done[0]);
    var b := Run(dropsEmpty, s, done);
    assert b == Next(dropsEmpty, Run(dropsEmpty, s, done[..1]), done[1]);
    RunInv(dropsEmpty, s, done);
    assert b.plug == None && 0 in b.tasks && Carries(b.tasks[0], key);
    NothingHolds(key);
    StaleReconcileResurrects(dropsEmpty, b, 0, key);
    var all := done + [Remove, Read(0), Finish(0)];
    assert all[..0] == [];
    assert forall i :: 0 <= i < |all| && all[i].Compute? ==> i == 0;
  }

  lemma NothingHolds(key: string)
    ensures !Holds(None, key)
  {
  }

  /** The exact condition with one reconciler: in every state it reaches, a
      revoked key is out for good, whatever happens but editing it in or creating
      it again, if and only if it is out now and the reconcile under way, of
      which there is one at most, was computed when the key was revoked. */
  lemma OutForGoodIff(dropsEmpty: bool, s: State, events: seq<Event>, key: string)
    requires Idle(s) && Serial(dropsEmpty, s, events)
    requires var r := Run(dropsEmpty, s, events); key !in r.history[|r.history| - 1]
    ensures var r := Run(dropsEmpty, s, events);
            && AtMostOneReconcile(r)
            && ((forall more :: Revoked(r, more, key) ==> !Holds(Run(dropsEmpty, r, more).plug, key))
                <==> !Holds(r.plug, key) && forall w :: w in r.tasks && r.tasks[w].job.AtReconcile? ==>
                       r.tasks[w].computed < |r.history| && key !in r.history[r.tasks[w].computed])
  {
    hide Next, Holds;
    var r := Run(dropsEmpty, s, events);
    RunInv(dropsEmpty, s, events);
    SerialHasOne(dropsEmpty, s, events);
    if Holds(r.plug, key) {
      assert Revoked(r, [], key) && Run(dropsEmpty, r, []) == r;
    } else {
      StaysOutIff(dropsEmpty, r, key);
    }
  }

  /** What a reconcile computed after the revocation does when it gets through,
      whether it writes or finds nothing to write: from its read on, with
      anything in between, the key is out for good, if nothing under way carries
      it and the resource read is ours or absent. */
  lemma ThroughRevokes(dropsEmpty: bool, b: State, w: int, between: seq<Event>, key: string, more: seq<Event>)
    requires Inv(b) && NobodyCarries(b, key) && w in b.tasks && b.tasks[w].job.AtReconcile?
    requires b.plug.Some? ==> b.plug.value.managed
    requires var read := Next(dropsEmpty, b, Read(w));
             var r := Run(dropsEmpty, read, between);
             && Revoked(read, between, key) && Revoked(r, more, key)
             && w in r.tasks && r.tasks[w] == b.tasks[w] && w in r.pending && r.pending[w] == read.pending[w]
             && w !in Next(dropsEmpty, r, Finish(w)).tasks
    ensures var after := Next(dropsEmpty, Run(dropsEmpty, Next(dropsEmpty, b, Read(w)), between), Finish(w));
            !Holds(Run(dropsEmpty, after, more).plug, key)
  {
    hide Run, Holds, Pass, Revoked;
    var read := Next(dropsEmpty, b, Read(w));
    var r := Run(dropsEmpty, read, between);
    var after := Next(dropsEmpty, r, Finish(w));
    NextInv(dropsEmpty, b, Read(w));
    assert NobodyCarries(read, key);
    NobodyCarriesLater(dropsEmpty, read, between, key);
    NextInv(dropsEmpty, r, Finish(w));
    RevokedOn(r, after, more, key);
    assert NobodyCarries(after, key);
    if Holds(b.plug, key) {
      HeldMustBeWritten(dropsEmpty, b.tasks[w].job, b.plug, key);
      WrittenHasOwnTables(dropsEmpty, b.tasks[w].job, b.plug, key);
    } else {
      NoResurrection(dropsEmpty, read, between, key);
      RevokedNow(r, [Finish(w)], more, key);
      NextKeepsOut(dropsEmpty, r, Finish(w), key);
    }
    NoResurrection(dropsEmpty, after, more, key);
  }

  lemma HeldMustBeWritten(dropsEmpty: bool, job: Job, plug: Option<Plug>, key: string)
    requires job.AtReconcile? && key !in job.keys && Holds(plug, key) && (plug.Some? ==> plug.value.managed)
    ensures Writes(job, plug)
  {
    ReconcileInstalls(job.cfg, job.keys, job.refs, job.public, plug.value.spec);
  }

  lemma RevokedOn(r: State, after: State, more: seq<Event>, key: string)
    requires Ready(r) && Ready(after) && after.history == r.history && Revoked(r, more, key)
    ensures Revoked(after, more, key)
  {
  }

  lemma RevokedNow(r: State, events: seq<Event>, more: seq<Event>, key: string)
    requires Ready(r) && Revoked(r, more, key) && forall e :: e in events ==> !e.Commit? && !e.Edit?
    ensures Revoked(r, events, key)
  {
  }

  /** Once revoked, nothing new under way carries the key. */
  lemma {:induction false} NobodyCarriesLater(dropsEmpty: bool, s: State, events: seq<Event>, key: string)
    requires Inv(s) && Revoked(s, events, key) && NobodyCarries(s, key)
    ensures var r := Run(dropsEmpty, s, events); Inv(r) && Revoked(r, [], key) && NobodyCarries(r, key)
  {
    hide NobodyCarries, Next;
    if events != [] {
      var n := |events| - 1;
      NobodyCarriesLater(dropsEmpty, s, events[..n], key);
      var b := Run(dropsEmpty, s, events[..n]);
      assert Revoked(b, [events[n]], key);
      NextInv(dropsEmpty, b, events[n]);
      NobodyCarriesNext(dropsEmpty, b, events[n], key);
    }
  }

  lemma NobodyCarriesNext(dropsEmpty: bool, s: State, e: Event, key: string)
    requires Inv(s) && Revoked(s, [e], key) && NobodyCarries(s, key)
    ensures var s' := Next(dropsEmpty, s, e); Revoked(s', [], key) && NobodyCarries(s', key)
  {
    hide Pass, Writes, Keys;
    assert [e][0] == e;
  }

  /** With one reconciler, a reconcile computed after a revocation that gets its
      write through revokes for good. */
  lemma RevokedForGood(dropsEmpty: bool, s: State, events: seq<Event>, w: int, key: string, more: seq<Event>)
    requires Idle(s) && Serial(dropsEmpty, s, events)
    requires var r := Run(dropsEmpty, s, events);
             && w in r.tasks && r.tasks[w].job.AtReconcile?
             && r.tasks[w].computed < |r.history| && key !in r.history[r.tasks[w].computed]
             && Revoked(r, more, key)
             && Next(dropsEmpty, r, Finish(w)).version != r.version
    ensures var r := Run(dropsEmpty, s, events);
            !Holds(Run(dropsEmpty, Next(dropsEmpty, r, Finish(w)), more).plug, key)
  {
    hide Run, Next, Holds, Writes, Pass;
    var r := Run(dropsEmpty, s, events);
    RunInv(dropsEmpty, s, events);
    SerialHasOne(dropsEmpty, s, events);
    var after := Next(dropsEmpty, r, Finish(w));
    NextInv(dropsEmpty, r, Finish(w));
    WroteThrough(dropsEmpty, r, w);
    var job := r.tasks[w].job;
    WrittenHasOwnTables(dropsEmpty, job, r.pending[w].plug, key);
    assert NobodyCarries(after, key);
    NoResurrection(dropsEmpty, after, more, key);
  }

  lemma WroteThrough(dropsEmpty: bool, s: State, w: int)
    requires Ready(s) && Next(dropsEmpty, s, Finish(w)).version != s.version
    ensures w in s.tasks && w in s.pending && Writes(s.tasks[w].job, s.pending[w].plug)
    ensures var after := Next(dropsEmpty, s, Finish(w));
            && after.plug == Pass(dropsEmpty, s.tasks[w].job, s.pending[w].plug)
            && after.tasks == s.tasks - {w} && after.history == s.history
  {
  }

  lemma WrittenHasOwnTables(dropsEmpty: bool, job: Job, plug: Option<Plug>, key: string)
    requires job.AtReconcile? && Writes(job, plug)
    ensures Holds(Pass(dropsEmpty, job, plug), key) <==> key in job.keys
  {
    ReconcileRevokes(dropsEmpty, job.cfg, job.keys, job.refs, job.public, plug);
  }

  /** And a reconcile that writes leaves exactly its own tables behind, however
      the resource looked. */
  lemma ReconcileRevokes(dropsEmpty: bool, cfg: Config, keys: Table, refs: Table, public: Ingresses, plug: Option<Plug>)
    requires plug.Some? ==> plug.value.managed
    ensures var after := Pass(dropsEmpty, AtReconcile(cfg, keys, refs, public), plug);
            && after.Some? && after.value.spec.Some?
            && Keys(after.value.spec.value) == keys && Refs(after.value.spec.value) == refs
  {
    var live := if plug.Some? then plug.value.spec else None;
    ReconcileInstalls(cfg, keys, refs, public, live);
  }
}
