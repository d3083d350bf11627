// gpustack/api/auth.py: concurrent authentications upgrade a key from argon2 to
// the stored fast digest. A process decides on a cached copy of the row, which
// may be any value the row ever held, remembers the keys it is already
// upgrading, and writes by compare-and-set.
//
// The steps of a run are the points where another task or process can come in
// between. argon2 is the axiom that a row's permanent hash accepts the key's own
// secret and nothing else; SHA-256 is a parameter.
module Backfill {
  import opened Text
  import D = Digest

  datatype Key = Key(accessKey: string, isCustom: bool, secret: string)

  /** What no step changes: the hash function and the keys behind the rows. */
  datatype World = World(sha: D.Sha, keys: map<int, Key>)

  /** verify_hashed_secret on the row's argon2 hash. */
  predicate Slow(key: Key, secret: string) {
    secret == key.secret
  }

  // ------------------------------------------------------------- one process

  datatype Stage = Created | Running | Written

  datatype Task = Task(keyId: int, digest: string, expected: Option<string>, stage: Stage)

  /** inFlight is _backfill_in_flight, tasks is _backfill_tasks. stranded is a
      history variable: ids whose task was cancelled before its first step, so
      that the coroutine's finally clause never ran. */
  datatype Process = Process(inFlight: set<int>, tasks: map<nat, Task>, next: nat, stranded: set<int>)

  function Live(tasks: map<nat, Task>): set<int> {
    set t | t in tasks :: tasks[t].keyId
  }

  /** The verdict of get_user_from_api_token on a row holding `stored`; None is
      the exception that surfaces as an internal error. */
  function Decide(sha: D.Sha, key: Key, stored: Option<string>, secret: string): Option<bool> {
    if D.Usable(stored) then D.Verify(sha, stored, secret) else Some(Slow(key, secret))
  }

  /** _schedule_secret_key_digest_backfill */
  function Schedule(p: Process, sha: D.Sha, id: int, key: Key, stored: Option<string>,
                    secret: string, salt: D.Salt16, allowCustom: bool): Process
  {
    var digest := D.New(sha, salt, secret, key.isCustom, key.accessKey, allowCustom);
    if digest.None? || id in p.inFlight then p
    else Process(p.inFlight + {id}, p.tasks[p.next := Task(id, digest.value, stored, Created)], p.next + 1, p.stranded)
  }

  /** One authentication: schedule only after a successful slow verification. */
  function Authenticated(p: Process, sha: D.Sha, id: int, key: Key, stored: Option<string>,
                         secret: string, salt: D.Salt16, allowCustom: bool): Process
  {
    if !D.Usable(stored) && Slow(key, secret)
    then Schedule(p, sha, id, key, stored, secret, salt, allowCustom)
    else p
  }

  /** The task ends, running its finally clause or not. */
  function Ended(p: Process, t: nat, cleanup: bool): Process
    requires t in p.tasks
  {
    var id := p.tasks[t].keyId;
    p.(tasks := p.tasks - {t},
       inFlight := if cleanup then p.inFlight - {id} else p.inFlight,
       stranded := if cleanup then p.stranded else p.stranded + {id})
  }

  function Moved(p: Process, t: nat, stage: Stage): Process
    requires t in p.tasks
  {
    p.(tasks := p.tasks[t := p.tasks[t].(stage := stage)])
  }

  // ---------------------------------------------------------------- the runs

  /** history[k] lists every value the digest column of row k has held, the
      current one last. */
  datatype State = State(history: map<int, seq<Option<string>>>, procs: map<int, Process>)

  datatype Step =
    | Authenticate(proc: int, id: int, seen: nat, secret: string, salt: D.Salt16, allowCustom: bool)
    | Start(proc: int, task: nat)
    | Write(proc: int, task: nat)
    | Finish(proc: int, task: nat)
    | Fail(proc: int, task: nat)
    | Cancel(proc: int, task: nat)

  predicate Enabled(w: World, s: State, step: Step) {
    && step.proc in s.procs
    && var p := s.procs[step.proc];
       match step
       case Authenticate(_, id, seen, _, _, _) => id in w.keys && id in s.history && seen < |s.history[id]|
       case Start(_, t) => t in p.tasks && p.tasks[t].stage == Created
       case Write(_, t) => t in p.tasks && p.tasks[t].stage == Running
           && p.tasks[t].keyId in s.history && s.history[p.tasks[t].keyId] != []
       case Finish(_, t) => t in p.tasks && p.tasks[t].stage == Written
       case Fail(_, t) => t in p.tasks && p.tasks[t].stage != Created
       case Cancel(_, t) => t in p.tasks
  }

  function Last<T>(h: seq<T>): T
    requires h != []
  {
    h[|h| - 1]
  }

  /** The update statement: a compare-and-set on the column. */
  function CompareAndSet(h: seq<Option<string>>, expected: Option<string>, digest: string): seq<Option<string>>
    requires h != []
  {
    if Last(h) == expected then h + [Some(digest)] else h
  }

  function Next(w: World, s: State, step: Step): State
    requires Enabled(w, s, step)
  {
    var p := s.procs[step.proc];
    match step
    case Authenticate(n, id, seen, secret, salt, allow) =>
      s.(procs := s.procs[n := Authenticated(p, w.sha, id, w.keys[id], s.history[id][seen], secret, salt, allow)])
    case Start(n, t) => s.(procs := s.procs[n := Moved(p, t, Running)])
    case Write(n, t) =>
      var task := p.tasks[t];
      State(s.history[task.keyId := CompareAndSet(s.history[task.keyId], task.expected, task.digest)],
            s.procs[n := Moved(p, t, Written)])
    case Finish(n, t) => s.(procs := s.procs[n := Ended(p, t, true)])
    case Fail(n, t) => s.(procs := s.procs[n := Ended(p, t, true)])
    case Cancel(n, t) => s.(procs := s.procs[n := Ended(p, t, p.tasks[t].stage != Created)])
  }

  /** A run: any sequence of steps, each taken if it is possible. */
  function Run(w: World, s: State, steps: seq<Step>): State
    decreases |steps|
  {
    if steps == [] then s
    else
      var before := Run(w, s, steps[..|steps| - 1]);
      if Enabled(w, before, Last(steps)) then Next(w, before, Last(steps)) else before
  }

  // --------------------------------------------------------------- invariant

  /** A digest of the key's own secret under some salt. */
  ghost predicate Correct(sha: D.Sha, key: Key, d: Option<string>) {
    exists salt: D.Salt16 :: d == Some(Stored(sha, salt, key.secret))
  }

  function Stored(sha: D.Sha, salt: D.Salt16, secret: string): string {
    D.Print(D.ALGORITHM, D.ToHex(salt), D.HashHex(sha, D.ToHex(salt), secret))
  }

  /** Every row starts with nothing, something unreadable, or a correct digest;
      no process is upgrading anything. */
  ghost predicate Initial(w: World, s: State) {
    && s.history.Keys == w.keys.Keys
    && (forall k :: k in s.history ==> |s.history[k]| == 1)
    && (forall k :: k in s.history ==> !D.Usable(s.history[k][0]) || Correct(w.sha, w.keys[k], s.history[k][0]))
    && (forall n :: n in s.procs ==>
          s.procs[n].inFlight == {} && s.procs[n].tasks == map[] && s.procs[n].stranded == {})
  }

  ghost predicate RowInv(sha: D.Sha, key: Key, h: seq<Option<string>>) {
    && 1 <= |h| <= 2
    && (D.Usable(h[0]) ==> |h| == 1 && Correct(sha, key, h[0]))
    && (|h| == 2 ==> Correct(sha, key, h[1]) && key.accessKey != "")
  }

  ghost predicate TaskInv(w: World, history: map<int, seq<Option<string>>>, task: Task) {
    && task.keyId in w.keys && task.keyId in history && history[task.keyId] != []
    && var h := history[task.keyId];
       && w.keys[task.keyId].accessKey != ""
       && Correct(w.sha, w.keys[task.keyId], Some(task.digest))
       && task.expected == h[0] && !D.Usable(h[0])
       && (task.stage == Written ==> |h| == 2)
  }

  /** The in-flight set is the ids of the live tasks, one task each, plus the
      stranded ids. */
  ghost predicate ProcInv(p: Process) {
    && p.inFlight == Live(p.tasks) + p.stranded
    && Live(p.tasks) !! p.stranded
    && (forall t, u :: t in p.tasks && u in p.tasks && p.tasks[t].keyId == p.tasks[u].keyId ==> t == u)
    && (forall t :: t in p.tasks ==> t < p.next)
  }

  ghost predicate Inv(w: World, s: State) {
    && s.history.Keys == w.keys.Keys
    && (forall k :: k in w.keys ==> RowInv(w.sha, w.keys[k], s.history[k]))
    && (forall n :: n in s.procs ==> ProcInv(s.procs[n]))
    && (forall n, t :: n in s.procs && t in s.procs[n].tasks ==> TaskInv(w, s.history, s.procs[n].tasks[t]))
  }

  lemma CorrectIsUsable(sha: D.Sha, key: Key, d: Option<string>)
    requires Correct(sha, key, d)
    ensures D.Usable(d)
  {
    var salt: D.Salt16 :| d == Some(Stored(sha, salt, key.secret));
    D.ParsePrint(d, D.ToHex(salt), D.HashHex(sha, D.ToHex(salt), key.secret));
  }

  lemma LiveAfterEnd(p: Process, t: nat)
    requires ProcInv(p) && t in p.tasks
    ensures Live(p.tasks - {t}) == Live(p.tasks) - {p.tasks[t].keyId}
  {
    var rest := p.tasks - {t};
    forall id | id in Live(p.tasks) - {p.tasks[t].keyId}
      ensures id in Live(rest)
    {
      var u :| u in p.tasks && p.tasks[u].keyId == id;
      assert u in rest && rest[u].keyId == id;
    }
  }

  lemma LiveAfterMove(p: Process, t: nat, stage: Stage)
    requires t in p.tasks
    ensures Live(Moved(p, t, stage).tasks) == Live(p.tasks)
  {
    var q := Moved(p, t, stage).tasks;
    assert forall u :: u in p.tasks ==> u in q && q[u].keyId == p.tasks[u].keyId;
    assert forall u :: u in q ==> u in p.tasks;
  }

  lemma EndKeepsProc(p: Process, t: nat, cleanup: bool)
    requires ProcInv(p) && t in p.tasks
    ensures ProcInv(Ended(p, t, cleanup))
  {
    LiveAfterEnd(p, t);
  }

  lemma MoveKeepsProc(p: Process, t: nat, stage: Stage)
    requires ProcInv(p) && t in p.tasks
    ensures ProcInv(Moved(p, t, stage))
  {
    LiveAfterMove(p, t, stage);
  }

  lemma ScheduleKeepsProc(p: Process, sha: D.Sha, id: int, key: Key, stored: Option<string>,
                          secret: string, salt: D.Salt16, allowCustom: bool)
    requires ProcInv(p)
    ensures ProcInv(Schedule(p, sha, id, key, stored, secret, salt, allowCustom))
  {
    var q := Schedule(p, sha, id, key, stored, secret, salt, allowCustom);
    if q != p {
      assert q.tasks[p.next].keyId == id;
      assert forall t :: t in p.tasks ==> t in q.tasks && q.tasks[t] == p.tasks[t];
      assert Live(q.tasks) == Live(p.tasks) + {id};
    }
  }

  lemma InitialInv(w: World, s: State)
    requires Initial(w, s)
    ensures Inv(w, s)
  {
  }

  /** A step that leaves the rows alone. */
  lemma ProcStepKeeps(w: World, s: State, n: int, q: Process)
    requires Inv(w, s) && n in s.procs && ProcInv(q)
    requires forall t :: t in q.tasks ==> TaskInv(w, s.history, q.tasks[t])
    ensures Inv(w, s.(procs := s.procs[n := q]))
  {
  }

  lemma AuthenticateKeeps(w: World, s: State, step: Step)
    requires Inv(w, s) && step.Authenticate? && Enabled(w, s, step)
    ensures Inv(w, Next(w, s, step))
  {
    var p := s.procs[step.proc];
    var key, stored := w.keys[step.id], s.history[step.id][step.seen];
    var q := Authenticated(p, w.sha, step.id, key, stored, step.secret, step.salt, step.allowCustom);
    ScheduleKeepsProc(p, w.sha, step.id, key, stored, step.secret, step.salt, step.allowCustom);
    if q != p {
      assert Some(q.tasks[p.next].digest) == Some(Stored(w.sha, step.salt, key.secret));
      if step.seen == 1 {
        CorrectIsUsable(w.sha, key, stored);
      }
    }
    ProcStepKeeps(w, s, step.proc, q);
  }

  lemma EndKeeps(w: World, s: State, n: int, t: nat, cleanup: bool)
    requires Inv(w, s) && n in s.procs && t in s.procs[n].tasks
    ensures Inv(w, s.(procs := s.procs[n := Ended(s.procs[n], t, cleanup)]))
  {
    EndKeepsProc(s.procs[n], t, cleanup);
    ProcStepKeeps(w, s, n, Ended(s.procs[n], t, cleanup));
  }

  lemma StartKeeps(w: World, s: State, n: int, t: nat)
    requires Inv(w, s) && n in s.procs && t in s.procs[n].tasks
    ensures Inv(w, s.(procs := s.procs[n := Moved(s.procs[n], t, Running)]))
  {
    var q := Moved(s.procs[n], t, Running);
    MoveKeepsProc(s.procs[n], t, Running);
    forall u | u in q.tasks ensures TaskInv(w, s.history, q.tasks[u]) {
      assert TaskInv(w, s.history, s.procs[n].tasks[u]);
    }
    ProcStepKeeps(w, s, n, q);
  }

  /** The update leaves the row with a correct digest, whichever way the
      comparison went. */
  lemma UpdateKeepsRow(w: World, s: State, task: Task)
    requires Inv(w, s) && TaskInv(w, s.history, task)
    ensures var h := s.history[task.keyId];
            var h' := CompareAndSet(h, task.expected, task.digest);
            RowInv(w.sha, w.keys[task.keyId], h') && |h'| == 2 && h'[0] == h[0]
  {
    hide Correct, D.Usable;
    var h := s.history[task.keyId];
    assert RowInv(w.sha, w.keys[task.keyId], h);
    if |h| == 2 {
      CorrectIsUsable(w.sha, w.keys[task.keyId], h[1]);
    }
  }

  lemma WriteKeeps(w: World, s: State, step: Step)
    requires Inv(w, s) && step.Write? && Enabled(w, s, step)
    ensures Inv(w, Next(w, s, step))
  {
    hide RowInv, Correct, CompareAndSet, ProcInv, D.Usable;
    var p := s.procs[step.proc];
    var task := p.tasks[step.task];
    var s' := Next(w, s, step);
    assert TaskInv(w, s.history, task);
    UpdateKeepsRow(w, s, task);
    MoveKeepsProc(p, step.task, Written);
    forall n, t | n in s'.procs && t in s'.procs[n].tasks
      ensures TaskInv(w, s'.history, s'.procs[n].tasks[t])
    {
      assert TaskInv(w, s.history, s.procs[n].tasks[t]);
    }
  }

  /** Every state of every run satisfies the invariant. */
  lemma {:induction false} RunInv(w: World, s: State, steps: seq<Step>)
    requires Initial(w, s)
    ensures Inv(w, Run(w, s, steps))
    decreases |steps|
  {
    if steps == [] {
      InitialInv(w, s);
    } else {
      RunInv(w, s, steps[..|steps| - 1]);
      var before, step := Run(w, s, steps[..|steps| - 1]), Last(steps);
      if Enabled(w, before, step) {
        match step
        case Authenticate(_, _, _, _, _, _) => AuthenticateKeeps(w, before, step);
        case Start(n, t) => StartKeeps(w, before, n, t);
        case Write(_, _) => WriteKeeps(w, before, step);
        case Finish(n, t) => EndKeeps(w, before, n, t, true);
        case Fail(n, t) => EndKeeps(w, before, n, t, true);
        case Cancel(n, t) => EndKeeps(w, before, n, t, before.procs[n].tasks[t].stage != Created);
      }
    }
  }

  // ---------------------------------------------------------------- theorems

  /** A correct digest accepts what hashes like the key's secret under its salt. */
  lemma CorrectDecides(sha: D.Sha, key: Key, stored: Option<string>, secret: string)
    requires Correct(sha, key, stored)
    ensures D.Usable(stored)
    ensures var salt := D.Parse(stored).value.0;
            D.Verify(sha, stored, secret) == Some(sha(salt + secret) == sha(salt + key.secret))
  {
    var salt: D.Salt16 :| stored == Some(Stored(sha, salt, key.secret));
    var text, hash := D.ToHex(salt), D.HashHex(sha, D.ToHex(salt), key.secret);
    D.ParsePrint(stored, text, hash);
    D.ToHexInjective(sha(text + secret), sha(text + key.secret));
  }

  /** The fast path refines the slow one. In every reachable state, on every
      value of the row that any process may still have cached, a decision is
      reached without an exception, the key's own secret is accepted, and
      another secret is accepted exactly when the copy holds a usable digest
      under whose salt that secret collides with the key's. */
  lemma FastRefinesSlow(w: World, s: State, steps: seq<Step>, k: int, seen: nat, secret: string)
    requires Initial(w, s)
    requires var h := Run(w, s, steps).history; k in h && k in w.keys && seen < |h[k]|
    ensures var stored := Run(w, s, steps).history[k][seen];
            Decide(w.sha, w.keys[k], stored, secret)
            == Some(|| Slow(w.keys[k], secret)
                    || (D.Usable(stored) && var salt := D.Parse(stored).value.0;
                                            w.sha(salt + secret) == w.sha(salt + w.keys[k].secret)))
  {
    hide Run, D.Parse;
    RunInv(w, s, steps);
    var key, h := w.keys[k], Run(w, s, steps).history[k];
    if D.Usable(h[seen]) {
      assert RowInv(w.sha, key, h);
      CorrectDecides(w.sha, key, h[seen], secret);
    }
  }

  /** Per key at most one write ever takes effect; a usable digest is the last
      value its row ever holds; a row without an access key is never written. */
  lemma AtMostOneWrite(w: World, s: State, steps: seq<Step>, k: int)
    requires Initial(w, s) && k in w.keys
    ensures var h := Run(w, s, steps).history;
            && k in h && 1 <= |h[k]| <= 2 && h[k][0] == s.history[k][0]
            && (forall i :: 0 <= i < |h[k]| && D.Usable(h[k][i]) ==> i == |h[k]| - 1)
            && (w.keys[k].accessKey == "" ==> |h[k]| == 1)
  {
    hide Run, Correct, D.Usable;
    RunInv(w, s, steps);
    FirstValueStays(w, s, steps, k);
    assert RowInv(w.sha, w.keys[k], Run(w, s, steps).history[k]);
    RowUsable(w.sha, w.keys[k], Run(w, s, steps).history[k]);
  }

  lemma RowUsable(sha: D.Sha, key: Key, h: seq<Option<string>>)
    requires RowInv(sha, key, h)
    ensures forall i :: 0 <= i < |h| && D.Usable(h[i]) ==> i == |h| - 1
  {
    hide Correct, D.Usable;
  }

  lemma {:induction false} FirstValueStays(w: World, s: State, steps: seq<Step>, k: int)
    requires Initial(w, s) && k in w.keys
    ensures var h := Run(w, s, steps).history; k in h && h[k] != [] && h[k][0] == s.history[k][0]
    decreases |steps|
  {
    if steps != [] {
      FirstValueStays(w, s, steps[..|steps| - 1], k);
    }
  }

  /** The in-flight guard, exactly: per process the set is the ids of the live
      tasks and of the stranded ones, which are apart, and no key has two live
      tasks. So it equals the ids of the live tasks iff nothing is stranded. */
  lemma InFlightExact(w: World, s: State, steps: seq<Step>, n: int)
    requires Initial(w, s) && n in Run(w, s, steps).procs
    ensures var p := Run(w, s, steps).procs[n];
            && p.inFlight == Live(p.tasks) + p.stranded
            && (p.inFlight == Live(p.tasks) <==> p.stranded == {})
            && (forall t, u :: t in p.tasks && u in p.tasks && p.tasks[t].keyId == p.tasks[u].keyId ==> t == u)
  {
    RunInv(w, s, steps);
  }

  /** An id is stranded by exactly one thing: cancelling a task that has not
      taken its first step. */
  lemma StrandedByEarlyCancel(w: World, s: State, step: Step, n: int)
    requires Inv(w, s) && Enabled(w, s, step) && n in s.procs
    ensures Next(w, s, step).procs[n].stranded != s.procs[n].stranded
            <==> step.Cancel? && step.proc == n && s.procs[n].tasks[step.task].stage == Created
  {
    if step.Cancel? && step.proc == n {
      var p := s.procs[n];
      assert p.tasks[step.task].keyId in Live(p.tasks);
    }
  }

  /** Step i of a run cancels a task of process n that has not begun. */
  ghost predicate EarlyCancel(w: World, s: State, steps: seq<Step>, i: nat, n: int) {
    && i < |steps|
    && var b := Run(w, s, steps[..i]);
       && Enabled(w, b, steps[i]) && steps[i].Cancel? && steps[i].proc == n
       && b.procs[n].tasks[steps[i].task].stage == Created
  }

  lemma StrandedStays(w: World, s: State, step: Step, n: int)
    requires Enabled(w, s, step) && n in s.procs
    ensures n in Next(w, s, step).procs && s.procs[n].stranded <= Next(w, s, step).procs[n].stranded
  {
    hide Schedule;
    if step.Authenticate? && step.proc == n {
      AuthenticatedStrands(s.procs[n], w.sha, step.id, w.keys[step.id], s.history[step.id][step.seen],
                           step.secret, step.salt, step.allowCustom);
    }
  }

  lemma AuthenticatedStrands(p: Process, sha: D.Sha, id: int, key: Key, stored: Option<string>,
                             secret: string, salt: D.Salt16, allowCustom: bool)
    ensures Authenticated(p, sha, id, key, stored, secret, salt, allowCustom).stranded == p.stranded
  {
  }

  /** So over a whole run: without such a cancellation the in-flight set is the
      running tasks' ids, and with one it is not. */
  lemma {:induction false} StrandedIffCancelledEarly(w: World, s: State, steps: seq<Step>, n: int)
    requires Initial(w, s) && n in s.procs
    ensures n in Run(w, s, steps).procs
    ensures Run(w, s, steps).procs[n].stranded != {} <==> exists i :: EarlyCancel(w, s, steps, i, n)
    decreases |steps|
  {
    hide Next, Enabled, Inv;
    if steps != [] {
      var m := |steps| - 1;
      var front := steps[..m];
      StrandedIffCancelledEarly(w, s, front, n);
      RunInv(w, s, front);
      forall i: nat | i < m ensures EarlyCancel(w, s, steps, i, n) <==> EarlyCancel(w, s, front, i, n) {
        assert front[..i] == steps[..i];
      }
      var b := Run(w, s, front);
      if Enabled(w, b, steps[m]) {
        StrandedByEarlyCancel(w, b, steps[m], n);
        StrandedStays(w, b, steps[m], n);
      }
      if i: nat :| EarlyCancel(w, s, front, i, n) {
        assert EarlyCancel(w, s, steps, i, n);
      }
      if i: nat :| EarlyCancel(w, s, steps, i, n) {
        assert i < m || i == m;
      }
      if EarlyCancel(w, s, steps, m, n) {
        assert Run(w, s, steps).procs[n].stranded != {};
      }
    }
  }

  /** It can happen: schedule a backfill, cancel it before it runs. */
  lemma StrandingHappens(w: World, s: State, salt: D.Salt16)
    requires Initial(w, s) && 7 in w.keys && 0 in s.procs
    requires w.keys[7] == Key("ak", true, "pw") && s.history[7] == [None]
    ensures var r := Run(w, s, [Authenticate(0, 7, 0, "pw", salt, true), Cancel(0, s.procs[0].next)]);
            0 in r.procs && r.procs[0].tasks == map[] && r.procs[0].inFlight == {7}
  {
    var a, c := Authenticate(0, 7, 0, "pw", salt, true), Cancel(0, s.procs[0].next);
    assert Run(w, s, []) == s;
    assert [a][..0] == [] && [a, c][..1] == [a];
    var s1 := Run(w, s, [a]);
    assert s1 == Next(w, s, a);
    assert Run(w, s, [a, c]) == Next(w, s1, c);
  }

  /** Convergence: once any task of a key has executed its update, whatever ran
      in between, the row holds a usable digest. */
  lemma WrittenMeansUsable(w: World, s: State, steps: seq<Step>, n: int, t: nat)
    requires Initial(w, s)
    requires var r := Run(w, s, steps); n in r.procs && t in r.procs[n].tasks && r.procs[n].tasks[t].stage == Written
    ensures var r := Run(w, s, steps);
            var k := r.procs[n].tasks[t].keyId;
            k in r.history && r.history[k] != [] && D.Usable(Last(r.history[k]))
  {
    RunInv(w, s, steps);
    var r := Run(w, s, steps);
    var task := r.procs[n].tasks[t];
    assert TaskInv(w, r.history, task);
    CorrectIsUsable(w.sha, w.keys[task.keyId], r.history[task.keyId][1]);
  }

  lemma RunPush(w: World, s: State, steps: seq<Step>, step: Step)
    ensures var b := Run(w, s, steps);
            Run(w, s, steps + [step]) == if Enabled(w, b, step) then Next(w, b, step) else b
  {
    assert (steps + [step])[..|steps|] == steps;
  }

  /** What a task does when it runs through, told on the row: its three steps are
      possible one after the other; afterwards it is gone, its id is out of the
      in-flight set, and the row holds the digest it held or, if that is still what
      the task expects, the task's. If it fails once it has begun, the row is as it
      was and the id is out as well. */
  lemma TaskRuns(w: World, s: State, steps: seq<Step>, n: int, t: nat)
    requires Initial(w, s)
    requires var r := Run(w, s, steps); n in r.procs && t in r.procs[n].tasks && r.procs[n].tasks[t].stage == Created
    ensures var b := Run(w, s, steps);
            var task, k := b.procs[n].tasks[t], b.procs[n].tasks[t].keyId;
            var done := Run(w, s, steps + [Start(n, t)] + [Write(n, t)] + [Finish(n, t)]);
            var failed := Run(w, s, steps + [Start(n, t)] + [Fail(n, t)]);
            && n in done.procs && t !in done.procs[n].tasks && k !in done.procs[n].inFlight
            && k in b.history && b.history[k] != []
            && done.history == b.history[k := if b.history[k][|b.history[k]| - 1] == task.expected
                                              then b.history[k] + [Some(task.digest)] else b.history[k]]
            && n in failed.procs && t !in failed.procs[n].tasks && k !in failed.procs[n].inFlight
            && failed.history == b.history
  {
    hide *;
    TaskHasRow(w, s, steps, n, t);
    RunPush(w, s, steps, Start(n, t));
    RunPush(w, s, steps + [Start(n, t)], Write(n, t));
    RunPush(w, s, steps + [Start(n, t)] + [Write(n, t)], Finish(n, t));
    RunPush(w, s, steps + [Start(n, t)], Fail(n, t));
    StepsOfTask(w, Run(w, s, steps), n, t);
  }

  lemma TaskHasRow(w: World, s: State, steps: seq<Step>, n: int, t: nat)
    requires Initial(w, s) && n in Run(w, s, steps).procs && t in Run(w, s, steps).procs[n].tasks
    ensures var r := Run(w, s, steps);
            var k := r.procs[n].tasks[t].keyId;
            k in r.history && r.history[k] != []
  {
    RunInv(w, s, steps);
    hide Run, Initial, RowInv, ProcInv, Correct, D.Usable;
    assert TaskInv(w, Run(w, s, steps).history, Run(w, s, steps).procs[n].tasks[t]);
  }

  lemma StepsOfTask(w: World, b: State, n: int, t: nat)
    requires n in b.procs && t in b.procs[n].tasks && b.procs[n].tasks[t].stage == Created
    requires var k := b.procs[n].tasks[t].keyId; k in b.history && b.history[k] != []
    ensures Enabled(w, b, Start(n, t))
    ensures var begun := Next(w, b, Start(n, t));
            var task, k := b.procs[n].tasks[t], b.procs[n].tasks[t].keyId;
            && Enabled(w, begun, Write(n, t)) && Enabled(w, begun, Fail(n, t))
            && var written, failed := Next(w, begun, Write(n, t)), Next(w, begun, Fail(n, t));
               && Enabled(w, written, Finish(n, t))
               && var done := Next(w, written, Finish(n, t));
                  && n in done.procs && t !in done.procs[n].tasks && k !in done.procs[n].inFlight
                  && done.history == b.history[k := if b.history[k][|b.history[k]| - 1] == task.expected
                                                    then b.history[k] + [Some(task.digest)] else b.history[k]]
                  && n in failed.procs && t !in failed.procs[n].tasks && k !in failed.procs[n].inFlight
                  && failed.history == b.history
  {
  }

  /** The upgrade happens: in every reachable state, once a process without a task
      for the key has authenticated its owner against a row without a usable digest,
      and the task has run through, the row holds the digest of the owner's secret
      under the salt drawn, if the secret is eligible and has an access key. */
  lemma UpgradeHappens(w: World, s: State, steps: seq<Step>, n: int, k: int, salt: D.Salt16, allow: bool)
    requires Initial(w, s) && k in w.keys
    requires var key := w.keys[k]; D.Eligible(key.secret, key.isCustom, key.accessKey, allow)
    requires var r := Run(w, s, steps);
             n in r.procs && k in r.history && r.history[k] != [] && k !in r.procs[n].inFlight
             && !D.Usable(r.history[k][|r.history[k]| - 1])
    ensures var r, key := Run(w, s, steps), w.keys[k];
            var t, seen := r.procs[n].next, |r.history[k]| - 1;
            var asked := steps + [Authenticate(n, k, seen, key.secret, salt, allow)];
            var upgraded := Run(w, s, asked + [Start(n, t)] + [Write(n, t)] + [Finish(n, t)]).history;
            k in upgraded && upgraded[k] == r.history[k] + [Some(Stored(w.sha, salt, key.secret))]
  {
    hide *;
    var r, key := Run(w, s, steps), w.keys[k];
    var ask := Authenticate(n, k, |r.history[k]| - 1, key.secret, salt, allow);
    RunPush(w, s, steps, ask);
    AskSchedules(w, r, n, k, salt, allow);
    TaskRuns(w, s, steps + [ask], n, r.procs[n].next);
  }

  lemma AskSchedules(w: World, b: State, n: int, k: int, salt: D.Salt16, allow: bool)
    requires n in b.procs && k in w.keys && k in b.history && b.history[k] != [] && k !in b.procs[n].inFlight
    requires D.Eligible(w.keys[k].secret, w.keys[k].isCustom, w.keys[k].accessKey, allow)
    requires !D.Usable(b.history[k][|b.history[k]| - 1])
    ensures var key, seen, t := w.keys[k], |b.history[k]| - 1, b.procs[n].next;
            var ask := Authenticate(n, k, seen, key.secret, salt, allow);
            && Enabled(w, b, ask)
            && var asked := Next(w, b, ask);
               && asked.history == b.history && n in asked.procs && t in asked.procs[n].tasks
               && asked.procs[n].tasks[t]
                  == Task(k, Stored(w.sha, salt, key.secret), b.history[k][seen], Created)
  {
    hide D.Usable, D.Eligible;
  }
}
