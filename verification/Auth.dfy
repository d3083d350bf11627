// gpustack/api/auth.py in its own form: module-level sets that a process
// updates, the token lookup loop, and the backfill task with its finally
// clause. Each method is proved against the step functions of module Backfill.
module Auth {
  import opened Text
  import opened Backfill
  import opened Sql
  import D = Digest
  import Names

  /** The detached ApiKey that get_by_access_key returns. */
  datatype Row = Row(id: int, key: Key, digest: Option<string>, userId: int, expiresAt: Option<int>)

  datatype Outcome = Refused | Granted(user: int, row: Row) | InternalError

  predicate Dashes(i: nat) {
    i == 8 || i == 13 || i == 18 || i == 23
  }

  /** parse_hyphen_uuid accepts: 8-4-4-4-12 hex digits of either case. */
  predicate HyphenUuid(s: string) {
    |s| == 36 && forall i :: 0 <= i < 36 ==> if Dashes(i) then s[i] == '-' else D.HexValue(s[i]).Some?
  }

  /** The access keys to look up, in order. */
  function Candidates(accessKey: string): seq<string> {
    var ak := if HyphenUuid(accessKey) then "" else accessKey;
    if |ak| == 32 then [ak, ""] else [ak]
  }

  predicate Hexes(s: string, n: nat) {
    |s| == n && forall c :: c in s ==> c in "0123456789abcdefABCDEF"
  }

  /** Five groups of hex digits, joined by hyphens. */
  ghost predicate FiveGroups(s: string) {
    exists a, b, c, d, e ::
      Hexes(a, 8) && Hexes(b, 4) && Hexes(c, 4) && Hexes(d, 4) && Hexes(e, 12)
      && s == a + "-" + b + "-" + c + "-" + d + "-" + e
  }

  lemma GroupIsHex(s: string, from: nat, n: nat)
    requires from + n <= |s|
    ensures Hexes(s[from..from + n], n) <==> forall i :: from <= i < from + n ==> D.HexValue(s[i]).Some?
  {
    var group := s[from..from + n];
    if Hexes(group, n) {
      forall i | from <= i < from + n ensures D.HexValue(s[i]).Some? {
        assert group[i - from] in group;
      }
    }
  }

  lemma HyphenUuidIs(s: string)
    ensures HyphenUuid(s) <==> FiveGroups(s)
  {
    if |s| == 36 {
      GroupIsHex(s, 0, 8);
      GroupIsHex(s, 9, 4);
      GroupIsHex(s, 14, 4);
      GroupIsHex(s, 19, 4);
      GroupIsHex(s, 24, 12);
    }
    hide Hexes;
    if HyphenUuid(s) {
      GroupsJoin(s);
    }
    if FiveGroups(s) {
      FiveGroupsAre(s);
    }
  }

  lemma GroupsJoin(s: string)
    requires |s| == 36 && s[8] == s[13] == s[18] == s[23] == '-'
    ensures s == s[0..8] + "-" + s[9..13] + "-" + s[14..18] + "-" + s[19..23] + "-" + s[24..36]
  {
  }

  lemma FiveGroupsAre(s: string)
    requires FiveGroups(s)
    ensures |s| == 36 && s[8] == s[13] == s[18] == s[23] == '-'
    ensures Hexes(s[0..8], 8) && Hexes(s[9..13], 4) && Hexes(s[14..18], 4) && Hexes(s[19..23], 4)
    ensures Hexes(s[24..36], 12)
  {
    var a, b, c, d, e :|
      Hexes(a, 8) && Hexes(b, 4) && Hexes(c, 4) && Hexes(d, 4) && Hexes(e, 12)
      && s == a + "-" + b + "-" + c + "-" + d + "-" + e;
    assert |a| == 8 && |b| == 4 && |c| == 4 && |d| == 4 && |e| == 12;
    hide Hexes;
    assert s[0..8] == a && s[9..13] == b && s[14..18] == c && s[19..23] == d && s[24..36] == e;
  }

  /** The first candidate that names a row. */
  function FirstRow(rows: map<string, Row>, candidates: seq<string>): Option<Row> {
    if candidates == [] then None
    else if candidates[0] in rows then Some(rows[candidates[0]])
    else FirstRow(rows, candidates[1..])
  }

  predicate Expired(row: Row, now: int) {
    row.expiresAt.Some? && row.expiresAt.value <= now
  }

  /** Which row is looked up: the access key's; for one of 32 characters without
      a row, and for the hyphenated UUID of a legacy worker, the one with an empty
      access key. */
  lemma LookedUp(rows: map<string, Row>, accessKey: string)
    ensures FirstRow(rows, Candidates(accessKey)) ==
            if !FiveGroups(accessKey) && accessKey in rows then Some(rows[accessKey])
            else if (FiveGroups(accessKey) || |accessKey| == 32) && "" in rows then Some(rows[""])
            else None
  {
    HyphenUuidIs(accessKey);
    hide FiveGroups, HyphenUuid;
    var candidates := Candidates(accessKey);
    assert candidates[1..] == if !HyphenUuid(accessKey) && |accessKey| == 32 then [""] else [];
    assert [""][1..] == [];
    assert FirstRow(rows, []) == None;
    assert FirstRow(rows, [""]) == if "" in rows then Some(rows[""]) else None;
  }

  /** The row a token names, if it is there and still valid. */
  function Named(rows: map<string, Row>, blake: string -> string, token: string, now: int): Option<Row> {
    match FirstRow(rows, Candidates(Names.KeyPair(blake, token).0))
    case None => None
    case Some(row) => if Expired(row, now) then None else Some(row)
  }

  /** Whom a token authenticates, stated without the process. */
  function Expected(sha: D.Sha, row: Option<Row>, secret: string, users: set<int>): Outcome {
    if row.None? then Refused
    else
      match Decide(sha, row.value.key, row.value.digest, secret)
      case None => InternalError
      case Some(verified) =>
          if verified && row.value.userId in users then Granted(row.value.userId, row.value) else Refused
  }

  /** The guard of the UPDATE, as SQL sees it. */
  function Guard(expected: Option<string>, cell: Option<string>): Truth {
    match expected
    case None => Null(cell)
    case Some(v) => Equal(cell, v)
  }

  /** The digest column after compare-and-sets of other processes. */
  function AfterOthers(cell: Option<string>, others: seq<(Option<string>, string)>): Option<string>
    decreases |others|
  {
    if others == [] then cell
    else AfterOthers(Last(CompareAndSet([cell], others[0].0, others[0].1)), others[1..])
  }

  /** How a task ends does not depend on how far it came. */
  lemma MovedThenEnded(p: Process, t: nat, stage: Stage, cleanup: bool)
    requires t in p.tasks
    ensures var q := Moved(p, t, stage);
            && t in q.tasks && q.tasks[t].keyId == p.tasks[t].keyId && q.tasks[t].expected == p.tasks[t].expected
            && q.tasks[t].digest == p.tasks[t].digest && Ended(q, t, cleanup) == Ended(p, t, cleanup)
  {
    assert Moved(p, t, stage).tasks - {t} == p.tasks - {t};
  }

  /** The api_keys table, as far as the digest column goes. */
  class KeyTable {
    var digests: map<int, Option<string>>

    constructor (initial: map<int, Option<string>>)
      ensures digests == initial
    {
      digests := initial;
    }

    /** UPDATE ... SET secret_key_digest = digest WHERE id = id AND the guard: the
        row changes where the guard is true, which is where the protocol's
        comparison of optional values holds. */
    method UpdateWhere(id: int, expected: Option<string>, digest: string)
      modifies this
      ensures id !in old(digests) ==> digests == old(digests)
      ensures id in old(digests) ==>
                digests == old(digests)[id := Last(CompareAndSet([old(digests)[id]], expected, digest))]
    {
      if id in digests && Guard(expected, digests[id]) == True {
        digests := digests[id := Some(digest)];
      }
    }
  }

  /** How a backfill task goes: it runs through, it is cancelled before its first
      step, or an exception or a cancellation strikes before or after the commit. */
  datatype Fault = NoFault | NeverStarted | BeforeCommit | AfterCommit

  class AuthProcess {
    var inFlight: set<int>
    var tasks: map<nat, Task>
    var next: nat
    var stranded: set<int>
    var warned: set<int>

    constructor ()
      ensures View() == Process({}, map[], 0, {}) && warned == {}
    {
      inFlight, tasks, next, stranded, warned := {}, map[], 0, {}, {};
    }

    function View(): Process
      reads this
    {
      Process(inFlight, tasks, next, stranded)
    }

    /** _schedule_secret_key_digest_backfill */
    method ScheduleBackfill(sha: D.Sha, row: Row, secret: string, salt: D.Salt16, allowCustom: bool)
      modifies this
      ensures View() == Schedule(old(View()), sha, row.id, row.key, row.digest, secret, salt, allowCustom)
      ensures warned == old(warned)
    {
      var digest := D.New(sha, salt, secret, row.key.isCustom, row.key.accessKey, allowCustom);
      if digest.None? {
        return;
      }
      if row.id in inFlight {
        return;
      }
      tasks := tasks[next := Task(row.id, digest.value, row.digest, Created)];
      next := next + 1;
      inFlight := inFlight + {row.id};
    }

    /** get_user_from_api_token. rows is what the cached lookup answers, users
        the ids that still resolve to a user. */
    method GetUserFromApiToken(sha: D.Sha, blake: string -> string, rows: map<string, Row>, users: set<int>,
                               token: string, now: int, salt: D.Salt16, allowCustom: bool)
      returns (outcome: Outcome)
      modifies this
      ensures var row := Named(rows, blake, token, now);
              var secret := Names.KeyPair(blake, token).1;
              && outcome == Expected(sha, row, secret, users)
              && View() == (match row
                            case None => old(View())
                            case Some(r) =>
                                Authenticated(old(View()), sha, r.id, r.key, r.digest, secret, salt, allowCustom))
              && warned == old(warned)
                 + (if row.Some? && row.value.digest !in {None, Some("")} && !D.Usable(row.value.digest)
                    then {row.value.id} else {})
    {
      var pair := Names.KeyPair(blake, token);
      var candidates := Candidates(pair.0);
      var apiKey: Option<Row> := None;
      var i := 0;
      while i < |candidates|
        invariant 0 <= i <= |candidates|
        invariant apiKey == None
        invariant FirstRow(rows, candidates) == FirstRow(rows, candidates[i..])
        invariant View() == old(View())
      {
        if candidates[i] in rows {
          apiKey := Some(rows[candidates[i]]);
          break;
        }
        i := i + 1;
      }
      assert apiKey == FirstRow(rows, candidates);
      if apiKey.None? || Expired(apiKey.value, now) {
        return Refused;
      }
      var row := apiKey.value;
      var verified := false;
      if D.Usable(row.digest) {
        var check := D.Verify(sha, row.digest, pair.1);
        if check.None? {
          return InternalError;
        }
        verified := check.value;
      } else {
        if row.digest.GetOr("") != "" && row.id !in warned {
          warned := warned + {row.id};
        }
        verified := Slow(row.key, pair.1);
        if verified {
          ScheduleBackfill(sha, row, pair.1, salt, allowCustom);
        }
      }
      if verified && row.userId in users {
        return Granted(row.userId, row);
      }
      return Refused;
    }

    /** The first step of _backfill_secret_key_digest. */
    method BeginTask(t: nat)
      requires t in tasks
      modifies this
      ensures View() == Moved(old(View()), t, Running) && warned == old(warned)
    {
      tasks := tasks[t := tasks[t].(stage := Running)];
    }

    /** Its update and commit. */
    method UpdateRow(table: KeyTable, t: nat)
      requires t in tasks && tasks[t].keyId in table.digests
      modifies this, table
      ensures View() == Moved(old(View()), t, Written) && warned == old(warned)
      ensures var task := old(tasks)[t];
              table.digests == old(table.digests)[task.keyId :=
                Last(CompareAndSet([old(table.digests)[task.keyId]], task.expected, task.digest))]
    {
      table.UpdateWhere(tasks[t].keyId, tasks[t].expected, tasks[t].digest);
      tasks := tasks[t := tasks[t].(stage := Written)];
    }

    /** The finally clause, which runs if the coroutine has begun, and the done
        callback, which always does. */
    method EndTask(t: nat, begun: bool)
      requires t in tasks
      modifies this
      ensures View() == Ended(old(View()), t, begun) && warned == old(warned)
    {
      var id := tasks[t].keyId;
      if begun {
        inFlight := inFlight - {id};
      } else {
        stranded := stranded + {id};
      }
      tasks := tasks - {t};
    }

    /** What other processes write to the row meanwhile. */
    static method OthersWrite(table: KeyTable, id: int, others: seq<(Option<string>, string)>)
      requires id in table.digests
      modifies table
      ensures table.digests == old(table.digests)[id := AfterOthers(old(table.digests)[id], others)]
    {
      ghost var last := AfterOthers(table.digests[id], others);
      var i := 0;
      while i < |others|
        invariant 0 <= i <= |others| && id in table.digests && last == AfterOthers(table.digests[id], others[i..])
        invariant table.digests == old(table.digests)[id := table.digests[id]]
      {
        table.UpdateWhere(id, others[i].0, others[i].1);
        i := i + 1;
      }
    }

    /** _backfill_secret_key_digest, with the row written by other processes
        before its update. */
    method RunBackfill(table: KeyTable, t: nat, fault: Fault, others: seq<(Option<string>, string)>)
      requires t in tasks && tasks[t].keyId in table.digests
      modifies this, table
      ensures View() == Ended(old(View()), t, fault != NeverStarted) && warned == old(warned)
      ensures var task := old(tasks)[t];
              var cell := AfterOthers(old(table.digests)[task.keyId], others);
              table.digests == old(table.digests)[task.keyId :=
                if fault == NeverStarted || fault == BeforeCommit then cell
                else Last(CompareAndSet([cell], task.expected, task.digest))]
    {
      hide AfterOthers, CompareAndSet, Moved, Ended;
      MovedThenEnded(View(), t, Running, fault != NeverStarted);
      if fault != NeverStarted {
        BeginTask(t);
      }
      OthersWrite(table, tasks[t].keyId, others);
      MovedThenEnded(View(), t, Written, fault != NeverStarted);
      if fault == NoFault || fault == AfterCommit {
        UpdateRow(table, t);
      }
      EndTask(t, fault != NeverStarted);
    }
  }

  /** Every row the lookup answers is a copy of a key's row as it was at some
      moment of the run, under its access key. */
  ghost predicate Copies(w: World, history: map<int, seq<Option<string>>>, rows: map<string, Row>) {
    forall ak :: ak in rows ==>
      var row := rows[ak];
      && row.id in w.keys && w.keys[row.id] == row.key && row.key.accessKey == ak
      && row.id in history && row.digest in history[row.id]
  }

  lemma {:induction false} FirstRowIs(rows: map<string, Row>, candidates: seq<string>)
    ensures FirstRow(rows, candidates).Some? ==>
              exists ak :: ak in candidates && ak in rows && rows[ak] == FirstRow(rows, candidates).value
  {
    if candidates != [] {
      FirstRowIs(rows, candidates[1..]);
      assert candidates[0] in candidates && forall ak :: ak in candidates[1..] ==> ak in candidates;
    }
  }

  /** In every reachable state, on every cached copy and for every token: no
      error; granted is only the user of the row looked up, while it has no expiry
      or one in the future, with the row's secret or one that collides with it
      under a usable digest's salt; and in that time the row's secret is always
      granted to an existing user. */
  lemma GrantedIffOwner(w: World, s: State, steps: seq<Step>, rows: map<string, Row>, blake: string -> string,
                        token: string, now: int, users: set<int>)
    requires Initial(w, s) && Copies(w, Run(w, s, steps).history, rows)
    ensures var first := FirstRow(rows, Candidates(Names.KeyPair(blake, token).0));
            var secret := Names.KeyPair(blake, token).1;
            var o := Expected(w.sha, Named(rows, blake, token, now), secret, users);
            && o != InternalError
            && (o.Granted? ==>
                  && first.Some?
                  && var row := first.value;
                     && o == Granted(row.userId, row) && row.userId in users
                     && (row.expiresAt.None? || now < row.expiresAt.value)
                     && (secret == row.key.secret
                         || (D.Usable(row.digest)
                             && var salt := D.Parse(row.digest).value.0;
                                w.sha(salt + secret) == w.sha(salt + row.key.secret))))
            && (first.Some? && (first.value.expiresAt.None? || now < first.value.expiresAt.value)
                && secret == first.value.key.secret && first.value.userId in users
                ==> o == Granted(first.value.userId, first.value))
  {
    hide Run, D.Usable;
    var named := Named(rows, blake, token, now);
    if named.Some? {
      FirstRowIs(rows, Candidates(Names.KeyPair(blake, token).0));
      var row := named.value;
      var h := Run(w, s, steps).history[row.id];
      var seen: nat :| seen < |h| && h[seen] == row.digest;
      FastRefinesSlow(w, s, steps, row.id, seen, Names.KeyPair(blake, token).1);
    }
  }

  /** From the key handed to its owner: the token of a live key, printed, names
      that key's row and is granted. */
  lemma OwnersTokenIsGranted(w: World, s: State, steps: seq<Step>, rows: map<string, Row>, blake: string -> string,
                             accessKey: string, now: int, users: set<int>)
    requires Initial(w, s) && Copies(w, Run(w, s, steps).history, rows)
    requires accessKey in rows && '_' !in accessKey && !FiveGroups(accessKey)
    requires rows[accessKey].expiresAt.None? || now < rows[accessKey].expiresAt.value
    requires rows[accessKey].userId in users
    ensures var token := Names.PrintKey(accessKey, rows[accessKey].key.secret);
            Expected(w.sha, Named(rows, blake, token, now), Names.KeyPair(blake, token).1, users)
            == Granted(rows[accessKey].userId, rows[accessKey])
  {
    hide Run, D.Usable;
    var token := Names.PrintKey(accessKey, rows[accessKey].key.secret);
    Names.KeyRoundTrip(accessKey, rows[accessKey].key.secret);
    LookedUp(rows, accessKey);
    GrantedIffOwner(w, s, steps, rows, blake, token, now, users);
  }
}
