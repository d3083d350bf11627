// gpustack/cloud_providers/shuihua.py: creating a VM under a key, polling it to
// a condition, and walking the pages of the VM list.
module Shuihua {
  import opened Text
  import D = Digest
  import L = Lease

  datatype VMStatus = CreatingVM | Processing | Active | FailedVM | Expired | TerminatedVM

  datatype InstanceState = CREATED | RUNNING | FAILED | STOPPED | TERMINATED | UNKNOWN

  /** status_mapping, UNKNOWN for a status the client does not know. */
  function StateOf(status: Option<VMStatus>): InstanceState {
    match status
    case None => UNKNOWN
    case Some(CreatingVM) => CREATED
    case Some(Processing) => CREATED
    case Some(Active) => RUNNING
    case Some(FailedVM) => FAILED
    case Some(Expired) => STOPPED
    case Some(TerminatedVM) => TERMINATED
  }

  predicate Terminal(s: InstanceState) {
    s == FAILED || s == TERMINATED
  }

  /** A pending VM counts as created, an active one as running, an expired one as
      stopped; failed and terminated ones, and only those, are beyond hope. */
  lemma StatesAre(status: Option<VMStatus>)
    ensures Terminal(StateOf(status)) <==> status in {Some(FailedVM), Some(TerminatedVM)}
    ensures StateOf(status) == CREATED <==> status in {Some(CreatingVM), Some(Processing)}
    ensures StateOf(status) == RUNNING <==> status == Some(Active)
    ensures StateOf(status) == STOPPED <==> status == Some(Expired)
    ensures StateOf(status) == UNKNOWN <==> status == None
    ensures StateOf(status) == FAILED <==> status == Some(FailedVM)
  {
  }

  // ------------------------------------------------------------------ create

  datatype CreateResult = Created(id: nat) | BadArgument | NoId | ProvisioningFailed

  /** What create_instance is given: the type parsed as an integer, if it is one,
      and the labels' cluster and worker id as text. */
  datatype Order = Order(template: Option<int>, userData: string, name: string, key: string,
                         clusterLabel: string, workerLabel: string)

  const MAX_KEY := 64
  const MAX_NAME := 64
  const MAX_USER_DATA := 65536

  /** len(text.encode()) */
  function Utf8Size(s: string): nat {
    if s == "" then 0
    else
      var c := s[0] as int;
      (if c < 0x80 then 1 else if c < 0x800 then 2 else if c < 0x10000 then 3 else 4) + Utf8Size(s[1..])
  }

  /** How many characters are at or above a code point. */
  function AtOrAbove(s: string, least: int): nat {
    if s == "" then 0 else AtOrAbove(s[1..], least) + if s[0] as int >= least then 1 else 0
  }

  /** Every character takes a byte, and one more from each of the three bounds of
      UTF-8 (section 3 of RFC 3629) on. */
  lemma {:induction false} Utf8SizeIs(s: string)
    ensures Utf8Size(s) == |s| + AtOrAbove(s, 0x80) + AtOrAbove(s, 0x800) + AtOrAbove(s, 0x10000)
  {
    if s != "" {
      Utf8SizeIs(s[1..]);
    }
  }

  /** _idempotency_key: the key given, or one that knows no attempts. */
  function KeyToSend(sha: D.Sha, x: Order): string {
    if x.key != "" then x.key
    else "gpustack-" + D.ToHex(sha(x.clusterLabel + "/" + (x.workerLabel + "/" + x.name)))[..32]
  }

  /** The name as sent, None for an empty one. */
  function NameToSend(name: string): Option<string> {
    var short := if |name| > MAX_NAME then name[..MAX_NAME] else name;
    if short == "" then None else Some(short)
  }

  /** The caller's key is sent as it is. Without one the key knows the labels and
      the name and nothing of attempts: two orders share it exactly if they agree on
      those, as far as the hash tells texts apart. */
  lemma KeySent(sha: D.Sha, x: Order, y: Order)
    ensures x.key != "" ==> KeyToSend(sha, x) == x.key
    ensures x.key == "" ==> |KeyToSend(sha, x)| == 41 && "gpustack-" <= KeyToSend(sha, x)
    ensures x.key == y.key == "" && Labelled(x) && Labelled(y)
            && (LabelText(x) != LabelText(y) ==> sha(LabelText(x))[..16] != sha(LabelText(y))[..16]) ==>
              (KeyToSend(sha, x) == KeyToSend(sha, y) <==>
               x.clusterLabel == y.clusterLabel && x.workerLabel == y.workerLabel && x.name == y.name)
  {
    if x.key == "" {
      L.HexPrefix(sha(LabelText(x)), 16);
      assert KeyToSend(sha, x)[..9] == "gpustack-";
    }
    if x.key == y.key == "" && Labelled(x) && Labelled(y) {
      L.HexPrefix(sha(LabelText(y)), 16);
      D.ToHexInjective(sha(LabelText(x))[..16], sha(LabelText(y))[..16]);
      assert KeyToSend(sha, x)[9..] == D.ToHex(sha(LabelText(x)))[..32];
      assert KeyToSend(sha, y)[9..] == D.ToHex(sha(LabelText(y)))[..32];
      if LabelText(x) == LabelText(y) {
        FieldsUnique(x.clusterLabel, y.clusterLabel, '/', x.workerLabel + "/" + x.name, y.workerLabel + "/" + y.name);
        FieldsUnique(x.workerLabel, y.workerLabel, '/', x.name, y.name);
      }
    }
  }

  predicate Labelled(x: Order) {
    '/' !in x.clusterLabel && '/' !in x.workerLabel
  }

  /** <cluster>/<worker>/<name> */
  function LabelText(x: Order): string {
    x.clusterLabel + "/" + (x.workerLabel + "/" + x.name)
  }

  class Account {
    var provider: L.Provider
    var status: map<nat, Option<VMStatus>>
    var names: map<nat, Option<string>>

    constructor ()
      ensures provider == L.Provider(map[], 0, {}) && status == map[] && names == map[]
    {
      provider, status, names := L.Provider(map[], 0, {}), map[], map[];
    }

    /** POST /vms: a replayed key answers with the first lease as it is now. */
    method CreateVm(key: string, name: Option<string>) returns (id: nat)
      modifies this
      ensures (provider, id) == L.CreateVm(old(provider), key)
      ensures status == if key in old(provider).leases then old(status) else old(status)[id := Some(CreatingVM)]
      ensures names == if key in old(provider).leases then old(names) else old(names)[id := name]
    {
      if key in provider.leases {
        id := provider.leases[key];
      } else {
        id := provider.next;
        provider := L.Provider(provider.leases[key := id], provider.next + 1, provider.dead);
        status, names := status[id := Some(CreatingVM)], names[id := name];
      }
    }
  }

  predicate Acceptable(sha: D.Sha, x: Order) {
    && x.template.Some?
    && "#cloud-config" <= x.userData && Utf8Size(x.userData) <= MAX_USER_DATA
    && |KeyToSend(sha, x)| <= MAX_KEY
  }

  /** create_instance with the client's create_vm; identified says whether the
      answer carries a VM id. */
  method CreateInstance(account: Account, sha: D.Sha, x: Order, identified: bool) returns (r: CreateResult)
    modifies account
    ensures r.BadArgument? <==> !Acceptable(sha, x)
    ensures !Acceptable(sha, x) ==>
              account.provider == old(account.provider) && account.status == old(account.status)
              && account.names == old(account.names)
    ensures Acceptable(sha, x) ==>
              var call := L.CreateVm(old(account.provider), KeyToSend(sha, x));
              && account.provider == call.0
              && (call.0 != old(account.provider) ==>
                    && call.1 in account.names
                    && account.names[call.1]
                       == if x.name == "" then None else Some(if |x.name| <= 64 then x.name else x.name[..64]))
              && r == if !identified then NoId
                      else if call.1 in account.status && account.status[call.1] in {Some(FailedVM), Some(TerminatedVM)}
                      then ProvisioningFailed else Created(call.1)
    ensures r.BadArgument? <==>
              || x.template.None? || !("#cloud-config" <= x.userData) || |x.key| > 64
              || |x.userData| + AtOrAbove(x.userData, 0x80) + AtOrAbove(x.userData, 0x800)
                 + AtOrAbove(x.userData, 0x10000) > 65536
  {
    KeySent(sha, x, x);
    Utf8SizeIs(x.userData);
    if x.template.None? || x.userData == "" {
      return BadArgument;
    }
    var key := KeyToSend(sha, x);
    if |key| > MAX_KEY || !("#cloud-config" <= x.userData) || Utf8Size(x.userData) > MAX_USER_DATA {
      return BadArgument;
    }
    var id := account.CreateVm(key, NameToSend(x.name));
    if !identified {
      return NoId;
    }
    if id in account.status && Terminal(StateOf(account.status[id])) {
      return ProvisioningFailed;
    }
    r := Created(id);
  }

  // -------------------------------------------------------------------- wait

  datatype Instance = Instance(state: InstanceState, ip: string)

  /** What get_instance answers: nothing for a 404 or a malformed id, or it
      raises some other API error. */
  datatype Poll = Gone | Seen(i: Instance) | ApiError

  datatype WaitResult = Ready(i: Instance) | Failed | Errored | TimedOut

  predicate Over(p: Poll, ready: Instance -> bool) {
    p.ApiError? || (p.Seen? && (ready(p.i) || Terminal(p.i.state)))
  }

  function Verdict(p: Poll, ready: Instance -> bool): WaitResult
    requires Over(p, ready)
  {
    if p.ApiError? then Errored else if ready(p.i) then Ready(p.i) else Failed
  }

  /** The loop of both waits. It stops at the first poll that is over, with that
      poll's verdict, and times out only after limit polls none of which was. */
  method Wait(polls: nat -> Poll, ready: Instance -> bool, limit: nat) returns (r: WaitResult, made: nat)
    ensures made <= limit
    ensures r == TimedOut ==> made == limit && forall i :: 0 <= i < limit ==> !Over(polls(i), ready)
    ensures r != TimedOut ==>
              && 0 < made && Over(polls(made - 1), ready) && r == Verdict(polls(made - 1), ready)
              && forall i :: 0 <= i < made - 1 ==> !Over(polls(i), ready)
  {
    made := 0;
    while made < limit
      invariant made <= limit
      invariant forall i :: 0 <= i < made ==> !Over(polls(i), ready)
    {
      var p := polls(made);
      made := made + 1;
      if p.ApiError? {
        return Errored, made;
      }
      if p.Seen? && ready(p.i) {
        return Ready(p.i), made;
      }
      if p.Seen? && Terminal(p.i.state) {
        return Failed, made;
      }
    }
    r := TimedOut;
  }

  const STARTED: Instance -> bool := (i: Instance) => i.state == RUNNING
  const ADDRESSED: Instance -> bool := (i: Instance) => i.ip != ""

  /** The first poll within the limit that is over decides; none is a timeout. */
  ghost predicate Decided(polls: nat -> Poll, ready: Instance -> bool, limit: nat, r: WaitResult) {
    || (r == TimedOut && forall i: nat :: i < limit ==> !Over(polls(i), ready))
    || (exists k: nat :: k < limit && Over(polls(k), ready) && r == Verdict(polls(k), ready)
          && forall i: nat :: i < k ==> !Over(polls(i), ready))
  }

  /** Neither running nor beyond hope; not addressed nor beyond hope. */
  predicate Awaiting(p: Poll) {
    p.Gone? || (p.Seen? && p.i.state in {CREATED, STOPPED, UNKNOWN})
  }

  predicate Unaddressed(p: Poll) {
    p.Gone? || (p.Seen? && p.i.ip == "" && p.i.state in {CREATED, RUNNING, STOPPED, UNKNOWN})
  }

  /** wait_for_started: a running instance that some poll saw, or no poll saw one
      running, failed or terminated. */
  method WaitForStarted(polls: nat -> Poll, limit: nat) returns (r: WaitResult)
    ensures Decided(polls, STARTED, limit, r)
    ensures forall k: nat :: k < limit && (forall i: nat :: i < k ==> Awaiting(polls(i))) ==>
              match polls(k)
              case Gone => true
              case ApiError => r == Errored
              case Seen(i) =>
                  (i.state == RUNNING ==> r == Ready(i)) && (i.state in {FAILED, TERMINATED} ==> r == Failed)
    ensures (forall k: nat :: k < limit ==> Awaiting(polls(k))) ==> r == TimedOut
    ensures r.Ready? ==> r.i.state == RUNNING && exists i: nat :: i < limit && polls(i) == Seen(r.i)
    ensures r.TimedOut? ==> forall i: nat :: i < limit ==>
              polls(i).Gone? || (polls(i).Seen? && polls(i).i.state != RUNNING && !Terminal(polls(i).i.state))
  {
    var made: nat;
    r, made := Wait(polls, STARTED, limit);
    if r != TimedOut {
      assert Over(polls(made - 1), STARTED);
    }
  }

  /** wait_for_public_ip: an address ends the wait even on a dead instance. */
  method WaitForPublicIp(polls: nat -> Poll, limit: nat) returns (r: WaitResult)
    ensures Decided(polls, ADDRESSED, limit, r)
    ensures forall k: nat :: k < limit && (forall i: nat :: i < k ==> Unaddressed(polls(i))) ==>
              match polls(k)
              case Gone => true
              case ApiError => r == Errored
              case Seen(i) => if i.ip != "" then r == Ready(i) else i.state in {FAILED, TERMINATED} ==> r == Failed
    ensures (forall k: nat :: k < limit ==> Unaddressed(polls(k))) ==> r == TimedOut
    ensures r.Ready? ==> r.i.ip != "" && exists i: nat :: i < limit && polls(i) == Seen(r.i)
    ensures r.TimedOut? ==> forall i: nat :: i < limit ==>
              polls(i).Gone? || (polls(i).Seen? && polls(i).i.ip == "" && !Terminal(polls(i).i.state))
  {
    var made: nat;
    r, made := Wait(polls, ADDRESSED, limit);
    if r != TimedOut {
      assert Over(polls(made - 1), ADDRESSED);
    }
  }

  // ------------------------------------------------------------------ paging

  function Min(a: int, b: int): int {
    if a < b then a else b
  }

  /** list_vms: the 1-based page of a fixed list. */
  function Page<T>(vms: seq<T>, page: nat, size: nat): seq<T>
    requires page >= 1 && size >= 1
  {
    Offset(page, size);
    vms[Min((page - 1) * size, |vms|)..Min(page * size, |vms|)]
  }

  lemma Offset(page: nat, size: nat)
    requires page >= 1 && size >= 1
    ensures page * size == (page - 1) * size + size && (page - 1) * size >= 0
  {
  }

  /** How much of the list a walk sees: all of it, unless the server claims too
      few pages; at least one page is always read. */
  function Reached(n: nat, size: nat, totalPages: Option<int>): nat
    requires size >= 1
  {
    match totalPages
    case None => n
    case Some(t) =>
      if t <= 1 then Min(n, size) else (Offset(t, size); Min(n, t * size))
  }

  /** iter_vms, for any page size and any claimed number of pages. */
  method IterVms<T>(vms: seq<T>, size: nat, totalPages: Option<int>) returns (yielded: seq<T>)
    requires size >= 1
    ensures yielded == vms[..Reached(|vms|, size, totalPages)]
  {
    yielded := [];
    var page := 1;
    while true
      invariant page >= 1 && (page - 1) * size <= |vms|
      invariant yielded == vms[..(page - 1) * size]
      invariant totalPages.Some? && page > 1 ==> page - 1 < totalPages.value
      decreases |vms| - (page - 1) * size
    {
      Offset(page, size);
      var items := Page(vms, page, size);
      yielded := yielded + items;
      assert yielded == vms[..Min(page * size, |vms|)];
      if items == [] || |items| < size || (totalPages.Some? && page >= totalPages.value) {
        PagesReached(|vms|, page, size, totalPages);
        return;
      }
      page := page + 1;
    }
  }

  lemma PagesReached(n: nat, page: nat, size: nat, totalPages: Option<int>)
    requires page >= 1 && size >= 1 && (page - 1) * size <= n
    requires totalPages.Some? && page > 1 ==> page - 1 < totalPages.value
    requires n < page * size || (totalPages.Some? && page >= totalPages.value)
    ensures Min(page * size, n) == Reached(n, size, totalPages)
  {
    Offset(page, size);
    if totalPages.Some? && totalPages.value > page {
      MoreIsMore(page, totalPages.value, size);
    }
  }

  lemma MoreIsMore(a: nat, b: nat, size: nat)
    requires a <= b
    ensures a * size <= b * size
  {
    assert (b - a) * size >= 0;
    assert b * size == a * size + (b - a) * size;
  }

  /** The walk yields every VM exactly once and in order precisely when no
      number of pages is claimed, or enough pages are. */
  lemma WalkIsComplete(n: nat, size: nat, totalPages: Option<int>)
    requires size >= 1
    ensures Reached(n, size, totalPages) == n <==>
            totalPages.None? || n <= size || (totalPages.value >= 1 && n <= totalPages.value * size)
  {
    if totalPages.Some? && totalPages.value >= 1 {
      MoreIsMore(1, totalPages.value, size);
    }
  }
}
