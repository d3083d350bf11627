// gpustack/exporter/bus_metrics.py over gpustack/server/bus.py: event counts of
// the live subscribers plus an accumulator of the departed ones, summed per
// label at scrape time.
module BusMetrics {
  import opened Text

  /** The label set of one event counter. */
  datatype Label = Label(topic: string, source: string, kind: string, eventType: string)

  type Counts = map<(string, string), nat>

  datatype Sub = Sub(topic: string, source: string, qsize: nat, maxsize: nat, latestKeys: nat, counts: Counts)

  /** What one subscriber contributes to a label. */
  function CountAt(s: Sub, l: Label): nat {
    if l.topic == s.topic && l.source == s.source && (l.kind, l.eventType) in s.counts
    then s.counts[(l.kind, l.eventType)] else 0
  }

  function At(m: map<Label, nat>, l: Label): nat {
    if l in m then m[l] else 0
  }

  // ------------------------------------------------- counters over whole runs

  /** subs lists every subscriber there ever was, alive the ones in the bus's
      lists, kept the ones folded into the accumulator, as they were then. An
      unsubscribe removes first and folds afterwards, on the event loop; a scrape
      runs on a thread of its own and may come in between. */
  datatype Bus = Bus(subs: seq<Sub>, alive: set<nat>, retired: map<Label, nat>, kept: map<nat, Sub>)

  const EMPTY := Bus([], {}, map[], map[])

  datatype Step =
    | Subscribe(topic: string, source: string)
    | Bump(sub: nat, kind: string, eventType: string)
    | Remove(sub: nat)
    | Fold(sub: nat)

  function Bumped(s: Sub, kind: string, eventType: string): Sub {
    var k := (kind, eventType);
    s.(counts := s.counts[k := if k in s.counts then s.counts[k] + 1 else 1])
  }

  function LabelOf(s: Sub, k: (string, string)): Label {
    Label(s.topic, s.source, k.0, k.1)
  }

  function Labels(s: Sub): set<Label> {
    set k | k in s.counts :: LabelOf(s, k)
  }

  /** The dictionary loop of unsubscribe and of collect: add every count. */
  function Folded(sums: map<Label, nat>, s: Sub): map<Label, nat> {
    map l | l in sums.Keys + Labels(s) :: At(sums, l) + CountAt(s, l)
  }

  function Next(b: Bus, step: Step): Bus {
    match step
    case Subscribe(t, src) => b.(subs := b.subs + [Sub(t, src, 0, 0, 0, map[])], alive := b.alive + {|b.subs|})
    case Bump(i, kind, et) => if i < |b.subs| then b.(subs := b.subs[i := Bumped(b.subs[i], kind, et)]) else b
    case Remove(i) => b.(alive := b.alive - {i})
    case Fold(i) =>
      if i < |b.subs| && i !in b.alive && i !in b.kept
      then b.(retired := Folded(b.retired, b.subs[i]), kept := b.kept[i := b.subs[i]])
      else b
  }

  function Run(steps: seq<Step>): Bus {
    if steps == [] then EMPTY else Next(Run(steps[..|steps| - 1]), steps[|steps| - 1])
  }

  /** The bus after the first n steps. */
  function State(steps: seq<Step>, n: nat): Bus
    requires n <= |steps|
  {
    Run(steps[..n])
  }

  /** What subscriber i has counted, and what the accumulator got of it. */
  function Counted(b: Bus, i: nat, l: Label): nat {
    if i < |b.subs| then CountAt(b.subs[i], l) else 0
  }

  function Kept(b: Bus, i: nat, l: Label): nat {
    if i in b.kept then CountAt(b.kept[i], l) else 0
  }

  /** What a collection that sees one moment reports of i. */
  function Shown(b: Bus, i: nat, l: Label): nat {
    if i in b.kept then Kept(b, i, l) else Counted(b, i, l)
  }

  // --------------------------------------------------------------------- sums

  function Sum(n: nat, f: nat -> nat): nat {
    if n == 0 then 0 else Sum(n - 1, f) + f(n - 1)
  }

  lemma {:induction false} SumSame(n: nat, f: nat -> nat, g: nat -> nat)
    requires forall i: nat :: i < n ==> f(i) == g(i)
    ensures Sum(n, f) == Sum(n, g)
  {
    if n > 0 { SumSame(n - 1, f, g); }
  }

  lemma {:induction false} SumMore(n: nat, f: nat -> nat, g: nat -> nat)
    requires forall i: nat :: i < n ==> f(i) <= g(i)
    ensures Sum(n, f) <= Sum(n, g)
    ensures Sum(n, f) == Sum(n, g) <==> forall i: nat :: i < n ==> f(i) == g(i)
  {
    if n > 0 { SumMore(n - 1, f, g); }
  }

  lemma {:induction false} SumPad(n: nat, m: nat, f: nat -> nat)
    requires n <= m && forall i: nat :: n <= i < m ==> f(i) == 0
    ensures Sum(m, f) == Sum(n, f)
  {
    if n < m { SumPad(n, m - 1, f); }
  }

  /** Sums that agree term by term in pairs. */
  lemma {:induction false} SumPairs(n: nat, a: nat -> nat, b: nat -> nat, c: nat -> nat, d: nat -> nat)
    requires forall i: nat :: i < n ==> a(i) + b(i) == c(i) + d(i)
    ensures Sum(n, a) + Sum(n, b) == Sum(n, c) + Sum(n, d)
  {
    if n > 0 { SumPairs(n - 1, a, b, c, d); }
  }

  function CountedFn(b: Bus, l: Label): nat -> nat {
    (i: nat) => Counted(b, i, l)
  }

  function KeptFn(b: Bus, l: Label): nat -> nat {
    (i: nat) => Kept(b, i, l)
  }

  function ShownFn(b: Bus, l: Label): nat -> nat {
    (i: nat) => Shown(b, i, l)
  }

  /** What the live subscribers, in a list or not, have on top of the
      accumulator. */
  function LiveFn(b: Bus, l: Label): nat -> nat {
    (i: nat) => if i in b.kept then 0 else Counted(b, i, l)
  }

  /** What a collection that sees one moment reports. */
  function Total(b: Bus, l: Label): nat {
    At(b.retired, l) + Sum(|b.subs|, LiveFn(b, l))
  }

  /** All that was ever counted. */
  function Everything(b: Bus, l: Label): nat {
    Sum(|b.subs|, CountedFn(b, l))
  }

  // -------------------------------------------------------------- invariants

  ghost predicate Inv(b: Bus) {
    && (forall i :: i in b.alive ==> i < |b.subs| && i !in b.kept)
    && (forall i :: i in b.kept ==> i < |b.subs|)
  }

  lemma FoldedAt(sums: map<Label, nat>, s: Sub, l: Label)
    ensures At(Folded(sums, s), l) == At(sums, l) + CountAt(s, l)
  {
    if (l.kind, l.eventType) in s.counts {
      assert LabelOf(s, (l.kind, l.eventType)) in Labels(s);
    }
  }

  lemma BumpedAt(s: Sub, kind: string, eventType: string, l: Label)
    ensures CountAt(Bumped(s, kind, eventType), l)
            == CountAt(s, l) + if l == LabelOf(s, (kind, eventType)) then 1 else 0
  {
  }

  /** What one step can do to one subscriber. */
  ghost predicate Grown(b: Bus, b': Bus, i: nat, l: Label) {
    && |b.subs| <= |b'.subs|
    && Counted(b, i, l) <= Counted(b', i, l)
    && (i in b.kept ==> i in b'.kept && b'.kept[i] == b.kept[i])
    && (i in b'.kept && i !in b.kept ==> Counted(b, i, l) <= Kept(b', i, l))
    && (i in b'.kept ==> Kept(b', i, l) <= Counted(b', i, l))
    && (i in b'.alive ==> i in b.alive || i >= |b.subs|)
  }

  lemma StepGrows(b: Bus, step: Step, i: nat, l: Label)
    requires Inv(b) && (i in b.kept ==> Kept(b, i, l) <= Counted(b, i, l))
    ensures Inv(Next(b, step)) && Grown(b, Next(b, step), i, l)
  {
    if step.Bump? && step.sub < |b.subs| {
      BumpedAt(b.subs[step.sub], step.kind, step.eventType, l);
    }
  }

  lemma {:induction false} RunInv(steps: seq<Step>, i: nat, l: Label)
    ensures Inv(Run(steps)) && (i in Run(steps).kept ==> Kept(Run(steps), i, l) <= Counted(Run(steps), i, l))
  {
    if steps != [] {
      RunInv(steps[..|steps| - 1], i, l);
      StepGrows(Run(steps[..|steps| - 1]), steps[|steps| - 1], i, l);
    }
  }

  /** Between any two moments of a run. */
  lemma {:induction false} Later(steps: seq<Step>, m: nat, n: nat, i: nat, l: Label)
    requires m <= n <= |steps|
    ensures Inv(State(steps, m)) && Inv(State(steps, n)) && Grown(State(steps, m), State(steps, n), i, l)
    decreases n
  {
    hide Next, Run, Grown, Inv, Counted, Kept;
    RunInv(steps[..m], i, l);
    if m < n {
      Later(steps, m, n - 1, i, l);
      RunInv(steps[..n - 1], i, l);
      StateNext(steps, n - 1);
      StepGrows(State(steps, n - 1), steps[n - 1], i, l);
      GrownOn(State(steps, m), State(steps, n - 1), State(steps, n), i, l);
    } else {
      GrownSelf(State(steps, m), i, l);
    }
  }

  lemma StateNext(steps: seq<Step>, n: nat)
    requires n < |steps|
    ensures State(steps, n + 1) == Next(State(steps, n), steps[n])
  {
    assert steps[..n + 1][..n] == steps[..n];
  }

  lemma GrownSelf(b: Bus, i: nat, l: Label)
    requires i in b.kept ==> Kept(b, i, l) <= Counted(b, i, l)
    ensures Grown(b, b, i, l)
  {
  }

  lemma GrownOn(a: Bus, b: Bus, c: Bus, i: nat, l: Label)
    requires Grown(a, b, i, l) && Grown(b, c, i, l)
    ensures Grown(a, c, i, l)
  {
    hide CountAt, Counted;
  }

  lemma SumAt(n: nat, f: nat -> nat, g: nat -> nat, i: nat)
    requires i < n && forall j: nat :: j < n && j != i ==> f(j) == g(j)
    ensures Sum(n, g) + f(i) == Sum(n, f) + g(i)
    decreases n
  {
    if i == n - 1 {
      SumSame(n - 1, f, g);
    } else {
      SumAt(n - 1, f, g, i);
    }
  }

  /** The accumulator is the sum of what was folded into it. */
  lemma {:induction false} RetiredIs(steps: seq<Step>, l: Label)
    ensures var b := Run(steps); At(b.retired, l) == Sum(|b.subs|, KeptFn(b, l))
  {
    if steps != [] {
      var b, step := Run(steps[..|steps| - 1]), steps[|steps| - 1];
      var b' := Next(b, step);
      RetiredIs(steps[..|steps| - 1], l);
      RunInv(steps[..|steps| - 1], 0, l);
      if step.Fold? && b' != b {
        FoldedAt(b.retired, b.subs[step.sub], l);
        SumAt(|b.subs|, KeptFn(b, l), KeptFn(b', l), step.sub);
      } else {
        SumSame(|b.subs|, KeptFn(b, l), KeptFn(b', l));
        SumPad(|b.subs|, |b'.subs|, KeptFn(b', l));
      }
    }
  }

  /** The reported total is the sum of what is shown of each subscriber. */
  lemma TotalIsShown(steps: seq<Step>, l: Label)
    ensures var b := Run(steps); Total(b, l) == Sum(|b.subs|, ShownFn(b, l))
  {
    var b := Run(steps);
    RetiredIs(steps, l);
    SumPairs(|b.subs|, KeptFn(b, l), LiveFn(b, l), ShownFn(b, l), ZERO);
    SumPad(0, |b.subs|, ZERO);
  }

  const ZERO: nat -> nat := (i: nat) => 0

  /** Over every run the reported total is at most the sum over all past and
      present subscribers, and equal to it exactly when none of them counted
      anything after it was folded. */
  lemma TotalIsSumLessLost(steps: seq<Step>, l: Label)
    ensures var b := Run(steps);
            && Total(b, l) <= Everything(b, l)
            && (Total(b, l) == Everything(b, l) <==>
                  forall i: nat :: i < |b.subs| && i in b.kept ==> CountAt(b.kept[i], l) == CountAt(b.subs[i], l))
  {
    var b := Run(steps);
    TotalIsShown(steps, l);
    forall i: nat | i < |b.subs| ensures ShownFn(b, l)(i) <= CountedFn(b, l)(i) {
      RunInv(steps, i, l);
    }
    SumMore(|b.subs|, ShownFn(b, l), CountedFn(b, l));
    if forall i: nat :: i < |b.subs| ==> ShownFn(b, l)(i) == CountedFn(b, l)(i) {
      forall i: nat | i < |b.subs| && i in b.kept ensures CountAt(b.kept[i], l) == CountAt(b.subs[i], l) {
        assert ShownFn(b, l)(i) == CountedFn(b, l)(i);
      }
    }
  }

  /** And it never goes down. */
  lemma TotalNeverDecreases(steps: seq<Step>, m: nat, n: nat, l: Label)
    requires m <= n <= |steps|
    ensures Total(State(steps, m), l) <= Total(State(steps, n), l)
  {
    hide Run, Total;
    var a, b := State(steps, m), State(steps, n);
    TotalIsShown(steps[..m], l);
    TotalIsShown(steps[..n], l);
    Later(steps, m, n, 0, l);
    forall i: nat | i < |b.subs| ensures ShownFn(a, l)(i) <= ShownFn(b, l)(i) {
      Later(steps, m, n, i, l);
    }
    SumPad(|a.subs|, |b.subs|, ShownFn(a, l));
    SumMore(|b.subs|, ShownFn(a, l), ShownFn(b, l));
  }

  // --------------------------------------------- a collection that is not atomic

  /** The moments of one scrape of a run: it copies the lists, later seeds with a
      copy of the accumulator, later reads the counts of each listed subscriber,
      one after the other. */
  datatype Scrape = Scrape(copy: nat, seed: nat, read: nat -> nat)

  ghost predicate Timed(steps: seq<Step>, x: Scrape) {
    x.copy <= x.seed <= |steps| && forall i :: x.seed <= x.read(i) <= |steps|
  }

  /** What it takes from i: the seed's share, and the count if i is listed. */
  function Share(steps: seq<Step>, x: Scrape, i: nat, l: Label): nat
    requires x.copy <= |steps| && x.seed <= |steps|
  {
    Kept(State(steps, x.seed), i, l)
    + if i in State(steps, x.copy).alive && x.read(i) <= |steps| then Counted(State(steps, x.read(i)), i, l) else 0
  }

  function ListedFn(steps: seq<Step>, x: Scrape, l: Label): nat -> nat
    requires x.copy <= |steps|
  {
    (i: nat) =>
      if i in State(steps, x.copy).alive && x.read(i) <= |steps| then Counted(State(steps, x.read(i)), i, l) else 0
  }

  function ShareFn(steps: seq<Step>, x: Scrape, l: Label): nat -> nat
    requires x.copy <= |steps| && x.seed <= |steps|
  {
    (i: nat) => Share(steps, x, i, l)
  }

  function Everyone(steps: seq<Step>): nat {
    |Run(steps).subs|
  }

  /** What the scrape reports: the seed, and the counts of those it listed. */
  function Scraped(steps: seq<Step>, x: Scrape, l: Label): nat
    requires x.copy <= |steps| && x.seed <= |steps|
  {
    At(State(steps, x.seed).retired, l) + Sum(Everyone(steps), ListedFn(steps, x, l))
  }

  lemma NobodyLater(steps: seq<Step>, n: nat, l: Label)
    requires n <= |steps|
    ensures |State(steps, n).subs| <= Everyone(steps)
  {
    assert steps[..|steps|] == steps;
    Later(steps, n, |steps|, 0, l);
  }

  lemma ScrapedIsShares(steps: seq<Step>, x: Scrape, l: Label)
    requires Timed(steps, x)
    ensures Scraped(steps, x, l) == Sum(Everyone(steps), ShareFn(steps, x, l))
  {
    var b := State(steps, x.seed);
    RetiredIs(steps[..x.seed], l);
    NobodyLater(steps, x.seed, l);
    RunInv(steps[..x.seed], 0, l);
    SumPad(|b.subs|, Everyone(steps), KeptFn(b, l));
    SumPairs(Everyone(steps), KeptFn(b, l), ListedFn(steps, x, l), ShareFn(steps, x, l), ZERO);
    SumPad(0, Everyone(steps), ZERO);
  }

  /** The second scrape begins when the first is over. */
  ghost predicate Follows(steps: seq<Step>, one: Scrape, two: Scrape) {
    Timed(steps, one) && Timed(steps, two) && forall i :: one.read(i) <= two.copy
  }

  /** The three ways for a subscriber that the first scrape listed to be worth
      less to the second: it was folded before the first one's seed, which thus
      took it twice; it was folded between that seed and the reading of its
      count, after which it still counted; or the second scrape falls between
      its removal and its folding and misses it. */
  predicate Doubled(steps: seq<Step>, one: Scrape, i: nat)
    requires one.seed <= |steps|
  {
    i in State(steps, one.seed).kept
  }

  predicate Overtaken(steps: seq<Step>, one: Scrape, two: Scrape, i: nat)
    requires one.seed <= |steps| && two.copy <= |steps| && two.seed <= |steps|
  {
    i !in State(steps, one.seed).kept && i in State(steps, two.seed).kept && i !in State(steps, two.copy).alive
  }

  predicate Missed(steps: seq<Step>, two: Scrape, i: nat)
    requires two.copy <= |steps| && two.seed <= |steps|
  {
    i !in State(steps, two.seed).kept && i !in State(steps, two.copy).alive
  }

  /** How much less the second scrape takes from i. */
  function Drop(steps: seq<Step>, one: Scrape, two: Scrape, i: nat, l: Label): nat
    requires one.copy <= |steps| && one.seed <= |steps| && two.copy <= |steps| && two.seed <= |steps|
  {
    if i !in State(steps, one.copy).alive || one.read(i) > |steps| then 0
    else
      var x := Counted(State(steps, one.read(i)), i, l);
      var f := Kept(State(steps, two.seed), i, l);
      if Doubled(steps, one, i) || Missed(steps, two, i) then x
      else if Overtaken(steps, one, two, i) && f < x then x - f
      else 0
  }

  function Above(y: nat, x: nat): nat {
    if x < y then y - x else 0
  }

  /** And how much more. Of one that the first scrape listed and did not find
      folded: what it counted since, and what it was folded with if the second
      scrape takes that as well or instead. Of one that the first neither listed
      nor found folded: all that the second takes. */
  function Rise(steps: seq<Step>, one: Scrape, two: Scrape, i: nat, l: Label): nat
    requires one.copy <= |steps| && one.seed <= |steps| && two.copy <= |steps| && two.seed <= |steps|
  {
    var f := Kept(State(steps, two.seed), i, l);
    var listed := i in State(steps, two.copy).alive && two.read(i) <= |steps|;
    var y := if listed then Counted(State(steps, two.read(i)), i, l) else 0;
    if i in State(steps, one.seed).kept then 0
    else if i !in State(steps, one.copy).alive || one.read(i) > |steps| then f + y
    else
      var x := Counted(State(steps, one.read(i)), i, l);
      if listed then Above(y, x) + f
      else if Overtaken(steps, one, two, i) then Above(f, x)
      else 0
  }

  function DropFn(steps: seq<Step>, one: Scrape, two: Scrape, l: Label): nat -> nat
    requires one.copy <= |steps| && one.seed <= |steps| && two.copy <= |steps| && two.seed <= |steps|
  {
    (i: nat) => Drop(steps, one, two, i, l)
  }

  function RiseFn(steps: seq<Step>, one: Scrape, two: Scrape, l: Label): nat -> nat
    requires one.copy <= |steps| && one.seed <= |steps| && two.copy <= |steps| && two.seed <= |steps|
  {
    (i: nat) => Rise(steps, one, two, i, l)
  }

  /** For each subscriber the shares of two scrapes differ by exactly that. */
  lemma ShareDrops(steps: seq<Step>, one: Scrape, two: Scrape, i: nat, l: Label)
    requires Follows(steps, one, two)
    ensures Share(steps, one, i, l) + Rise(steps, one, two, i, l)
            == Share(steps, two, i, l) + Drop(steps, one, two, i, l)
  {
    assert one.seed <= one.read(i) <= two.copy <= two.seed <= two.read(i) <= |steps|;
    Later(steps, one.copy, one.seed, i, l);
    Later(steps, one.seed, one.read(i), i, l);
    Later(steps, one.read(i), two.copy, i, l);
    Later(steps, two.copy, two.seed, i, l);
    Later(steps, two.seed, two.read(i), i, l);
  }

  /** Of two successive scrapes the second reports less exactly if the drops
      outweigh the rises. */
  lemma SecondReportsLess(steps: seq<Step>, one: Scrape, two: Scrape, l: Label)
    requires Follows(steps, one, two)
    ensures Scraped(steps, two, l) < Scraped(steps, one, l) <==>
            Sum(Everyone(steps), RiseFn(steps, one, two, l)) < Sum(Everyone(steps), DropFn(steps, one, two, l))
  {
    ScrapedIsShares(steps, one, l);
    ScrapedIsShares(steps, two, l);
    forall i: nat | i < Everyone(steps)
      ensures ShareFn(steps, one, l)(i) + RiseFn(steps, one, two, l)(i)
              == ShareFn(steps, two, l)(i) + DropFn(steps, one, two, l)(i)
    {
      ShareDrops(steps, one, two, i, l);
    }
    SumPairs(Everyone(steps), ShareFn(steps, one, l), RiseFn(steps, one, two, l),
             ShareFn(steps, two, l), DropFn(steps, one, two, l));
  }

  /** Nobody is between removal and folding. */
  ghost predicate Settled(b: Bus) {
    forall i: nat :: i < |b.subs| && i !in b.alive ==> i in b.kept
  }

  predicate NoFold(steps: seq<Step>, m: nat, n: nat) {
    forall k :: m <= k < n && k < |steps| ==> !steps[k].Fold?
  }

  lemma {:induction false} NothingFolded(steps: seq<Step>, m: nat, n: nat)
    requires m <= n <= |steps| && NoFold(steps, m, n)
    ensures State(steps, n).kept == State(steps, m).kept
    decreases n
  {
    if m < n {
      NothingFolded(steps, m, n - 1);
      StateNext(steps, n - 1);
    }
  }

  /** In particular the second never reports less if nobody is unsubscribed from
      the first one's copy to its last reading, and the second does not begin in
      the middle of an unsubscribe. */
  lemma NeverLessUnlessUnsubscribed(steps: seq<Step>, one: Scrape, two: Scrape, end: nat, l: Label)
    requires Follows(steps, one, two) && one.seed <= end <= |steps| && forall i :: one.read(i) <= end
    requires NoFold(steps, one.copy, end) && Settled(State(steps, two.copy))
    ensures Scraped(steps, two, l) >= Scraped(steps, one, l)
  {
    forall i: nat | i < Everyone(steps) ensures DropFn(steps, one, two, l)(i) == ZERO(i) {
      NothingDropped(steps, one, two, end, i, l);
    }
    SumSame(Everyone(steps), DropFn(steps, one, two, l), ZERO);
    SumPad(0, Everyone(steps), ZERO);
    SecondReportsLess(steps, one, two, l);
  }

  lemma NothingDropped(steps: seq<Step>, one: Scrape, two: Scrape, end: nat, i: nat, l: Label)
    requires Follows(steps, one, two) && one.seed <= end <= |steps| && forall j :: one.read(j) <= end
    requires NoFold(steps, one.copy, end) && Settled(State(steps, two.copy))
    ensures Drop(steps, one, two, i, l) == 0
  {
    assert one.seed <= one.read(i) <= two.copy <= two.seed <= two.read(i) <= |steps|;
    NothingFolded(steps, one.copy, one.seed);
    NothingFolded(steps, one.copy, one.read(i));
    Later(steps, one.copy, one.seed, i, l);
    Later(steps, one.copy, one.read(i), i, l);
    Later(steps, one.read(i), two.copy, i, l);
    Later(steps, two.copy, two.seed, i, l);
    Later(steps, one.read(i), two.seed, i, l);
  }

  /** A scrape that begins outside an unsubscribe reports no less than there was
      when it began ... */
  lemma ScrapeNeverShort(steps: seq<Step>, x: Scrape, l: Label)
    requires Timed(steps, x) && Settled(State(steps, x.copy))
    ensures Scraped(steps, x, l) >= Total(State(steps, x.copy), l)
  {
    var b := State(steps, x.copy);
    ScrapedIsShares(steps, x, l);
    TotalIsShown(steps[..x.copy], l);
    NobodyLater(steps, x.copy, l);
    RunInv(steps[..x.copy], 0, l);
    SumPad(|b.subs|, Everyone(steps), ShownFn(b, l));
    forall i: nat | i < Everyone(steps) ensures ShownFn(b, l)(i) <= ShareFn(steps, x, l)(i) {
      assert x.seed <= x.read(i) <= |steps|;
      Later(steps, x.copy, x.seed, i, l);
      Later(steps, x.copy, x.read(i), i, l);
    }
    SumMore(Everyone(steps), ShownFn(b, l), ShareFn(steps, x, l));
  }

  /** ... and exactly that if it sees one moment. */
  lemma InstantScrapeIsTotal(steps: seq<Step>, x: Scrape, l: Label)
    requires Timed(steps, x) && x.copy == x.seed && (forall i :: x.read(i) == x.copy) && Settled(State(steps, x.copy))
    ensures Scraped(steps, x, l) == Total(State(steps, x.copy), l)
  {
    var b := State(steps, x.copy);
    ScrapedIsShares(steps, x, l);
    TotalIsShown(steps[..x.copy], l);
    NobodyLater(steps, x.copy, l);
    RunInv(steps[..x.copy], 0, l);
    SumPad(|b.subs|, Everyone(steps), ShownFn(b, l));
    SumSame(Everyone(steps), ShownFn(b, l), ShareFn(steps, x, l));
  }

  /** A stream that closes: counted once, removed, folded, counted late. */
  const CLOSING: seq<Step> := [Subscribe("t", "streaming"), Bump(0, "enqueued", "CREATED"), Remove(0), Fold(0),
                               Bump(0, "enqueued", "CREATED")]

  const LABEL := Label("t", "streaming", "enqueued", "CREATED")

  const OPEN := Sub("t", "streaming", 0, 0, 0, map[])

  /** The subscriber after so many counts. */
  function Counting(n: nat): Sub {
    if n == 0 then OPEN else Bumped(Counting(n - 1), "enqueued", "CREATED")
  }

  lemma {:induction false} CountingIs(n: nat)
    ensures CountAt(Counting(n), LABEL) == n
  {
    if n > 0 {
      CountingIs(n - 1);
      BumpedAt(Counting(n - 1), "enqueued", "CREATED", LABEL);
    }
  }

  lemma ClosingRuns()
    ensures State(CLOSING, 2) == Bus([Counting(1)], {0}, map[], map[])
    ensures State(CLOSING, 3) == Bus([Counting(1)], {}, map[], map[])
    ensures State(CLOSING, 4) == Bus([Counting(1)], {}, Folded(map[], Counting(1)), map[0 := Counting(1)])
    ensures State(CLOSING, 5) == Bus([Counting(2)], {}, Folded(map[], Counting(1)), map[0 := Counting(1)])
  {
    hide Folded, Bumped;
    assert State(CLOSING, 0) == EMPTY;
    StateNext(CLOSING, 0);
    assert State(CLOSING, 1) == Bus([Counting(0)], {0}, map[], map[]);
    StateNext(CLOSING, 1);
    StateNext(CLOSING, 2);
    StateNext(CLOSING, 3);
    StateNext(CLOSING, 4);
    assert Counting(2) == Bumped(Counting(1), "enqueued", "CREATED");
    assert Counting(1) == Bumped(Counting(0), "enqueued", "CREATED");
  }

  lemma ClosingStates(n: nat)
    requires 2 <= n <= 5
    ensures var b := State(CLOSING, n);
            && |b.subs| == 1 && b.alive == (if n == 2 then {0} else {})
            && Counted(b, 0, LABEL) == (if n == 5 then 2 else 1)
            && At(b.retired, LABEL) == (if n < 4 then 0 else 1)
  {
    ClosingRuns();
    CountingIs(1);
    CountingIs(2);
    FoldedAt(map[], Counting(1), LABEL);
  }

  lemma ClosingScraped(x: Scrape)
    requires Timed(CLOSING, x) && 2 <= x.copy
    ensures Scraped(CLOSING, x, LABEL) == (if x.seed < 4 then 0 else 1)
            + if x.copy > 2 then 0 else if x.read(0) == 5 then 2 else 1
  {
    ClosingStates(x.copy);
    ClosingStates(x.seed);
    ClosingStates(x.read(0));
    ClosingStates(5);
    assert CLOSING[..5] == CLOSING;
    assert Sum(1, ListedFn(CLOSING, x, LABEL)) == ListedFn(CLOSING, x, LABEL)(0);
  }

  /** All three happen: the next scrape reports less. */
  lemma ScrapeCanDrop(one: Scrape, two: Scrape)
    requires Follows(CLOSING, one, two) && one.copy == 2
    requires || (one.seed == 4 && one.read(0) == 4 && two.copy == 4 && two.seed == 4)
             || (one.seed == 2 && one.read(0) == 2 && two.copy == 3 && two.seed == 3)
             || (one.seed == 2 && one.read(0) == 5 && two.copy == 5)
    ensures Scraped(CLOSING, two, LABEL) < Scraped(CLOSING, one, LABEL)
  {
    ClosingScraped(one);
    ClosingScraped(two);
  }

  // ------------------------------------------------------------- the collector

  type Pair = (string, string)

  /** The dictionaries collect fills. */
  datatype Metrics = Metrics(count: map<Pair, nat>, depth: map<Pair, nat>, capacity: map<Pair, nat>,
                             full: map<Pair, bool>, saturation: map<Pair, real>, latest: map<Pair, nat>,
                             events: map<Label, nat>)

  function PairOf(s: Sub): Pair {
    (s.topic, s.source)
  }

  /** queue.full(): a queue of size 0 is unbounded. */
  predicate Full(s: Sub) {
    s.maxsize > 0 && s.qsize >= s.maxsize
  }

  function Saturation(s: Sub): real {
    if s.maxsize > 0 then s.qsize as real / s.maxsize as real else 0.0
  }

  function Max(a: nat, b: nat): nat {
    if a < b then b else a
  }

  /** The largest measure over the subscribers of a pair, 0 for none. */
  function MaxOf(subs: seq<Sub>, p: Pair, measure: Sub -> nat): nat {
    if subs == [] then 0
    else
      var n := |subs| - 1;
      if PairOf(subs[n]) == p then Max(MaxOf(subs[..n], p, measure), measure(subs[n])) else MaxOf(subs[..n], p, measure)
  }

  function MaxSaturation(subs: seq<Sub>, p: Pair): real {
    if subs == [] then 0.0
    else
      var n := |subs| - 1;
      var rest := MaxSaturation(subs[..n], p);
      if PairOf(subs[n]) == p && rest < Saturation(subs[n]) then Saturation(subs[n]) else rest
  }

  function CountOf(subs: seq<Sub>, p: Pair): nat {
    if subs == [] then 0
    else CountOf(subs[..|subs| - 1], p) + if PairOf(subs[|subs| - 1]) == p then 1 else 0
  }

  predicate AnyFull(subs: seq<Sub>, p: Pair) {
    exists i :: 0 <= i < |subs| && PairOf(subs[i]) == p && Full(subs[i])
  }

  function EventSum(retired: map<Label, nat>, subs: seq<Sub>, l: Label): nat {
    if subs == [] then At(retired, l) else EventSum(retired, subs[..|subs| - 1], l) + CountAt(subs[|subs| - 1], l)
  }

  function Pairs(subs: seq<Sub>): set<Pair> {
    set i | 0 <= i < |subs| :: PairOf(subs[i])
  }

  const QSIZE := (s: Sub) => s.qsize
  const MAXSIZE := (s: Sub) => s.maxsize
  const LATEST := (s: Sub) => s.latestKeys

  predicate IsCount(d: map<Pair, nat>, subs: seq<Sub>) {
    d.Keys == Pairs(subs) && forall p :: p in d ==> d[p] == CountOf(subs, p)
  }

  predicate IsMax(d: map<Pair, nat>, subs: seq<Sub>, measure: Sub -> nat) {
    d.Keys == Pairs(subs) && forall p :: p in d ==> d[p] == MaxOf(subs, p, measure)
  }

  predicate IsFull(d: map<Pair, bool>, subs: seq<Sub>) {
    d.Keys == Pairs(subs) && forall p :: p in d ==> (d[p] <==> AnyFull(subs, p))
  }

  predicate IsSaturation(d: map<Pair, real>, subs: seq<Sub>) {
    d.Keys == Pairs(subs) && forall p :: p in d ==> d[p] == MaxSaturation(subs, p)
  }

  ghost predicate IsEvents(d: map<Label, nat>, retired: map<Label, nat>, subs: seq<Sub>) {
    && (forall l :: At(d, l) == EventSum(retired, subs, l))
    && (forall l :: l in d <==> l in retired || exists i :: 0 <= i < |subs| && l in Labels(subs[i]))
  }

  /** Each pair that has a subscriber appears once in every gauge, with the
      number of its subscribers and their maxima; each label appears once, with
      the accumulator and all counts added up. */
  ghost predicate Reports(m: Metrics, retired: map<Label, nat>, subs: seq<Sub>) {
    && IsCount(m.count, subs)
    && IsMax(m.depth, subs, QSIZE)
    && IsMax(m.capacity, subs, MAXSIZE)
    && IsFull(m.full, subs)
    && IsSaturation(m.saturation, subs)
    && IsMax(m.latest, subs, LATEST)
    && IsEvents(m.events, retired, subs)
  }

  /** The inner loop: a copy of the counts, added one entry at a time. */
  method AddCounts(sums: map<Label, nat>, s: Sub) returns (r: map<Label, nat>)
    ensures r == Folded(sums, s)
  {
    r := sums;
    var left := s.counts.Keys;
    assert s.counts - left == map[];
    while left != {}
      invariant left <= s.counts.Keys
      invariant r == Folded(sums, s.(counts := s.counts - left))
      decreases left
    {
      var k := Pick(left);
      OneMore(sums, s, left, k);
      var l := LabelOf(s, k);
      r := r[l := At(r, l) + s.counts[k]];
      left := left - {k};
    }
    assert s.counts - {} == s.counts;
    assert s.(counts := s.counts - {}) == s;
  }

  lemma LabelsAre(s: Sub, l: Label)
    ensures l in Labels(s) <==> l.topic == s.topic && l.source == s.source && (l.kind, l.eventType) in s.counts
  {
    if (l.kind, l.eventType) in s.counts {
      assert LabelOf(s, (l.kind, l.eventType)) in Labels(s);
    }
  }

  lemma OneMore(sums: map<Label, nat>, s: Sub, left: set<(string, string)>, k: (string, string))
    requires k in left && left <= s.counts.Keys
    ensures var l, r := LabelOf(s, k), Folded(sums, s.(counts := s.counts - left));
            Folded(sums, s.(counts := s.counts - (left - {k}))) == r[l := At(r, l) + s.counts[k]]
  {
    var before, after := s.(counts := s.counts - left), s.(counts := s.counts - (left - {k}));
    var l, r, r' := LabelOf(s, k), Folded(sums, before), Folded(sums, after);
    forall x ensures x in r' <==> x in r || x == l {
      LabelsAre(before, x);
      LabelsAre(after, x);
    }
    forall x | x in r' ensures r'[x] == r[l := At(r, l) + s.counts[k]][x] {
      FoldedAt(sums, before, x);
      FoldedAt(sums, after, x);
    }
  }

  /** One iteration of collect's inner loop, for one subscriber. */
  method AddSub(m: Metrics, ghost retired: map<Label, nat>, ghost subs: seq<Sub>, s: Sub) returns (r: Metrics)
    requires Reports(m, retired, subs)
    ensures Reports(r, retired, subs + [s])
  {
    hide IsCount, IsMax, IsFull, IsSaturation, IsEvents, Folded;
    var p := PairOf(s);
    var events := AddCounts(m.events, s);
    var saturation := if p in m.saturation then m.saturation[p] else 0.0;
    r := Metrics(
      m.count[p := (if p in m.count then m.count[p] else 0) + 1],
      m.depth[p := Max(if p in m.depth then m.depth[p] else 0, s.qsize)],
      m.capacity[p := Max(if p in m.capacity then m.capacity[p] else 0, s.maxsize)],
      m.full[p := (p in m.full && m.full[p]) || Full(s)],
      m.saturation[p := if saturation < Saturation(s) then Saturation(s) else saturation],
      m.latest[p := Max(if p in m.latest then m.latest[p] else 0, s.latestKeys)],
      events);
    CountExtended(m.count, subs, s);
    MaxExtended(m.depth, subs, s, QSIZE);
    MaxExtended(m.capacity, subs, s, MAXSIZE);
    FullExtended(m.full, subs, s);
    SaturationExtended(m.saturation, subs, s);
    MaxExtended(m.latest, subs, s, LATEST);
    EventsExtended(m.events, retired, subs, s);
  }

  lemma PairsExtended(subs: seq<Sub>, s: Sub)
    ensures Pairs(subs + [s]) == Pairs(subs) + {PairOf(s)}
  {
    var more := subs + [s];
    assert more[|subs|] == s;
    forall q | q in Pairs(subs) ensures q in Pairs(more) {
      var i :| 0 <= i < |subs| && PairOf(subs[i]) == q;
      assert more[i] == subs[i];
    }
    forall q | q in Pairs(more) ensures q in Pairs(subs) + {PairOf(s)} {
      var i :| 0 <= i < |more| && PairOf(more[i]) == q;
      assert i < |subs| ==> subs[i] == more[i];
    }
  }

  lemma {:induction false} NoneOfPair(subs: seq<Sub>, p: Pair, measure: Sub -> nat)
    requires p !in Pairs(subs)
    ensures CountOf(subs, p) == 0 && !AnyFull(subs, p) && MaxSaturation(subs, p) == 0.0 && MaxOf(subs, p, measure) == 0
  {
    if subs != [] {
      var n := |subs| - 1;
      assert subs == subs[..n] + [subs[n]];
      PairsExtended(subs[..n], subs[n]);
      NoneOfPair(subs[..n], p, measure);
    }
  }

  lemma CountExtended(d: map<Pair, nat>, subs: seq<Sub>, s: Sub)
    requires IsCount(d, subs)
    ensures var p := PairOf(s); IsCount(d[p := (if p in d then d[p] else 0) + 1], subs + [s])
  {
    assert (subs + [s])[..|subs|] == subs;
    PairsExtended(subs, s);
    if PairOf(s) !in d { NoneOfPair(subs, PairOf(s), QSIZE); }
  }

  lemma MaxExtended(d: map<Pair, nat>, subs: seq<Sub>, s: Sub, measure: Sub -> nat)
    requires IsMax(d, subs, measure)
    ensures var p := PairOf(s); IsMax(d[p := Max(if p in d then d[p] else 0, measure(s))], subs + [s], measure)
  {
    assert (subs + [s])[..|subs|] == subs;
    PairsExtended(subs, s);
    if PairOf(s) !in d { NoneOfPair(subs, PairOf(s), measure); }
  }

  lemma SaturationExtended(d: map<Pair, real>, subs: seq<Sub>, s: Sub)
    requires IsSaturation(d, subs)
    ensures var p := PairOf(s);
            var was := if p in d then d[p] else 0.0;
            IsSaturation(d[p := if was < Saturation(s) then Saturation(s) else was], subs + [s])
  {
    assert (subs + [s])[..|subs|] == subs;
    PairsExtended(subs, s);
    if PairOf(s) !in d { NoneOfPair(subs, PairOf(s), QSIZE); }
  }

  lemma AnyFullExtended(subs: seq<Sub>, s: Sub, p: Pair)
    ensures AnyFull(subs + [s], p) <==> AnyFull(subs, p) || (PairOf(s) == p && Full(s))
  {
    var more := subs + [s];
    if AnyFull(subs, p) {
      var i :| 0 <= i < |subs| && PairOf(subs[i]) == p && Full(subs[i]);
      assert more[i] == subs[i];
    }
    assert more[|subs|] == s;
  }

  lemma FullExtended(d: map<Pair, bool>, subs: seq<Sub>, s: Sub)
    requires IsFull(d, subs)
    ensures var p := PairOf(s); IsFull(d[p := (p in d && d[p]) || Full(s)], subs + [s])
  {
    PairsExtended(subs, s);
    if PairOf(s) !in d { NoneOfPair(subs, PairOf(s), QSIZE); }
    forall p { AnyFullExtended(subs, s, p); }
  }

  lemma EventsExtended(d: map<Label, nat>, retired: map<Label, nat>, subs: seq<Sub>, s: Sub)
    requires IsEvents(d, retired, subs)
    ensures IsEvents(Folded(d, s), retired, subs + [s])
  {
    var more := subs + [s];
    assert more[..|subs|] == subs && more[|subs|] == s;
    forall l
      ensures At(Folded(d, s), l) == EventSum(retired, more, l)
      ensures l in Folded(d, s) <==> l in retired || exists i :: 0 <= i < |more| && l in Labels(more[i])
    {
      FoldedAt(d, s, l);
      if i :| 0 <= i < |subs| && l in Labels(subs[i]) {
        assert l in Labels(more[i]);
      }
      if i :| 0 <= i < |more| && l in Labels(more[i]) {
        assert i < |subs| ==> l in Labels(subs[i]);
      }
    }
  }

  /** The subscribers of a snapshot {topic: [subscriber, ...]}, in loop order. */
  function Flat(snapshot: seq<seq<Sub>>): seq<Sub> {
    if snapshot == [] then [] else Flat(snapshot[..|snapshot| - 1]) + snapshot[|snapshot| - 1]
  }

  /** collect, given its two copies. */
  method Collect(snapshot: seq<seq<Sub>>, retired: map<Label, nat>) returns (m: Metrics)
    ensures Reports(m, retired, Flat(snapshot))
  {
    m := Metrics(map[], map[], map[], map[], map[], map[], retired);
    var t := 0;
    while t < |snapshot|
      invariant 0 <= t <= |snapshot|
      invariant Reports(m, retired, Flat(snapshot[..t]))
    {
      var i := 0;
      ghost var done := Flat(snapshot[..t]);
      assert done + snapshot[t][..0] == done;
      while i < |snapshot[t]|
        invariant 0 <= i <= |snapshot[t]|
        invariant Reports(m, retired, done + snapshot[t][..i])
      {
        m := AddSub(m, retired, done + snapshot[t][..i], snapshot[t][i]);
        assert done + snapshot[t][..i] + [snapshot[t][i]] == done + snapshot[t][..i + 1];
        i := i + 1;
      }
      assert snapshot[t][..|snapshot[t]|] == snapshot[t];
      assert snapshot[..t + 1][..t] == snapshot[..t];
      t := t + 1;
    }
    assert snapshot[..|snapshot|] == snapshot;
  }

  /** The gauges are maxima: reached by a subscriber of the pair, exceeded by
      none. */
  lemma {:induction false} MaxOfIsMax(subs: seq<Sub>, p: Pair, measure: Sub -> nat)
    ensures forall i :: 0 <= i < |subs| && PairOf(subs[i]) == p ==> measure(subs[i]) <= MaxOf(subs, p, measure)
    ensures p in Pairs(subs) ==>
          exists i :: 0 <= i < |subs| && PairOf(subs[i]) == p && measure(subs[i]) == MaxOf(subs, p, measure)
  {
    if subs != [] {
      var n := |subs| - 1;
      var front := subs[..n];
      MaxOfIsMax(front, p, measure);
      assert subs == front + [subs[n]];
      PairsExtended(front, subs[n]);
      if p in Pairs(front) {
        var i :| 0 <= i < |front| && PairOf(front[i]) == p && measure(front[i]) == MaxOf(front, p, measure);
        assert PairOf(subs[i]) == p && measure(subs[i]) == MaxOf(front, p, measure);
      } else {
        NoneOfPair(front, p, measure);
      }
    }
  }

  function PairsOf(subs: seq<Sub>): seq<Pair> {
    seq(|subs|, i requires 0 <= i < |subs| => (subs[i].topic, subs[i].source))
  }

  lemma {:induction false} CountIs(subs: seq<Sub>, p: Pair)
    ensures CountOf(subs, p) == multiset(PairsOf(subs))[p]
  {
    if subs != [] {
      var n := |subs| - 1;
      CountIs(subs[..n], p);
      assert PairsOf(subs) == PairsOf(subs[..n]) + [PairOf(subs[n])];
    }
  }

  /** A bounded queue is filled to that part, or to no more. */
  predicate Fills(s: Sub, part: real) {
    s.maxsize > 0 && s.qsize as real == part * s.maxsize as real
  }

  predicate NotBeyond(s: Sub, part: real) {
    s.maxsize > 0 ==> s.qsize as real <= part * s.maxsize as real
  }

  lemma SaturationFills(s: Sub)
    ensures Saturation(s) >= 0.0 && NotBeyond(s, Saturation(s)) && (Saturation(s) != 0.0 ==> Fills(s, Saturation(s)))
  {
  }

  lemma NotBeyondMore(s: Sub, x: real, y: real)
    requires NotBeyond(s, x) && x <= y
    ensures NotBeyond(s, y)
  {
    var gap, n := y - x, s.maxsize as real;
    assert gap * n >= 0.0;
    assert y * n == x * n + gap * n;
  }

  /** No queue of the pair is fuller for its size, and one is as full or all are
      empty or unbounded. */
  lemma {:induction false} SaturationIs(subs: seq<Sub>, p: Pair)
    ensures var m := MaxSaturation(subs, p);
            && m >= 0.0
            && (forall i :: 0 <= i < |subs| && PairOf(subs[i]) == p ==> NotBeyond(subs[i], m))
            && (m != 0.0 ==> exists i :: 0 <= i < |subs| && PairOf(subs[i]) == p && Fills(subs[i], m))
  {
    hide Fills, NotBeyond, Saturation;
    if subs != [] {
      var n := |subs| - 1;
      var front, m := subs[..n], MaxSaturation(subs, p);
      SaturationIs(front, p);
      SaturationFills(subs[n]);
      var rest := MaxSaturation(front, p);
      forall i | 0 <= i < |subs| && PairOf(subs[i]) == p
        ensures NotBeyond(subs[i], m)
      {
        if i < n {
          assert front[i] == subs[i];
          NotBeyondMore(subs[i], rest, m);
        } else {
          NotBeyondMore(subs[n], Saturation(subs[n]), m);
        }
      }
      if m == rest && m != 0.0 {
        var i :| 0 <= i < |front| && PairOf(front[i]) == p && Fills(front[i], rest);
        assert front[i] == subs[i];
      }
    }
  }

  /** What is reported of a pair, told on the subscribers: how many it has, the
      largest depth, bound and number of pending keys among theirs, whether a
      bounded queue of theirs is full, and how full the fullest is. */
  lemma ReportedIs(m: Metrics, retired: map<Label, nat>, subs: seq<Sub>, p: Pair)
    requires Reports(m, retired, subs)
    ensures p in m.count <==> exists i :: 0 <= i < |subs| && (subs[i].topic, subs[i].source) == p
    ensures m.count.Keys == m.depth.Keys == m.capacity.Keys == m.full.Keys == m.saturation.Keys == m.latest.Keys
    ensures p in m.count ==>
              && m.count[p] == multiset(PairsOf(subs))[p]
              && (forall i :: 0 <= i < |subs| && PairOf(subs[i]) == p ==>
                    && subs[i].qsize <= m.depth[p] && subs[i].maxsize <= m.capacity[p]
                    && subs[i].latestKeys <= m.latest[p])
              && (exists i :: 0 <= i < |subs| && PairOf(subs[i]) == p && subs[i].qsize == m.depth[p])
              && (exists i :: 0 <= i < |subs| && PairOf(subs[i]) == p && subs[i].maxsize == m.capacity[p])
              && (exists i :: 0 <= i < |subs| && PairOf(subs[i]) == p && subs[i].latestKeys == m.latest[p])
              && (m.full[p] <==> exists i :: 0 <= i < |subs| && PairOf(subs[i]) == p
                                              && 0 < subs[i].maxsize <= subs[i].qsize)
              && (forall i :: 0 <= i < |subs| && PairOf(subs[i]) == p ==> NotBeyond(subs[i], m.saturation[p]))
              && (m.saturation[p] == 0.0
                  || exists i :: 0 <= i < |subs| && PairOf(subs[i]) == p && Fills(subs[i], m.saturation[p]))
  {
    SaturationIs(subs, p);
    MaxOfIsMax(subs, p, QSIZE);
    MaxOfIsMax(subs, p, MAXSIZE);
    MaxOfIsMax(subs, p, LATEST);
    CountIs(subs, p);
    hide MaxOf, CountOf, MaxSaturation, EventSum, IsEvents;
  }
}
