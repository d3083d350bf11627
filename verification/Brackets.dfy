// The bracket scans of deploy/inject_deploy_arch.py and deploy/patch_ui_dist.py:
// three kinds of brackets counted alike, string and regular expression literals
// not recognised.
module Brackets {
  import opened Text

  function Delta(c: char): int {
    if c in "([{" then 1 else if c in ")]}" then -1 else 0
  }

  /** Brackets opened and not closed at the end of a text. */
  function Depth(s: string): int {
    if s == "" then 0 else Depth(s[..|s| - 1]) + Delta(s[|s| - 1])
  }

  /** Brackets of all three kinds count alike, openings less closings. */
  lemma {:induction false} DepthCounts(s: string)
    ensures var m := multiset(s);
            Depth(s) + m[')'] + m[']'] + m['}'] == m['('] + m['['] + m['{']
  {
    if s != "" {
      var front, c := s[..|s| - 1], s[|s| - 1];
      DepthCounts(front);
      assert Depth(s) == Depth(front) + Delta(c);
      hide Depth;
      assert s == front + [c];
      assert multiset(s) == multiset(front) + multiset{c};
    }
  }

  lemma {:induction false} DepthPlus(a: string, b: string)
    ensures Depth(a + b) == Depth(a) + Depth(b)
    decreases |b|
  {
    if b == "" {
      assert a + b == a;
    } else {
      assert (a + b)[..|a + b| - 1] == a + b[..|b| - 1];
      DepthPlus(a, b[..|b| - 1]);
    }
  }

  /** Never below zero, and zero at the end. */
  predicate Balanced(s: string) {
    Depth(s) == 0 && forall k :: 0 <= k <= |s| ==> Depth(s[..k]) >= 0
  }

  lemma DepthStep(s: string, k: nat)
    requires k < |s|
    ensures Depth(s[..k + 1]) == Depth(s[..k]) + Delta(s[k])
  {
    assert s[..k + 1][..k] == s[..k];
  }

  lemma DepthFrom(s: string, i: nat, j: nat)
    requires i <= j <= |s|
    ensures Depth(s[i..j]) == Depth(s[..j]) - Depth(s[..i])
  {
    assert s[..j] == s[..i] + s[i..j];
    DepthPlus(s[..i], s[i..j]);
  }

  // ----------------------------------------------------------- balance_check

  /** The guard accepts exactly the balanced snippets. */
  method BalanceCheck(snippet: string) returns (ok: bool)
    ensures ok <==> Balanced(snippet)
  {
    var depth, i := 0, 0;
    assert snippet[..0] == "";
    while i < |snippet|
      invariant 0 <= i <= |snippet| && depth == Depth(snippet[..i])
      invariant forall k :: 0 <= k <= i ==> Depth(snippet[..k]) >= 0
    {
      DepthStep(snippet, i);
      if snippet[i] in "([{" {
        depth := depth + 1;
      } else if snippet[i] in ")]}" {
        depth := depth - 1;
      }
      i := i + 1;
      if depth < 0 {
        return false;
      }
    }
    assert snippet[..|snippet|] == snippet;
    ok := depth == 0;
  }

  // ------------------------------------------------------ the enclosing bracket

  /** i closes the bracket that is open at start: everything in between nests
      and i takes it away. */
  predicate Closes(t: string, start: nat, i: nat) {
    start <= i < |t| && Balanced(t[start..i]) && Delta(t[i]) == -1
  }

  /** There is at most one such position. */
  lemma ClosesOnce(t: string, start: nat, i: nat, j: nat)
    requires Closes(t, start, i) && Closes(t, start, j)
    ensures i == j
  {
    if i < j {
      ClosesFirst(t, start, i, j);
    } else if j < i {
      ClosesFirst(t, start, j, i);
    }
  }

  lemma ClosesFirst(t: string, start: nat, i: nat, j: nat)
    requires Closes(t, start, i) && i < j <= |t|
    ensures !Balanced(t[start..j])
  {
    var s := t[start..j];
    DepthStep(s, i - start);
    assert s[..i - start] == t[start..i];
    assert Depth(s[..i - start + 1]) == -1;
  }

  /** The scan with the depth preset to 1: the closing position, or the end of
      the text if nothing closes. */
  method CloseOf(t: string, start: nat) returns (i: nat)
    requires start <= |t|
    ensures start <= i <= |t|
    ensures i < |t| ==> Closes(t, start, i)
    ensures i == |t| ==> forall j: nat :: !Closes(t, start, j)
  {
    hide Depth;
    EmptyCut(t, start);
    var depth := 1;
    i := start;
    while i < |t|
      invariant start <= i <= |t| && depth == 1 + Depth(t[start..i]) >= 1
      invariant forall k :: start <= k <= i ==> Depth(t[start..k]) >= 0
    {
      DepthFrom(t, start, i);
      DepthFrom(t, start, i + 1);
      DepthStep(t, i);
      if t[i] in "([{" {
        depth := depth + 1;
      } else if t[i] in ")]}" {
        depth := depth - 1;
        if depth == 0 {
          Prefixes(t, start, i);
          return;
        }
      }
      i := i + 1;
    }
    forall j: nat ensures !Closes(t, start, j) {
      if Closes(t, start, j) {
        DepthFrom(t, start, j);
        DepthFrom(t, start, j + 1);
        DepthStep(t, j);
      }
    }
  }

  lemma Prefixes(t: string, start: nat, i: nat)
    requires start <= i <= |t| && forall k :: start <= k <= i ==> Depth(t[start..k]) >= 0
    ensures forall k :: 0 <= k <= i - start ==> Depth(t[start..i][..k]) >= 0
  {
    forall k | 0 <= k <= i - start ensures Depth(t[start..i][..k]) >= 0 {
      assert t[start..i][..k] == t[start..start + k];
    }
  }

  // ------------------------------------------------------------------ splices

  function Splice(t: string, i: nat, j: nat, snippet: string): string
    requires i <= j <= |t|
  {
    t[..i] + snippet + t[j..]
  }

  lemma Depth3(a: string, b: string, c: string)
    ensures Depth(a + b + c) == Depth(a) + Depth(b) + Depth(c)
  {
    DepthPlus(a + b, c);
    DepthPlus(a, b);
  }

  lemma SpliceTake(t: string, i: nat, j: nat, snippet: string, k: nat)
    requires i <= j <= k <= |t|
    ensures |Splice(t, i, j, snippet)| == |t| - j + i + |snippet|
    ensures Splice(t, i, j, snippet)[..k - j + i + |snippet|] == t[..i] + snippet + t[j..k]
  {
  }

  lemma SpliceDepthAfter(t: string, i: nat, j: nat, snippet: string, k: nat)
    requires i <= j <= k <= |t|
    ensures Depth(Splice(t, i, j, snippet)[..k - j + i + |snippet|]) == Depth(t[..k]) - Depth(t[i..j]) + Depth(snippet)
  {
    hide Depth, Splice;
    SpliceTake(t, i, j, snippet, k);
    Depth3(t[..i], snippet, t[j..k]);
    DepthFrom(t, i, j);
    DepthFrom(t, j, k);
  }

  /** Every depth before and after the cut stays what it was. */
  lemma SpliceDepths(t: string, i: nat, j: nat, snippet: string)
    requires i <= j <= |t| && Depth(snippet) == Depth(t[i..j])
    ensures var r := Splice(t, i, j, snippet);
            && (forall k :: 0 <= k <= i ==> r[..k] == t[..k])
            && (forall k :: j <= k <= |t| ==> Depth(r[..k - j + i + |snippet|]) == Depth(t[..k]))
            && Depth(r) == Depth(t)
  {
    hide Depth;
    var r := Splice(t, i, j, snippet);
    forall k | j <= k <= |t| ensures Depth(r[..k - j + i + |snippet|]) == Depth(t[..k]) {
      SpliceDepthAfter(t, i, j, snippet, k);
    }
    SpliceDepthAfter(t, i, j, snippet, |t|);
    assert r[..|r|] == r && t[..|t|] == t;
  }

  /** Putting the old stretch back undoes a splice. */
  lemma SpliceBack(t: string, i: nat, j: nat, snippet: string)
    requires i <= j <= |t|
    ensures var r := Splice(t, i, j, snippet);
            && i + |snippet| <= |r| && r[i..i + |snippet|] == snippet
            && Splice(r, i, i + |snippet|, t[i..j]) == t
  {
    var r := Splice(t, i, j, snippet);
    assert r[..i] == t[..i];
    assert r[i + |snippet|..] == t[j..];
    assert t == t[..i] + t[i..j] + t[j..];
  }

  /** Replacing a balanced stretch by a balanced snippet, or putting one in,
      makes a text neither balanced nor unbalanced. */
  lemma SpliceBalanced(t: string, i: nat, j: nat, snippet: string)
    requires i <= j <= |t| && Balanced(t[i..j]) && Balanced(snippet)
    ensures Balanced(Splice(t, i, j, snippet)) <==> Balanced(t)
  {
    hide Depth, Splice;
    var r := Splice(t, i, j, snippet);
    SpliceBack(t, i, j, snippet);
    if Balanced(t) {
      SpliceKeeps(t, i, j, snippet);
    }
    if Balanced(r) {
      SpliceKeeps(r, i, i + |snippet|, t[i..j]);
    }
  }

  lemma SpliceInside(t: string, i: nat, j: nat, snippet: string, k: nat)
    requires i <= j <= |t| && i <= k <= i + |snippet|
    ensures k <= |Splice(t, i, j, snippet)| && Splice(t, i, j, snippet)[..k] == t[..i] + snippet[..k - i]
  {
  }

  lemma SpliceKeeps(t: string, i: nat, j: nat, snippet: string)
    requires i <= j <= |t| && Balanced(t[i..j]) && Balanced(snippet) && Balanced(t)
    ensures Balanced(Splice(t, i, j, snippet))
  {
    hide Depth, Splice;
    var r := Splice(t, i, j, snippet);
    SpliceTake(t, i, j, snippet, |t|);
    SpliceDepths(t, i, j, snippet);
    forall k | 0 <= k <= |r| ensures Depth(r[..k]) >= 0 {
      if i < k < i + |snippet| {
        SpliceInside(t, i, j, snippet, k);
        DepthPlus(t[..i], snippet[..k - i]);
      } else if i + |snippet| <= k {
        var m := k - i - |snippet| + j;
        assert Depth(r[..m - j + i + |snippet|]) == Depth(t[..m]);
      }
    }
  }

  // ------------------------------------------------------------- the injection

  /** str.find */
  function Find(t: string, key: string): (r: Option<nat>)
    ensures r.Some? ==> r.value + |key| <= |t|
  {
    if key <= t then Some(0)
    else if t == "" then None
    else match Find(t[1..], key) case None => None case Some(i) => Some(i + 1)
  }

  predicate KeyAt(t: string, i: nat, key: string) {
    i <= |t| && key <= t[i..]
  }

  lemma KeyAtNext(t: string, i: nat, key: string)
    requires t != ""
    ensures KeyAt(t, i + 1, key) <==> KeyAt(t[1..], i, key)
  {
    if i < |t| {
      assert t[i + 1..] == t[1..][i..];
    }
  }

  /** It is the first place of the key, or there is none. */
  lemma {:induction false} FindIsFirst(t: string, key: string, i: nat)
    ensures Find(t, key).Some? ==> KeyAt(t, Find(t, key).value, key)
    ensures KeyAt(t, i, key) ==> Find(t, key).Some? && Find(t, key).value <= i
    decreases |t|
  {
    assert t[0..] == t;
    if !(key <= t) && t != "" {
      FindIsFirst(t[1..], key, if i == 0 then 0 else i - 1);
      if i > 0 { KeyAtNext(t, i - 1, key); }
      if Find(t[1..], key).Some? { KeyAtNext(t, Find(t[1..], key).value, key); }
    }
  }

  lemma CommaCountsNothing(s: string)
    requires s != "" && s[|s| - 1] == ','
    ensures Balanced(s[..|s| - 1]) <==> Balanced(s)
  {
    var front := s[..|s| - 1];
    assert forall k :: 0 <= k < |s| ==> s[..k] == front[..k];
    assert s[..|s|] == s && Depth(s) == Depth(front);
  }

  /** rstrip(","). */
  function StripCommas(s: string): (r: string)
    ensures Balanced(r) <==> Balanced(s)
    ensures r <= s && (forall i :: |r| <= i < |s| ==> s[i] == ',') && (r != "" ==> r[|r| - 1] != ',')
  {
    if s == "" || s[|s| - 1] != ',' then s
    else
      CommaCountsNothing(s);
      StripCommas(s[..|s| - 1])
  }

  datatype Snippets = Snippets(advGroup: string, workerFetch: string, rankBoxes: string, categories: string,
                               gpuHead: string, gpuTail: string, render: string -> string,
                               yamlAnchor: string, yamlTab: string)

  /** Both snippets put in before the categories item. */
  function Prepared(t: string, x: Snippets): Option<string> {
    match Find(t, x.categories)
    case None => None
    case Some(i) =>
      var t1 := Splice(t, i, i, x.advGroup);
      match Find(t1, x.categories)
      case None => None
      case Some(j) => if j < i then None else Some(Splice(t1, j, j, x.workerFetch))
  }

  /** Where both snippets go if the first does not form the item's text with what
      is around it: right before the item, one behind the other. */
  lemma PreparedIs(t: string, x: Snippets, i: nat)
    requires Find(t, x.categories) == Some(i)
    ensures var t1 := t[..i] + x.advGroup + t[i..];
            && (Find(t1, x.categories) == Some(i + |x.advGroup|) ==>
                  Prepared(t, x) == Some(t[..i] + x.advGroup + x.workerFetch + t[i..]))
            && (Prepared(t, x) == None <==> Find(t1, x.categories).None? || Find(t1, x.categories).value < i)
  {
    hide Find;
    var t1 := t[..i] + x.advGroup + t[i..];
    assert t1 == Splice(t, i, i, x.advGroup);
    if Find(t1, x.categories) == Some(i + |x.advGroup|) {
      var j := i + |x.advGroup|;
      assert t1[..j] == t[..i] + x.advGroup && t1[j..] == t[i..];
    }
  }

  /** The contents of the array that opens behind the GPU anchor replaced by what
      render makes of them; the array is followed by the expected text, and all
      snippets so far are balanced. */
  ghost predicate Switched(t2: string, x: Snippets, r: string) {
    && Balanced(x.advGroup) && Balanced(x.workerFetch) && Balanced(x.rankBoxes)
    && var anchor := Find(t2, x.gpuHead + x.gpuTail);
       && anchor.Some?
       && var start := anchor.value + |x.gpuHead|;
          exists close: nat :: Closes(t2, start, close)
            && close + 7 <= |t2| && t2[close + 3..close + 7] == "]}),"
            && Balanced(x.render(t2[start..close]))
            && r == Splice(t2, start, close, x.render(t2[start..close]))
  }

  /** The YAML tab put in behind its anchor, on which no bracket guard runs. */
  function Tabbed(t3: string, x: Snippets): Option<string> {
    match Find(t3, x.yamlAnchor)
    case None => None
    case Some(i) => Some(Splice(t3, i + |x.yamlAnchor|, i + |x.yamlAnchor|, x.yamlTab))
  }

  /** The injection as it should be. */
  ghost predicate Injected(t: string, x: Snippets, r: string) {
    && Prepared(t, x).Some?
    && exists t3, i: nat ::
         && Switched(Prepared(t, x).value, x, t3) && TabAt(t3, x, i)
         && r == t3[..i] + x.yamlTab + t3[i..]
  }

  /** The place right behind the tab's anchor. */
  predicate TabAt(t3: string, x: Snippets, i: nat) {
    i >= |x.yamlAnchor| && i <= |t3| && Find(t3, x.yamlAnchor) == Some(i - |x.yamlAnchor|)
  }

  lemma TabbedIs(t3: string, x: Snippets)
    ensures Tabbed(t3, x) == None <==> forall i: nat :: !TabAt(t3, x, i)
    ensures forall i: nat :: TabAt(t3, x, i) ==> Tabbed(t3, x) == Some(t3[..i] + x.yamlTab + t3[i..])
  {
    hide Find;
    if Find(t3, x.yamlAnchor).Some? {
      assert TabAt(t3, x, Find(t3, x.yamlAnchor).value + |x.yamlAnchor|);
    }
  }

  /** The script writes a chunk exactly if there is such an injection that the
      JavaScript checker, where there is one, accepts; and writes that one. */
  method Inject(t: string, x: Snippets, checker: string -> bool) returns (r: Option<string>)
    ensures r.Some? ==> Injected(t, x, r.value) && checker(r.value)
    ensures r.None? ==> forall other :: Injected(t, x, other) ==> !checker(other)
  {
    hide Depth, Find, Splice, Prepared, Switched, Tabbed, Balanced;
    r := None;
    var t2 := Prepare(t, x);
    if t2 == None { return; }
    var t3 := Switch(t2.value, x);
    if t3 == None { return; }
    var t4 := Tabbed(t3.value, x);
    TabbedIs(t3.value, x);
    if t4 == None { return; }
    if checker(t4.value) {
      r := t4;
    }
  }

  /** Both insertions before the categories item. */
  method Prepare(t: string, x: Snippets) returns (r: Option<string>)
    ensures r == Prepared(t, x)
  {
    var ci := Find(t, x.categories);
    if ci == None { return None; }
    var t1 := t[..ci.value] + x.advGroup + t[ci.value..];
    var ci2 := Find(t1, x.categories);
    if ci2 == None || ci2.value < ci.value { return None; }
    r := Some(t1[..ci2.value] + x.workerFetch + t1[ci2.value..]);
  }

  /** The scan, the splice and the four guards. */
  method Switch(t2: string, x: Snippets) returns (r: Option<string>)
    ensures r.Some? ==> Switched(t2, x, r.value)
    ensures forall other :: Switched(t2, x, other) ==> r == Some(other)
  {
    hide Depth, Find, Splice;
    r := None;
    var gi := Find(t2, x.gpuHead + x.gpuTail);
    if gi == None { return; }
    var start := gi.value + |x.gpuHead|;
    var close := CloseOf(t2, start);
    ClosesOnlyHere(t2, start, close);
    var after := close + 3;
    if after + 4 > |t2| || t2[after..after + 4] != "]})," {
      return;
    }
    var pdSwitch := x.render(t2[start..close]);
    var t3 := Splice(t2, start, close, pdSwitch);
    var ok1 := BalanceCheck(x.advGroup);
    var ok2 := BalanceCheck(StripCommas(x.workerFetch));
    var ok3 := BalanceCheck(x.rankBoxes);
    var ok4 := BalanceCheck(pdSwitch);
    if ok1 && ok2 && ok3 && ok4 {
      r := Some(t3);
    }
  }

  lemma ClosesOnlyHere(t: string, start: nat, i: nat)
    requires i < |t| ==> Closes(t, start, i)
    requires i >= |t| ==> forall j: nat :: !Closes(t, start, j)
    ensures forall j: nat :: Closes(t, start, j) ==> j == i
  {
    forall j: nat | Closes(t, start, j) ensures j == i {
      if i < |t| {
        ClosesOnce(t, start, i, j);
      }
    }
  }

  /** Whatever the guarded snippets and the rendering, up to the YAML tab the
      chunk is balanced if and only if it was, at the same total depth. */
  lemma SwitchedKeepsBalance(t: string, x: Snippets, t2: string, r: string)
    requires Prepared(t, x) == Some(t2) && Switched(t2, x, r)
    ensures (Balanced(r) <==> Balanced(t)) && Depth(r) == Depth(t)
  {
    hide Depth, Find, Splice;
    var i := Find(t, x.categories).value;
    var t1 := Splice(t, i, i, x.advGroup);
    var j := Find(t1, x.categories).value;
    InsertKeeps(t, i, x.advGroup);
    InsertKeeps(t1, j, x.workerFetch);
    var start := Find(t2, x.gpuHead + x.gpuTail).value + |x.gpuHead|;
    var close: nat :| Closes(t2, start, close)
                      && close + 7 <= |t2| && t2[close + 3..close + 7] == "]}),"
                      && Balanced(x.render(t2[start..close]))
                      && r == Splice(t2, start, close, x.render(t2[start..close]));
    SpliceBalanced(t2, start, close, x.render(t2[start..close]));
    SpliceDepths(t2, start, close, x.render(t2[start..close]));
  }

  /** The snippet fits at a place: it ends at the depth it began with and never
      goes below the bottom from there. */
  predicate FitsAt(t: string, i: nat, snippet: string)
    requires i <= |t|
  {
    Depth(snippet) == 0 && forall k :: 0 <= k <= |snippet| ==> Depth(t[..i]) + Depth(snippet[..k]) >= 0
  }

  /** Putting a snippet into a balanced text leaves it balanced exactly then. */
  lemma InsertBalanced(t: string, i: nat, snippet: string)
    requires i <= |t| && Balanced(t)
    ensures Balanced(Splice(t, i, i, snippet)) <==> FitsAt(t, i, snippet)
  {
    hide Depth, Splice;
    var r := Splice(t, i, i, snippet);
    EmptyCut(t, i);
    SpliceTake(t, i, i, snippet, |t|);
    SpliceDepthAfter(t, i, i, snippet, |t|);
    assert r[..|r|] == r && t[..|t|] == t;
    forall k | 0 <= k <= |snippet| ensures Depth(r[..i + k]) == Depth(t[..i]) + Depth(snippet[..k]) {
      SpliceInside(t, i, i, snippet, i + k);
      DepthPlus(t[..i], snippet[..k]);
    }
    if FitsAt(t, i, snippet) {
      SpliceDepths(t, i, i, snippet);
      forall k | 0 <= k <= |r| ensures Depth(r[..k]) >= 0 {
        if i <= k <= i + |snippet| {
          assert Depth(r[..i + (k - i)]) == Depth(t[..i]) + Depth(snippet[..k - i]);
        } else if k > i {
          var m := k - |snippet|;
          assert Depth(r[..m - i + i + |snippet|]) == Depth(t[..m]);
        }
      }
    }
  }

  /** So of a balanced chunk the script makes a balanced one exactly if the
      unguarded tab fits behind its anchor; and it does if the tab would pass the
      guard that the other snippets pass. */
  lemma InjectedKeepsBalance(t: string, x: Snippets, t2: string, t3: string, r: string)
    requires Balanced(t) && Prepared(t, x) == Some(t2) && Switched(t2, x, t3) && Tabbed(t3, x) == Some(r)
    ensures Balanced(t3)
    ensures Balanced(r) <==> FitsAt(t3, Find(t3, x.yamlAnchor).value + |x.yamlAnchor|, x.yamlTab)
    ensures Balanced(x.yamlTab) ==> Balanced(r)
  {
    hide Depth, Find, Splice, Switched, Prepared;
    SwitchedKeepsBalance(t, x, t2, t3);
    InsertBalanced(t3, Find(t3, x.yamlAnchor).value + |x.yamlAnchor|, x.yamlTab);
  }

  lemma InsertKeeps(t: string, i: nat, snippet: string)
    requires i <= |t| && Balanced(snippet)
    ensures Balanced(Splice(t, i, i, snippet)) <==> Balanced(t)
    ensures Depth(Splice(t, i, i, snippet)) == Depth(t)
  {
    assert t[i..i] == "" && Balanced("");
    SpliceBalanced(t, i, i, snippet);
    SpliceDepths(t, i, i, snippet);
  }

  // -------------------------------------------------- duplicating an expression

  /** j ends the expression that starts at start: a closing bracket just brought
      the depth back to zero. */
  predicate Ends(u: string, start: nat, j: nat) {
    start < j <= |u| && Delta(u[j - 1]) == -1 && Depth(u[start..j]) == 0
  }

  /** The first such place, or the end of the text. */
  ghost predicate FirstEnd(u: string, start: nat, j: nat) {
    && start <= j <= |u| && (Ends(u, start, j) || j == |u|)
    && forall k :: start <= k < j ==> !Ends(u, start, k)
  }

  /** The scan with the depth starting at 0. */
  method EndOfExpression(u: string, start: nat) returns (j: nat)
    requires start <= |u|
    ensures start <= j <= |u| && FirstEnd(u, start, j)
  {
    hide Depth;
    EmptyCut(u, start);
    var depth := 0;
    j := start;
    while j < |u|
      invariant start <= j <= |u| && depth == Depth(u[start..j])
      invariant forall k :: start <= k <= j ==> !Ends(u, start, k)
    {
      DepthFrom(u, start, j);
      DepthFrom(u, start, j + 1);
      DepthStep(u, j);
      if u[j] in "([{" {
        depth := depth + 1;
      } else if u[j] in ")]}" {
        depth := depth - 1;
        if depth == 0 {
          j := j + 1;
          return;
        }
      }
      j := j + 1;
    }
  }

  /** The first bracket from i on opens something, as in a call. */
  predicate OpensFirst(u: string, i: nat) {
    exists k :: i <= k < |u| && Delta(u[k]) == 1 && forall m :: i <= m < k ==> Delta(u[m]) == 0
  }

  lemma {:induction false} FlatStretch(u: string, i: nat, k: nat)
    requires i <= k <= |u| && forall m :: i <= m < k ==> Delta(u[m]) == 0
    ensures Depth(u[i..k]) == 0
    decreases k
  {
    if i < k {
      FlatStretch(u, i, k - 1);
      assert u[i..k][..k - 1 - i] == u[i..k - 1];
    } else {
      assert u[i..k] == "";
    }
  }

  /** Once a bracket is open the depth stays positive until something ends. */
  lemma {:induction false} StaysOpen(u: string, start: nat, k: nat, j: nat)
    requires start <= k < j <= |u| && Delta(u[k]) == 1 && forall m :: start <= m < k ==> Delta(u[m]) == 0
    requires forall e :: start <= e <= j ==> !Ends(u, start, e)
    ensures Depth(u[start..j]) >= 1
    decreases j
  {
    hide Depth;
    DepthFrom(u, start, j - 1);
    DepthFrom(u, start, j);
    DepthStep(u, j - 1);
    if j == k + 1 {
      FlatStretch(u, start, k);
    } else {
      StaysOpen(u, start, k, j - 1);
      assert !Ends(u, start, j);
    }
  }

  /** In a balanced text an expression that opens a bracket before it closes one
      always ends; so the extracted text is at depth zero. */
  lemma CallEnds(u: string, start: nat, j: nat)
    requires Balanced(u) && OpensFirst(u, start) && FirstEnd(u, start, j)
    ensures Depth(u[start..j]) == 0
  {
    assert u[..|u|] == u;
    if !Ends(u, start, j) {
      var k :| start <= k < |u| && Delta(u[k]) == 1 && forall m :: start <= m < k ==> Delta(u[m]) == 0;
      StaysOpen(u, start, k, |u|);
      DepthFrom(u, start, |u|);
    }
  }

  /** What the scan takes is at depth zero exactly if something ends behind its
      start or the start itself is at depth zero. */
  lemma TakenDepth(u: string, start: nat, j: nat)
    requires Balanced(u) && FirstEnd(u, start, j)
    ensures Depth(u[start..j]) == 0 <==> (exists k: nat :: Ends(u, start, k)) || Depth(u[..start]) == 0
  {
    hide Depth;
    assert u[..|u|] == u;
    DepthFrom(u, start, |u|);
    if k: nat :| Ends(u, start, k) {
      assert j <= k;
    }
  }

  /** The extra bindings: each key followed by the same expression. */
  function Extra(labels: seq<string>, expr: string): string {
    if labels == [] then "" else Extra(labels[..|labels| - 1], expr) + labels[|labels| - 1] + expr
  }

  predicate Plain(key: string) {
    forall i :: 0 <= i < |key| ==> Delta(key[i]) == 0
  }

  lemma PlainDepth(key: string, k: nat)
    requires Plain(key) && k <= |key|
    ensures Depth(key[..k]) == 0
  {
    FlatStretch(key, 0, k);
    assert key[0..k] == key[..k];
  }

  lemma ExtraStep(labels: seq<string>, expr: string)
    requires labels != []
    ensures Extra(labels, expr) == Extra(labels[..|labels| - 1], expr) + labels[|labels| - 1] + expr
  {
  }

  lemma OnceMore(n: nat, d: int)
    ensures (n + 1) * d == n * d + d
  {
  }

  lemma {:induction false} ExtraDepth(labels: seq<string>, expr: string)
    requires forall l :: l in labels ==> Plain(l)
    ensures Depth(Extra(labels, expr)) == |labels| * Depth(expr)
  {
    if labels != [] {
      hide Depth, Extra;
      var n := |labels| - 1;
      ExtraStep(labels, expr);
      ExtraDepth(labels[..n], expr);
      Depth3(Extra(labels[..n], expr), labels[n], expr);
      PlainDepth(labels[n], |labels[n]|);
      assert labels[n][..|labels[n]|] == labels[n];
      OnceMore(n, Depth(expr));
    } else {
      assert Extra(labels, expr) == "";
    }
  }

  /** The lowest point of the copies is that of the expression itself. */
  lemma {:induction false} ExtraPrefix(labels: seq<string>, expr: string, k: nat) returns (m: nat)
    requires (forall l :: l in labels ==> Plain(l)) && Depth(expr) == 0 && k <= |Extra(labels, expr)|
    ensures m <= |expr| && Depth(Extra(labels, expr)[..k]) == Depth(expr[..m])
  {
    m := 0;
    if labels != [] {
      var n := |labels| - 1;
      hide Extra, Depth;
      ExtraStep(labels, expr);
      var a, l := Extra(labels[..n], expr), labels[n];
      var whole := Extra(labels, expr);
      if k <= |a| {
        m := ExtraPrefix(labels[..n], expr, k);
        assert whole[..k] == a[..k];
      } else {
        ExtraDepth(labels[..n], expr);
        if k <= |a| + |l| {
          assert whole[..k] == a + l[..k - |a|];
          DepthPlus(a, l[..k - |a|]);
          PlainDepth(l, k - |a|);
        } else {
          m := k - |a| - |l|;
          assert whole[..k] == a + l + expr[..m];
          DepthPlus(a + l, expr[..m]);
          DepthPlus(a, l);
          PlainDepth(l, |l|);
          assert l[..|l|] == l;
        }
      }
    }
  }

  /** Putting copies of an expression behind it leaves a balanced text balanced
      exactly if the expression ends at the depth it began with. */
  lemma CopiesBalanced(u: string, start: nat, j: nat, labels: seq<string>)
    requires Balanced(u) && start <= j <= |u| && labels != [] && forall l :: l in labels ==> Plain(l)
    ensures Balanced(Splice(u, j, j, Extra(labels, u[start..j]))) <==> Depth(u[start..j]) == 0
  {
    hide Depth, Extra;
    var expr := u[start..j];
    var extra := Extra(labels, expr);
    var r := Splice(u, j, j, extra);
    ExtraDepth(labels, expr);
    EmptyCut(u, j);
    SpliceDepthAfter(u, j, j, extra, |u|);
    assert r[..|r|] == r && u[..|u|] == u;
    if Depth(expr) == 0 {
      forall k | 0 <= k <= |r| ensures Depth(r[..k]) >= 0 {
        CopiesPrefix(u, start, j, labels, k);
      }
    } else {
      NonZero(|labels|, Depth(expr));
    }
  }

  lemma EmptyCut(u: string, j: nat)
    requires j <= |u|
    ensures Depth(u[j..j]) == 0
  {
  }

  lemma NonZero(n: nat, d: int)
    requires n != 0 && d != 0
    ensures n * d != 0
  {
  }

  lemma CopiesPrefix(u: string, start: nat, j: nat, labels: seq<string>, k: nat)
    requires Balanced(u) && start <= j <= |u| && forall l :: l in labels ==> Plain(l)
    requires Depth(u[start..j]) == 0
    requires k <= |Splice(u, j, j, Extra(labels, u[start..j]))|
    ensures Depth(Splice(u, j, j, Extra(labels, u[start..j]))[..k]) >= 0
  {
    hide Depth, Extra;
    var expr := u[start..j];
    var extra := Extra(labels, expr);
    var r := Splice(u, j, j, extra);
    if k <= j {
      assert r[..k] == u[..k];
    } else if k <= j + |extra| {
      assert r[..k] == u[..j] + extra[..k - j];
      DepthPlus(u[..j], extra[..k - j]);
      var m := ExtraPrefix(labels, expr, k - j);
      DepthFrom(u, start, j);
      assert expr[..m] == u[start..start + m];
      DepthFrom(u, start, start + m);
    } else {
      ExtraDepth(labels, expr);
      EmptyCut(u, j);
      SpliceDepthAfter(u, j, j, extra, k - |extra|);
    }
  }

  const LAZY := "k.lazy"

  /** Where the branch that runs looks for the expression to copy. */
  function Anchor(u: string): Option<nat> {
    if Find(u, "51:" + LAZY).Some? then None
    else if Find(u, "49:" + LAZY) == None then Find(u, "42:" + LAZY)
    else Find(u, "49:" + LAZY)
  }

  function Missing(u: string): seq<string> {
    if Find(u, "49:" + LAZY) == None then [",49:", ",51:"] else [",51:"]
  }

  lemma MissingIs(u: string, expr: string)
    ensures Extra(Missing(u), expr)
            == if Find(u, "49:k.lazy") == None then ",49:" + expr + ",51:" + expr else ",51:" + expr
  {
    hide Find;
    assert "49:" + LAZY == "49:k.lazy";
    ExtraStep([",49:", ",51:"], expr);
    ExtraStep([",49:"], expr);
    ExtraStep([",51:"], expr);
    assert [",49:", ",51:"][..1] == [",49:"];
    assert Extra([], expr) == "";
  }

  /** Which binding is copied: 49's, or without one 42's, or none if 51 is there. */
  lemma AnchorIs(u: string)
    ensures Find(u, "51:k.lazy").Some? ==> Anchor(u) == None
    ensures Find(u, "51:k.lazy") == None ==>
              Anchor(u) == if Find(u, "49:k.lazy").Some? then Find(u, "49:k.lazy") else Find(u, "42:k.lazy")
  {
    hide Find;
    assert "51:" + LAZY == "51:k.lazy" && "49:" + LAZY == "49:k.lazy" && "42:" + LAZY == "42:k.lazy";
  }

  /** And where the copies go: behind the expression, as 51, and as 49 before that
      if there was none. */
  lemma CopiesAre(u: string, start: nat, j: nat)
    requires start <= j <= |u|
    ensures var expr, copies := u[start..j], Splice(u, j, j, Extra(Missing(u), u[start..j]));
            && (Find(u, "49:k.lazy").Some? ==> copies == u[..j] + (",51:" + expr) + u[j..])
            && (Find(u, "49:k.lazy") == None ==> copies == u[..j] + (",49:" + expr + ",51:" + expr) + u[j..])
  {
    MissingIs(u, u[start..j]);
    hide Find, Extra, Missing;
  }

  /** The component bindings 49 and 51: nothing if they are there, an error if
      there is nothing to copy, else copies of the binding found, up to its end.
      A balanced bundle stays balanced exactly if some bracket behind the
      binding's number brings the depth back to zero, or the number stands
      outside all brackets; and always if the binding is a call. */
  method BindComponents(u: string) returns (r: Option<string>, ghost j: nat)
    ensures Find(u, "51:" + LAZY).Some? ==> r == Some(u)
    ensures r == None <==> Find(u, "51:" + LAZY) == None && Anchor(u) == None
    ensures Anchor(u).Some? ==>
              var start := Anchor(u).value + 3;
              && FirstEnd(u, start, j) && r == Some(Splice(u, j, j, Extra(Missing(u), u[start..j])))
              && (Balanced(u) ==>
                    (Balanced(r.value) <==> (exists k: nat :: Ends(u, start, k)) || Depth(u[..start]) == 0))
              && (Balanced(u) && OpensFirst(u, start) ==> Balanced(r.value))
  {
    hide Depth, Extra, Splice, FirstEnd, Find, OpensFirst, Ends;
    j := 0;
    if Find(u, "51:" + LAZY).Some? {
      return Some(u), j;
    }
    var i := Anchor(u);
    if i == None {
      return None, j;
    }
    var start := i.value + 3;
    var end := EndOfExpression(u, start);
    j := end;
    r := Some(Splice(u, end, end, Extra(Missing(u), u[start..end])));
    if Balanced(u) {
      CopiesBalanced(u, start, j, Missing(u));
      TakenDepth(u, start, j);
      if OpensFirst(u, start) {
        CallEnds(u, start, j);
      }
    }
  }

  /** Without the call the scan runs past the end of the expression: a balanced
      bundle that comes out unbalanced. */
  lemma BareBindingBreaks()
    ensures var u := "(42:k.lazy)";
            && Balanced(u) && FirstEnd(u, 4, |u|)
            && !Balanced(Splice(u, |u|, |u|, Extra([",49:", ",51:"], u[4..|u|])))
  {
    var u := "(42:k.lazy)";
    BareDepths(u);
    hide Depth, Extra, Splice;
    CopiesBalanced(u, 4, |u|, [",49:", ",51:"]);
  }

  lemma BareDepths(u: string)
    requires u == "(42:k.lazy)"
    ensures Balanced(u) && Depth(u[4..|u|]) == -1 && FirstEnd(u, 4, |u|)
  {
    hide Depth;
    assert u[..|u|] == u && u[..0] == "";
    EmptyDepth();
    DepthStep(u, 0);
    forall k | 1 <= k <= 10 ensures Depth(u[..k]) == 1 {
      FlatStretch(u, 1, k);
      DepthFrom(u, 1, k);
    }
    DepthStep(u, 10);
    DepthFrom(u, 4, 11);
    assert forall m :: 3 <= m < 10 ==> Delta(u[m]) == 0;
  }

  lemma EmptyDepth()
    ensures Depth("") == 0
  {
  }
}
