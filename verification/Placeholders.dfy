// gpustack/gpu_instances/placeholders.py: {{name}} placeholders resolved once,
// in place, when a GPU instance is created.
module Placeholders {
  import opened Text
  import D = Digest

  function Lit(name: string): string {
    "{{" + name + "}}"
  }

  /** The text begins with the placeholder of this name. */
  predicate Opens(name: string, s: string)
    ensures Opens(name, s) <==> Lit(name) <= s
  {
    var k := |name| + 2;
    && |s| >= k + 2 && s[0] == '{' && s[1] == '{' && s[k] == '}' && s[k + 1] == '}'
    && s[2..k] == name
  }

  /** What stays or goes in for one match: a valued name gives its value, any
      other match is left as it is. */
  function Filled(v: map<string, string>, name: string): string {
    if name in v then v[name] else Lit(name)
  }

  /** Values as the providers make them: longer than every provider's name and
      free of braces. */
  predicate Proper(v: map<string, string>) {
    forall n, m :: n in v && m in v ==> |m| < |v[n]| && '{' !in v[n] && '}' !in v[n]
  }

  /** The pattern is a function of what the regular expression engine takes for
      a word character, which is never a brace. */
  datatype Pattern = Pattern(word: char -> bool) {
    predicate Valid() {
      !word('{') && !word('}')
    }

    predicate Name(n: string) {
      n != "" && forall i :: 0 <= i < |n| ==> word(n[i])
    }

    function WordRun(s: string): (r: nat)
      ensures r <= |s|
    {
      if s == "" || !word(s[0]) then 0 else 1 + WordRun(s[1..])
    }

    lemma WordRunIs(n: string, s: string)
      requires |n| < |s| && s[..|n|] == n && !word(s[|n|]) && forall i :: 0 <= i < |n| ==> word(n[i])
      ensures WordRun(s) == |n|
      decreases |n|
    {
      if n != "" {
        assert s[0] == n[0];
        assert s[1..][..|n| - 1] == n[1..];
        WordRunIs(n[1..], s[1..]);
      }
    }

    lemma WordRunWords(s: string)
      ensures forall i :: 0 <= i < WordRun(s) ==> word(s[i])
    {
      if s != "" && word(s[0]) {
        WordRunWords(s[1..]);
        assert forall i :: 1 <= i < |s| ==> s[i] == s[1..][i - 1];
      }
    }

    /** The name matched at the front of a text. */
    function Head(s: string): Option<string> {
      if |s| >= 2 && s[0] == '{' && s[1] == '{' then
        var n := WordRun(s[2..]);
        if 0 < n && |s| >= n + 4 && s[n + 2] == '}' && s[n + 3] == '}' then Some(s[2..2 + n]) else None
      else None
    }

    lemma HeadOpens(s: string)
      requires Head(s).Some?
      ensures Name(Head(s).value) && Opens(Head(s).value, s)
    {
      WordRunWords(s[2..]);
    }

    lemma HeadOf(name: string, s: string)
      requires Valid() && Name(name)
      ensures Opens(name, s) <==> Head(s) == Some(name)
    {
      if Opens(name, s) {
        assert s[2..][..|name|] == name;
        WordRunIs(name, s[2..]);
      }
    }

    /** How much of the text one step of the scan consumes, and what it puts
        out for it. */
    function Width(s: string): (r: nat)
      requires s != ""
      ensures 1 <= r <= |s|
    {
      match Head(s)
      case Some(n) => |n| + 4
      case None => 1
    }

    function Front(s: string, v: map<string, string>): string
      requires s != ""
    {
      match Head(s)
      case Some(n) => Filled(v, n)
      case None => [s[0]]
    }

    /** The substitution: leftmost matches first, none overlapping. */
    function Sub(s: string, v: map<string, string>): string {
      if s == "" then "" else Front(s, v) + Sub(s[Width(s)..], v)
    }

    /** The names matched by the scan. */
    function Names(s: string): set<string> {
      if s == "" then {}
      else (match Head(s) case Some(n) => {n} case None => {}) + Names(s[Width(s)..])
    }

    /** A match cannot straddle the front of another one. */
    lemma HeadStable(a: string, t: string)
      requires Valid() && Head(t).Some? && a != ""
      ensures Head(a + t) == Head(a)
    {
      var s := a + t;
      if Head(a).Some? {
        HeadOpens(a);
        var n := Head(a).value;
        assert s[2..|n| + 2] == a[2..|n| + 2];
        HeadOf(n, s);
      } else if Head(s).Some? {
        HeadOpens(s);
        HeadOpens(t);
        var n := Head(s).value;
        assert s[|a|] == t[0] == '{' && s[|a| + 1] == t[1] == '{';
        assert forall i :: 2 <= i < |n| + 2 ==> s[i] == n[i - 2];
        assert |n| + 4 <= |a|;
        assert s[2..|n| + 2] == a[2..|n| + 2];
        HeadOf(n, a);
      }
    }

    lemma StepStable(a: string, t: string, v: map<string, string>)
      requires Valid() && Head(t).Some? && a != ""
      ensures Width(a + t) == Width(a) && Front(a + t, v) == Front(a, v)
      ensures (a + t)[Width(a)..] == a[Width(a)..] + t
    {
      HeadStable(a, t);
      assert (a + t)[0] == a[0];
    }

    /** So the text before a match is treated on its own. */
    lemma {:induction false} SubCut(a: string, t: string, v: map<string, string>)
      requires Valid() && Head(t).Some?
      ensures Sub(a + t, v) == Sub(a, v) + Sub(t, v)
      decreases |a|
    {
      hide Head, Filled;
      if a == "" {
        assert a + t == t;
      } else {
        StepStable(a, t, v);
        var x := a[Width(a)..];
        SubCut(x, t, v);
        assert Sub(a + t, v) == Front(a, v) + Sub(x + t, v);
      }
    }

    lemma {:induction false} NamesCut(a: string, t: string)
      requires Valid() && Head(t).Some?
      ensures Names(a + t) == Names(a) + Names(t)
      decreases |a|
    {
      hide Head, Filled;
      if a == "" {
        assert a + t == t;
      } else {
        HeadStable(a, t);
        StepStable(a, t, map[]);
        NamesCut(a[Width(a)..], t);
      }
    }

    lemma Assoc(x: string, y: string, z: string)
      ensures x + y + z == x + (y + z)
    {
    }

    lemma FrontMatch(name: string, b: string, v: map<string, string>)
      requires Valid() && Name(name)
      ensures Head(Lit(name) + b) == Some(name)
      ensures Sub(Lit(name) + b, v) == Filled(v, name) + Sub(b, v) && Names(Lit(name) + b) == {name} + Names(b)
    {
      HeadOf(name, Lit(name) + b);
      assert (Lit(name) + b)[|name| + 4..] == b;
    }

    /** Every occurrence of a well-formed placeholder is replaced wherever it
        stands, and the text on either side is treated on its own. */
    lemma SubAround(a: string, name: string, b: string, v: map<string, string>)
      requires Valid() && Name(name)
      ensures Sub(a + Lit(name) + b, v) == Sub(a, v) + Filled(v, name) + Sub(b, v)
      ensures Names(a + Lit(name) + b) == Names(a) + {name} + Names(b)
    {
      hide Head, Filled, Sub, Names;
      FrontMatch(name, b, v);
      var l := Lit(name);
      var t := l + b;
      Assoc(a, l, b);
      SubCut(a, t, v);
      NamesCut(a, t);
      Assoc(Sub(a, v), Filled(v, name), Sub(b, v));
    }

    predicate Occurs(name: string, s: string) {
      exists i :: 0 <= i <= |s| && Opens(name, s[i..])
    }

    /** So the names the scan meets are those that occur anywhere as text. */
    lemma NamesAreOccurrences(name: string, s: string)
      requires Valid() && Name(name)
      ensures name in Names(s) <==> Occurs(name, s)
    {
      hide Head, Sub, Names;
      if i :| 0 <= i <= |s| && Opens(name, s[i..]) {
        var b := s[i + |name| + 4..];
        assert s == s[..i] + Lit(name) + b;
        SubAround(s[..i], name, b, map[]);
      }
      if name in Names(s) {
        NameOccurs(name, s);
      }
    }

    lemma {:induction false} NameOccurs(name: string, s: string)
      requires name in Names(s)
      ensures Occurs(name, s)
      decreases |s|
    {
      hide Head;
      if Head(s) == Some(name) {
        HeadOpens(s);
        assert s[0..] == s;
        assert Opens(name, s[0..]);
      } else {
        var k := Width(s);
        NameOccurs(name, s[k..]);
        var j :| 0 <= j <= |s[k..]| && Opens(name, s[k..][j..]);
        assert s[k..][j..] == s[k + j..];
      }
    }

    /** Text without placeholders is left alone. */
    lemma {:induction false} SubNothing(s: string, v: map<string, string>)
      requires Names(s) !! v.Keys
      ensures Sub(s, v) == s
      decreases |s|
    {
      hide Head, Filled, Front, Width;
      if s != "" {
        SubNothing(s[Width(s)..], v);
        FrontNothing(s, v);
        assert s == s[..Width(s)] + s[Width(s)..];
      }
    }

    lemma FrontNothing(s: string, v: map<string, string>)
      requires s != "" && (Head(s).Some? ==> Head(s).value !in v)
      ensures Front(s, v) == s[..Width(s)]
    {
      if Head(s).Some? {
        HeadOpens(s);
      }
    }

    /** A tail of a placeholder that shows up at the front of a result was
        already there: it cannot begin inside an inserted value, which is too
        long to be closed by the braces in time, nor inside a match that stays. */
    lemma {:induction false} TailWasThere(s: string, v: map<string, string>, name: string, k: nat)
      requires Valid() && Proper(v) && Name(name)
      requires forall n :: n in v ==> |name| < |v[n]|
      requires 1 <= k <= |name| + 4 && Lit(name)[k..] <= Sub(s, v)
      ensures Lit(name)[k..] <= s
      decreases |s|
    {
      if k < |name| + 4 {
        var u, t := Lit(name)[k..], Sub(s, v);
        assert u[0] == t[0] && s != "";
        if Head(s).Some? {
          NotInsideFilled(s, v, name, k);
        } else {
          assert u == [u[0]] + Lit(name)[k + 1..];
          assert u[1..] <= t[1..] == Sub(s[1..], v);
          TailWasThere(s[1..], v, name, k + 1);
          assert s == [s[0]] + s[1..];
        }
      }
    }

    lemma LitChars(n: string)
      requires Name(n)
      ensures var l := Lit(n);
              && |l| == |n| + 4 && l[0] == l[1] == '{' && l[|n| + 2] == l[|n| + 3] == '}'
              && forall i :: 2 <= i < |n| + 2 ==> l[i] == n[i - 2] && word(l[i])
    {
    }

    lemma NotInsideFilled(s: string, v: map<string, string>, name: string, k: nat)
      requires Valid() && Proper(v) && Name(name) && s != "" && Head(s).Some?
      requires forall n :: n in v ==> |name| < |v[n]|
      requires 1 <= k < |name| + 4
      ensures !(Lit(name)[k..] <= Sub(s, v))
    {
      HeadOpens(s);
      hide Head;
      var n := Head(s).value;
      var f := Filled(v, n);
      LitChars(name);
      LitChars(n);
      assert forall i :: 0 <= i < |f| ==> Sub(s, v)[i] == f[i] && f[i] in f;
      var closing := if k <= |name| + 2 then |name| + 2 - k else 0;
      assert Lit(name)[k..][closing] == '}';
    }

    /** A provider's placeholder is in the result exactly if it was in the text
        and had no value: none is left behind, none is formed anew, and those
        without a value all stay. */
    lemma NamesLeft(s: string, v: map<string, string>, name: string)
      requires Valid() && Proper(v) && Name(name)
      requires forall n :: n in v ==> |name| < |v[n]|
      ensures name in Names(Sub(s, v)) <==> name in Names(s) && name !in v
    {
      if name in Names(s) && name !in v {
        NamesStay(s, v, name);
      }
      if name in Names(Sub(s, v)) {
        NamesAreOccurrences(name, Sub(s, v));
        var i :| 0 <= i <= |Sub(s, v)| && Opens(name, Sub(s, v)[i..]);
        StillThere(s, v, name, i);
      }
    }

    lemma NamesStay(s: string, v: map<string, string>, name: string)
      requires Valid() && Name(name) && name in Names(s) && name !in v
      ensures name in Names(Sub(s, v))
    {
      hide Head, Sub, Names;
      NamesAreOccurrences(name, s);
      var i :| 0 <= i <= |s| && Opens(name, s[i..]);
      var b := s[i + |name| + 4..];
      assert s == s[..i] + Lit(name) + b;
      SubAround(s[..i], name, b, v);
      SubAround(Sub(s[..i], v), name, Sub(b, v), v);
    }

    lemma {:induction false} StillThere(s: string, v: map<string, string>, name: string, i: nat)
      requires Valid() && Proper(v) && Name(name)
      requires forall n :: n in v ==> |name| < |v[n]|
      requires i <= |Sub(s, v)| && Opens(name, Sub(s, v)[i..])
      ensures name in Names(s) && name !in v
      decreases |s|
    {
      var t, f, rest := Sub(s, v), Front(s, v), Sub(s[Width(s)..], v);
      if |f| <= i {
        assert t[i..] == rest[i - |f|..];
        StillThere(s[Width(s)..], v, name, i - |f|);
      } else if Head(s).Some? {
        HeadOpens(s);
        OpensInMatch(v, name, Head(s).value, rest, i);
      } else {
        assert i == 0 && t[0..] == t;
        OpensHere(s, v, name);
      }
    }

    lemma OpensHere(s: string, v: map<string, string>, name: string)
      requires Valid() && Proper(v) && Name(name) && s != "" && Head(s) == None
      requires forall n :: n in v ==> |name| < |v[n]|
      ensures !Opens(name, Sub(s, v))
    {
      OneChar(s, v);
      hide Head, Sub, Proper;
      if Opens(name, Sub(s, v)) {
        assert Lit(name)[1..] <= Sub(s, v)[1..] == Sub(s[1..], v);
        TailWasThere(s[1..], v, name, 1);
        assert s == [s[0]] + s[1..] && Lit(name) == ['{'] + Lit(name)[1..];
        HeadOf(name, s);
      }
    }

    lemma OneChar(s: string, v: map<string, string>)
      requires s != "" && Head(s) == None
      ensures Sub(s, v) == [s[0]] + Sub(s[1..], v)
    {
    }

    /** Inside a match only a kept placeholder opens, and only at its front. */
    lemma OpensInMatch(v: map<string, string>, name: string, n: string, rest: string, i: nat)
      requires Valid() && Proper(v) && Name(name) && Name(n)
      requires i < |Filled(v, n)| && Opens(name, (Filled(v, n) + rest)[i..])
      ensures n == name && name !in v
    {
      var f := Filled(v, n);
      var t := f + rest;
      LitChars(n);
      assert t[i..][0] == f[i] && f[i] in f;
      assert t[i] == '{' && t[i + 1] == t[i..][1] == '{' && t[i + 2] == t[i..][2] == name[0];
      assert n !in v;
      assert i == 0;
      assert t[0..] == t && t[2..|n| + 2] == n;
      HeadOf(n, t);
      HeadOf(name, t);
    }

    /** Substituting again, with these or any other values for the same names,
        changes nothing. */
    lemma SubTwice(s: string, v: map<string, string>, w: map<string, string>)
      requires Valid() && Proper(v) && w.Keys <= v.Keys && forall n :: n in v ==> Name(n)
      ensures Sub(Sub(s, v), w) == Sub(s, v)
    {
      forall n | n in w ensures n !in Names(Sub(s, v)) {
        NamesLeft(s, v, n);
      }
      SubNothing(Sub(s, v), w);
    }

    /** Values for names that do not occur do not matter. */
    lemma {:induction false} SubDepends(s: string, v: map<string, string>, w: map<string, string>)
      requires forall n :: n in Names(s) ==> Filled(v, n) == Filled(w, n)
      ensures Sub(s, v) == Sub(s, w)
      decreases |s|
    {
      if s != "" {
        SubDepends(s[Width(s)..], v, w);
      }
    }
  }

  // ------------------------------------------------------------ over one spec

  /** The names with a provider, and the length of what it makes. */
  const PROVIDERS: set<string> := {"generated_token"}
  const SECRET_LENGTH := 32

  predicate Fits(p: Pattern) {
    p.Valid() && forall n :: n in PROVIDERS ==> p.Name(n)
  }

  /** A source of secrets: the stream of what it is going to make, and how much
      of it has been used. */
  class Secrets {
    const stream: nat -> string
    var drawn: nat

    constructor (stream: nat -> string)
      ensures this.stream == stream && drawn == 0
    {
      this.stream := stream;
      drawn := 0;
    }

    method Draw() returns (r: string)
      modifies this
      ensures r == stream(old(drawn)) && drawn == old(drawn) + 1
    {
      r := stream(drawn);
      drawn := drawn + 1;
    }
  }

  predicate Secret(s: string) {
    |s| == SECRET_LENGTH && '{' !in s && '}' !in s
  }

  /** What generate_secret_key makes is one: the hex of 16 bytes. */
  lemma GeneratedIsSecret(b: seq<D.byte>)
    requires |b| == 16
    ensures Secret(D.ToHex(b))
  {
    assert forall c :: c in D.ToHex(b) ==> '0' <= c <= '9' || 'a' <= c <= 'f';
  }

  ghost predicate AllSecret(stream: nat -> string) {
    forall i: nat :: Secret(stream(i))
  }

  function Elements(order: seq<string>): set<string> {
    set n | n in order
  }

  /** The values dictionary: names in the order they were met, each with its own
      draw, counted from start. */
  ghost predicate Filling(values: map<string, string>, order: seq<string>, stream: nat -> string, start: nat) {
    && values.Keys == Elements(order) <= PROVIDERS
    && (forall i, j :: 0 <= i < j < |order| ==> order[i] != order[j])
    && (forall i :: 0 <= i < |order| ==> values[order[i]] == stream(start + i))
  }

  ghost predicate Extends(w: map<string, string>, v: map<string, string>) {
    w.Keys <= PROVIDERS && forall n :: n in v ==> n in w && w[n] == v[n]
  }

  lemma ExtendsSelf(values: map<string, string>, order: seq<string>, stream: nat -> string, start: nat)
    requires Filling(values, order, stream, start)
    ensures Extends(values, values)
  {
  }

  lemma ExtendsKeys(v: map<string, string>, v': map<string, string>)
    requires Extends(v', v)
    ensures v.Keys <= v'.Keys
  {
  }

  lemma ExtendsMore(v: map<string, string>, v': map<string, string>, v'': map<string, string>)
    requires Extends(v', v) && Extends(v'', v')
    ensures Extends(v'', v)
  {
  }

  lemma FillingProper(values: map<string, string>, order: seq<string>, stream: nat -> string, start: nat)
    requires Filling(values, order, stream, start) && AllSecret(stream)
    ensures Proper(values) && forall n :: n in values ==> Secret(values[n])
  {
    forall n | n in values ensures Secret(values[n]) {
      var i :| 0 <= i < |order| && order[i] == n;
      assert Secret(stream(start + i));
    }
  }

  /** The replace callback: draw a value the first time a name is met. */
  method Replace(g: Secrets, values: map<string, string>, ghost order: seq<string>, ghost start: nat, name: string)
    returns (out: string, values': map<string, string>, ghost order': seq<string>)
    requires Filling(values, order, g.stream, start) && g.drawn == start + |order|
    modifies g
    ensures Filling(values', order', g.stream, start) && g.drawn == start + |order'| && order <= order'
    ensures Extends(values', values) && values'.Keys == values.Keys + {name} * PROVIDERS
    ensures out == Filled(values', name)
  {
    values', order' := values, order;
    if name !in PROVIDERS {
      out := Lit(name);
    } else {
      if name !in values {
        var v := g.Draw();
        values', order' := values[name := v], order + [name];
        assert Elements(order') == Elements(order) + {name};
      }
      out := values'[name];
    }
  }

  /** What has been put out for a text of which rest is left to scan, whatever
      values later names may get. */
  ghost predicate Emitted(p: Pattern, out: string, rest: string, s: string, values: map<string, string>) {
    forall w :: Extends(w, values) ==> out + p.Sub(rest, w) == p.Sub(s, w)
  }

  lemma EmittedStep(p: Pattern, out: string, rest: string, s: string, v: map<string, string>,
                      piece: string, v': map<string, string>)
    requires rest != "" && Emitted(p, out, rest, s, v) && Extends(v', v)
    requires forall w :: Extends(w, v') ==> p.Front(rest, w) == piece
    ensures Emitted(p, out + piece, rest[p.Width(rest)..], s, v')
  {
    var k := p.Width(rest);
    forall w | Extends(w, v') ensures out + piece + p.Sub(rest[k..], w) == p.Sub(s, w) {
      assert Extends(w, v);
      assert p.Sub(rest, w) == p.Front(rest, w) + p.Sub(rest[k..], w);
      p.Assoc(out, piece, p.Sub(rest[k..], w));
    }
  }

  lemma EmittedAll(p: Pattern, out: string, s: string, v: map<string, string>)
    requires Emitted(p, out, "", s, v)
    ensures forall w :: Extends(w, v) ==> out == p.Sub(s, w)
  {
    forall w | Extends(w, v) ensures out == p.Sub(s, w) {
      assert out + p.Sub("", w) == out;
    }
  }

  /** The names that have a value once the rest of a text is done. */
  function Reach(p: Pattern, values: map<string, string>, rest: string): set<string> {
    values.Keys + p.Names(rest) * PROVIDERS
  }

  /** One step of the scan. */
  method Step(p: Pattern, g: Secrets, values: map<string, string>, ghost order: seq<string>,
                ghost start: nat, rest: string)
    returns (piece: string, values': map<string, string>, ghost order': seq<string>)
    requires Filling(values, order, g.stream, start) && g.drawn == start + |order| && rest != ""
    modifies g
    ensures Filling(values', order', g.stream, start) && g.drawn == start + |order'| && order <= order'
    ensures Extends(values', values)
    ensures Reach(p, values', rest[p.Width(rest)..]) == Reach(p, values, rest)
    ensures forall w :: Extends(w, values') ==> p.Front(rest, w) == piece
  {
    match p.Head(rest) {
      case Some(n) =>
        piece, values', order' := Replace(g, values, order, start, n);
      case None =>
        piece, values', order' := [rest[0]], values, order;
    }
  }

  /** One text: Pattern.sub with the callback. */
  method SubText(p: Pattern, g: Secrets, values: map<string, string>, ghost order: seq<string>,
                   ghost start: nat, s: string)
    returns (out: string, values': map<string, string>, ghost order': seq<string>)
    requires Filling(values, order, g.stream, start) && g.drawn == start + |order|
    modifies g
    ensures Filling(values', order', g.stream, start) && g.drawn == start + |order'| && order <= order'
    ensures Extends(values', values) && values'.Keys == values.Keys + p.Names(s) * PROVIDERS
    ensures Settled(p, out, s, values')
  {
    values', order', out := values, order, "";
    var rest := s;
    while rest != ""
      invariant Filling(values', order', g.stream, start) && g.drawn == start + |order'| && order <= order'
      invariant Extends(values', values)
      invariant Reach(p, values', rest) == Reach(p, values, s)
      invariant Emitted(p, out, rest, s, values')
      decreases |rest|
    {
      ghost var before := values';
      var piece;
      piece, values', order' := Step(p, g, values', order', start, rest);
      EmittedStep(p, out, rest, s, before, piece, values');
      out, rest := out + piece, rest[p.Width(rest)..];
    }
    EmittedAll(p, out, s, values');
    assert Extends(values', values');
  }

  /** The substituted text, with every name valued that it needs. */
  predicate Settled(p: Pattern, out: string, s: string, v: map<string, string>) {
    out == p.Sub(s, v) && p.Names(s) * PROVIDERS <= v.Keys
  }

  /** Names met later do not change it. */
  lemma SettledMore(p: Pattern, out: string, s: string, v: map<string, string>, v': map<string, string>)
    requires Settled(p, out, s, v) && Extends(v', v)
    ensures Settled(p, out, s, v')
  {
    p.SubDepends(s, v, v');
  }

  function ItemsSub(p: Pattern, items: seq<string>, w: map<string, string>): seq<string> {
    seq(|items|, i requires 0 <= i < |items| => p.Sub(items[i], w))
  }

  function NamesIn(p: Pattern, items: seq<string>): set<string> {
    if items == [] then {} else NamesIn(p, items[..|items| - 1]) + p.Names(items[|items| - 1])
  }

  function ParamsSub(p: Pattern, m: map<string, string>, w: map<string, string>): map<string, string> {
    map k | k in m :: p.Sub(m[k], w)
  }

  function NamesOf(p: Pattern, m: map<string, string>): set<string> {
    set k, n | k in m && n in p.Names(m[k]) :: n
  }

  lemma NamesInStep(p: Pattern, items: seq<string>, n: nat)
    requires n < |items|
    ensures NamesIn(p, items[..n + 1]) == NamesIn(p, items[..n]) + p.Names(items[n])
  {
    assert items[..n + 1][..n] == items[..n];
  }

  lemma NamesInNone(p: Pattern, items: seq<string>)
    ensures NamesIn(p, items[..0]) == {}
  {
  }

  /** The list comprehension over command. */
  method SubItems(p: Pattern, g: Secrets, values: map<string, string>, ghost order: seq<string>, ghost start: nat,
                  items: seq<string>)
    returns (out: seq<string>, values': map<string, string>, ghost order': seq<string>)
    requires Filling(values, order, g.stream, start) && g.drawn == start + |order|
    modifies g
    ensures Filling(values', order', g.stream, start) && g.drawn == start + |order'| && order <= order'
    ensures Extends(values', values) && values'.Keys == values.Keys + NamesIn(p, items) * PROVIDERS
    ensures out == ItemsSub(p, items, values')
  {
    hide Filling, Settled, Extends, NamesIn;
    values', order', out := values, order, [];
    ExtendsSelf(values, order, g.stream, start);
    NamesInNone(p, items);
    while |out| < |items|
      invariant |out| <= |items|
      invariant Filling(values', order', g.stream, start) && g.drawn == start + |order'| && order <= order'
      invariant Extends(values', values) && values'.Keys == values.Keys + NamesIn(p, items[..|out|]) * PROVIDERS
      invariant forall i :: 0 <= i < |out| ==> Settled(p, out[i], items[i], values')
    {
      ghost var before := values';
      var piece;
      piece, values', order' := SubText(p, g, values', order', start, items[|out|]);
      ExtendsMore(values, before, values');
      NamesInStep(p, items, |out|);
      forall i | 0 <= i < |out| ensures Settled(p, out[i], items[i], values') {
        SettledMore(p, out[i], items[i], before, values');
      }
      out := out + [piece];
    }
    assert items[..|items|] == items;
    assert out == ItemsSub(p, items, values') by {
      forall i | 0 <= i < |out| ensures out[i] == p.Sub(items[i], values') {
        SettledIs(p, out[i], items[i], values');
      }
    }
  }

  lemma SettledIs(p: Pattern, out: string, s: string, v: map<string, string>)
    requires Settled(p, out, s, v)
    ensures out == p.Sub(s, v)
  {
  }

  /** The dictionary comprehension over one port's access parameters. */
  method SubParams(p: Pattern, g: Secrets, values: map<string, string>, ghost order: seq<string>, ghost start: nat,
                   m: map<string, string>)
    returns (out: map<string, string>, values': map<string, string>, ghost order': seq<string>)
    requires Filling(values, order, g.stream, start) && g.drawn == start + |order|
    modifies g
    ensures Filling(values', order', g.stream, start) && g.drawn == start + |order'| && order <= order'
    ensures Extends(values', values) && values'.Keys == values.Keys + NamesOf(p, m) * PROVIDERS
    ensures out.Keys == m.Keys && forall k :: k in m ==> Settled(p, out[k], m[k], values')
  {
    hide Filling, Extends;
    values', order', out := values, order, map[];
    ExtendsSelf(values, order, g.stream, start);
    var left := m.Keys;
    while left != {}
      invariant left <= m.Keys && out.Keys == m.Keys - left
      invariant values'.Keys <= values.Keys + NamesOf(p, m) * PROVIDERS
      invariant Filling(values', order', g.stream, start) && g.drawn == start + |order'| && order <= order'
      invariant Extends(values', values)
      invariant forall k :: k in out ==> Settled(p, out[k], m[k], values')
      decreases left
    {
      var k := Pick(left);
      ghost var before := values';
      var piece;
      piece, values', order' := SubText(p, g, values', order', start, m[k]);
      ExtendsMore(values, before, values');
      forall j | j in out ensures Settled(p, out[j], m[j], values') {
        SettledMore(p, out[j], m[j], before, values');
      }
      out, left := out[k := piece], left - {k};
    }
    ExtendsKeys(values, values');
  }

  lemma {:induction false} ElementsSize(order: seq<string>)
    requires forall i, j :: 0 <= i < j < |order| ==> order[i] != order[j]
    ensures |Elements(order)| == |order|
  {
    if order != [] {
      var n := |order| - 1;
      ElementsSize(order[..n]);
      assert order == order[..n] + [order[n]];
      assert Elements(order) == Elements(order[..n]) + {order[n]};
    }
  }

  function AccessSub(p: Pattern, m: Option<map<string, string>>, w: map<string, string>): Option<map<string, string>> {
    match m
    case None => None
    case Some(m) => Some(ParamsSub(p, m, w))
  }

  function AccessNames(p: Pattern, m: Option<map<string, string>>): set<string> {
    match m
    case None => {}
    case Some(m) => NamesOf(p, m)
  }

  predicate AccessSettled(p: Pattern, out: Option<map<string, string>>, m: Option<map<string, string>>,
                          v: map<string, string>)
  {
    out == AccessSub(p, m, v) && AccessNames(p, m) * PROVIDERS <= v.Keys
  }

  lemma SettledHasToken(p: Pattern, out: Option<map<string, string>>, m: Option<map<string, string>>,
                        v: map<string, string>)
    requires AccessSettled(p, out, m, v) && "generated_token" in AccessNames(p, m)
    ensures "generated_token" in v
  {
    assert "generated_token" in PROVIDERS;
  }

  lemma AccessMore(p: Pattern, out: Option<map<string, string>>, m: Option<map<string, string>>,
                   v: map<string, string>, v': map<string, string>)
    requires AccessSettled(p, out, m, v) && Extends(v', v)
    ensures AccessSettled(p, out, m, v')
  {
    if m.Some? {
      forall k | k in m.value ensures p.Sub(m.value[k], v) == p.Sub(m.value[k], v') {
        assert forall n :: n in p.Names(m.value[k]) ==> n in NamesOf(p, m.value);
        p.SubDepends(m.value[k], v, v');
      }
      assert ParamsSub(p, m.value, v) == ParamsSub(p, m.value, v');
    }
  }

  class Port {
    var accessParams: Option<map<string, string>>

    constructor (accessParams: Option<map<string, string>>)
      ensures this.accessParams == accessParams
    {
      this.accessParams := accessParams;
    }

    /** None and the empty dictionary are skipped. */
    method Substitute(p: Pattern, g: Secrets, values: map<string, string>, ghost order: seq<string>, ghost start: nat)
      returns (values': map<string, string>, ghost order': seq<string>)
      requires Filling(values, order, g.stream, start) && g.drawn == start + |order|
      modifies this, g
      ensures Filling(values', order', g.stream, start) && g.drawn == start + |order'| && order <= order'
      ensures Extends(values', values)
      ensures values'.Keys == values.Keys + AccessNames(p, old(accessParams)) * PROVIDERS
      ensures AccessSettled(p, accessParams, old(accessParams), values')
    {
      values', order' := values, order;
      if accessParams.Some? && accessParams.value != map[] {
        var m := accessParams.value;
        var out;
        out, values', order' := SubParams(p, g, values, order, start, m);
        assert out == ParamsSub(p, m, values');
        accessParams := Some(out);
      }
    }
  }

  /** The loop over the ports. */
  method SubPorts(p: Pattern, g: Secrets, values: map<string, string>, ghost order: seq<string>,
                    ghost start: nat, ports: seq<Port>)
    returns (values': map<string, string>, ghost order': seq<string>)
    requires Filling(values, order, g.stream, start) && g.drawn == start + |order|
    requires forall i, j :: 0 <= i < j < |ports| ==> ports[i] != ports[j]
    modifies g, ports
    ensures Filling(values', order', g.stream, start) && g.drawn == start + |order'|
    ensures Extends(values', values)
    ensures forall n :: n in values' ==>
                n in values || exists i :: 0 <= i < |ports| && n in AccessNames(p, old(ports[i].accessParams))
    ensures forall i :: 0 <= i < |ports| ==>
                AccessSettled(p, ports[i].accessParams, old(ports[i].accessParams), values')
  {
    values', order' := values, order;
    var i := 0;
    while i < |ports|
      invariant 0 <= i <= |ports|
      invariant Filling(values', order', g.stream, start) && g.drawn == start + |order'|
      invariant Extends(values', values)
      invariant forall n :: n in values' ==>
                    n in values || exists j :: 0 <= j < |ports| && n in AccessNames(p, old(ports[j].accessParams))
      invariant forall j :: 0 <= j < i ==> AccessSettled(p, ports[j].accessParams, old(ports[j].accessParams), values')
      invariant forall j :: i <= j < |ports| ==> ports[j].accessParams == old(ports[j].accessParams)
    {
      ghost var before := values';
      values', order' := ports[i].Substitute(p, g, values', order', start);
      forall j | 0 <= j < i ensures AccessSettled(p, ports[j].accessParams, old(ports[j].accessParams), values') {
        AccessMore(p, ports[j].accessParams, old(ports[j].accessParams), before, values');
      }
      i := i + 1;
    }
  }

  class Spec {
    var command: Option<seq<string>>
    var ports: Option<seq<Port>>

    function PortList(): seq<Port>
      reads this
    {
      ports.GetOr([])
    }

    /** No provider's placeholder is left anywhere. */
    ghost predicate Clean(p: Pattern)
      reads this, PortList()
    {
      && NamesIn(p, command.GetOr([])) !! PROVIDERS
      && forall i :: 0 <= i < |PortList()| ==> AccessNames(p, PortList()[i].accessParams) !! PROVIDERS
    }

    /** substitute_generated_placeholders: every text of the spec is replaced in
        place under one assignment of values; a value is drawn for exactly the
        provider names that occur, once each, and nothing else is touched. */
    method Substitute(p: Pattern, g: Secrets) returns (values: map<string, string>, ghost order: seq<string>)
      requires forall i, j :: 0 <= i < j < |PortList()| ==> PortList()[i] != PortList()[j]
      modifies this, g, PortList()
      ensures Filling(values, order, g.stream, old(g.drawn)) && g.drawn == old(g.drawn) + |values|
      ensures forall n :: n in values ==>
                (n in NamesIn(p, old(command).GetOr([]))
                 || exists i :: 0 <= i < |old(PortList())| && n in AccessNames(p, old(PortList()[i].accessParams)))
      ensures ports == old(ports)
      ensures command == (match old(command) case None => None case Some(items) => Some(ItemsSub(p, items, values)))
      ensures NamesIn(p, old(command).GetOr([])) * PROVIDERS <= values.Keys
      ensures forall i :: 0 <= i < |PortList()| ==>
                AccessSettled(p, PortList()[i].accessParams, old(PortList()[i].accessParams), values)
      ensures values.Keys <= {"generated_token"}
      ensures "generated_token" in values <==>
                (|| "generated_token" in NamesIn(p, old(command).GetOr([]))
                 || exists i :: 0 <= i < |old(PortList())|
                      && "generated_token" in AccessNames(p, old(PortList()[i].accessParams)))
    {
      ghost var start, items := g.drawn, command.GetOr([]);
      assert NamesIn(p, []) == {} && forall w :: ItemsSub(p, [], w) == [];
      hide ItemsSub, NamesIn, AccessSettled, AccessNames;
      values, order := map[], [];
      assert Extends(values, values);
      if command.Some? && command.value != [] {
        var out;
        out, values, order := SubItems(p, g, values, order, start, command.value);
        command := Some(out);
      }
      ghost var before := values;
      values, order := SubPorts(p, g, values, order, start, PortList());
      ItemsMore(p, items, before, values);
      ElementsSize(order);
      forall i | 0 <= i < |PortList()| && "generated_token" in AccessNames(p, old(PortList()[i].accessParams))
        ensures "generated_token" in values
      {
        SettledHasToken(p, PortList()[i].accessParams, old(PortList()[i].accessParams), values);
      }
    }

    /** A clean spec is left as it is, and nothing is drawn. */
    method SubstituteClean(p: Pattern, g: Secrets) returns (values: map<string, string>)
      requires forall i, j :: 0 <= i < j < |PortList()| ==> PortList()[i] != PortList()[j]
      requires Clean(p)
      modifies this, g, PortList()
      ensures values == map[] && g.drawn == old(g.drawn)
      ensures command == old(command) && ports == old(ports)
      ensures forall i :: 0 <= i < |PortList()| ==> PortList()[i].accessParams == old(PortList()[i].accessParams)
    {
      ghost var order;
      values, order := Substitute(p, g);
      assert forall n :: n !in values;
      assert values == map[];
      ItemsNothing(p, old(command).GetOr([]));
      forall i | 0 <= i < |PortList()| ensures PortList()[i].accessParams == old(PortList()[i].accessParams) {
        AccessNothing(p, old(PortList()[i].accessParams));
      }
    }

    /** The whole spec, replayed: after a run it is clean, so running it again
        draws nothing and changes neither the command nor any port. */
    method SubstituteTwice(p: Pattern, g: Secrets) returns (values: map<string, string>, again: map<string, string>)
      requires forall i, j :: 0 <= i < j < |PortList()| ==> PortList()[i] != PortList()[j]
      requires Fits(p) && AllSecret(g.stream)
      modifies this, g, PortList()
      ensures Clean(p) && again == map[] && g.drawn == old(g.drawn) + |values| && ports == old(ports)
      ensures command == (match old(command) case None => None case Some(items) => Some(ItemsSub(p, items, values)))
      ensures forall i :: 0 <= i < |PortList()| ==>
                PortList()[i].accessParams == AccessSub(p, old(PortList()[i].accessParams), values)
    {
      ghost var order, start := [], g.drawn;
      values, order := Substitute(p, g);
      FillingProper(values, order, g.stream, start);
      ItemsTwice(p, old(command).GetOr([]), values, map[]);
      forall i | 0 <= i < |PortList()| ensures AccessNames(p, PortList()[i].accessParams) !! PROVIDERS {
        AccessTwice(p, old(PortList()[i].accessParams), values, map[]);
      }
      assert Clean(p);
      again := SubstituteClean(p, g);
      assert Clean(p);
    }
  }

  lemma ItemsNothing(p: Pattern, items: seq<string>)
    ensures ItemsSub(p, items, map[]) == items
  {
    forall i | 0 <= i < |items| ensures p.Sub(items[i], map[]) == items[i] {
      p.SubNothing(items[i], map[]);
    }
  }

  lemma AccessNothing(p: Pattern, m: Option<map<string, string>>)
    ensures AccessSub(p, m, map[]) == m
  {
    if m.Some? {
      forall k | k in m.value ensures p.Sub(m.value[k], map[]) == m.value[k] {
        p.SubNothing(m.value[k], map[]);
      }
      assert ParamsSub(p, m.value, map[]) == m.value;
    }
  }

  lemma ItemsMore(p: Pattern, items: seq<string>, v: map<string, string>, v': map<string, string>)
    requires NamesIn(p, items) * PROVIDERS <= v.Keys && Extends(v', v)
    ensures ItemsSub(p, items, v) == ItemsSub(p, items, v')
  {
    hide Extends;
    forall i | 0 <= i < |items| ensures p.Sub(items[i], v) == p.Sub(items[i], v') {
      NamesInItem(p, items, i);
      SettledMore(p, p.Sub(items[i], v), items[i], v, v');
    }
  }

  // ---------------------------------------------------------------- run twice

  lemma TextSettled(p: Pattern, s: string, v: map<string, string>)
    requires Fits(p) && p.Names(s) * PROVIDERS <= v.Keys <= PROVIDERS && forall n :: n in v ==> Secret(v[n])
    ensures p.Names(p.Sub(s, v)) !! PROVIDERS
  {
    forall n | n in PROVIDERS ensures n !in p.Names(p.Sub(s, v)) {
      p.NamesLeft(s, v, n);
    }
  }

  /** Once every provider name of a command has its value, none is left, and
      whatever a second run might draw, it changes nothing. */
  lemma ItemsTwice(p: Pattern, items: seq<string>, v: map<string, string>, w: map<string, string>)
    requires Fits(p) && NamesIn(p, items) * PROVIDERS <= v.Keys <= PROVIDERS && w.Keys <= PROVIDERS
    requires forall n :: n in v ==> Secret(v[n])
    ensures NamesIn(p, ItemsSub(p, items, v)) !! PROVIDERS
    ensures ItemsSub(p, ItemsSub(p, items, v), w) == ItemsSub(p, items, v)
  {
    var out := ItemsSub(p, items, v);
    forall i | 0 <= i < |out| ensures p.Names(out[i]) !! PROVIDERS && p.Sub(out[i], w) == out[i] {
      NamesInItem(p, items, i);
      TextSettled(p, items[i], v);
      p.SubNothing(out[i], w);
    }
    NoNamesIn(p, out);
  }

  lemma {:induction false} NamesInItem(p: Pattern, items: seq<string>, i: nat)
    requires i < |items|
    ensures p.Names(items[i]) <= NamesIn(p, items)
  {
    if i < |items| - 1 {
      NamesInItem(p, items[..|items| - 1], i);
    }
  }

  lemma {:induction false} NoNamesIn(p: Pattern, items: seq<string>)
    requires forall i :: 0 <= i < |items| ==> p.Names(items[i]) !! PROVIDERS
    ensures NamesIn(p, items) !! PROVIDERS
  {
    if items != [] {
      NoNamesIn(p, items[..|items| - 1]);
    }
  }

  lemma AccessTwice(p: Pattern, m: Option<map<string, string>>, v: map<string, string>, w: map<string, string>)
    requires Fits(p) && AccessNames(p, m) * PROVIDERS <= v.Keys <= PROVIDERS && w.Keys <= PROVIDERS
    requires forall n :: n in v ==> Secret(v[n])
    ensures AccessNames(p, AccessSub(p, m, v)) !! PROVIDERS
    ensures AccessSub(p, AccessSub(p, m, v), w) == AccessSub(p, m, v)
  {
    if m.Some? {
      var out := ParamsSub(p, m.value, v);
      forall k | k in out ensures p.Names(out[k]) !! PROVIDERS && p.Sub(out[k], w) == out[k] {
        assert forall n :: n in p.Names(m.value[k]) ==> n in NamesOf(p, m.value);
        TextSettled(p, m.value[k], v);
        p.SubNothing(out[k], w);
      }
      assert ParamsSub(p, out, w) == out;
    }
  }
}
