// gpustack/gpu_instances/cluster_apis_util.py and the key format of
// gpustack/security.py: names printed for Kubernetes, API keys handed to users,
// and the parsers that read them back.
module Names {
  import opened Text

  const PREFIX := "gpustack"
  const PLATFORM := "default"

  datatype PrincipalKind = USER | ORG | GROUP | SYSTEM

  datatype Principal = Principal(kind: PrincipalKind, id: int, name: string)

  /** principal_namespace_identifier */
  function Identifier(p: Principal): string {
    if p.kind == USER then "user-" + Decimal(p.id) else p.name
  }

  predicate Lower(c: char) {
    'a' <= c <= 'z'
  }

  predicate IsDigit(c: char) {
    '0' <= c <= '9'
  }

  /** The names that name_pattern describes: lower case letters, digits and
      hyphens, a letter first, no hyphen last. */
  predicate UrlSafe(s: string) {
    && s != "" && Lower(s[0]) && s[|s| - 1] != '-'
    && forall c :: c in s ==> Lower(c) || IsDigit(c) || c == '-'
  }

  /** The form personal_name_pattern describes. */
  predicate Personal(s: string) {
    "user-" < s && forall i :: 5 <= i < |s| ==> IsDigit(s[i])
  }

  /** re.match with a pattern that ends in '$', which also matches before one
      trailing newline. */
  predicate MatchesToEnd(s: string, form: string -> bool) {
    form(s) || (s != "" && s[|s| - 1] == '\n' && form(s[..|s| - 1]))
  }

  function LowerCased(s: string): string {
    seq(|s|, i requires 0 <= i < |s| => if 'A' <= s[i] <= 'Z' then (s[i] as int + 32) as char else s[i])
  }

  const RESERVED: set<string> := {"personal", "global", "system", "system-toolkit"}

  /** _check_name_format, which every name of a new Org has to pass. */
  predicate OrgNameAccepted(s: string) {
    && MatchesToEnd(s, UrlSafe)
    && LowerCased(s) !in RESERVED
    && !MatchesToEnd(s, Personal)
  }

  const LETTERS := "abcdefghijklmnopqrstuvwxyz"
  const DIGITS := "0123456789"

  lemma LowerIs(c: char)
    ensures Lower(c) <==> c in LETTERS
    ensures IsDigit(c) <==> c in DIGITS
  {
  }

  /** Lower-case letters, digits and hyphens, a letter first and no hyphen last, and
      not "user-" with only digits behind it. */
  predicate PlainName(s: string) {
    && s != "" && s[0] in LETTERS && s[|s| - 1] != '-' && (forall c :: c in s ==> c in LETTERS + DIGITS + "-")
    && !("user-" < s && forall c :: c in s[5..] ==> c in DIGITS)
  }

  lemma PlainNameIs(s: string)
    ensures PlainName(s) <==> UrlSafe(s) && !Personal(s)
  {
    hide Lower, IsDigit;
    forall c ensures (Lower(c) <==> c in LETTERS) && (IsDigit(c) <==> c in DIGITS) {
      LowerIs(c);
    }
    if "user-" < s {
      assert forall i :: 5 <= i < |s| ==> s[i] == s[5..][i - 5];
    }
  }

  lemma LowerStays(s: string)
    requires forall c :: c in s ==> Lower(c) || IsDigit(c) || c == '-' || c == '\n'
    ensures LowerCased(s) == s
  {
    assert forall i :: 0 <= i < |s| ==> s[i] in s;
  }

  /** The names an Org can have, told without the patterns: a plain name that is not
      one of the four reserved ones, or any plain name with one newline behind it. */
  lemma OrgNameAcceptedIs(s: string)
    ensures OrgNameAccepted(s) <==>
            || (PlainName(s) && s !in {"personal", "global", "system", "system-toolkit"})
            || (s != "" && s[|s| - 1] == '\n' && PlainName(s[..|s| - 1]))
  {
    PlainNameIs(s);
    if UrlSafe(s) {
      LowerStays(s);
    }
    hide LowerCased, PlainName;
    if s != "" {
      var core := s[..|s| - 1];
      PlainNameIs(core);
      if s[|s| - 1] == '\n' {
        NewlineAccepted(s, core);
      }
    }
  }

  lemma NewlineAccepted(s: string, core: string)
    requires s == core + "\n"
    ensures !UrlSafe(s) && !Personal(s) && (UrlSafe(core) ==> LowerCased(s) == s && s !in RESERVED)
  {
    assert s[|core|] == '\n' && '\n' in s && s[|s| - 1] == '\n';
    if UrlSafe(core) {
      LowerStays(s);
    }
  }

  /** The printed forms, spelt out. */
  lemma NamesAre(name: string, identifier: string)
    ensures NamespaceName(None) == "gpustack-default" && NamespaceName(Some(identifier)) == "gpustack-" + identifier
    ensures VolumeTypeName(name, None) == "gpustack.default." + name
    ensures VolumeTypeName(name, Some(identifier)) == "gpustack." + (identifier + "." + name)
    ensures PrintKey(name, identifier) == "gpustack_" + (name + "_" + identifier)
  {
  }

  /** get_namespace_name */
  function NamespaceName(identifier: Option<string>): string {
    PREFIX + "-" + match identifier case None => PLATFORM case Some(i) => i
  }

  /** parse_namespace_name */
  function ParseNamespace(name: string): Option<string> {
    if !(PREFIX + "-" <= name) then None
    else
      var parts := Split(name, '-');
      if |parts| < 2 || parts[0] != PREFIX then None
      else Some(Join(parts[1..], '-'))
  }

  /** get_persistent_volume_type_name */
  function VolumeTypeName(name: string, identifier: Option<string>): string {
    PREFIX + "." + (match identifier case None => PLATFORM case Some(i) => i) + "." + name
  }

  /** parse_persistent_volume_type_name: (name, principal). */
  function ParseVolumeType(text: string): Option<(string, string)> {
    if !(PREFIX + "." <= text) then None
    else
      var parts := Split(text, '.');
      if |parts| < 3 || parts[0] != PREFIX then None
      else Some((Join(parts[2..], '.'), parts[1]))
  }

  /** key.split(sep, n): at most n cuts. */
  function SplitAtMost(s: string, sep: char, n: nat): (parts: seq<string>)
    ensures |parts| >= 1
  {
    if n == 0 then [s]
    else if s == "" then [""]
    else if s[0] == sep then [""] + SplitAtMost(s[1..], sep, n - 1)
    else
      var rest := SplitAtMost(s[1..], sep, n);
      [[s[0]] + rest[0]] + rest[1..]
  }

  function PrintKey(accessKey: string, secretKey: string): string {
    PREFIX + "_" + accessKey + "_" + secretKey
  }

  /** is_valid_format: the two halves, or None when the key is not ours. */
  function ParseKey(key: string): Option<(string, string)> {
    if !(PREFIX + "_" <= key) then None
    else
      var parts := SplitAtMost(key, '_', 2);
      if |parts| != 3 then None else Some((parts[1], parts[2]))
  }

  /** get_key_pair; blake is custom_key_hash. */
  function KeyPair(blake: string -> string, key: string): (string, string) {
    match ParseKey(key)
    case Some(pair) => pair
    case None => (blake(key), key)
  }

  // ---------------------------------------------------------------- theorems

  /** Reading a namespace name and printing one are inverse, for every text. */
  lemma NamespaceRoundTrip(name: string, identifier: string)
    ensures ParseNamespace(name) == Some(identifier) <==> name == NamespaceName(Some(identifier))
  {
    if name == NamespaceName(Some(identifier)) {
      assert name == PREFIX + ['-'] + identifier;
      SplitFirst(PREFIX, identifier, '-');
    } else if PREFIX + "-" <= name {
      var rest := name[|PREFIX| + 1..];
      assert name == PREFIX + ['-'] + rest;
      SplitFirst(PREFIX, rest, '-');
    }
  }

  /** The names are unambiguous up to one clash: principals share a namespace
      exactly when they are one user, or non-users of one name, or a user and a
      non-user named "user-<id>" after it. */
  lemma NamespacesClash(p: Principal, q: Principal)
    ensures NamespaceName(Some(Identifier(p))) == NamespaceName(Some(Identifier(q))) <==>
            || (p.kind == USER && q.kind == USER && p.id == q.id)
            || (p.kind != USER && q.kind != USER && p.name == q.name)
            || (p.kind == USER && q.kind != USER && q.name == "user-" + Decimal(p.id))
            || (p.kind != USER && q.kind == USER && p.name == "user-" + Decimal(q.id))
  {
    NamespaceRoundTrip(NamespaceName(Some(Identifier(p))), Identifier(p));
    NamespaceRoundTrip(NamespaceName(Some(Identifier(q))), Identifier(q));
    if p.kind == USER && q.kind == USER {
      DecimalInjective(p.id, q.id);
      assert ("user-" + Decimal(p.id))[5..] == Decimal(p.id);
      assert ("user-" + Decimal(q.id))[5..] == Decimal(q.id);
    }
  }

  lemma UserNameIsPersonal(id: int)
    requires id >= 0
    ensures Personal("user-" + Decimal(id))
  {
    var s := "user-" + Decimal(id);
    SignShows(id);
    forall i | 5 <= i < |s| ensures IsDigit(s[i]) {
      assert s[i] == Decimal(id)[i - 5] && Decimal(id)[i - 5] in DecimalNat(id);
    }
  }

  /** A row the service can hold: ids are counted from a sequence, and an Org's
      name has been accepted. */
  predicate Admitted(p: Principal) {
    (p.kind == USER && p.id >= 0) || (p.kind == ORG && OrgNameAccepted(p.name))
  }

  /** So among users and Orgs nobody ever shares a namespace. */
  lemma NamespacesDistinct(p: Principal, q: Principal)
    requires Admitted(p) && Admitted(q)
    ensures NamespaceName(Some(Identifier(p))) == NamespaceName(Some(Identifier(q))) <==>
            p.kind == q.kind && if p.kind == USER then p.id == q.id else p.name == q.name
  {
    NamespacesClash(p, q);
    if p.kind == USER { UserNameIsPersonal(p.id); }
    if q.kind == USER { UserNameIsPersonal(q.id); }
  }

  /** A volume type name parses back to its parts exactly when the principal's
      identifier has no dot; the other name may hold any. */
  lemma VolumeTypeRoundTrip(name: string, identifier: string)
    ensures ParseVolumeType(VolumeTypeName(name, Some(identifier))) == Some((name, identifier)) <==> '.' !in identifier
  {
    var text := VolumeTypeName(name, Some(identifier));
    assert text == PREFIX + ['.'] + (identifier + ['.'] + name);
    SplitFirst(PREFIX, identifier + ['.'] + name, '.');
    var parts := Split(text, '.');
    if '.' !in identifier {
      SplitFirst(identifier, name, '.');
      assert parts[2..] == Split(name, '.');
    } else {
      assert parts[1] in parts;
    }
  }

  /** Whatever parses prints back to the same text. */
  lemma VolumeTypeReprint(text: string)
    ensures ParseVolumeType(text).Some? ==>
              text == VolumeTypeName(ParseVolumeType(text).value.0, Some(ParseVolumeType(text).value.1))
  {
    if ParseVolumeType(text).Some? {
      var parts := Split(text, '.');
      assert Join(parts, '.') == parts[0] + ['.'] + Join(parts[1..], '.');
      assert parts[1..][1..] == parts[2..];
    }
  }

  lemma {:induction false} SplitAtMostFirst(p: string, rest: string, sep: char, n: nat)
    requires sep !in p
    ensures SplitAtMost(p + [sep] + rest, sep, n + 1) == [p] + SplitAtMost(rest, sep, n)
  {
    var s := p + [sep] + rest;
    if p == "" {
      assert s[0] == sep && s[1..] == rest;
    } else {
      SplitAtMostFirst(p[1..], rest, sep, n);
      assert s[1..] == p[1..] + [sep] + rest;
      assert [p[0]] + p[1..] == p;
    }
  }

  lemma {:induction false} SplitAtMostPieces(s: string, sep: char, n: nat)
    ensures var parts := SplitAtMost(s, sep, n);
            && Join(parts, sep) == s
            && forall i :: 0 <= i < |parts| - 1 ==> sep !in parts[i]
  {
    if n > 0 && s != "" {
      var left := if s[0] == sep then n - 1 else n;
      SplitAtMostPieces(s[1..], sep, left);
      var parts, rest := SplitAtMost(s, sep, n), SplitAtMost(s[1..], sep, left);
      hide SplitAtMost;
      assert [s[0]] + s[1..] == s;
      if s[0] == sep {
        assert parts[1..] == rest;
      } else {
        assert parts[0] == [s[0]] + rest[0] && parts[1..] == rest[1..];
        assert Join(parts, sep) == [s[0]] + Join(rest, sep);
      }
    }
  }

  /** A printed key parses back to its halves exactly when the access key has no
      underscore; the secret may hold any. */
  lemma KeyRoundTrip(accessKey: string, secretKey: string)
    ensures ParseKey(PrintKey(accessKey, secretKey)) == Some((accessKey, secretKey)) <==> '_' !in accessKey
  {
    var key := PrintKey(accessKey, secretKey);
    assert key == PREFIX + ['_'] + (accessKey + ['_'] + secretKey);
    SplitAtMostFirst(PREFIX, accessKey + ['_'] + secretKey, '_', 1);
    if '_' !in accessKey {
      SplitAtMostFirst(accessKey, secretKey, '_', 0);
    } else {
      SplitAtMostPieces(key, '_', 2);
    }
  }

  /** Whatever parses prints back to the same key. */
  lemma KeyReprint(key: string)
    ensures ParseKey(key).Some? ==> key == PrintKey(ParseKey(key).value.0, ParseKey(key).value.1)
  {
    if ParseKey(key).Some? {
      SplitAtMostPieces(key, '_', 2);
      var parts := SplitAtMost(key, '_', 2);
      var rest := key[|PREFIX| + 1..];
      assert key == PREFIX + ['_'] + rest;
      SplitAtMostFirst(PREFIX, rest, '_', 1);
      assert Join(parts, '_') == parts[0] + ['_'] + Join(parts[1..], '_');
      assert parts[1..][1..] == [parts[2]];
    }
  }
}
