// gpustack/security.py: the stored fast digest "sha256$<salt>$<hex hash>", its
// parser and check, and the shortened form "s128$<salt>$<base64url>" that the
// gateway's key table carries.
//
// SHA-256 is a parameter: any function from text to 32 bytes. Text stands for
// its UTF-8 encoding, which is injective, so nothing is lost by hashing text.
module Digest {
  import opened Text

  type byte = n: int | 0 <= n < 256
  type Hash32 = h: seq<byte> | |h| == 32 witness seq(32, _ => 0)
  type Salt16 = h: seq<byte> | |h| == 16 witness seq(16, _ => 0)
  type Sha = string -> Hash32

  const ALGORITHM := "sha256"
  const GATEWAY_ALGORITHM := "s128"

  // ------------------------------------------------------------------- hex

  function HexDigit(n: nat): (c: char)
    requires n < 16
    ensures '0' <= c <= '9' || 'a' <= c <= 'f'
  {
    if n < 10 then Digit(n) else ('a' as int + n - 10) as char
  }

  function HexValue(c: char): (v: Option<nat>)
    ensures v.Some? ==> v.value < 16
  {
    if '0' <= c <= '9' then Some(c as int - '0' as int)
    else if 'a' <= c <= 'f' then Some(c as int - 'a' as int + 10)
    else if 'A' <= c <= 'F' then Some(c as int - 'A' as int + 10)
    else None
  }

  predicate LowerHex(s: string) {
    forall c :: c in s ==> '0' <= c <= '9' || 'a' <= c <= 'f'
  }

  /** bytes.hex(), which is also what token_hex and hexdigest return. */
  function ToHex(b: seq<byte>): (s: string)
    ensures |s| == 2 * |b| && LowerHex(s)
  {
    if b == [] then "" else [HexDigit(b[0] / 16), HexDigit(b[0] % 16)] + ToHex(b[1..])
  }

  predicate Space(c: char) {
    c == ' ' || '\t' <= c <= '\r'
  }

  /** bytes.fromhex: pairs of digits of either case, with white space allowed
      between the pairs; anything else is the ValueError. */
  function FromHex(s: string): Option<seq<byte>> {
    if s == "" then Some([])
    else if Space(s[0]) then FromHex(s[1..])
    else if |s| == 1 then None
    else
      match (HexValue(s[0]), HexValue(s[1]), FromHex(s[2..]))
      case (Some(hi), Some(lo), Some(rest)) => Some([16 * hi + lo] + rest)
      case _ => None
  }

  lemma {:induction false} HexRoundTrip(b: seq<byte>)
    ensures FromHex(ToHex(b)) == Some(b)
  {
    if b != [] {
      HexRoundTrip(b[1..]);
      assert ToHex(b)[2..] == ToHex(b[1..]);
      assert [b[0]] + b[1..] == b;
    }
  }

  // --------------------------------------------------------------- base64url

  /** The alphabet of section 5 of RFC 4648. */
  function Sextet(n: nat): (c: char)
    requires n < 64
    ensures c != '=' && c != '$'
  {
    if n < 26 then ('A' as int + n) as char
    else if n < 52 then ('a' as int + n - 26) as char
    else if n < 62 then ('0' as int + n - 52) as char
    else if n == 62 then '-' else '_'
  }

  function SextetValue(c: char): (v: nat)
    ensures v < 64
  {
    if 'A' <= c <= 'Z' then c as int - 'A' as int
    else if 'a' <= c <= 'z' then c as int - 'a' as int + 26
    else if '0' <= c <= '9' then c as int - '0' as int + 52
    else if c == '-' then 62 else 63
  }

  /** base64.urlsafe_b64encode, padding included. */
  function Encode64(b: seq<byte>): string {
    if |b| == 0 then ""
    else if |b| == 1 then
      [Sextet(b[0] / 4), Sextet(b[0] % 4 * 16), '=', '=']
    else if |b| == 2 then
      [Sextet(b[0] / 4), Sextet(b[0] % 4 * 16 + b[1] / 16), Sextet(b[1] % 16 * 4), '=']
    else Group(b[0], b[1], b[2]) + Encode64(b[3..])
  }

  /** Three bytes as four characters. */
  function Group(x: byte, y: byte, z: byte): (s: string)
    ensures |s| == 4 && '=' !in s && '$' !in s
  {
    [Sextet(x / 4), Sextet(x % 4 * 16 + y / 16), Sextet(y % 16 * 4 + z / 64), Sextet(z % 64)]
  }

  /** s.rstrip("="). */
  function StripPadding(s: string): string {
    if s != "" && s[|s| - 1] == '=' then StripPadding(s[..|s| - 1]) else s
  }

  /** The bytes behind an unpadded encoding. */
  function Decode64(s: string): seq<byte> {
    if |s| < 2 then []
    else
      var a, b := SextetValue(s[0]), SextetValue(s[1]);
      if |s| == 2 then [a * 4 + b / 16]
      else
        var c := SextetValue(s[2]);
        if |s| == 3 then [a * 4 + b / 16, b % 16 * 16 + c / 4]
        else
          var d := SextetValue(s[3]);
          [a * 4 + b / 16, b % 16 * 16 + c / 4, c % 4 * 64 + d] + Decode64(s[4..])
  }

  lemma SextetRoundTrip(n: nat)
    requires n < 64
    ensures SextetValue(Sextet(n)) == n
  {
  }

  lemma {:induction false} StripAfter(x: string, y: string)
    requires x != "" ==> x[|x| - 1] != '='
    ensures StripPadding(x + y) == x + StripPadding(y)
  {
    if y == "" {
      assert x + y == x;
    } else if y[|y| - 1] == '=' {
      assert (x + y)[..|x + y| - 1] == x + y[..|y| - 1];
      StripAfter(x, y[..|y| - 1]);
    }
  }

  /** Six-bit regrouping loses nothing: a group of bytes comes back. */
  lemma Regroup(x: byte, y: byte, z: byte)
    ensures x / 4 * 4 + (x % 4 * 16 + y / 16) / 16 == x
    ensures x / 4 * 4 + x % 4 * 16 / 16 == x
    ensures (x % 4 * 16 + y / 16) % 16 * 16 + (y % 16 * 4 + z / 64) / 4 == y
    ensures (x % 4 * 16 + y / 16) % 16 * 16 + y % 16 * 4 / 4 == y
    ensures (y % 16 * 4 + z / 64) % 4 * 64 + z % 64 == z
  {
  }

  lemma DecodeGroup(x: byte, y: byte, z: byte, s: string)
    ensures Decode64(Group(x, y, z) + s) == [x, y, z] + Decode64(s)
  {
    assert (Group(x, y, z) + s)[4..] == s;
    SextetRoundTrip(x / 4);
    SextetRoundTrip(x % 4 * 16 + y / 16);
    SextetRoundTrip(y % 16 * 4 + z / 64);
    SextetRoundTrip(z % 64);
    Regroup(x, y, z);
  }

  lemma StripGroup(b: seq<byte>)
    requires |b| >= 3
    ensures StripPadding(Encode64(b)) == Group(b[0], b[1], b[2]) + StripPadding(Encode64(b[3..]))
  {
    StripAfter(Group(b[0], b[1], b[2]), Encode64(b[3..]));
  }

  /** The unpadded encoding has ceil(4n/3) characters, none of them '$', and
      decodes to the bytes it came from. */
  lemma {:induction false} Base64RoundTrip(b: seq<byte>)
    ensures |StripPadding(Encode64(b))| == (4 * |b| + 2) / 3
    ensures '$' !in StripPadding(Encode64(b))
    ensures Decode64(StripPadding(Encode64(b))) == b
  {
    if |b| == 0 {
    } else if |b| <= 2 {
      LastGroupRoundTrip(b);
    } else {
      var rest := StripPadding(Encode64(b[3..]));
      Base64RoundTrip(b[3..]);
      StripGroup(b);
      DecodeGroup(b[0], b[1], b[2], rest);
      assert [b[0], b[1], b[2]] + b[3..] == b;
    }
  }

  lemma StripTail(q: string, pad: string)
    requires q != "" && q[|q| - 1] != '=' && (pad == "=" || pad == "==")
    ensures StripPadding(q + pad) == q
  {
    StripAfter(q, pad);
    assert StripPadding("=") == "";
    assert q + "" == q;
  }

  lemma LastGroupRoundTrip(b: seq<byte>)
    requires 1 <= |b| <= 2
    ensures |StripPadding(Encode64(b))| == |b| + 1
    ensures '$' !in StripPadding(Encode64(b))
    ensures Decode64(StripPadding(Encode64(b))) == b
  {
    var x: byte, y: byte := b[0], if |b| == 1 then 0 else b[1];
    if |b| == 1 {
      var q := [Sextet(x / 4), Sextet(x % 4 * 16)];
      assert Encode64(b) == q + "==";
      StripTail(q, "==");
      DecodeOne(x);
    } else {
      var q := [Sextet(x / 4), Sextet(x % 4 * 16 + y / 16), Sextet(y % 16 * 4)];
      assert Encode64(b) == q + "=";
      StripTail(q, "=");
      DecodeTwo(x, y);
    }
  }

  lemma DecodeOne(x: byte)
    ensures Decode64([Sextet(x / 4), Sextet(x % 4 * 16)]) == [x]
  {
    SextetRoundTrip(x / 4);
    SextetRoundTrip(x % 4 * 16);
    Regroup(x, 0, 0);
  }

  lemma DecodeTwo(x: byte, y: byte)
    ensures Decode64([Sextet(x / 4), Sextet(x % 4 * 16 + y / 16), Sextet(y % 16 * 4)]) == [x, y]
  {
    SextetRoundTrip(x / 4);
    SextetRoundTrip(x % 4 * 16 + y / 16);
    SextetRoundTrip(y % 16 * 4);
    Regroup(x, y, 0);
  }

  // ------------------------------------------------------- the stored digest

  /** The layout <algorithm>$<salt>$<hash>. */
  function Print(algorithm: string, salt: string, hash: string): (d: string)
    ensures |d| == |algorithm| + |salt| + |hash| + 2
  {
    assert Join([salt, hash], '$') == salt + "$" + hash;
    Join([algorithm, salt, hash], '$')
  }

  /** _digest_hash */
  function HashHex(sha: Sha, salt: string, secret: string): (h: string)
    ensures |h| == 64 && LowerHex(h)
  {
    ToHex(sha(salt + secret))
  }

  /** The shape of generate_secret_key as the regular expression tests it:
      Python's '$' also matches before one trailing newline. */
  predicate GeneratedShape(s: string) {
    || (|s| == 32 && LowerHex(s))
    || (|s| == 33 && LowerHex(s[..32]) && s[32] == '\n')
  }

  /** secret_key_digest_eligible */
  predicate Eligible(secret: string, isCustom: bool, accessKey: string, allowCustom: bool) {
    accessKey != "" && if isCustom then allowCustom else GeneratedShape(secret)
  }

  /** new_secret_key_digest, with the random salt as an argument. */
  function New(sha: Sha, salt: Salt16, secret: string, isCustom: bool, accessKey: string, allowCustom: bool):
    Option<string>
  {
    if !Eligible(secret, isCustom, accessKey, allowCustom) then None
    else Some(Print(ALGORITHM, ToHex(salt), HashHex(sha, ToHex(salt), secret)))
  }

  /** _parse_secret_key_digest: salt and hash, or None when unusable. */
  function Parse(digest: Option<string>): Option<(string, string)> {
    if digest.None? || digest.value == "" then None
    else
      var parts := Split(digest.value, '$');
      if |parts| != 3 || parts[0] != ALGORITHM || parts[1] == "" || parts[2] == "" then None
      else Some((parts[1], parts[2]))
  }

  /** secret_key_digest_usable */
  predicate Usable(digest: Option<string>) {
    Parse(digest).Some?
  }

  predicate Ascii(s: string) {
    forall c :: c in s ==> c < 128 as char
  }

  /** verify_secret_key_digest. None is the TypeError that compare_digest raises
      on a stored hash with a non-ASCII character in it. */
  function Verify(sha: Sha, digest: Option<string>, secret: string): Option<bool> {
    match Parse(digest)
    case None => Some(false)
    case Some((salt, expected)) =>
      if Ascii(expected) then Some(HashHex(sha, salt, secret) == expected) else None
  }

  /** gateway_digest */
  function Gateway(digest: Option<string>): Option<string> {
    match Parse(digest)
    case None => None
    case Some((salt, expected)) =>
      match FromHex(expected)
      case None => None
      case Some(raw) => Some(Print(GATEWAY_ALGORITHM, salt, Shorten(raw)))
  }

  function Shorten(raw: seq<byte>): string {
    StripPadding(Encode64(if |raw| < 16 then raw else raw[..16]))
  }

  /** The comparison a reader of the shortened form makes: same salt, same
      hashed input, same truncation. */
  predicate GatewayAccepts(sha: Sha, entry: string, secret: string) {
    var parts := Split(entry, '$');
    && |parts| == 3
    && parts[0] == GATEWAY_ALGORITHM
    && Shorten(sha(parts[1] + secret)) == parts[2]
  }

  // ---------------------------------------------------------------- theorems

  lemma PrintIs(algorithm: string, salt: string, hash: string)
    ensures Print(algorithm, salt, hash) == algorithm + "$" + (salt + "$" + hash)
  {
    assert Join([algorithm, salt, hash], '$') == algorithm + "$" + Join([salt, hash], '$');
    assert [salt, hash] == [algorithm, salt, hash][1..];
    assert Join([salt, hash], '$') == salt + "$" + Join([hash], '$');
  }

  lemma PrintSplits(algorithm: string, salt: string, hash: string)
    requires '$' !in algorithm && '$' !in salt && '$' !in hash
    ensures Split(Print(algorithm, salt, hash), '$') == [algorithm, salt, hash]
  {
    SplitJoinPlain([algorithm, salt, hash], '$');
  }

  /** The parser and the printer invert each other: a value is usable with this
      salt and this hash exactly when it is their printed form. */
  lemma ParsePrint(digest: Option<string>, salt: string, hash: string)
    ensures Parse(digest) == Some((salt, hash)) <==>
            && salt != "" && '$' !in salt
            && hash != "" && '$' !in hash
            && digest == Some(Print(ALGORITHM, salt, hash))
  {
    if Parse(digest) == Some((salt, hash)) {
      var parts := Split(digest.value, '$');
      assert parts == [ALGORITHM, salt, hash];
      assert parts[1] in parts && parts[2] in parts;
    } else if salt != "" && '$' !in salt && hash != "" && '$' !in hash && digest == Some(Print(ALGORITHM, salt, hash)) {
      PrintSplits(ALGORITHM, salt, hash);
    }
  }

  lemma ToHexInjective(a: seq<byte>, b: seq<byte>)
    ensures ToHex(a) == ToHex(b) <==> a == b
  {
    HexRoundTrip(a);
    HexRoundTrip(b);
  }

  /** The check raises on exactly the usable digests whose hash is not plain
      ASCII. */
  lemma VerifyRaises(sha: Sha, digest: Option<string>, secret: string)
    ensures Verify(sha, digest, secret) == None <==> Usable(digest) && !Ascii(Parse(digest).value.1)
  {
  }

  /** Which is no empty set. */
  lemma VerifyCanRaise(sha: Sha, secret: string)
    ensures Verify(sha, Some("sha256$00$\U{e9}"), secret) == None
  {
    var digest := Some("sha256$00$\U{e9}");
    assert Print(ALGORITHM, "00", "\U{e9}") == digest.value;
    assert '\U{e9}' in "\U{e9}";
    assert !Ascii("\U{e9}");
    ParsePrint(digest, "00", "\U{e9}");
  }

  lemma HexDigitOnto(c: char)
    requires '0' <= c <= '9' || 'a' <= c <= 'f'
    ensures HexValue(c).Some? && HexDigit(HexValue(c).value) == c
  {
  }

  lemma HexPairOnto(c: char, d: char) returns (x: byte)
    requires LowerHex([c, d])
    ensures HexDigit(x / 16) == c && HexDigit(x % 16) == d
  {
    assert c in [c, d] && d in [c, d];
    HexDigitOnto(c);
    HexDigitOnto(d);
    x := 16 * HexValue(c).value + HexValue(d).value;
  }

  /** Every text of lower-case hex digits in pairs is that of some bytes. */
  lemma {:induction false} ToHexOnto(s: string) returns (b: seq<byte>)
    requires LowerHex(s) && |s| % 2 == 0
    ensures |b| == |s| / 2 && ToHex(b) == s
  {
    if s == "" {
      b := [];
    } else {
      hide HexDigit;
      var c, d := s[0], s[1];
      assert s == [c, d] + s[2..];
      assert forall x :: x in [c, d] || x in s[2..] ==> x in s;
      var first := HexPairOnto(c, d);
      var rest := ToHexOnto(s[2..]);
      b := [first] + rest;
      assert b[1..] == rest;
    }
  }

  /** What generate_secret_key can return, the hex of 16 bytes, is eligible under
      an access key, and so is that with a newline behind it, and no other secret
      that is not custom; a custom one is if the flag says so; under an empty
      access key none is. */
  lemma EligibleIs(secret: string, isCustom: bool, accessKey: string, allowCustom: bool)
    ensures Eligible(secret, isCustom, accessKey, allowCustom) <==>
            && accessKey != ""
            && if isCustom then allowCustom
               else exists b: seq<byte> :: |b| == 16 && (secret == ToHex(b) || secret == ToHex(b) + "\n")
  {
    if GeneratedShape(secret) {
      assert |secret| == 32 ==> secret[..32] == secret;
      var b := ToHexOnto(secret[..32]);
      assert secret == secret[..32] || secret == secret[..32] + "\n";
    }
    if b: seq<byte> :| |b| == 16 && (secret == ToHex(b) || secret == ToHex(b) + "\n") {
      assert secret[..32] == ToHex(b);
    }
  }

  /** A generated secret with a newline behind it, which is never generated, is
      eligible too, and gets a digest. */
  lemma NewlineIsEligible(sha: Sha, salt: Salt16, secret: string, accessKey: string, allowCustom: bool)
    requires |secret| == 32 && LowerHex(secret) && accessKey != ""
    ensures Eligible(secret + "\n", false, accessKey, allowCustom)
    ensures New(sha, salt, secret + "\n", false, accessKey, allowCustom).Some?
  {
    assert (secret + "\n")[..32] == secret;
  }

  /** A digest this server generates is usable, and checking a secret against it
      never raises and accepts precisely the secrets with the same salted hash. */
  lemma NewVerifies(sha: Sha, salt: Salt16, owner: string, isCustom: bool, accessKey: string,
                      allowCustom: bool, secret: string)
    requires Eligible(owner, isCustom, accessKey, allowCustom)
    ensures var d := New(sha, salt, owner, isCustom, accessKey, allowCustom);
            && d == Some("sha256" + "$" + (ToHex(salt) + "$" + ToHex(sha(ToHex(salt) + owner))))
            && Usable(d)
            && Verify(sha, d, secret) == Some(sha(ToHex(salt) + secret) == sha(ToHex(salt) + owner))
  {
    PrintIs(ALGORITHM, ToHex(salt), HashHex(sha, ToHex(salt), owner));
    var d := New(sha, salt, owner, isCustom, accessKey, allowCustom);
    var hash := HashHex(sha, ToHex(salt), owner);
    assert ToHex(salt) != "" && hash != "";
    ParsePrint(d, ToHex(salt), hash);
    ToHexInjective(sha(ToHex(salt) + secret), sha(ToHex(salt) + owner));
  }

  lemma ShortenInjective(a: Hash32, b: Hash32)
    ensures |Shorten(a)| == 22 && '$' !in Shorten(a)
    ensures Shorten(a) == Shorten(b) <==> a[..16] == b[..16]
  {
    Base64RoundTrip(a[..16]);
    Base64RoundTrip(b[..16]);
  }

  /** The gateway form of a digest holding the hash h under the given salt. */
  lemma GatewayOf(salt: string, h: Hash32)
    requires salt != "" && '$' !in salt
    ensures Gateway(Some(Print(ALGORITHM, salt, ToHex(h)))) == Some(Print(GATEWAY_ALGORITHM, salt, Shorten(h)))
  {
    ParsePrint(Some(Print(ALGORITHM, salt, ToHex(h))), salt, ToHex(h));
    HexRoundTrip(h);
  }

  /** Every generated digest shrinks from 104 characters to 60, to a value the
      server itself can no longer mistake for a digest it can check. */
  lemma GatewayShrinks(sha: Sha, salt: Salt16, owner: string, isCustom: bool, accessKey: string, allowCustom: bool)
    requires Eligible(owner, isCustom, accessKey, allowCustom)
    ensures var d := New(sha, salt, owner, isCustom, accessKey, allowCustom);
            var g := Gateway(d);
            && d.Some? && |d.value| == 104
            && g.Some? && |g.value| == 60
            && g == Some("s128" + "$" + (ToHex(salt) + "$" + Shorten(sha(ToHex(salt) + owner))))
            && !Usable(g)
  {
    PrintIs(GATEWAY_ALGORITHM, ToHex(salt), Shorten(sha(ToHex(salt) + owner)));
    var s := ToHex(salt);
    var h := sha(s + owner);
    GatewayOf(s, h);
    ShortenInjective(h, h);
    var g := Print(GATEWAY_ALGORITHM, s, Shorten(h));
    PrintSplits(GATEWAY_ALGORITHM, s, Shorten(h));
  }

  /** The gateway's check against the derived entry accepts exactly the secrets
      whose salted hash agrees on its first 16 bytes; in particular it accepts
      every secret that the server's check accepts. */
  lemma GatewayAcceptsWhatVerifies(sha: Sha, salt: Salt16, owner: string, isCustom: bool,
                                     accessKey: string, allowCustom: bool, secret: string)
    requires Eligible(owner, isCustom, accessKey, allowCustom)
    ensures var d := New(sha, salt, owner, isCustom, accessKey, allowCustom);
            var s := ToHex(salt);
            && Gateway(d).Some?
            && (GatewayAccepts(sha, Gateway(d).value, secret) <==> sha(s + secret)[..16] == sha(s + owner)[..16])
            && (Verify(sha, d, secret) == Some(true) ==> GatewayAccepts(sha, Gateway(d).value, secret))
  {
    var s := ToHex(salt);
    var h := sha(s + owner);
    GatewayOf(s, h);
    ShortenInjective(h, h);
    ShortenInjective(sha(s + secret), h);
    PrintSplits(GATEWAY_ALGORITHM, s, Shorten(h));
    NewVerifies(sha, salt, owner, isCustom, accessKey, allowCustom, secret);
  }

  /** Two digests under one salt share a gateway form exactly when their first
      16 hash bytes agree. */
  lemma GatewayFormsAgree(salt: string, a: Hash32, b: Hash32)
    requires salt != "" && '$' !in salt
    ensures Gateway(Some(Print(ALGORITHM, salt, ToHex(a)))) == Gateway(Some(Print(ALGORITHM, salt, ToHex(b))))
            <==> a[..16] == b[..16]
  {
    GatewayOf(salt, a);
    GatewayOf(salt, b);
    ShortenInjective(a, b);
    ShortenInjective(b, a);
    PrintSplits(GATEWAY_ALGORITHM, salt, Shorten(a));
    PrintSplits(GATEWAY_ALGORITHM, salt, Shorten(b));
    assert [GATEWAY_ALGORITHM, salt, Shorten(a)][2] == Shorten(a);
    assert [GATEWAY_ALGORITHM, salt, Shorten(b)][2] == Shorten(b);
  }
}
