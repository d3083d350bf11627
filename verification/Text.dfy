// Strings, optional values, and the two string codecs every other module leans
// on: splitting at a separator (Python's str.split / str.join) and str(int).
module Text {

  datatype Option<+T> = None | Some(value: T) {
    function GetOr(default: T): T {
      if Some? then value else default
    }
  }

  method Pick<T>(s: set<T>) returns (x: T)
    requires s != {}
    ensures x in s
  {
    x :| x in s;
  }

  /** str.split(sep): the pieces between the separators; never an empty list. */
  function Split(s: string, sep: char): (parts: seq<string>)
    ensures |parts| >= 1
    ensures forall p :: p in parts ==> sep !in p
    ensures Join(parts, sep) == s
  {
    if s == "" then [""]
    else if s[0] == sep then [""] + Split(s[1..], sep)
    else
      var rest := Split(s[1..], sep);
      [[s[0]] + rest[0]] + rest[1..]
  }

  /** sep.join(parts) for a non-empty list. */
  function Join(parts: seq<string>, sep: char): string
    requires |parts| >= 1
  {
    if |parts| == 1 then parts[0] else parts[0] + [sep] + Join(parts[1..], sep)
  }

  /** A separator-free piece stays one piece. */
  lemma {:induction false} SplitPiece(p: string, sep: char)
    requires sep !in p
    ensures Split(p, sep) == [p]
  {
    if p != "" {
      SplitPiece(p[1..], sep);
      assert [p[0]] + p[1..] == p;
    }
  }

  /** The first separator ends the first piece. */
  lemma {:induction false} SplitFirst(p: string, rest: string, sep: char)
    requires sep !in p
    ensures Split(p + [sep] + rest, sep) == [p] + Split(rest, sep)
  {
    var s := p + [sep] + rest;
    if p == "" {
      assert s[0] == sep && s[1..] == rest;
    } else {
      assert s[0] == p[0] && s[1..] == p[1..] + [sep] + rest;
      SplitFirst(p[1..], rest, sep);
      var tail := Split(s[1..], sep);
      assert tail[0] == p[1..] && tail[1..] == Split(rest, sep);
      assert [p[0]] + p[1..] == p;
    }
  }

  /** Splitting undoes joining when no piece holds the separator. */
  lemma {:induction false} SplitJoinPlain(parts: seq<string>, sep: char)
    requires |parts| >= 1 && forall p :: p in parts ==> sep !in p
    ensures Split(Join(parts, sep), sep) == parts
  {
    if |parts| == 1 {
      SplitPiece(parts[0], sep);
    } else {
      SplitFirst(parts[0], Join(parts[1..], sep), sep);
      SplitJoinPlain(parts[1..], sep);
      assert [parts[0]] + parts[1..] == parts;
    }
  }

  /** The last separator starts the last piece. */
  lemma {:induction false} SplitLast(front: string, p: string, sep: char)
    requires sep !in p
    ensures Split(front + [sep] + p, sep) == Split(front, sep) + [p]
  {
    var s := front + [sep] + p;
    if front == "" {
      assert s[0] == sep && s[1..] == p;
      SplitPiece(p, sep);
    } else {
      assert s[0] == front[0] && s[1..] == front[1..] + [sep] + p;
      SplitLast(front[1..], p, sep);
    }
  }

  lemma LastFieldUnique(x: string, y: string, sep: char, a: string, b: string)
    requires sep !in a && sep !in b
    requires x + [sep] + a == y + [sep] + b
    ensures x == y && a == b
  {
    SplitLast(x, a, sep);
    SplitLast(y, b, sep);
    var parts := Split(x + [sep] + a, sep);
    assert a == parts[|parts| - 1] == b;
    assert x == (x + [sep] + a)[..|x|];
    assert y == (y + [sep] + b)[..|y|];
  }

  /** One separator-free field between two separators is determined by the text. */
  lemma {:induction false} FieldsUnique(a: string, b: string, sep: char, x: string, y: string)
    requires sep !in a && sep !in b
    requires a + [sep] + x == b + [sep] + y
    ensures a == b && x == y
  {
    SplitFirst(a, x, sep);
    SplitFirst(b, y, sep);
    assert ([a] + Split(x, sep))[0] == ([b] + Split(y, sep))[0];
    assert x == (a + [sep] + x)[|a| + 1..];
    assert y == (b + [sep] + y)[|b| + 1..];
  }

  function Digit(d: nat): (c: char)
    requires d < 10
    ensures '0' <= c <= '9'
  {
    ('0' as int + d) as char
  }

  /** str(n) for a natural number. */
  function DecimalNat(n: nat): (s: string)
    ensures |s| >= 1
    ensures forall c :: c in s ==> '0' <= c <= '9'
  {
    if n < 10 then [Digit(n)] else DecimalNat(n / 10) + [Digit(n % 10)]
  }

  /** str(n). */
  function Decimal(n: int): (s: string)
    ensures |s| >= 1
    ensures forall c :: c in s ==> c == '-' || '0' <= c <= '9'
  {
    if n < 0 then "-" + DecimalNat(-n) else DecimalNat(n)
  }

  /** int(s) for a run of digits. */
  function ReadNat(s: string): int {
    if s == "" then 0 else 10 * ReadNat(s[..|s| - 1]) + (s[|s| - 1] as int - '0' as int)
  }

  lemma {:induction false} ReadDecimalNat(n: nat)
    ensures ReadNat(DecimalNat(n)) == n
  {
    if n < 10 {
      assert [Digit(n)][..0] == "";
    } else {
      ReadDecimalNat(n / 10);
      var s := DecimalNat(n);
      assert s[..|s| - 1] == DecimalNat(n / 10);
    }
  }

  lemma SignShows(n: int)
    ensures n < 0 <==> Decimal(n)[0] == '-'
  {
    if n >= 0 {
      assert DecimalNat(n)[0] in DecimalNat(n);
    }
  }

  /** Two different integers never print alike. */
  lemma DecimalInjective(m: int, n: int)
    ensures Decimal(m) == Decimal(n) <==> m == n
  {
    if Decimal(m) == Decimal(n) {
      assert Decimal(m)[0] == Decimal(n)[0];
      ReadDecimalNat(if m < 0 then -m else m);
      ReadDecimalNat(if n < 0 then -n else n);
      SignShows(m);
      SignShows(n);
      if m < 0 {
        assert DecimalNat(-m) == Decimal(m)[1..];
        assert DecimalNat(-n) == Decimal(n)[1..];
      }
    }
  }
}
