/** Strings as the service builds and takes them apart: split and join on one
    separator, decimal and hexadecimal numerals, and the name shapes that the
    registry's CHECK constraints and the service's regular expressions share.
    A `char` stands for one byte. */
module Text {

  /** Go's strings.Split on a one-character separator. */
  function Split(s: string, sep: char): (parts: seq<string>)
    ensures |parts| >= 1
    ensures forall i :: 0 <= i < |parts| ==> sep !in parts[i]
  {
    if s == [] then [[]]
    else
      var rest := Split(s[1..], sep);
      if s[0] == sep then [[]] + rest
      else [[s[0]] + rest[0]] + rest[1..]
  }

  function Join(parts: seq<string>, sep: char): string
    requires |parts| >= 1
  {
    if |parts| == 1 then parts[0]
    else parts[0] + [sep] + Join(parts[1..], sep)
  }

  lemma JoinThree(a: string, b: string, c: string, sep: char)
    ensures Join([a, b, c], sep) == a + [sep] + b + [sep] + c
  {
    assert [a, b, c][1..] == [b, c] && [b, c][1..] == [c];
    assert Join([b, c], sep) == b + [sep] + c;
  }

  lemma {:induction false} SplitSingle(a: string, sep: char)
    requires sep !in a
    ensures Split(a, sep) == [a]
  {
    if a != [] {
      SplitSingle(a[1..], sep);
      assert [a[0]] + a[1..] == a;
    }
  }

  lemma {:induction false} SplitPrefix(a: string, t: string, sep: char)
    requires sep !in a
    ensures Split(a + [sep] + t, sep) == [a] + Split(t, sep)
  {
    var s := a + [sep] + t;
    if a == [] {
      assert s[1..] == t;
    } else {
      assert s[1..] == a[1..] + [sep] + t;
      SplitPrefix(a[1..], t, sep);
      assert [a[0]] + a[1..] == a;
    }
  }

  /** Joining separator-free parts and splitting again gives the parts back. */
  lemma {:induction false} SplitJoin(parts: seq<string>, sep: char)
    requires |parts| >= 1
    requires forall i :: 0 <= i < |parts| ==> sep !in parts[i]
    ensures Split(Join(parts, sep), sep) == parts
  {
    if |parts| == 1 {
      SplitSingle(parts[0], sep);
    } else {
      SplitJoin(parts[1..], sep);
      SplitPrefix(parts[0], Join(parts[1..], sep), sep);
    }
  }

  lemma {:induction false} JoinSplit(s: string, sep: char)
    ensures Join(Split(s, sep), sep) == s
  {
    if s != [] {
      JoinSplit(s[1..], sep);
      var rest := Split(s[1..], sep);
      if s[0] != sep && |rest| > 1 {
        assert Split(s, sep)[1..] == rest[1..];
      } else if s[0] == sep {
        assert Split(s, sep)[1..] == rest;
      }
    }
  }

  /** Two strings with the same parts are the same string. */
  lemma SplitInjective(s: string, t: string, sep: char)
    requires Split(s, sep) == Split(t, sep)
    ensures s == t
  {
    JoinSplit(s, sep);
    JoinSplit(t, sep);
  }

  /** A character other than the separator is in the string exactly when it is in a part. */
  lemma {:induction false} SplitMembers(s: string, sep: char, c: char)
    requires c != sep
    ensures c in s <==> exists i :: 0 <= i < |Split(s, sep)| && c in Split(s, sep)[i]
  {
    if s != [] {
      SplitMembers(s[1..], sep, c);
      var rest := Split(s[1..], sep);
      var parts := Split(s, sep);
      if s[0] == sep {
        assert parts[0] == [] && parts[1..] == rest;
        forall i | 0 <= i < |rest| ensures parts[i + 1] == rest[i] {}
      } else {
        assert parts[0] == [s[0]] + rest[0];
        forall i | 1 <= i < |rest| ensures parts[i] == rest[i] {}
        if c in s[1..] {
          var i :| 0 <= i < |rest| && c in rest[i];
          assert c in parts[i];
        }
      }
      assert c in s <==> c == s[0] || c in s[1..];
    }
  }

  /** strings.HasPrefix. */
  predicate HasPrefix(s: string, p: string) {
    |p| <= |s| && s[..|p|] == p
  }

  predicate Lower(c: char) { 'a' <= c <= 'z' }

  predicate Digit(c: char) { '0' <= c <= '9' }

  /** `^[a-z][a-z0-9]{0,7}$`: a tenant. */
  predicate ValidName(s: string) {
    1 <= |s| <= 8 && Lower(s[0]) && forall i :: 0 <= i < |s| ==> Lower(s[i]) || Digit(s[i])
  }

  /** `^[a-z][a-z0-9-]{0,19}$`, not ending in a dash: a workload, device, record, key or account. */
  predicate ValidLabel(s: string) {
    && 1 <= |s| <= 20
    && Lower(s[0])
    && (forall i :: 0 <= i < |s| ==> Lower(s[i]) || Digit(s[i]) || s[i] == '-')
    && s[|s| - 1] != '-'
  }

  /** How long a tenant's name and a label may be, and what neither may look like. */
  lemma NameLengths(n: nat)
    ensures ValidName(seq(n, i => 'a')) <==> 1 <= n <= 8
    ensures ValidLabel(seq(n, i => 'a')) <==> 1 <= n <= 20
  {
    if n > 0 {
      assert seq(n, i => 'a')[0] == 'a' && seq(n, i => 'a')[n - 1] == 'a';
    }
  }

  lemma NameShapes()
    ensures ValidName("a1") && !ValidName("1a") && !ValidName("A") && !ValidName("a-b") && !ValidName("a.b")
    ensures ValidLabel("a-1") && !ValidLabel("a-") && !ValidLabel("-a") && !ValidLabel("1a") && !ValidLabel("aA")
    ensures !ValidLabel("a.b") && !ValidLabel("a/b")
  {
    assert "aA"[1] == 'A' && "a.b"[1] == '.' && "a/b"[1] == '/' && "a-b"[1] == '-';
  }

  function DigitChar(d: nat): char
    requires d < 10
  {
    ('0' as int + d) as char
  }

  /** `%d` of a natural number. */
  function Decimal(n: nat): (s: string)
    ensures |s| >= 1
    ensures forall i :: 0 <= i < |s| ==> Digit(s[i])
  {
    if n < 10 then [DigitChar(n)] else Decimal(n / 10) + [DigitChar(n % 10)]
  }

  function DecimalValue(s: string): nat
    requires forall i :: 0 <= i < |s| ==> Digit(s[i])
  {
    if s == [] then 0
    else
      assert Digit(s[|s| - 1]);
      10 * DecimalValue(s[..|s| - 1]) + (s[|s| - 1] as int - '0' as int)
  }

  lemma {:induction false} DecimalRoundTrip(n: nat)
    ensures DecimalValue(Decimal(n)) == n
  {
    var s := Decimal(n);
    if n >= 10 {
      DecimalRoundTrip(n / 10);
      assert s[..|s| - 1] == Decimal(n / 10);
    } else {
      assert s[..|s| - 1] == [];
    }
  }

  /** No leading zero but in "0" itself, and the digits in their order. */
  lemma {:induction false} DecimalShape(n: nat)
    ensures n < 10 ==> |Decimal(n)| == 1
    ensures n >= 1 ==> Decimal(n)[0] != '0'
  {
    if n >= 10 {
      DecimalShape(n / 10);
      assert Decimal(n)[0] == Decimal(n / 10)[0];
    }
  }

  lemma DecimalExamples()
    ensures Decimal(0) == "0" && Decimal(41) == "41" && Decimal(255) == "255" && DecimalValue("41") == 41
  {
    assert "41"[..1] == "4" && "4"[..0] == "";
    assert Decimal(25) == "25" && Decimal(255) == Decimal(25) + "5";
  }

  lemma DecimalInjective(m: nat, n: nat)
    requires Decimal(m) == Decimal(n)
    ensures m == n
  {
    DecimalRoundTrip(m);
    DecimalRoundTrip(n);
  }

  /** `a.b.c.d`, as netip.Addr.String and the service's own formats write an IPv4 address. */
  function DottedQuad(a: nat, b: nat, c: nat, d: nat): string {
    Join([Decimal(a), Decimal(b), Decimal(c), Decimal(d)], '.')
  }

  lemma DottedQuadInjective(a: nat, b: nat, c: nat, d: nat, a': nat, b': nat, c': nat, d': nat)
    requires DottedQuad(a, b, c, d) == DottedQuad(a', b', c', d')
    ensures a == a' && b == b' && c == c' && d == d'
  {
    var p := [Decimal(a), Decimal(b), Decimal(c), Decimal(d)];
    var q := [Decimal(a'), Decimal(b'), Decimal(c'), Decimal(d')];
    SplitJoin(p, '.');
    SplitJoin(q, '.');
    assert p[0] == q[0] && p[1] == q[1] && p[2] == q[2] && p[3] == q[3];
    DecimalInjective(a, a');
    DecimalInjective(b, b');
    DecimalInjective(c, c');
    DecimalInjective(d, d');
  }

  function HexChar(d: nat): char
    requires d < 16
  {
    if d < 10 then ('0' as int + d) as char else ('a' as int + d - 10) as char
  }

  /** `%02x` of one byte. */
  function Hex2(b: nat): (s: string)
    requires b < 256
    ensures |s| == 2
  {
    [HexChar(b / 16), HexChar(b % 16)]
  }

  /** Two lower-case hexadecimal digits, high first, as ASCII codes. */
  lemma Hex2Exactly(h: nat, l: nat)
    requires h < 16 && l < 16
    ensures Hex2(16 * h + l)[0] as int == (if h < 10 then 48 + h else 87 + h)
    ensures Hex2(16 * h + l)[1] as int == (if l < 10 then 48 + l else 87 + l)
  {
    assert (16 * h + l) / 16 == h && (16 * h + l) % 16 == l;
  }

  lemma Hex2Injective(a: nat, b: nat)
    requires a < 256 && b < 256 && Hex2(a) == Hex2(b)
    ensures a == b
  {
    assert HexChar(a / 16) == Hex2(a)[0] == Hex2(b)[0] == HexChar(b / 16);
    assert HexChar(a % 16) == Hex2(a)[1] == Hex2(b)[1] == HexChar(b % 16);
    assert a / 16 == b / 16 && a % 16 == b % 16;
  }
}
