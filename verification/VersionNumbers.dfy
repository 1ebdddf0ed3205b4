/** Which strings are versions (spike-release/src/lib.rs): three decimal numbers between dots. */
module VersionNumbers {
  import opened Prelude
  import opened Release

  /** A number as it is usually written. */
  function Decimal(n: nat): string {
    if n < 10 then ["0123456789"[n]] else Decimal(n / 10) + ["0123456789"[n % 10]]
  }

  function Noughts(k: nat): string {
    seq(k, i => '0')
  }

  /** The number with any leading zeros. */
  ghost predicate WritesDigits(s: string, n: nat) {
    exists k: nat :: s == Noughts(k) + Decimal(n)
  }

  /** What `parse::<u64>` takes for `n`: leading zeros and one plus sign are allowed. */
  ghost predicate Writes(s: string, n: nat) {
    WritesDigits(s, n) || (s != "" && s[0] == '+' && WritesDigits(s[1..], n))
  }

  lemma DigitIs(n: nat)
    requires n < 10
    ensures var c := "0123456789"[n]; '0' <= c <= '9' && c as int - '0' as int == n
  {}

  lemma DigitsSnoc(front: string, c: char)
    ensures Digits(front + [c]) ==
      if Digits(front).Some? && '0' <= c <= '9' then Some(10 * Digits(front).value + (c as int - '0' as int)) else None
  {
    assert (front + [c])[..|front|] == front;
  }

  lemma {:induction false} DigitsOfNoughts(k: nat)
    ensures Digits(Noughts(k)) == Some(0)
  {
    if k == 0 {
    } else {
      DigitsOfNoughts(k - 1);
      DigitsSnoc(Noughts(k - 1), '0');
      assert Noughts(k) == Noughts(k - 1) + ['0'];
    }
  }

  lemma {:induction false} DigitsOfDecimal(k: nat, n: nat)
    ensures Digits(Noughts(k) + Decimal(n)) == Some(n)
    decreases n
  {
    DigitIs(n % 10);
    if n < 10 {
      DigitsOfNoughts(k);
      DigitsSnoc(Noughts(k), "0123456789"[n]);
    } else {
      DigitsOfDecimal(k, n / 10);
      DigitsSnoc(Noughts(k) + Decimal(n / 10), "0123456789"[n % 10]);
      assert Noughts(k) + Decimal(n) == Noughts(k) + Decimal(n / 10) + ["0123456789"[n % 10]];
    }
  }

  lemma {:induction false} DecimalOfDigits(s: string, n: nat) returns (k: nat)
    requires s != "" && Digits(s) == Some(n)
    ensures s == Noughts(k) + Decimal(n)
    decreases |s|
  {
    var front, c := s[..|s| - 1], s[|s| - 1];
    assert s == front + [c];
    DigitsSnoc(front, c);
    var m, d := Digits(front).value, c as int - '0' as int;
    assert c == "0123456789"[d];
    assert n / 10 == m && n % 10 == d;
    if front == "" {
      k := 0;
      assert Noughts(0) == "";
    } else {
      k := DecimalOfDigits(front, m);
      if m == 0 {
        assert Noughts(k) + ['0'] == Noughts(k + 1);
        k := k + 1;
      }
    }
  }

  lemma DigitsExactly(s: string, n: nat)
    ensures s != "" && Digits(s) == Some(n) <==> WritesDigits(s, n)
    ensures WritesDigits(s, n) ==> s[0] != '+'
  {
    if s != "" && Digits(s) == Some(n) {
      var k := DecimalOfDigits(s, n);
    }
    if WritesDigits(s, n) {
      var k: nat :| s == Noughts(k) + Decimal(n);
      DigitsOfDecimal(k, n);
      FirstIsDigit(k, n);
    }
  }

  lemma ParseU64Exactly(s: string, n: nat)
    ensures ParseU64(s) == Some(n) <==> n <= U64_MAX && Writes(s, n)
  {
    hide Digits;
    hide WritesDigits;
    DigitsExactly(s, n);
    if s != "" { DigitsExactly(s[1..], n); }
  }

  lemma {:induction false} FirstIsDigit(k: nat, n: nat)
    ensures var s := Noughts(k) + Decimal(n); s != "" && s[0] != '+'
    decreases n
  {
    DigitIs(n % 10);
    if n >= 10 {
      FirstIsDigit(k, n / 10);
      assert Noughts(k) + Decimal(n) == Noughts(k) + Decimal(n / 10) + ["0123456789"[n % 10]];
    }
  }

  // ---------- Parts between dots ----------

  lemma {:induction false} SplitOne(a: string, sep: char)
    requires sep !in a
    ensures Split(a, sep) == [a]
  {
    if a == "" {
    } else {
      SplitOne(a[1..], sep);
      assert [a[0]] + a[1..] == a;
    }
  }

  lemma {:induction false} SplitMore(a: string, sep: char, rest: string)
    requires sep !in a
    ensures Split(a + [sep] + rest, sep) == [a] + Split(rest, sep)
  {
    var s := a + [sep] + rest;
    if a == "" {
      assert s[0] == sep && s[1..] == rest;
    } else {
      SplitMore(a[1..], sep, rest);
      assert s[1..] == a[1..] + [sep] + rest;
      assert [a[0]] + a[1..] == a;
    }
  }

  /** The first part, and what follows the first separator. */
  lemma {:induction false} SplitFirst(s: string, sep: char)
    ensures sep !in Split(s, sep)[0]
    ensures if |Split(s, sep)| == 1 then s == Split(s, sep)[0]
            else exists rest :: s == Split(s, sep)[0] + [sep] + rest && Split(rest, sep) == Split(s, sep)[1..]
  {
    if s == "" {
    } else {
      SplitFirst(s[1..], sep);
      var parts, tail := Split(s, sep), Split(s[1..], sep);
      assert s == [s[0]] + s[1..];
      if s[0] == sep {
        assert s == "" + [sep] + s[1..] && parts[1..] == tail;
      } else if |tail| > 1 {
        var rest :| s[1..] == tail[0] + [sep] + rest && Split(rest, sep) == tail[1..];
        assert s == parts[0] + [sep] + rest && parts[1..] == tail[1..];
      }
    }
  }

  /** The string is `a.b.c` in decimal. */
  ghost predicate WritesVersion(v: string, a: nat, b: nat, c: nat) {
    exists x, y, z :: v == x + "." + y + "." + z && Writes(x, a) && Writes(y, b) && Writes(z, c)
  }

  lemma NoDots(s: string, n: nat)
    requires Writes(s, n)
    ensures '.' !in s
  {
    DecimalNoDots(n);
    if WritesDigits(s, n) {
    } else {
      assert s == ['+'] + s[1..];
    }
  }

  lemma {:induction false} DecimalNoDots(n: nat)
    ensures '.' !in Decimal(n)
  {
    DigitIs(n % 10);
    if n >= 10 { DecimalNoDots(n / 10); }
  }

  lemma ThreeParts(v: string) returns (x: string, y: string, z: string)
    requires |Split(v, '.')| == 3
    ensures v == x + "." + y + "." + z && Split(v, '.') == [x, y, z]
  {
    SplitFirst(v, '.');
    x := Split(v, '.')[0];
    var rest :| v == x + ['.'] + rest && Split(rest, '.') == Split(v, '.')[1..];
    SplitFirst(rest, '.');
    y := Split(rest, '.')[0];
    var last :| rest == y + ['.'] + last && Split(last, '.') == Split(rest, '.')[1..];
    SplitFirst(last, '.');
    z := Split(last, '.')[0];
    assert v == x + "." + y + "." + z;
  }

  /** A string parses as a version exactly when it is three decimal numbers of 64 bits between dots. */
  lemma ParseVersionExactly(v: string, a: nat, b: nat, c: nat)
    ensures ParseVersion(v) == Some(Version(a, b, c)) <==>
      a <= U64_MAX && b <= U64_MAX && c <= U64_MAX && WritesVersion(v, a, b, c)
  {
    hide Split;
    hide ParseU64;
    hide Writes;
    if ParseVersion(v) == Some(Version(a, b, c)) {
      var x, y, z := ThreeParts(v);
      ParseU64Exactly(x, a);
      ParseU64Exactly(y, b);
      ParseU64Exactly(z, c);
    }
    if a <= U64_MAX && b <= U64_MAX && c <= U64_MAX && WritesVersion(v, a, b, c) {
      var x, y, z :| v == x + "." + y + "." + z && Writes(x, a) && Writes(y, b) && Writes(z, c);
      ParseU64Exactly(x, a);
      ParseU64Exactly(y, b);
      ParseU64Exactly(z, c);
      NoDots(x, a);
      NoDots(y, b);
      NoDots(z, c);
      SplitOne(z, '.');
      SplitMore(y, '.', z);
      SplitMore(x, '.', y + ['.'] + z);
      assert v == x + ['.'] + (y + ['.'] + z);
      assert Split(v, '.') == [x, y, z];
    }
  }
}
