/** Base64 character by character (patches/llama-cpp-pipeline-split/pipeline_server.cpp), as section 4 of
    RFC 4648 lays it out. */
module Base64Layout {
  import opened Base64
  import opened BitStrings
  import opened Prelude

  /** `c` is the character of value `n`: table 1 of RFC 4648. */
  predicate Stands(c: char, n: nat) {
    || (n < 26 && c == 'A' + n as char)
    || (26 <= n < 52 && c == 'a' + (n - 26) as char)
    || (52 <= n < 62 && c == '0' + (n - 52) as char)
    || (n == 62 && c == '+')
    || (n == 63 && c == '/')
  }

  lemma CharacterStands(n: nat)
    requires n < 64
    ensures Stands(Character(n), n)
  {
    if n < 52 { LetterIs(n); } else { OtherIs(n); }
    hide Character;
  }

  /** The 24 bits of three bytes, six at a time. */
  function First(a: nat): nat { a / 4 }
  function Second(a: nat, b: nat): nat { a % 4 * 16 + b / 16 }
  function Third(b: nat, c: nat): nat { b % 16 * 4 + c / 64 }
  function Fourth(c: nat): nat { c % 64 }

  /** The four digits of three bytes. */
  lemma SextetsAre(a: nat, b: nat, c: nat)
    requires a < 256 && b < 256 && c < 256
    ensures var n := a * 65536 + b * 256 + c;
      && Sextet(n, 18) == First(a) && Sextet(n, 12) == Second(a, b)
      && Sextet(n, 6) == Third(b, c) && Sextet(n, 0) == Fourth(c)
  {
    Shifts(a * 65536 + b * 256 + c);
    var a1, a0, b1, b0, c1, c0 := a / 4, a % 4, b / 16, b % 16, c / 64, c % 64;
    var d0, d1, d2 := a1, 16 * a0 + b1, 4 * b0 + c1;
    assert First(a) == d0 && Second(a, b) == d1 && Third(b, c) == d2 && Fourth(c) == c0;
    assert a * 65536 + b * 256 + c == 262144 * a1 + (65536 * a0 + 256 * b + c);
    assert a * 65536 + b * 256 + c == 4096 * (64 * d0 + d1) + (256 * b0 + c);
    assert a * 65536 + b * 256 + c == 64 * (64 * (64 * d0 + d1) + d2) + c0;
    hide *;
    Divided(a1, 65536 * a0 + 256 * b + c, 64 * d0 + d1, 256 * b0 + c, 64 * (64 * d0 + d1) + d2, c0);
    Remainder64(0, d0);
    Remainder64(d0, d1);
    Remainder64(64 * d0 + d1, d2);
    Remainder64(64 * (64 * d0 + d1) + d2, c0);
  }

  lemma Shifts(n: nat)
    ensures Sextet(n, 18) == n / 262144 % 64 && Sextet(n, 12) == n / 4096 % 64
    ensures Sextet(n, 6) == n / 64 % 64 && Sextet(n, 0) == n % 64
  {
    assert Pow2(18) == 262144 && Pow2(12) == 4096 && Pow2(6) == 64 && Pow2(0) == 1;
  }

  lemma Divided(q: nat, r: nat, q': nat, r': nat, q'': nat, r'': nat)
    requires r < 262144 && r' < 4096 && r'' < 64
    ensures (262144 * q + r) / 262144 == q
    ensures (4096 * q' + r') / 4096 == q'
    ensures (64 * q'' + r'') / 64 == q''
  {}

  /** Digit `4 * k + j` of the whole groups before `i`. */
  lemma {:induction false} GroupsAre(data: seq<Byte>, q: nat, k: nat)
    requires 3 * q <= |data| && k < q
    ensures var d, a, b, c := GroupDigits(data, 3 * q), data[3 * k] as nat, data[3 * k + 1] as nat, data[3 * k + 2] as nat;
      && |d| == 4 * q
      && d[4 * k] == First(a) && d[4 * k + 1] == Second(a, b) && d[4 * k + 2] == Third(b, c) && d[4 * k + 3] == Fourth(c)
    decreases q
  {
    var last := q - 1;
    hide *;
    WholeGroup(data, 3 * last);
    GroupsLength(data, last);
    if k < last {
      GroupsAre(data, last, k);
    } else {
      SextetsAre(data[3 * k] as nat, data[3 * k + 1] as nat, data[3 * k + 2] as nat);
    }
  }

  lemma {:induction false} GroupsLength(data: seq<Byte>, q: nat)
    requires 3 * q <= |data|
    ensures |GroupDigits(data, 3 * q)| == 4 * q
  {
    if q == 0 {
      NoDigits(data);
    } else {
      GroupsLength(data, q - 1);
      WholeGroup(data, 3 * (q - 1));
      hide GroupDigits;
    }
  }

  // ---------- The encoding ----------

  lemma EncodedDigit(data: seq<Byte>, j: nat)
    requires j < |Digits(data)|
    ensures j < |Encoded(data)| && Stands(Encoded(data)[j], Digits(data)[j])
  {
    CharacterStands(Digits(data)[j]);
    hide Character;
    hide Digits;
  }

  /** Every three bytes become the four characters of their 24 bits, in order. */
  lemma GroupAt(data: seq<Byte>, k: nat)
    requires 3 * k + 3 <= |data|
    ensures var s, a, b, c := Encoded(data), data[3 * k] as nat, data[3 * k + 1] as nat, data[3 * k + 2] as nat;
      && 4 * k + 4 <= |s|
      && Stands(s[4 * k], First(a)) && Stands(s[4 * k + 1], Second(a, b))
      && Stands(s[4 * k + 2], Third(b, c)) && Stands(s[4 * k + 3], Fourth(c))
  {
    var q := |data| / 3;
    hide *;
    GroupsAre(data, q, k);
    DigitsBegin(data, q);
    EncodedDigit(data, 4 * k);
    EncodedDigit(data, 4 * k + 1);
    EncodedDigit(data, 4 * k + 2);
    EncodedDigit(data, 4 * k + 3);
  }

  /** The whole groups come first. */
  lemma DigitsBegin(data: seq<Byte>, q: nat)
    requires q == |data| / 3
    ensures GroupDigits(data, 3 * q) <= Digits(data)
  {
    LastGroup(data, 3 * q);
    hide *;
  }

  /** After `q` whole groups: one byte left over becomes two characters and `==`, two become three and `=`;
      nothing else follows. */
  lemma RestAt(data: seq<Byte>, q: nat, r: nat)
    requires |data| == 3 * q + r && r < 3
    ensures var s := Encoded(data);
      && |s| == 4 * q + (if r == 0 then 0 else 4)
      && (r == 1 ==>
            var a := data[3 * q] as nat;
            Stands(s[4 * q], First(a)) && Stands(s[4 * q + 1], Second(a, 0)) && s[4 * q + 2] == '=' == s[4 * q + 3])
      && (r == 2 ==>
            var a, b := data[3 * q] as nat, data[3 * q + 1] as nat;
            && Stands(s[4 * q], First(a)) && Stands(s[4 * q + 1], Second(a, b))
            && Stands(s[4 * q + 2], Third(b, 0)) && s[4 * q + 3] == '=')
  {
    hide *;
    RestDigits(data, q, r);
    EncodedLength(data);
    Padded(q, r, |Digits(data)|);
    if r > 0 {
      EncodedDigit(data, 4 * q);
      EncodedDigit(data, 4 * q + 1);
      if r == 2 { EncodedDigit(data, 4 * q + 2); }
    }
  }

  lemma Padded(q: nat, r: nat, d: nat)
    requires r < 3 && d == 4 * q + if r == 0 then 0 else r + 1
    ensures d + (4 - d % 4) % 4 == 4 * q + if r == 0 then 0 else 4
  {
    assert d % 4 == if r == 0 then 0 else r + 1;
  }

  lemma RestDigits(data: seq<Byte>, q: nat, r: nat)
    requires |data| == 3 * q + r && r < 3
    ensures var d := Digits(data);
      && |d| == 4 * q + (if r == 0 then 0 else r + 1)
      && (r > 0 ==> d[4 * q] == First(data[3 * q] as nat))
      && (r == 1 ==> d[4 * q + 1] == Second(data[3 * q] as nat, 0))
      && (r == 2 ==> d[4 * q + 1] == Second(data[3 * q] as nat, data[3 * q + 1] as nat))
      && (r == 2 ==> d[4 * q + 2] == Third(data[3 * q + 1] as nat, 0))
  {
    hide *;
    GroupsLength(data, q);
    LastGroup(data, 3 * q);
    if r == 1 {
      SextetsAre(data[3 * q] as nat, 0, 0);
    } else if r == 2 {
      SextetsAre(data[3 * q] as nat, data[3 * q + 1] as nat, 0);
    }
  }

  lemma EncodedLength(data: seq<Byte>)
    ensures var s, d := Encoded(data), Digits(data);
      && |s| == |d| + (4 - |d| % 4) % 4
      && forall j :: |d| <= j < |s| ==> s[j] == '='
  {
    hide Digits;
    hide Character;
  }

  // ---------- The decoder on any string ----------

  predicate Foreign(c: char) {
    c != '=' && forall n: nat :: n < 64 ==> !Stands(c, n)
  }

  lemma ForeignIs(c: char)
    ensures Foreign(c) <==> c != '=' && Lookup(c) == -1
  {
    if Lookup(c) >= 0 {
      LookupRange(c);
      LookupInverts(c, Lookup(c));
      CharacterStands(Lookup(c));
    } else {
      forall n: nat | n < 64 ensures !Stands(c, n) {
        LookupInverts(c, n);
        CharacterStands(n);
      }
    }
    hide Character;
  }

  lemma {:induction false} SextetsSkip(a: string, c: char, b: string)
    requires Foreign(c)
    ensures Sextets(a + [c] + b) == Sextets(a + b)
  {
    ForeignIs(c);
    hide Lookup;
    if a == "" {
      assert ([] + [c] + b)[0] == c && ([] + [c] + b)[1..] == b && [] + b == b;
    } else {
      SextetsSkip(a[1..], c, b);
      assert (a + [c] + b)[1..] == a[1..] + [c] + b && (a + b)[1..] == a[1..] + b;
    }
  }

  lemma {:induction false} SextetsStop(a: string, b: string)
    ensures Sextets(a + "=" + b) == Sextets(a)
  {
    hide Lookup;
    if a == "" {
      assert ("" + "=" + b)[0] == '=';
    } else {
      SextetsStop(a[1..], b);
      assert (a + "=" + b)[1..] == a[1..] + "=" + b;
    }
  }

  /** A character outside the alphabet changes nothing wherever it stands; nothing after a `=` counts. */
  lemma DecodeIgnores(a: string, c: char, b: string)
    ensures Foreign(c) ==> Decoded(a + [c] + b) == Decoded(a + b)
    ensures Decoded(a + "=" + b) == Decoded(a)
  {
    if Foreign(c) { SextetsSkip(a, c, b); }
    SextetsStop(a, b);
    hide *;
    DecodedBy(a + [c] + b, a + b);
    DecodedBy(a + "=" + b, a);
  }

  lemma DecodedBy(s: string, s': string)
    ensures Sextets(s) == Sextets(s') ==> Decoded(s) == Decoded(s')
  {}

  /** The characters of these digits. */
  predicate Spells(s: string, digits: seq<nat>) {
    |s| == |digits| && forall i :: 0 <= i < |s| ==> digits[i] < 64 && Stands(s[i], digits[i])
  }

  lemma StandsIs(c: char, n: nat)
    requires n < 64 && Stands(c, n)
    ensures c != '=' && Lookup(c) == n
  {
    CharacterStands(n);
    LookupInverts(c, n);
    hide Character;
  }

  lemma {:induction false} SextetsSpell(s: string, digits: seq<nat>, rest: string)
    requires Spells(s, digits)
    ensures Sextets(s + rest) == digits + Sextets(rest)
  {
    if s == "" {
      assert s + rest == rest && digits + Sextets(rest) == Sextets(rest);
    } else {
      assert s + rest == [s[0]] + (s[1..] + rest) && digits == [digits[0]] + digits[1..];
      assert Stands(s[0], digits[0]);
      StandsIs(s[0], digits[0]);
      SextetsSpell(s[1..], digits[1..], rest);
      hide *;
      SextetsFirst(s[0], s[1..] + rest);
      assert [digits[0]] + (digits[1..] + Sextets(rest)) == digits + Sextets(rest);
    }
  }

  /** Four characters give three bytes, and then the rest is decoded. */
  lemma DecodeGroup(s: string, a: nat, b: nat, c: nat, d: nat, rest: string)
    requires Spells(s, [a, b, c, d])
    ensures Decoded(s + rest) == [a * 4 + b / 16, b % 16 * 16 + c / 4, c % 4 * 64 + d] + Decoded(rest)
  {
    SextetsSpell(s, [a, b, c, d], rest);
    assert a < 64 && b < 64 && c < 64 && d < 64 by { SpellsFour(s, a, b, c, d); }
    hide *;
    var bytes, digits := [a * 4 + b / 16, b % 16 * 16 + c / 4, c % 4 * 64 + d], [a, b, c, d];
    FourAsThree(a, b, c, d);
    FlattenJoin(6, digits, Sextets(rest));
    SmallPowers();
    CutJoin(8, Flatten(6, digits), Flatten(6, Sextets(rest)), 3);
    CutWords(8, bytes);
    DecodedIs(s + rest);
    DecodedIs(rest);
  }

  lemma DecodedIs(s: string)
    ensures Decoded(s) == Cut(8, Flatten(6, Sextets(s)))
  {}

  lemma SpellsFour(s: string, a: nat, b: nat, c: nat, d: nat)
    requires Spells(s, [a, b, c, d])
    ensures a < 64 && b < 64 && c < 64 && d < 64
  {
    hide Stands;
    var digits := [a, b, c, d];
    assert digits[0] < 64 && digits[1] < 64 && digits[2] < 64 && digits[3] < 64;
  }

  lemma FourAsThree(a: nat, b: nat, c: nat, d: nat)
    requires a < 64 && b < 64 && c < 64 && d < 64
    ensures var bytes := [a * 4 + b / 16, b % 16 * 16 + c / 4, c % 4 * 64 + d];
      Flatten(6, [a, b, c, d]) == Flatten(8, bytes) && forall i :: 0 <= i < 3 ==> bytes[i] < 256
  {
    Parts(b, c);
    hide *;
    TwentyFourBits(a, b / 16, b % 16, c / 4, c % 4, d);
    FourDigits(a, b, c, d);
    Bytes(a * 4 + b / 16, b % 16 * 16 + c / 4, c % 4 * 64 + d);
  }

  lemma TwentyFourBits(a: nat, b1: nat, b0: nat, c1: nat, c0: nat, d: nat)
    requires a < 64 && b1 < 4 && b0 < 16 && c1 < 16 && c0 < 4 && d < 64
    ensures ((a * 64 + (16 * b1 + b0)) * 64 + (4 * c1 + c0)) * 64 + d
         == ((a * 4 + b1) * 256 + (b0 * 16 + c1)) * 256 + (c0 * 64 + d)
    ensures a * 4 + b1 < 256 && b0 * 16 + c1 < 256 && c0 * 64 + d < 256
  {
  }

  /** What is left at the end: three characters give two bytes, two give one, a single one none; the bits
      beyond are dropped. */
  lemma DecodeRest(s: string, a: nat, b: nat, c: nat)
    ensures Decoded("") == []
    ensures Spells(s, [a]) ==> Decoded(s) == []
    ensures Spells(s, [a, b]) ==> Decoded(s) == [a * 4 + b / 16]
    ensures Spells(s, [a, b, c]) ==> Decoded(s) == [a * 4 + b / 16, b % 16 * 16 + c / 4]
  {
    NothingDecoded();
    if Spells(s, [a]) {
      SextetsAlone(s, [a]);
      OneDigit(a);
    }
    if Spells(s, [a, b]) {
      SextetsAlone(s, [a, b]);
      assert [a, b][0] < 64 && [a, b][1] < 64;
      TwoDigits(a, b);
    }
    if Spells(s, [a, b, c]) {
      SextetsAlone(s, [a, b, c]);
      assert [a, b, c][0] < 64 && [a, b, c][1] < 64 && [a, b, c][2] < 64;
      ThreeDigits(a, b, c);
    }
    hide *;
    DecodedIs(s);
  }

  lemma NothingDecoded()
    ensures Decoded("") == []
  {}

  lemma SextetsAlone(s: string, digits: seq<nat>)
    requires Spells(s, digits)
    ensures Sextets(s) == digits
  {
    SextetsSpell(s, digits, "");
    assert s + "" == s && digits + Sextets("") == digits;
  }

  lemma OneDigit(a: nat)
    ensures Cut(8, Flatten(6, [a])) == []
  {}

  lemma TwoDigits(a: nat, b: nat)
    requires a < 64 && b < 64
    ensures Cut(8, Flatten(6, [a, b])) == [a * 4 + b / 16]
  {
    Parts(b, 0);
    hide *;
    OneByteAndRest(a, b, a * 4 + b / 16, b % 16);
  }

  lemma OneByteAndRest(a: nat, b: nat, x: nat, lo: nat)
    requires a < 64 && b < 64 && x < 256 && lo < 16 && a * 64 + b == x * 16 + lo
    ensures Cut(8, Flatten(6, [a, b])) == [x]
  {
    hide *;
    FourDigits(a, b, 0, 0);
    FourBitsMore(x, lo);
    Bytes(x, 0, 0);
    BytesBack([x], Bits(4, lo));
  }

  lemma EighteenBits(a: nat, b1: nat, b0: nat, c1: nat, c0: nat)
    requires a < 64 && b1 < 4 && b0 < 16 && c1 < 16 && c0 < 4
    ensures (a * 64 + (16 * b1 + b0)) * 64 + (4 * c1 + c0) == ((a * 4 + b1) * 256 + (b0 * 16 + c1)) * 4 + c0
    ensures a * 4 + b1 < 256 && b0 * 16 + c1 < 256
  {}

  lemma ThreeDigits(a: nat, b: nat, c: nat)
    requires a < 64 && b < 64 && c < 64
    ensures Cut(8, Flatten(6, [a, b, c])) == [a * 4 + b / 16, b % 16 * 16 + c / 4]
  {
    Parts(b, c);
    hide *;
    EighteenBits(a, b / 16, b % 16, c / 4, c % 4);
    TwoBytesAndRest(a, b, c, a * 4 + b / 16, b % 16 * 16 + c / 4, c % 4);
  }

  lemma Parts(b: nat, c: nat)
    requires b < 64 && c < 64
    ensures b == 16 * (b / 16) + b % 16 && c == 4 * (c / 4) + c % 4
    ensures b / 16 < 4 && b % 16 < 16 && c / 4 < 16 && c % 4 < 4
  {}

  lemma TwoBytesAndRest(a: nat, b: nat, c: nat, x: nat, y: nat, lo: nat)
    requires a < 64 && b < 64 && c < 64 && x < 256 && y < 256 && lo < 4
    requires (a * 64 + b) * 64 + c == (x * 256 + y) * 4 + lo
    ensures Cut(8, Flatten(6, [a, b, c])) == [x, y]
  {
    hide *;
    FourDigits(a, b, c, 0);
    TwoBitsMore(x * 256 + y, lo);
    Bytes(x, y, 0);
    BytesBack([x, y], Bits(2, lo));
  }

  lemma TwoBitsMore(hi: nat, lo: nat)
    requires lo < 4
    ensures Bits(18, hi * 4 + lo) == Bits(16, hi) + Bits(2, lo)
  {
    hide *;
    SmallPowers();
    BitsJoin(16, hi, 2, lo);
  }

  lemma FourBitsMore(hi: nat, lo: nat)
    requires lo < 16
    ensures Bits(12, hi * 16 + lo) == Bits(8, hi) + Bits(4, lo)
  {
    hide *;
    SmallPowers();
    BitsJoin(8, hi, 4, lo);
  }

  /** Fewer than eight bits behind the bytes are dropped. */
  lemma BytesBack(bytes: seq<nat>, rest: seq<bool>)
    requires |rest| < 8 && forall i :: 0 <= i < |bytes| ==> bytes[i] < 256
    ensures Cut(8, Flatten(8, bytes) + rest) == bytes
  {
    assert Pow2(8) == 256;
    hide *;
    CutFlatten(8, bytes, rest);
  }
}
