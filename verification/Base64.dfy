/** The base64 codec of the native pipeline server (patches/llama-cpp-pipeline-split/pipeline_server.cpp),
    against section 4 of RFC 4648: the input's bits, regrouped by six. */
module Base64 {
  import opened BitStrings
  import opened Prelude

  /** `B64_CHARS[n]`. */
  function Character(n: nat): char
    requires n < 64
  {
    var upper, lower, rest := "ABCDEFGHIJKLMNOPQRSTUVWXYZ", "abcdefghijklmnopqrstuvwxyz", "0123456789+/";
    (upper + lower + rest)[n]
  }

  /** One `unsigned char` of a C++ string. */
  type Octet = c: char | c < 256 as char witness 'A'

  // ---------- The standard ----------

  function Chars(digits: seq<nat>): string
    requires forall i :: 0 <= i < |digits| ==> digits[i] < 64
  {
    seq(|digits|, i requires 0 <= i < |digits| => Character(digits[i]))
  }

  function Digits(data: seq<Byte>): (digits: seq<nat>)
    ensures forall i :: 0 <= i < |digits| ==> digits[i] < 64
  {
    var bits := Flatten(8, Words(data));
    var padded := bits + Zeros((6 - |bits| % 6) % 6);
    CutRange(6, padded);
    Cut(6, padded)
  }

  function Words(data: seq<Byte>): (words: seq<nat>)
    ensures |words| == |data| && forall i :: 0 <= i < |data| ==> words[i] == data[i] as int
  {
    seq(|data|, i requires 0 <= i < |data| => data[i] as int)
  }

  /** RFC 4648, section 4: zero bits up to a whole digit, `=` up to a whole group of four. */
  function Encoded(data: seq<Byte>): string {
    var digits := Digits(data);
    Chars(digits) + seq((4 - |digits| % 4) % 4, i => '=')
  }

  /** The value of a base64 character, or -1. */
  function Lookup(c: char): int {
    if 'A' <= c <= 'Z' then c as int - 'A' as int
    else if 'a' <= c <= 'z' then c as int - 'a' as int + 26
    else if '0' <= c <= '9' then c as int - '0' as int + 52
    else if c == '+' then 62
    else if c == '/' then 63
    else -1
  }

  /** The digits up to the first `=`, characters outside the alphabet skipped. */
  function Sextets(s: string): (digits: seq<nat>)
    ensures forall i :: 0 <= i < |digits| ==> digits[i] < 64
  {
    if s == "" || s[0] == '=' then []
    else if Lookup(s[0]) == -1 then Sextets(s[1..])
    else [Lookup(s[0]) as nat] + Sextets(s[1..])
  }

  function Decoded(s: string): seq<nat> {
    Cut(8, Flatten(6, Sextets(s)))
  }

  // ---------- The encoder ----------

  lemma Bytes(a: nat, b: nat, c: nat)
    requires a < 256 && b < 256 && c < 256
    ensures Flatten(8, [a]) == Bits(8, a)
    ensures Flatten(8, [a, b]) == Bits(16, a * 256 + b)
    ensures Flatten(8, [a, b, c]) == Bits(24, (a * 256 + b) * 256 + c)
  {
    SmallPowers();
    hide *;
    OneWord(8, a);
    assert [a] + [b] == [a, b] && [a, b] + [c] == [a, b, c];
    OneMoreWord(8, [a], b, a, 256);
    OneMoreWord(8, [a, b], c, a * 256 + b, 256);
  }

  lemma FourDigits(a: nat, b: nat, c: nat, d: nat)
    requires a < 64 && b < 64 && c < 64 && d < 64
    ensures Flatten(6, [a, b]) == Bits(12, a * 64 + b)
    ensures Flatten(6, [a, b, c]) == Bits(18, (a * 64 + b) * 64 + c)
    ensures Flatten(6, [a, b, c, d]) == Bits(24, ((a * 64 + b) * 64 + c) * 64 + d)
  {
    SmallPowers();
    hide *;
    OneWord(6, a);
    assert [a] + [b] == [a, b] && [a, b] + [c] == [a, b, c] && [a, b, c] + [d] == [a, b, c, d];
    OneMoreWord(6, [a], b, a, 64);
    OneMoreWord(6, [a, b], c, a * 64 + b, 64);
    OneMoreWord(6, [a, b, c], d, (a * 64 + b) * 64 + c, 64);
  }

  /** `(n >> shift) & 0x3F`. */
  function Sextet(n: nat, shift: nat): (digit: nat)
    ensures digit < 64
  {
    n / Pow2(shift) % 64
  }

  lemma SextetsOf(n: nat)
    requires n < 0x100_0000
    ensures n == ((Sextet(n, 18) * 64 + Sextet(n, 12)) * 64 + Sextet(n, 6)) * 64 + Sextet(n, 0)
  {
    assert Pow2(18) == 262144 && Pow2(12) == 4096 && Pow2(6) == 64 && Pow2(0) == 1;
    hide Pow2;
    assert n / 4096 == n / 64 / 64 && n / 262144 == n / 64 / 64 / 64;
  }

  /** Three bytes as four digits, two as three, one as two. */
  lemma ThreeBytes(a: nat, b: nat, c: nat)
    requires a < 256 && b < 256 && c < 256
    ensures var n := a * 65536 + b * 256 + c;
      Cut(6, Flatten(8, [a, b, c])) == [Sextet(n, 18), Sextet(n, 12), Sextet(n, 6), Sextet(n, 0)]
  {
    SmallPowers();
    hide *;
    var n := a * 65536 + b * 256 + c;
    SextetsOf(n);
    Bytes(a, b, c);
    FourDigits(Sextet(n, 18), Sextet(n, 12), Sextet(n, 6), Sextet(n, 0));
    CutWords(6, [Sextet(n, 18), Sextet(n, 12), Sextet(n, 6), Sextet(n, 0)]);
  }

  lemma TwoBytes(a: nat, b: nat)
    requires a < 256 && b < 256
    ensures var n := a * 65536 + b * 256;
      Cut(6, Flatten(8, [a, b]) + Zeros(2)) == [Sextet(n, 18), Sextet(n, 12), Sextet(n, 6)]
  {
    SmallPowers();
    hide *;
    var m := a * 256 + b;
    var n := m * 256;
    var d0, d1, d2 := Sextet(n, 18), Sextet(n, 12), Sextet(n, 6);
    LowSextet(m);
    SextetsOf(n);
    Bytes(a, b, 0);
    Padded(16, m, 2, 4);
    FourDigits(d0, d1, d2, 0);
    assert m * 4 == (d0 * 64 + d1) * 64 + d2;
    assert n == a * 65536 + b * 256;
    CutWords(6, [d0, d1, d2]);
  }

  lemma OneByte(a: nat)
    requires a < 256
    ensures Cut(6, Flatten(8, [a]) + Zeros(4)) == [Sextet(a * 65536, 18), Sextet(a * 65536, 12)]
  {
    SmallPowers();
    hide *;
    var m := a * 256;
    var n := m * 256;
    var d0, d1 := Sextet(n, 18), Sextet(n, 12);
    LowSextet(m);
    SextetsOf(n);
    Bytes(a, 0, 0);
    Padded(8, a, 4, 16);
    FourDigits(d0, d1, 0, 0);
    assert a * 16 == d0 * 64 + d1;
    assert n == a * 65536;
    CutWords(6, [d0, d1]);
  }

  /** The digits below the bytes present are zero. */
  lemma LowSextet(m: nat)
    ensures Sextet(m * 256, 0) == 0
    ensures m % 256 == 0 ==> Sextet(m * 256, 6) == 0
  {
    assert Pow2(6) == 64;
    assert m * 256 / 64 == m * 4;
  }

  /** The digits of a prefix of whole groups. */
  function GroupDigits(data: seq<Byte>, i: nat): seq<nat>
    requires i <= |data|
  {
    Cut(6, Flatten(8, Words(data)[..i]))
  }

  lemma NextGroup(data: seq<Byte>, i: nat, next: seq<nat>, pad: seq<bool>, k: nat)
    requires i == 3 * k && i + |next| <= |data| && next == Words(data)[i..i + |next|]
    ensures Cut(6, Flatten(8, Words(data)[..i + |next|]) + pad) == GroupDigits(data, i) + Cut(6, Flatten(8, next) + pad)
  {
    var front := Words(data)[..i];
    assert Words(data)[..i + |next|] == front + next;
    FlattenJoin(8, front, next);
    assert Flatten(8, front + next) + pad == Flatten(8, front) + (Flatten(8, next) + pad);
    assert |Flatten(8, front)| == (4 * k) * 6;
    CutJoin(6, Flatten(8, front), Flatten(8, next) + pad, 4 * k);
  }

  lemma WholeGroup(data: seq<Byte>, i: nat)
    requires i % 3 == 0 && i + 3 <= |data|
    ensures var n := data[i] as int * 65536 + data[i + 1] as int * 256 + data[i + 2] as int;
      GroupDigits(data, i + 3) == GroupDigits(data, i) + [Sextet(n, 18), Sextet(n, 12), Sextet(n, 6), Sextet(n, 0)]
  {
    hide Flatten;
    hide Cut;
    hide Sextet;
    var next := [data[i] as nat, data[i + 1] as nat, data[i + 2] as nat];
    NextGroup(data, i, next, [], i / 3);
    ThreeBytes(next[0], next[1], next[2]);
    assert Flatten(8, next) + [] == Flatten(8, next);
    assert Flatten(8, Words(data)[..i + 3]) + [] == Flatten(8, Words(data)[..i + 3]);
  }

  lemma Remainder6(q: nat, r: nat)
    requires r < 6
    ensures (6 * q + r) % 6 == r
  {}

  lemma PaddingIs(n: nat)
    ensures (6 - 8 * n % 6) % 6 == if n % 3 == 0 then 0 else if n % 3 == 1 then 4 else 2
    ensures 8 * n + (6 - 8 * n % 6) % 6 == (4 * (n / 3) + (if n % 3 == 0 then 0 else n % 3 + 1)) * 6
  {
    var k, r := n / 3, n % 3;
    assert n == 3 * k + r;
    if r == 0 {
      assert 8 * n == 6 * (4 * k);
      Remainder6(4 * k, 0);
    } else if r == 1 {
      assert 8 * n == 6 * (4 * k + 1) + 2;
      Remainder6(4 * k + 1, 2);
    } else {
      assert 8 * n == 6 * (4 * k + 2) + 4;
      Remainder6(4 * k + 2, 4);
    }
  }

  /** What is left after the whole groups. */
  lemma LastGroup(data: seq<Byte>, i: nat)
    requires i % 3 == 0 && i <= |data| < i + 3
    ensures |data| == i ==> Digits(data) == GroupDigits(data, i)
    ensures |data| == i + 1 ==> var n := data[i] as int * 65536;
      Digits(data) == GroupDigits(data, i) + [Sextet(n, 18), Sextet(n, 12)]
    ensures |data| == i + 2 ==> var n := data[i] as int * 65536 + data[i + 1] as int * 256;
      Digits(data) == GroupDigits(data, i) + [Sextet(n, 18), Sextet(n, 12), Sextet(n, 6)]
  {
    hide Flatten;
    hide Cut;
    hide Sextet;
    var words := Words(data);
    assert words[..|data|] == words;
    PaddingIs(|data|);
    hide Words;
    if |data| == i {
      assert Flatten(8, words) + Zeros(0) == Flatten(8, words);
    } else if |data| == i + 1 {
      NextGroup(data, i, [data[i] as nat], Zeros(4), i / 3);
      OneByte(data[i] as nat);
    } else {
      NextGroup(data, i, [data[i] as nat, data[i + 1] as nat], Zeros(2), i / 3);
      TwoBytes(data[i] as nat, data[i + 1] as nat);
    }
  }

  /** `b64_encode`. The shifted bytes of `n` do not overlap, so `|` adds them. */
  method Encode(data: seq<Byte>) returns (out: string)
    ensures out == Encoded(data)
  {
    out := "";
    var len, i := |data|, 0;
    NoDigits(data);
    hide *;
    while i + 3 <= len
      invariant i <= len && i % 3 == 0 && Encodes(out, GroupDigits(data, i)) && |GroupDigits(data, i)| % 4 == 0
    {
      var n := data[i] as int * 65536 + data[i + 1] as int * 256 + data[i + 2] as int;
      WholeGroup(data, i);
      FourMore(out, GroupDigits(data, i), n);
      out := out + [Character(Sextet(n, 18))];
      out := out + [Character(Sextet(n, 12))];
      out := out + [Character(Sextet(n, 6))];
      out := out + [Character(Sextet(n, 0))];
      i := i + 3;
    }
    var rem := len - i;
    LastGroup(data, i);
    EncodedIs(data);
    if rem == 1 {
      var n := data[i] as int * 65536;
      TwoMore(out, GroupDigits(data, i), n);
      out := out + [Character(Sextet(n, 18))];
      out := out + [Character(Sextet(n, 12))];
      out := out + "==";
    } else if rem == 2 {
      var n := data[i] as int * 65536 + data[i + 1] as int * 256;
      ThreeMore(out, GroupDigits(data, i), n);
      out := out + [Character(Sextet(n, 18))];
      out := out + [Character(Sextet(n, 12))];
      out := out + [Character(Sextet(n, 6))];
      out := out + "=";
    }
  }

  ghost predicate Encodes(out: string, digits: seq<nat>) {
    (forall j :: 0 <= j < |digits| ==> digits[j] < 64) && out == Chars(digits)
  }

  lemma FourMore(out: string, digits: seq<nat>, n: nat)
    requires Encodes(out, digits)
    ensures Encodes(out + [Character(Sextet(n, 18))] + [Character(Sextet(n, 12))] + [Character(Sextet(n, 6))]
                        + [Character(Sextet(n, 0))],
                    digits + [Sextet(n, 18), Sextet(n, 12), Sextet(n, 6), Sextet(n, 0)])
  {
    CharsJoin(digits, [Sextet(n, 18), Sextet(n, 12), Sextet(n, 6), Sextet(n, 0)]);
    hide Character;
    hide Sextet;
    hide Chars;
  }

  lemma ThreeMore(out: string, digits: seq<nat>, n: nat)
    requires Encodes(out, digits)
    ensures Encodes(out + [Character(Sextet(n, 18))] + [Character(Sextet(n, 12))] + [Character(Sextet(n, 6))],
                    digits + [Sextet(n, 18), Sextet(n, 12), Sextet(n, 6)])
  {
    CharsJoin(digits, [Sextet(n, 18), Sextet(n, 12), Sextet(n, 6)]);
    hide Character;
    hide Sextet;
    hide Chars;
  }

  lemma TwoMore(out: string, digits: seq<nat>, n: nat)
    requires Encodes(out, digits)
    ensures Encodes(out + [Character(Sextet(n, 18))] + [Character(Sextet(n, 12))], digits + [Sextet(n, 18), Sextet(n, 12)])
  {
    CharsJoin(digits, [Sextet(n, 18), Sextet(n, 12)]);
    hide Character;
    hide Sextet;
    hide Chars;
  }

  /** The digits' characters, and the padding by the number of digits. */
  lemma EncodedIs(data: seq<Byte>)
    ensures forall out :: Encodes(out, Digits(data)) ==>
      && (|Digits(data)| % 4 == 0 ==> Encoded(data) == out)
      && (|Digits(data)| % 4 == 2 ==> Encoded(data) == out + "==")
      && (|Digits(data)| % 4 == 3 ==> Encoded(data) == out + "=")
  {
    hide Chars;
    hide Digits;
    var digits := Digits(data);
    assert Chars(digits) + [] == Chars(digits);
  }

  lemma CharsJoin(a: seq<nat>, b: seq<nat>)
    requires (forall i :: 0 <= i < |a| ==> a[i] < 64) && forall i :: 0 <= i < |b| ==> b[i] < 64
    ensures |Chars(a)| == |a| && Chars(a + b) == Chars(a) + Chars(b)
    ensures |b| == 2 ==> Chars(b) == [Character(b[0]), Character(b[1])]
    ensures |b| == 3 ==> Chars(b) == [Character(b[0]), Character(b[1]), Character(b[2])]
    ensures |b| == 4 ==> Chars(b) == [Character(b[0]), Character(b[1]), Character(b[2]), Character(b[3])]
  {
    hide Character;
  }

  lemma NoDigits(data: seq<Byte>)
    ensures GroupDigits(data, 0) == [] && Encodes("", [])
  {
    assert Words(data)[..0] == [];
  }

  // ---------- The decoder ----------

  lemma LetterIs(n: nat)
    requires n < 52
    ensures n < 26 ==> Character(n) == 'A' + n as char
    ensures 26 <= n ==> Character(n) == 'a' + (n - 26) as char
  {}

  lemma OtherIs(n: nat)
    requires 52 <= n < 64
    ensures n < 62 ==> Character(n) == '0' + (n - 52) as char
    ensures n == 62 ==> Character(n) == '+'
    ensures n == 63 ==> Character(n) == '/'
  {}

  /** `Lookup` is the inverse of the alphabet: of its 64 characters and no others. */
  lemma LookupInverts(c: char, n: nat)
    requires n < 64
    ensures Lookup(c) == n <==> c == Character(n)
    ensures Character(n) != '=' && Character(n) < 128 as char
  {
    if n < 52 { LetterIs(n); } else { OtherIs(n); }
    hide Character;
  }

  /** The table `T`, filled with -1 and then from the alphabet. */
  method BuildTable() returns (t: array<int>)
    ensures fresh(t) && t.Length == 256
    ensures forall c: nat :: c < 256 ==> t[c] == Lookup(c as char)
  {
    t := new int[256](i => -1);
    for i := 0 to 64
      invariant forall c: nat :: c < 256 ==> t[c] == if 0 <= Lookup(c as char) < i then Lookup(c as char) else -1
    {
      forall c: char { LookupInverts(c, i); }
      t[Character(i) as int] := i;
    }
  }

  /** Two's complement wrap-around of an `int`. */
  function WrapSigned(n: int): int {
    (n + 0x8000_0000) % 0x1_0000_0000 - 0x8000_0000
  }

  /** `(val << 6) + digit`. */
  function Shifted(val: int, digit: nat): int {
    WrapSigned(WrapSigned(val * 64) + digit)
  }

  /** The last bits, those not yet part of a whole byte. */
  function Pending(bits: seq<bool>): (rest: seq<bool>)
    ensures |rest| == |bits| % 8
  {
    bits[|bits| - |bits| % 8..]
  }

  /** The `p` low bits. */
  function Low(val: int, p: nat): int {
    val % Pow2(p)
  }

  /** `(val >> shift) & 0xFF`, an arithmetic shift. */
  function ByteAt(val: int, shift: nat): (byte: nat)
    ensures byte < 256
  {
    val / Pow2(shift) % 256
  }

  /** The accumulator's low bits are the pending bits, and `bits` counts them from -8. */
  predicate Accumulates(digits: seq<nat>, val: int, bits: int, out: seq<nat>) {
    var all := Flatten(6, digits);
    && bits + 8 == |all| % 8
    && Low(val, |all| % 8) == Value(Pending(all))
    && out == Cut(8, all)
  }

  predicate PairCount(p: nat) {
    p == 0 || p == 2 || p == 4 || p == 6
  }

  lemma Remainder64(q: int, r: nat)
    requires r < 64
    ensures (64 * q + r) % 64 == r
  {}

  lemma Remainder256(q: int, r: nat)
    requires r < 256
    ensures (256 * q + r) % 256 == r
  {}

  lemma Remainder1024(q: int, r: nat)
    requires r < 1024
    ensures (1024 * q + r) % 1024 == r
  {}

  lemma Remainder4096(q: int, r: nat)
    requires r < 4096
    ensures (4096 * q + r) % 4096 == r
  {}

  lemma Wrapped(n: int)
    ensures WrapSigned(n) == n - (n + 0x8000_0000) / 0x1_0000_0000 * 0x1_0000_0000
  {}

  lemma ShiftedBy(v: int, val: int, digit: nat, k: int, p: nat)
    requires digit < 64 && PairCount(p) && v == val * 64 + digit + k * 4096
    ensures Low(v, p + 6) == Low(val, p) * 64 + digit
  {
    SmallPowers();
    hide Pow2;
    Remainder64(val + k * 64, digit);
    Remainder256(val / 4 + k * 16, val % 4 * 64 + digit);
    Remainder1024(val / 16 + k * 4, val % 16 * 64 + digit);
    Remainder4096(val / 64 + k, val % 64 * 64 + digit);
  }

  /** The low bits survive the shift, wrapped or not. */
  lemma ShiftedLow(val: int, digit: nat, p: nat)
    requires digit < 64 && PairCount(p)
    ensures Low(Shifted(val, digit), p + 6) == Low(val, p) * 64 + digit
  {
    Wrapped(val * 64);
    Wrapped(WrapSigned(val * 64) + digit);
    var laps := (val * 64 + 0x8000_0000) / 0x1_0000_0000 + (WrapSigned(val * 64) + digit + 0x8000_0000) / 0x1_0000_0000;
    ShiftedBy(Shifted(val, digit), val, digit, -1048576 * laps, p);
  }

  /** A whole byte on top of the pending bits. */
  lemma TopByte(val: int, byte: nat, low: nat, p: nat)
    requires byte < 256 && low < Pow2(p) && PairCount(p) && p < 6
    requires Low(val, p + 8) == byte * Pow2(p) + low
    ensures ByteAt(val, p) == byte && Low(val, p) == low
  {
    SmallPowers();
    hide Pow2;
    if p == 0 {
      assert val % 256 == byte;
    } else if p == 2 {
      assert val / 4 == 256 * (val / 1024) + byte;
      Remainder256(val / 1024, byte);
    } else {
      assert val / 16 == 256 * (val / 4096) + byte;
      Remainder256(val / 4096, byte);
    }
  }

  lemma {:induction false} FewBits(digits: seq<nat>)
    ensures PairCount(|Flatten(6, digits)| % 8)
  {}

  /** The bits after one more digit: the whole bytes before, then the pending bits and the new ones. */
  lemma CutMore(all: seq<bool>, more: seq<bool>)
    ensures Cut(8, all + more) == Cut(8, all) + Cut(8, Pending(all) + more)
  {
    var q := Pending(all);
    var k := |all| / 8;
    var base := all[..|all| - |q|];
    assert base + q == all && all + more == base + (q + more);
    CutJoin(8, base, q, k);
    CutJoin(8, base, q + more, k);
  }

  lemma PendingMore(all: seq<bool>, more: seq<bool>)
    ensures var rest := Pending(all) + more;
      |rest| < 16 ==> Pending(all + more) == if |rest| < 8 then rest else rest[8..]
  {}

  lemma ValueMore(q: seq<bool>, digit: nat)
    requires digit < 64
    ensures Value(q + Bits(6, digit)) == Value(q) * 64 + digit
  {
    SmallPowers();
    hide *;
    ValueJoin(q, Bits(6, digit));
    ValueOfBits(6, digit);
  }

  lemma Unpack(digits: seq<nat>, val: int, bits: int, out: seq<nat>)
    requires Accumulates(digits, val, bits, out)
    ensures var q := Pending(Flatten(6, digits));
      bits + 8 == |q| && PairCount(|q|) && Low(val, |q|) == Value(q) && out == Cut(8, Flatten(6, digits))
  {
    FewBits(digits);
    hide PairCount;
  }

  lemma DigitArrives(digits: seq<nat>, val: int, bits: int, out: seq<nat>, digit: nat)
    requires digit < 64 && Accumulates(digits, val, bits, out)
    ensures var val', bits' := Shifted(val, digit), bits + 6;
      if bits' >= 0 then Accumulates(digits + [digit], val', bits' - 8, out + [ByteAt(val', bits')])
      else Accumulates(digits + [digit], val', bits', out)
  {
    hide *;
    var q, val' := Pending(Flatten(6, digits)), Shifted(val, digit);
    var all, rest := Flatten(6, digits) + Bits(6, digit), q + Bits(6, digit);
    Unpack(digits, val, bits, out);
    FlattenJoin(6, digits, [digit]);
    OneWord(6, digit);
    ShiftedLow(val, digit, |q|);
    ValueMore(q, digit);
    CutMore(Flatten(6, digits), Bits(6, digit));
    PendingMore(Flatten(6, digits), Bits(6, digit));
    if |rest| < 8 {
      ShortCut(rest);
      NewState(digits + [digit], all, rest, val', bits + 6, out);
    } else {
      FirstByte(rest, val');
      NewState(digits + [digit], all, rest[8..], val', bits - 2, out + [ByteAt(val', bits + 6)]);
    }
  }

  /** A whole byte is there: it is cut off, and the accumulator yields it. */
  lemma FirstByte(rest: seq<bool>, val: int)
    requires |rest| >= 8 && PairCount(|rest| - 6) && Low(val, |rest|) == Value(rest)
    ensures Cut(8, rest) == [ByteAt(val, |rest| - 8)] && Low(val, |rest| - 8) == Value(rest[8..])
  {
    var byte, low := Value(rest[..8]), Value(rest[8..]);
    assert rest == rest[..8] + rest[8..];
    SmallPowers();
    OneCut(rest);
    ValueJoin(rest[..8], rest[8..]);
    ValueRange(rest[..8]);
    ValueRange(rest[8..]);
    hide Value;
    hide Cut;
    hide Pow2;
    hide Low;
    hide ByteAt;
    TopByte(val, byte, low, |rest| - 8);
  }

  lemma ShortCut(bits: seq<bool>)
    ensures |bits| < 8 ==> Cut(8, bits) == []
  {}

  lemma OneCut(bits: seq<bool>)
    requires 8 <= |bits| < 16
    ensures Cut(8, bits) == [Value(bits[..8])]
  {
    ShortCut(bits[8..]);
  }

  lemma NewState(digits: seq<nat>, all: seq<bool>, pending: seq<bool>, val: int, bits: int, out: seq<nat>)
    requires all == Flatten(6, digits) && pending == Pending(all) && out == Cut(8, all)
    requires bits + 8 == |pending| && Low(val, |pending|) == Value(pending)
    ensures Accumulates(digits, val, bits, out)
  {}

  /** `b64_decode`. */
  method Decode(s: seq<Octet>) returns (out: seq<Byte>)
    ensures Words(out) == Decoded(s)
  {
    hide Accumulates;
    hide Flatten;
    hide Shifted;
    hide Cut;
    hide Words;
    hide Sextets;
    hide Lookup;
    hide ByteAt;
    var table := BuildTable();
    out := [];
    NothingSeen(s);
    var val, bits := 0, -8;
    ghost var seen: seq<nat> := [];
    for i := 0 to |s|
      invariant Sextets(s) == seen + Sextets(s[i..])
      invariant forall k: nat :: k < 256 ==> table[k] == Lookup(k as char)
      invariant -8 <= bits < 0 && Accumulates(seen, val, bits, Words(out))
    {
      var c := s[i];
      SextetsStep(s, i);
      LookupRange(c);
      if c == '=' || table[c as int] == -1 {
        if c == '=' { break; } else { continue; }
      }
      DigitArrives(seen, val, bits, Words(out), table[c as int]);
      seen := seen + [table[c as int]];
      val := Shifted(val, table[c as int]);
      bits := bits + 6;
      if bits >= 0 {
        var byte := ByteAt(val, bits) as Byte;
        WordsJoin(out, byte);
        out := out + [byte];
        bits := bits - 8;
      }
    }
    assert Sextets(s) == seen;
    Finished(seen, val, bits, Words(out));
  }

  lemma NothingSeen(s: string)
    ensures Accumulates([], 0, -8, Words([])) && Sextets(s[|s|..]) == [] && s[0..] == s
  {
    assert Pow2(0) == 1;
    hide Pow2;
    assert Flatten(6, []) == [] && Words([]) == [];
  }

  lemma LookupRange(c: char)
    ensures -1 <= Lookup(c) < 64
  {}

  lemma Finished(digits: seq<nat>, val: int, bits: int, out: seq<nat>)
    requires Accumulates(digits, val, bits, out)
    ensures out == Cut(8, Flatten(6, digits))
  {}

  lemma WordsJoin(data: seq<Byte>, byte: Byte)
    ensures Words(data + [byte]) == Words(data) + [byte as nat]
  {}

  lemma SextetsStep(s: string, i: nat)
    requires i < |s|
    ensures Sextets(s[i..]) ==
      if s[i] == '=' then [] else if Lookup(s[i]) == -1 then Sextets(s[i + 1..]) else [Lookup(s[i]) as nat] + Sextets(s[i + 1..])
  {
    assert s[i..][1..] == s[i + 1..];
  }

  // ---------- The round trip ----------

  lemma {:induction false} SextetsOfChars(digits: seq<nat>, padding: string)
    requires (forall i :: 0 <= i < |digits| ==> digits[i] < 64) && (padding == "" || padding[0] == '=')
    ensures Sextets(Chars(digits) + padding) == digits
  {
    if digits == [] {
      assert Chars(digits) + padding == padding;
    } else {
      hide *;
      var first, rest := digits[0], digits[1..];
      SextetsOfChars(rest, padding);
      CharsFirst(digits, padding);
      LookupInverts(Character(first), first);
      SextetsFirst(Character(first), Chars(rest) + padding);
      assert [first] + rest == digits;
    }
  }

  lemma CharsFirst(digits: seq<nat>, padding: string)
    requires digits != [] && forall i :: 0 <= i < |digits| ==> digits[i] < 64
    ensures Chars(digits) + padding == [Character(digits[0])] + (Chars(digits[1..]) + padding)
  {
    hide Character;
  }

  lemma SextetsFirst(c: char, rest: string)
    requires c != '=' && 0 <= Lookup(c) < 64
    ensures Sextets([c] + rest) == [Lookup(c) as nat] + Sextets(rest)
  {
    hide Lookup;
    var s := [c] + rest;
    assert s[0] == c && s[1..] == rest;
  }

  /** Every byte string comes back from its encoding. */
  lemma RoundTrip(data: seq<Byte>)
    ensures Decoded(Encoded(data)) == Words(data)
  {
    var bits := Flatten(8, Words(data));
    var pad := Zeros((6 - |bits| % 6) % 6);
    var digits := Digits(data);
    var padding := seq((4 - |digits| % 4) % 4, i => '=');
    assert Encoded(data) == Chars(digits) + padding && digits == Cut(6, bits + pad);
    assert Pow2(8) == 256;
    hide Digits;
    hide Cut;
    hide Flatten;
    SextetsOfChars(digits, padding);
    PaddingIs(|data|);
    FlattenCut(6, bits + pad, 4 * (|data| / 3) + (if |data| % 3 == 0 then 0 else |data| % 3 + 1));
    CutFlatten(8, Words(data), pad);
  }
}
