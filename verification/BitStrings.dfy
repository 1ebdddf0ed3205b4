/** Bit strings, most significant bit first: numbers as bits, words of a fixed width laid end to end,
    and a bit string cut into such words. */
module BitStrings {

  function Pow2(n: nat): (r: nat)
    ensures r > 0
  {
    if n == 0 then 1 else 2 * Pow2(n - 1)
  }

  function Bits(w: nat, n: nat): (s: seq<bool>)
    ensures |s| == w
  {
    if w == 0 then [] else Bits(w - 1, n / 2) + [n % 2 == 1]
  }

  function Value(bits: seq<bool>): nat {
    if bits == [] then 0
    else 2 * Value(bits[..|bits| - 1]) + (if bits[|bits| - 1] then 1 else 0)
  }

  /** The words of `w` bits, end to end. */
  function Flatten(w: nat, words: seq<nat>): (s: seq<bool>)
    ensures |s| == w * |words|
  {
    if words == [] then [] else Bits(w, words[0]) + Flatten(w, words[1..])
  }

  /** Cut into words of `w` bits; a shorter rest is dropped. */
  function Cut(w: nat, bits: seq<bool>): seq<nat>
    requires w > 0
  {
    if |bits| < w then [] else [Value(bits[..w])] + Cut(w, bits[w..])
  }

  function Zeros(n: nat): seq<bool> {
    seq(n, i => false)
  }

  lemma {:induction false} CutRange(w: nat, bits: seq<bool>)
    requires w > 0
    ensures forall i :: 0 <= i < |Cut(w, bits)| ==> Cut(w, bits)[i] < Pow2(w)
    ensures w == 6 ==> forall i :: 0 <= i < |Cut(w, bits)| ==> Cut(w, bits)[i] < 64
    decreases |bits|
  {
    if |bits| >= w {
      ValueRange(bits[..w]);
      CutRange(w, bits[w..]);
      assert Pow2(6) == 64;
    }
  }

  lemma {:induction false} ValueRange(bits: seq<bool>)
    ensures Value(bits) < Pow2(|bits|)
  {
    if bits == [] {
    } else {
      ValueRange(bits[..|bits| - 1]);
    }
  }

  lemma {:induction false} ValueOfBits(w: nat, n: nat)
    requires n < Pow2(w)
    ensures Value(Bits(w, n)) == n
  {
    if w == 0 {
    } else {
      ValueOfBits(w - 1, n / 2);
      assert Bits(w, n)[..w - 1] == Bits(w - 1, n / 2);
    }
  }

  lemma {:induction false} ValueJoin(a: seq<bool>, b: seq<bool>)
    ensures Value(a + b) == Value(a) * Pow2(|b|) + Value(b)
    decreases |b|
  {
    if b == [] {
      assert a + b == a;
    } else {
      assert (a + b)[..|a + b| - 1] == a + b[..|b| - 1];
      ValueJoin(a, b[..|b| - 1]);
      assert Pow2(|b|) == 2 * Pow2(|b| - 1);
      hide Pow2;
      Doubled(Value(a), Pow2(|b| - 1));
    }
  }

  lemma {:induction false} BitsJoin(w: nat, hi: nat, v: nat, lo: nat)
    requires lo < Pow2(v)
    ensures Bits(w + v, hi * Pow2(v) + lo) == Bits(w, hi) + Bits(v, lo)
  {
    if v == 0 {
    } else {
      var n, half := hi * Pow2(v) + lo, hi * Pow2(v - 1);
      assert Pow2(v) == 2 * Pow2(v - 1);
      hide Pow2;
      Doubled(hi, Pow2(v - 1));
      assert n == 2 * half + lo;
      assert n / 2 == half + lo / 2 && n % 2 == lo % 2;
      BitsJoin(w, hi, v - 1, lo / 2);
      assert Bits(w + v, n) == Bits(w + v - 1, n / 2) + [n % 2 == 1];
    }
  }

  lemma Doubled(a: nat, p: nat)
    ensures a * (2 * p) == 2 * (a * p)
  {}

  /** Cutting at a word boundary first changes nothing. */
  lemma {:induction false} CutJoin(w: nat, a: seq<bool>, b: seq<bool>, k: nat)
    requires w > 0 && |a| == k * w
    ensures Cut(w, a + b) == Cut(w, a) + Cut(w, b)
    decreases k
  {
    if k == 0 {
      assert a + b == b;
    } else {
      OneWordLess(k, w);
      assert (a + b)[..w] == a[..w] && (a + b)[w..] == a[w..] + b;
      CutFirst(w, a);
      CutFirst(w, a + b);
      hide *;
      CutJoin(w, a[w..], b, k - 1);
    }
  }

  lemma {:induction false} FlattenJoin(w: nat, a: seq<nat>, b: seq<nat>)
    ensures Flatten(w, a + b) == Flatten(w, a) + Flatten(w, b)
    decreases |a|
  {
    if a == [] {
      assert a + b == b;
    } else {
      assert (a + b)[0] == a[0] && (a + b)[1..] == a[1..] + b;
      FlattenJoin(w, a[1..], b);
    }
  }

  /** Words laid end to end and cut again are the words. */
  lemma {:induction false} CutFlatten(w: nat, words: seq<nat>, rest: seq<bool>)
    requires w > 0 && |rest| < w && forall i :: 0 <= i < |words| ==> words[i] < Pow2(w)
    ensures Cut(w, Flatten(w, words) + rest) == words
    decreases |words|
  {
    var bits := Flatten(w, words) + rest;
    if words == [] {
      assert bits == rest;
    } else {
      assert bits[..w] == Bits(w, words[0]);
      assert bits[w..] == Flatten(w, words[1..]) + rest;
      ValueOfBits(w, words[0]);
      CutFlatten(w, words[1..], rest);
    }
  }

  lemma {:induction false} BitsOfValue(bits: seq<bool>)
    ensures Bits(|bits|, Value(bits)) == bits
  {
    if bits == [] {
    } else {
      BitsOfValue(bits[..|bits| - 1]);
    }
  }

  /** Bits cut into whole words and laid end to end again are the bits. */
  lemma {:induction false} FlattenCut(w: nat, bits: seq<bool>, k: nat)
    requires w > 0 && |bits| == k * w
    ensures Flatten(w, Cut(w, bits)) == bits
    decreases k
  {
    if k == 0 {
    } else {
      OneWordLess(k, w);
      BitsOfValue(bits[..w]);
      CutFirst(w, bits);
      hide *;
      FlattenCut(w, bits[w..], k - 1);
      FlattenFirst(w, Value(bits[..w]), Cut(w, bits[w..]));
      assert bits[..w] + bits[w..] == bits;
    }
  }

  lemma OneWordLess(k: nat, w: nat)
    requires k > 0
    ensures k * w == (k - 1) * w + w && (k - 1) * w >= 0
  {}

  lemma CutFirst(w: nat, bits: seq<bool>)
    requires 0 < w <= |bits|
    ensures Cut(w, bits) == [Value(bits[..w])] + Cut(w, bits[w..])
  {}

  lemma FlattenFirst(w: nat, word: nat, rest: seq<nat>)
    ensures Flatten(w, [word] + rest) == Bits(w, word) + Flatten(w, rest)
  {
    assert ([word] + rest)[0] == word && ([word] + rest)[1..] == rest;
  }

  /** Words laid end to end are the bits of one number. */
  lemma OneMoreWord(w: nat, words: seq<nat>, last: nat, n: nat, scale: nat)
    requires scale == Pow2(w) && last < scale && Flatten(w, words) == Bits(w * |words|, n)
    ensures Flatten(w, words + [last]) == Bits(w * |words| + w, n * scale + last)
  {
    FlattenJoin(w, words, [last]);
    OneWord(w, last);
    BitsJoin(w * |words|, n, w, last);
  }

  lemma OneWord(w: nat, a: nat)
    ensures Flatten(w, [a]) == Bits(w, a)
  {
    assert [a][1..] == [];
    assert Flatten(w, [a]) == Bits(w, a) + Flatten(w, []);
  }

  lemma CutWords(w: nat, words: seq<nat>)
    requires w > 0 && forall i :: 0 <= i < |words| ==> words[i] < Pow2(w)
    ensures Cut(w, Flatten(w, words)) == words
  {
    assert Flatten(w, words) + [] == Flatten(w, words);
    CutFlatten(w, words, []);
  }

  lemma SmallPowers()
    ensures Pow2(0) == 1 && Pow2(2) == 4 && Pow2(4) == 16 && Pow2(6) == 64 && Pow2(8) == 256
    ensures Pow2(10) == 1024 && Pow2(12) == 4096
  {}

  lemma {:induction false} ZeroBits(w: nat)
    ensures Bits(w, 0) == Zeros(w)
  {
    if w == 0 {
    } else {
      ZeroBits(w - 1);
    }
  }

  lemma Padded(w: nat, n: nat, v: nat, scale: nat)
    requires scale == Pow2(v)
    ensures Bits(w, n) + Zeros(v) == Bits(w + v, n * scale)
  {
    ZeroBits(v);
    BitsJoin(w, n, v, 0);
  }
}
