/** Little-endian 32-bit numbers, and the token ids sent in that form
    (crates/ainonymous-daemon/src/conductor.rs). */
module LittleEndian {
  import opened Prelude

  function Le32(n: nat): (bytes: seq<Byte>)
    requires n < TWO32
    ensures |bytes| == 4
  {
    [(n % 256) as Byte, (n / 256 % 256) as Byte, (n / 65536 % 256) as Byte, (n / 16777216) as Byte]
  }

  function FromLe32(bytes: seq<Byte>): (n: nat)
    requires |bytes| == 4
    ensures n < TWO32
  {
    bytes[0] as nat + 256 * bytes[1] as nat + 65536 * bytes[2] as nat + 16777216 * bytes[3] as nat
  }

  lemma Le32Back(n: nat)
    requires n < TWO32
    ensures FromLe32(Le32(n)) == n
  {
    assert n / 65536 == n / 256 / 256 && n / 16777216 == n / 256 / 256 / 256;
  }

  lemma FromLe32Back(bytes: seq<Byte>)
    requires |bytes| == 4
    ensures Le32(FromLe32(bytes)) == bytes
  {
    var n := FromLe32(bytes);
    var n3 := bytes[3] as nat;
    var n2 := bytes[2] as nat + 256 * n3;
    var n1 := bytes[1] as nat + 256 * n2;
    assert n == bytes[0] as nat + 256 * n1;
    LowByte(bytes[0], n1);
    LowByte(bytes[1], n2);
    LowByte(bytes[2], n3);
    assert n / 65536 == n / 256 / 256 && n / 16777216 == n / 256 / 256 / 256;
  }

  lemma LowByte(b: Byte, rest: nat)
    ensures (b as nat + 256 * rest) % 256 == b as nat && (b as nat + 256 * rest) / 256 == rest
  {}

  // ---------- Token ids ----------

  type Int32 = x: int | -0x8000_0000 <= x < 0x8000_0000

  /** An `i32` as the four bytes of its two's complement. */
  function SignedBytes(x: Int32): (bytes: seq<Byte>)
    ensures |bytes| == 4
  {
    Le32(if x < 0 then x + TWO32 else x)
  }

  function SignedFrom(bytes: seq<Byte>): Int32
    requires |bytes| == 4
  {
    var n := FromLe32(bytes);
    if n < 0x8000_0000 then n else n - TWO32
  }

  function TokenBytes(ids: seq<Int32>): (bytes: seq<Byte>)
    ensures |bytes| == 4 * |ids|
  {
    if ids == [] then [] else TokenBytes(ids[..|ids| - 1]) + SignedBytes(ids[|ids| - 1])
  }

  /** `token_ids_to_bytes`. */
  method TokenIdsToBytes(ids: seq<Int32>) returns (bytes: seq<Byte>)
    ensures bytes == TokenBytes(ids)
  {
    hide SignedBytes;
    bytes := [];
    for i := 0 to |ids|
      invariant bytes == TokenBytes(ids[..i])
    {
      assert ids[..i + 1][..i] == ids[..i];
      bytes := bytes + SignedBytes(ids[i]);
    }
    assert ids[..|ids|] == ids;
  }

  /** `parse_token_ids_from_activations`: a ragged length yields no tokens at all. */
  function ParseTokenIds(raw: seq<Byte>): (ids: seq<Int32>) {
    if |raw| % 4 != 0 then []
    else seq(|raw| / 4, i requires 0 <= i < |raw| / 4 => SignedFrom(raw[4 * i..4 * i + 4]))
  }

  lemma SignedBack(x: Int32)
    ensures SignedFrom(SignedBytes(x)) == x
  {
    hide Le32;
    hide FromLe32;
    Le32Back(if x < 0 then x + TWO32 else x);
  }

  lemma SignedFromBack(bytes: seq<Byte>)
    requires |bytes| == 4
    ensures SignedBytes(SignedFrom(bytes)) == bytes
  {
    hide Le32;
    hide FromLe32;
    FromLe32Back(bytes);
  }

  /** The tokens of all but the last four bytes, then the last. */
  lemma ParseSnoc(front: seq<Byte>, last: seq<Byte>)
    requires |front| % 4 == 0 && |last| == 4
    ensures ParseTokenIds(front + last) == ParseTokenIds(front) + [SignedFrom(last)]
  {
    hide SignedFrom;
    var raw, k := front + last, |front| / 4;
    assert raw[4 * k..4 * k + 4] == last;
    forall i: nat | i < k ensures raw[4 * i..4 * i + 4] == front[4 * i..4 * i + 4] {}
  }

  lemma {:induction false} TokensRoundTrip(ids: seq<Int32>)
    ensures ParseTokenIds(TokenBytes(ids)) == ids
  {
    if ids == [] {
      NoTokens();
    } else {
      var front, last := ids[..|ids| - 1], ids[|ids| - 1];
      assert TokenBytes(ids) == TokenBytes(front) + SignedBytes(last);
      hide *;
      TokensRoundTrip(front);
      SignedBack(last);
      ParseSnoc(TokenBytes(front), SignedBytes(last));
      assert ids == front + [last];
    }
  }

  lemma NoTokens()
    ensures TokenBytes([]) == [] && ParseTokenIds([]) == []
  {}

  /** The bytes come back from the tokens exactly when they are whole tokens. */
  lemma {:induction false} BytesRoundTrip(raw: seq<Byte>)
    ensures TokenBytes(ParseTokenIds(raw)) == raw <==> |raw| % 4 == 0
    decreases |raw|
  {
    if raw == [] {
      NoTokens();
    } else if |raw| % 4 == 0 {
      hide *;
      var front, last := raw[..|raw| - 4], raw[|raw| - 4..];
      assert front + last == raw;
      BytesRoundTrip(front);
      ParseSnoc(front, last);
      SignedFromBack(last);
      TokenBytesSnoc(ParseTokenIds(front), SignedFrom(last));
    }
  }

  lemma TokenBytesSnoc(ids: seq<Int32>, id: Int32)
    ensures TokenBytes(ids + [id]) == TokenBytes(ids) + SignedBytes(id)
  {
    assert (ids + [id])[..|ids|] == ids;
  }
}
