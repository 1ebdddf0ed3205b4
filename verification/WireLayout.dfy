/** Where each byte goes on the wire: token ids (crates/ainonymous-daemon/src/conductor.rs), packed tensors
    and their chunks (examples/pytorch/ainonymous_torch/activation_transfer.py). */
module WireLayout {
  import opened LittleEndian
  import opened Prelude
  import opened TensorTransfer

  /** The number in the four bytes from `i` on, the lowest byte first. */
  function NumberAt(bytes: seq<Byte>, i: nat): nat
    requires i + 4 <= |bytes|
  {
    bytes[i] as nat + 0x100 * bytes[i + 1] as nat + 0x1_0000 * bytes[i + 2] as nat + 0x100_0000 * bytes[i + 3] as nat
  }

  lemma NumberIs(bytes: seq<Byte>, i: nat)
    requires i + 4 <= |bytes|
    ensures NumberAt(bytes, i) == FromLe32(bytes[i..i + 4])
  {}

  /** The four bytes from `i` on are the number's. */
  lemma Le32At(bytes: seq<Byte>, i: nat, n: nat)
    requires i + 4 <= |bytes| && n < TWO32
    ensures bytes[i..i + 4] == Le32(n) <==> NumberAt(bytes, i) == n
  {
    NumberIs(bytes, i);
    Le32Back(n);
    FromLe32Back(bytes[i..i + 4]);
    hide Le32;
    hide FromLe32;
    hide NumberAt;
  }

  // ---------- Token ids ----------

  /** Token `i` is at `4 * i`, a negative one as its two's complement. */
  lemma {:induction false} TokenAt(ids: seq<Int32>, i: nat)
    requires i < |ids|
    ensures ids[i] >= 0 ==> NumberAt(TokenBytes(ids), 4 * i) == ids[i]
    ensures ids[i] < 0 ==> NumberAt(TokenBytes(ids), 4 * i) - 0x1_0000_0000 == ids[i]
  {
    var bytes, last := TokenBytes(ids), |ids| - 1;
    if i < last {
      TokenAt(ids[..last], i);
    } else {
      var n: nat := if ids[i] < 0 then ids[i] + TWO32 else ids[i];
      assert bytes[4 * i..4 * i + 4] == Le32(n);
      hide Le32;
      Le32At(bytes, 4 * i, n);
    }
  }

  // ---------- Tensors ----------

  /** The number a type has on the wire. */
  predicate HasNumber(dtype: Dtype, id: int) {
    match dtype
    case Float32 => id == 0
    case Float16 => id == 1
    case BFloat16 => id == 2
    case Int8 => id == 3
    case Int32 => id == 4
    case Int64 => id == 5
    case Unsupported => false
  }

  lemma {:induction false} DimsAt(shape: seq<nat>, i: nat)
    requires i < |shape| && forall k :: 0 <= k < |shape| ==> shape[k] < TWO32
    ensures NumberAt(Dims(shape), 4 * i) == shape[i]
  {
    var last := |shape| - 1;
    if i < last {
      DimsAt(shape[..last], i);
    } else {
      assert Dims(shape)[4 * i..4 * i + 4] == Le32(shape[i]);
      hide Le32;
      Le32At(Dims(shape), 4 * i, shape[i]);
    }
  }

  /** The bytes are this header: the magic number, the type's number, the number of dimensions, and each of
      them. */
  ghost predicate IsHeader(bytes: seq<Byte>, dtype: Dtype, shape: seq<nat>) {
    && |bytes| == 6 + 4 * |shape|
    && bytes[0] == 0xC0 && bytes[1] == 0xC1 && bytes[2] == 0xA0 && bytes[3] == 0xA1
    && HasNumber(dtype, bytes[4] as int) && bytes[5] as int == |shape|
    && forall i :: 0 <= i < |shape| ==> NumberAt(bytes, 6 + 4 * i) == shape[i]
  }

  lemma HeaderLayout(dtype: Dtype, shape: seq<nat>)
    requires FitsHeader(shape) && DtypeId(dtype).Some?
    ensures IsHeader(Header(DtypeId(dtype).value, shape), dtype, shape)
  {
    var dims, bytes := Dims(shape), Header(DtypeId(dtype).value, shape);
    forall i | 0 <= i < |shape| ensures NumberAt(bytes, 6 + 4 * i) == shape[i] {
      DimsAt(shape, i);
      assert bytes[6..][4 * i..4 * i + 4] == dims[4 * i..4 * i + 4];
      NumberIs(bytes, 6 + 4 * i);
      NumberIs(dims, 4 * i);
    }
  }

  /** A tensor packs exactly if its type has a number and its dimensions fit, to that header and its data. */
  lemma PackedExactly(t: Tensor)
    ensures Packed(t).Ok? <==> t.dtype != Unsupported && |t.shape| <= 255
                               && forall i :: 0 <= i < |t.shape| ==> t.shape[i] <= 0xFFFF_FFFF
    ensures Packed(t) == Err(UnsupportedDtype) <==> t.dtype == Unsupported
    ensures Packed(t).Ok? ==> var bytes, n := Packed(t).value, 6 + 4 * |t.shape|;
      |bytes| == n + |t.data| && IsHeader(bytes[..n], t.dtype, t.shape) && bytes[n..] == t.data
  {
    if Packed(t).Ok? {
      HeaderLayout(t.dtype, t.shape);
      var header := Header(DtypeId(t.dtype).value, t.shape);
      assert (header + t.data)[..|header|] == header;
    }
    hide Header;
  }

  /** The bytes of one element. */
  function Width(dtype: Dtype): (n: nat)
    requires dtype != Unsupported
  {
    match dtype
    case Float32 => 4
    case Int32 => 4
    case Int64 => 8
    case Int8 => 1
    case Float16 => 2
    case BFloat16 => 2
  }

  /** What unpacks has the data its dimensions call for. */
  lemma UnpackedFills(data: seq<Byte>)
    requires Unpacked(data).Ok?
    ensures var t := Unpacked(data).value;
      && t.dtype != Unsupported
      && (t.shape == [] ==> |t.data| == Width(t.dtype))
      && (|t.shape| == 1 ==> |t.data| == t.shape[0] * Width(t.dtype))
      && (|t.shape| == 2 ==> |t.data| == t.shape[0] * t.shape[1] * Width(t.dtype))
  {
    hide *;
    PackUnpacked(data);
    var t := Unpacked(data).value;
    PackedExactly(t);
    ProductIs(t.shape);
    DataSize(t);
  }

  lemma DataSize(t: Tensor)
    requires Valid(t) && t.dtype != Unsupported
    ensures |t.data| == Product(t.shape) * Width(t.dtype)
  {
    hide Product;
  }

  lemma ProductIs(shape: seq<nat>)
    ensures shape == [] ==> Product(shape) == 1
    ensures |shape| == 1 ==> Product(shape) == shape[0]
    ensures |shape| == 2 ==> Product(shape) == shape[0] * shape[1]
  {
    if |shape| == 1 { assert shape[1..] == []; }
    if |shape| == 2 { assert shape[1..] == [shape[1]] && [shape[1]][1..] == []; }
  }

  /** The bytes begin with a header: the magic number, a known type, and all the dimensions announced. */
  ghost predicate HasHeader(data: seq<Byte>) {
    |data| >= 6 && NumberAt(data, 0) == 0xA1A0C1C0 && data[4] <= 5 && |data| >= 6 + 4 * data[5] as nat
  }

  /** Why bytes do not unpack: they break off in the header, the magic number or the type is wrong, there is
      no data, or the data is not what the dimensions call for. */
  lemma UnpackFailsExactly(data: seq<Byte>)
    ensures var r := Unpacked(data);
      && (r == Err(BadMagic) <==> |data| >= 4 && NumberAt(data, 0) != 0xA1A0C1C0)
      && (r == Err(UnknownDtypeId) <==> |data| >= 5 && NumberAt(data, 0) == 0xA1A0C1C0 && data[4] > 5)
      && (r == Err(Truncated) <==>
            || |data| < 4
            || (NumberAt(data, 0) == 0xA1A0C1C0
                && (|data| == 4 || (data[4] <= 5 && (|data| == 5 || |data| < 6 + 4 * data[5] as nat)))))
      && (r == Err(EmptyBuffer) <==> HasHeader(data) && |data| == 6 + 4 * data[5] as nat)
      && (r.Ok? || r == Err(RaggedBuffer) || r == Err(WrongSize) <==> HasHeader(data) && |data| > 6 + 4 * data[5] as nat)
  {
    if |data| >= 4 { NumberIs(data, 0); }
    hide NumberAt;
    hide FromLe32;
    hide ReadDims;
    hide Product;
  }

  // ---------- Chunks ----------

  /** The rows a chunk holds: as many as the limit is of the whole, at least one. */
  function RowsPerChunk(t: Tensor, limit: int): (rows: nat)
    requires t.shape != []
    ensures rows > 0
  {
    var rows := t.shape[0] * limit / (6 + 4 * |t.shape| + |t.data|);
    if rows < 1 then 1 else rows
  }

  lemma {:induction false} SliceAt(t: Tensor, i: nat, size: nat, k: nat)
    requires Valid(t) && t.shape != [] && size > 0 && i <= t.shape[0]
    ensures k < |Slices(t, i, size)| <==> i + k * size < t.shape[0]
    ensures i + k * size < t.shape[0] ==>
      Slices(t, i, size)[k] == Rows(t, i + k * size, Min(i + k * size + size, t.shape[0]))
    decreases k
  {
    hide Rows;
    if k > 0 {
      assert k * size == (k - 1) * size + size && (k - 1) * size >= 0;
      if i + size <= t.shape[0] {
        SliceAt(t, i + size, size, k - 1);
      }
    }
  }

  lemma {:induction false} PackAllAt(tensors: seq<Tensor>, k: nat)
    requires PackAll(tensors).Ok? && k < |tensors|
    ensures k < |PackAll(tensors).value| && Packed(tensors[k]) == Ok(PackAll(tensors).value[k])
  {
    hide Packed;
    if k > 0 { PackAllAt(tensors[1..], k - 1); }
  }

  lemma {:induction false} PackAllLength(tensors: seq<Tensor>)
    requires PackAll(tensors).Ok?
    ensures |PackAll(tensors).value| == |tensors|
  {
    hide Packed;
    if tensors == [] {
    } else {
      PackAllLength(tensors[1..]);
    }
  }

  /** The chunk is the packed tensor of the rows from `i` to `j`, each of `row` bytes. */
  ghost predicate IsChunk(t: Tensor, row: nat, i: nat, j: nat, chunk: seq<Byte>)
    requires t.shape != []
  {
    && i <= j && i * row <= j * row <= |t.data|
    && Packed(Tensor(t.dtype, [j - i] + t.shape[1..], t.data[i * row..j * row])) == Ok(chunk)
  }

  /** A tensor over the limit is split into chunks of so many rows each, the last one of what is left, in
      order. */
  lemma ChunkAt(t: Tensor, limit: int, row: nat, k: nat, i: nat)
    requires Valid(t) && t.shape != [] && Packed(t).Ok? && SplitOf(t, limit).Ok? && |Packed(t).value| > limit
    requires t.shape[0] * row == |t.data| && t.shape[0] > 0 && i == k * RowsPerChunk(t, limit)
    ensures var n, rows := t.shape[0], RowsPerChunk(t, limit);
      && (k < |SplitOf(t, limit).value| <==> i < n)
      && (i < n ==> IsChunk(t, row, i, if i + rows < n then i + rows else n, SplitOf(t, limit).value[k]))
  {
    hide *;
    SplitIs(t, limit);
    RowIs(t, row);
    SliceChunk(t, RowsPerChunk(t, limit), row, k, i, SplitOf(t, limit).value);
  }

  lemma SliceChunk(t: Tensor, rows: nat, row: nat, k: nat, i: nat, chunks: seq<seq<Byte>>)
    requires Valid(t) && t.shape != [] && rows > 0 && row == RowBytes(t) && i == k * rows
    requires PackAll(Slices(t, 0, rows)) == Ok(chunks)
    ensures k < |chunks| <==> i < t.shape[0]
    ensures i < t.shape[0] ==> IsChunk(t, row, i, if i + rows < t.shape[0] then i + rows else t.shape[0], chunks[k])
  {
    hide *;
    var slices, n := Slices(t, 0, rows), t.shape[0];
    SliceAt(t, 0, rows, k);
    PackAllLength(slices);
    MinIs(i + rows, n);
    if i < n {
      PackAllAt(slices, k);
      RowsChunk(t, i, Min(i + rows, n), row, chunks[k]);
    }
  }

  lemma RowIs(t: Tensor, row: nat)
    requires Valid(t) && t.shape != [] && t.shape[0] > 0 && t.shape[0] * row == |t.data|
    ensures row == RowBytes(t)
  {
    RowsFill(t);
    hide RowBytes;
    SameRow(t.shape[0], row, RowBytes(t));
  }

  lemma RowsChunk(t: Tensor, i: nat, j: nat, row: nat, chunk: seq<Byte>)
    requires Valid(t) && t.shape != [] && i <= j <= t.shape[0] && row == RowBytes(t)
    requires Packed(Rows(t, i, j)) == Ok(chunk)
    ensures IsChunk(t, row, i, j, chunk)
  {
    RowsAre(t, i, j, row);
    hide Packed;
    hide Rows;
  }

  lemma MinIs(a: nat, b: nat)
    ensures Min(a, b) == if a < b then a else b
  {}

  lemma SplitIs(t: Tensor, limit: int)
    requires Valid(t) && t.shape != [] && Packed(t).Ok? && |Packed(t).value| > limit
    ensures SplitOf(t, limit) == PackAll(Slices(t, 0, RowsPerChunk(t, limit)))
  {
    PackedExactly(t);
    hide Packed;
    hide Slices;
    hide PackAll;
  }

  lemma SameRow(n: nat, a: nat, b: nat)
    requires n > 0 && n * a == n * b
    ensures a == b
  {
    assert n * (a - b) == 0;
  }

  lemma RowsAre(t: Tensor, i: nat, j: nat, row: nat)
    requires Valid(t) && t.shape != [] && i <= j <= t.shape[0] && row == RowBytes(t)
    ensures i * row <= j * row <= |t.data|
    ensures Rows(t, i, j) == Tensor(t.dtype, [j - i] + t.shape[1..], t.data[i * row..j * row])
  {
    RowsFill(t);
    RowWithin(t.shape[0], j, row);
    RowWithin(j, i, row);
  }

  lemma ChunkSize(t: Tensor, row: nat, i: nat, j: nat, chunk: seq<Byte>)
    requires t.shape != [] && IsChunk(t, row, i, j, chunk)
    ensures |chunk| == 6 + 4 * |t.shape| + (j - i) * row
  {
    PackedExactly(Tensor(t.dtype, [j - i] + t.shape[1..], t.data[i * row..j * row]));
    hide Packed;
    Factors(j, i, row);
  }

  lemma AtMostAll(n: nat, limit: int, len: nat)
    requires n > 0 && len > 0 && limit < len
    ensures n * limit / len < n
  {
    Less(n, limit, len);
    QuotientBelow(n * limit, n, len);
  }

  lemma Less(n: nat, a: int, b: int)
    requires n > 0 && a < b
    ensures n * a < n * b
  {}

  lemma QuotientBelow(a: int, n: nat, len: nat)
    requires len > 0 && a < n * len
    ensures a / len < n
  {}

  /** The documentation promises chunks within the limit. It holds exactly when the header and the rows of
      one chunk are. */
  lemma WithinLimitExactly(t: Tensor, limit: int, row: nat)
    requires Valid(t) && t.shape != [] && t.shape[0] > 0 && t.shape[0] * row == |t.data|
    requires Packed(t).Ok? && |Packed(t).value| > limit
    ensures SplitOf(t, limit).Ok?
    ensures (forall chunk :: chunk in SplitOf(t, limit).value ==> |chunk| <= limit) <==>
      6 + 4 * |t.shape| + RowsPerChunk(t, limit) * row <= limit
  {
    hide *;
    var rows := RowsPerChunk(t, limit);
    SplitWorks(t, limit);
    RowsAtMost(t, limit);
    var chunks := SplitOf(t, limit).value;
    ChunkAt(t, limit, row, 0, 0);
    ChunkSize(t, row, 0, if rows < t.shape[0] then rows else t.shape[0], chunks[0]);
    if 6 + 4 * |t.shape| + rows * row <= limit {
      forall k: nat | k < |chunks| ensures |chunks[k]| <= limit {
        SmallChunk(t, limit, row, k);
      }
    }
  }

  lemma SmallChunk(t: Tensor, limit: int, row: nat, k: nat)
    requires Valid(t) && t.shape != [] && t.shape[0] > 0 && t.shape[0] * row == |t.data|
    requires Packed(t).Ok? && |Packed(t).value| > limit && SplitOf(t, limit).Ok? && k < |SplitOf(t, limit).value|
    ensures |SplitOf(t, limit).value[k]| <= 6 + 4 * |t.shape| + RowsPerChunk(t, limit) * row
  {
    hide *;
    var n, rows := t.shape[0], RowsPerChunk(t, limit);
    var i := k * rows;
    ChunkAt(t, limit, row, k, i);
    var j := if i + rows < n then i + rows else n;
    ChunkSize(t, row, i, j, SplitOf(t, limit).value[k]);
    RowWithin(rows, j - i, row);
  }

  lemma RowsAtMost(t: Tensor, limit: int)
    requires t.shape != [] && t.shape[0] > 0 && Packed(t).Ok? && |Packed(t).value| > limit
    ensures RowsPerChunk(t, limit) <= t.shape[0]
  {
    PackedExactly(t);
    hide Packed;
    AtMostAll(t.shape[0], limit, |Packed(t).value|);
  }

  lemma SplitWorks(t: Tensor, limit: int)
    requires Valid(t) && t.shape != [] && Packed(t).Ok? && |Packed(t).value| > limit
    ensures SplitOf(t, limit).Ok?
  {
    SplitIs(t, limit);
    var rows := RowsPerChunk(t, limit);
    AllSlices(t, 0, rows);
    PackedSizes(t, Slices(t, 0, rows), rows);
    hide *;
  }

  const HUNDRED_ROWS := Tensor(Int8, [100], seq(100, i => 0))

  lemma HundredRows()
    ensures var t := HUNDRED_ROWS;
      Valid(t) && t.shape == [100] && |t.data| == 100 && Packed(t).Ok? && |Packed(t).value| == 110 && RowsPerChunk(t, 12) == 10
  {
    ProductIs([100]);
    PackedExactly(HUNDRED_ROWS);
    hide Packed;
    hide Product;
  }

  /** A hundred rows of one byte, split for a limit of 12: the chunks hold ten rows and a header of ten
      bytes. */
  lemma ChunkOverLimit()
    ensures var t := HUNDRED_ROWS;
      && Valid(t) && Packed(t).Ok? && SplitOf(t, 12).Ok?
      && exists chunk :: chunk in SplitOf(t, 12).value && |chunk| > 12
  {
    hide *;
    HundredRows();
    WithinLimitExactly(HUNDRED_ROWS, 12, 1);
  }

  // ---------- Concatenation ----------

  function RowCount(tensors: seq<Tensor>): nat
    requires forall k :: 0 <= k < |tensors| ==> tensors[k].shape != []
  {
    if tensors == [] then 0 else RowCount(tensors[..|tensors| - 1]) + tensors[|tensors| - 1].shape[0]
  }

  function AllData(tensors: seq<Tensor>): seq<Byte> {
    if tensors == [] then [] else AllData(tensors[..|tensors| - 1]) + tensors[|tensors| - 1].data
  }

  /** One type, at least one dimension each, and rows of the same shape. */
  predicate Fit(tensors: seq<Tensor>) {
    && (forall k :: 0 <= k < |tensors| ==> tensors[k].shape != [])
    && forall k :: 0 <= k < |tensors| ==>
         tensors[k].dtype == tensors[0].dtype && tensors[k].shape[1..] == tensors[0].shape[1..]
  }

  lemma {:induction false} AllFirst(tensors: seq<Tensor>)
    requires tensors != [] && forall k :: 0 <= k < |tensors| ==> tensors[k].shape != []
    ensures RowCount(tensors) == tensors[0].shape[0] + RowCount(tensors[1..])
    ensures AllData(tensors) == tensors[0].data + AllData(tensors[1..])
  {
    var front, last := tensors[..|tensors| - 1], tensors[|tensors| - 1];
    if front != [] {
      AllFirst(front);
      assert tensors[1..][..|tensors| - 2] == front[1..];
    }
  }

  /** Tensors are concatenated exactly when they fit; the result has all their rows, in order. */
  lemma {:induction false} CatExactly(tensors: seq<Tensor>)
    requires tensors != []
    ensures Cat(tensors).Ok? <==> Fit(tensors)
    ensures Fit(tensors) ==>
      Cat(tensors).value == Tensor(tensors[0].dtype, [RowCount(tensors)] + tensors[0].shape[1..], AllData(tensors))
  {
    var first, rest := tensors[0], tensors[1..];
    if first.shape != [] && rest != [] {
      CatExactly(rest);
      FitFirst(tensors);
      hide Fit;
      if Fit(tensors) {
        FitShapes(tensors);
        AllFirst(tensors);
      }
    } else if first.shape != [] {
      assert RowCount(tensors) == first.shape[0] && AllData(tensors) == first.data;
      assert [first.shape[0]] + first.shape[1..] == first.shape;
    }
  }

  lemma FitShapes(tensors: seq<Tensor>)
    requires Fit(tensors)
    ensures forall k :: 0 <= k < |tensors| ==> tensors[k].shape != []
  {}

  lemma FitFirst(tensors: seq<Tensor>)
    requires |tensors| > 1 && tensors[0].shape != []
    ensures var second := tensors[1];
      Fit(tensors) <==>
        Fit(tensors[1..]) && second.shape != [] && second.dtype == tensors[0].dtype && second.shape[1..] == tensors[0].shape[1..]
  {
    assert forall k :: 0 < k < |tensors| ==> tensors[k] == tensors[1..][k - 1];
  }

  /** Chunks that all unpack are concatenated, and all their bytes counted. */
  lemma {:induction false} MergesAll(chunks: seq<seq<Byte>>, tensors: seq<Tensor>)
    requires |tensors| == |chunks| && forall k :: 0 <= k < |chunks| ==> Unpacked(chunks[k]) == Ok(tensors[k])
    ensures UnpackAll(chunks) == Ok(tensors) && Received(chunks) == Total(chunks)
    ensures chunks != [] ==> MergeOf(chunks) == Cat(tensors)
    ensures chunks == [] ==> MergeOf(chunks) == Err(NoChunks)
  {
    hide Unpacked;
    hide Cat;
    if chunks == [] {
    } else {
      MergesAll(chunks[1..], tensors[1..]);
      TotalFirst(chunks);
      PrependTo(tensors);
    }
  }

  /** The first chunk that does not unpack ends the merge with its error; it is still counted. */
  lemma {:induction false} MergeFails(chunks: seq<seq<Byte>>, k: nat, e: TransferError)
    requires k < |chunks| && Unpacked(chunks[k]) == Err(e)
    requires forall j :: 0 <= j < k ==> Unpacked(chunks[j]).Ok?
    ensures UnpackAll(chunks) == Err(e) && MergeOf(chunks) == Err(e) && Received(chunks) == Total(chunks[..k + 1])
  {
    hide Unpacked;
    hide Cat;
    assert chunks[..k + 1][1..] == chunks[1..][..k];
    TotalFirst(chunks[..k + 1]);
    if k > 0 {
      MergeFails(chunks[1..], k - 1, e);
    }
  }

  lemma {:induction false} TotalFirst(chunks: seq<seq<Byte>>)
    requires chunks != []
    ensures Total(chunks) == |chunks[0]| + Total(chunks[1..])
  {
    var front := chunks[..|chunks| - 1];
    if front != [] {
      TotalFirst(front);
      assert chunks[1..][..|chunks| - 2] == front[1..];
    }
  }
}
