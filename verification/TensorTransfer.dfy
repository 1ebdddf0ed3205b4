/** Tensors packed for the wire and split into chunks
    (examples/pytorch/ainonymous_torch/activation_transfer.py). */
module TensorTransfer {
  import opened LittleEndian
  import opened Prelude

  const MAGIC: nat := 0xA1A0C1C0

  datatype Dtype = Float32 | Float16 | BFloat16 | Int8 | Int32 | Int64 | Unsupported

  datatype Tensor = Tensor(dtype: Dtype, shape: seq<nat>, data: seq<Byte>)

  datatype TransferError =
    | UnsupportedDtype | DoesNotFitHeader | Truncated | BadMagic | UnknownDtypeId
    | EmptyBuffer | RaggedBuffer | WrongSize | NoDimension | NoChunks | ShapeMismatch

  // ---------- Tensors ----------

  function ItemSize(dtype: Dtype): (n: nat)
    ensures n > 0
  {
    match dtype
    case Float32 => 4
    case Float16 => 2
    case BFloat16 => 2
    case Int8 => 1
    case Int32 => 4
    case Int64 => 8
    case Unsupported => 16
  }

  function Product(shape: seq<nat>): nat {
    if shape == [] then 1 else shape[0] * Product(shape[1..])
  }

  /** Contiguous, in row-major order. */
  predicate Valid(t: Tensor) {
    |t.data| == Product(t.shape) * ItemSize(t.dtype)
  }

  // ---------- Packing ----------

  function DtypeId(dtype: Dtype): Option<Byte> {
    match dtype
    case Float32 => Some(0)
    case Float16 => Some(1)
    case BFloat16 => Some(2)
    case Int8 => Some(3)
    case Int32 => Some(4)
    case Int64 => Some(5)
    case Unsupported => None
  }

  function DtypeOf(id: Byte): Option<Dtype> {
    if id == 0 then Some(Float32)
    else if id == 1 then Some(Float16)
    else if id == 2 then Some(BFloat16)
    else if id == 3 then Some(Int8)
    else if id == 4 then Some(Int32)
    else if id == 5 then Some(Int64)
    else None
  }

  /** What the header's fields can hold. */
  predicate FitsHeader(shape: seq<nat>) {
    |shape| < 256 && forall i :: 0 <= i < |shape| ==> shape[i] < TWO32
  }

  function Dims(shape: seq<nat>): (bytes: seq<Byte>)
    requires forall i :: 0 <= i < |shape| ==> shape[i] < TWO32
    ensures |bytes| == 4 * |shape|
  {
    if shape == [] then [] else Dims(shape[..|shape| - 1]) + Le32(shape[|shape| - 1])
  }

  function Header(id: Byte, shape: seq<nat>): (bytes: seq<Byte>)
    requires FitsHeader(shape)
    ensures |bytes| == 6 + 4 * |shape|
  {
    Le32(MAGIC) + [id] + [|shape| as Byte] + Dims(shape)
  }

  function Packed(t: Tensor): Result<seq<Byte>, TransferError> {
    match DtypeId(t.dtype)
    case None => Err(UnsupportedDtype)
    case Some(id) => if FitsHeader(t.shape) then Ok(Header(id, t.shape) + t.data) else Err(DoesNotFitHeader)
  }

  /** `pack_activation`. */
  method PackActivation(t: Tensor) returns (r: Result<seq<Byte>, TransferError>)
    ensures r == Packed(t)
  {
    hide Le32;
    var id := DtypeId(t.dtype);
    if id.None? { return Err(UnsupportedDtype); }
    var buf := Le32(MAGIC);
    buf := buf + [id.value];
    if |t.shape| >= 256 { return Err(DoesNotFitHeader); }
    buf := buf + [|t.shape| as Byte];
    ghost var start := buf;
    for i := 0 to |t.shape|
      invariant forall j :: 0 <= j < i ==> t.shape[j] < TWO32
      invariant buf == start + Dims(t.shape[..i])
    {
      if t.shape[i] >= TWO32 { return Err(DoesNotFitHeader); }
      assert t.shape[..i + 1][..i] == t.shape[..i];
      buf := buf + Le32(t.shape[i]);
    }
    assert t.shape[..|t.shape|] == t.shape;
    buf := buf + t.data;
    return Ok(buf);
  }

  // ---------- Unpacking ----------

  function ReadDims(bytes: seq<Byte>): (shape: seq<nat>)
    requires |bytes| % 4 == 0
    ensures 4 * |shape| == |bytes|
    ensures forall i :: 0 <= i < |shape| ==> shape[i] < TWO32
  {
    if bytes == [] then [] else ReadDims(bytes[..|bytes| - 4]) + [FromLe32(bytes[|bytes| - 4..])]
  }

  /** The reads of `unpack_activation`, each with its own failure. An empty buffer is refused, as
      `torch.frombuffer` does. */
  function Unpacked(data: seq<Byte>): Result<Tensor, TransferError> {
    if |data| < 4 then Err(Truncated)
    else if FromLe32(data[..4]) != MAGIC then Err(BadMagic)
    else if |data| < 5 then Err(Truncated)
    else if DtypeOf(data[4]).None? then Err(UnknownDtypeId)
    else if |data| < 6 then Err(Truncated)
    else if |data| < 6 + 4 * data[5] as nat then Err(Truncated)
    else
      var shape := ReadDims(data[6..6 + 4 * data[5] as nat]);
      BuildTensor(DtypeOf(data[4]).value, shape, data[6 + 4 * data[5] as nat..])
  }

  function BuildTensor(dtype: Dtype, shape: seq<nat>, raw: seq<Byte>): Result<Tensor, TransferError> {
    if raw == [] then Err(EmptyBuffer)
    else if |raw| % ItemSize(dtype) != 0 then Err(RaggedBuffer)
    else if |raw| / ItemSize(dtype) != Product(shape) then Err(WrongSize)
    else Ok(Tensor(dtype, shape, raw))
  }

  lemma NoDims(data: seq<Byte>)
    requires |data| >= 6
    ensures ReadDims(data[6..6]) == []
  {}

  lemma OneMoreDim(data: seq<Byte>, i: nat)
    requires 10 + 4 * i <= |data|
    ensures ReadDims(data[6..10 + 4 * i]) == ReadDims(data[6..6 + 4 * i]) + [FromLe32(data[6 + 4 * i..10 + 4 * i])]
  {
    hide FromLe32;
    var seen := data[6..10 + 4 * i];
    assert seen[..|seen| - 4] == data[6..6 + 4 * i] && seen[|seen| - 4..] == data[6 + 4 * i..10 + 4 * i];
  }

  /** `unpack_activation`: the cursor `pos` is the buffer's. */
  method UnpackActivation(data: seq<Byte>) returns (r: Result<Tensor, TransferError>)
    ensures r == Unpacked(data)
  {
    hide FromLe32;
    hide BuildTensor;
    hide ReadDims;
    hide DtypeOf;
    var pos := 0;
    if |data| < 4 { return Err(Truncated); }
    var magic := FromLe32(data[..4]);
    pos := 4;
    if magic != MAGIC { return Err(BadMagic); }
    if |data| < pos + 1 { return Err(Truncated); }
    var dtype := DtypeOf(data[pos]);
    if dtype.None? { return Err(UnknownDtypeId); }
    pos := pos + 1;
    if |data| < pos + 1 { return Err(Truncated); }
    var ndim := data[pos] as nat;
    pos := pos + 1;
    var shape: seq<nat> := [];
    NoDims(data);
    for i := 0 to ndim
      invariant pos == 6 + 4 * i <= |data|
      invariant shape == ReadDims(data[6..pos])
    {
      if |data| < pos + 4 { return Err(Truncated); }
      OneMoreDim(data, i);
      shape := shape + [FromLe32(data[pos..pos + 4])];
      pos := pos + 4;
    }
    return BuildTensor(dtype.value, shape, data[pos..]);
  }

  // ---------- Round trip ----------

  lemma {:induction false} DimsBack(shape: seq<nat>)
    requires forall i :: 0 <= i < |shape| ==> shape[i] < TWO32
    ensures ReadDims(Dims(shape)) == shape
  {
    hide Le32;
    hide FromLe32;
    if shape == [] {
    } else {
      var n := |shape|;
      var bytes := Dims(shape);
      assert bytes[..|bytes| - 4] == Dims(shape[..n - 1]) && bytes[|bytes| - 4..] == Le32(shape[n - 1]);
      DimsBack(shape[..n - 1]);
      Le32Back(shape[n - 1]);
    }
  }

  lemma {:induction false} ReadDimsBack(bytes: seq<Byte>)
    requires |bytes| % 4 == 0
    ensures Dims(ReadDims(bytes)) == bytes
    decreases |bytes|
  {
    hide Le32;
    hide FromLe32;
    if bytes == [] {
    } else {
      var front := bytes[..|bytes| - 4];
      ReadDimsBack(front);
      FromLe32Back(bytes[|bytes| - 4..]);
      assert ReadDims(bytes)[..|ReadDims(bytes)| - 1] == ReadDims(front);
    }
  }

  lemma WholeItems(n: nat, count: nat, dtype: Dtype)
    ensures n == count * ItemSize(dtype) <==> n % ItemSize(dtype) == 0 && n / ItemSize(dtype) == count
  {
    match dtype
    case Float32 =>
    case Float16 =>
    case BFloat16 =>
    case Int8 =>
    case Int32 =>
    case Int64 =>
    case Unsupported =>
  }

  lemma IdBack(dtype: Dtype, id: Byte)
    ensures DtypeId(dtype) == Some(id) <==> DtypeOf(id) == Some(dtype)
  {}

  lemma HeaderParts(id: Byte, shape: seq<nat>, data: seq<Byte>)
    requires FitsHeader(shape)
    ensures var bytes := Header(id, shape) + data;
      && |bytes| >= 6 + 4 * |shape| && bytes[..4] == Le32(MAGIC) && bytes[4] == id && bytes[5] as nat == |shape|
      && bytes[6..6 + 4 * |shape|] == Dims(shape) && bytes[6 + 4 * |shape|..] == data
  {
    hide Le32;
  }

  /** A packed tensor is unpacked to itself, unless it has no elements. */
  lemma UnpackPacked(t: Tensor)
    requires Valid(t) && Packed(t).Ok?
    ensures Unpacked(Packed(t).value) == if t.data == [] then Err(EmptyBuffer) else Ok(t)
  {
    var id := DtypeId(t.dtype).value;
    HeaderParts(id, t.shape, t.data);
    IdBack(t.dtype, id);
    Le32Back(MAGIC);
    DimsBack(t.shape);
    WholeItems(|t.data|, Product(t.shape), t.dtype);
    hide Le32;
    hide FromLe32;
    hide Header;
    hide ReadDims;
    hide Dims;
    hide ItemSize;
    hide Product;
  }

  lemma Built(dtype: Dtype, shape: seq<nat>, raw: seq<Byte>)
    requires BuildTensor(dtype, shape, raw).Ok?
    ensures BuildTensor(dtype, shape, raw) == Ok(Tensor(dtype, shape, raw))
    ensures raw != [] && Valid(Tensor(dtype, shape, raw))
  {
    WholeItems(|raw|, Product(shape), dtype);
    hide ItemSize;
    hide Product;
  }

  lemma Reassembled(data: seq<Byte>, n: nat)
    requires |data| >= 6 + n
    ensures data == data[..4] + [data[4]] + [data[5]] + data[6..6 + n] + data[6 + n..]
  {}

  /** Bytes that unpack at all are what packing the result gives. */
  lemma PackUnpacked(data: seq<Byte>)
    requires Unpacked(data).Ok?
    ensures var t := Unpacked(data).value; Valid(t) && t.data != [] && Packed(t) == Ok(data)
  {
    var n := 4 * data[5] as nat;
    var dims, raw := data[6..6 + n], data[6 + n..];
    var dtype, shape := DtypeOf(data[4]).value, ReadDims(dims);
    assert Unpacked(data) == BuildTensor(dtype, shape, raw);
    assert FromLe32(data[..4]) == MAGIC && FitsHeader(shape);
    hide *;
    Built(dtype, shape, raw);
    IdBack(dtype, data[4]);
    FromLe32Back(data[..4]);
    ReadDimsBack(dims);
    Reassembled(data, n);
    HeaderIs(data[4], shape);
    Repacked(dtype, data[4], shape, raw);
    assert [|shape| as Byte] == [data[5]];
  }

  lemma HeaderIs(id: Byte, shape: seq<nat>)
    requires FitsHeader(shape)
    ensures Header(id, shape) == Le32(MAGIC) + [id] + [|shape| as Byte] + Dims(shape)
  {}

  lemma Repacked(dtype: Dtype, id: Byte, shape: seq<nat>, raw: seq<Byte>)
    requires DtypeId(dtype) == Some(id) && FitsHeader(shape)
    ensures Packed(Tensor(dtype, shape, raw)) == Ok(Header(id, shape) + raw)
  {
    hide Header;
  }

  /** Bytes unpack to a tensor exactly when the tensor packs to them and has an element. */
  lemma UnpackExactly(data: seq<Byte>, t: Tensor)
    requires Valid(t)
    ensures Unpacked(data) == Ok(t) <==> Packed(t) == Ok(data) && t.data != []
  {
    hide *;
    if Unpacked(data) == Ok(t) { PackUnpacked(data); }
    if Packed(t) == Ok(data) { UnpackPacked(t); }
  }

  // ---------- Chunks ----------

  /** The bytes of one row along the first dimension. */
  function RowBytes(t: Tensor): nat
    requires t.shape != []
  {
    Product(t.shape[1..]) * ItemSize(t.dtype)
  }

  lemma RowsFill(t: Tensor)
    requires Valid(t) && t.shape != []
    ensures |t.data| == t.shape[0] * RowBytes(t)
  {
    Reassociate(t.shape[0], Product(t.shape[1..]), ItemSize(t.dtype));
  }

  lemma RowWithin(n: nat, i: nat, r: nat)
    requires i <= n
    ensures i * r <= n * r
  {}

  /** `tensor[i:j]`. */
  function Rows(t: Tensor, i: nat, j: nat): Tensor
    requires Valid(t) && t.shape != [] && i <= j <= t.shape[0]
  {
    RowsFill(t);
    RowWithin(t.shape[0], j, RowBytes(t));
    RowWithin(j, i, RowBytes(t));
    Tensor(t.dtype, [j - i] + t.shape[1..], t.data[i * RowBytes(t)..j * RowBytes(t)])
  }

  /** The slices from row `i` on, `size` rows each; the last may be shorter. */
  function Slices(t: Tensor, i: nat, size: nat): seq<Tensor>
    requires Valid(t) && t.shape != [] && size > 0
    decreases t.shape[0] - i
  {
    if i >= t.shape[0] then []
    else [Rows(t, i, Min(i + size, t.shape[0]))] + Slices(t, i + size, size)
  }

  /** `torch.cat(tensors, dim=0)` of tensors of one type. */
  function Cat(tensors: seq<Tensor>): Result<Tensor, TransferError>
    requires tensors != []
  {
    if |tensors[0].shape| == 0 then Err(NoDimension)
    else if |tensors| == 1 then Ok(tensors[0])
    else
      match Cat(tensors[1..])
      case Err(e) => Err(e)
      case Ok(rest) => Join(tensors[0], rest)
  }

  function Join(a: Tensor, b: Tensor): Result<Tensor, TransferError>
    requires a.shape != []
  {
    if b.shape == [] || a.dtype != b.dtype || a.shape[1..] != b.shape[1..] then Err(ShapeMismatch)
    else Ok(Tensor(a.dtype, [a.shape[0] + b.shape[0]] + a.shape[1..], a.data + b.data))
  }

  lemma RowsShape(t: Tensor, i: nat, j: nat)
    requires Valid(t) && t.shape != [] && i <= j <= t.shape[0]
    ensures var s := Rows(t, i, j);
      Valid(s) && s.shape[0] == j - i && s.shape[1..] == t.shape[1..] && RowBytes(s) == RowBytes(t)
  {
    var s := Rows(t, i, j);
    assert s.shape[1..] == t.shape[1..];
    RowsFill(t);
    RowWithin(t.shape[0], j, RowBytes(t));
    RowWithin(j, i, RowBytes(t));
    Factors(j, i, RowBytes(t));
    Reassociate(j - i, Product(t.shape[1..]), ItemSize(t.dtype));
    hide ItemSize;
  }

  lemma Factors(j: nat, i: nat, r: nat)
    ensures j * r - i * r == (j - i) * r
  {}

  lemma Reassociate(a: nat, b: nat, c: nat)
    ensures a * b * c == a * (b * c)
  {}

  lemma RowsJoin(t: Tensor, i: nat, j: nat, k: nat)
    requires Valid(t) && t.shape != [] && i <= j <= k <= t.shape[0]
    ensures Join(Rows(t, i, j), Rows(t, j, k)) == Ok(Rows(t, i, k))
  {
    RowsFill(t);
    var r := RowBytes(t);
    RowWithin(j, i, r);
    RowWithin(k, j, r);
    RowWithin(t.shape[0], k, r);
    hide RowBytes;
    assert t.data[i * r..j * r] + t.data[j * r..k * r] == t.data[i * r..k * r];
  }

  lemma AllRows(t: Tensor)
    requires Valid(t) && t.shape != []
    ensures Rows(t, 0, t.shape[0]) == t
  {
    RowsFill(t);
  }

  lemma {:induction false} CatSlices(t: Tensor, i: nat, size: nat)
    requires Valid(t) && t.shape != [] && size > 0 && i < t.shape[0]
    ensures Slices(t, i, size) != [] && Cat(Slices(t, i, size)) == Ok(Rows(t, i, t.shape[0]))
    decreases t.shape[0] - i
  {
    var j, n := Min(i + size, t.shape[0]), t.shape[0];
    RowsShape(t, i, j);
    if j < n {
      hide Rows;
      CatSlices(t, j, size);
      RowsJoin(t, i, j, n);
      assert Slices(t, i, size)[1..] == Slices(t, j, size);
    } else {
      assert Slices(t, i, size) == [Rows(t, i, n)];
    }
  }

  /** A slice of a tensor that packs, packs: same type and header, no more rows than asked for, and
      an element in every row if the tensor has any. */
  ghost predicate SliceOf(t: Tensor, s: Tensor, size: nat)
    requires t.shape != []
  {
    && Valid(s) && s.dtype == t.dtype && |s.shape| == |t.shape| && Packed(s).Ok?
    && |s.data| <= size * RowBytes(t)
    && (t.data != [] ==> s.data != [])
  }

  lemma RowsSlice(t: Tensor, i: nat, j: nat, size: nat)
    requires Valid(t) && t.shape != [] && Packed(t).Ok? && i < j <= t.shape[0] && j <= i + size
    ensures SliceOf(t, Rows(t, i, j), size)
  {
    var s := Rows(t, i, j);
    RowsShape(t, i, j);
    RowsFill(t);
    RowsFill(s);
    RowWithin(size, j - i, RowBytes(t));
    RowWithin(j - i, 1, RowBytes(t));
    assert forall k :: 0 < k < |s.shape| ==> s.shape[k] == s.shape[1..][k - 1] == t.shape[k];
    if RowBytes(t) == 0 { assert t.shape[0] * RowBytes(t) == 0; }
    hide Rows;
    hide RowBytes;
  }

  lemma {:induction false} AllSlices(t: Tensor, i: nat, size: nat)
    requires Valid(t) && t.shape != [] && size > 0 && Packed(t).Ok?
    ensures forall k :: 0 <= k < |Slices(t, i, size)| ==> SliceOf(t, Slices(t, i, size)[k], size)
    decreases t.shape[0] - i
  {
    hide SliceOf;
    hide Rows;
    if i < t.shape[0] {
      AllSlices(t, i + size, size);
      RowsSlice(t, i, Min(i + size, t.shape[0]), size);
    }
  }

  // ---------- Splitting and merging ----------

  function PackAll(tensors: seq<Tensor>): Result<seq<seq<Byte>>, TransferError> {
    if tensors == [] then Ok([])
    else
      match Packed(tensors[0])
      case Err(e) => Err(e)
      case Ok(chunk) => Prepend([chunk], PackAll(tensors[1..]))
  }

  function Prepend<T>(front: seq<T>, r: Result<seq<T>, TransferError>): Result<seq<T>, TransferError> {
    match r
    case Err(e) => Err(e)
    case Ok(rest) => Ok(front + rest)
  }

  function ChunkRows(n: nat, limit: int, len: nat): (size: nat)
    requires len > 0
    ensures size > 0
  {
    if n * limit / len > 1 then n * limit / len else 1
  }

  function SplitOf(t: Tensor, limit: int): Result<seq<seq<Byte>>, TransferError>
    requires Valid(t)
  {
    match Packed(t)
    case Err(e) => Err(e)
    case Ok(full) =>
      if |full| <= limit then Ok([full])
      else if t.shape == [] then Err(NoDimension)
      else PackAll(Slices(t, 0, ChunkRows(t.shape[0], limit, |full|)))
  }

  function UnpackAll(chunks: seq<seq<Byte>>): Result<seq<Tensor>, TransferError> {
    if chunks == [] then Ok([])
    else
      match Unpacked(chunks[0])
      case Err(e) => Err(e)
      case Ok(t) => Prepend([t], UnpackAll(chunks[1..]))
  }

  function MergeOf(chunks: seq<seq<Byte>>): Result<Tensor, TransferError> {
    if chunks == [] then Err(NoChunks)
    else
      match UnpackAll(chunks)
      case Err(e) => Err(e)
      case Ok(tensors) => if tensors == [] then Err(NoChunks) else Cat(tensors)
  }

  /** Merging succeeds only on tensors that have elements and a first dimension. */
  lemma {:induction false} MergedHasElements(chunks: seq<seq<Byte>>)
    ensures UnpackAll(chunks).Ok? ==>
      |UnpackAll(chunks).value| == |chunks| && forall t :: t in UnpackAll(chunks).value ==> t.data != []
    ensures MergeOf(chunks).Ok? ==> MergeOf(chunks).value.data != [] && MergeOf(chunks).value.shape != []
  {
    if chunks == [] {
    } else {
      MergedHasElements(chunks[1..]);
      if UnpackAll(chunks).Ok? {
        PackUnpacked(chunks[0]);
        hide Unpacked;
        CatHasElements(UnpackAll(chunks).value);
      }
    }
  }

  lemma {:induction false} CatHasElements(tensors: seq<Tensor>)
    requires tensors != [] && forall t :: t in tensors ==> t.data != []
    ensures Cat(tensors).Ok? ==> Cat(tensors).value.data != [] && Cat(tensors).value.shape != []
  {
    if |tensors| <= 1 {
    } else {
      CatHasElements(tensors[1..]);
    }
  }

  lemma {:induction false} UnpackPackedAll(t: Tensor, tensors: seq<Tensor>, size: nat)
    requires t.shape != [] && t.data != [] && forall k :: 0 <= k < |tensors| ==> SliceOf(t, tensors[k], size)
    ensures PackAll(tensors).Ok? && UnpackAll(PackAll(tensors).value) == Ok(tensors)
  {
    if tensors == [] {
    } else {
      hide *;
      SliceUnpacks(t, tensors[0], size);
      UnpackPackedAll(t, tensors[1..], size);
      var chunk, rest := Packed(tensors[0]).value, PackAll(tensors[1..]).value;
      PackFirst(tensors, rest);
      UnpackFirst(chunk, rest);
      PrependTo(tensors);
    }
  }

  lemma PackFirst(tensors: seq<Tensor>, rest: seq<seq<Byte>>)
    requires tensors != [] && Packed(tensors[0]).Ok? && PackAll(tensors[1..]) == Ok(rest)
    ensures PackAll(tensors) == Ok([Packed(tensors[0]).value] + rest)
  {
    hide Packed;
  }

  lemma PrependTo<T>(s: seq<T>)
    requires s != []
    ensures Prepend([s[0]], Ok(s[1..])) == Ok(s)
  {
    assert [s[0]] + s[1..] == s;
  }

  lemma UnpackFirst(chunk: seq<Byte>, rest: seq<seq<Byte>>)
    requires Unpacked(chunk).Ok?
    ensures UnpackAll([chunk] + rest) == Prepend([Unpacked(chunk).value], UnpackAll(rest))
  {
    hide Unpacked;
    var chunks := [chunk] + rest;
    assert chunks[0] == chunk && chunks[1..] == rest;
  }

  lemma SliceUnpacks(t: Tensor, s: Tensor, size: nat)
    requires t.shape != [] && t.data != [] && SliceOf(t, s, size)
    ensures Packed(s).Ok? && Unpacked(Packed(s).value) == Ok(s)
  {
    UnpackPacked(s);
  }

  /** Merging what was split gives the tensor back exactly when it has a dimension and an element. */
  lemma MergeSplitExactly(t: Tensor, limit: int)
    requires Valid(t) && Packed(t).Ok?
    ensures SplitOf(t, limit).Ok? && MergeOf(SplitOf(t, limit).value) == Ok(t) <==> t.shape != [] && t.data != []
  {
    var full := Packed(t).value;
    hide Packed;
    hide Unpacked;
    hide MergeOf;
    hide Slices;
    if SplitOf(t, limit).Ok? { MergedHasElements(SplitOf(t, limit).value); }
    if t.shape != [] && t.data != [] {
      if |full| <= limit {
        MergeWhole(t);
      } else {
        MergeSlices(t, ChunkRows(t.shape[0], limit, |full|));
      }
    }
  }

  /** A tensor without a dimension and one without an element do not come back, whatever the limit. */
  lemma ScalarAndEmptyAreLost(limit: int)
    ensures var scalar := Tensor(Int8, [], [7]);
      Valid(scalar) && Packed(scalar).Ok? && !(SplitOf(scalar, limit).Ok? && MergeOf(SplitOf(scalar, limit).value) == Ok(scalar))
    ensures var empty := Tensor(Int8, [0], []);
      Valid(empty) && Packed(empty).Ok? && !(SplitOf(empty, limit).Ok? && MergeOf(SplitOf(empty, limit).value) == Ok(empty))
  {
    var scalar, empty := Tensor(Int8, [], [7]), Tensor(Int8, [0], []);
    assert Valid(scalar) && Valid(empty);
    hide Header;
    assert Packed(scalar).Ok? && Packed(empty).Ok?;
    hide *;
    MergeSplitExactly(scalar, limit);
    MergeSplitExactly(empty, limit);
  }

  lemma MergeWhole(t: Tensor)
    requires Valid(t) && Packed(t).Ok? && t.shape != [] && t.data != []
    ensures MergeOf([Packed(t).value]) == Ok(t)
  {
    UnpackPacked(t);
    hide Packed;
    hide Unpacked;
    var full := Packed(t).value;
    UnpackFirst(full, []);
    hide Prepend;
    assert [full] + [] == [full] && Prepend([t], UnpackAll([])) == Ok([t]) by { NoChunksLeft(t); }
  }

  lemma NoChunksLeft(t: Tensor)
    ensures Prepend([t], UnpackAll([])) == Ok([t])
  {
    assert [t] + [] == [t];
  }

  lemma MergeSlices(t: Tensor, size: nat)
    requires Valid(t) && Packed(t).Ok? && t.shape != [] && t.data != [] && size > 0
    ensures var r := PackAll(Slices(t, 0, size)); r.Ok? && MergeOf(r.value) == Ok(t)
  {
    RowsFill(t);
    AllSlices(t, 0, size);
    var slices := Slices(t, 0, size);
    UnpackPackedAll(t, slices, size);
    CatSlices(t, 0, size);
    AllRows(t);
  }

  /** `size` rows of a packed tensor stay below the limit. */
  lemma RowsBelowLimit(n: nat, r: nat, header: nat, limit: int, size: nat)
    requires header > 0 && size == ChunkRows(n, limit, header + n * r) && size > 1
    ensures size * r < limit
  {
    var len := header + n * r;
    assert size * len <= n * limit;
    assert size * len == size * header + n * (size * r);
    assert n * (size * r) < n * limit;
    Smaller(n, size * r, limit);
  }

  lemma Smaller(n: nat, a: int, b: int)
    requires n * a < n * b
    ensures a < b
  {}

  function HeaderBytes(t: Tensor): nat {
    6 + 4 * |t.shape|
  }

  /** Every chunk is smaller than the limit and one header, unless it is a single row. */
  lemma ChunkSizes(t: Tensor, limit: int)
    requires Valid(t) && SplitOf(t, limit).Ok?
    ensures forall chunk :: chunk in SplitOf(t, limit).value ==>
      || |chunk| < limit + HeaderBytes(t)
      || (t.shape != [] && |chunk| <= HeaderBytes(t) + RowBytes(t))
  {
    var full := Packed(t).value;
    PackedSize(t);
    if |full| > limit {
      var n, r := t.shape[0], RowBytes(t);
      var size := ChunkRows(n, limit, |full|);
      var chunks := SplitOf(t, limit).value;
      assert PackAll(Slices(t, 0, size)) == Ok(chunks);
      assert HeaderBytes(t) > 0;
      hide *;
      RowsFill(t);
      AllSlices(t, 0, size);
      PackedSizes(t, Slices(t, 0, size), size);
      RowsFit(n, r, HeaderBytes(t), limit, size);
    }
  }

  lemma RowsFit(n: nat, r: nat, header: nat, limit: int, size: nat)
    requires header > 0 && size == ChunkRows(n, limit, header + n * r)
    ensures size * r < limit || size * r <= r
  {
    if size > 1 { RowsBelowLimit(n, r, header, limit, size); }
    hide ChunkRows;
  }

  lemma {:induction false} PackedSizes(t: Tensor, tensors: seq<Tensor>, size: nat)
    requires t.shape != [] && forall k :: 0 <= k < |tensors| ==> SliceOf(t, tensors[k], size)
    ensures PackAll(tensors).Ok?
    ensures forall chunk :: chunk in PackAll(tensors).value ==> |chunk| <= HeaderBytes(t) + size * RowBytes(t)
  {
    if tensors == [] {
    } else {
      hide RowBytes;
      PackedSizes(t, tensors[1..], size);
      assert SliceOf(t, tensors[0], size);
      hide Header;
    }
  }

  // ---------- The transfer object ----------

  function Total(chunks: seq<seq<Byte>>): nat {
    if chunks == [] then 0 else Total(chunks[..|chunks| - 1]) + |chunks[|chunks| - 1]|
  }

  /** The bytes counted on receipt: of every chunk up to the first that does not unpack. */
  function Received(chunks: seq<seq<Byte>>): nat {
    if chunks == [] then 0
    else |chunks[0]| + (if Unpacked(chunks[0]).Ok? then Received(chunks[1..]) else 0)
  }

  class ActivationTransfer {
    const maxChunkBytes: int
    var bytesSent: nat
    var bytesReceived: nat

    constructor (maxChunkMb: int)
      ensures maxChunkBytes == maxChunkMb * 1048576 && bytesSent == 0 && bytesReceived == 0
    {
      maxChunkBytes := maxChunkMb * 1024 * 1024;
      bytesSent, bytesReceived := 0, 0;
    }

    method Pack(t: Tensor) returns (r: Result<seq<Byte>, TransferError>)
      modifies this`bytesSent
      ensures r == Packed(t)
      ensures bytesSent == old(bytesSent) + if r.Ok? then |r.value| else 0
    {
      r := PackActivation(t);
      if r.Ok? { bytesSent := bytesSent + |r.value|; }
    }

    method Unpack(data: seq<Byte>) returns (r: Result<Tensor, TransferError>)
      modifies this`bytesReceived
      ensures r == Unpacked(data) && bytesReceived == old(bytesReceived) + |data|
    {
      bytesReceived := bytesReceived + |data|;
      r := UnpackActivation(data);
    }

    /** A tensor that is sent in chunks is counted twice: once whole, once by its chunks. */
    method Split(t: Tensor) returns (r: Result<seq<seq<Byte>>, TransferError>)
      requires Valid(t)
      modifies this`bytesSent
      ensures r == SplitOf(t, maxChunkBytes)
      ensures r.Err? && Packed(t).Err? ==> bytesSent == old(bytesSent)
      ensures Packed(t).Ok? ==> bytesSent == old(bytesSent) + |Packed(t).value|
                                           + (if r.Ok? && |Packed(t).value| > maxChunkBytes then Total(r.value) else 0)
    {
      hide Packed;
      hide Rows;
      hide ChunkRows;
      PackedSize(t);
      var packed := Pack(t);
      if packed.Err? { return Err(packed.error); }
      var full := packed.value;
      if |full| <= maxChunkBytes { return Ok([full]); }
      if t.shape == [] { return Err(NoDimension); }
      var n: int := t.shape[0];
      var size := ChunkRows(n, maxChunkBytes, |full|);
      var chunks: seq<seq<Byte>> := [];
      var i: int := 0;
      PrependNone(PackAll(Slices(t, 0, size)));
      while i < n
        invariant 0 <= i
        invariant PackAll(Slices(t, 0, size)) == Prepend(chunks, PackAll(Slices(t, i, size)))
        invariant bytesSent == old(bytesSent) + |full| + Total(chunks)
        decreases n - i
      {
        RowsPack(t, i, Min(i + size, n));
        var chunk := Pack(Rows(t, i, Min(i + size, n)));
        PackSlice(t, i, size);
        PrependOne(chunks, chunk.value, PackAll(Slices(t, i + size, size)));
        chunks := chunks + [chunk.value];
        i := i + size;
      }
      PrependDone(chunks);
      return Ok(chunks);
    }

    method Merge(chunks: seq<seq<Byte>>) returns (r: Result<Tensor, TransferError>)
      modifies this`bytesReceived
      ensures r == MergeOf(chunks) && bytesReceived == old(bytesReceived) + Received(chunks)
    {
      hide Unpacked;
      hide Cat;
      if chunks == [] { return Err(NoChunks); }
      var tensors: seq<Tensor> := [];
      assert chunks[0..] == chunks;
      PrependNone(UnpackAll(chunks));
      for i := 0 to |chunks|
        invariant UnpackAll(chunks) == Prepend(tensors, UnpackAll(chunks[i..]))
        invariant bytesReceived + Received(chunks[i..]) == old(bytesReceived) + Received(chunks)
      {
        assert chunks[i..][0] == chunks[i] && chunks[i..][1..] == chunks[i + 1..];
        var t := Unpack(chunks[i]);
        if t.Err? { return Err(t.error); }
        PrependOne(tensors, t.value, UnpackAll(chunks[i + 1..]));
        tensors := tensors + [t.value];
      }
      assert chunks[|chunks|..] == [];
      PrependDone(tensors);
      if tensors == [] { return Err(NoChunks); }
      r := Cat(tensors);
    }
  }

  lemma PrependNone<T>(r: Result<seq<T>, TransferError>)
    ensures Prepend([], r) == r
  {
    if r.Ok? { assert [] + r.value == r.value; }
  }

  lemma PrependOne<T>(front: seq<T>, x: T, r: Result<seq<T>, TransferError>)
    ensures Prepend(front, Prepend([x], r)) == Prepend(front + [x], r)
  {
    if r.Ok? { assert front + ([x] + r.value) == front + [x] + r.value; }
  }

  lemma PrependDone<T>(front: seq<T>)
    ensures Prepend(front, Ok([])) == Ok(front)
  {
    assert front + [] == front;
  }

  lemma PackedSize(t: Tensor)
    ensures Packed(t).Ok? ==> |Packed(t).value| == HeaderBytes(t) + |t.data|
  {}

  lemma RowsPack(t: Tensor, i: nat, j: nat)
    requires Valid(t) && t.shape != [] && Packed(t).Ok? && i < j <= t.shape[0]
    ensures Packed(Rows(t, i, j)).Ok?
  {
    RowsSlice(t, i, j, j);
  }

  lemma PackSlice(t: Tensor, i: nat, size: nat)
    requires Valid(t) && t.shape != [] && Packed(t).Ok? && size > 0 && i < t.shape[0]
    ensures var rows := Rows(t, i, Min(i + size, t.shape[0]));
      Packed(rows).Ok? && PackAll(Slices(t, i, size)) == Prepend([Packed(rows).value], PackAll(Slices(t, i + size, size)))
  {
    RowsPack(t, i, Min(i + size, t.shape[0]));
    hide Packed;
    hide Rows;
    assert Slices(t, i, size)[1..] == Slices(t, i + size, size);
  }
}
