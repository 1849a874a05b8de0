/** Writing one encapsulated IPC message (`io::ipc::write::common_async`),
    in the "Encapsulated message format" of the Apache Arrow Columnar
    Format: the continuation marker `0xFFFFFFFF`, the metadata length as a
    little-endian `i32`, the flatbuffer metadata, zero padding to an 8-byte
    boundary, then the body, itself padded to 8 bytes. The asynchronous
    writer is a byte sequence that each `write_all` extends. */
module IpcWrite {
  import opened Common

  // ---------------------------------------------------------------------
  // Alignment

  /** `x & !7` for a non-negative `x`: the low three bits cleared. */
  function ClearLowBits3(x: nat): (r: nat)
    ensures r % 8 == 0 && r <= x < r + 8
  {
    x - x % 8
  }

  /** `aligned_size = (flatbuf_size + 8 + 7) & !7`. */
  function AlignedSize(flatbufSize: nat): nat
  {
    ClearLowBits3(flatbufSize + 8 + 7)
  }

  /** `aligned_size` is the least multiple of 8 that holds the 8-byte
      prefix and the metadata, so the padding is below 8. */
  lemma AlignedSizeIsLeast(flatbufSize: nat)
    ensures AlignedSize(flatbufSize) % 8 == 0
    ensures flatbufSize + 8 <= AlignedSize(flatbufSize) < flatbufSize + 8 + 8
    ensures forall m: nat :: m % 8 == 0 && flatbufSize + 8 <= m ==> AlignedSize(flatbufSize) <= m
  {
    var a := AlignedSize(flatbufSize);
    forall m: nat | m % 8 == 0 && flatbufSize + 8 <= m
      ensures a <= m
    {
      if m < a {
        MultiplesOf8Apart(m, a);
      }
    }
  }

  lemma MultiplesOf8Apart(m: nat, a: nat)
    requires m % 8 == 0 && a % 8 == 0 && m < a
    ensures m + 8 <= a
  {
    assert (a - m) % 8 == 0;
  }

  /** `pad_to_8(len)`: the zeros that bring `len` to a multiple of 8. */
  function PadTo8(len: nat): (pad: nat)
    ensures pad < 8 && (len + pad) % 8 == 0
    ensures len % 8 == 0 ==> pad == 0
  {
    ClearLowBits3(len + 7) - len
  }

  function Zeros(n: nat): (z: seq<byte>)
    ensures |z| == n && forall i :: 0 <= i < n ==> z[i] == 0
  {
    seq(n, _ => 0)
  }

  // ---------------------------------------------------------------------
  // The length field

  const CONTINUATION_MARKER: seq<byte> := [0xff, 0xff, 0xff, 0xff]
  const TWO_TO_32: int := 0x1_0000_0000

  /** `n as i32` for a `usize` `n`: the low 32 bits, read as two's
      complement. */
  function WrapI32(n: nat): (x: i32)
    ensures n <= I32_MAX ==> x == n
    ensures (x - n) % TWO_TO_32 == 0
  {
    var low := n % TWO_TO_32;
    if low > I32_MAX then low - TWO_TO_32 else low
  }

  /** `x.to_le_bytes()`. */
  function ToLeBytes(x: i32): (b: seq<byte>)
    ensures |b| == 4
  {
    var u: nat := if x < 0 then x + TWO_TO_32 else x;
    var q1 := u / 256;
    var q2 := q1 / 256;
    var q3 := q2 / 256;
    [u % 256, q1 % 256, q2 % 256, q3 % 256]
  }

  /** `i32::from_le_bytes`, the reading side of the length field. */
  function FromLeBytes(b: seq<byte>): i32
    requires |b| == 4
  {
    var u := b[0] as int + 256 * b[1] as int + 65536 * b[2] as int + 16777216 * b[3] as int;
    if u > I32_MAX then u - TWO_TO_32 else u
  }

  /** The length field reads back as the value written. */
  lemma LeBytesRoundTrip(x: i32)
    ensures FromLeBytes(ToLeBytes(x)) == x
  {
    var u: nat := if x < 0 then x + TWO_TO_32 else x;
    var q1 := u / 256;
    var q2 := q1 / 256;
    var q3 := q2 / 256;
    DivMod256(u);
    DivMod256(q1);
    DivMod256(q2);
    DivMod256(q3);
    var b := ToLeBytes(x);
    assert b == [u % 256, q1 % 256, q2 % 256, q3 % 256];
    assert u == b[0] as int + 256 * b[1] as int + 65536 * b[2] as int + 16777216 * b[3] as int;
  }

  lemma DivMod256(n: nat)
    ensures n == n % 256 + 256 * (n / 256) && n % 256 < 256
    ensures n < TWO_TO_32 ==> n / 256 < 0x100_0000
    ensures n < 0x100_0000 ==> n / 256 < 0x1_0000
    ensures n < 0x1_0000 ==> n / 256 < 0x100
    ensures n < 0x100 ==> n / 256 == 0
  {
  }

  // ---------------------------------------------------------------------
  // The writer

  /** An asynchronous writer reduced to the bytes it has received and how
      many of them were flushed. */
  class Writer {
    var bytes: seq<byte>
    var flushed: nat

    constructor ()
      ensures bytes == [] && flushed == 0
    {
      bytes := [];
      flushed := 0;
    }

    /** `write_all`. */
    method WriteAll(data: seq<byte>)
      modifies this
      ensures bytes == old(bytes) + data && flushed == old(flushed)
    {
      bytes := bytes + data;
    }

    /** `flush`: everything written so far has reached the sink. */
    method Flush()
      modifies this
      ensures bytes == old(bytes) && flushed == |bytes|
    {
      flushed := |bytes|;
    }
  }

  /** `write_continuation`: the marker, then `total_len` in little-endian
      order, flushed; 8 bytes. */
  method WriteContinuation(w: Writer, totalLen: i32) returns (r: Result<nat>)
    modifies w
    ensures w.bytes == old(w.bytes) + CONTINUATION_MARKER + ToLeBytes(totalLen)
    ensures w.flushed == |w.bytes|
    ensures r == Ok(8) && |w.bytes| == |old(w.bytes)| + 8
  {
    w.WriteAll(CONTINUATION_MARKER);
    w.WriteAll(ToLeBytes(totalLen));
    w.Flush();
    r := Ok(8);
  }

  /** `write_body_buffers`: the data and its padding to 8 bytes, flushed;
      the length written. */
  method WriteBodyBuffers(w: Writer, data: seq<byte>) returns (r: Result<nat>)
    modifies w
    ensures w.bytes == old(w.bytes) + data + Zeros(PadTo8(|data|))
    ensures w.flushed == |w.bytes|
    ensures r.Ok? && r.value == |w.bytes| - |old(w.bytes)| && r.value % 8 == 0
  {
    var len := |data|;
    var padLen := PadTo8(len);
    var totalLen := len + padLen;
    w.WriteAll(data);
    if padLen > 0 {
      w.WriteAll(Zeros(padLen));
    } else {
      assert Zeros(padLen) == [];
    }
    w.Flush();
    r := Ok(totalLen);
  }

  // ---------------------------------------------------------------------
  // The message

  /** `EncodedData`: the flatbuffer-encoded message and its body. */
  datatype EncodedData = EncodedData(ipcMessage: seq<byte>, arrowData: seq<byte>)

  /** The bytes `write_message` emits for an aligned body. */
  function Frame(e: EncodedData): seq<byte>
  {
    var flatbufSize := |e.ipcMessage|;
    var aligned := AlignedSize(flatbufSize);
    CONTINUATION_MARKER + ToLeBytes(WrapI32(aligned - 8)) + e.ipcMessage + Zeros(aligned - flatbufSize - 8)
      + e.arrowData
  }

  /** `out` is an encapsulated message for `e`: the marker, a length field
      that reads back as `aligned - 8` (wrapped to `i32`), the metadata,
      zeros up to `aligned`, then the body. */
  ghost predicate IsEncapsulated(out: seq<byte>, e: EncodedData, aligned: nat)
  {
    var m := |e.ipcMessage|;
    && 8 + m <= aligned
    && |out| == aligned + |e.arrowData|
    && out[..4] == CONTINUATION_MARKER
    && FromLeBytes(out[4..8]) == WrapI32(aligned - 8)
    && out[8..8 + m] == e.ipcMessage
    && (forall k :: 8 + m <= k < aligned ==> out[k] == 0)
    && out[aligned..] == e.arrowData
  }

  /** The frame of an aligned body is an encapsulated message at the
      least aligned size, a whole number of 8-byte words long. */
  lemma FrameLayout(e: EncodedData)
    requires |e.arrowData| % 8 == 0
    ensures IsEncapsulated(Frame(e), e, AlignedSize(|e.ipcMessage|))
    ensures |Frame(e)| % 8 == 0
  {
    var aligned := AlignedSize(|e.ipcMessage|);
    var x := WrapI32(aligned - 8);
    var lenField := ToLeBytes(x);
    LeBytesRoundTrip(x);
    assert aligned % 8 == 0 && |e.ipcMessage| + 8 <= aligned;
    assert Frame(e) == CONTINUATION_MARKER + lenField + e.ipcMessage + Zeros(aligned - |e.ipcMessage| - 8) + e.arrowData;
    FramedLayout(e, aligned, lenField);
  }

  /** The layout of a frame with any 4-byte length field that reads back
      as `aligned - 8`. */
  lemma FramedLayout(e: EncodedData, aligned: nat, lenField: seq<byte>)
    requires |e.arrowData| % 8 == 0 && aligned % 8 == 0 && |e.ipcMessage| + 8 <= aligned
    requires |lenField| == 4 && FromLeBytes(lenField) == WrapI32(aligned - 8)
    ensures var out := CONTINUATION_MARKER + lenField + e.ipcMessage + Zeros(aligned - |e.ipcMessage| - 8) + e.arrowData;
      IsEncapsulated(out, e, aligned) && |out| % 8 == 0
  {
    var m := |e.ipcMessage|;
    FrameParts(CONTINUATION_MARKER, lenField, e.ipcMessage, Zeros(aligned - m - 8), e.arrowData);
    SumOfMultiplesOf8(aligned, |e.arrowData|);
  }

  lemma SumOfMultiplesOf8(a: nat, b: nat)
    requires a % 8 == 0 && b % 8 == 0
    ensures (a + b) % 8 == 0
  {
    assert a + b == 8 * (a / 8 + b / 8);
  }

  /** Where each part of a frame `marker + len + message + padding + body`
      lies. */
  lemma FrameParts(marker: seq<byte>, len: seq<byte>, message: seq<byte>, padding: seq<byte>, body: seq<byte>)
    requires |marker| == 4 && |len| == 4
    ensures var out := marker + len + message + padding + body;
      var m, p := |message|, |padding|;
      && |out| == 8 + m + p + |body|
      && out[..4] == marker
      && out[4..8] == len
      && out[8..8 + m] == message
      && (forall k :: 8 + m <= k < 8 + m + p ==> out[k] == padding[k - 8 - m])
      && out[8 + m + p..] == body
  {
    var header := marker + len;
    var out := header + message + padding + body;
    assert out == header + (message + padding + body);
    assert out[..4] == header[..4] == marker;
    assert out[4..8] == header[4..8] == len;
    var rest := message + padding + body;
    assert out[8..] == rest;
    assert out[8..8 + |message|] == rest[..|message|] == message;
    assert out[8 + |message| + |padding|..] == body;
  }

  /** `write_message`: a body whose length is not a multiple of 8 is an
      `Ipc` error before anything is written; otherwise the frame is
      appended and `(aligned_size, body_len)` returned. */
  method WriteMessage(w: Writer, encoded: EncodedData) returns (r: Result<(nat, nat)>)
    modifies w
    ensures |encoded.arrowData| % 8 != 0 ==>
      r == Err(Ipc("Arrow data not aligned")) && w.bytes == old(w.bytes) && w.flushed == old(w.flushed)
    ensures |encoded.arrowData| % 8 == 0 ==>
      && w.bytes == old(w.bytes) + Frame(encoded)
      && r == Ok((AlignedSize(|encoded.ipcMessage|), |encoded.arrowData|))
  {
    var arrowDataLen := |encoded.arrowData|;
    if arrowDataLen % 8 != 0 {
      return Err(Ipc("Arrow data not aligned"));
    }
    var buffer := encoded.ipcMessage;
    var flatbufSize := |buffer|;
    var prefixSize := 8;
    var alignedSize := AlignedSize(flatbufSize);
    var paddingBytes := alignedSize - flatbufSize - prefixSize;
    ghost var before := w.bytes;
    var _ := WriteContinuation(w, WrapI32(alignedSize - prefixSize));
    ghost var prefix := CONTINUATION_MARKER + ToLeBytes(WrapI32(alignedSize - prefixSize));
    assert w.bytes == before + prefix;
    if flatbufSize > 0 {
      w.WriteAll(buffer);
    } else {
      assert buffer == [];
    }
    assert w.bytes == before + prefix + buffer;
    w.WriteAll(Zeros(paddingBytes));
    var bodyLen := 0;
    if arrowDataLen > 0 {
      var written := WriteBodyBuffers(w, encoded.arrowData);
      bodyLen := written.value;
      assert Zeros(PadTo8(arrowDataLen)) == [];
    } else {
      assert encoded.arrowData == [];
    }
    assert w.bytes == before + prefix + buffer + Zeros(paddingBytes) + encoded.arrowData;
    AppendFrame(before, prefix, buffer, Zeros(paddingBytes), encoded.arrowData);
    r := Ok((alignedSize, bodyLen));
  }

  lemma AppendFrame(before: seq<byte>, prefix: seq<byte>, message: seq<byte>, padding: seq<byte>, body: seq<byte>)
    ensures before + prefix + message + padding + body == before + (prefix + message + padding + body)
  {
  }

  /** The bytes a successful `write_message` adds form an encapsulated
      message, and the two lengths it reports add up to them. */
  lemma WrittenMessageIsEncapsulated(before: seq<byte>, after: seq<byte>, e: EncodedData, alignedSize: nat, bodyLen: nat)
    requires |e.arrowData| % 8 == 0
    requires after == before + Frame(e)
    requires alignedSize == AlignedSize(|e.ipcMessage|) && bodyLen == |e.arrowData|
    ensures after[..|before|] == before
    ensures IsEncapsulated(after[|before|..], e, alignedSize)
    ensures |after| - |before| == alignedSize + bodyLen
    ensures alignedSize % 8 == 0 && bodyLen % 8 == 0
    ensures bodyLen == 0 ==> after[|before|..] == after[|before|..|before| + alignedSize]
  {
    FrameLayout(e);
    assert after[|before|..] == Frame(e);
  }

  /** Metadata `"AB"` and an 8-byte body: the prefix carries length `8`
      (16 aligned bytes less the 8-byte prefix), six zeros pad the
      metadata, and 24 bytes are written. */
  method WriteMessageExample() returns (out: seq<byte>, r: Result<(nat, nat)>)
    ensures r == Ok((16, 8))
    ensures out == [0xff, 0xff, 0xff, 0xff, 8, 0, 0, 0, 0x41, 0x42, 0, 0, 0, 0, 0, 0, 1, 2, 3, 4, 5, 6, 7, 8]
  {
    var w := new Writer();
    r := WriteMessage(w, EncodedData([0x41, 0x42], [1, 2, 3, 4, 5, 6, 7, 8]));
    ExampleFrame();
    out := w.bytes;
  }

  lemma ExampleFrame()
    ensures AlignedSize(2) == 16
    ensures Frame(EncodedData([0x41, 0x42], [1, 2, 3, 4, 5, 6, 7, 8]))
         == [0xff, 0xff, 0xff, 0xff, 8, 0, 0, 0, 0x41, 0x42, 0, 0, 0, 0, 0, 0, 1, 2, 3, 4, 5, 6, 7, 8]
  {
    ExampleParts();
  }

  lemma ExampleParts()
    ensures AlignedSize(2) == 16
    ensures ToLeBytes(WrapI32(8)) == [8, 0, 0, 0]
    ensures Zeros(6) == [0, 0, 0, 0, 0, 0]
  {
    assert AlignedSize(2) == 16;
    assert ToLeBytes(WrapI32(8)) == [8, 0, 0, 0];
    assert Zeros(6) == [0, 0, 0, 0, 0, 0];
  }
}
