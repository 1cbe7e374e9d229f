/** The glue around the QMX codec: `encode` turns a postings list into d-gaps, sizes a
    scratch buffer, hands both to the foreign encoder and keeps the bytes it reports;
    `decode` has the foreign decoder fill `count` gaps in the caller's buffer and turns
    them back into document ids with an in-place running sum.

    The foreign encoder and decoder are opaque; they are parameters here, described by
    what they produce. */
module QmxGlue {
  import opened Words
  import opened DeltaCoding

  /** The two ways the glue can panic. */
  datatype Fault =
    | Underflow(at: nat)                     // `docs[curr] - prev` overflowed at `curr = at`
    | SliceOutOfRange(end: nat, len: nat)    // `compressed[..end]` with `end > len`

  datatype Result<T> = Ok(value: T) | Err(fault: Fault)

  /** What one run of the foreign encoder does: the bytes it writes at the front of the
      buffer it is given, and the length it returns. */
  datatype Encoded = Encoded(written: seq<u8>, bytes: nat)

  /** The foreign encoder, from the gaps and the buffer length it is given. */
  type Encoder = (seq<u32>, nat) -> Encoded

  /** The foreign decoder: the value it stores in slot `slot` when asked to decode
      `count` integers from `data`. */
  type Decoder = (seq<u8>, nat, nat) -> u32

  /** The length of the scratch buffer handed to the encoder for `n` integers. */
  function Capacity(n: nat): (c: nat)
    ensures c >= 8 * n && c - 8 * n == 1049088
  {
    8 * n + 512 + 1024 * 1024
  }

  /** A buffer after the encoder has written `written` at its front, without running past
      its end. */
  function Overlay(buffer: seq<u8>, written: seq<u8>): seq<u8> {
    seq(|buffer|, i requires 0 <= i < |buffer| => if i < |written| then written[i] else buffer[i])
  }

  /** The zero-filled scratch buffer `vec![0u8; n]`. */
  function Zeros(n: nat): seq<u8> {
    seq(n, _ => 0)
  }

  /** What `encode` returns, or the panic it stops with. */
  function EncodeResult(docs: seq<u32>, qmx: Encoder): (r: Result<seq<u8>>)
    ensures (r.Err? && r.fault.Underflow?) <==> !NonDecreasing(docs)
    ensures r.Ok? ==> |r.value| <= Capacity(|docs|)
  {
    if !NonDecreasing(docs) then Err(Underflow(FirstDescent(docs)))
    else
      var cap := Capacity(|docs|);
      var out := qmx(DGaps(docs), cap);
      if out.bytes <= cap then Ok(Overlay(Zeros(cap), out.written)[..out.bytes])
      else Err(SliceOutOfRange(out.bytes, cap))
  }

  /** The gaps the foreign decoder stores in the first `count` slots. */
  function DecodedGaps(data: seq<u8>, count: nat, qmx: Decoder): seq<u32> {
    seq(count, i requires 0 <= i < count => qmx(data, count, i))
  }

  /** What `decode` leaves in the first `count` slots of the output buffer. */
  function DecodeResult(data: seq<u8>, count: nat, qmx: Decoder): (ids: seq<u32>)
    ensures |ids| == count
    ensures count > 0 ==> ids[0] == qmx(data, count, 0)
  {
    RunningSum(DecodedGaps(data, count, qmx))
  }

  /** The d-gap loop of `encode`, with Rust's checked `u32` subtraction: it either fills a
      fresh vector with the gaps, or panics at the first position where the list goes down. */
  method ToDGaps(docs: seq<u32>) returns (r: Result<seq<u32>>)
    ensures NonDecreasing(docs) ==> r == Ok(DGaps(docs))
    ensures !NonDecreasing(docs) ==> r == Err(Underflow(FirstDescent(docs)))
  {
    // `vec![0u32; docs.len()]`; every slot is overwritten before it is read.
    var sourceIntegers := new u32[|docs|];
    var prev: u32 := 0;
    for curr := 0 to |docs|
      invariant NonDecreasing(docs[..curr])
      invariant prev == if curr == 0 then 0 else docs[curr - 1]
      invariant forall i :: 0 <= i < curr ==>
        sourceIntegers[i] as int == docs[i] as int - (if i == 0 then 0 else docs[i - 1] as int)
    {
      if docs[curr] < prev {
        FirstDescentUnique(docs, curr);
        return Err(Underflow(curr));
      }
      sourceIntegers[curr] := docs[curr] - prev;
      prev := docs[curr];
      NonDecreasingExtend(docs, curr);
    }
    assert docs[..|docs|] == docs;
    DGapsPointwise(docs, sourceIntegers[..]);
    r := Ok(sourceIntegers[..]);
  }

  /** The call to the foreign encoder: it writes inside `encoded` only, and returns the
      length it reports. */
  method QmxEncode(qmx: Encoder, encoded: array<u8>, source: seq<u32>) returns (bytes: nat)
    modifies encoded
    ensures bytes == qmx(source, encoded.Length).bytes
    ensures encoded[..] == Overlay(old(encoded[..]), qmx(source, encoded.Length).written)
  {
    var out := qmx(source, encoded.Length);
    forall i | 0 <= i < encoded.Length && i < |out.written| {
      encoded[i] := out.written[i];
    }
    bytes := out.bytes;
  }

  /** `encode`: the gaps, the scratch buffer of `Capacity(|docs|)` bytes, the foreign
      encoder, and the first `bytes` bytes of the buffer as the result. */
  method Encode(docs: seq<u32>, qmx: Encoder) returns (r: Result<seq<u8>>)
    ensures r == EncodeResult(docs, qmx)
    ensures r.Ok? <==> NonDecreasing(docs) && qmx(DGaps(docs), Capacity(|docs|)).bytes <= Capacity(|docs|)
    ensures r.Ok? ==> |r.value| == qmx(DGaps(docs), Capacity(|docs|)).bytes <= Capacity(|docs|)
  {
    var gaps := ToDGaps(docs);
    if gaps.Err? {
      return Err(gaps.fault);
    }
    assert NonDecreasing(docs) && gaps.value == DGaps(docs);
    var compressed := new u8[Capacity(|docs|)](_ => 0);
    assert compressed[..] == Zeros(compressed.Length);
    var bytes := QmxEncode(qmx, compressed, gaps.value);
    ghost var image := Overlay(Zeros(Capacity(|docs|)), qmx(DGaps(docs), Capacity(|docs|)).written);
    assert compressed[..] == image;
    if bytes > compressed.Length {
      return Err(SliceOutOfRange(bytes, compressed.Length));
    }
    assert compressed[..bytes] == image[..bytes];
    var output: seq<u8> := [];
    output := output + compressed[..bytes];
    assert output == image[..bytes];
    r := Ok(output);
  }

  /** The call to the foreign decoder, as intended: it stores `count` gaps at the front of
      `to` and touches nothing else. (The Rust declaration of `qmx_decode` and its C++
      definition disagree in their parameters; this is the call the glue means to make.) */
  method QmxDecode(qmx: Decoder, to: array<u32>, count: nat, source: seq<u8>)
    requires count <= to.Length
    modifies to
    ensures to[..count] == DecodedGaps(source, count, qmx)
    ensures to[count..] == old(to[count..])
  {
    forall i | 0 <= i < count {
      to[i] := qmx(source, count, i);
    }
  }

  /** `cumulative_sum_256` as its scalar equivalent: `data[i] += data[i-1]` for
      `i = 1..length-1`, left to right and in place, with 32-bit lanes. */
  method CumulativeSum(data: array<u32>, length: nat)
    requires length <= data.Length
    modifies data
    ensures data[..length] == RunningSum(old(data[..length]))
    ensures data[length..] == old(data[length..])
  {
    if length == 0 {
      return;
    }
    ghost var original := data[..length];
    assert original[..1] == [original[0]];
    var i := 1;
    while i < length
      invariant 1 <= i <= length
      invariant data[..i] == RunningSum(original[..i])
      invariant data[i..] == old(data[i..])
    {
      assert original[..i + 1][..i] == original[..i];
      data[i] := WrappingAdd(data[i], data[i - 1]);
      i := i + 1;
    }
    assert original[..length] == original;
  }

  /** `decode`: the foreign decoder (the intended call, see `QmxDecode`) fills `count`
      gaps, then the running sum turns them into document ids. The Rust code does not check that `count` fits the buffer; the
      foreign decoder would write past it otherwise. */
  method Decode(data: seq<u8>, outputBuf: array<u32>, count: u32, qmx: Decoder)
    requires count as int <= outputBuf.Length
    modifies outputBuf
    ensures outputBuf[..count] == DecodeResult(data, count as nat, qmx)
    ensures outputBuf[count..] == old(outputBuf[count..])
  {
    var integersToDecode := count as nat;
    QmxDecode(qmx, outputBuf, integersToDecode, data);
    CumulativeSum(outputBuf, integersToDecode);
  }

  /** When the reported length fits the buffer, the result is exactly the first `bytes`
      bytes of the buffer: what the encoder wrote, then zeros. (The encoder is modelled as
      writing only inside the buffer it is handed; see `Overlay`.) */
  lemma EncodeResultPrefix(docs: seq<u32>, qmx: Encoder)
    requires NonDecreasing(docs)
    requires qmx(DGaps(docs), Capacity(|docs|)).bytes <= Capacity(|docs|)
    ensures EncodeResult(docs, qmx).Ok?
    ensures var out := qmx(DGaps(docs), Capacity(|docs|));
      var v := EncodeResult(docs, qmx).value;
      |v| == out.bytes &&
      forall i :: 0 <= i < |v| ==> v[i] == if i < |out.written| then out.written[i] else 0
  {
  }

  /** The codec round trip: if the foreign decoder, given the encoder's bytes and the list's
      length, yields the gaps the encoder was given, then decoding rebuilds the list. */
  lemma {:induction false} EncodeDecodeRoundTrip(docs: seq<u32>, enc: Encoder, dec: Decoder)
    requires NonDecreasing(docs)
    requires EncodeResult(docs, enc).Ok?
    requires forall i :: 0 <= i < |docs| ==>
      dec(EncodeResult(docs, enc).value, |docs|, i) == DGaps(docs)[i]
    ensures DecodeResult(EncodeResult(docs, enc).value, |docs|, dec) == docs
  {
    var data := EncodeResult(docs, enc).value;
    assert DecodedGaps(data, |docs|, dec) == DGaps(docs);
    DGapsRoundTrip(docs);
  }

  /** `decode` with `count = 0` leaves the whole output buffer as it was. */
  method DecodeNothing(data: seq<u8>, outputBuf: array<u32>, qmx: Decoder)
    modifies outputBuf
    ensures outputBuf[..] == old(outputBuf[..])
  {
    Decode(data, outputBuf, 0, qmx);
    assert outputBuf[..] == outputBuf[0..];
    assert old(outputBuf[..]) == old(outputBuf[0..]);
  }

  /** The scratch buffer grows by exactly 8 bytes per integer. */
  lemma CapacityMonotone(m: nat, n: nat)
    requires m <= n
    ensures Capacity(m) <= Capacity(n)
    ensures Capacity(n) - Capacity(m) == 8 * (n - m)
  {
  }
}
