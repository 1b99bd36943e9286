/** The range coder as a symbol queue: an encoder appends symbols, and a decoder that
    reads the same stream gets the written symbols back in order.  Both directions go
    through one value type because the allocator takes an encoder and a decoder and
    picks one by its `encode` flag (internal/celt/rate.go). */
module RangeCoder {
  datatype Symbol =
    | Bit(value: nat, logp: nat)         // EncBitLogp / DecBitLogp
    | Uniform(value: nat, total: nat)    // EncUint / DecUint
    | Tabled(value: nat, table: nat)     // EncIcdf / DecIcdf over a fixed table
    | Raw(value: nat, width: nat)        // EncBits / DecBits

  datatype Coder =
    | Encoding(written: seq<Symbol>)
    | Decoding(stream: seq<Symbol>, pos: nat)
  {
    /** The symbols coded so far, the same for both ends of a stream. */
    function Coded(): seq<Symbol> {
      match this
      case Encoding(written) => written
      case Decoding(stream, pos) => if pos <= |stream| then stream[..pos] else stream
    }
  }

  /** Codes a flag: the encoder writes `value`, the decoder returns what it reads.  A
      stream that holds something else there still decodes to some flag. */
  function CodeBit(c: Coder, value: nat, logp: nat): (r: (Coder, nat))
    requires value <= 1
    ensures r.1 <= 1
    ensures c.Encoding? <==> r.0.Encoding?
  {
    match c
    case Encoding(written) => (Encoding(written + [Bit(value, logp)]), value)
    case Decoding(stream, pos) =>
      if pos < |stream| && stream[pos].Bit? && stream[pos].logp == logp && stream[pos].value <= 1 then
        (Decoding(stream, pos + 1), stream[pos].value)
      else
        (Decoding(stream, pos + 1), 0)
  }

  /** Codes a value uniform in [0, total). */
  function CodeUniform(c: Coder, value: nat, total: nat): (r: (Coder, nat))
    requires value < total
    ensures r.1 < total
    ensures c.Encoding? <==> r.0.Encoding?
  {
    match c
    case Encoding(written) => (Encoding(written + [Uniform(value, total)]), value)
    case Decoding(stream, pos) =>
      if pos < |stream| && stream[pos].Uniform? && stream[pos].total == total && stream[pos].value < total then
        (Decoding(stream, pos + 1), stream[pos].value)
      else
        (Decoding(stream, pos + 1), 0)
  }

  /** Codes `width` raw bits. */
  function CodeRaw(c: Coder, value: nat, width: nat): (r: (Coder, nat))
    requires value < Power2(width)
    ensures r.1 < Power2(width)
    ensures c.Encoding? <==> r.0.Encoding?
  {
    match c
    case Encoding(written) => (Encoding(written + [Raw(value, width)]), value)
    case Decoding(stream, pos) =>
      if pos < |stream| && stream[pos].Raw? && stream[pos].width == width && stream[pos].value < Power2(width) then
        (Decoding(stream, pos + 1), stream[pos].value)
      else
        (Decoding(stream, pos + 1), 0)
  }

  /** Codes a value below `size` by the fixed table number `table`. */
  function CodeTabled(c: Coder, value: nat, table: nat, size: nat): (r: (Coder, nat))
    requires value < size
    ensures r.1 < size
    ensures c.Encoding? <==> r.0.Encoding?
  {
    match c
    case Encoding(written) => (Encoding(written + [Tabled(value, table)]), value)
    case Decoding(stream, pos) =>
      if pos < |stream| && stream[pos].Tabled? && stream[pos].table == table && stream[pos].value < size then
        (Decoding(stream, pos + 1), stream[pos].value)
      else
        (Decoding(stream, pos + 1), 0)
  }

  function Power2(n: nat): (p: nat)
    ensures p >= 1
  {
    if n == 0 then 1 else 2 * Power2(n - 1)
  }

  /** A decoder reading `stream` is where the encoder that wrote `e.written` is. */
  ghost predicate InStep(e: Coder, d: Coder) {
    e.Encoding? && d.Decoding? && d.pos == |e.written| && e.written <= d.stream
  }

  /** Ends in step have coded the same symbols, so they make the same room tests. */
  lemma InStepCodedSame(e: Coder, d: Coder)
    requires InStep(e, d)
    ensures e.Coded() == d.Coded()
  {
  }

  lemma BitInStep(e: Coder, d: Coder, value: nat, other: nat, logp: nat)
    requires InStep(e, d) && value <= 1 && other <= 1
    requires CodeBit(e, value, logp).0.written <= d.stream
    ensures var (e', v) := CodeBit(e, value, logp);
            var (d', w) := CodeBit(d, other, logp);
            v == w == value && InStep(e', d') && d'.stream == d.stream
  {
    var e' := CodeBit(e, value, logp).0;
    assert e'.written[|e.written|] == d.stream[|e.written|];
  }

  lemma UniformInStep(e: Coder, d: Coder, value: nat, other: nat, total: nat)
    requires InStep(e, d) && value < total && other < total
    requires CodeUniform(e, value, total).0.written <= d.stream
    ensures var (e', v) := CodeUniform(e, value, total);
            var (d', w) := CodeUniform(d, other, total);
            v == w == value && InStep(e', d') && d'.stream == d.stream
  {
    var e' := CodeUniform(e, value, total).0;
    assert e'.written[|e.written|] == d.stream[|e.written|];
  }

  lemma RawInStep(e: Coder, d: Coder, value: nat, other: nat, width: nat)
    requires InStep(e, d) && value < Power2(width) && other < Power2(width)
    requires CodeRaw(e, value, width).0.written <= d.stream
    ensures var (e', v) := CodeRaw(e, value, width);
            var (d', w) := CodeRaw(d, other, width);
            v == w == value && InStep(e', d') && d'.stream == d.stream
  {
    hide Power2;
    var e' := CodeRaw(e, value, width).0;
    assert e'.written[|e.written|] == d.stream[|e.written|];
  }

  lemma TabledInStep(e: Coder, d: Coder, value: nat, other: nat, table: nat, size: nat)
    requires InStep(e, d) && value < size && other < size
    requires CodeTabled(e, value, table, size).0.written <= d.stream
    ensures var (e', v) := CodeTabled(e, value, table, size);
            var (d', w) := CodeTabled(d, other, table, size);
            v == w == value && InStep(e', d') && d'.stream == d.stream
  {
    var e' := CodeTabled(e, value, table, size).0;
    assert e'.written[|e.written|] == d.stream[|e.written|];
  }
}
