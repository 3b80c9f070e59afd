/** The SCALE codec as the price client uses it: fixed-width little-endian integers, compact
    lengths, byte vectors, and records that are their fields one after the other (Polkadot Protocol
    Specification, appendix "Cryptography & Encoding", section A.2.2). */
module Scale {
  import opened Wrappers
  import opened Arithmetic
  import opened Bytes
  import opened Records

  // ---------------------------------------------------------------- little-endian integers

  function Power256(width: nat): (p: nat)
    ensures p > 0
  {
    if width == 0 then 1 else 256 * Power256(width - 1)
  }

  /** `width` bytes, least significant first. */
  function EncodeInt(n: nat, width: nat): (b: ByteString)
    ensures |b| == width
    decreases width
  {
    if width == 0 then [] else [n % 256] + EncodeInt(n / 256, width - 1)
  }

  function DecodeInt(b: ByteString): nat {
    if b == [] then 0 else b[0] as nat + 256 * DecodeInt(b[1..])
  }

  lemma {:induction false} IntRoundTrip(n: nat, width: nat)
    requires n < Power256(width)
    ensures DecodeInt(EncodeInt(n, width)) == n
    decreases width
  {
    if width > 0 {
      IntRoundTrip(n / 256, width - 1);
      assert EncodeInt(n, width)[1..] == EncodeInt(n / 256, width - 1);
    }
  }

  lemma {:induction false} IntInverse(b: ByteString)
    ensures DecodeInt(b) < Power256(|b|)
    ensures EncodeInt(DecodeInt(b), |b|) == b
  {
    if b != [] {
      IntInverse(b[1..]);
      assert DecodeInt(b) % 256 == b[0] && DecodeInt(b) / 256 == DecodeInt(b[1..]);
    }
  }

  /** Byte `i` is the digit of weight 256 to the `i`. */
  lemma {:induction false} IntBytes(n: nat, width: nat, i: nat)
    requires i < width
    ensures EncodeInt(n, width)[i] == n / Power256(i) % 256
    decreases i
  {
    if i > 0 {
      IntBytes(n / 256, width - 1, i - 1);
      DivTwice(n, Power256(i - 1));
    }
  }

  const TWO: nat := 2
  const FOUR: nat := 4

  lemma Widths()
    ensures Power256(TWO) == 0x1_0000 && Power256(FOUR) == U32_BOUND
  {
    assert Power256(2) == 0x1_0000 && Power256(4) == 0x1_0000_0000;
  }

  // ---------------------------------------------------------------- compact integers

  /** One, two, four or five bytes; the two low bits of the first say which. */
  function EncodeCompact(n: nat): (b: ByteString)
    requires n < U32_BOUND
    ensures b != []
  {
    if n < 0x40 then [4 * n]
    else if n < 0x4000 then EncodeInt(4 * n + 1, TWO)
    else if n < 0x4000_0000 then EncodeInt(4 * n + 2, FOUR)
    else [3] + EncodeInt(n, FOUR)
  }

  /** The four forms, by their value as a little-endian number. */
  lemma CompactForms(n: nat)
    requires n < U32_BOUND
    ensures var c := EncodeCompact(n);
            if n < 0x40 then c == [4 * n]
            else if n < 0x4000 then |c| == 2 && DecodeInt(c) == 4 * n + 1
            else if n < 0x4000_0000 then |c| == 4 && DecodeInt(c) == 4 * n + 2
            else |c| == 5 && c[0] == 3 && DecodeInt(c[1..]) == n
  {
    Widths();
    if n < 0x40 {
    } else if n < 0x4000 {
      IntRoundTrip(4 * n + 1, TWO);
    } else if n < 0x4000_0000 {
      IntRoundTrip(4 * n + 2, FOUR);
    } else {
      IntRoundTrip(n, FOUR);
      assert EncodeCompact(n)[1..] == EncodeInt(n, FOUR);
    }
  }

  /** Reads a compact integer off the front.  A value that fits a shorter form is refused. */
  function DecodeCompact(b: ByteString): Option<(nat, ByteString)> {
    if b == [] then None
    else if b[0] % 4 == 0 then Some((b[0] / 4, b[1..]))
    else if b[0] % 4 == 1 then
      if |b| < 2 then None else
        var n := DecodeInt(b[..TWO]) / 4;
        if n < 0x40 then None else Some((n, b[TWO..]))
    else if b[0] % 4 == 2 then
      if |b| < 4 then None else
        var n := DecodeInt(b[..FOUR]) / 4;
        if n < 0x4000 then None else Some((n, b[FOUR..]))
    else if b[0] != 3 || |b| < 5 then None
    else
      var n := DecodeInt(b[1..5]);
      if n < 0x4000_0000 then None else Some((n, b[5..]))
  }

  lemma LowBits(n: nat, tag: nat)
    requires tag < 4
    ensures (4 * n + tag) % 256 % 4 == tag
  {
  }

  /** The bytes of a tagged number: the tag shows in the first byte and the number comes back. */
  lemma TaggedRoundTrip(n: nat, tag: nat, width: nat)
    requires width > 0 && tag < 4 && 4 * n + tag < Power256(width)
    ensures var c := EncodeInt(4 * n + tag, width);
            c[0] % 4 == tag && DecodeInt(c) / 4 == n
  {
    IntRoundTrip(4 * n + tag, width);
    LowBits(n, tag);
  }

  lemma CompactRoundTrip(n: nat, rest: ByteString)
    requires n < U32_BOUND
    ensures DecodeCompact(EncodeCompact(n) + rest) == Some((n, rest))
  {
    Widths();
    if n < 0x40 {
      assert ([4 * n] + rest)[1..] == rest;
    } else if n < 0x4000 {
      TaggedRoundTrip(n, 1, TWO);
      TakeDrop(EncodeInt(4 * n + 1, TWO), rest);
    } else if n < 0x4000_0000 {
      TaggedRoundTrip(n, 2, FOUR);
      TakeDrop(EncodeInt(4 * n + 2, FOUR), rest);
    } else {
      IntRoundTrip(n, FOUR);
      LastForm(EncodeInt(n, FOUR), rest);
    }
  }

  lemma TakeDrop(c: ByteString, rest: ByteString)
    ensures (c + rest)[..|c|] == c && (c + rest)[|c|..] == rest
    ensures c != [] ==> (c + rest)[0] == c[0]
  {
  }

  lemma LastForm(c: ByteString, rest: ByteString)
    requires |c| == 4
    ensures ([3] + c + rest)[1..5] == c && ([3] + c + rest)[5..] == rest
  {
  }

  /** The tag of a form is what the low bits of its first byte say. */
  lemma TagOf(c: ByteString, tag: nat)
    requires c != [] && c[0] % 4 == tag
    ensures var n := DecodeInt(c) / 4;
            DecodeInt(c) == 4 * n + tag && EncodeInt(4 * n + tag, |c|) == c && 4 * n + tag < Power256(|c|)
  {
    IntInverse(c);
    assert DecodeInt(c) % 4 == tag;
  }

  lemma CompactInverse(b: ByteString)
    requires DecodeCompact(b).Some?
    ensures var (n, rest) := DecodeCompact(b).value;
            n < U32_BOUND && b == EncodeCompact(n) + rest
  {
    Widths();
    if b[0] % 4 == 1 {
      TagOf(b[..TWO], 1);
      assert b == b[..TWO] + b[TWO..];
    } else if b[0] % 4 == 2 {
      TagOf(b[..FOUR], 2);
      assert b == b[..FOUR] + b[FOUR..];
    } else if b[0] % 4 == 3 {
      IntInverse(b[1..5]);
      assert b == [3] + b[1..5] + b[5..];
    }
  }

  // ---------------------------------------------------------------- byte vectors

  /** The codec writes lengths as 32-bit compact integers. */
  predicate Encodable(v: ByteString) { |v| < U32_BOUND }

  function EncodeBytes(v: ByteString): (b: ByteString)
    requires Encodable(v)
    ensures b != []
  {
    EncodeCompact(|v|) + v
  }

  function DecodeBytes(b: ByteString): Option<(ByteString, ByteString)> {
    match DecodeCompact(b)
    case None => None
    case Some((n, rest)) => if |rest| < n then None else Some((rest[..n], rest[n..]))
  }

  /** Decoding inverts encoding in both directions: it yields `v` and leaves `rest` exactly on the
      inputs that are the encoding of `v` followed by `rest`.  So encodings are unique and no
      encoding is a prefix of another. */
  lemma DecodeBytesExactly(b: ByteString, v: ByteString, rest: ByteString)
    ensures DecodeBytes(b) == Some((v, rest)) <==> Encodable(v) && b == EncodeBytes(v) + rest
  {
    if Encodable(v) && b == EncodeBytes(v) + rest {
      assert b == EncodeCompact(|v|) + (v + rest);
      CompactRoundTrip(|v|, v + rest);
      assert (v + rest)[..|v|] == v && (v + rest)[|v|..] == rest;
    }
    if DecodeBytes(b) == Some((v, rest)) {
      CompactInverse(b);
      var (n, tail) := DecodeCompact(b).value;
      assert tail == v + rest;
      assert b == EncodeCompact(|v|) + (v + rest) == EncodeBytes(v) + rest;
    }
  }

  // ---------------------------------------------------------------- records of byte vectors

  lemma BytesAreExact()
    ensures Exact(EncodeBytes, DecodeBytes)
  {
    forall b, v, rest ensures ExactAt(EncodeBytes, DecodeBytes, b, v, rest) {
      DecodeBytesExactly(b, v, rest);
    }
  }

  ghost predicate AllEncodable(fields: seq<ByteString>) {
    forall i :: 0 <= i < |fields| ==> Encodable(fields[i])
  }

  /** A struct of byte vectors. */
  function EncodeFields(fields: seq<ByteString>): ByteString
    requires AllEncodable(fields)
  {
    Write(EncodeBytes, fields)
  }

  /** Trailing bytes are ignored. */
  function DecodeFields(b: ByteString, count: nat): (r: Option<seq<ByteString>>)
    ensures r.Some? ==> |r.value| == count
  {
    Read(DecodeBytes, b, count)
  }

  /** Reading `count` fields from an encoded record gives its first `count` fields when it has that
      many, and fails when it has fewer. */
  lemma DecodeFieldsOfRecord(fields: seq<ByteString>, count: nat)
    requires AllEncodable(fields)
    ensures DecodeFields(EncodeFields(fields), count) == if count <= |fields| then Some(fields[..count]) else None
  {
    BytesAreExact();
    ReadOfWritten(EncodeBytes, DecodeBytes, fields, count);
  }

  /** Decoding a record is exact too: it succeeds with `fields` precisely on the inputs that begin
      with the encoding of `fields`. */
  lemma DecodeFieldsExactly(b: ByteString, fields: seq<ByteString>)
    ensures DecodeFields(b, |fields|) == Some(fields)
       <==> AllEncodable(fields) && exists rest :: b == EncodeFields(fields) + rest
  {
    BytesAreExact();
    if DecodeFields(b, |fields|) == Some(fields) {
      var rest := ReadInverse(EncodeBytes, DecodeBytes, b, fields);
      assert forall i :: 0 <= i < |fields| ==> EncodeBytes.requires(fields[i]);
      assert b == EncodeFields(fields) + rest;
    } else if AllEncodable(fields) {
      forall rest ensures b != EncodeFields(fields) + rest {
        WriteInverse(EncodeBytes, DecodeBytes, fields, rest);
      }
    }
  }
}
