/** Which byte strings are text, as `str::from_utf8` decides (The Unicode Standard, section 3.9,
    table 3-7, "Well-Formed UTF-8 Byte Sequences"). */
module Utf8 {
  import opened Bytes

  predicate Tail(b: Byte) { 0x80 <= b <= 0xBF }

  predicate Three(b: Byte, c: Byte) {
    if b == 0xE0 then 0xA0 <= c <= 0xBF
    else if b == 0xED then 0x80 <= c <= 0x9F
    else 0xE1 <= b <= 0xEF && Tail(c)
  }

  predicate Four(b: Byte, c: Byte) {
    if b == 0xF0 then 0x90 <= c <= 0xBF
    else if b == 0xF4 then 0x80 <= c <= 0x8F
    else 0xF1 <= b <= 0xF3 && Tail(c)
  }

  predicate ValidUtf8(b: ByteString) {
    if b == [] then true
    else if b[0] < 0x80 then ValidUtf8(b[1..])
    else if 0xC2 <= b[0] <= 0xDF then |b| >= 2 && Tail(b[1]) && ValidUtf8(b[2..])
    else if 0xE0 <= b[0] <= 0xEF then |b| >= 3 && Three(b[0], b[1]) && Tail(b[2]) && ValidUtf8(b[3..])
    else |b| >= 4 && Four(b[0], b[1]) && Tail(b[2]) && Tail(b[3]) && ValidUtf8(b[4..])
  }

  lemma {:induction false} AsciiIsUtf8(b: ByteString)
    requires forall i :: 0 <= i < |b| ==> b[i] < 0x80
    ensures ValidUtf8(b)
  {
    if b != [] { AsciiIsUtf8(b[1..]); }
  }

  /** `str::from_utf8(b).unwrap_or("error")`. */
  function TextOrError(b: ByteString): ByteString {
    if ValidUtf8(b) then b else Ascii("error")
  }

  // ---------------------------------------------------------------- text is encoded scalar values

  /** A Unicode scalar value: a code point that is not a surrogate. */
  type Scalar = n: nat | n < 0xD800 || 0xE000 <= n < 0x11_0000

  /** Six bits per continuation byte, the shortest form that fits. */
  function EncodeScalar(n: Scalar): ByteString {
    if n < 0x80 then [n]
    else if n < 0x800 then [0xC0 + n / 0x40, 0x80 + n % 0x40]
    else if n < 0x1_0000 then [0xE0 + n / 0x1000, 0x80 + n / 0x40 % 0x40, 0x80 + n % 0x40]
    else [0xF0 + n / 0x4_0000, 0x80 + n / 0x1000 % 0x40, 0x80 + n / 0x40 % 0x40, 0x80 + n % 0x40]
  }

  function EncodeText(text: seq<Scalar>): ByteString {
    if text == [] then [] else EncodeScalar(text[0]) + EncodeText(text[1..])
  }

  /** Each encoded scalar value has one of the four well-formed shapes. */
  lemma ScalarShape(n: Scalar)
    ensures var c := EncodeScalar(n);
            if n < 0x80 then |c| == 1 && c[0] < 0x80
            else if n < 0x800 then |c| == 2 && 0xC2 <= c[0] <= 0xDF && Tail(c[1])
            else if n < 0x1_0000 then |c| == 3 && 0xE0 <= c[0] <= 0xEF && Three(c[0], c[1]) && Tail(c[2])
            else |c| == 4 && 0xF0 <= c[0] && Four(c[0], c[1]) && Tail(c[2]) && Tail(c[3])
  {
  }

  lemma ShapeIsValid(c: ByteString, rest: ByteString)
    requires || (|c| == 1 && c[0] < 0x80)
             || (|c| == 2 && 0xC2 <= c[0] <= 0xDF && Tail(c[1]))
             || (|c| == 3 && 0xE0 <= c[0] <= 0xEF && Three(c[0], c[1]) && Tail(c[2]))
             || (|c| == 4 && 0xF0 <= c[0] && Four(c[0], c[1]) && Tail(c[2]) && Tail(c[3]))
    ensures ValidUtf8(c + rest) == ValidUtf8(rest)
  {
    assert (c + rest)[|c|..] == rest;
  }

  lemma ScalarIsValid(n: Scalar, rest: ByteString)
    ensures ValidUtf8(EncodeScalar(n) + rest) == ValidUtf8(rest)
  {
    ScalarShape(n);
    ShapeIsValid(EncodeScalar(n), rest);
  }

  lemma {:induction false} TextIsValid(text: seq<Scalar>)
    ensures ValidUtf8(EncodeText(text))
  {
    if text != [] {
      TextIsValid(text[1..]);
      ScalarIsValid(text[0], EncodeText(text[1..]));
    }
  }

  /** The scalar value at the front of a valid, non-empty byte string. */
  lemma FirstScalar(b: ByteString) returns (n: Scalar, rest: ByteString)
    requires b != [] && ValidUtf8(b)
    ensures b == EncodeScalar(n) + rest && ValidUtf8(rest) && |rest| < |b|
  {
    var b0: nat := b[0];
    if b0 < 0x80 {
      n, rest := b0, b[1..];
    } else if b0 <= 0xDF {
      n := Two(b0, b[1]);
      rest := b[2..];
      assert b == b[..2] + rest;
    } else if b0 <= 0xEF {
      n := ThreeBytes(b0, b[1], b[2]);
      rest := b[3..];
      assert b == b[..3] + rest;
    } else {
      n := FourBytes(b0, b[1], b[2], b[3]);
      rest := b[4..];
      assert b == b[..4] + rest;
    }
  }

  lemma Two(b: Byte, c: Byte) returns (n: Scalar)
    requires 0xC2 <= b <= 0xDF && Tail(c)
    ensures EncodeScalar(n) == [b, c]
  {
    n := (b - 0xC0) as nat * 0x40 + (c - 0x80) as nat;
  }

  lemma ThreeBytes(b: Byte, c: Byte, d: Byte) returns (n: Scalar)
    requires 0xE0 <= b <= 0xEF && Three(b, c) && Tail(d)
    ensures EncodeScalar(n) == [b, c, d]
  {
    var high: nat, mid: nat, low: nat := b - 0xE0, c - 0x80, d - 0x80;
    n := high * 0x1000 + mid * 0x40 + low;
    assert n / 0x40 == high * 0x40 + mid;
    assert n / 0x1000 == high;
  }

  lemma FourBytes(b: Byte, c: Byte, d: Byte, e: Byte) returns (n: Scalar)
    requires Four(b, c) && Tail(d) && Tail(e)
    ensures EncodeScalar(n) == [b, c, d, e]
  {
    var high: nat, mid: nat, next: nat, low: nat := b - 0xF0, c - 0x80, d - 0x80, e - 0x80;
    n := high * 0x4_0000 + mid * 0x1000 + next * 0x40 + low;
    assert n / 0x40 == high * 0x1000 + mid * 0x40 + next;
    assert n / 0x1000 == high * 0x40 + mid;
    assert n / 0x4_0000 == high;
  }

  lemma {:induction false} TextOf(b: ByteString) returns (text: seq<Scalar>)
    requires ValidUtf8(b)
    ensures EncodeText(text) == b
    decreases |b|
  {
    if b == [] {
      text := [];
    } else {
      var n, rest := FirstScalar(b);
      var tail := TextOf(rest);
      text := [n] + tail;
      assert text[1..] == tail;
    }
  }

  /** A byte string is text exactly when it is a sequence of scalar values, each encoded in its
      shortest form. */
  lemma ValidUtf8IsText(b: ByteString)
    ensures ValidUtf8(b) <==> exists text :: EncodeText(text) == b
  {
    if ValidUtf8(b) {
      var text := TextOf(b);
    }
    if text :| EncodeText(text) == b {
      TextIsValid(text);
    }
  }
}
