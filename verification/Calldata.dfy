/** The Ethereum calldata of a price: a function selector and the price as one `uint256` word of 64
    lower-case hexadecimal digits, left-padded with zeros (Ethereum Contract ABI Specification,
    section "Formal Specification of the Encoding"). */
module Calldata {
  import opened Arithmetic
  import opened Bytes

  const WORD: nat := 64

  function Digit(d: nat): (c: Byte)
    requires d < 16
    ensures IsDigit(c)
  {
    if d < 10 then 48 + d else 87 + d
  }

  /** '0'..'9' or 'a'..'f'. */
  predicate IsDigit(c: Byte) { 48 <= c <= 57 || 97 <= c <= 102 }

  function DigitValue(c: Byte): (d: nat)
    requires IsDigit(c)
    ensures d < 16 && Digit(d) == c
  {
    if c <= 57 then c - 48 else c - 87
  }

  predicate IsHex(s: ByteString) {
    forall i :: 0 <= i < |s| ==> IsDigit(s[i])
  }

  /** `format!("{:x}", n)`. */
  function Hex(n: nat): (s: ByteString)
    ensures s != [] && IsHex(s)
  {
    if n < 16 then [Digit(n)] else Hex(n / 16) + [Digit(n % 16)]
  }

  function Zeros(k: nat): (s: ByteString)
    ensures |s| == k && IsHex(s)
  {
    seq(k, _ => 48)
  }

  const SELECTOR: ByteString := Ascii("0xd423740b")

  /** The padded argument, `"0".repeat(64 - param.len())` and `param`: the subtraction must not
      underflow. */
  function Word(n: nat): (s: ByteString)
    requires |Hex(n)| <= WORD
    ensures |s| == WORD && IsHex(s)
  {
    Zeros(WORD - |Hex(n)|) + Hex(n)
  }

  function Calldata(n: nat): (s: ByteString)
    requires |Hex(n)| <= WORD
    ensures |s| == 74
  {
    SELECTOR + Word(n)
  }

  /** The number a string of digits denotes, most significant first. */
  function Value(s: ByteString): nat
    requires IsHex(s)
  {
    if s == [] then 0 else 16 * Value(s[..|s| - 1]) + DigitValue(s[|s| - 1])
  }

  function Power16(k: nat): (p: nat)
    ensures p > 0
  {
    if k == 0 then 1 else 16 * Power16(k - 1)
  }

  lemma {:induction false} HexValue(n: nat)
    ensures Value(Hex(n)) == n
  {
    if n < 16 {
      assert Value([Digit(n)]) == 16 * Value([]) + DigitValue(Digit(n));
    } else {
      HexValue(n / 16);
      var s := Hex(n);
      assert s[..|s| - 1] == Hex(n / 16);
    }
  }

  /** The hexadecimal form fits `k` digits exactly when the number is below 16 to the `k`. */
  lemma {:induction false} HexLength(n: nat, k: nat)
    requires k > 0
    ensures |Hex(n)| <= k <==> n < Power16(k)
  {
    if n < 16 {
      Power16Grows(1, k);
    } else if k == 1 {
      assert Power16(1) == 16 * Power16(0);
    } else {
      HexLength(n / 16, k - 1);
      assert |Hex(n)| == |Hex(n / 16)| + 1;
      var p := Power16(k - 1);
      assert n < 16 * p <==> n / 16 < p;
    }
  }

  lemma {:induction false} Power16Grows(j: nat, k: nat)
    requires j <= k
    ensures Power16(j) <= Power16(k)
  {
    if j < k { Power16Grows(j, k - 1); }
  }

  /** Every 32-bit price fits, so the padding never underflows. */
  lemma U32Fits(n: nat)
    requires n < U32_BOUND
    ensures |Hex(n)| <= 8 && n < Power16(WORD)
  {
    assert Power16(8) == 0x1_0000_0000;
    HexLength(n, 8);
    HexLength(n, WORD);
  }

  lemma {:induction false} ValueOfPadded(k: nat, s: ByteString)
    requires IsHex(s)
    ensures Value(Zeros(k) + s) == Value(s)
    decreases |s|, k
  {
    var z := Zeros(k) + s;
    if s != [] {
      var n := |s| - 1;
      assert z[..|z| - 1] == Zeros(k) + s[..n];
      ValueOfPadded(k, s[..n]);
    } else if k > 0 {
      assert z[..|z| - 1] == Zeros(k - 1) + s;
      ValueOfPadded(k - 1, s);
    }
  }

  lemma Scaled(d: nat, p: nat)
    ensures d * (16 * p) == 16 * (d * p)
  {
  }

  /** Value by the leading digit. */
  lemma {:induction false} ValueCons(s: ByteString)
    requires IsHex(s) && s != []
    ensures Value(s) == DigitValue(s[0]) * Power16(|s| - 1) + Value(s[1..])
    ensures Value(s[1..]) < Power16(|s| - 1)
    decreases |s|
  {
    var n := |s| - 1;
    if n == 0 {
      assert s[..0] == [] && s[1..] == [];
    } else {
      var front := s[..n];
      ValueCons(front);
      var rest := s[1..];
      assert rest[..n - 1] == front[1..];
      assert rest[n - 1] == s[n];
      assert Value(rest) == 16 * Value(front[1..]) + DigitValue(s[n]);
      Scaled(DigitValue(s[0]), Power16(n - 1));
    }
  }

  /** Among digit strings of one length, lexicographic order is numeric order. */
  lemma {:induction false} OrderOfDigits(s: ByteString, t: ByteString)
    requires IsHex(s) && IsHex(t) && |s| == |t|
    ensures Less(s, t) <==> Value(s) < Value(t)
    ensures s == t <==> Value(s) == Value(t)
    decreases |s|
  {
    if s != [] {
      ValueCons(s);
      ValueCons(t);
      OrderOfDigits(s[1..], t[1..]);
      var p := Power16(|s| - 1);
      LeadingDigit(DigitValue(s[0]), Value(s[1..]), DigitValue(t[0]), Value(t[1..]), p);
      assert s == [s[0]] + s[1..] && t == [t[0]] + t[1..];
      assert s[0] < t[0] <==> DigitValue(s[0]) < DigitValue(t[0]);
    }
  }

  lemma LeadingDigit(d: nat, x: nat, e: nat, y: nat, p: nat)
    requires x < p && y < p
    ensures d * p + x < e * p + y <==> d < e || (d == e && x < y)
    ensures d * p + x == e * p + y <==> d == e && x == y
  {
    if d < e {
      Gap(d, e, p);
    } else if e < d {
      Gap(e, d, p);
    }
  }

  lemma {:induction false} LessAfterPrefix(prefix: ByteString, s: ByteString, t: ByteString)
    ensures Less(prefix + s, prefix + t) <==> Less(s, t)
  {
    if prefix == [] {
      assert prefix + s == s && prefix + t == t;
    } else {
      assert (prefix + s)[1..] == prefix[1..] + s && (prefix + t)[1..] == prefix[1..] + t;
      LessAfterPrefix(prefix[1..], s, t);
    }
  }

  lemma WordValue(n: nat)
    requires n < Power16(WORD)
    ensures |Hex(n)| <= WORD && Value(Word(n)) == n
  {
    HexLength(n, WORD);
    ValueOfPadded(WORD - |Hex(n)|, Hex(n));
    HexValue(n);
  }

  /** Calldata is the selector and a word; for every number below 16 to the 64 that word, and no other
      word of 64 digits, denotes the number. */
  lemma CalldataDecodes(n: nat, word: ByteString)
    requires n < Power16(WORD)
    requires IsHex(word) && |word| == WORD
    ensures |Hex(n)| <= WORD
    ensures Calldata(n) == SELECTOR + word <==> Value(word) == n
  {
    WordValue(n);
    OrderOfDigits(Word(n), word);
    if Calldata(n) == SELECTOR + word {
      assert (SELECTOR + word)[10..] == word && (SELECTOR + Word(n))[10..] == Word(n);
    }
  }

  lemma ValueBound(s: ByteString)
    requires IsHex(s)
    ensures Value(s) < Power16(|s|)
  {
    if s != [] {
      ValueCons(s);
      LeadingDigit(DigitValue(s[0]), Value(s[1..]), 16, 0, Power16(|s| - 1));
    }
  }

  /** Every word of 64 digits is the one of the number it denotes. */
  lemma EveryWordIsCalldata(word: ByteString)
    requires IsHex(word) && |word| == WORD
    ensures |Hex(Value(word))| <= WORD && Calldata(Value(word)) == SELECTOR + word
  {
    ValueBound(word);
    CalldataDecodes(Value(word), word);
  }

  /** Comparing calldata as text compares prices. */
  lemma CalldataOrder(a: nat, b: nat)
    requires a < Power16(WORD) && b < Power16(WORD)
    ensures |Hex(a)| <= WORD && |Hex(b)| <= WORD
    ensures Less(Calldata(a), Calldata(b)) <==> a < b
  {
    WordValue(a);
    WordValue(b);
    LessAfterPrefix(SELECTOR, Word(a), Word(b));
    OrderOfDigits(Word(a), Word(b));
  }

  /** Calldata begins with the ten characters `0xd423740b` and continues with 64 digits. */
  lemma CalldataText(n: nat)
    requires n < Power16(WORD)
    ensures |Hex(n)| <= WORD
    ensures Calldata(n)[..10] == [48, 120, 100, 52, 50, 51, 55, 52, 48, 98]
    ensures |Calldata(n)[10..]| == 64 && IsHex(Calldata(n)[10..]) && Value(Calldata(n)[10..]) == n
  {
    WordValue(n);
    assert Calldata(n)[10..] == Word(n);
  }
}
