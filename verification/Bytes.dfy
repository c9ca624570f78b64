/** Bytes, decimal numbers as printed by the "%d" conversion, and the library
    function atoi. */
module Bytes {

  type byte = x: int | 0 <= x < 256

  type Bytes = seq<byte>

  const LF: byte := 10
  const CR: byte := 13
  const SPACE: byte := 32
  const DOUBLE_QUOTE: byte := 34
  const DOLLAR: byte := 36
  const SINGLE_QUOTE: byte := 39
  const STAR: byte := 42
  const PLUS: byte := 43
  const MINUS: byte := 45

  const CRLF: Bytes := [CR, LF]
  const INT_LIMIT: int := 0x8000_0000
  const LONG_LIMIT: int := 0x8000_0000_0000_0000

  /** The bytes of an ASCII literal. */
  function Ascii(s: string): (r: Bytes)
    ensures |r| == |s| && forall i :: 0 <= i < |s| ==> r[i] == s[i] as int % 256
  {
    seq(|s|, i requires 0 <= i < |s| => s[i] as int % 256)
  }

  predicate IsDigit(c: byte) {
    48 <= c <= 57
  }

  predicate IsBlank(c: byte) {
    c == SPACE || 9 <= c <= 13
  }

  predicate IsQuote(c: byte) {
    c == SINGLE_QUOTE || c == DOUBLE_QUOTE
  }

  /** First index at or after i that holds c, or the length if there is none. */
  function Find(b: Bytes, i: nat, c: byte): (k: nat)
    requires i <= |b|
    ensures i <= k <= |b|
    ensures k < |b| ==> b[k] == c
    ensures forall j :: i <= j < k ==> b[j] != c
    decreases |b| - i
  {
    if i == |b| || b[i] == c then i else Find(b, i + 1, c)
  }

  /** "%d" of a non-negative number. */
  function Decimal(n: nat): (r: Bytes)
    ensures |r| > 0 && forall i :: 0 <= i < |r| ==> IsDigit(r[i])
  {
    if n < 10 then [48 + n] else Decimal(n / 10) + [48 + n % 10]
  }

  /** The number spelled by the leading digits of b, continuing from acc. */
  function Digits(b: Bytes, acc: nat): nat
    decreases |b|
  {
    if b == [] || !IsDigit(b[0]) then acc else Digits(b[1..], 10 * acc + (b[0] - 48))
  }

  function SkipBlanks(b: Bytes): Bytes
    decreases |b|
  {
    if b == [] || !IsBlank(b[0]) then b else SkipBlanks(b[1..])
  }

  /** Conversion of a long to int, two's complement. */
  function ToInt(x: int): int {
    (x + INT_LIMIT) % (2 * INT_LIMIT) - INT_LIMIT
  }

  /** atoi as strtol narrowed to int: blanks, a sign, digits; strtol saturates. */
  function Atoi(b: Bytes): int {
    var t := SkipBlanks(b);
    var negative := t != [] && t[0] == MINUS;
    var signed := negative || (t != [] && t[0] == PLUS);
    var n: int := Digits(if signed then t[1..] else t, 0);
    ToInt(if negative then (if n > LONG_LIMIT then -LONG_LIMIT else -n)
          else if n >= LONG_LIMIT then LONG_LIMIT - 1 else n)
  }

  lemma {:induction false} DigitsLast(b: Bytes, c: byte, acc: nat)
    requires IsDigit(c) && forall i :: 0 <= i < |b| ==> IsDigit(b[i])
    ensures Digits(b + [c], acc) == 10 * Digits(b, acc) + (c - 48)
    decreases |b|
  {
    if b == [] {
      assert Digits([c][1..], 10 * acc + (c - 48)) == 10 * acc + (c - 48);
    } else {
      assert (b + [c])[1..] == b[1..] + [c];
      DigitsLast(b[1..], c, 10 * acc + (b[0] - 48));
    }
  }

  lemma {:induction false} DigitsOfDecimal(n: nat)
    ensures Digits(Decimal(n), 0) == n
  {
    if n >= 10 {
      DigitsOfDecimal(n / 10);
      DigitsLast(Decimal(n / 10), 48 + n % 10, 0);
    } else {
      assert Digits([48 + n][1..], n) == n;
    }
  }

  /** Reading back what was printed, for every non-negative int. */
  lemma AtoiOfDecimal(n: nat)
    requires n < INT_LIMIT
    ensures Atoi(Decimal(n)) == n
  {
    DigitsOfDecimal(n);
    assert IsDigit(Decimal(n)[0]);
  }
}
