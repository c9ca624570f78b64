/** What the reader makes of bytes that are no printed form: which ones are an
    error, and which error, behind any printed elements or words. */
module RespErrors {
  import opened Bytes
  import opened Resp
  import opened RespInline
  import opened RespRoundTrip

  // ---- Numbers ----

  lemma AtoiOfMinus(m: nat)
    requires m <= INT_LIMIT
    ensures Atoi([MINUS] + Decimal(m)) == 0 - m
  {
    hide Decimal, Digits, ToInt;
    var b := [MINUS] + Decimal(m);
    DigitsOfDecimal(m);
    assert b[1..] == Decimal(m);
    SmallInt(0 - m);
    assert SkipBlanks(b) == b;
  }

  lemma SmallInt(x: int)
    requires -INT_LIMIT <= x < INT_LIMIT
    ensures ToInt(x) == x
  {
  }

  /** Text that does not begin like a number counts as zero. */
  lemma AtoiOfText(x: Bytes)
    requires x != [] && !IsDigit(x[0]) && !IsBlank(x[0]) && x[0] != MINUS && x[0] != PLUS
    ensures Atoi(x) == 0
  {
  }

  // ---- A line behind a mark ----

  /** The line x, without LF, ends at an LF: where the reader finds it. */
  lemma LineAt(b: Bytes, i: nat, mark: byte, x: Bytes, t: Bytes)
    requires i <= |b| && b[i..] == [mark] + x + [LF] + t && LF !in x
    ensures var k := i + 1 + |x|;
            && k < |b| && b[i] == mark && Find(b, i + 1, LF) == k && b[i + 1..k] == x
            && b[k - 1] == (if x == [] then mark else x[|x| - 1])
  {
    var w, k := [mark] + x + [LF] + t, i + 1 + |x|;
    assert forall j :: i <= j < |b| ==> b[j] == b[i..][j - i] == w[j - i];
    assert b[i + 1..k] == x by { assert b[i + 1..k] == b[i..][1..1 + |x|] == w[1..1 + |x|]; }
    forall j | i + 1 <= j < k ensures b[j] != LF {
      assert b[j] == w[j - i] == x[j - i - 1];
    }
    assert b[k] == w[k - i] == LF;
    assert b[k - 1] == w[k - 1 - i];
  }

  /** A line that ends in CR LF. */
  lemma LineCRLF(b: Bytes, i: nat, mark: byte, x: Bytes, t: Bytes)
    requires i <= |b| && b[i..] == [mark] + x + CRLF + t && LF !in x
    ensures var k := i + 2 + |x|;
            && k < |b| && b[i] == mark && Find(b, i + 1, LF) == k && b[k - 1] == CR
            && b[i + 1..k - 1] == x && b[k + 1..] == t
  {
    assert [mark] + x + CRLF + t == [mark] + (x + [CR]) + [LF] + t;
    LineAt(b, i, mark, x + [CR], t);
    var k := i + 2 + |x|;
    assert b[i + 1..k - 1] == b[i + 1..k][..|x|];
    assert b[k + 1..] == b[i..][|x| + 3..];
  }

  // ---- Bytes that stop the loop over bulk strings ----

  /** The bytes are an error where a bulk string is expected: behind any first
      elements of an array that is to have more, and alone if they begin with a
      dollar sign. */
  ghost predicate Refused(tail: Bytes, e: Error, junk: int) {
    && (forall n: nat, es :: Unfinished(n, es) ==> Read(Header(STAR, n) + BulkSeq(es) + tail, junk) == Failed(e))
    && (tail != [] && tail[0] == DOLLAR ==> Read(tail, junk) == Failed(e))
  }

  ghost predicate Unfinished(n: nat, es: seq<Element>) {
    |es| < n < INT_LIMIT && forall e :: e in es ==> Sized(e)
  }

  /** The bytes stop a turn of the loop, wherever they stand. */
  ghost predicate Stops(tail: Bytes, e: Error) {
    forall b: Bytes, i: nat, lone: bool :: i <= |b| && b[i..] == tail ==> BulkTurn(b, i, lone) == Stop(e)
  }

  lemma StopsReader(tail: Bytes, e: Error, junk: int)
    requires tail != [] && Stops(tail, e)
    ensures Refused(tail, e, junk)
  {
    hide Bulks, BulkTurn, BulkSeq, Header, Stops;
    forall n: nat, es | Unfinished(n, es) ensures Read(Header(STAR, n) + BulkSeq(es) + tail, junk) == Failed(e) {
      var front := Header(STAR, n) + BulkSeq(es);
      var b := front + tail;
      assert b[0..0 + |front|] == front && b[|front|..] == tail;
      FrontReads(n, es, b, junk);
      StopsAt(tail, e, b, |front|, false);
      NextTurn(b, |front|, n - |es|, ElementArgs(es), false);
    }
    if tail[0] == DOLLAR {
      assert tail[0..] == tail;
      StopsAt(tail, e, tail, 0, true);
      NextTurn(tail, 0, 1, [], true);
    }
  }

  lemma StopsAt(tail: Bytes, e: Error, b: Bytes, i: nat, lone: bool)
    requires Stops(tail, e) && i <= |b| && b[i..] == tail
    ensures BulkTurn(b, i, lone) == Stop(e)
  {
  }

  /** A length, then so many bytes that are not followed by CR LF. */
  lemma DataWithoutEnd(d: Bytes, x: byte, y: byte, t: Bytes, junk: int)
    requires |d| < INT_LIMIT && [x, y] != CRLF
    ensures Refused(Header(DOLLAR, |d|) + d + [x, y] + t, InvalidBulkData, junk)
  {
    hide Refused, Read, BulkTurn, Header;
    var tail := Header(DOLLAR, |d|) + d + [x, y] + t;
    forall b: Bytes, i: nat, lone: bool | i <= |b| && b[i..] == tail
      ensures BulkTurn(b, i, lone) == Stop(InvalidBulkData)
    {
      DataTurn(b, i, d, x, y, t, lone);
    }
    StopsReader(tail, InvalidBulkData, junk);
  }

  lemma DataTurn(b: Bytes, i: nat, d: Bytes, x: byte, y: byte, t: Bytes, lone: bool)
    requires |d| < INT_LIMIT && [x, y] != CRLF && i <= |b| && b[i..] == Header(DOLLAR, |d|) + d + [x, y] + t
    ensures BulkTurn(b, i, lone) == Stop(InvalidBulkData)
  {
    var h := Header(DOLLAR, |d|);
    assert b[i..i + |h|] == b[i..][..|h|] == h;
    HeaderScan(b, i, DOLLAR, |d|);
    var e := i + |h| + |d|;
    assert b[e] == b[i..][|h| + |d|] == x && b[e + 1] == b[i..][|h| + |d| + 1] == y;
  }

  /** Any other byte in the place of the dollar sign. */
  lemma NoDollar(c: byte, t: Bytes, junk: int)
    requires c != DOLLAR
    ensures Refused([c] + t, ExpectedDollar(c), junk)
  {
    hide Refused, Read;
    forall b: Bytes, i: nat, lone: bool | i <= |b| && b[i..] == [c] + t
      ensures BulkTurn(b, i, lone) == Stop(ExpectedDollar(c))
    {
      assert b[i] == b[i..][0];
    }
    StopsReader([c] + t, ExpectedDollar(c), junk);
  }

  /** A length line without CR. */
  lemma LengthWithoutCR(x: Bytes, t: Bytes, junk: int)
    requires LF !in x && (x != [] ==> x[|x| - 1] != CR)
    ensures Refused([DOLLAR] + x + [LF] + t, InvalidBulkLength, junk)
  {
    hide Refused, Read;
    var tail := [DOLLAR] + x + [LF] + t;
    forall b: Bytes, i: nat, lone: bool | i <= |b| && b[i..] == tail
      ensures BulkTurn(b, i, lone) == Stop(InvalidBulkLength)
    {
      LineAt(b, i, DOLLAR, x, t);
    }
    StopsReader(tail, InvalidBulkLength, junk);
  }

  /** A length line whose number is less than -1, or which is zero but not one
      byte long. */
  lemma BadLength(x: Bytes, t: Bytes, junk: int)
    requires LF !in x && (Atoi(x) < -1 || (Atoi(x) == 0 && |x| != 1))
    ensures Refused([DOLLAR] + x + CRLF + t, InvalidBulkLength, junk)
  {
    hide Refused, Read, Atoi;
    var tail := [DOLLAR] + x + CRLF + t;
    forall b: Bytes, i: nat, lone: bool | i <= |b| && b[i..] == tail
      ensures BulkTurn(b, i, lone) == Stop(InvalidBulkLength)
    {
      LineCRLF(b, i, DOLLAR, x, t);
    }
    StopsReader(tail, InvalidBulkLength, junk);
  }

  lemma DecimalHasNoLF(n: nat)
    ensures LF !in Decimal(n)
  {
  }

  /** So a negative length other than -1 is an error, and so is a word. */
  lemma NegativeLength(m: nat, t: Bytes, junk: int)
    requires 2 <= m < INT_LIMIT
    ensures Refused([DOLLAR] + ([MINUS] + Decimal(m)) + CRLF + t, InvalidBulkLength, junk)
  {
    hide Refused, Read;
    AtoiOfMinus(m);
    hide Atoi, Decimal;
    DecimalHasNoLF(m);
    BadLength([MINUS] + Decimal(m), t, junk);
  }

  lemma WordForLength(x: Bytes, t: Bytes, junk: int)
    requires |x| > 1 && LF !in x && !IsDigit(x[0]) && !IsBlank(x[0]) && x[0] != MINUS && x[0] != PLUS
    ensures Refused([DOLLAR] + x + CRLF + t, InvalidBulkLength, junk)
  {
    hide Refused, Read;
    AtoiOfText(x);
    hide Atoi;
    BadLength(x, t, junk);
  }

  // ---- Array headers ----

  lemma HeaderWithoutCR(x: Bytes, t: Bytes, junk: int)
    requires LF !in x && (x != [] ==> x[|x| - 1] != CR)
    ensures Read([STAR] + x + [LF] + t, junk) == Failed(InvalidMultibulkLength)
  {
    hide Bulks, Atoi;
    var b := [STAR] + x + [LF] + t;
    assert b[0..] == b;
    LineAt(b, 0, STAR, x, t);
  }

  lemma BadHeader(x: Bytes, t: Bytes, junk: int)
    requires LF !in x && (Atoi(x) < 0 || (Atoi(x) == 0 && |x| != 1))
    ensures Read([STAR] + x + CRLF + t, junk) == Failed(InvalidMultibulkLength)
  {
    hide Bulks, Atoi;
    var b := [STAR] + x + CRLF + t;
    assert b[0..] == b;
    LineCRLF(b, 0, STAR, x, t);
  }

  lemma NegativeHeader(m: nat, t: Bytes, junk: int)
    requires 0 < m < INT_LIMIT
    ensures Read([STAR] + ([MINUS] + Decimal(m)) + CRLF + t, junk) == Failed(InvalidMultibulkLength)
  {
    hide Read;
    AtoiOfMinus(m);
    hide Atoi, Decimal;
    DecimalHasNoLF(m);
    BadHeader([MINUS] + Decimal(m), t, junk);
  }

  /** An array without elements is a command without words, but only once a byte
      follows it. Any one byte that counts as zero will do for the number. */
  lemma EmptyArray(c: byte, t: Bytes, junk: int)
    requires c != LF && Atoi([c]) == 0
    ensures Read([STAR, c] + CRLF + t, junk) == if t == [] then Incomplete else Command([], 4)
  {
    hide Bulks, Atoi;
    var b := [STAR, c] + CRLF + t;
    assert b == [STAR] + [c] + CRLF + t && b[0..] == b;
    LineCRLF(b, 0, STAR, [c], t);
    BulksEnd(b, 4, 0, [], false);
  }

  /** So it is with the length of an empty string. */
  lemma EmptyBulk(c: byte, t: Bytes, junk: int)
    requires c != LF && Atoi([c]) == 0
    ensures Read([DOLLAR, c] + CRLF + CRLF + t, junk) == Command([BULK, []], 6)
  {
    hide Bulks, Atoi;
    var b := [DOLLAR, c] + CRLF + CRLF + t;
    assert b == [DOLLAR] + [c] + CRLF + (CRLF + t) && b[0..] == b;
    LineCRLF(b, 0, DOLLAR, [c], CRLF + t);
    assert b[4] == CR && b[5] == LF && b[4..4] == [];
    assert BulkTurn(b, 0, true) == Go(6, [BULK] + [[]], false);
    NextTurn(b, 0, 1, [], true);
    BulksEnd(b, 6, 0, [BULK, []], false);
    assert [] + ([BULK] + [[]]) == [BULK, []];
  }

  /** A byte that counts as zero: the digit, or any byte that is no digit. */
  lemma ZeroByte(c: byte)
    requires c == 48 || !IsDigit(c)
    ensures Atoi([c]) == 0
  {
    var one, none: Bytes := [c], [];
    assert one[1..] == none;
    SmallInt(0);
    hide ToInt;
    assert SkipBlanks(one) == if IsBlank(c) then none else one;
    assert Digits(none, 0) == 0 && Digits(one, 0) == 0;
  }

  // ---- Simple strings ----

  predicate Simple(x: Bytes)
    requires |x| >= 4
  {
    x[..4] == OK + CRLF || x[..4] == KO + CRLF
  }

  /** Behind an unknown simple string the reader goes on as if an array had been
      announced, of as many elements as the unset variable says: none, or the
      printed ones that are there, or an error. */
  lemma UnknownSimple(x: Bytes, junk: int)
    requires |x| >= 4 && !Simple(x)
    ensures junk <= 0 ==> Read([PLUS] + x, junk) == Command([], 1)
    ensures junk > 0 && x[0] != DOLLAR ==> Read([PLUS] + x, junk) == Failed(ExpectedDollar(x[0]))
  {
    hide Bulks;
    var b := [PLUS] + x;
    assert b[1..5] == x[..4] && b[1] == x[0];
    BulksEnd(b, 1, junk, [], false);
    if junk > 0 { NextTurn(b, 1, junk, [], false); }
  }

  lemma {:induction false} UnknownSimpleArray(es: seq<Element>, t: Bytes)
    requires es != [] && forall e :: e in es ==> Sized(e)
    ensures Read([PLUS] + BulkSeq(es) + t, |es|) == Command(ElementArgs(es), 1 + |BulkSeq(es)|)
  {
    hide Bulks, ElementArgs;
    var x := BulkSeq(es);
    var b := [PLUS] + x + t;
    assert |x| >= 5 && x[0] == DOLLAR by { ElementFirst(es); }
    assert b[1..1 + |x|] == x && b[1..5] == x[..4];
    assert x[..4][0] == DOLLAR && (OK + CRLF)[0] != DOLLAR && (KO + CRLF)[0] != DOLLAR;
    hide BulkSeq;
    ManyBulks(b, 1, es, |es|, []);
    BulksEnd(b, 1 + |x|, 0, ElementArgs(es), false);
    assert [] + ElementArgs(es) == ElementArgs(es);
  }

  lemma ElementFirst(es: seq<Element>)
    requires es != []
    ensures |BulkSeq(es)| >= 5 && BulkSeq(es)[0] == DOLLAR
  {
  }

  // ---- Inline lines ----

  /** Words with a space behind each. */
  function FrontWords(ws: seq<Word>): Bytes {
    if ws == [] then [] else WordBytes(ws[0]) + [SPACE] + FrontWords(ws[1..])
  }

  ghost predicate InlineFront(ws: seq<Word>, rest: Bytes) {
    && (forall w :: w in ws ==> GoodWord(w))
    && var b := FrontWords(ws) + rest;
       b != [] && b[0] != DOLLAR && b[0] != STAR && b[0] != PLUS
  }

  /** Finished words are taken, whatever follows them. */
  lemma {:induction false} WordsThen(b: Bytes, i: nat, ws: seq<Word>, rest: Bytes, args: seq<Bytes>)
    requires i <= |b| && b[i..] == FrontWords(ws) + rest && forall w :: w in ws ==> GoodWord(w)
    ensures var j := i + |FrontWords(ws)|;
            && j <= |b| && b[j..] == rest
            && Inline(b, i, i, true, args) == Inline(b, j, j, true, args + Texts(ws))
    decreases |ws|
  {
    hide Inline, WordBytes, GoodWord;
    if ws == [] {
      assert args + Texts(ws) == args;
    } else {
      assert ws[0] in ws;
      FirstThen(b, i, ws, rest, args);
      WordsThen(b, i + |WordBytes(ws[0])| + 1, ws[1..], rest, args + [ws[0].w]);
      TextsFrom(args, ws);
    }
  }

  lemma FirstThen(b: Bytes, i: nat, ws: seq<Word>, rest: Bytes, args: seq<Bytes>)
    requires ws != [] && GoodWord(ws[0]) && i <= |b| && b[i..] == FrontWords(ws) + rest
    ensures var k := i + |WordBytes(ws[0])| + 1;
            && k + |FrontWords(ws[1..])| == i + |FrontWords(ws)|
            && k <= |b| && b[k..] == FrontWords(ws[1..]) + rest
            && Inline(b, i, i, true, args) == Inline(b, k, k, true, args + [ws[0].w])
  {
    hide Inline, WordBytes, GoodWord, FrontWords;
    var x, f := WordBytes(ws[0]), FrontWords(ws[1..]);
    FrontUnfold(ws);
    Parts(b, i, x, f, rest);
    NextWordReads(b, i, ws[0], f + rest, args);
  }

  lemma FrontUnfold(ws: seq<Word>)
    requires ws != []
    ensures FrontWords(ws) == WordBytes(ws[0]) + [SPACE] + FrontWords(ws[1..])
  {
    hide WordBytes;
  }

  lemma Parts(b: Bytes, i: nat, x: Bytes, f: Bytes, rest: Bytes)
    requires i <= |b| && b[i..] == (x + [SPACE] + f) + rest
    ensures var n := |x| + 1 + |f + rest|; i + n <= |b| && b[i..i + n] == x + [SPACE] + (f + rest)
    ensures b[i + |x| + 1..] == f + rest
  {
    var n := |x| + 1 + |f + rest|;
    assert (x + [SPACE] + f) + rest == x + [SPACE] + (f + rest);
    assert b[i..i + n] == b[i..];
    assert b[i + |x| + 1..] == b[i..][|x| + 1..];
  }

  lemma ReadFront(ws: seq<Word>, rest: Bytes, junk: int)
    requires InlineFront(ws, rest)
    ensures var b, j := FrontWords(ws) + rest, |FrontWords(ws)|;
            b[j..] == rest && Read(b, junk) == Inline(b, j, j, true, Texts(ws))
  {
    hide Inline, Bulks, FrontWords;
    var b := FrontWords(ws) + rest;
    assert b[0..] == b && [] + Texts(ws) == Texts(ws);
    WordsThen(b, 0, ws, rest, []);
  }

  /** A quote inside a word. */
  lemma QuoteInWord(ws: seq<Word>, w: Bytes, q: byte, t: Bytes, junk: int)
    requires w != [] && (forall k :: 0 <= k < |w| ==> Ordinary(w[k])) && IsQuote(q)
    requires InlineFront(ws, w + [q] + t)
    ensures Read(FrontWords(ws) + (w + [q] + t), junk) == Failed(UnbalancedQuotes)
  {
    hide Read, FrontWords, Texts;
    var rest := w + [q] + t;
    var b, i := FrontWords(ws) + rest, |FrontWords(ws)|;
    ReadFront(ws, rest, junk);
    assert forall m :: i <= m < |b| ==> b[m] == b[i..][m - i] == rest[m - i];
    forall m | i <= m < i + |w| ensures Ordinary(b[m]) {
      assert b[m] == w[m - i];
    }
    hide Inline;
    OpenWord(b, i, i + |w|, Texts(ws));
    assert b[i + |w|] == rest[|w|] == q;
    QuoteAt(b, i + |w|, i, Texts(ws));
  }

  lemma QuoteAt(b: Bytes, i: nat, s: nat, args: seq<Bytes>)
    requires s <= i < |b| && IsQuote(b[i])
    ensures Inline(b, i, s, false, args) == Failed(UnbalancedQuotes)
  {
  }

  /** A closing quote that is not the end of its word. */
  lemma TextBehindQuote(ws: seq<Word>, q: byte, w: Bytes, c: byte, t: Bytes, junk: int)
    requires IsQuote(q) && q !in w && c != SPACE && c != CR && c != LF
    requires InlineFront(ws, [q] + w + [q, c] + t)
    ensures Read(FrontWords(ws) + ([q] + w + [q, c] + t), junk) == Failed(UnbalancedQuotes)
  {
    hide Read, FrontWords, Texts, Inline;
    var rest := [q] + w + [q, c] + t;
    var b, i := FrontWords(ws) + rest, |FrontWords(ws)|;
    ReadFront(ws, rest, junk);
    QuotedAt(b, i, q, w, [q, c] + t);
    assert ([q] + w + ([q, c] + t)) == rest;
    assert b[i + 1 + |w|] == rest[1 + |w|] && b[i + 2 + |w|] == rest[2 + |w|];
    NotEnded(b, i, i + 1 + |w|, Texts(ws));
  }

  /** A quote that is never closed waits for its end, over any bytes. */
  lemma OpenQuoteWaits(ws: seq<Word>, q: byte, w: Bytes, junk: int)
    requires IsQuote(q) && q !in w && InlineFront(ws, [q] + w)
    ensures Read(FrontWords(ws) + ([q] + w), junk) == Incomplete
  {
    hide Read, FrontWords, Texts, Inline;
    var b, i := FrontWords(ws) + ([q] + w), |FrontWords(ws)|;
    ReadFront(ws, [q] + w, junk);
    assert [q] + w + [] == [q] + w;
    QuotedAt(b, i, q, w, []);
    NeverEnded(b, i, Texts(ws));
  }

  lemma QuotedAt(b: Bytes, i: nat, q: byte, w: Bytes, rest: Bytes)
    requires i <= |b| && b[i..] == [q] + w + rest && q !in w && (rest != [] ==> rest[0] == q)
    ensures i < |b| && b[i] == q && Find(b, i + 1, q) == i + 1 + |w|
  {
    var all := [q] + w + rest;
    assert forall m :: i <= m < |b| ==> b[m] == b[i..][m - i] == all[m - i];
    forall m | i + 1 <= m < i + 1 + |w| ensures b[m] != q {
      assert b[m] == w[m - i - 1];
    }
    if rest != [] { assert b[i + 1 + |w|] == all[1 + |w|] == q; }
  }

  lemma NotEnded(b: Bytes, i: nat, q: nat, args: seq<Bytes>)
    requires i < |b| && IsQuote(b[i]) && Find(b, i + 1, b[i]) == q && q + 1 < |b|
    requires b[q + 1] != SPACE && b[q + 1] != CR && b[q + 1] != LF
    ensures Inline(b, i, i, true, args) == Failed(UnbalancedQuotes)
  {
  }

  lemma NeverEnded(b: Bytes, i: nat, args: seq<Bytes>)
    requires i < |b| && IsQuote(b[i]) && Find(b, i + 1, b[i]) == |b|
    ensures Inline(b, i, i, true, args) == Incomplete
  {
  }
}
