/** The reader and the printer undo each other, and what the reader makes of a
    printed form that is cut short. */
module RespRoundTrip {
  import opened Bytes
  import opened Resp
  import opened RespInline

  // ---- Slices ----

  /** A buffer that ends inside y. */
  lemma SplitCut(b: Bytes, i: nat, x: Bytes, y: Bytes)
    requires i + |x| <= |b| <= i + |x| + |y| && b[i..] == (x + y)[..|b| - i]
    ensures b[i..i + |x|] == x && b[i + |x|..] == y[..|b| - i - |x|]
  {
    assert b[i..i + |x|] == b[i..][..|x|];
    assert b[i + |x|..] == b[i..][|x|..];
  }

  // ---- Bulk strings ----

  /** A header inside a buffer: where its LF is and what atoi makes of it. */
  lemma HeaderScan(b: Bytes, i: nat, mark: byte, n: nat)
    requires n < INT_LIMIT && i + |Header(mark, n)| <= |b|
    requires b[i..i + |Header(mark, n)|] == Header(mark, n)
    ensures b[i] == mark
    ensures var k := Find(b, i + 1, LF);
            && k == i + |Header(mark, n)| - 1 && k < |b| && k - 1 > i + 1 - 1 && b[k - 1] == CR
            && b[i + 1..k - 1] == Decimal(n) && Atoi(b[i + 1..k - 1]) == n
            && (n == 0 ==> k - (i + 1) == 2)
  {
    var h := Header(mark, n);
    var d := Decimal(n);
    forall j | 0 <= j < |h|
      ensures b[i + j] == h[j]
    {
      assert b[i..i + |h|][j] == h[j];
    }
    assert h[|h| - 1] == LF && h[|h| - 2] == CR;
    assert forall j :: 1 <= j < |h| - 1 ==> h[j] != LF by {
      assert forall j :: 1 <= j < |h| - 2 ==> h[j] == d[j - 1];
    }
    var e := i + |h| - 1;
    assert b[e] == b[i + (|h| - 1)] == LF;
    assert forall j :: i + 1 <= j < e ==> b[j] != LF by {
      forall j | i + 1 <= j < e
        ensures b[j] != LF
      {
        assert b[j] == b[i + (j - i)] == h[j - i];
      }
    }
    assert b[e - 1] == b[i + (|h| - 2)] == CR;
    assert b[i + 1..e - 1] == d by {
      forall j | 0 <= j < |d|
        ensures b[i + 1 + j] == d[j]
      {
        assert b[i + (1 + j)] == h[1 + j];
      }
    }
    AtoiOfDecimal(n);
  }

  lemma BulkInPlace(b: Bytes, i: nat, a: Bytes)
    requires i + |BulkBytes(a)| <= |b| && b[i..i + |BulkBytes(a)|] == BulkBytes(a)
    ensures var h := |Header(DOLLAR, |a|)|;
            && b[i..i + h] == Header(DOLLAR, |a|)
            && b[i + h..i + h + |a|] == a && b[i + h + |a|] == CR && b[i + h + |a| + 1] == LF
  {
    var h := Header(DOLLAR, |a|);
    assert BulkBytes(a) == h + (a + CRLF);
    SplitSlice(b, i, h, a + CRLF);
    SplitSlice(b, i + |h|, a, CRLF);
    var e := i + |h| + |a|;
    assert b[e] == b[e..e + 2][0] && b[e + 1] == b[e..e + 2][1];
  }

  /** One printed bulk string is one turn of the reader's loop. */
  lemma OneBulk(b: Bytes, i: nat, a: Bytes, left: int, args: seq<Bytes>, lone: bool)
    requires |a| < INT_LIMIT && left > 0
    requires i + |BulkBytes(a)| <= |b| && b[i..i + |BulkBytes(a)|] == BulkBytes(a)
    ensures Bulks(b, i, left, args, lone) ==
            Bulks(b, i + |BulkBytes(a)|, left - 1, args + ((if lone then [BULK] else []) + [a]), false)
  {
    hide Bulks;
    var h := |Header(DOLLAR, |a|)|;
    assert |BulkBytes(a)| == h + |a| + 2;
    BulkInPlace(b, i, a);
    HeaderScan(b, i, DOLLAR, |a|);
    assert BulkTurn(b, i, lone) == Go(i + h + |a| + 2, (if lone then [BULK] else []) + [a], false);
    NextTurn(b, i, left, args, lone);
  }

  /** So is a printed nil. */
  lemma OneNil(b: Bytes, i: nat, left: int, args: seq<Bytes>, lone: bool)
    requires left > 0 && i + 5 <= |b| && b[i..i + 5] == ElementBytes(Absent)
    ensures Bulks(b, i, left, args, lone) == Bulks(b, i + 5, left - 1, args + [NOT], false)
  {
    hide Bulks;
    NilInPlace(b, i);
    assert BulkTurn(b, i, lone) == Go(i + 5, [NOT], false);
    NextTurn(b, i, left, args, lone);
  }

  lemma NilInPlace(b: Bytes, i: nat)
    requires i + 5 <= |b| && b[i..i + 5] == ElementBytes(Absent)
    ensures b[i] == DOLLAR && Find(b, i + 1, LF) == i + 4 && b[i + 3] == CR
    ensures Atoi(b[i + 1..i + 3]) == -1
  {
    var e := b[i..i + 5];
    assert b[i] == e[0] && b[i + 1] == e[1] && b[i + 2] == e[2] && b[i + 3] == e[3] && b[i + 4] == e[4];
    assert b[i + 1..i + 3] == [MINUS, 49];
    AtoiMinusOne();
  }

  lemma AtoiMinusOne()
    ensures Atoi([MINUS, 49]) == -1
  {
    assert Digits([49], 0) == 1 by { assert Digits([49][1..], 1) == 1; }
    assert [MINUS, 49][1..] == [49];
  }

  /** One printed element is one turn. */
  lemma OneElement(b: Bytes, i: nat, e: Element, left: int, args: seq<Bytes>)
    requires Sized(e) && left > 0
    requires i + |ElementBytes(e)| <= |b| && b[i..i + |ElementBytes(e)|] == ElementBytes(e)
    ensures Bulks(b, i, left, args, false) ==
            Bulks(b, i + |ElementBytes(e)|, left - 1, args + [ElementArg(e)], false)
  {
    hide Bulks, BulkBytes;
    match e
    case Data(d) =>
      OneBulk(b, i, d, left, args, false);
      assert args + ([] + [d]) == args + [d];
    case Absent => OneNil(b, i, left, args, false);
  }

  lemma NextTurn(b: Bytes, i: nat, left: int, args: seq<Bytes>, lone: bool)
    requires i <= |b| && left > 0
    ensures match BulkTurn(b, i, lone)
            case More => Bulks(b, i, left, args, lone) == Incomplete
            case Stop(e) => Bulks(b, i, left, args, lone) == Failed(e)
            case Go(next, added, flag) => Bulks(b, i, left, args, lone) == Bulks(b, next, left - 1, args + added, flag)
  {
    hide BulkTurn;
  }

  /** Where a printed bulk string is cut: in its length line the reader takes
      the cut for the end of the string, elsewhere it asks for more. */
  lemma CutBulk(b: Bytes, i: nat, a: Bytes, left: int, args: seq<Bytes>, lone: bool)
    requires |a| < INT_LIMIT && left > 0 && i <= |b| < i + |BulkBytes(a)|
    requires b[i..] == BulkBytes(a)[..|b| - i]
    ensures Bulks(b, i, left, args, lone) ==
            if 1 <= |b| - i < |Header(DOLLAR, |a|)| then Bulks(b, |b|, left - 1, args, lone) else Incomplete
  {
    hide Bulks;
    NextTurn(b, i, left, args, lone);
    assert args + [] == args;
    var w, h := BulkBytes(a), |Header(DOLLAR, |a|)|;
    forall j | i <= j < |b|
      ensures b[j] == w[j - i]
    {
      assert b[i..][j - i] == w[..|b| - i][j - i];
    }
    if |b| - i >= h {
      assert b[i..i + h] == Header(DOLLAR, |a|);
      HeaderScan(b, i, DOLLAR, |a|);
    } else if |b| > i {
      assert forall j :: 1 <= j < h - 1 ==> w[j] != LF by {
        var d := Decimal(|a|);
        assert forall j :: 1 <= j < h - 2 ==> w[j] == d[j - 1];
        assert w[h - 2] == CR;
      }
      assert Find(b, i + 1, LF) == |b|;
    }
  }

  /** A nil is all length line. */
  lemma CutNil(b: Bytes, i: nat, left: int, args: seq<Bytes>, lone: bool)
    requires left > 0 && i <= |b| < i + 5 && b[i..] == ElementBytes(Absent)[..|b| - i]
    ensures Bulks(b, i, left, args, lone) ==
            if |b| > i then Bulks(b, |b|, left - 1, args, lone) else Incomplete
  {
    hide Bulks;
    NextTurn(b, i, left, args, lone);
    assert args + [] == args;
    if |b| > i {
      var w := ElementBytes(Absent);
      assert forall j :: i <= j < |b| ==> b[j] == b[i..][j - i] == w[j - i];
      assert Find(b, i + 1, LF) == |b|;
    }
  }

  lemma CutElement(b: Bytes, i: nat, e: Element, left: int, args: seq<Bytes>)
    requires Sized(e) && left > 0 && i <= |b| < i + |ElementBytes(e)|
    requires b[i..] == ElementBytes(e)[..|b| - i]
    ensures Bulks(b, i, left, args, false) ==
            if 1 <= |b| - i < LengthLine(e) then Bulks(b, |b|, left - 1, args, false) else Incomplete
  {
    hide Bulks, BulkBytes, Header;
    match e
    case Data(d) => CutBulk(b, i, d, left, args, false);
    case Absent => CutNil(b, i, left, args, false);
  }

  /** The loop at its end, and with nothing left to read. */
  lemma BulksEnd(b: Bytes, i: nat, left: int, args: seq<Bytes>, lone: bool)
    requires i <= |b|
    ensures left <= 0 ==> Bulks(b, i, left, args, lone) == Command(args, i)
    ensures left > 0 && i == |b| ==> Bulks(b, i, left, args, lone) == Incomplete
  {
  }

  lemma {:induction false} NextBulk(b: Bytes, i: nat, rest: seq<Element>, left: int, args: seq<Bytes>)
    requires rest != [] && Sized(rest[0]) && left > 0
    requires i + |BulkSeq(rest)| <= |b| && b[i..i + |BulkSeq(rest)|] == BulkSeq(rest)
    ensures var j := i + |ElementBytes(rest[0])|;
            && j + |BulkSeq(rest[1..])| == i + |BulkSeq(rest)|
            && b[j..j + |BulkSeq(rest[1..])|] == BulkSeq(rest[1..])
            && Bulks(b, i, left, args, false) == Bulks(b, j, left - 1, args + [ElementArg(rest[0])], false)
  {
    hide Bulks, ElementBytes;
    SplitSlice(b, i, ElementBytes(rest[0]), BulkSeq(rest[1..]));
    OneElement(b, i, rest[0], left, args);
  }

  lemma ArgsFirst(args: seq<Bytes>, es: seq<Element>)
    requires es != []
    ensures args + [ElementArg(es[0])] + ElementArgs(es[1..]) == args + ElementArgs(es)
  {
    assert ElementArgs(es) == [ElementArg(es[0])] + ElementArgs(es[1..]);
  }

  /** Printed elements in place, the first of an array of `left`, are read one by
      one. */
  lemma {:induction false} ManyBulks(b: Bytes, i: nat, rest: seq<Element>, left: int, args: seq<Bytes>)
    requires left >= |rest| && forall e :: e in rest ==> Sized(e)
    requires i + |BulkSeq(rest)| <= |b| && b[i..i + |BulkSeq(rest)|] == BulkSeq(rest)
    ensures Bulks(b, i, left, args, false) ==
            Bulks(b, i + |BulkSeq(rest)|, left - |rest|, args + ElementArgs(rest), false)
    decreases |rest|
  {
    hide Bulks, ElementBytes, ElementArg;
    if rest == [] {
      assert args + ElementArgs(rest) == args;
    } else {
      NextBulk(b, i, rest, left, args);
      ManyBulks(b, i + |ElementBytes(rest[0])|, rest[1..], left - 1, args + [ElementArg(rest[0])]);
      ArgsFirst(args, rest);
    }
  }

  /** First position of the last printed element. */
  function LastStart(es: seq<Element>): nat
    requires es != []
  {
    if |es| == 1 then 0 else |ElementBytes(es[0])| + LastStart(es[1..])
  }

  /** A cut before the last element of a list is always noticed. */
  lemma CutFirst(b: Bytes, i: nat, rest: seq<Element>, args: seq<Bytes>)
    requires |rest| > 1 && Sized(rest[0])
    requires i <= |b| < i + |ElementBytes(rest[0])| && b[i..] == BulkSeq(rest)[..|b| - i]
    ensures Bulks(b, i, |rest|, args, false) == Incomplete
  {
    hide Bulks, ElementBytes, LengthLine;
    assert BulkSeq(rest)[..|b| - i] == ElementBytes(rest[0])[..|b| - i];
    CutElement(b, i, rest[0], |rest|, args);
    BulksEnd(b, |b|, |rest| - 1, args, false);
  }

  lemma CutLast(b: Bytes, i: nat, rest: seq<Element>, args: seq<Bytes>)
    requires |rest| == 1 && Sized(rest[0])
    requires i <= |b| < i + |BulkSeq(rest)| && b[i..] == BulkSeq(rest)[..|b| - i]
    ensures Bulks(b, i, 1, args, false) ==
            if 1 <= |b| - i < LengthLine(rest[0]) then Command(args + ElementArgs(rest[..0]), |b|) else Incomplete
  {
    hide Bulks, ElementBytes, LengthLine;
    assert BulkSeq(rest) == ElementBytes(rest[0]) by { assert rest[1..] == []; }
    CutElement(b, i, rest[0], 1, args);
    BulksEnd(b, |b|, 0, args, false);
    assert args + ElementArgs(rest[..0]) == args;
  }

  lemma LastStartNext(rest: seq<Element>)
    requires |rest| > 1
    ensures LastStart(rest) == |ElementBytes(rest[0])| + LastStart(rest[1..])
    ensures rest[1..][|rest| - 2] == rest[|rest| - 1]
    ensures |BulkSeq(rest)| == |ElementBytes(rest[0])| + |BulkSeq(rest[1..])|
  {
  }

  lemma AppendInit(args: seq<Bytes>, rest: seq<Element>)
    requires |rest| > 1
    ensures args + [ElementArg(rest[0])] + ElementArgs(rest[1..][..|rest| - 2]) ==
            args + ElementArgs(rest[..|rest| - 1])
  {
    var init := rest[..|rest| - 1];
    assert init[1..] == rest[1..][..|rest| - 2];
    ArgsFirst(args, init);
  }

  /** A printed list of elements cut after `|b| - i` bytes. */
  lemma {:induction false} CutBulks(b: Bytes, i: nat, rest: seq<Element>, args: seq<Bytes>)
    requires rest != [] && forall e :: e in rest ==> Sized(e)
    requires i <= |b| < i + |BulkSeq(rest)| && b[i..] == BulkSeq(rest)[..|b| - i]
    ensures var c := |b| - i - LastStart(rest);
            Bulks(b, i, |rest|, args, false) ==
              if 1 <= c < LengthLine(rest[|rest| - 1])
              then Command(args + ElementArgs(rest[..|rest| - 1]), |b|) else Incomplete
    decreases |rest|
  {
    hide Bulks, ElementBytes, LengthLine, BulkSeq, ElementArg;
    if |rest| == 1 {
      CutLast(b, i, rest, args);
    } else {
      LastStartNext(rest);
      hide LastStart;
      var w := ElementBytes(rest[0]);
      if |b| < i + |w| {
        CutFirst(b, i, rest, args);
      } else {
        CutBulksNext(b, i, rest, args);
        CutBulks(b, i + |w|, rest[1..], args + [ElementArg(rest[0])]);
        AppendInit(args, rest);
      }
    }
  }

  lemma {:induction false} CutBulksNext(b: Bytes, i: nat, rest: seq<Element>, args: seq<Bytes>)
    requires rest != [] && Sized(rest[0])
    requires i + |ElementBytes(rest[0])| <= |b| < i + |BulkSeq(rest)| && b[i..] == BulkSeq(rest)[..|b| - i]
    ensures var w := ElementBytes(rest[0]);
            && b[i + |w|..] == BulkSeq(rest[1..])[..|b| - i - |w|]
            && Bulks(b, i, |rest|, args, false) == Bulks(b, i + |w|, |rest| - 1, args + [ElementArg(rest[0])], false)
  {
    hide Bulks, ElementBytes;
    SplitCut(b, i, ElementBytes(rest[0]), BulkSeq(rest[1..]));
    OneElement(b, i, rest[0], |rest|, args);
  }

  // ---- Whole forms ----

  lemma LoneReads(data: Bytes, b: Bytes, junk: int)
    requires WellFormed(Lone(data)) && |BulkBytes(data)| <= |b| && b[0..0 + |BulkBytes(data)|] == BulkBytes(data)
    ensures Read(b, junk) == Command([BULK, data], |BulkBytes(data)|)
  {
    hide Bulks;
    OneBulk(b, 0, data, 1, [], true);
    BulksEnd(b, |BulkBytes(data)|, 0, [BULK, data], false);
    assert [] + ([BULK] + [data]) == [BULK, data];
    assert b[0] == b[0..0 + |BulkBytes(data)|][0];
  }

  lemma SimpleReads(w: Wire, t: Bytes, junk: int)
    requires w == Okay || w == NotOkay
    ensures Read(Encode(w) + t, junk) == Command(Args(w), 5)
  {
    var b := Encode(w) + t;
    assert b[1..5] == Encode(w)[1..];
    assert (KO + CRLF)[0] != (OK + CRLF)[0];
    if w == Okay { assert b[1..5] == OK + CRLF; } else { assert b[1..5] == KO + CRLF; }
  }

  lemma InlineReads(words: seq<Word>, crlf: bool, b: Bytes, junk: int)
    requires WellFormed(Line(words, crlf))
    requires var e := Encode(Line(words, crlf)); |e| <= |b| && b[0..0 + |e|] == e
    ensures Read(b, junk) == Command(Args(Line(words, crlf)), |Encode(Line(words, crlf))|)
  {
    hide Inline, Bulks, WordSeq, WordBytes, GoodWord, Texts;
    FirstByte(words, crlf);
    assert b[0] == b[0..0 + |Encode(Line(words, crlf))|][0];
    LineReads(b, 0, words, crlf, []);
    assert [] + Texts(words) == Texts(words);
  }

  /** Reading what a peer printed gives back its arguments and uses up exactly
      its bytes, whatever follows it. */
  lemma ReadEncoded(w: Wire, t: Bytes, junk: int)
    requires WellFormed(w)
    ensures Read(Encode(w) + t, junk) == Command(Args(w), |Encode(w)|)
  {
    hide Read, BulkBytes, Header, WordSeq, BulkSeq, ElementArgs;
    var e := Encode(w);
    var b := e + t;
    assert b[0..0 + |e|] == e;
    match w
    case Multi(es) => MultiReads(es, b, junk);
    case Lone(data) => LoneReads(data, b, junk);
    case Nil => NilReads(b, junk);
    case Okay => SimpleReads(w, t, junk);
    case NotOkay => SimpleReads(w, t, junk);
    case Line(words, crlf) => InlineReads(words, crlf, b, junk);
  }

  /** An inline line comes back as its words exactly when it does not end in a
      quoted word before CR LF. */
  lemma InlineRoundTrip(words: seq<Word>, crlf: bool, t: Bytes, junk: int)
    requires WellFormed(Line(words, crlf))
    ensures Read(Encode(Line(words, crlf)) + t, junk) == Command(Texts(words), |Encode(Line(words, crlf))|)
            <==> !(crlf && words[|words| - 1].Quoted?)
  {
    hide Read;
    ReadEncoded(Line(words, crlf), t, junk);
  }

  /** A whole array header in front of the bulk strings. */
  lemma {:induction false} ReadHeader(b: Bytes, n: nat, junk: int)
    requires 0 < n < INT_LIMIT && |Header(STAR, n)| <= |b| && b[0..0 + |Header(STAR, n)|] == Header(STAR, n)
    ensures Read(b, junk) ==
            if |Header(STAR, n)| == |b| then Incomplete else Bulks(b, |Header(STAR, n)|, n, [], false)
  {
    hide Bulks;
    HeaderScan(b, 0, STAR, n);
  }

  /** An array whose first elements are in place: the reader has their arguments
      and goes on behind them. */
  lemma {:induction false} FrontReads(n: nat, es: seq<Element>, b: Bytes, junk: int)
    requires 0 < n < INT_LIMIT && |es| <= n && forall e :: e in es ==> Sized(e)
    requires var front := Header(STAR, n) + BulkSeq(es);
             |Header(STAR, n)| < |b| && |front| <= |b| && b[0..0 + |front|] == front
    ensures Read(b, junk) == Bulks(b, |Header(STAR, n) + BulkSeq(es)|, n - |es|, ElementArgs(es), false)
  {
    hide Bulks, Read, Header, BulkSeq, ElementArgs;
    SplitSlice(b, 0, Header(STAR, n), BulkSeq(es));
    ReadHeader(b, n, junk);
    ManyBulks(b, |Header(STAR, n)|, es, n, []);
    assert [] + ElementArgs(es) == ElementArgs(es);
  }

  /** An array of bulk strings and nils reads back as one argument for each,
      NOT for a nil. */
  lemma MultiReads(es: seq<Element>, b: Bytes, junk: int)
    requires WellFormed(Multi(es)) && |Encode(Multi(es))| <= |b|
    requires b[0..0 + |Encode(Multi(es))|] == Encode(Multi(es))
    ensures Read(b, junk) == Command(ElementArgs(es), |Encode(Multi(es))|)
    ensures forall k :: 0 <= k < |es| ==>
              Read(b, junk).args[k] == match es[k] case Data(d) => d case Absent => [78, 79, 84]
  {
    hide Bulks, Read, Header;
    assert |BulkSeq(es)| > 0;
    hide BulkSeq;
    FrontReads(|es|, es, b, junk);
    BulksEnd(b, |Encode(Multi(es))|, 0, ElementArgs(es), false);
  }

  lemma NilReads(b: Bytes, junk: int)
    requires 5 <= |b| && b[0..5] == Encode(Nil)
    ensures Read(b, junk) == Command([NOT], 5)
  {
    hide Bulks;
    assert b[0..0 + 5] == ElementBytes(Absent);
    NilInPlace(b, 0);
    OneNil(b, 0, 1, [], true);
    BulksEnd(b, 5, 0, [NOT], false);
    assert [] + [NOT] == [NOT];
  }

  // ---- Forms cut short ----

  /** The cut after k bytes falls between the '$' of the form's last bulk
      string and the LF of that string's length line. */
  predicate InLengthLine(w: Wire, k: nat) {
    match w
    case Multi(es) =>
      es != [] && 1 <= k - |Header(STAR, |es|)| - LastStart(es) < LengthLine(es[|es| - 1])
    case Lone(data) => 1 <= k < |Header(DOLLAR, |data|)|
    case Nil => 1 <= k < 5
    case _ => false
  }

  /** What the reader then hands on. */
  function CutArgs(w: Wire): seq<Bytes> {
    if w.Multi? && w.elements != [] then ElementArgs(w.elements[..|w.elements| - 1]) else []
  }

  /** A proper prefix of a printed form asks for more bytes, except in the last
      length line: there the reader reports a command short of one argument. */
  lemma ReadCut(w: Wire, k: nat, junk: int)
    requires WellFormed(w) && k < |Encode(w)|
    ensures Read(Encode(w)[..k], junk) == if InLengthLine(w, k) then Command(CutArgs(w), k) else Incomplete
  {
    var e := Encode(w);
    var b := e[..k];
    if k > 0 {
      assert b[0] == e[0] && b[0..] == b;
      match w
      case Multi(es) => MultiCut(es, b, junk);
      case Lone(data) =>
        hide Bulks;
        CutBulk(b, 0, data, 1, [], true);
        BulksEnd(b, k, 0, [], true);
      case Nil =>
        hide Bulks;
        CutNil(b, 0, 1, [], true);
        BulksEnd(b, k, 0, [], true);
      case Okay =>
      case NotOkay =>
      case Line(words, crlf) =>
        hide Inline;
        FirstByte(words, crlf);
        LineCut(b, 0, words, crlf, []);
    }
  }

  lemma MultiCut(es: seq<Element>, b: Bytes, junk: int)
    requires WellFormed(Multi(es)) && 0 < |b| < |Encode(Multi(es))| && b == Encode(Multi(es))[..|b|]
    ensures Read(b, junk) == if InLengthLine(Multi(es), |b|) then Command(CutArgs(Multi(es)), |b|) else Incomplete
  {
    hide Bulks, Read, Header, BulkSeq, LengthLine, ElementArgs;
    var h := Header(STAR, |es|);
    assert b[0..] == b;
    if |b| < |h| {
      assert b == h[..|b|];
      CutHeader(b, |es|, junk);
    } else {
      SplitCut(b, 0, h, BulkSeq(es));
      ReadHeader(b, |es|, junk);
      if |b| > |h| {
        CutBulks(b, |h|, es, []);
        assert [] + ElementArgs(es[..|es| - 1]) == ElementArgs(es[..|es| - 1]);
      }
    }
  }

  lemma CutHeader(b: Bytes, n: nat, junk: int)
    requires 0 < |b| < |Header(STAR, n)| && b == Header(STAR, n)[..|b|]
    ensures Read(b, junk) == Incomplete
  {
    hide Bulks;
    var h, d := Header(STAR, n), Decimal(n);
    forall j | 1 <= j < |b|
      ensures b[j] != LF
    {
      assert b[j] == h[j];
      if j < |h| - 2 { assert h[j] == d[j - 1]; } else { assert h[|h| - 2] == CR; }
    }
    assert b[0] == h[0];
    assert Find(b, 1, LF) == |b|;
  }
}
