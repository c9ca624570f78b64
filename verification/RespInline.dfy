/** The inline form: words, quotes and separators as the scanner takes them. */
module RespInline {
  import opened Bytes
  import opened Resp

  predicate Ordinary(c: byte) {
    c != SPACE && c != LF && !IsQuote(c)
  }

  lemma {:induction false} SkipGap(b: Bytes, i: nat, gap: nat, args: seq<Bytes>)
    requires i + gap <= |b| && forall j :: i <= j < i + gap ==> b[j] == SPACE
    ensures Inline(b, i, i, true, args) == Inline(b, i + gap, i + gap, true, args)
    decreases gap
  {
    if gap > 0 {
      SkipGap(b, i + 1, gap - 1, args);
    }
  }

  lemma {:induction false} ScanWord(b: Bytes, i: nat, s: nat, e: nat, args: seq<Bytes>)
    requires s <= i <= e <= |b| && forall j :: i <= j < e ==> Ordinary(b[j])
    ensures Inline(b, i, s, false, args) == Inline(b, e, s, false, args)
    decreases e - i
  {
    if i < e {
      assert Ordinary(b[i]);
      ScanWord(b, i + 1, s, e, args);
    }
  }

  /** An open plain word up to index e. */
  lemma OpenWord(b: Bytes, i: nat, e: nat, args: seq<Bytes>)
    requires i < e <= |b| && forall j :: i <= j < e ==> Ordinary(b[j])
    ensures Inline(b, i, i, true, args) == Inline(b, e, i, false, args)
  {
    assert Ordinary(b[i]);
    ScanWord(b, i + 1, i, e, args);
  }

  /** A quoted word whose closing quote is at q. */
  lemma CloseQuote(b: Bytes, i: nat, q: nat, args: seq<Bytes>)
    requires i < q < |b| && IsQuote(b[i]) && b[q] == b[i] && b[i] !in b[i + 1..q]
    requires q + 1 < |b| ==> b[q + 1] == SPACE || b[q + 1] == CR || b[q + 1] == LF
    ensures Inline(b, i, i, true, args) == Inline(b, q + 1, q + 1, true, args + [b[i + 1..q]])
  {
    assert forall j :: i + 1 <= j < q ==> b[j] != b[i] by {
      forall j | i + 1 <= j < q
        ensures b[j] != b[i]
      {
        assert b[j] == b[i + 1..q][j - (i + 1)];
      }
    }
    assert Find(b, i + 1, b[i]) == q;
  }

  /** A word stands at i and ends before j. */
  ghost predicate WordAt(b: Bytes, i: nat, j: nat, w: Word) {
    && i <= j <= |b| && j == i + |WordBytes(w)| && b[i..j] == WordBytes(w) && GoodWord(w)
  }

  lemma WordShape(b: Bytes, i: nat, j: nat, w: Word)
    requires WordAt(b, i, j, w)
    ensures var k := i + w.gap;
            && (forall m :: i <= m < k ==> b[m] == SPACE)
            && (w.Plain? ==> k < j && b[k..j] == w.w && forall m :: k <= m < j ==> Ordinary(b[m]))
            && (w.Quoted? ==> k + 1 < j && b[k] == w.q && b[j - 1] == w.q && b[k + 1..j - 1] == w.w)
  {
    var x := WordBytes(w);
    forall m | i <= m < j
      ensures b[m] == x[m - i]
    {
      assert b[m] == b[i..j][m - i];
    }
    if w.Plain? {
      forall m | i + w.gap <= m < j
        ensures Ordinary(b[m])
      {
        assert b[m] == w.w[m - i - w.gap] && w.w[m - i - w.gap] in w.w;
      }
    }
  }

  /** A plain word is open behind its last byte, and stays so over more bytes
      that could belong to it. */
  lemma PlainOpens(b: Bytes, i: nat, j: nat, e: nat, w: Word, args: seq<Bytes>)
    requires WordAt(b, i, j, w) && w.Plain? && j <= e <= |b| && forall m :: j <= m < e ==> Ordinary(b[m])
    ensures i + w.gap < j && b[i + w.gap..j] == w.w
    ensures Inline(b, i, i, true, args) == Inline(b, e, i + w.gap, false, args)
  {
    WordShape(b, i, j, w);
    hide Inline;
    SkipGap(b, i, w.gap, args);
    OpenWord(b, i + w.gap, e, args);
  }

  /** A quoted word is taken when its closing quote is read. */
  lemma QuotedCloses(b: Bytes, i: nat, j: nat, w: Word, args: seq<Bytes>)
    requires WordAt(b, i, j, w) && w.Quoted?
    requires j < |b| ==> b[j] == SPACE || b[j] == CR || b[j] == LF
    ensures Inline(b, i, i, true, args) == Inline(b, j, j, true, args + [w.w])
  {
    WordShape(b, i, j, w);
    hide Inline;
    SkipGap(b, i, w.gap, args);
    CloseQuote(b, i + w.gap, j - 1, args);
  }

  /** A word followed by a space. */
  lemma WordThenSpace(b: Bytes, i: nat, j: nat, w: Word, args: seq<Bytes>)
    requires WordAt(b, i, j, w) && j < |b| && b[j] == SPACE
    ensures Inline(b, i, i, true, args) == Inline(b, j + 1, j + 1, true, args + [w.w])
  {
    if w.Plain? {
      PlainOpens(b, i, j, j, w, args);
    } else {
      QuotedCloses(b, i, j, w, args);
    }
  }

  /** The end of a line closes the word that is open. */
  lemma AtLF(b: Bytes, i: nat, s: nat, first: bool, args: seq<Bytes>)
    requires s <= i < |b| && b[i] == LF
    ensures var e := if i > s && b[i - 1] == CR then i - 1 else i;
            Inline(b, i, s, first, args) == Command(args + (if first then [] else [b[s..e]]), i + 1)
  {
    assert args + [] == args;
  }

  /** The last word, then LF. */
  lemma WordThenLF(b: Bytes, i: nat, j: nat, w: Word, args: seq<Bytes>)
    requires WordAt(b, i, j, w) && j < |b| && b[j] == LF
    requires w.Plain? ==> w.w[|w.w| - 1] != CR
    ensures Inline(b, i, i, true, args) == Command(args + [w.w], j + 1)
  {
    hide Inline;
    if w.Plain? {
      PlainOpens(b, i, j, j, w, args);
      assert b[j - 1] == b[i + w.gap..j][j - 1 - (i + w.gap)];
      AtLF(b, j, i + w.gap, false, args);
    } else {
      QuotedCloses(b, i, j, w, args);
      AtLF(b, j, j, true, args + [w.w]);
    }
  }

  /** The last word, then CR LF: the CR joins a plain word and is dropped from
      it, or opens a word of its own after a quoted one. */
  lemma WordThenCRLF(b: Bytes, i: nat, j: nat, w: Word, args: seq<Bytes>)
    requires WordAt(b, i, j, w) && j + 1 < |b| && b[j] == CR && b[j + 1] == LF
    ensures Inline(b, i, i, true, args) ==
            Command(args + [w.w] + (if w.Quoted? then [[]] else []), j + 2)
  {
    hide Inline, WordBytes;
    if w.Plain? {
      PlainOpens(b, i, j, j + 1, w, args);
      AtLF(b, j + 1, i + w.gap, false, args);
      assert args + [w.w] + [] == args + [w.w];
    } else {
      QuotedCloses(b, i, j, w, args);
      OpenWord(b, j, j + 1, args + [w.w]);
      AtLF(b, j + 1, j, false, args + [w.w]);
      assert b[j..j] == [];
    }
  }

  function LineEnd(crlf: bool): Bytes {
    if crlf then CRLF else [LF]
  }

  lemma SplitSlice(b: Bytes, i: nat, x: Bytes, y: Bytes)
    requires i + |x| + |y| <= |b| && b[i..i + |x| + |y|] == x + y
    ensures b[i..i + |x|] == x && b[i + |x|..i + |x| + |y|] == y
    ensures y != [] ==> b[i + |x|] == y[0]
  {
    var w := b[i..i + |x| + |y|];
    assert b[i..i + |x|] == w[..|x|];
    assert b[i + |x|..i + |x| + |y|] == w[|x|..];
    if y != [] { assert b[i + |x|] == b[i + |x|..i + |x| + |y|][0]; }
  }

  lemma LastWordReads(b: Bytes, i: nat, w: Word, crlf: bool, args: seq<Bytes>)
    requires GoodWord(w) && CleanEnd(w, crlf)
    requires var n := |WordBytes(w)| + |LineEnd(crlf)|; i + n <= |b| && b[i..i + n] == WordBytes(w) + LineEnd(crlf)
    ensures Inline(b, i, i, true, args) ==
            Command(args + [w.w] + (if crlf && w.Quoted? then [[]] else []), i + |WordBytes(w)| + |LineEnd(crlf)|)
  {
    hide Inline;
    var j := i + |WordBytes(w)|;
    SplitSlice(b, i, WordBytes(w), LineEnd(crlf));
    if crlf {
      assert b[j + 1] == b[j..j + 2][1];
      WordThenCRLF(b, i, j, w, args);
    } else {
      WordThenLF(b, i, j, w, args);
      assert args + [w.w] + [] == args + [w.w];
    }
  }

  lemma NextWordReads(b: Bytes, i: nat, w: Word, rest: Bytes, args: seq<Bytes>)
    requires GoodWord(w)
    requires var n := |WordBytes(w)| + 1 + |rest|; i + n <= |b| && b[i..i + n] == WordBytes(w) + [SPACE] + rest
    ensures var j := i + |WordBytes(w)| + 1;
            && b[j..j + |rest|] == rest
            && Inline(b, i, i, true, args) == Inline(b, j, j, true, args + [w.w])
  {
    hide Inline;
    var x := WordBytes(w);
    var j := i + |x|;
    SplitSlice(b, i, x + [SPACE], rest);
    SplitSlice(b, i, x, [SPACE]);
    WordThenSpace(b, i, j, w, args);
  }

  lemma TextsFrom(args: seq<Bytes>, ws: seq<Word>)
    requires ws != []
    ensures args + [ws[0].w] + Texts(ws[1..]) == args + Texts(ws)
  {
  }

  /** A printed line in place reads back as its words. */
  lemma {:induction false} LineReads(b: Bytes, i: nat, ws: seq<Word>, crlf: bool, args: seq<Bytes>)
    requires ws != [] && (forall x :: x in ws ==> GoodWord(x)) && CleanEnd(ws[|ws| - 1], crlf)
    requires var n := |WordSeq(ws)| + |LineEnd(crlf)|; i + n <= |b| && b[i..i + n] == WordSeq(ws) + LineEnd(crlf)
    ensures Inline(b, i, i, true, args) ==
            Command(args + Texts(ws) + (if Stray(Line(ws, crlf)) then [[]] else []),
                    i + |WordSeq(ws)| + |LineEnd(crlf)|)
    decreases |ws|
  {
    hide Inline, WordBytes;
    var w := ws[0];
    if |ws| == 1 {
      LastWordReads(b, i, w, crlf, args);
      assert Texts(ws) == [w.w];
    } else {
      var tail := ws[1..];
      var rest := WordSeq(tail) + LineEnd(crlf);
      assert WordSeq(ws) + LineEnd(crlf) == WordBytes(w) + [SPACE] + rest;
      NextWordReads(b, i, w, rest, args);
      assert tail[|tail| - 1] == ws[|ws| - 1];
      LineReads(b, i + |WordBytes(w)| + 1, tail, crlf, args + [w.w]);
      TextsFrom(args, ws);
    }
  }

  // ---- Lines cut short ----

  lemma CutPlain(b: Bytes, k: nat, w: Word, args: seq<Bytes>)
    requires w.Plain? && GoodWord(w) && k < |b| <= k + |w.w| + 1
    requires forall m :: k <= m < |b| ==> b[m] == (w.w + [CR])[m - k]
    ensures Inline(b, k, k, true, args) == Incomplete
  {
    forall m | k <= m < |b|
      ensures Ordinary(b[m])
    {
      if m - k < |w.w| { assert b[m] == w.w[m - k] && w.w[m - k] in w.w; }
    }
    OpenWord(b, k, |b|, args);
  }

  lemma AtEnd(b: Bytes, s: nat, first: bool, args: seq<Bytes>)
    requires s <= |b|
    ensures Inline(b, |b|, s, first, args) == Incomplete
  {
  }

  lemma WordLength(w: Word)
    ensures |WordBytes(w)| == w.gap + |w.w| + if w.Plain? then 0 else 2
  {
  }

  /** A buffer that ends inside a word, or right after it, or after its CR. */
  lemma CutWord(b: Bytes, i: nat, w: Word, args: seq<Bytes>)
    requires GoodWord(w) && i <= |b| <= i + |WordBytes(w)| + 1
    requires b[i..] == (WordBytes(w) + [CR])[..|b| - i]
    ensures Inline(b, i, i, true, args) == Incomplete
  {
    hide Inline, WordBytes;
    CutIndices(b, i, w);
    WordLength(w);
    var k := i + w.gap;
    if |b| <= k {
      SkipGap(b, i, |b| - i, args);
      AtEnd(b, |b|, true, args);
    } else {
      SkipGap(b, i, w.gap, args);
      if w.Plain? { CutPlain(b, k, w, args); } else { CutQuoted(b, k, w, args); }
    }
  }

  lemma CutIndices(b: Bytes, i: nat, w: Word)
    requires i <= |b| <= i + |WordBytes(w)| + 1 && b[i..] == (WordBytes(w) + [CR])[..|b| - i]
    ensures forall m :: i <= m < |b| && m < i + w.gap ==> b[m] == SPACE
    ensures var k := i + w.gap;
            && (w.Plain? ==> forall m :: k <= m < |b| ==> b[m] == (w.w + [CR])[m - k])
            && (w.Quoted? ==> (k < |b| ==> b[k] == w.q) &&
                              forall m :: k < m < |b| ==> b[m] == (w.w + [w.q, CR])[m - k - 1])
  {
    var x := WordBytes(w) + [CR];
    forall m | i <= m < |b|
      ensures b[m] == x[m - i]
    {
      assert b[m] == b[i..][m - i] == x[..|b| - i][m - i];
    }
  }

  lemma CutQuoted(b: Bytes, k: nat, w: Word, args: seq<Bytes>)
    requires w.Quoted? && GoodWord(w) && k < |b| <= k + |w.w| + 3
    requires b[k] == w.q && forall m :: k < m < |b| ==> b[m] == (w.w + [w.q, CR])[m - k - 1]
    ensures Inline(b, k, k, true, args) == Incomplete
  {
    var q := k + 1 + |w.w|;
    forall m | k < m < |b| && m < q
      ensures b[m] != w.q
    {
      assert b[m] == w.w[m - k - 1];
    }
    if q < |b| {
      assert b[q] == w.q;
      assert w.q !in b[k + 1..q];
      CloseQuote(b, k, q, args);
      if q + 1 < |b| { OpenWord(b, q + 1, |b|, args + [b[k + 1..q]]); }
    } else {
      assert Find(b, k + 1, w.q) == |b|;
    }
  }

  lemma NextWordCut(b: Bytes, i: nat, w: Word, rest: Bytes, args: seq<Bytes>)
    requires GoodWord(w) && i + |WordBytes(w)| < |b| <= i + |WordBytes(w)| + 1 + |rest|
    requires b[i..] == (WordBytes(w) + [SPACE] + rest)[..|b| - i]
    ensures var j := i + |WordBytes(w)| + 1;
            && b[j..] == rest[..|b| - j]
            && Inline(b, i, i, true, args) == Inline(b, j, j, true, args + [w.w])
  {
    hide Inline;
    var x := WordBytes(w);
    var all := x + [SPACE] + rest;
    var j := i + |x|;
    assert b[i..j] == b[i..][..|x|] == x;
    assert b[j] == b[i..][|x|] == all[|x|];
    assert b[j + 1..] == b[i..][|x| + 1..] == rest[..|b| - (j + 1)];
    WordThenSpace(b, i, j, w, args);
  }

  /** Any proper prefix of a printed line asks for more bytes. */
  lemma {:induction false} LineCut(b: Bytes, i: nat, ws: seq<Word>, crlf: bool, args: seq<Bytes>)
    requires ws != [] && forall x :: x in ws ==> GoodWord(x)
    requires var n := |WordSeq(ws)| + |LineEnd(crlf)|;
             i <= |b| < i + n && b[i..] == (WordSeq(ws) + LineEnd(crlf))[..|b| - i]
    ensures Inline(b, i, i, true, args) == Incomplete
    decreases |ws|
  {
    hide Inline, WordBytes;
    var w, x := ws[0], WordBytes(ws[0]);
    if |ws| == 1 || |b| <= i + |x| {
      assert b[i..] == (x + [CR])[..|b| - i];
      CutWord(b, i, w, args);
    } else {
      var rest := WordSeq(ws[1..]) + LineEnd(crlf);
      assert WordSeq(ws) + LineEnd(crlf) == x + [SPACE] + rest;
      NextWordCut(b, i, w, rest, args);
      LineCut(b, i + |x| + 1, ws[1..], crlf, args + [w.w]);
    }
  }

  /** The first byte of a printed line. */
  lemma FirstByte(ws: seq<Word>, crlf: bool)
    requires WellFormed(Line(ws, crlf))
    ensures var e := Encode(Line(ws, crlf)); e != [] && e[0] != DOLLAR && e[0] != STAR && e[0] != PLUS
  {
    assert GoodWord(ws[0]);
    var x := WordBytes(ws[0]);
    assert Encode(Line(ws, crlf))[0] == x[0];
  }
}
