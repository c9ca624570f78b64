/** The request reader as a function of the pending bytes: RESP arrays, bulk
    strings and simple strings, and the quoted inline form. */
module Resp {
  import opened Bytes

  datatype Error =
    | UnbalancedQuotes
    | InvalidMultibulkLength
    | InvalidBulkLength
    | InvalidBulkData
    | ExpectedDollar(got: byte)

  /** Outcome of one reading attempt: not enough bytes, a protocol error, or a
      command with its arguments and the number of bytes it used up. */
  datatype Parse = Incomplete | Failed(err: Error) | Command(args: seq<Bytes>, used: nat)

  // The ASCII bytes of OK, KO, NOT and BULK.
  const OK: Bytes := [79, 75]
  const KO: Bytes := [75, 79]
  const NOT: Bytes := [78, 79, 84]
  const BULK: Bytes := [66, 85, 76, 75]

  /** A closing quote at q may stand there: the bytes end or a separator follows. */
  predicate EndsWord(b: Bytes, q: nat) {
    q + 1 >= |b| || b[q + 1] == SPACE || b[q + 1] == CR || b[q + 1] == LF
  }

  /** The inline form from index i on; `first` means no word is open, otherwise
      the open word starts at s. */
  function Inline(b: Bytes, i: nat, s: nat, first: bool, args: seq<Bytes>): (p: Parse)
    requires s <= i <= |b|
    ensures p.Command? ==> i < p.used <= |b|
    decreases |b| - i
  {
    if i == |b| then Incomplete
    else if IsQuote(b[i]) then
      if !first then Failed(UnbalancedQuotes)
      else
        var q := Find(b, i + 1, b[i]);
        if q == |b| then Incomplete
        else if EndsWord(b, q) then
          Inline(b, q + 1, q + 1, true, args + [b[i + 1..q]])
        else Failed(UnbalancedQuotes)
    else if b[i] == LF then
      if first then Command(args, i + 1)
      else
        var e := if i > s && b[i - 1] == CR then i - 1 else i;
        Command(args + [b[s..e]], i + 1)
    else if b[i] == SPACE then
      Inline(b, i + 1, i + 1, true, if first then args else args + [b[s..i]])
    else Inline(b, i + 1, if first then i else s, false, args)
  }

  /** One turn of the loop over bulk strings: more bytes are needed, an error,
      or on to index `next` with some arguments added. */
  datatype Turn = More | Stop(err: Error) | Go(next: nat, added: seq<Bytes>, lone: bool)

  /** Behind a length line that starts at s, has its LF at k and says n. */
  function BulkBody(b: Bytes, s: nat, k: nat, n: int, lone: bool): (t: Turn)
    requires s <= k < |b|
    ensures t.Go? ==> k < t.next <= |b|
  {
    if n == -1 then Go(k + 1, [NOT], false)
    else if n < 0 || (n == 0 && k - s != 2) then Stop(InvalidBulkLength)
    else if |b| - (k + 1) < n + 2 then More
    else if b[k + 1 + n] != CR || b[k + 2 + n] != LF then Stop(InvalidBulkData)
    else Go(k + 1 + n + 2, (if lone then [BULK] else []) + [b[k + 1..k + 1 + n]], false)
  }

  /** When the length line has no LF yet, the scan runs off the end and the
      turn is over: the bytes count as used and the string is missing. */
  function BulkTurn(b: Bytes, i: nat, lone: bool): (t: Turn)
    requires i <= |b|
    ensures t.Go? ==> i < t.next <= |b|
  {
    if i == |b| then More
    else if b[i] != DOLLAR then Stop(ExpectedDollar(b[i]))
    else
      var k := Find(b, i + 1, LF);
      if k == |b| then Go(k, [], lone)
      else if b[k - 1] != CR then Stop(InvalidBulkLength)
      else BulkBody(b, i + 1, k, Atoi(b[i + 1..k - 1]), lone)
  }

  /** `left` bulk strings from index i on. */
  function Bulks(b: Bytes, i: nat, left: int, args: seq<Bytes>, lone: bool): (p: Parse)
    requires i <= |b|
    ensures p.Command? ==> i <= p.used <= |b|
    decreases |b| - i
  {
    if left <= 0 then Command(args, i)
    else
      match BulkTurn(b, i, lone)
      case More => Incomplete
      case Stop(e) => Failed(e)
      case Go(next, added, flag) => Bulks(b, next, left - 1, args + added, flag)
  }

  /** One reading attempt on the pending bytes. After an unknown simple string
      the program uses a variable it never set; `junk` is what it finds there. */
  function Read(b: Bytes, junk: int): (p: Parse)
    ensures p.Command? ==> 0 < p.used <= |b|
  {
    if b == [] then Incomplete
    else if b[0] == DOLLAR then Bulks(b, 0, 1, [], true)
    else if b[0] == PLUS then
      if |b| < 5 then Incomplete
      else if b[1..5] == OK + CRLF then Command([OK], 5)
      else if b[1..5] == KO + CRLF then Command([KO], 5)
      else Bulks(b, 1, junk, [], false)
    else if b[0] == STAR then
      var k := Find(b, 1, LF);
      if k == |b| then Incomplete
      else if b[k - 1] != CR then Failed(InvalidMultibulkLength)
      else
        var n := Atoi(b[1..k - 1]);
        if n < 0 || (n == 0 && k - 1 != 2) then Failed(InvalidMultibulkLength)
        else if k + 1 == |b| then Incomplete
        else Bulks(b, k + 1, n, [], false)
    else Inline(b, 0, 0, true, [])
  }

  // ---- The printed forms ----

  function Header(mark: byte, n: nat): Bytes {
    [mark] + Decimal(n) + CRLF
  }

  function BulkBytes(a: Bytes): Bytes {
    Header(DOLLAR, |a|) + a + CRLF
  }

  /** An element of an array: a bulk string or a nil. */
  datatype Element = Data(data: Bytes) | Absent

  function ElementBytes(e: Element): Bytes {
    match e
    case Data(d) => BulkBytes(d)
    case Absent => [DOLLAR, MINUS, 49] + CRLF
  }

  /** The length line in front of an element; a nil is nothing else. */
  function LengthLine(e: Element): nat {
    match e
    case Data(d) => |Header(DOLLAR, |d|)|
    case Absent => 5
  }

  function BulkSeq(es: seq<Element>): Bytes {
    if es == [] then [] else ElementBytes(es[0]) + BulkSeq(es[1..])
  }

  /** What the reader makes of an element. */
  function ElementArg(e: Element): Bytes {
    match e
    case Data(d) => d
    case Absent => NOT
  }

  function ElementArgs(es: seq<Element>): (r: seq<Bytes>)
    ensures |r| == |es| && forall k :: 0 <= k < |es| ==> r[k] == ElementArg(es[k])
  {
    seq(|es|, k requires 0 <= k < |es| => ElementArg(es[k]))
  }

  /** A word of an inline line, after `gap` spaces more than needed. */
  datatype Word = Plain(gap: nat, w: Bytes) | Quoted(gap: nat, q: byte, w: Bytes)

  /** What a peer may send. */
  datatype Wire =
    | Multi(elements: seq<Element>)
    | Lone(data: Bytes)
    | Nil
    | Okay
    | NotOkay
    | Line(words: seq<Word>, crlf: bool)

  function Spaces(n: nat): (r: Bytes)
    ensures |r| == n && forall i :: 0 <= i < n ==> r[i] == SPACE
  {
    seq(n, _ => SPACE)
  }

  function WordBytes(w: Word): Bytes {
    match w
    case Plain(gap, t) => Spaces(gap) + t
    case Quoted(gap, q, t) => Spaces(gap) + [q] + t + [q]
  }

  /** Words separated by at least one space. */
  function WordSeq(ws: seq<Word>): Bytes {
    if ws == [] then []
    else if |ws| == 1 then WordBytes(ws[0])
    else WordBytes(ws[0]) + [SPACE] + WordSeq(ws[1..])
  }

  function Encode(w: Wire): Bytes {
    match w
    case Multi(es) => Header(STAR, |es|) + BulkSeq(es)
    case Lone(data) => BulkBytes(data)
    case Nil => ElementBytes(Absent)
    case Okay => [PLUS] + OK + CRLF
    case NotOkay => [PLUS] + KO + CRLF
    case Line(words, crlf) => WordSeq(words) + if crlf then CRLF else [LF]
  }

  ghost predicate GoodWord(w: Word) {
    match w
    case Plain(_, t) => t != [] && forall c :: c in t ==> c != SPACE && c != LF && !IsQuote(c)
    case Quoted(_, q, t) => IsQuote(q) && q !in t
  }

  predicate CleanEnd(last: Word, crlf: bool) {
    !crlf && last.Plain? && last.w != [] ==> last.w[|last.w| - 1] != CR
  }

  predicate Sized(e: Element) {
    e.Data? ==> |e.data| < INT_LIMIT
  }

  /** Sizes fit in an int; an inline line starts like none of the RESP forms
      and, when it ends in a bare LF, its last word keeps off the CR. */
  ghost predicate WellFormed(w: Wire) {
    match w
    case Multi(es) => 0 < |es| < INT_LIMIT && forall e :: e in es ==> Sized(e)
    case Lone(data) => |data| < INT_LIMIT
    case Line(words, crlf) =>
      && words != [] && (forall x :: x in words ==> GoodWord(x))
      && (words[0].Plain? && words[0].gap == 0 && words[0].w != [] ==> words[0].w[0] !in [DOLLAR, STAR, PLUS])
      && CleanEnd(words[|words| - 1], crlf)
    case _ => true
  }

  function Texts(ws: seq<Word>): (r: seq<Bytes>)
    ensures |r| == |ws|
    ensures forall i :: 0 <= i < |ws| ==> r[i] == ws[i].w
  {
    seq(|ws|, i requires 0 <= i < |ws| => ws[i].w)
  }

  /** A quoted last word before CR LF leaves a stray empty argument. */
  predicate Stray(w: Wire) {
    w.Line? && w.crlf && w.words != [] && w.words[|w.words| - 1].Quoted?
  }

  /** The arguments the reader makes of a printed form. */
  function Args(w: Wire): seq<Bytes> {
    match w
    case Multi(es) => ElementArgs(es)
    case Lone(data) => [BULK, data]
    case Nil => [NOT]
    case Okay => [OK]
    case NotOkay => [KO]
    case Line(words, crlf) => Texts(words) + if Stray(w) then [[]] else []
  }
}
