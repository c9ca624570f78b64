/** A client connection: the receive buffer with its index arithmetic, the
    argument table, and the reader with its scanning loops over the buffer. */
module ClientReader {
  import opened Bytes
  import opened Resp
  import opened RespInline
  import opened RespRoundTrip
  import opened CommandLoop
  import opened ChunkInvariance
  import opened BoundedBuffer
  import opened SharedOutput
  import opened ClientOutput

  /** Room below which the pending bytes are moved to the front. */
  const COMPACT_BELOW: nat := 100000

  /** An argument points into the buffer or at a constant. */
  datatype Arg = Slice(start: nat, size: nat) | Literal(text: Bytes)

  datatype Result = Parsed | NeedMore | Bad(err: Error)

  function Value(a: Arg, memory: Bytes): Bytes {
    match a
    case Slice(s, n) => if s + n <= |memory| then memory[s..s + n] else []
    case Literal(t) => t
  }

  /** The arguments of a table, read through their pointers. */
  function Values(args: seq<Arg>, memory: Bytes): (r: seq<Bytes>)
    ensures |r| == |args| && forall k :: 0 <= k < |args| ==> r[k] == Value(args[k], memory)
  {
    seq(|args|, k requires 0 <= k < |args| => Value(args[k], memory))
  }

  lemma ValuesAppend(args: seq<Arg>, a: Arg, memory: Bytes)
    ensures Values(args + [a], memory) == Values(args, memory) + [Value(a, memory)]
  {
  }

  /** A quote at index k, no word being open: a missing closing quote, a word
      up to index next, or an error. */
  ghost predicate Quote(b: Bytes, k: nat, args: seq<Bytes>, r: Result, next: nat, args': seq<Bytes>)
    requires k < |b|
  {
    var q := Find(b, k + 1, b[k]);
    if q == |b| then r == NeedMore
    else if EndsWord(b, q) then
      r == Parsed && next == q + 1 && args' == args + [b[k + 1..q]]
    else r == Bad(UnbalancedQuotes)
  }

  /** The scanner at a quote, and at the end of the bytes. */
  lemma AtOpenWord(b: Bytes, i: nat, s: nat, args: seq<Bytes>)
    requires s <= i < |b| && IsQuote(b[i])
    ensures Inline(b, i, s, false, args) == Failed(UnbalancedQuotes)
  {
  }

  lemma AtQuote(b: Bytes, i: nat, s: nat, args: seq<Bytes>, r: Result, next: nat, args': seq<Bytes>)
    requires s <= i < |b| && IsQuote(b[i]) && Quote(b, i, args, r, next, args')
    ensures match r
            case NeedMore => Inline(b, i, s, true, args) == Incomplete
            case Bad(e) => Inline(b, i, s, true, args) == Failed(e)
            case Parsed => next <= |b| && i < next && Inline(b, i, s, true, args) == Inline(b, next, next, true, args')
  {
  }

  /** One turn of the bulk loop, case by case. */
  lemma TurnAt(b: Bytes, i: nat, lone: bool)
    requires i <= |b|
    ensures i == |b| ==> BulkTurn(b, i, lone) == More
    ensures i < |b| && b[i] != DOLLAR ==> BulkTurn(b, i, lone) == Stop(ExpectedDollar(b[i]))
    ensures i < |b| && b[i] == DOLLAR ==>
              var k := Find(b, i + 1, LF);
              BulkTurn(b, i, lone) ==
                if k == |b| then Go(k, [], lone)
                else if b[k - 1] != CR then Stop(InvalidBulkLength)
                else BulkBody(b, i + 1, k, Atoi(b[i + 1..k - 1]), lone)
  {
  }

  class Client {
    const buf: array<byte>
    var bufIdx: nat
    var bufLen: nat
    var args: seq<Arg>
    var argsCap: nat
    const exec: Executor
    const junk: int      // what an unset local variable holds
    const out: Output
    var outputValid: bool

    ghost var memory: Bytes          // the whole buffer
    ghost var pending: Bytes         // the bytes received and not used up yet
    ghost var argv: seq<Bytes>       // the arguments the table stands for
    ghost var received: Bytes
    ghost var consumed: Bytes
    ghost var log: seq<seq<Bytes>>   // the commands executed
    ghost var ending: Ending
    ghost var output: Bytes          // what waits in the output buffer
    ghost var sent: Bytes            // what the peer was sent
    ghost var trace: seq<Act>        // what both threads did to the output

    /** The receive buffer and the argument table. */
    ghost predicate Receives()
      reads `bufIdx, `bufLen, `args, `argsCap, `memory, `pending, `argv, `received, `consumed, buf
    {
      && buf.Length == BUFSIZE && bufIdx + bufLen <= BUFSIZE && |args| <= argsCap
      && (bufLen == 0 ==> bufIdx == 0)
      && |pending| == bufLen && (forall k :: 0 <= k < bufLen ==> pending[k] == buf[bufIdx + k])
      && memory == buf[..] && argv == Values(args, memory)
      && received == consumed + pending
    }

    /** The output buffer. */
    ghost predicate Sends()
      reads `outputValid, `output, `sent, `trace, out, out.data
    {
      && out.Valid() && out.data != buf && out.offset == 0
      && output == out.Contents() && Play(trace) == Out(sent, output, outputValid)
    }

    ghost predicate Valid()
      reads this, buf, out, out.data
    {
      Receives() && Sends()
    }

    constructor (exec: Executor, junk: int, outputCapacity: nat)
      ensures Valid() && fresh(buf) && fresh(out) && fresh(out.data)
      ensures AsConn() == START && received == [] && trace == [] && Ready()
      ensures out.data.Length == outputCapacity
      ensures this.exec == exec && this.junk == junk
    {
      buf := new byte[BUFSIZE];
      bufIdx, bufLen := 0, 0;
      args, argsCap := [], 0;
      this.exec, this.junk := exec, junk;
      outputValid := false;
      pending, argv, received, consumed, log, ending := [], [], [], [], [], Open;
      output, sent, trace := [], [], [];
      out := new Output(outputCapacity);
      memory := [];
      new;
      memory := buf[..];
    }

    lemma ByteAt(i: nat)
      requires Valid() && bufIdx <= i < bufIdx + bufLen
      ensures i < buf.Length && |pending| == bufLen && pending[i - bufIdx] == buf[i]
    {
    }

    lemma Extent()
      requires Valid()
      ensures |pending| == bufLen && bufIdx + bufLen <= buf.Length == BUFSIZE
    {
    }

    lemma BytesAt(s: nat, e: nat)
      requires Valid() && bufIdx <= s <= e <= bufIdx + bufLen
      ensures |pending| == bufLen && e <= buf.Length
      ensures pending[s - bufIdx..e - bufIdx] == buf[s..e] == buf[..][s..e]
    {
    }

    /** The argument table doubles when it is full. */
    method AppendArg(a: Arg)
      requires Valid()
      modifies `args, `argsCap, `argv
      ensures Valid() && argv == old(argv) + [Value(a, memory)]
      ensures argsCap == if old(argsCap) > |old(args)| then old(argsCap)
                         else if old(argsCap) == 0 then 1 else 2 * old(argsCap)
    {
      if argsCap == |args| {
        argsCap := if argsCap == 0 then 1 else argsCap * 2;
      }
      ValuesAppend(args, a, memory);
      args := args + [a];
      argv := argv + [Value(a, memory)];
    }

    method ClearArgs()
      requires Valid()
      modifies `args, `argv
      ensures Valid() && argv == []
    {
      args, argv := [], [];
    }

    /** Uses up the bytes before index i. */
    method Advance(i: nat)
      requires Valid() && bufIdx <= i <= bufIdx + bufLen
      modifies `bufIdx, `bufLen, `consumed, `pending
      ensures Valid() && pending == old(pending)[i - old(bufIdx)..]
      ensures consumed == old(consumed) + old(pending)[..i - old(bufIdx)]
    {
      hide Values, Sends;
      ghost var n := i - bufIdx;
      assert pending == pending[..n] + pending[n..];
      Assoc(consumed, pending[..n], pending[n..]);
      consumed := consumed + pending[..n];
      bufLen := bufLen - (i - bufIdx);
      if bufLen == 0 {
        bufIdx := 0;
      } else {
        bufIdx := i;
      }
      pending := pending[n..];
    }

    /** What a reading attempt leaves, given what the specification says of the
        bytes that were pending: on success exactly the used bytes are gone and
        the arguments are in the table, otherwise nothing moved. */
    twostate predicate Outcome(r: Result, p: Parse)
      reads this
    {
      match p
      case Incomplete => r == NeedMore && Unmoved()
      case Failed(e) => r == Bad(e) && Unmoved()
      case Command(a, used) =>
        && r == Parsed && used <= |old(pending)|
        && pending == old(pending)[used..] && consumed == old(consumed) + old(pending)[..used]
        && argv == a
    }

    twostate predicate Unmoved()
      reads this
    {
      && bufIdx == old(bufIdx) && bufLen == old(bufLen)
      && pending == old(pending) && consumed == old(consumed)
    }

    // ---- The inline form ----

    /** Finds byte c from index i on; z if there is none. */
    method Scan(i: nat, z: nat, c: byte) returns (k: nat)
      requires Valid() && bufIdx <= i <= z == bufIdx + bufLen
      ensures i <= k <= z && k - bufIdx == Find(pending, i - bufIdx, c)
    {
      k := i;
      while k < z && buf[k] != c
        invariant i <= k <= z && forall m :: i - bufIdx <= m < k - bufIdx ==> pending[m] != c
      {
        assert pending[k - bufIdx] == buf[k];
        k := k + 1;
      }
      if k < z { assert pending[k - bufIdx] == buf[k]; }
    }

    /** A quote where a word may open: takes the quoted word or refuses. */
    method TakeQuoted(i: nat, z: nat) returns (r: Result, next: nat)
      requires Valid() && bufIdx <= i < z == bufIdx + bufLen
      modifies `args, `argsCap, `argv
      ensures Valid() && bufIdx <= next
      ensures Quote(pending, i - bufIdx, old(argv), r, next - bufIdx, argv)
    {
      hide Values, Sends, Find, Valid;
      next := i;
      ByteAt(i);
      var quote := buf[i];
      var q := Scan(i + 1, z, quote);
      assert Find(pending, i - bufIdx + 1, pending[i - bufIdx]) == q - bufIdx;
      if q == z {
        r := NeedMore;
      } else {
        if q + 1 < z { ByteAt(q + 1); }
        var ends := q + 1 >= z || buf[q + 1] == SPACE || buf[q + 1] == CR || buf[q + 1] == LF;
        assert ends <==> EndsWord(pending, q - bufIdx);
        hide EndsWord;
        if ends {
          TakeSlice(i + 1, q);
          r, next := Parsed, q + 1;
        } else {
          r := Bad(UnbalancedQuotes);
        }
      }
    }

    /** The bytes between two indices become an argument. */
    method TakeSlice(s: nat, e: nat)
      requires Valid() && bufIdx <= s <= e <= bufIdx + bufLen
      modifies `args, `argsCap, `argv
      ensures Valid()
      ensures argv == old(argv) + [pending[s - bufIdx..e - bufIdx]]
    {
      AppendArg(Slice(s, e - s));
      BytesAt(s, e);
    }

    /** The word that the end of the line closes, without a CR before it. */
    method LastWord(i: nat, s: nat)
      requires Valid() && bufIdx <= s <= i < bufIdx + bufLen
      modifies `args, `argsCap, `argv
      ensures Valid()
      ensures var k, m := i - bufIdx, s - bufIdx;
              argv == old(argv) + [pending[m..if k > m && pending[k - 1] == CR then k - 1 else k]]
    {
      hide Values, Sends;
      if i > s { ByteAt(i - 1); }
      TakeSlice(s, if i > s && buf[i - 1] == CR then i - 1 else i);
    }

    /** The byte at index i ends the line. */
    method EndLine(i: nat, s: nat, first: bool) returns (r: Result)
      requires Valid() && bufIdx <= s <= i < bufIdx + bufLen && pending[i - bufIdx] == LF
      modifies `bufIdx, `bufLen, `consumed, `pending, `args, `argsCap, `argv
      ensures Valid()
      ensures Outcome(r, Inline(old(pending), i - old(bufIdx), s - old(bufIdx), first, old(argv)))
    {
      hide Inline, Values, Sends, Valid;
      ByteAt(i);
      AtLF(pending, i - bufIdx, s - bufIdx, first, argv);
      if !first {
        LastWord(i, s);
      }
      Advance(i + 1);
      r := Parsed;
    }

    /** A byte that is neither a quote nor LF. */
    method StepInline(i: nat, s: nat, first: bool) returns (start: nat, open: bool)
      requires Valid() && bufIdx <= s <= i < bufIdx + bufLen
      requires pending[i - bufIdx] != LF && !IsQuote(pending[i - bufIdx])
      modifies `args, `argsCap, `argv
      ensures Valid()
      ensures bufIdx <= start <= i + 1
      ensures Inline(pending, i - bufIdx, s - bufIdx, first, old(argv))
           == Inline(pending, i + 1 - bufIdx, start - bufIdx, open, argv)
    {
      assert pending[i - bufIdx] == buf[i];
      start, open := s, first;
      if buf[i] == SPACE {
        if !first {
          TakeSlice(s, i);
          open := true;
        }
        start := i + 1;
      } else if first {
        start, open := i, false;
      }
    }

    method ParseInline() returns (r: Result)
      requires Valid() && bufLen > 0
      modifies `bufIdx, `bufLen, `consumed, `pending, `args, `argsCap, `argv
      ensures Valid()
      ensures Outcome(r, Inline(old(pending), 0, 0, true, []))
    {
      hide Inline, Quote, Values, Sends;
      ghost var target := Inline(pending, 0, 0, true, []);
      var i, s, first, z := bufIdx, bufIdx, true, bufIdx + bufLen;
      ClearArgs();
      while i < z && !(IsQuote(buf[i]) && !first) && buf[i] != LF
        invariant bufIdx <= s <= i <= z && Valid() && Unmoved()
        invariant target == Inline(pending, i - bufIdx, s - bufIdx, first, argv)
      {
        ByteAt(i);
        if IsQuote(buf[i]) {
          ghost var k, argv0 := i - bufIdx, argv;
          r, i := TakeQuoted(i, z);
          AtQuote(pending, k, s - bufIdx, argv0, r, i - bufIdx, argv);
          if r != Parsed {
            return;
          }
          s := i;
        } else {
          s, first := StepInline(i, s, first);
          i := i + 1;
        }
      }
      r := StopInline(i, s, first);
    }

    /** The line ends, or the bytes do, or a quote stands inside a word. */
    method StopInline(i: nat, s: nat, first: bool) returns (r: Result)
      requires Valid() && bufIdx <= s <= i <= bufIdx + bufLen
      requires i < bufIdx + bufLen ==> buf[i] == LF || (IsQuote(buf[i]) && !first)
      modifies `bufIdx, `bufLen, `consumed, `pending, `args, `argsCap, `argv
      ensures Valid()
      ensures Outcome(r, Inline(old(pending), i - old(bufIdx), s - old(bufIdx), first, old(argv)))
    {
      hide Inline, Quote, Values, Sends;
      if i >= bufIdx + bufLen {
        AtEnd(pending, s - bufIdx, first, argv);
        r := NeedMore;
      } else {
        ByteAt(i);
        if buf[i] == LF {
          r := EndLine(i, s, first);
        } else {
          AtOpenWord(pending, i - bufIdx, s - bufIdx, argv);
          r := Bad(UnbalancedQuotes);
        }
      }
    }

    // ---- The RESP forms ----

    /** atoi on the text from s up to the CR before k: the CR is overwritten
        with a terminator for the call and put back. */
    method NumberAt(s: nat, k: nat) returns (n: int)
      requires Valid() && bufIdx <= s < k < bufIdx + bufLen && pending[k - 1 - bufIdx] == CR
      modifies buf
      ensures Valid()
      ensures n == Atoi(pending[s - bufIdx..k - 1 - bufIdx])
    {
      ghost var memory := buf[..];
      BytesAt(s, k - 1);
      assert memory[k - 1] == CR;
      buf[k - 1] := 0;
      n := Atoi(buf[s..k - 1]);
      assert buf[s..k - 1] == memory[s..k - 1];
      buf[k - 1] := CR;
      assert buf[..] == memory;
    }

    /** What a turn of the loop reports: its result and, if it goes on, the next
        index and flag, its arguments being in the table. */
    twostate predicate Did(t: Turn, r: Result, next: nat, flag: bool)
      reads this
    {
      match t
      case More => r == NeedMore
      case Stop(e) => r == Bad(e)
      case Go(n, added, f) =>
        r == Parsed && next == bufIdx + n && flag == f && argv == old(argv) + added
    }

    /** The n bytes from index i on are a bulk string. */
    method TakePayload(i: nat, n: nat, lone: bool)
      requires Valid() && bufIdx <= i && i + n <= bufIdx + bufLen
      modifies `args, `argsCap, `argv
      ensures Valid()
      ensures argv == old(argv) + ((if lone then [BULK] else []) + [pending[i - bufIdx..i - bufIdx + n]])
    {
      hide Values, Sends;
      if lone {
        AppendArg(Literal(BULK));
      }
      TakeSlice(i, i + n);
    }

    /** Behind a length line from s to k that says n. */
    method TakeBulk(s: nat, k: nat, n: int, lone: bool) returns (r: Result, next: nat, flag: bool)
      requires Valid() && bufIdx <= s <= k < bufIdx + bufLen
      modifies `args, `argsCap, `argv
      ensures Valid() && Did(BulkBody(pending, s - bufIdx, k - bufIdx, n, lone), r, next, flag)
    {
      hide Values, Sends, Valid;
      Extent();
      next, flag := k, false;
      var i, z := k + 1, bufIdx + bufLen;
      if n == -1 {
        AppendArg(Literal(NOT));
        r, next := Parsed, k + n + 2;
      } else if n <= 0 && (n < 0 || k - s != 2) {
        r := Bad(InvalidBulkLength);
      } else if z - i < n + 2 {
        r := NeedMore;
      } else {
        ByteAt(i + n);
        ByteAt(i + n + 1);
        if buf[i + n] != CR || buf[i + n + 1] != LF {
          r := Bad(InvalidBulkData);
        } else {
          TakePayload(i, n, lone);
          r, next := Parsed, i + n + 2;
        }
      }
    }

    /** A length line that starts at s: where it ends, whether CR LF ends it,
        and the number on it. */
    method ReadLength(s: nat) returns (k: nat, fits: bool, n: int)
      requires Valid() && bufIdx < s <= bufIdx + bufLen && pending[s - 1 - bufIdx] != CR
      modifies buf
      ensures Valid()
      ensures k - bufIdx == Find(pending, s - bufIdx, LF)
      ensures k < bufIdx + bufLen ==> (fits <==> pending[k - 1 - bufIdx] == CR)
      ensures k < bufIdx + bufLen && fits ==> s < k && n == Atoi(pending[s - bufIdx..k - 1 - bufIdx])
    {
      hide Atoi, Values, Sends, Valid;
      var z := bufIdx + bufLen;
      k := Scan(s, z, LF);
      fits, n := false, 0;
      if k < z {
        ByteAt(k);
        ByteAt(k - 1);
        fits := buf[k - 1] == CR;
        if fits {
          n := NumberAt(s, k);
        }
      }
    }

    /** One turn of the loop over bulk strings, at index i. */
    method ReadOneBulk(i: nat, lone: bool) returns (r: Result, next: nat, flag: bool)
      requires Valid() && bufIdx <= i <= bufIdx + bufLen
      modifies `args, `argsCap, `argv, buf
      ensures Valid()
      ensures Did(BulkTurn(pending, i - bufIdx, lone), r, next, flag)
    {
      hide Atoi, BulkBody, Values, Sends, Find, BulkTurn, Valid;
      Extent();
      var z := bufIdx + bufLen;
      next, flag := i, lone;
      TurnAt(pending, i - bufIdx, lone);
      if i >= z {
        r := NeedMore;
      } else {
        ByteAt(i);
        if buf[i] != DOLLAR {
          r := Bad(ExpectedDollar(buf[i]));
        } else {
          var k, fits, nsiz := ReadLength(i + 1);
          if k == z {
            r, next := Parsed, z;
          } else if !fits {
            r := Bad(InvalidBulkLength);
          } else {
            r, next, flag := TakeBulk(i + 1, k, nsiz, lone);
          }
        }
      }
    }

    /** The loop over `count` bulk strings from index i0 on. */
    method ReadBulks(i0: nat, count: int, lone: bool) returns (r: Result)
      requires Valid() && bufIdx <= i0 <= bufIdx + bufLen && argv == []
      modifies `bufIdx, `bufLen, `consumed, `pending, `args, `argsCap, `argv, buf
      ensures Valid()
      ensures Outcome(r, Bulks(old(pending), i0 - old(bufIdx), count, [], lone))
    {
      hide Bulks, BulkTurn, Values, Sends;
      ghost var target := Bulks(pending, i0 - bufIdx, count, [], lone);
      var i, j, flag := i0, 0, lone;
      while j < count
        invariant bufIdx <= i <= bufIdx + bufLen && Valid() && Unmoved()
        invariant j == 0 || j <= count
        invariant target == Bulks(pending, i - bufIdx, count - j, argv, flag)
      {
        NextTurn(pending, i - bufIdx, count - j, argv, flag);
        r, i, flag := ReadOneBulk(i, flag);
        if r != Parsed {
          return;
        }
        j := j + 1;
      }
      BulksEnd(pending, i - bufIdx, count - j, argv, flag);
      Advance(i);
      r := Parsed;
    }

    method ReadArray() returns (r: Result)
      requires Valid() && bufLen > 0 && pending[0] == STAR && argv == []
      modifies `bufIdx, `bufLen, `consumed, `pending, `args, `argsCap, `argv, buf
      ensures Valid()
      ensures Outcome(r, Read(old(pending), junk))
    {
      hide Bulks;
      var i, z := bufIdx + 1, bufIdx + bufLen;
      var k, fits, count := ReadLength(i);
      if k == z {
        return NeedMore;
      }
      if !fits {
        return Bad(InvalidMultibulkLength);
      }
      if count <= 0 && (count < 0 || k - i != 2) {
        return Bad(InvalidMultibulkLength);
      }
      if k + 1 >= z {
        return NeedMore;
      }
      r := ReadBulks(k + 1, count, false);
    }

    method ReadSimple() returns (r: Result)
      requires Valid() && bufLen > 0 && pending[0] == PLUS && argv == []
      modifies `bufIdx, `bufLen, `consumed, `pending, `args, `argsCap, `argv, buf
      ensures Valid()
      ensures Outcome(r, Read(old(pending), junk))
    {
      hide Bulks, Values, Sends;
      var i, z := bufIdx + 1, bufIdx + bufLen;
      if i >= z || bufLen < 5 {
        return NeedMore;
      }
      BytesAt(i, i + 4);
      assert pending[1..5] == buf[i..i + 4];
      if buf[i..i + 4] == OK + CRLF {
        AppendArg(Literal(OK));
        Advance(i + 4);
        r := Parsed;
      } else if buf[i..i + 4] == KO + CRLF {
        AppendArg(Literal(KO));
        Advance(i + 4);
        r := Parsed;
      } else {
        r := ReadBulks(i, junk, false);
      }
    }

    /** One reading attempt. */
    method ReadCommand() returns (r: Result)
      requires Valid()
      modifies `bufIdx, `bufLen, `consumed, `pending, `args, `argsCap, `argv, buf
      ensures Valid()
      ensures Outcome(r, Read(old(pending), junk))
    {
      hide Bulks, Inline;
      ClearArgs();
      if bufLen == 0 {
        return NeedMore;
      }
      var first := buf[bufIdx];
      assert pending[0] == first;
      if first == DOLLAR {
        r := ReadBulks(bufIdx, 1, true);
      } else if first == PLUS {
        r := ReadSimple();
      } else if first == STAR {
        r := ReadArray();
      } else {
        r := ParseInline();
      }
    }

    // ---- The output, shared with the reply thread ----

    /** The reply thread writes a reply, sends all there is and clears the
        buffer. */
    method Reply(bytes: Bytes)
      requires Valid() && |output| + |bytes| <= out.data.Length
      modifies `output, `sent, `trace, out`len, out`offset, out.data
      ensures Valid() && output == [] && trace == old(trace) + [Replied(bytes)]
    {
      hide Receives, Play, Own;
      out.Write(bytes);
      var wire := out.FlushOffset(0);
      out.Clear();
      Replying(trace, bytes);
      sent, output, trace := sent + wire, [], trace + [Replied(bytes)];
    }

    /** Any number of replies that there is room for. */
    method Interfere()
      requires Valid()
      modifies `output, `sent, `trace, out`len, out`offset, out.data
      ensures Valid() && Own(trace) == Own(old(trace)) && |output| <= |old(output)|
    {
      hide Receives, Play, Own;
      var replies :| 0 <= replies;
      for k := 0 to replies
        invariant Valid() && Own(trace) == Own(old(trace)) && |output| <= |old(output)|
      {
        var bytes: Bytes := *;
        if |bytes| <= out.data.Length - out.len {
          Replying(trace, bytes);
          Reply(bytes);
        }
      }
    }

    /** The poll thread writes. The room is the caller's to leave. */
    method Say(bytes: Bytes)
      requires Valid() && |output| + |bytes| <= out.data.Length
      modifies `output, `sent, `trace, out`len, out`offset, out.data
      ensures Valid() && |output| <= |old(output)| + |bytes|
      ensures Own(trace) == Own(old(trace)) + [Wrote(bytes)]
    {
      hide Receives, Play, Own;
      Interfere();
      out.Write(bytes);
      Writing(trace, bytes);
      output, trace := output + bytes, trace + [Wrote(bytes)];
    }

    method Complain(msg: Bytes)
      requires Valid() && |output| + |ErrorReply(msg)| <= out.data.Length
      modifies `output, `sent, `trace, out`len, out`offset, out.data
      ensures Valid() && |output| <= |old(output)| + |ErrorReply(msg)|
      ensures Own(trace) == Own(old(trace)) + [Wrote(ErrorReply(msg))]
    {
      hide Receives, Play, Own, ErrorReply;
      Interfere();
      out.WriteError(msg);
      Writing(trace, ErrorReply(msg));
      output, trace := output + ErrorReply(msg), trace + [Wrote(ErrorReply(msg))];
    }

    method MarkOutput()
      requires Valid()
      modifies `outputValid, `output, `sent, `trace, out`len, out`offset, out.data
      ensures Valid() && |output| <= |old(output)|
      ensures Own(trace) == Own(old(trace)) + [Mark]
    {
      hide Receives, Play, Own;
      Interfere();
      outputValid := true;
      Marking(trace);
      trace := trace + [Mark];
    }

    /** The end of a read: sends the output if a command marked it. */
    method FlushIfValid()
      requires Valid()
      modifies `outputValid, `output, `sent, `trace, out`len, out`offset, out.data
      ensures Valid() && !outputValid
      ensures Own(trace) == Own(old(trace)) + [EndRead]
    {
      hide Receives, Play, Own;
      Interfere();
      Closing(trace);
      if outputValid {
        var wire := out.FlushOffset(out.offset);
        out.Clear();
        outputValid, output, sent := false, [], sent + wire;
      }
      trace := trace + [EndRead];
      Interfere();
    }

    // ---- The command loop and the receive buffer ----

    /** Executes the command in the table. */
    method ExecCommand(ghost command: seq<Bytes>) returns (verdict: Verdict)
      requires Valid() && argv == command
      requires |output| + |Answer(command, exec)| <= out.data.Length
      modifies `log, `outputValid, `output, `sent, `trace, out`len, out`offset, out.data
      ensures Valid() && log == old(log) + [command] && verdict == exec(command).verdict
      ensures Own(trace) == Own(old(trace)) + CommandActs(command, exec)
      ensures |output| <= |old(output)| + |Answer(command, exec)|
    {
      hide Values, ErrorReply, Play, Own;
      assert argv == Values(args, buf[..]);
      var x := exec(Values(args, buf[..]));
      Say(x.written);
      if x.marks {
        MarkOutput();
      }
      log := log + [command];
      verdict := x.verdict;
      if verdict.Fault? {
        Complain(verdict.msg);
      }
    }

    /** The loop is over: all of d has been added to the connection. */
    twostate predicate Over(d: Drained, keepAlive: bool)
      reads this
    {
      && pending == d.rest && ending == d.ending && keepAlive == (d.ending == Open)
      && log == old(log) + d.log
      && Own(trace) == Own(old(trace)) + (LogActs(d.log, exec) + FarewellActs(d.ending))
    }

    /** The loop goes on behind a command that is done. */
    twostate predicate Onward(command: seq<Bytes>)
      reads this
    {
      && ending == old(ending) && log == old(log) + [command]
      && Own(trace) == Own(old(trace)) + CommandActs(command, exec)
      && |output| <= |old(output)| + |Answer(command, exec)|
    }

    /** What the reader says of the bytes b: how the attempt went, the arguments,
        and what is left. */
    ghost predicate Tells(b: Bytes, r: Result, args: seq<Bytes>, rest: Bytes) {
      match r
      case NeedMore => Read(b, junk) == Incomplete
      case Bad(e) => Read(b, junk) == Failed(e)
      case Parsed =>
        |rest| <= |b| && rest == b[|b| - |rest|..] && Read(b, junk) == Command(args, |b| - |rest|)
    }

    /** The rest of a turn once a command stands in the table. */
    method RunParsed(ghost b: Bytes) returns (again: bool, keepAlive: bool)
      requires Valid() && Tells(b, Parsed, argv, pending)
      requires |output| + |Spoken(Drain(b, exec, junk), exec)| <= out.data.Length
      modifies `log, `outputValid, `ending, `output, `sent, `trace, out`len, out`offset, out.data
      ensures Valid()
      ensures if again then Onward(argv) && Drain(b, exec, junk) == After(argv, Drain(pending, exec, junk))
              else Over(Drain(b, exec, junk), keepAlive)
    {
      hide Read, Receives, Sends, Drain, Play, Own, CommandActs, LogActs, Answer, Answers, Spoken;
      DrainTurn(b, exec, junk, argv, |b| - |pending|);
      SpokenFirst(argv, Drain(b, exec, junk), exec);
      ActsOfOne(argv, exec);
      again, keepAlive := false, true;
      var verdict := ExecCommand(argv);
      match verdict
      case Done => again := true;
      case Quit =>
        keepAlive := false;
        ending := Left;
      case Fault(_) => ending := Open;
    }

    /** One reading attempt, told by what is pending afterwards. */
    method NextCommand() returns (r: Result)
      requires Valid()
      modifies `bufIdx, `bufLen, `consumed, `pending, `args, `argsCap, `argv, buf
      ensures Valid() && received == old(received)
      ensures if r == Parsed then |pending| < |old(pending)| else pending == old(pending)
      ensures Tells(old(pending), r, argv, pending)
    {
      hide Bulks, Inline, Values, Find;
      r := ReadCommand();
    }

    /** The loop is over without a command. */
    method StopLoop(r: Result) returns (keepAlive: bool)
      requires Valid() && r != Parsed
      requires Tells(pending, r, argv, pending)
      requires |output| + |Spoken(Drain(pending, exec, junk), exec)| <= out.data.Length
      modifies `ending, `outputValid, `output, `sent, `trace, out`len, out`offset, out.data
      ensures Valid() && Over(Drain(pending, exec, junk), keepAlive)
    {
      hide Read, Drain, Receives, Sends, ErrorReply, Message, Play, Own;
      assert log + [] == log && [] + FarewellActs(Open) == [];
      if r.Bad? {
        DrainFailed(pending, exec, junk, r.err);
        Complain(Message(r.err));
        keepAlive, ending := false, Broken(r.err);
      } else {
        DrainIncomplete(pending, exec, junk);
        assert Own(trace) + [] == Own(trace);
        keepAlive, ending := true, Open;
      }
    }

    /** One turn of the command loop: either one command was executed and the
        loop goes on, or the loop is over. */
    method ExecOne() returns (again: bool, keepAlive: bool, ghost command: seq<Bytes>)
      requires Valid() && |output| + |Spoken(Drain(pending, exec, junk), exec)| <= out.data.Length
      modifies `bufIdx, `bufLen, `consumed, `pending, `args, `argsCap, `argv, `log, `outputValid, `ending
      modifies `output, `sent, `trace, buf, out`len, out`offset, out.data
      ensures Valid() && received == old(received)
      ensures again ==> |pending| < |old(pending)|
      ensures var d := Drain(old(pending), exec, junk);
              if again then Onward(command) && d == After(command, Drain(pending, exec, junk))
              else Over(d, keepAlive)
    {
      hide Valid, Values, Tells, Drain, After, Own, LogActs, CommandActs, FarewellActs, Answer, Spoken;
      ghost var b := pending;
      var r := NextCommand();
      command := argv;
      if r == Parsed {
        again, keepAlive := RunParsed(b);
      } else {
        again := false;
        keepAlive := StopLoop(r);
      }
    }

    /** Executes what the pending bytes hold. The room for what the commands
        write is the caller's to leave. */
    method ExecCommands() returns (keepAlive: bool)
      requires Valid() && |output| + |Spoken(Drain(pending, exec, junk), exec)| <= out.data.Length
      modifies `bufIdx, `bufLen, `consumed, `pending, `args, `argsCap, `argv, `log, `outputValid, `ending
      modifies `output, `sent, `trace, buf, out`len, out`offset, out.data
      ensures Valid() && received == old(received)
      ensures Over(Drain(old(pending), exec, junk), keepAlive)
    {
      hide Drain, Values, Valid, Own, LogActs, CommandActs, FarewellActs, Answer, Spoken;
      ghost var target := Drain(pending, exec, junk);
      ghost var done: seq<seq<Bytes>>, acts: seq<Act> := [], [];
      ActsOfNone(Own(trace), exec);
      var again := true;
      keepAlive := true;
      while again
        invariant Valid() && received == old(received)
        invariant log == old(log) + done && Own(trace) == Own(old(trace)) + acts
        invariant again ==>
                    var d := Drain(pending, exec, junk);
                    && |output| + |Spoken(d, exec)| <= out.data.Length
                    && target == Drained(done + d.log, d.rest, d.ending) && acts == LogActs(done, exec)
        invariant !again ==>
                    && target == Drained(done, pending, ending) && keepAlive == (ending == Open)
                    && acts == LogActs(done, exec) + FarewellActs(ending)
        decreases |pending| + if again then 1 else 0
      {
        ghost var d := Drain(pending, exec, junk);
        ghost var command;
        again, keepAlive, command := ExecOne();
        if again {
          TurnAdds(done, command, Drain(pending, exec, junk), exec);
          Assoc(old(log), done, [command]);
          Assoc(Own(old(trace)), acts, CommandActs(command, exec));
          done, acts := done + [command], acts + CommandActs(command, exec);
        } else {
          LogActsJoin(done, d.log, exec);
          Assoc(old(log), done, d.log);
          Assoc(acts, LogActs(d.log, exec), FarewellActs(d.ending));
          Assoc(Own(old(trace)), acts, LogActs(d.log, exec) + FarewellActs(d.ending));
          done, acts := done + d.log, acts + (LogActs(d.log, exec) + FarewellActs(d.ending));
        }
      }
    }

    /** recv appends behind the pending bytes. Old argument pointers now see
        whatever the memory holds. */
    method Receive(chunk: Bytes)
      requires Valid() && 0 < |chunk| <= BUFSIZE - bufIdx - bufLen
      modifies `bufLen, `received, `pending, `argv, `memory, buf
      ensures Valid() && pending == old(pending) + chunk && received == old(received) + chunk
    {
      hide Values;
      Assoc(consumed, pending, chunk);
      var from := bufIdx + bufLen;
      for k := 0 to |chunk|
        invariant bufLen == old(bufLen) && pending == old(pending) && received == old(received)
        invariant forall j :: bufIdx <= j < from ==> buf[j] == old(buf[j])
        invariant forall j :: 0 <= j < k ==> buf[from + j] == chunk[j]
      {
        buf[from + k] := chunk[k];
      }
      bufLen := bufLen + |chunk|;
      pending, received := pending + chunk, received + chunk;
      memory := buf[..];
      argv := Values(args, memory);
    }

    /** Moves the pending bytes to the front of the buffer. */
    method Compact()
      requires Valid()
      modifies `bufIdx, `argv, `memory, buf
      ensures Valid() && bufIdx == 0
    {
      hide Values;
      for k := 0 to bufLen
        invariant bufIdx == old(bufIdx)
        invariant forall j :: 0 <= j < k ==> buf[j] == pending[j]
        invariant forall j :: k <= j < bufLen ==> buf[bufIdx + j] == pending[j]
      {
        buf[k] := buf[bufIdx + k];
      }
      bufIdx := 0;
      memory := buf[..];
      argv := Values(args, memory);
    }

    ghost function AsConn(): Conn
      reads this, buf, out, out.data
      requires Valid()
    {
      Conn(log, pending, ending)
    }

    /** Between two reads nothing is marked, and the free part of the buffer is
        large, or all that is not pending. */
    ghost predicate Ready()
      reads this
    {
      !outputValid && (bufIdx == 0 || BUFSIZE - bufIdx - bufLen >= COMPACT_BELOW)
    }

    /** Compacts when less than COMPACT_BELOW bytes of room are left. */
    method MakeRoom()
      requires Valid()
      modifies `bufIdx, `argv, `memory, buf
      ensures Valid() && (bufIdx == 0 || 1024 * 1024 - bufIdx - bufLen >= 100000)
    {
      if BUFSIZE - bufIdx - bufLen < COMPACT_BELOW {
        Compact();
      }
    }

    /** The output of one more read fits the output buffer, behind what waits if
        no reply has fallen. */
    ghost predicate Roomy(own: seq<Act>, c: Conn, chunk: Bytes) {
      c.ending == Open ==>
        |Play(own).unsent| + |Spoken(Drain(c.pending + chunk, exec, junk), exec)| <= out.data.Length
    }

    /** Replies only make room. */
    lemma RoomThere(chunk: Bytes)
      requires Valid() && ending == Open && Roomy(Own(trace), AsConn(), chunk)
      ensures |output| + |Spoken(Drain(pending + chunk, exec, junk), exec)| <= out.data.Length
    {
      hide Drain, Spoken, Own, Play, Values;
      QuietIsLongest(trace);
    }

    /** A chunk arrives and what is pending is executed. */
    method Process(chunk: Bytes) returns (keepAlive: bool)
      requires Valid() && ending == Open && 0 < |chunk| <= BUFSIZE - bufIdx - bufLen
      requires |output| + |Spoken(Drain(pending + chunk, exec, junk), exec)| <= out.data.Length
      modifies `bufIdx, `bufLen, `consumed, `pending, `args, `argsCap, `argv, `log, `outputValid, `ending
      modifies `output, `sent, `trace, `received, `memory, buf, out`len, out`offset, out.data
      ensures Valid() && received == old(received) + chunk
      ensures bufIdx == 0 || BUFSIZE - bufIdx - bufLen >= COMPACT_BELOW
      ensures Over(Drain(old(pending) + chunk, exec, junk), keepAlive)
    {
      hide Drain, Values, Valid, Own, LogActs, FarewellActs, Spoken;
      Receive(chunk);
      keepAlive := ExecCommands();
      MakeRoom();
    }

    /** One readable event: a chunk from the peer, or its end of file. The
        connection does what Deliver says, the poll thread does to the output
        what ReadActs says, replies fall wherever they like, and no byte is
        lost. */
    method OnRead(chunk: Bytes) returns (close: bool)
      requires Valid() && Ready() && ending == Open && |chunk| <= BUFSIZE - bufIdx - bufLen
      requires Roomy(Own(trace), AsConn(), chunk)
      modifies this, buf, out`len, out`offset, out.data
      ensures Valid() && Ready() && received == old(received) + chunk
      ensures chunk == [] ==> close && AsConn() == old(AsConn()) && Own(trace) == Own(old(trace))
      ensures chunk != [] ==>
                && AsConn() == Deliver(old(AsConn()), chunk, exec, junk) && close == (ending != Open)
                && var d := Drain(old(pending) + chunk, exec, junk);
                   Own(trace) == Own(old(trace)) + ReadActs(d.log, d.ending, exec)
    {
      hide Drain, Values, Valid, Own, LogActs, FarewellActs, Spoken, Play;
      if chunk == [] {
        assert received + [] == received;
        Interfere();
        close := true;
      } else {
        RoomThere(chunk);
        hide Roomy;
        var keepAlive := Process(chunk);
        ghost var d := Drain(old(pending) + chunk, exec, junk);
        FlushIfValid();
        Assoc(Own(old(trace)), LogActs(d.log, exec) + FarewellActs(d.ending), [EndRead]);
        close := !keepAlive;
      }
    }

    /** One readable event while more bytes are coming: recv takes some of them,
        as many as it likes but no more than fit. Without room it takes none,
        which looks like the end of file. */
    method Recv(coming: Bytes) returns (k: nat, close: bool)
      requires Valid() && Ready() && ending == Open && coming != []
      requires forall n :: 0 <= n <= |coming| ==> Roomy(Own(trace), AsConn(), coming[..n])
      modifies this, buf, out`len, out`offset, out.data
      ensures Valid() && Ready() && k <= |coming| && k <= BUFSIZE - |old(pending)|
      ensures received == old(received) + coming[..k]
      ensures k == 0 ==>
                |old(pending)| == BUFSIZE && close && AsConn() == old(AsConn()) && Own(trace) == Own(old(trace))
      ensures k > 0 ==>
                && AsConn() == Deliver(old(AsConn()), coming[..k], exec, junk) && close == (ending != Open)
                && var d := Drain(old(pending) + coming[..k], exec, junk);
                   Own(trace) == Own(old(trace)) + ReadActs(d.log, d.ending, exec)
    {
      hide Drain, Deliver, Values, Valid, Own, ReadActs, Spoken, Play;
      Extent();
      var room := BUFSIZE - bufIdx - bufLen;
      k := 0;
      if room > 0 {
        k :| 1 <= k <= room && k <= |coming|;
      }
      assert Roomy(Own(trace), AsConn(), coming[..k]);
      hide Roomy;
      close := OnRead(coming[..k]);
    }

    /** The peer's bytes, as they come in, until they are all read or the
        connection is closed. A connection starved of room is closed in the
        middle. That never happens to commands that do not close, read in good
        cuts, exactly if each of them fits the buffer. */
    method Serve(supply: Bytes, ghost ws: seq<Wire>)
        returns (ghost taken: seq<Bytes>, left: Bytes, starved: bool)
      requires Valid() && Ready() && ending == Open
      requires forall past, chunk :: Flatten(past) + chunk <= supply ==>
                 Roomy(Own(trace) + RunActs(AsConn(), past, exec, junk),
                       DeliverAll(AsConn(), past, exec, junk), chunk)
      modifies this, buf, out`len, out`offset, out.data
      ensures Valid() && supply == Flatten(taken) + left && received == old(received) + Flatten(taken)
      ensures AsConn() == DeliverAll(old(AsConn()), taken, exec, junk) && Fits(old(AsConn()), taken, exec, junk)
      ensures Own(trace) == Own(old(trace)) + RunActs(old(AsConn()), taken, exec, junk)
      ensures sent + output == Text(trace)
      ensures starved ==> left != [] && |pending| == 1024 * 1024 && ending == Open
      ensures left == [] || starved || ending != Open
      ensures old(AsConn()) == START && supply == Stream(ws) && Printable(ws) && NoQuit(ws, exec) ==>
                GoodCuts(ws, 0, taken) ==> (left == [] <==> AllFit(ws))
    {
      hide Drain, Deliver, DeliverAll, Values, Valid, GoodCuts, Stream, WellFormed, NoQuit, Fits, Flatten;
      hide Roomy, AllFit, Printable, Own, RunActs, ReadActs, Play, Text, Spoken;
      ghost var start, before := AsConn(), Own(trace);
      taken, left, starved := [], supply, false;
      var close := false;
      BeforeReads(start, before);
      assert received + [] == received;
      while left != [] && !close
        invariant Valid() && Ready() && supply == Flatten(taken) + left && close == (starved || ending != Open)
        invariant AsConn() == DeliverAll(start, taken, exec, junk) && Fits(start, taken, exec, junk)
        invariant Own(trace) == before + RunActs(start, taken, exec, junk)
        invariant received == old(received) + Flatten(taken)
        invariant starved ==> left != [] && |pending| == BUFSIZE && ending == Open
        decreases |left| + if close then 0 else 1
      {
        forall n | 0 <= n <= |left| ensures Roomy(Own(trace), AsConn(), left[..n]) {
          assert Flatten(taken) + left[..n] <= supply;
        }
        ghost var own := Own(trace);
        var k;
        k, close := Recv(left);
        ghost var chunk := left[..k];
        Assoc(old(received), Flatten(taken), chunk);
        if k == 0 {
          assert chunk == [];
          assert Flatten(taken) + [] == Flatten(taken);
          starved := true;
        } else {
          DeliverLast(start, taken, chunk, exec, junk);
          FlattenLast(taken, chunk);
          FitsLast(start, taken, chunk, exec, junk);
          RunsOn(before, start, taken, chunk);
          Assoc(Flatten(taken), chunk, left[k..]);
          assert left == chunk + left[k..];
          taken, left := taken + [chunk], left[k..];
        }
      }
      AllWritten();
      if start == START && supply == Stream(ws) && Printable(ws) && NoQuit(ws, exec) && GoodCuts(ws, 0, taken) {
        ServedExactly(ws, taken, left, starved);
      }
    }

    lemma AllWritten()
      requires Valid()
      ensures sent + output == Text(trace)
    {
      hide Play, Text, Values;
      NothingLost(trace);
    }

    lemma RunsOn(before: seq<Act>, c: Conn, chunks: seq<Bytes>, chunk: Bytes)
      requires DeliverAll(c, chunks, exec, junk).ending == Open
      ensures var d := Drain(DeliverAll(c, chunks, exec, junk).pending + chunk, exec, junk);
              before + RunActs(c, chunks + [chunk], exec, junk) ==
              before + RunActs(c, chunks, exec, junk) + ReadActs(d.log, d.ending, exec)
    {
      hide DeliverAll, RunActs, ReadActs, Drain;
      var d := Drain(DeliverAll(c, chunks, exec, junk).pending + chunk, exec, junk);
      RunActsLast(c, chunks, chunk, exec, junk);
      Assoc(before, RunActs(c, chunks, exec, junk), ReadActs(d.log, d.ending, exec));
    }

    lemma BeforeReads(c: Conn, own: seq<Act>)
      ensures Flatten([]) == [] && DeliverAll(c, [], exec, junk) == c && Fits(c, [], exec, junk)
      ensures own + RunActs(c, [], exec, junk) == own
    {
    }

    lemma ServedExactly(ws: seq<Wire>, taken: seq<Bytes>, left: Bytes, starved: bool)
      requires Printable(ws) && NoQuit(ws, exec) && GoodCuts(ws, 0, taken) && Flatten(taken) + left == Stream(ws)
      requires Fits(START, taken, exec, junk)
      requires var c := DeliverAll(START, taken, exec, junk);
               (starved ==> left != [] && |c.pending| == BUFSIZE) && (left == [] || starved || c.ending != Open)
      ensures left == [] <==> AllFit(ws)
    {
      hide Deliver, DeliverAll, GoodCuts, Stream, WellFormed, NoQuit, Fits, AllFit;
      assert Flatten(taken) <= Stream(ws);
      assert START.pending + Flatten(taken) == Flatten(taken);
      if AllFit(ws) {
        RoomLeft(START, ws, taken, exec, junk);
        StaysOpen(START, ws, taken, exec, junk);
      } else {
        assert left == [] ==> Flatten(taken) + left == Flatten(taken);
        TooLong(ws, taken, exec, junk);
      }
    }
  }

  /** One more command in front of what the loop does next. */
  lemma TurnAdds(done: seq<seq<Bytes>>, command: seq<Bytes>, d: Drained, exec: Executor)
    ensures done + After(command, d).log == done + [command] + d.log
    ensures LogActs(done + [command], exec) == LogActs(done, exec) + CommandActs(command, exec)
    ensures |Spoken(After(command, d), exec)| == |Answer(command, exec)| + |Spoken(d, exec)|
  {
    hide CommandActs, Answer;
    Assoc(done, [command], d.log);
    assert (done + [command])[..|done|] == done;
    SpokenAfter(command, d, exec);
  }

  lemma Assoc<T>(a: seq<T>, b: seq<T>, c: seq<T>)
    ensures a + b + c == a + (b + c)
  {
  }
}
