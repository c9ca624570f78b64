/** What the size of the receive buffer means for a stream: each read has to fit
    behind the bytes still pending. */
module BoundedBuffer {
  import opened Bytes
  import opened Resp
  import opened RespRoundTrip
  import opened CommandLoop
  import opened ChunkInvariance

  const BUFSIZE: nat := 1024 * 1024

  /** No read is empty or exceeds the room left. */
  ghost predicate Fits(c: Conn, chunks: seq<Bytes>, exec: Executor, junk: int)
    decreases |chunks|
  {
    chunks == [] ||
    (0 < |chunks[0]| <= BUFSIZE - |c.pending| && Fits(Deliver(c, chunks[0], exec, junk), chunks[1..], exec, junk))
  }

  lemma {:induction false} FitsLast(c: Conn, chunks: seq<Bytes>, chunk: Bytes, exec: Executor, junk: int)
    requires Fits(c, chunks, exec, junk) && 0 < |chunk| <= BUFSIZE - |DeliverAll(c, chunks, exec, junk).pending|
    ensures Fits(c, chunks + [chunk], exec, junk)
    decreases |chunks|
  {
    hide Deliver;
    if chunks == [] {
      assert ([] + [chunk])[1..] == [];
    } else {
      assert (chunks + [chunk])[1..] == chunks[1..] + [chunk];
      FitsLast(Deliver(c, chunks[0], exec, junk), chunks[1..], chunk, exec, junk);
    }
  }

  ghost predicate AllFit(ws: seq<Wire>) {
    forall w :: w in ws ==> |Encode(w)| <= BUFSIZE
  }

  /** No command asks to close. */
  ghost predicate NoQuit(ws: seq<Wire>, exec: Executor) {
    forall w :: w in ws ==> !exec(Args(w)).verdict.Quit?
  }

  lemma {:induction false} NoQuitStaysOpen(ws: seq<Wire>, n: nat, exec: Executor)
    requires NoQuit(ws, exec)
    ensures var r := Loop(ws, n, exec); r.ending == Open && NoQuit(ws[r.done..], exec)
    decreases |ws|
  {
    hide Encode, Args, InLengthLine;
    if ws != [] && n >= |Encode(ws[0])| {
      assert ws[0] in ws;
      NoQuitStaysOpen(ws[1..], n - |Encode(ws[0])|, exec);
      Later(ws, 1, Loop(ws[1..], n - |Encode(ws[0])|, exec).done);
    }
  }

  // ---- Forms that fit leave room ----

  /** The loop gets on by at least one form, or less than one form is there. */
  lemma LoopGetsOn(ws: seq<Wire>, n: nat, exec: Executor)
    requires Printable(ws) && AllFit(ws) && n <= BUFSIZE && n <= |Stream(ws)|
    ensures Loop(ws, n, exec).held < BUFSIZE
  {
    hide Encode, Args, InLengthLine, WellFormed;
    if ws != [] {
      assert ws[0] in ws;
      FormTakesBytes([ws[0]]);
      StreamTwo(ws[0], ws[0]);
      if n >= |Encode(ws[0])| { HeldBelow(ws[1..], n - |Encode(ws[0])|, exec); }
    }
  }

  lemma {:induction false} HeldBelow(ws: seq<Wire>, n: nat, exec: Executor)
    ensures Loop(ws, n, exec).held <= n
    decreases |ws|
  {
    hide Encode, Args, InLengthLine;
    if ws != [] && n >= |Encode(ws[0])| { HeldBelow(ws[1..], n - |Encode(ws[0])|, exec); }
  }

  /** A connection whose reads so far ended in good cuts has room for one more,
      if every form fits the buffer, whatever the commands answer. */
  lemma {:induction false} RoomLeft(c: Conn, ws: seq<Wire>, chunks: seq<Bytes>, exec: Executor, junk: int)
    requires Printable(ws) && AllFit(ws)
    requires c.ending == Open && |c.pending| < BUFSIZE && c.pending + Flatten(chunks) <= Stream(ws)
    requires GoodCuts(ws, |c.pending|, chunks) && Fits(c, chunks, exec, junk)
    ensures var c' := DeliverAll(c, chunks, exec, junk); c'.ending == Open ==> |c'.pending| < BUFSIZE
    decreases |chunks|
  {
    hide Deliver, Loop, WellFormed, Args, Stream, Encode, GoodCut;
    if chunks != [] {
      var n := |c.pending| + |chunks[0]|;
      var c1, r := Deliver(c, chunks[0], exec, junk), Loop(ws, n, exec);
      ReadOn(c, ws, chunks, exec, junk);
      CutMisleads(ws, n, exec);
      assert n == |c.pending + chunks[0]| <= |Stream(ws)|;
      LoopGetsOn(ws, n, exec);
      if r.ending == Open {
        GoodCutsLater(ws, n, n, chunks[1..], exec);
        RoomLeft(c1, ws[r.done..], chunks[1..], exec, junk);
      } else {
        Closed(c1, chunks[1..], exec, junk);
      }
    }
  }

  /** A stream without a command that closes, read in good cuts, leaves the
      connection open. */
  lemma {:induction false} StaysOpen(c: Conn, ws: seq<Wire>, chunks: seq<Bytes>, exec: Executor, junk: int)
    requires Printable(ws) && NoQuit(ws, exec)
    requires c.ending == Open && c.pending + Flatten(chunks) <= Stream(ws) && GoodCuts(ws, |c.pending|, chunks)
    ensures DeliverAll(c, chunks, exec, junk).ending == Open
    decreases |chunks|
  {
    hide Deliver, Loop, WellFormed, NoQuit, Args, Stream, Encode, GoodCut;
    if chunks != [] {
      var n := |c.pending| + |chunks[0]|;
      ReadOn(c, ws, chunks, exec, junk);
      CutMisleads(ws, n, exec);
      NoQuitStaysOpen(ws, n, exec);
      GoodCutsLater(ws, n, n, chunks[1..], exec);
      StaysOpen(Deliver(c, chunks[0], exec, junk), ws[Loop(ws, n, exec).done..], chunks[1..], exec, junk);
    }
  }

  // ---- Forms that do not fit are never got through ----

  lemma {:induction false} LoopBefore(ws: seq<Wire>, n: nat, exec: Executor, i: nat)
    requires i < Loop(ws, n, exec).done
    ensures n >= |Encode(ws[i])|
    decreases |ws|
  {
    hide Encode, Args, InLengthLine;
    if i > 0 { LoopBefore(ws[1..], n - |Encode(ws[0])|, exec, i - 1); }
  }

  lemma {:induction false} LongStream(ws: seq<Wire>, i: nat)
    requires i < |ws|
    ensures |Encode(ws[i])| <= |Stream(ws)|
  {
    hide Encode;
    if i > 0 { LongStream(ws[1..], i - 1); }
  }

  lemma {:induction false} NeverThrough(c: Conn, ws: seq<Wire>, chunks: seq<Bytes>, exec: Executor, junk: int, i: nat)
    requires Printable(ws) && NoQuit(ws, exec) && i < |ws| && |Encode(ws[i])| > BUFSIZE
    requires c.ending == Open && |c.pending| <= BUFSIZE && c.pending + Flatten(chunks) <= Stream(ws)
    requires GoodCuts(ws, |c.pending|, chunks) && Fits(c, chunks, exec, junk)
    ensures c.pending + Flatten(chunks) != Stream(ws)
    decreases |chunks|
  {
    hide Deliver, Loop, WellFormed, Args, Stream, Encode, GoodCut;
    if chunks == [] {
      LongStream(ws, i);
      assert c.pending + Flatten(chunks) == c.pending;
    } else {
      var n := |c.pending| + |chunks[0]|;
      var c1, r := Deliver(c, chunks[0], exec, junk), Loop(ws, n, exec);
      ReadOn(c, ws, chunks, exec, junk);
      CutMisleads(ws, n, exec);
      NoQuitStaysOpen(ws, n, exec);
      if i < r.done { LoopBefore(ws, n, exec, i); }
      HeldBelow(ws, n, exec);
      GoodCutsLater(ws, n, n, chunks[1..], exec);
      NeverThrough(c1, ws[r.done..], chunks[1..], exec, junk, i - r.done);
    }
  }

  // ---- Both together ----

  /** A schedule of reads that gets a whole stream through the buffer. */
  ghost predicate GetsThrough(ws: seq<Wire>, chunks: seq<Bytes>, exec: Executor, junk: int) {
    Flatten(chunks) == Stream(ws) && GoodCuts(ws, 0, chunks) && Fits(START, chunks, exec, junk)
  }

  /** One read for every form. */
  lemma {:induction false} FormByForm(c: Conn, ws: seq<Wire>, exec: Executor, junk: int) returns (chunks: seq<Bytes>)
    requires Printable(ws) && NoQuit(ws, exec) && AllFit(ws) && c.pending == [] && c.ending == Open
    ensures Flatten(chunks) == Stream(ws) && GoodCuts(ws, 0, chunks) && Fits(c, chunks, exec, junk)
    decreases |ws|
  {
    hide Deliver, WellFormed, Args, InLengthLine;
    if ws == [] {
      chunks := [];
    } else {
      assert ws[0] in ws;
      OneForm(c, ws[0], exec, junk);
      FormTakesBytes([ws[0]]);
      StreamTwo(ws[0], ws[0]);
      var rest := FormByForm(Deliver(c, Encode(ws[0]), exec, junk), ws[1..], exec, junk);
      chunks := [Encode(ws[0])] + rest;
      assert chunks[1..] == rest;
      hide Encode;
      FormEnd(ws);
      FormsBehind(ws, 0, rest);
    }
  }

  lemma FormEnd(ws: seq<Wire>)
    requires ws != []
    ensures GoodCut(ws, |Encode(ws[0])|)
  {
    if |ws| > 1 && 0 < |Encode(ws[1])| { assert !InLengthLine(ws[1], 0); }
  }

  lemma {:induction false} FormsBehind(ws: seq<Wire>, n: nat, chunks: seq<Bytes>)
    requires ws != [] && GoodCuts(ws[1..], n, chunks)
    ensures GoodCuts(ws, |Encode(ws[0])| + n, chunks)
    decreases |chunks|
  {
    hide Encode, InLengthLine;
    if chunks != [] { FormsBehind(ws, n + |chunks[0]|, chunks[1..]); }
  }

  /** A stream without a command that closes can be read through the buffer, in
      good cuts, exactly if every form fits the buffer. If every form fits, no
      reading of any stream in good cuts is without room for the next. */
  lemma {:induction false} RoomExactly(ws: seq<Wire>, exec: Executor, junk: int)
    requires Printable(ws)
    ensures NoQuit(ws, exec) ==> ((exists chunks :: GetsThrough(ws, chunks, exec, junk)) <==> AllFit(ws))
    ensures AllFit(ws) ==>
              forall chunks ::
                Flatten(chunks) <= Stream(ws) && GoodCuts(ws, 0, chunks) && Fits(START, chunks, exec, junk) ==>
                var c := DeliverAll(START, chunks, exec, junk); c.ending == Open ==> |c.pending| < BUFSIZE
  {
    hide DeliverAll, Stream, WellFormed, GoodCuts, Fits, Encode, NoQuit;
    if AllFit(ws) {
      if NoQuit(ws, exec) {
        var chunks := FormByForm(START, ws, exec, junk);
        assert GetsThrough(ws, chunks, exec, junk);
      }
      forall chunks | Flatten(chunks) <= Stream(ws) && GoodCuts(ws, 0, chunks) && Fits(START, chunks, exec, junk)
        ensures var c := DeliverAll(START, chunks, exec, junk); c.ending == Open ==> |c.pending| < BUFSIZE
      {
        assert START.pending + Flatten(chunks) == Flatten(chunks);
        RoomLeft(START, ws, chunks, exec, junk);
      }
    } else if NoQuit(ws, exec) {
      forall chunks ensures !GetsThrough(ws, chunks, exec, junk) {
        if GetsThrough(ws, chunks, exec, junk) { TooLong(ws, chunks, exec, junk); }
      }
    }
  }

  lemma {:induction false} TooLong(ws: seq<Wire>, chunks: seq<Bytes>, exec: Executor, junk: int)
    requires Printable(ws) && NoQuit(ws, exec) && !AllFit(ws)
    requires Flatten(chunks) <= Stream(ws) && GoodCuts(ws, 0, chunks) && Fits(START, chunks, exec, junk)
    ensures Flatten(chunks) != Stream(ws)
  {
    hide Deliver, Stream, WellFormed, NoQuit, GoodCuts, Fits, Encode;
    var w :| w in ws && |Encode(w)| > BUFSIZE;
    var i :| 0 <= i < |ws| && ws[i] == w;
    assert START.pending + Flatten(chunks) == Flatten(chunks);
    NeverThrough(START, ws, chunks, exec, junk, i);
  }

  // ---- A command that does not fit ----

  lemma {:induction false} ShortDecimal(n: nat)
    ensures |Decimal(n)| <= 1 + n / 10
  {
    if n >= 10 { ShortDecimal(n / 10); }
  }

  /** The first BUFSIZE bytes of a command with one argument of BUFSIZE bytes
      end in a good cut and fill the buffer: nothing is executed, and there is
      no room for another byte. */
  lemma {:induction false} LongArgumentStarves(a: Bytes, exec: Executor, junk: int)
    requires |a| == BUFSIZE
    ensures var e := Encode(Multi([Data(a)]));
            && BUFSIZE < |e| && GoodCut([Multi([Data(a)])], BUFSIZE)
            && var c := DeliverAll(START, [e[..BUFSIZE]], exec, junk);
               c.log == [] && |c.pending| == BUFSIZE && c.ending == Open
  {
    hide Drain, Decimal;
    var w := Multi([Data(a)]);
    var e := Encode(w);
    assert BulkSeq([Data(a)]) == BulkBytes(a) by { assert [Data(a)][1..] == []; }
    ShortDecimal(BUFSIZE);
    ShortDecimal(1);
    assert !InLengthLine(w, BUFSIZE);
    DrainPart(w, BUFSIZE, exec, junk);
    assert START.pending + e[..BUFSIZE] == e[..BUFSIZE];
    assert [e[..BUFSIZE]][1..] == [];
  }
}
