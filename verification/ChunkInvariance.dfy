/** A stream of printed forms that arrives in pieces: which commands the command
    loop executes of it, for every way of cutting the stream into reads. */
module ChunkInvariance {
  import opened Bytes
  import opened Resp
  import opened RespRoundTrip
  import opened CommandLoop

  function Stream(ws: seq<Wire>): Bytes {
    if ws == [] then [] else Encode(ws[0]) + Stream(ws[1..])
  }

  function ArgsOf(ws: seq<Wire>): (r: seq<seq<Bytes>>)
    ensures |r| == |ws| && forall i :: 0 <= i < |ws| ==> r[i] == Args(ws[i])
  {
    seq(|ws|, i requires 0 <= i < |ws| => Args(ws[i]))
  }

  ghost predicate Printable(ws: seq<Wire>) {
    forall w :: w in ws ==> WellFormed(w)
  }

  // ---- One run of the loop ----

  /** How far the loop gets: forms executed, bytes of the next forms left over,
      why it is over, and whether it never took a form cut short for a whole
      one. */
  datatype Reach = Reach(done: nat, held: nat, ending: Ending, clean: bool)

  /** The loop on the first n bytes of a stream. It stops at the end of these
      bytes, or behind the first command that is not done. */
  function Loop(ws: seq<Wire>, n: nat, exec: Executor): (r: Reach)
    ensures r.done <= |ws|
  {
    if ws == [] then Reach(0, n, Open, true)
    else if n < |Encode(ws[0])| then Reach(0, n, Open, !InLengthLine(ws[0], n))
    else
      var k := n - |Encode(ws[0])|;
      match exec(Args(ws[0])).verdict
      case Done => var r := Loop(ws[1..], k, exec); r.(done := r.done + 1)
      case Quit => Reach(1, k, Left, true)
      case Fault(_) => Reach(1, k, Open, true)
  }

  /** What the loop reports agrees with how far it gets. A form cut short in its
      last length line is executed short of one argument, and nothing is left. */
  ghost predicate Agrees(d: Drained, ws: seq<Wire>, r: Reach)
    requires r.done <= |ws|
  {
    if r.clean then
      && d.log == ArgsOf(ws[..r.done]) && d.ending == r.ending
      && r.held <= |Stream(ws[r.done..])| && d.rest == Stream(ws[r.done..])[..r.held]
    else
      && r.done < |ws| && d.log == ArgsOf(ws[..r.done]) + [CutArgs(ws[r.done])] && d.rest == []
  }

  lemma StreamCut(ws: seq<Wire>, n: nat)
    requires ws != [] && n <= |Stream(ws)|
    ensures var e := Encode(ws[0]);
            && |Stream(ws)| == |e| + |Stream(ws[1..])|
            && Stream(ws)[..n] == if n < |e| then e[..n] else e + Stream(ws[1..])[..n - |e|]
  {
    hide Encode;
  }

  /** A form cut short. */
  lemma {:induction false} DrainPart(w: Wire, n: nat, exec: Executor, junk: int)
    requires WellFormed(w) && n < |Encode(w)|
    ensures var d := Drain(Encode(w)[..n], exec, junk);
            if InLengthLine(w, n) then d.log == [CutArgs(w)] && d.rest == []
            else d == Drained([], Encode(w)[..n], Open)
  {
    hide Read, Encode, WellFormed, InLengthLine, CutArgs, Drain;
    var b := Encode(w)[..n];
    ReadCut(w, n, junk);
    if InLengthLine(w, n) {
      DrainLast(b, exec, junk, CutArgs(w));
    } else {
      DrainIncomplete(b, exec, junk);
    }
  }

  /** One whole form at the front. */
  lemma {:induction false} DrainOne(w: Wire, t: Bytes, exec: Executor, junk: int)
    requires WellFormed(w)
    ensures var d := Drain(Encode(w) + t, exec, junk);
            match exec(Args(w)).verdict
            case Done => d == After(Args(w), Drain(t, exec, junk))
            case Quit => d.log == [Args(w)] && d.rest == t && d.ending == Left
            case Fault(_) => d.log == [Args(w)] && d.rest == t && d.ending == Open
  {
    hide Read, Encode, Drain;
    ReadEncoded(w, t, junk);
    assert (Encode(w) + t)[|Encode(w)|..] == t;
    DrainTurn(Encode(w) + t, exec, junk, Args(w), |Encode(w)|);
  }

  /** The front form was executed, the rest agrees. */
  lemma AgreesLater(d: Drained, ws: seq<Wire>, r: Reach)
    requires ws != [] && r.done < |ws| && Agrees(d, ws[1..], r)
    ensures Agrees(After(Args(ws[0]), d), ws, r.(done := r.done + 1))
  {
    hide Args, CutArgs, Stream;
    var t, m := ws[1..], r.done;
    assert ws[..m + 1] == [ws[0]] + t[..m] && ws[m + 1..] == t[m..];
    assert ArgsOf(ws[..m + 1]) == [Args(ws[0])] + ArgsOf(t[..m]);
    if !r.clean { assert ws[m + 1] == t[m]; }
  }

  lemma AgreesNow(d: Drained, ws: seq<Wire>, k: nat)
    requires ws != [] && k <= |Stream(ws[1..])| && d.log == [Args(ws[0])] && d.rest == Stream(ws[1..])[..k]
    ensures Agrees(d, ws, Reach(1, k, d.ending, true))
  {
    hide Args, Stream;
    assert ws[..1] == [ws[0]];
  }

  lemma AgreesPart(d: Drained, ws: seq<Wire>, n: nat)
    requires ws != [] && n < |Encode(ws[0])| <= |Stream(ws)| && Stream(ws)[..n] == Encode(ws[0])[..n]
    requires if InLengthLine(ws[0], n) then d.log == [CutArgs(ws[0])] && d.rest == []
             else d == Drained([], Encode(ws[0])[..n], Open)
    ensures Agrees(d, ws, Reach(0, n, Open, !InLengthLine(ws[0], n)))
  {
    hide Args, Stream, Encode, CutArgs, InLengthLine;
    assert ws[0..] == ws && ws[..0] == [];
  }

  /** The loop on a stream cut anywhere, whatever its commands answer. */
  lemma {:induction false} LoopReaches(ws: seq<Wire>, n: nat, exec: Executor, junk: int)
    requires Printable(ws) && n <= |Stream(ws)|
    ensures Agrees(Drain(Stream(ws)[..n], exec, junk), ws, Loop(ws, n, exec))
    decreases |ws|
  {
    hide Drain, Encode, WellFormed, Args, InLengthLine, CutArgs, Agrees, After;
    if ws == [] {
      AgreesNothing(exec, junk);
    } else {
      var e, d := Encode(ws[0]), Drain(Stream(ws)[..n], exec, junk);
      assert ws[0] in ws;
      StreamCut(ws, n);
      hide Stream;
      if n < |e| {
        DrainPart(ws[0], n, exec, junk);
        AgreesPart(d, ws, n);
      } else {
        DrainOne(ws[0], Stream(ws[1..])[..n - |e|], exec, junk);
        match exec(Args(ws[0])).verdict
        case Done =>
          LoopReaches(ws[1..], n - |e|, exec, junk);
          AgreesLater(Drain(Stream(ws[1..])[..n - |e|], exec, junk), ws, Loop(ws[1..], n - |e|, exec));
        case _ => AgreesNow(d, ws, n - |e|);
      }
    }
  }

  lemma AgreesNothing(exec: Executor, junk: int)
    ensures Agrees(Drain([], exec, junk), [], Reach(0, 0, Open, true))
  {
    var none: seq<Wire> := [];
    assert none[0..] == [] && none[..0] == [];
    DrainNothing(exec, junk);
  }

  /** What is behind the bytes taken is behind those left over, too. */
  lemma {:induction false} BehindLoop(ws: seq<Wire>, n: nat, exec: Executor)
    requires n <= |Stream(ws)| && Loop(ws, n, exec).clean
    ensures var r := Loop(ws, n, exec); var rest := Stream(ws[r.done..]);
            && r.held <= |rest| && rest[r.held..] == Stream(ws)[n..]
    decreases |ws|
  {
    hide Encode, Args, InLengthLine;
    var r := Loop(ws, n, exec);
    if r.done == 0 {
      assert ws[0..] == ws;
    } else {
      var e := Encode(ws[0]);
      assert Stream(ws)[n..] == Stream(ws[1..])[n - |e|..];
      if exec(Args(ws[0])).verdict == Done {
        BehindLoop(ws[1..], n - |e|, exec);
        assert ws[r.done..] == ws[1..][r.done - 1..];
      }
    }
  }

  // ---- Any number of reads ----

  /** How far a connection gets that holds the first `held` bytes of a stream and
      reads the chunks behind them. */
  function Reached(ws: seq<Wire>, held: nat, chunks: seq<Bytes>, exec: Executor): (r: Reach)
    ensures r.done <= |ws|
    decreases |chunks|
  {
    if chunks == [] then Reach(0, held, Open, true)
    else
      var r := Loop(ws, held + |chunks[0]|, exec);
      if !r.clean || r.ending != Open then r
      else var t := Reached(ws[r.done..], r.held, chunks[1..], exec); t.(done := r.done + t.done)
  }

  ghost predicate Follows(c: Conn, c': Conn, ws: seq<Wire>, r: Reach)
    requires r.done <= |ws|
  {
    if r.clean then
      && c'.log == c.log + ArgsOf(ws[..r.done]) && c'.ending == r.ending
      && r.held <= |Stream(ws[r.done..])| && c'.pending == Stream(ws[r.done..])[..r.held]
    else
      r.done < |ws| && c.log + ArgsOf(ws[..r.done]) + [CutArgs(ws[r.done])] <= c'.log
  }

  lemma FollowsLater(c: Conn, c1: Conn, c2: Conn, ws: seq<Wire>, m: nat, t: Reach)
    requires m <= |ws| && t.done <= |ws| - m && c1.log == c.log + ArgsOf(ws[..m]) && Follows(c1, c2, ws[m..], t)
    ensures Follows(c, c2, ws, t.(done := m + t.done))
  {
    hide Args, CutArgs, Stream;
    var k := t.done;
    assert ws[m..][k..] == ws[m + k..] && ws[..m + k] == ws[..m] + ws[m..][..k];
    assert ArgsOf(ws[..m + k]) == ArgsOf(ws[..m]) + ArgsOf(ws[m..][..k]);
    assert c.log + ArgsOf(ws[..m + k]) == c1.log + ArgsOf(ws[m..][..k]);
  }

  /** One read of a stream, with more to come. */
  lemma {:induction false} ReadOn(c: Conn, ws: seq<Wire>, chunks: seq<Bytes>, exec: Executor, junk: int)
    requires Printable(ws) && c.ending == Open && c.pending + Flatten(chunks) <= Stream(ws) && chunks != []
    ensures var c1, r := Deliver(c, chunks[0], exec, junk), Loop(ws, |c.pending| + |chunks[0]|, exec);
            && Follows(c, c1, ws, r)
            && (r.clean ==>
                  && c1.log == c.log + ArgsOf(ws[..r.done]) && c1.ending == r.ending && |c1.pending| == r.held
                  && c1.pending + Flatten(chunks[1..]) <= Stream(ws[r.done..])
                  && |Stream(ws[r.done..])| - |c1.pending + Flatten(chunks[1..])|
                  == |Stream(ws)| - |c.pending + Flatten(chunks)|)
  {
    hide Drain, Agrees, Follows, Loop, WellFormed, Args, CutArgs, Stream;
    var n := |c.pending| + |chunks[0]|;
    var c1, r := Deliver(c, chunks[0], exec, junk), Loop(ws, n, exec);
    assert c.pending + chunks[0] == (c.pending + Flatten(chunks))[..n] == Stream(ws)[..n];
    LoopReaches(ws, n, exec, junk);
    OneRead(c, chunks[0], ws, exec, junk, r);
    if r.clean {
      FollowsOpen(c, c1, ws, r);
      BehindLoop(ws, n, exec);
      Behind(c.pending + Flatten(chunks), Stream(ws), n,
             Stream(ws[r.done..]), r.held, c1.pending, Flatten(chunks[1..]));
    }
  }

  /** The reads of a stream, or of its front part. */
  lemma {:induction false} Delivers(c: Conn, ws: seq<Wire>, chunks: seq<Bytes>, exec: Executor, junk: int)
    requires Printable(ws) && c.ending == Open && c.pending + Flatten(chunks) <= Stream(ws)
    ensures Follows(c, DeliverAll(c, chunks, exec, junk), ws, Reached(ws, |c.pending|, chunks, exec))
    decreases |chunks|
  {
    hide Deliver, Follows, Loop, WellFormed, Args, CutArgs, Stream;
    if chunks == [] {
      FollowsNothing(c, ws);
    } else {
      var c1, r := Deliver(c, chunks[0], exec, junk), Loop(ws, |c.pending| + |chunks[0]|, exec);
      ReadOn(c, ws, chunks, exec, junk);
      if !r.clean {
        LogGrows(c1, chunks[1..], exec, junk);
        FollowsBad(c, c1, DeliverAll(c1, chunks[1..], exec, junk), ws, r);
      } else if r.ending != Open {
        Closed(c1, chunks[1..], exec, junk);
      } else {
        Delivers(c1, ws[r.done..], chunks[1..], exec, junk);
        FollowsLater(c, c1, DeliverAll(c1, chunks[1..], exec, junk), ws, r.done,
                     Reached(ws[r.done..], r.held, chunks[1..], exec));
      }
    }
  }

  lemma FollowsNothing(c: Conn, ws: seq<Wire>)
    requires c.pending <= Stream(ws) && c.ending == Open
    ensures Follows(c, c, ws, Reach(0, |c.pending|, Open, true))
  {
    assert ws[0..] == ws && ws[..0] == [];
  }

  lemma OneRead(c: Conn, chunk: Bytes, ws: seq<Wire>, exec: Executor, junk: int, r: Reach)
    requires c.ending == Open && r.done <= |ws| && Agrees(Drain(c.pending + chunk, exec, junk), ws, r)
    ensures Follows(c, Deliver(c, chunk, exec, junk), ws, r)
  {
    hide Drain, Args, CutArgs, Stream;
    if !r.clean {
      assert c.log + (ArgsOf(ws[..r.done]) + [CutArgs(ws[r.done])])
          == c.log + ArgsOf(ws[..r.done]) + [CutArgs(ws[r.done])];
    }
  }

  lemma FollowsBad(c: Conn, c1: Conn, c2: Conn, ws: seq<Wire>, r: Reach)
    requires r.done <= |ws| && !r.clean && Follows(c, c1, ws, r) && c1.log <= c2.log
    ensures Follows(c, c2, ws, r)
  {
  }

  lemma FollowsOpen(c: Conn, c1: Conn, ws: seq<Wire>, r: Reach)
    requires r.done <= |ws| && r.clean && Follows(c, c1, ws, r)
    ensures c1.log == c.log + ArgsOf(ws[..r.done]) && c1.ending == r.ending
    ensures r.held <= |Stream(ws[r.done..])| && c1.pending == Stream(ws[r.done..])[..r.held]
  {
  }

  /** The bytes to come continue the bytes left over. */
  lemma Behind(all: Bytes, stream: Bytes, n: nat, rest: Bytes, held: nat, pending: Bytes, coming: Bytes)
    requires n <= |all| && all <= stream && held <= |rest| && rest[held..] == stream[n..]
    requires pending == rest[..held] && coming == all[n..]
    ensures |pending| == held && pending + coming <= rest
    ensures |rest| - |pending + coming| == |stream| - |all|
  {
    assert coming == stream[n..][..|coming|];
    assert rest == rest[..held] + rest[held..];
  }

  /** A mangled command is not the one that was sent. */
  lemma CutArgsDiffer(w: Wire, n: nat)
    requires WellFormed(w) && InLengthLine(w, n)
    ensures CutArgs(w) != Args(w)
  {
  }

  /** A run that was not clean took a form cut in its last length line. */
  lemma {:induction false} LoopDirty(ws: seq<Wire>, n: nat, exec: Executor)
    requires !Loop(ws, n, exec).clean
    ensures var r := Loop(ws, n, exec); r.done < |ws| && exists k: nat :: InLengthLine(ws[r.done], k)
    decreases |ws|
  {
    hide Encode, Args, InLengthLine;
    if n >= |Encode(ws[0])| {
      LoopDirty(ws[1..], n - |Encode(ws[0])|, exec);
    } else {
      assert InLengthLine(ws[0], n);
    }
  }

  lemma {:induction false} ReachedDirty(ws: seq<Wire>, held: nat, chunks: seq<Bytes>, exec: Executor)
    requires !Reached(ws, held, chunks, exec).clean
    ensures var r := Reached(ws, held, chunks, exec); r.done < |ws| && exists k: nat :: InLengthLine(ws[r.done], k)
    decreases |chunks|
  {
    hide Loop, InLengthLine;
    var r := Loop(ws, held + |chunks[0]|, exec);
    if !r.clean {
      LoopDirty(ws, held + |chunks[0]|, exec);
    } else {
      ReachedDirty(ws[r.done..], r.held, chunks[1..], exec);
    }
  }

  /** Any stream of printed forms, or a front part of one, in any pieces, with
      commands that may answer anything. As long as no form cut short is taken
      for a whole one, the commands executed are the first `done` of those sent,
      and the pending bytes are the next `held` of the stream; otherwise what was
      executed is not what was sent. */
  lemma {:induction false} ChunkInvariant(ws: seq<Wire>, chunks: seq<Bytes>, exec: Executor, junk: int)
    requires Printable(ws) && Flatten(chunks) <= Stream(ws)
    ensures var c, r := DeliverAll(START, chunks, exec, junk), Reached(ws, 0, chunks, exec);
            && (c.log <= ArgsOf(ws) <==> r.clean)
            && (c.log == ArgsOf(ws) <==> r.clean && r.done == |ws|)
            && (r.clean ==>
                  && c.log == ArgsOf(ws)[..r.done] && c.ending == r.ending
                  && r.held <= |Stream(ws[r.done..])| && c.pending == Stream(ws[r.done..])[..r.held])
  {
    hide DeliverAll, Stream, Args, CutArgs, WellFormed, InLengthLine, Loop, Reached;
    var c, r := DeliverAll(START, chunks, exec, junk), Reached(ws, 0, chunks, exec);
    assert START.pending + Flatten(chunks) == Flatten(chunks);
    Delivers(START, ws, chunks, exec, junk);
    assert ArgsOf(ws[..r.done]) == ArgsOf(ws)[..r.done];
    if !r.clean {
      ReachedDirty(ws, 0, chunks, exec);
      var k: nat :| InLengthLine(ws[r.done], k);
      assert ws[r.done] in ws;
      CutArgsDiffer(ws[r.done], k);
      assert (START.log + ArgsOf(ws[..r.done]) + [CutArgs(ws[r.done])])[r.done] == c.log[r.done];
    }
  }

  // ---- Cuts ----

  /** The cut after n bytes is not inside the last length line of a form. */
  predicate GoodCut(ws: seq<Wire>, n: nat) {
    if ws == [] then true
    else if n < |Encode(ws[0])| then !InLengthLine(ws[0], n)
    else GoodCut(ws[1..], n - |Encode(ws[0])|)
  }

  /** No boundary between chunks, the first of which starts after n bytes of
      the stream, is a bad cut. */
  predicate GoodCuts(ws: seq<Wire>, n: nat, chunks: seq<Bytes>)
    decreases |chunks|
  {
    chunks == [] || (GoodCut(ws, n + |chunks[0]|) && GoodCuts(ws, n + |chunks[0]|, chunks[1..]))
  }

  predicate IsDone(w: Wire, exec: Executor) {
    exec(Args(w)).verdict == Done
  }

  ghost predicate AllDone(ws: seq<Wire>, exec: Executor) {
    forall w :: w in ws ==> IsDone(w, exec)
  }

  /** The loop can only be misled by a bad cut, and is misled by each one that it
      gets to. */
  lemma {:induction false} CutMisleads(ws: seq<Wire>, n: nat, exec: Executor)
    ensures GoodCut(ws, n) ==> Loop(ws, n, exec).clean
    ensures AllDone(ws, exec) ==> (GoodCut(ws, n) <==> Loop(ws, n, exec).clean)
    decreases |ws|
  {
    hide Encode, Args, InLengthLine;
    if ws != [] && n >= |Encode(ws[0])| {
      assert ws[0] in ws && IsDone(ws[0], exec) == (exec(Args(ws[0])).verdict == Done);
      CutMisleads(ws[1..], n - |Encode(ws[0])|, exec);
    }
  }

  /** A later cut is as good for the forms not executed yet as for all. */
  lemma {:induction false} GoodCutLater(ws: seq<Wire>, n: nat, k: nat, exec: Executor)
    requires n <= k && Loop(ws, n, exec).clean
    ensures var r := Loop(ws, n, exec); GoodCut(ws, k) <==> GoodCut(ws[r.done..], r.held + k - n)
    decreases |ws|
  {
    hide Encode, Args, InLengthLine;
    var r := Loop(ws, n, exec);
    if r.done == 0 {
      assert ws[0..] == ws;
    } else if exec(Args(ws[0])).verdict == Done {
      GoodCutLater(ws[1..], n - |Encode(ws[0])|, k - |Encode(ws[0])|, exec);
      assert ws[r.done..] == ws[1..][r.done - 1..];
    }
  }

  lemma {:induction false} GoodCutsLater(ws: seq<Wire>, n: nat, k: nat, chunks: seq<Bytes>, exec: Executor)
    requires n <= k && Loop(ws, n, exec).clean
    ensures var r := Loop(ws, n, exec); GoodCuts(ws, k, chunks) <==> GoodCuts(ws[r.done..], r.held + k - n, chunks)
    decreases |chunks|
  {
    hide GoodCut, Loop;
    if chunks != [] {
      GoodCutLater(ws, n, k + |chunks[0]|, exec);
      GoodCutsLater(ws, n, k + |chunks[0]|, chunks[1..], exec);
    }
  }

  /** Reads that end in good cuts are clean whatever the commands answer, and if
      every command is done these are the only clean ones. */
  lemma {:induction false} GoodIsClean(ws: seq<Wire>, held: nat, chunks: seq<Bytes>, exec: Executor)
    ensures GoodCuts(ws, held, chunks) ==> Reached(ws, held, chunks, exec).clean
    ensures AllDone(ws, exec) ==>
              (GoodCuts(ws, held, chunks) <==> Reached(ws, held, chunks, exec).clean)
              && Reached(ws, held, chunks, exec).ending == Open
    decreases |chunks|
  {
    hide GoodCut, Loop, AllDone;
    if chunks != [] {
      var n := held + |chunks[0]|;
      var r := Loop(ws, n, exec);
      CutMisleads(ws, n, exec);
      if AllDone(ws, exec) { DoneStaysOpen(ws, n, exec); }
      if r.clean && r.ending == Open {
        GoodCutsLater(ws, n, n, chunks[1..], exec);
        GoodIsClean(ws[r.done..], r.held, chunks[1..], exec);
      }
    }
  }

  lemma {:induction false} DoneStaysOpen(ws: seq<Wire>, n: nat, exec: Executor)
    requires AllDone(ws, exec)
    ensures var r := Loop(ws, n, exec); r.ending == Open && AllDone(ws[r.done..], exec)
    decreases |ws|
  {
    hide Encode, Args, InLengthLine;
    if ws != [] && n >= |Encode(ws[0])| {
      assert ws[0] in ws && IsDone(ws[0], exec);
      DoneStaysOpen(ws[1..], n - |Encode(ws[0])|, exec);
      assert ws[Loop(ws, n, exec).done..] == ws[1..][Loop(ws[1..], n - |Encode(ws[0])|, exec).done..];
    }
  }

  // ---- Whole streams ----

  /** After a whole stream an open connection holds all forms not executed. */
  lemma {:induction false} HoldsRest(ws: seq<Wire>, held: nat, chunks: seq<Bytes>, exec: Executor)
    requires held + |Flatten(chunks)| == |Stream(ws)|
    requires Reached(ws, held, chunks, exec).clean && Reached(ws, held, chunks, exec).ending == Open
    ensures var r := Reached(ws, held, chunks, exec); r.held == |Stream(ws[r.done..])|
    decreases |chunks|
  {
    hide Loop, Stream;
    if chunks == [] {
      assert ws[0..] == ws;
    } else {
      var n := held + |chunks[0]|;
      var r := Loop(ws, n, exec);
      BehindLoop(ws, n, exec);
      assert |Stream(ws)[n..]| == |Stream(ws[r.done..])[r.held..]|;
      HoldsRest(ws[r.done..], r.held, chunks[1..], exec);
      Later(ws, r.done, Reached(ws[r.done..], r.held, chunks[1..], exec).done);
    }
  }

  lemma Later<T>(s: seq<T>, m: nat, k: nat)
    requires m <= |s| && k <= |s| - m
    ensures s[m..][k..] == s[m + k..]
  {
  }

  lemma FormTakesBytes(ws: seq<Wire>)
    requires Printable(ws)
    ensures Stream(ws) == [] <==> ws == []
  {
    if ws != [] { assert ws[0] in ws; }
  }

  /** A connection is never closed by a well-formed stream, unless a command
      asks for it; that one is the last to be executed. */
  lemma {:induction false} LoopLeft(ws: seq<Wire>, n: nat, exec: Executor)
    requires Loop(ws, n, exec).ending != Open
    ensures var r := Loop(ws, n, exec);
            r.ending == Left && 0 < r.done && exec(Args(ws[r.done - 1])).verdict == Quit
    decreases |ws|
  {
    hide Encode, Args, InLengthLine;
    if exec(Args(ws[0])).verdict == Done { LoopLeft(ws[1..], n - |Encode(ws[0])|, exec); }
  }

  lemma {:induction false} ReachedLeft(ws: seq<Wire>, held: nat, chunks: seq<Bytes>, exec: Executor)
    requires Reached(ws, held, chunks, exec).ending != Open
    ensures var r := Reached(ws, held, chunks, exec);
            r.ending == Left && 0 < r.done && exec(Args(ws[r.done - 1])).verdict == Quit
    decreases |chunks|
  {
    hide Loop, Args;
    var n := held + |chunks[0]|;
    var r := Loop(ws, n, exec);
    if r.ending != Open {
      LoopLeft(ws, n, exec);
    } else {
      ReachedLeft(ws[r.done..], r.held, chunks[1..], exec);
    }
  }

  /** Good splits, whatever the commands answer: what is executed is a front part
      of what was sent. It is all of it exactly if nothing is left pending on a
      connection still open, or if the command that closed it was the last. */
  lemma {:induction false} GoodSplit(ws: seq<Wire>, chunks: seq<Bytes>, exec: Executor, junk: int)
    requires Printable(ws) && Flatten(chunks) == Stream(ws) && GoodCuts(ws, 0, chunks)
    ensures var c, done := DeliverAll(START, chunks, exec, junk), Reached(ws, 0, chunks, exec).done;
            && c.log == ArgsOf(ws)[..done] && (c.log == ArgsOf(ws) <==> done == |ws|)
            && match c.ending
               case Open => c.pending == Stream(ws[done..]) && (c.log == ArgsOf(ws) <==> c.pending == [])
               case Left => 0 < done && exec(Args(ws[done - 1])).verdict == Quit
               case Broken(_) => false
  {
    hide DeliverAll, Stream, Args, WellFormed, GoodCuts, Reached;
    var r := Reached(ws, 0, chunks, exec);
    ChunkInvariant(ws, chunks, exec, junk);
    GoodIsClean(ws, 0, chunks, exec);
    if r.ending == Open {
      HoldsRest(ws, 0, chunks, exec);
      FormTakesBytes(ws[r.done..]);
    } else {
      ReachedLeft(ws, 0, chunks, exec);
    }
  }

  // ---- One read ----

  /** The forms up to the first whose command is not done, that one included. */
  function First(ws: seq<Wire>, exec: Executor): (m: nat)
    ensures m <= |ws|
  {
    if ws == [] then 0 else if IsDone(ws[0], exec) then 1 + First(ws[1..], exec) else 1
  }

  lemma {:induction false} FirstIsAll(ws: seq<Wire>, exec: Executor)
    ensures First(ws, exec) == |ws| <==> forall i :: 0 <= i < |ws| - 1 ==> IsDone(ws[i], exec)
  {
    hide IsDone;
    if |ws| > 1 {
      FirstIsAll(ws[1..], exec);
      assert forall i :: 1 <= i < |ws| - 1 ==> ws[i] == ws[1..][i - 1];
      if First(ws, exec) == |ws| {
        forall i | 0 <= i < |ws| - 1 ensures IsDone(ws[i], exec) {
          if i > 0 { assert ws[i] == ws[1..][i - 1]; }
        }
      }
    }
  }

  lemma {:induction false} LoopWhole(ws: seq<Wire>, exec: Executor)
    ensures var r := Loop(ws, |Stream(ws)|, exec); r.done == First(ws, exec) && r.clean
  {
    hide Encode, Args, InLengthLine;
    if ws != [] { LoopWhole(ws[1..], exec); }
  }

  /** Forms sent back to back and read at once: executed up to the first command
      that is not done; all of them exactly if none but the last can be such. */
  lemma {:induction false} Pipelined(ws: seq<Wire>, exec: Executor, junk: int)
    requires Printable(ws)
    ensures var d := Drain(Stream(ws), exec, junk);
            && d.log == ArgsOf(ws)[..First(ws, exec)] && d.rest == Stream(ws[First(ws, exec)..])
            && (d.log == ArgsOf(ws) <==> forall i :: 0 <= i < |ws| - 1 ==> IsDone(ws[i], exec))
  {
    hide Drain, Stream, Args, Loop, IsDone, WellFormed;
    var n, m := |Stream(ws)|, First(ws, exec);
    assert Stream(ws)[..n] == Stream(ws);
    LoopReaches(ws, n, exec, junk);
    LoopWhole(ws, exec);
    FirstIsAll(ws, exec);
    BehindLoop(ws, n, exec);
    assert ArgsOf(ws[..m]) == ArgsOf(ws)[..m];
    var rest, held := Stream(ws[m..]), Loop(ws, n, exec).held;
    assert rest[held..] == [] && rest == rest[..held];
  }

  /** Every command in front of `First` is reached by any good split, too. */
  lemma {:induction false} FirstBelow(ws: seq<Wire>, n: nat, exec: Executor)
    requires n <= |Stream(ws)| && Loop(ws, n, exec).clean
    ensures var r := Loop(ws, n, exec);
            First(ws, exec) <= r.done || (r.ending == Open && First(ws, exec) == r.done + First(ws[r.done..], exec))
    decreases |ws|
  {
    hide Encode, Args, InLengthLine;
    var r := Loop(ws, n, exec);
    if ws == [] {
    } else if n < |Encode(ws[0])| {
      assert ws[0..] == ws;
    } else if IsDone(ws[0], exec) {
      FirstBelow(ws[1..], n - |Encode(ws[0])|, exec);
      Later(ws, 1, r.done - 1);
    }
  }

  lemma {:induction false} FirstReached(ws: seq<Wire>, held: nat, chunks: seq<Bytes>, exec: Executor)
    requires held + |Flatten(chunks)| == |Stream(ws)| && Reached(ws, held, chunks, exec).clean
    requires Printable(ws) && (chunks == [] ==> ws == [])
    ensures First(ws, exec) <= Reached(ws, held, chunks, exec).done
    decreases |chunks|
  {
    hide Loop, First, Stream, WellFormed;
    if chunks == [] {
      NoFirst(exec);
    } else {
      var n := held + |chunks[0]|;
      var r := Loop(ws, n, exec);
      FirstBelow(ws, n, exec);
      if chunks[1..] == [] {
        LoopWhole(ws, exec);
      } else if r.ending == Open {
        BehindLoop(ws, n, exec);
        assert |Stream(ws)[n..]| == |Stream(ws[r.done..])[r.held..]|;
        FirstReached(ws[r.done..], r.held, chunks[1..], exec);
      }
    }
  }

  lemma NoFirst(exec: Executor)
    ensures First([], exec) == 0
  {
  }

  /** No good split executes less than one single read of the stream, and all
      execute the same if no command but the last is other than done. */
  lemma {:induction false} OneReadExecutesLeast(ws: seq<Wire>, chunks: seq<Bytes>, exec: Executor, junk: int)
    requires Printable(ws) && Flatten(chunks) == Stream(ws) && GoodCuts(ws, 0, chunks)
    ensures var one, many := Drain(Stream(ws), exec, junk).log, DeliverAll(START, chunks, exec, junk).log;
            && one <= many <= ArgsOf(ws)
            && ((forall i :: 0 <= i < |ws| - 1 ==> IsDone(ws[i], exec)) ==> many == ArgsOf(ws))
  {
    hide Drain, DeliverAll, Stream, Args, WellFormed, GoodCuts, Reached, IsDone;
    Pipelined(ws, exec, junk);
    GoodSplit(ws, chunks, exec, junk);
    GoodIsClean(ws, 0, chunks, exec);
    if chunks == [] { FormTakesBytes(ws); }
    FirstReached(ws, 0, chunks, exec);
    FirstIsAll(ws, exec);
  }

  // ---- Streams of commands that are all done ----

  /** With such commands, what was sent is executed, in order and once each,
      exactly when no boundary between reads is a bad cut. */
  lemma {:induction false} DoneStream(ws: seq<Wire>, chunks: seq<Bytes>, exec: Executor, junk: int)
    requires Printable(ws) && AllDone(ws, exec) && Flatten(chunks) == Stream(ws)
    ensures var c := DeliverAll(START, chunks, exec, junk);
            && (c.log == ArgsOf(ws) <==> GoodCuts(ws, 0, chunks))
            && (GoodCuts(ws, 0, chunks) ==> c.pending == [] && c.ending == Open)
  {
    hide Drain, DeliverAll, Stream, Args, WellFormed, GoodCuts, Reached, IsDone;
    ChunkInvariant(ws, chunks, exec, junk);
    GoodIsClean(ws, 0, chunks, exec);
    assert forall i :: 0 <= i < |ws| ==> ws[i] in ws;
    if GoodCuts(ws, 0, chunks) {
      OneReadExecutesLeast(ws, chunks, exec, junk);
      GoodSplit(ws, chunks, exec, junk);
    }
  }

  // ---- Witnesses ----

  lemma FlattenTwo(a: Bytes, b: Bytes)
    ensures Flatten([a, b]) == a + b
  {
    assert [a, b][1..] == [b] && [b][1..] == [];
    assert Flatten([b]) == b;
  }

  lemma StreamTwo(a: Wire, b: Wire)
    ensures Stream([a, b]) == Encode(a) + Encode(b) && Stream([b]) == Encode(b)
  {
    hide Encode;
    assert [a, b][1..] == [b] && [b][1..] == [];
    assert Stream([]) == [];
  }

  /** The smallest failing split: a one-argument command whose first piece ends
      right after the '$' runs as a command without arguments. */
  lemma SplitAfterDollar(a: Bytes, exec: Executor, junk: int)
    requires |a| < INT_LIMIT && exec([a]).verdict == Done
    ensures var e := Encode(Multi([Data(a)])); var k := |Header(STAR, 1)| + 1;
            && k < |e|
            && DeliverAll(START, [e[..k], e[k..]], exec, junk).log != [[a]]
  {
    hide Drain;
    var w := Multi([Data(a)]);
    var e, k := Encode(w), |Header(STAR, 1)| + 1;
    assert BulkSeq([Data(a)]) == BulkBytes(a) by { assert [Data(a)][1..] == []; }
    StreamTwo(w, w);
    FlattenTwo(e[..k], e[k..]);
    assert InLengthLine(w, k);
    assert Args(w) == [a];
    assert ArgsOf([w]) == [[a]];
    DoneStream([w], [e[..k], e[k..]], exec, junk);
  }

  /** The loop on one whole form. */
  lemma {:induction false} DrainWhole(w: Wire, exec: Executor, junk: int)
    requires WellFormed(w) && !exec(Args(w)).verdict.Quit?
    ensures var d := Drain(Encode(w), exec, junk); d.log == [Args(w)] && d.rest == [] && d.ending == Open
  {
    hide Read, Drain, Encode, Args, WellFormed;
    ReadEncoded(w, [], junk);
    assert Encode(w) + [] == Encode(w);
    DrainLast(Encode(w), exec, junk, Args(w));
  }

  /** A read of one whole form on an idle connection. */
  lemma {:induction false} OneForm(c: Conn, w: Wire, exec: Executor, junk: int)
    requires WellFormed(w) && c.pending == [] && c.ending == Open && !exec(Args(w)).verdict.Quit?
    ensures var c1 := Deliver(c, Encode(w), exec, junk);
            c1.log == c.log + [Args(w)] && c1.pending == [] && c1.ending == Open
  {
    hide Drain, Encode, Args, WellFormed;
    DrainWhole(w, exec, junk);
    assert c.pending + Encode(w) == Encode(w);
  }

  lemma DeliverTwo(c: Conn, x: Bytes, y: Bytes, exec: Executor, junk: int)
    ensures DeliverAll(c, [x], exec, junk) == Deliver(c, x, exec, junk)
    ensures DeliverAll(c, [x, y], exec, junk) == Deliver(Deliver(c, x, exec, junk), y, exec, junk)
  {
    hide Deliver;
    assert [x, y][1..] == [y] && [y][1..] == [] && [x][1..] == [];
    assert DeliverAll(Deliver(c, x, exec, junk), [y], exec, junk) == Deliver(Deliver(c, x, exec, junk), y, exec, junk);
  }

  /** A command that errs holds back the command behind it when both come in one
      read; in two reads, both are executed. */
  lemma {:induction false} ErrorHoldsBack(a: Wire, b: Wire, exec: Executor, junk: int)
    requires WellFormed(a) && WellFormed(b)
    requires exec(Args(a)).verdict.Fault? && exec(Args(b)).verdict == Done
    ensures var one, two := DeliverAll(START, [Encode(a) + Encode(b)], exec, junk),
                            DeliverAll(START, [Encode(a), Encode(b)], exec, junk);
            && one.log == [Args(a)] && one.pending == Encode(b) && one.ending == Open
            && two.log == [Args(a), Args(b)] && two.pending == [] && two.ending == Open
  {
    hide Drain, Encode, Args, WellFormed;
    DrainOne(a, Encode(b), exec, junk);
    assert START.pending + (Encode(a) + Encode(b)) == Encode(a) + Encode(b);
    DeliverTwo(START, Encode(a) + Encode(b), [], exec, junk);
    DeliverTwo(START, Encode(a), Encode(b), exec, junk);
    OneForm(START, a, exec, junk);
    OneForm(Deliver(START, Encode(a), exec, junk), b, exec, junk);
    hide Deliver, DeliverAll;
    assert [] + [Args(a)] + [Args(b)] == [Args(a), Args(b)];
  }
}
