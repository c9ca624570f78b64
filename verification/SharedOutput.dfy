/** What a client is sent. Its poll thread writes the answers of its commands to
    an output buffer and flushes them at the end of a read, if a command asked
    for it; a reply thread writes to the same buffer, and flushes all of it. */
module SharedOutput {
  import opened Bytes
  import opened Resp
  import opened RespRoundTrip
  import opened CommandLoop
  import opened ChunkInvariance

  function Message(e: Error): Bytes {
    match e
    case UnbalancedQuotes => Ascii("Protocol error: unbalanced quotes in request")
    case InvalidMultibulkLength => Ascii("Protocol error: invalid multibulk length")
    case InvalidBulkLength => Ascii("Protocol error: invalid bulk length")
    case InvalidBulkData => Ascii("Protocol error: invalid bulk data")
    case ExpectedDollar(got) => Ascii("Protocol error: expected '$', got '") + [got] + Ascii("'")
  }

  /** An error is printed as a minus sign, ERR, a space, the message, CR LF. */
  function ErrorReply(msg: Bytes): (r: Bytes)
    ensures r == [MINUS, 69, 82, 82, SPACE] + msg + [13, 10]
  {
    assert Ascii("-ERR ") == [MINUS, 69, 82, 82, SPACE];
    Ascii("-ERR ") + msg + CRLF
  }

  // ---- The output buffer ----

  /** What is done to the output: a write and a mark of the poll thread, the end
      of its read, a reply of the reply thread. */
  datatype Act = Wrote(bytes: Bytes) | Mark | EndRead | Replied(bytes: Bytes)

  /** Bytes sent, bytes waiting, and whether the output is marked. */
  datatype Out = Out(sent: Bytes, unsent: Bytes, marked: bool)

  const SILENCE: Out := Out([], [], false)

  function Perform(o: Out, a: Act): Out {
    match a
    case Wrote(b) => o.(unsent := o.unsent + b)
    case Mark => o.(marked := true)
    case EndRead => if o.marked then Out(o.sent + o.unsent, [], false) else o
    case Replied(b) => Out(o.sent + (o.unsent + b), [], o.marked)
  }

  function Play(acts: seq<Act>): Out {
    if acts == [] then SILENCE else Perform(Play(acts[..|acts| - 1]), acts[|acts| - 1])
  }

  /** Everything written, by whichever thread, in order. */
  function Text(acts: seq<Act>): Bytes {
    if acts == [] then [] else Text(acts[..|acts| - 1]) + Part(acts[|acts| - 1])
  }

  function Part(a: Act): Bytes {
    match a case Wrote(b) => b case Replied(b) => b case _ => []
  }

  /** The acts of the poll thread. */
  function Own(acts: seq<Act>): seq<Act> {
    if acts == [] then [] else Own(acts[..|acts| - 1]) + OwnPart(acts[|acts| - 1])
  }

  function OwnPart(a: Act): seq<Act> {
    if a.Replied? then [] else [a]
  }

  // ---- What the poll thread does ----

  /** All that a command makes its client receive at once. */
  function Answer(args: seq<Bytes>, exec: Executor): Bytes {
    exec(args).written + match exec(args).verdict case Fault(m) => ErrorReply(m) case _ => []
  }

  function Answers(log: seq<seq<Bytes>>, exec: Executor): Bytes {
    if log == [] then [] else Answers(log[..|log| - 1], exec) + Answer(log[|log| - 1], exec)
  }

  /** The last words to a client that broke the protocol. */
  function Farewell(e: Ending): Bytes {
    match e case Broken(err) => ErrorReply(Message(err)) case _ => []
  }

  predicate Marked(log: seq<seq<Bytes>>, exec: Executor) {
    exists i :: 0 <= i < |log| && exec(log[i]).marks
  }

  /** A command writes, may mark, and an error reply follows. */
  function CommandActs(args: seq<Bytes>, exec: Executor): seq<Act> {
    [Wrote(exec(args).written)] +
    (if exec(args).marks then [Mark] else []) +
    (match exec(args).verdict case Fault(m) => [Wrote(ErrorReply(m))] case _ => [])
  }

  function LogActs(log: seq<seq<Bytes>>, exec: Executor): seq<Act> {
    if log == [] then [] else LogActs(log[..|log| - 1], exec) + CommandActs(log[|log| - 1], exec)
  }

  function FarewellActs(e: Ending): seq<Act> {
    match e case Broken(err) => [Wrote(ErrorReply(Message(err)))] case _ => []
  }

  /** One read that executes these commands and ends so. */
  function ReadActs(log: seq<seq<Bytes>>, ending: Ending, exec: Executor): seq<Act> {
    LogActs(log, exec) + FarewellActs(ending) + [EndRead]
  }

  /** All reads of a connection. */
  function RunActs(c: Conn, chunks: seq<Bytes>, exec: Executor, junk: int): seq<Act>
    decreases |chunks|
  {
    if chunks == [] || c.ending != Open then []
    else
      var d := Drain(c.pending + chunks[0], exec, junk);
      ReadActs(d.log, d.ending, exec) + RunActs(Deliver(c, chunks[0], exec, junk), chunks[1..], exec, junk)
  }

  /** Acts of both threads in any order that keeps each thread's own: the poll
      thread makes these reads, and replies fall wherever they like. */
  predicate RunsOver(acts: seq<Act>, chunks: seq<Bytes>, exec: Executor, junk: int) {
    Own(acts) == RunActs(START, chunks, exec, junk)
  }

  // ---- Joining ----

  lemma Snoc<T>(a: seq<T>, b: seq<T>)
    requires b != []
    ensures (a + b)[..|a + b| - 1] == a + b[..|b| - 1] && (a + b)[|a + b| - 1] == b[|b| - 1]
  {
  }

  lemma {:induction false} TextJoin(a: seq<Act>, b: seq<Act>)
    ensures Text(a + b) == Text(a) + Text(b)
    decreases |b|
  {
    hide Part;
    if b == [] {
      assert a + b == a;
    } else {
      Snoc(a, b);
      TextJoin(a, b[..|b| - 1]);
    }
  }

  lemma {:induction false} OwnJoin(a: seq<Act>, b: seq<Act>)
    ensures Own(a + b) == Own(a) + Own(b)
    decreases |b|
  {
    hide OwnPart;
    if b == [] {
      assert a + b == a;
    } else {
      Snoc(a, b);
      OwnJoin(a, b[..|b| - 1]);
    }
  }

  lemma {:induction false} AnswersJoin(a: seq<seq<Bytes>>, b: seq<seq<Bytes>>, exec: Executor)
    ensures Answers(a + b, exec) == Answers(a, exec) + Answers(b, exec)
    decreases |b|
  {
    hide Answer;
    if b == [] {
      assert a + b == a;
    } else {
      Snoc(a, b);
      AnswersJoin(a, b[..|b| - 1], exec);
    }
  }

  lemma {:induction false} LogActsJoin(a: seq<seq<Bytes>>, b: seq<seq<Bytes>>, exec: Executor)
    ensures LogActs(a + b, exec) == LogActs(a, exec) + LogActs(b, exec)
    decreases |b|
  {
    hide CommandActs;
    if b == [] {
      assert a + b == a;
    } else {
      Snoc(a, b);
      LogActsJoin(a, b[..|b| - 1], exec);
    }
  }

  /** All that the poll thread writes in one loop. */
  function Spoken(d: Drained, exec: Executor): Bytes {
    Answers(d.log, exec) + Farewell(d.ending)
  }

  lemma AnswersOne(args: seq<Bytes>, exec: Executor)
    ensures Answers([args], exec) == Answer(args, exec) && LogActs([args], exec) == CommandActs(args, exec)
  {
    assert [args][..0] == [] && [] + Answer(args, exec) == Answer(args, exec);
    assert [] + CommandActs(args, exec) == CommandActs(args, exec);
  }

  lemma SpokenAfter(args: seq<Bytes>, d: Drained, exec: Executor)
    ensures |Spoken(After(args, d), exec)| == |Answer(args, exec)| + |Spoken(d, exec)|
  {
    hide Answers, Answer, Farewell;
    AnswersOne(args, exec);
    AnswersJoin([args], d.log, exec);
  }

  /** The first command of a loop does not say more than the loop does. */
  lemma SpokenFirst(args: seq<Bytes>, d: Drained, exec: Executor)
    requires d.log != [] && d.log[0] == args
    ensures |Answer(args, exec)| <= |Spoken(d, exec)|
  {
    SpokenAfter(args, Drained(d.log[1..], d.rest, d.ending), exec);
    assert [args] + d.log[1..] == d.log;
  }

  lemma ActsOfOne(args: seq<Bytes>, exec: Executor)
    ensures forall e: Ending :: !e.Broken? ==>
              LogActs([args], exec) + FarewellActs(e) == CommandActs(args, exec)
  {
    hide CommandActs, Answer;
    AnswersOne(args, exec);
    assert CommandActs(args, exec) + [] == CommandActs(args, exec);
  }

  lemma ActsOfNone(own: seq<Act>, exec: Executor)
    ensures LogActs([], exec) == [] && own + [] == own
  {
  }

  lemma PlayOne(acts: seq<Act>, a: Act)
    ensures Play(acts + [a]) == Perform(Play(acts), a)
    ensures Text(acts + [a]) == Text(acts) + Part(a)
    ensures Own(acts + [a]) == Own(acts) + OwnPart(a)
  {
    assert (acts + [a])[..|acts|] == acts;
  }

  lemma Writing(acts: seq<Act>, b: Bytes)
    ensures Play(acts + [Wrote(b)]) == Play(acts).(unsent := Play(acts).unsent + b)
    ensures Own(acts + [Wrote(b)]) == Own(acts) + [Wrote(b)]
  {
    hide Play, Own;
    PlayOne(acts, Wrote(b));
  }

  lemma Marking(acts: seq<Act>)
    ensures Play(acts + [Mark]) == Play(acts).(marked := true)
    ensures Own(acts + [Mark]) == Own(acts) + [Mark]
  {
    hide Play, Own;
    PlayOne(acts, Mark);
  }

  lemma Closing(acts: seq<Act>)
    ensures var o := Play(acts);
            Play(acts + [EndRead]) == if o.marked then Out(o.sent + o.unsent, [], false) else o
    ensures Own(acts + [EndRead]) == Own(acts) + [EndRead]
  {
    hide Play, Own;
    PlayOne(acts, EndRead);
  }

  lemma Replying(acts: seq<Act>, b: Bytes)
    ensures var o := Play(acts); Play(acts + [Replied(b)]) == Out(o.sent + (o.unsent + b), [], o.marked)
    ensures Own(acts + [Replied(b)]) == Own(acts)
  {
    hide Play, Own;
    PlayOne(acts, Replied(b));
    assert Own(acts) + [] == Own(acts);
  }

  // ---- What is sent, and what waits ----

  /** Sent and unsent are together all that was written, in order. */
  lemma {:induction false} NothingLost(acts: seq<Act>)
    ensures Play(acts).sent + Play(acts).unsent == Text(acts)
  {
    hide Text;
    if acts == [] {
      NoText();
    } else {
      var front, a := acts[..|acts| - 1], acts[|acts| - 1];
      NothingLost(front);
      assert front + [a] == acts;
      PlayOne(front, a);
      LastPart(Play(front), a);
    }
  }

  lemma NoText()
    ensures Text([]) == [] && Own([]) == []
  {
  }

  lemma LastPart(o: Out, a: Act)
    ensures Perform(o, a).sent + Perform(o, a).unsent == o.sent + o.unsent + Part(a)
  {
    match a
    case Wrote(b) => assert o.sent + (o.unsent + b) == o.sent + o.unsent + b;
    case Mark => assert o.sent + o.unsent + [] == o.sent + o.unsent;
    case EndRead =>
      assert o.sent + o.unsent + [] == o.sent + o.unsent;
    case Replied(b) => assert o.sent + (o.unsent + b) + [] == o.sent + o.unsent + b;
  }

  /** The output is marked by the poll thread alone. */
  lemma {:induction false} OwnMarks(acts: seq<Act>)
    ensures Play(acts).marked == Play(Own(acts)).marked
  {
    if acts != [] {
      var front, a := acts[..|acts| - 1], acts[|acts| - 1];
      assert acts == front + [a];
      OwnMarks(front);
      PlayOne(front, a);
      hide Play, Own, Text;
      if a.Replied? {
        assert Own(front) + [] == Own(front);
      } else {
        PlayOne(Own(front), a);
      }
    }
  }

  /** The i-th act is a mark that no end of a read before k takes away. */
  predicate MarkStands(acts: seq<Act>, i: int, k: int) {
    0 <= i < k <= |acts| && acts[i] == Mark && forall j :: i < j < k ==> acts[j] != EndRead
  }

  ghost predicate MarkedAt(acts: seq<Act>, k: int) {
    exists i :: MarkStands(acts, i, k)
  }

  /** Whatever waits is sent by this act: a reply, or the end of a read in which
      a command marked the output. */
  ghost predicate IsFlush(acts: seq<Act>, k: int) {
    0 <= k < |acts| && (acts[k].Replied? || (acts[k].EndRead? && MarkedAt(acts, k)))
  }

  lemma {:induction false} MarkedIs(acts: seq<Act>)
    ensures Play(acts).marked <==> MarkedAt(acts, |acts|)
  {
    if acts != [] {
      var front, a := acts[..|acts| - 1], acts[|acts| - 1];
      MarkedIs(front);
      if a != EndRead { MarkKept(acts); }
      if a == Mark { assert MarkStands(acts, |acts| - 1, |acts|); }
    }
  }

  lemma MarkKept(acts: seq<Act>)
    requires acts != [] && acts[|acts| - 1] != EndRead
    ensures MarkedAt(acts, |acts|) <==> acts[|acts| - 1] == Mark || MarkedAt(acts[..|acts| - 1], |acts| - 1)
  {
    var n, front := |acts| - 1, acts[..|acts| - 1];
    if MarkedAt(front, n) {
      var i :| MarkStands(front, i, n);
      assert acts[i] == front[i] && forall j :: i < j < n ==> acts[j] == front[j];
      assert MarkStands(acts, i, n + 1);
    }
    if acts[n] == Mark { assert MarkStands(acts, n, n + 1); }
    if MarkedAt(acts, n + 1) && acts[n] != Mark {
      var i :| MarkStands(acts, i, n + 1);
      assert MarkStands(front, i, n);
    }
  }

  lemma MarkedBefore(acts: seq<Act>, more: seq<Act>, k: int)
    requires k <= |acts|
    ensures MarkedAt(acts, k) <==> MarkedAt(acts + more, k)
    ensures k < |acts| ==> (IsFlush(acts, k) <==> IsFlush(acts + more, k))
  {
    var all := acts + more;
    if MarkedAt(acts, k) {
      var i :| MarkStands(acts, i, k);
      assert MarkStands(all, i, k);
    }
    if MarkedAt(all, k) {
      var i :| MarkStands(all, i, k);
      assert forall j :: i <= j < k ==> acts[j] == all[j];
      assert MarkStands(acts, i, k);
    }
  }

  /** The number of acts up to the last flush, that one included. */
  ghost function LastFlush(acts: seq<Act>): (f: nat)
    ensures f <= |acts|
  {
    if acts == [] then 0
    else if IsFlush(acts, |acts| - 1) then |acts|
    else LastFlush(acts[..|acts| - 1])
  }

  /** The f first acts end in a flush, or are none, and no flush follows them:
      what they wrote is sent, and what was written since waits. */
  ghost predicate SentUpTo(acts: seq<Act>, f: nat) {
    && f <= |acts|
    && Play(acts).sent == Text(acts[..f]) && Play(acts).unsent == Text(acts[f..])
    && (f > 0 ==> IsFlush(acts, f - 1)) && forall k :: f <= k < |acts| ==> !IsFlush(acts, k)
  }

  /** For any acts of the two threads in any order, what has been sent is all
      that was written up to the last reply or marked read, and what waits is all
      that was written since, by the poll thread alone. */
  lemma {:induction false} WaitsExactly(acts: seq<Act>)
    ensures SentUpTo(acts, LastFlush(acts))
    ensures Own(acts[LastFlush(acts)..]) == acts[LastFlush(acts)..]
  {
    hide Play, Text, Own, LastFlush;
    UpToLastFlush(acts);
    var f := LastFlush(acts);
    forall k | 0 <= k < |acts[f..]| ensures !acts[f..][k].Replied? {
      assert !IsFlush(acts, f + k);
    }
    NoneFromReplies(acts[f..]);
  }

  lemma {:induction false} NoneFromReplies(acts: seq<Act>)
    requires forall k :: 0 <= k < |acts| ==> !acts[k].Replied?
    ensures Own(acts) == acts
  {
    if acts != [] { NoneFromReplies(acts[..|acts| - 1]); }
  }

  lemma {:induction false} UpToLastFlush(acts: seq<Act>)
    ensures SentUpTo(acts, LastFlush(acts))
  {
    hide SentUpTo, IsFlush;
    if acts == [] {
      NoneWaits();
    } else {
      var front, a := acts[..|acts| - 1], acts[|acts| - 1];
      assert front + [a] == acts;
      UpToLastFlush(front);
      if IsFlush(acts, |acts| - 1) {
        Flushed(front, a);
      } else {
        Waits(front, a, LastFlush(front));
      }
    }
  }

  lemma NoneWaits()
    ensures SentUpTo([], 0)
  {
    NoText();
    var none: seq<Act> := [];
    assert none[..0] == none[0..] == [];
  }

  lemma Flushed(front: seq<Act>, a: Act)
    requires IsFlush(front + [a], |front|)
    ensures SentUpTo(front + [a], |front| + 1)
  {
    hide Text;
    var acts := front + [a];
    MarkedIs(front);
    MarkedBefore(front, [a], |front|);
    PlayOne(front, a);
    assert Play(acts).unsent == [];
    NothingLost(acts);
    NoText();
    assert acts[..|acts|] == acts && acts[|acts|..] == [];
  }

  lemma Waits(front: seq<Act>, a: Act, f: nat)
    requires SentUpTo(front, f) && !IsFlush(front + [a], |front|)
    ensures SentUpTo(front + [a], f)
  {
    hide Play, Text, Own, Perform, Part, IsFlush;
    var acts := front + [a];
    StaysMarked(front, a);
    PlayOne(front, a);
    PlayOne(front[f..], a);
    Unflushed(Play(front), a);
    assert acts[f..] == front[f..] + [a] && acts[..f] == front[..f];
    forall k | 0 <= k < |front| ensures IsFlush(acts, k) <==> IsFlush(front, k) {
      MarkedBefore(front, [a], k);
    }
    if f > 0 { assert IsFlush(front, f - 1); }
  }

  lemma StaysMarked(front: seq<Act>, a: Act)
    requires !IsFlush(front + [a], |front|)
    ensures !a.Replied? && !(a.EndRead? && Play(front).marked)
  {
    MarkedIs(front);
    MarkedBefore(front, [a], |front|);
  }

  lemma Unflushed(o: Out, a: Act)
    requires !a.Replied? && !(a.EndRead? && o.marked)
    ensures Perform(o, a).sent == o.sent && Perform(o, a).unsent == o.unsent + Part(a)
  {
    assert o.unsent + [] == o.unsent;
  }

  predicate TailOf(u: Bytes, all: Bytes) {
    |u| <= |all| && u == all[|all| - |u|..]
  }

  /** What waits is the tail end of what would wait if no reply fell. */
  lemma {:induction false} QuietIsLongest(acts: seq<Act>)
    ensures TailOf(Play(acts).unsent, Play(Own(acts)).unsent)
  {
    hide Perform, TailOf;
    if acts == [] {
      NoTail();
    } else {
      var front, a := acts[..|acts| - 1], acts[|acts| - 1];
      QuietIsLongest(front);
      OwnMarks(front);
      StaysTail(Play(front), Play(Own(front)), a);
      if a.Replied? {
        assert Own(front) + [] == Own(front);
      } else {
        PlayOne(Own(front), a);
      }
    }
  }

  lemma NoTail()
    ensures TailOf([], [])
  {
  }

  lemma StaysTail(o: Out, quiet: Out, a: Act)
    requires o.marked == quiet.marked && TailOf(o.unsent, quiet.unsent)
    ensures TailOf(Perform(o, a).unsent, if a.Replied? then quiet.unsent else Perform(quiet, a).unsent)
  {
  }

  // ---- The reads of a connection ----

  lemma CommandText(args: seq<Bytes>, exec: Executor)
    ensures Text(CommandActs(args, exec)) == Answer(args, exec)
  {
    hide ErrorReply;
    var x := exec(args);
    TextOf([], Wrote(x.written));
    var first := [Wrote(x.written)] + if x.marks then [Mark] else [];
    if x.marks { TextOf([Wrote(x.written)], Mark); }
    assert Text(first) == x.written;
    match x.verdict
    case Fault(m) => TextOf(first, Wrote(ErrorReply(m)));
    case _ => assert first + [] == first;
  }

  lemma TextOf(acts: seq<Act>, a: Act)
    ensures Text(acts + [a]) == Text(acts) + Part(a)
    ensures Text([]) == [] && [] + [a] == [a] && Text(acts) + [] == Text(acts) && [] + Part(a) == Part(a)
  {
    hide Play, Own, Part, Perform;
    PlayOne(acts, a);
    NoText();
  }

  lemma {:induction false} LogText(log: seq<seq<Bytes>>, exec: Executor)
    ensures Text(LogActs(log, exec)) == Answers(log, exec)
  {
    hide CommandActs, Answer;
    if log == [] {
      NoText();
    } else {
      var front, args := log[..|log| - 1], log[|log| - 1];
      LogText(front, exec);
      CommandText(args, exec);
      TextJoin(LogActs(front, exec), CommandActs(args, exec));
    }
  }

  lemma FarewellText(acts: seq<Act>, ending: Ending)
    ensures Text(acts + FarewellActs(ending)) == Text(acts) + Farewell(ending)
  {
    hide Text, ErrorReply, Message;
    if ending.Broken? {
      TextOf(acts, Wrote(ErrorReply(Message(ending.err))));
    } else {
      assert acts + [] == acts && Text(acts) + [] == Text(acts);
    }
  }

  lemma ReadText(log: seq<seq<Bytes>>, ending: Ending, exec: Executor)
    ensures Text(ReadActs(log, ending, exec)) == Answers(log, exec) + Farewell(ending)
  {
    hide LogActs, Answers, Text, FarewellActs, Farewell;
    LogText(log, exec);
    FarewellText(LogActs(log, exec), ending);
    TextOf(LogActs(log, exec) + FarewellActs(ending), EndRead);
  }

  lemma {:induction false} RunText(c: Conn, chunks: seq<Bytes>, exec: Executor, junk: int)
    requires c.ending == Open
    ensures var c' := DeliverAll(c, chunks, exec, junk);
            Answers(c.log, exec) + Text(RunActs(c, chunks, exec, junk)) == Answers(c'.log, exec) + Farewell(c'.ending)
    decreases |chunks|
  {
    hide Drain, ReadActs, Answers, ErrorReply, Message;
    if chunks == [] {
      NoText();
    } else {
      var d, c1 := Drain(c.pending + chunks[0], exec, junk), Deliver(c, chunks[0], exec, junk);
      var now, later := ReadActs(d.log, d.ending, exec), RunActs(c1, chunks[1..], exec, junk);
      TextJoin(now, later);
      ReadText(d.log, d.ending, exec);
      AnswersJoin(c.log, d.log, exec);
      if d.ending == Open {
        RunText(c1, chunks[1..], exec, junk);
        assert Text(now) == Answers(d.log, exec);
      } else {
        Closed(c1, chunks[1..], exec, junk);
        NoText();
        assert Text(now) + [] == Text(now);
      }
      Regroup(Answers(c.log, exec), Answers(d.log, exec), Farewell(d.ending), Text(later));
    }
  }

  lemma Regroup(a: Bytes, b: Bytes, f: Bytes, t: Bytes)
    ensures a + ((b + f) + t) == (a + b) + (f + t) && a + b + f == a + (b + f) && f + [] == f && [] + t == t
  {
  }

  /** However replies fall: sent and unsent are together all that both threads
      wrote, in order, and the poll thread wrote the answers of the commands
      executed, in order, and the farewell. */
  lemma {:induction false} RepliesConserved(acts: seq<Act>, chunks: seq<Bytes>, exec: Executor, junk: int)
    requires RunsOver(acts, chunks, exec, junk)
    ensures var c, o := DeliverAll(START, chunks, exec, junk), Play(acts);
            && o.sent + o.unsent == Text(acts)
            && Text(Own(acts)) == Answers(c.log, exec) + Farewell(c.ending)
  {
    hide DeliverAll, Play, Own, Text, RunActs, Farewell;
    NothingLost(acts);
    RunText(START, chunks, exec, junk);
    assert [] + Text(Own(acts)) == Text(Own(acts));
  }

  /** For commands that end fine the poll thread writes what they write, and
      nothing else. */
  lemma {:induction false} DoneAnswers(log: seq<seq<Bytes>>, exec: Executor)
    requires forall k :: 0 <= k < |log| ==> exec(log[k]).verdict == Done
    ensures Answers(log, exec) == Flatten(seq(|log|, k requires 0 <= k < |log| => exec(log[k]).written))
  {
    var texts := seq(|log|, k requires 0 <= k < |log| => exec(log[k]).written);
    if log != [] {
      var front, args := log[..|log| - 1], log[|log| - 1];
      DoneAnswers(front, exec);
      var fronts := seq(|front|, k requires 0 <= k < |front| => exec(front[k]).written);
      assert texts == fronts + [exec(args).written];
      FlattenLast(fronts, exec(args).written);
      assert exec(args).written + [] == exec(args).written;
    }
  }

  /** For a command that errs, an error reply follows what it writes. */
  lemma FaultAnswers(log: seq<seq<Bytes>>, args: seq<Bytes>, m: Bytes, exec: Executor)
    requires exec(args).verdict == Fault(m)
    ensures Answers(log + [args], exec) ==
            Answers(log, exec) + (exec(args).written + ([MINUS, 69, 82, 82, SPACE] + m + [13, 10]))
  {
    assert (log + [args])[..|log|] == log;
  }

  // ---- The last words to a client that broke the protocol ----

  lemma {:induction false} OwnMembers(acts: seq<Act>, a: Act)
    ensures a in Own(acts) <==> a in acts && !a.Replied?
  {
    if acts != [] {
      var front, z := acts[..|acts| - 1], acts[|acts| - 1];
      assert acts == front + [z];
      OwnMembers(front, a);
    }
  }

  /** One more read. */
  lemma {:induction false} RunActsLast(c: Conn, chunks: seq<Bytes>, chunk: Bytes, exec: Executor, junk: int)
    requires DeliverAll(c, chunks, exec, junk).ending == Open
    ensures c.ending == Open
    ensures var c' := DeliverAll(c, chunks, exec, junk); var d := Drain(c'.pending + chunk, exec, junk);
            RunActs(c, chunks + [chunk], exec, junk) ==
            RunActs(c, chunks, exec, junk) + ReadActs(d.log, d.ending, exec)
    decreases |chunks|
  {
    hide Drain, ReadActs;
    if c.ending != Open { Closed(c, chunks, exec, junk); }
    if chunks == [] {
      var c' := Deliver(c, chunk, exec, junk);
      assert ([] + [chunk])[1..] == [];
      var d := Drain(c.pending + chunk, exec, junk);
      assert ReadActs(d.log, d.ending, exec) + [] == [] + ReadActs(d.log, d.ending, exec);
    } else {
      assert (chunks + [chunk])[1..] == chunks[1..] + [chunk];
      RunActsLast(Deliver(c, chunks[0], exec, junk), chunks[1..], chunk, exec, junk);
    }
  }

  /** A read ends with the output unmarked. */
  lemma {:induction false} RunUnmarked(c: Conn, chunks: seq<Bytes>, exec: Executor, junk: int)
    ensures !Play(RunActs(c, chunks, exec, junk)).marked
    decreases |chunks|
  {
    hide Drain, Deliver, LogActs, FarewellActs;
    if chunks != [] && c.ending == Open {
      var d, c1 := Drain(c.pending + chunks[0], exec, junk), Deliver(c, chunks[0], exec, junk);
      var later := RunActs(c1, chunks[1..], exec, junk);
      RunUnmarked(c1, chunks[1..], exec, junk);
      var work := LogActs(d.log, exec) + FarewellActs(d.ending);
      PlayOne(work, EndRead);
      UnmarkedJoin(work + [EndRead], later);
    }
  }

  lemma {:induction false} UnmarkedJoin(a: seq<Act>, b: seq<Act>)
    ensures Play(a + b).marked ==> Play(a).marked || Play(b).marked
  {
    MarkedIs(a);
    MarkedIs(b);
    MarkedIs(a + b);
    if MarkedAt(a + b, |a + b|) {
      var i :| MarkStands(a + b, i, |a + b|);
      if i < |a| {
        assert forall j :: i < j < |a| ==> a[j] == (a + b)[j];
        assert MarkStands(a, i, |a|);
      } else {
        assert forall j :: i - |a| < j < |b| ==> b[j] == (a + b)[j + |a|];
        assert MarkStands(b, i - |a|, |b|);
      }
    }
  }

  /** The commands executed mark the output. */
  lemma {:induction false} LogMarks(acts: seq<Act>, log: seq<seq<Bytes>>, exec: Executor)
    ensures Play(acts + LogActs(log, exec)).marked <==> Play(acts).marked || Marked(log, exec)
  {
    hide CommandActs;
    if log == [] {
      assert acts + [] == acts;
    } else {
      var front, args := log[..|log| - 1], log[|log| - 1];
      LogMarks(acts, front, exec);
      CommandMarks(acts + LogActs(front, exec), args, exec);
      assert acts + LogActs(front, exec) + CommandActs(args, exec) == acts + LogActs(log, exec);
      if Marked(front, exec) {
        var i :| 0 <= i < |front| && exec(front[i]).marks;
        assert exec(log[i]).marks;
      }
      if Marked(log, exec) && !exec(args).marks {
        var i :| 0 <= i < |log| && exec(log[i]).marks;
        assert exec(front[i]).marks;
      }
    }
  }

  lemma CommandMarks(acts: seq<Act>, args: seq<Bytes>, exec: Executor)
    ensures Play(acts + CommandActs(args, exec)).marked <==> Play(acts).marked || exec(args).marks
  {
    hide Play, ErrorReply, CommandActs;
    var x := exec(args);
    var first := acts + [Wrote(x.written)];
    var second := if x.marks then first + [Mark] else first;
    PlayOne(acts, Wrote(x.written));
    PlayOne(first, Mark);
    CommandOnto(acts, args, exec, second);
    if x.verdict.Fault? { PlayOne(second, Wrote(ErrorReply(x.verdict.msg))); }
  }

  lemma CommandOnto(acts: seq<Act>, args: seq<Bytes>, exec: Executor, second: seq<Act>)
    requires var first := acts + [Wrote(exec(args).written)];
             second == if exec(args).marks then first + [Mark] else first
    ensures acts + CommandActs(args, exec) ==
            if exec(args).verdict.Fault? then second + [Wrote(ErrorReply(exec(args).verdict.msg))] else second
  {
    hide ErrorReply;
  }

  predicate AnyReply(acts: seq<Act>) {
    exists k :: 0 <= k < |acts| && acts[k].Replied?
  }

  lemma AnyReplyLast(front: seq<Act>, a: Act)
    ensures AnyReply(front + [a]) <==> AnyReply(front) || a.Replied?
  {
    var all := front + [a];
    if AnyReply(front) {
      var k :| 0 <= k < |front| && front[k].Replied?;
      assert all[k].Replied?;
    }
    if a.Replied? { assert all[|front|].Replied?; }
  }

  /** Replies and ends of reads behind some acts: everything is sent if there is
      a reply, or a marked read ends. */
  lemma {:induction false} TailSends(head: seq<Act>, tail: seq<Act>)
    requires forall a :: a in tail ==> a.Replied? || a.EndRead?
    ensures var o, o' := Play(head), Play(head + tail);
            && o'.unsent == (if AnyReply(tail) || (o.marked && EndRead in tail) then [] else o.unsent)
            && o'.marked == (o.marked && EndRead !in tail)
  {
    hide Play, AnyReply;
    if tail == [] {
      assert head + tail == head;
      NoReply();
    } else {
      var front, a := tail[..|tail| - 1], tail[|tail| - 1];
      assert tail == front + [a];
      TailSends(head, front);
      assert head + tail == head + front + [a];
      PlayOne(head + front, a);
      AnyReplyLast(front, a);
    }
  }

  lemma NoReply()
    ensures !AnyReply([])
  {
  }

  /** The acts of a connection up to its close, the last read of which broke the
      protocol; i is the last write of the poll thread. */
  lemma {:induction false} FarewellSplits(acts: seq<Act>, before: seq<Act>, bye: Bytes, i: nat)
    requires Own(acts) == before + [Wrote(bye)] + [EndRead]
    requires i < |acts| && acts[i].Wrote? && forall k :: i < k < |acts| ==> !acts[k].Wrote?
    ensures acts[i] == Wrote(bye) && Own(acts[..i]) == before && Own(acts[i + 1..]) == [EndRead]
  {
    hide Own;
    var pre, w, tail := acts[..i], acts[i], acts[i + 1..];
    assert acts == pre + ([w] + tail);
    OwnJoin(pre, [w] + tail);
    OwnJoin([w], tail);
    OwnOne(w);
    var all, n := Own(acts), |Own(pre)|;
    assert all[n] == w;
    forall k | n < k < |all| ensures !all[k].Wrote? {
      assert all[k] == Own(tail)[k - n - 1];
      OwnMembers(tail, all[k]);
    }
    assert |all| == |before| + 2 && all[|before|] == Wrote(bye) && all[|before| + 1] == EndRead;
    assert n == |before|;
    assert all[..n] == Own(pre) && all[n + 1..] == Own(tail);
  }

  lemma OwnOne(w: Act)
    requires w.Wrote?
    ensures Own([w]) == [w]
  {
    NoText();
    PlayOne([], w);
    assert [] + [w] == [w];
  }

  /** The farewell is written, and what follows is replies and the end of the
      read. */
  lemma FarewellPlays(pre: seq<Act>, bye: Bytes, tail: seq<Act>)
    requires Own(tail) == [EndRead]
    ensures Play(pre + [Wrote(bye)] + tail).unsent ==
            if Play(pre).marked || AnyReply(tail) then [] else Play(pre).unsent + bye
  {
    hide Play, Own, AnyReply;
    Writing(pre, bye);
    OnlyEnds(tail);
    TailSends(pre + [Wrote(bye)], tail);
  }

  /** Whether the output is marked when the loop of a read is over. */
  lemma LoopMarks(pre: seq<Act>, chunks: seq<Bytes>, log: seq<seq<Bytes>>, exec: Executor, junk: int)
    requires Own(pre) == RunActs(START, chunks, exec, junk) + LogActs(log, exec)
    ensures Play(pre).marked <==> Marked(log, exec)
  {
    hide Play, Own, RunActs, LogActs, Marked;
    RunUnmarked(START, chunks, exec, junk);
    LogMarks(RunActs(START, chunks, exec, junk), log, exec);
    OwnMarks(pre);
  }

  lemma BrokenRead(run: seq<Act>, log: seq<seq<Bytes>>, e: Error, exec: Executor)
    ensures run + ReadActs(log, Broken(e), exec) ==
            run + LogActs(log, exec) + [Wrote(ErrorReply(Message(e)))] + [EndRead]
  {
    hide LogActs, ErrorReply, Message;
  }

  /** What becomes of the error reply to a client that broke the protocol: at the
      close it has been sent, with everything before it, if a command of that
      read marks the output or a reply falls after it was written; otherwise it
      still waits, behind whatever waited when it was written, and is lost. Here
      `acts` is all that happened up to the close, and i is the last write of the
      poll thread. */
  lemma {:induction false} FarewellReachesExactly(
      acts: seq<Act>, chunks: seq<Bytes>, chunk: Bytes, i: nat, e: Error, exec: Executor, junk: int)
    requires DeliverAll(START, chunks, exec, junk).ending == Open
    requires Drain(DeliverAll(START, chunks, exec, junk).pending + chunk, exec, junk).ending == Broken(e)
    requires RunsOver(acts, chunks + [chunk], exec, junk)
    requires i < |acts| && acts[i].Wrote? && forall k :: i < k < |acts| ==> !acts[k].Wrote?
    ensures var d := Drain(DeliverAll(START, chunks, exec, junk).pending + chunk, exec, junk);
            var bye := ErrorReply(Message(e));
            && acts[i] == Wrote(bye)
            && Play(acts).unsent == if Marked(d.log, exec) || AnyReply(acts[i + 1..]) then []
                                    else Play(acts[..i]).unsent + bye
  {
    hide DeliverAll, Drain, RunActs, LogActs, ReadActs, ErrorReply, Message, Play, Own, Marked, AnyReply;
    var d := Drain(DeliverAll(START, chunks, exec, junk).pending + chunk, exec, junk);
    var bye, run := ErrorReply(Message(e)), RunActs(START, chunks, exec, junk);
    RunActsLast(START, chunks, chunk, exec, junk);
    BrokenRead(run, d.log, e, exec);
    FarewellSplits(acts, run + LogActs(d.log, exec), bye, i);
    LoopMarks(acts[..i], chunks, d.log, exec, junk);
    FarewellPlays(acts[..i], bye, acts[i + 1..]);
    assert acts == acts[..i] + [Wrote(bye)] + acts[i + 1..];
  }

  lemma OnlyEnds(tail: seq<Act>)
    requires Own(tail) == [EndRead]
    ensures EndRead in tail && forall a :: a in tail ==> a.Replied? || a.EndRead?
  {
    OwnMembers(tail, EndRead);
    forall a | a in tail ensures a.Replied? || a.EndRead? {
      OwnMembers(tail, a);
    }
  }

  // ---- Two runs ----

  lemma FirstRead(chunk: Bytes, exec: Executor, junk: int)
    ensures var d := Drain(chunk, exec, junk);
            && RunActs(START, [chunk], exec, junk) == ReadActs(d.log, d.ending, exec)
            && DeliverAll(START, [chunk], exec, junk) == Conn(d.log, d.rest, d.ending)
  {
    hide Drain, ReadActs;
    var d := Drain(chunk, exec, junk);
    assert START.pending + chunk == chunk && [] + d.log == d.log;
    DeliverTwo(START, chunk, [], exec, junk);
    assert ReadActs(d.log, d.ending, exec) + [] == ReadActs(d.log, d.ending, exec);
  }

  lemma QuoteInWord(b: Bytes, junk: int)
    requires b == [97, SINGLE_QUOTE]
    ensures Read(b, junk) == Failed(UnbalancedQuotes)
  {
    hide Bulks, Find, Atoi;
    assert Inline(b, 1, 0, false, []) == Failed(UnbalancedQuotes);
    assert Inline(b, 0, 0, true, []) == Inline(b, 1, 0, false, []);
  }

  /** A first read of a', which breaks the protocol, and no reply: the error is
      written, and never sent. */
  lemma FarewellLost(exec: Executor, junk: int)
    ensures var bye := ErrorReply(Message(UnbalancedQuotes)); var acts := [Wrote(bye), EndRead];
            && RunsOver(acts, [[97, SINGLE_QUOTE]], exec, junk)
            && DeliverAll(START, [[97, SINGLE_QUOTE]], exec, junk).ending == Broken(UnbalancedQuotes)
            && Play(acts) == Out([], bye, false)
  {
    hide Read, Drain, Message, ErrorReply, RunActs, DeliverAll;
    var b, bye: Bytes := [97, SINGLE_QUOTE], ErrorReply(Message(UnbalancedQuotes));
    QuoteInWord(b, junk);
    DrainFailed(b, exec, junk, UnbalancedQuotes);
    FirstRead(b, exec, junk);
    assert RunActs(START, [b], exec, junk) == [Wrote(bye), EndRead];
    PlayOne([], Wrote(bye));
    PlayOne([Wrote(bye)], EndRead);
    assert [] + [Wrote(bye)] == [Wrote(bye)] && [Wrote(bye)] + [EndRead] == [Wrote(bye), EndRead];
    assert [] + bye == bye;
    OwnOne(Wrote(bye));
  }

  /** One read holds a command that writes nothing, like a GET, and one that
      errs; neither marks the output. The error waits at the end of the read. The
      reply to the first command takes it along. */
  lemma ReplySendsError(a: Wire, b: Wire, m: Bytes, bulk: Bytes, exec: Executor, junk: int)
    requires WellFormed(a) && WellFormed(b)
    requires exec(Args(a)) == Exec([], false, Done) && exec(Args(b)) == Exec([], false, Fault(m))
    ensures var chunks := [Encode(a) + Encode(b)];
            var quiet := [Wrote([]), Wrote([]), Wrote(ErrorReply(m)), EndRead];
            && RunsOver(quiet, chunks, exec, junk) && RunsOver(quiet + [Replied(bulk)], chunks, exec, junk)
            && !Marked(DeliverAll(START, chunks, exec, junk).log, exec)
            && Play(quiet) == Out([], ErrorReply(m), false)
            && Play(quiet + [Replied(bulk)]) == Out(ErrorReply(m) + bulk, [], false)
  {
    hide Drain, Encode, Args, WellFormed, ErrorReply, Play, LogActs, RunActs, DeliverAll, Deliver, Marked, Own;
    var quiet := [Wrote([]), Wrote([]), Wrote(ErrorReply(m)), EndRead];
    ReadOfTwo(a, b, m, exec, junk);
    QuietPlay(ErrorReply(m));
    PlayOne(quiet, Replied(bulk));
    assert [] + (ErrorReply(m) + bulk) == ErrorReply(m) + bulk && quiet + [] == quiet;
  }

  lemma ReadOfTwo(a: Wire, b: Wire, m: Bytes, exec: Executor, junk: int)
    requires WellFormed(a) && WellFormed(b)
    requires exec(Args(a)) == Exec([], false, Done) && exec(Args(b)) == Exec([], false, Fault(m))
    ensures var chunks := [Encode(a) + Encode(b)];
            && RunActs(START, chunks, exec, junk) == [Wrote([]), Wrote([]), Wrote(ErrorReply(m)), EndRead]
            && !Marked(DeliverAll(START, chunks, exec, junk).log, exec)
  {
    hide Drain, Encode, Args, WellFormed, ErrorReply, LogActs, Marked, RunActs, DeliverAll;
    DrainOne(a, Encode(b), exec, junk);
    DrainOne(b, [], exec, junk);
    assert Encode(b) + [] == Encode(b);
    FirstRead(Encode(a) + Encode(b), exec, junk);
    assert [Args(a)] + [Args(b)] == [Args(a), Args(b)];
    TwoCommands(Args(a), Args(b), exec, m);
    var writes := [Wrote([]), Wrote([]), Wrote(ErrorReply(m))];
    assert writes + [] + [EndRead] == [Wrote([]), Wrote([]), Wrote(ErrorReply(m)), EndRead];
  }

  lemma QuietPlay(bye: Bytes)
    ensures var quiet := [Wrote([]), Wrote([]), Wrote(bye), EndRead];
            Play(quiet) == Out([], bye, false) && Own(quiet) == quiet
  {
    hide Play, Own;
    var two := [Wrote([]), Wrote([])];
    NoText();
    SilentTwo();
    PlayOne(two, Wrote(bye));
    assert two + [Wrote(bye)] == [Wrote([]), Wrote([]), Wrote(bye)] && [] + bye == bye;
    PlayOne(two + [Wrote(bye)], EndRead);
    assert two + [Wrote(bye)] + [EndRead] == [Wrote([]), Wrote([]), Wrote(bye), EndRead];
  }

  lemma SilentTwo()
    ensures var two := [Wrote([]), Wrote([])]; Play(two) == SILENCE && Own(two) == two
  {
    hide Text;
    NoText();
    assert [] + [Wrote([])] == [Wrote([])] && [Wrote([])] + [Wrote([])] == [Wrote([]), Wrote([])];
    assert Play([]) == SILENCE;
    hide Play, Own;
    Writing([], []);
    Writing([Wrote([])], []);
  }

  lemma TwoCommands(a: seq<Bytes>, b: seq<Bytes>, exec: Executor, m: Bytes)
    requires exec(a) == Exec([], false, Done) && exec(b) == Exec([], false, Fault(m))
    ensures LogActs([a, b], exec) == [Wrote([]), Wrote([]), Wrote(ErrorReply(m))] && !Marked([a, b], exec)
  {
    assert [a, b][..1] == [a] && [a][..0] == [];
    assert LogActs([a], exec) == [Wrote([])];
  }
}
