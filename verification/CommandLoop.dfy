/** The command loop on the pending bytes, and a connection that receives its
    bytes in pieces. */
module CommandLoop {
  import opened Bytes
  import opened Resp

  /** How a command ends: fine, by asking to close, or with an error. */
  datatype Verdict = Done | Quit | Fault(msg: Bytes)

  /** What a command does to its connection: the bytes it writes, whether it
      marks the output as ready to be sent, and its verdict. */
  datatype Exec = Exec(written: Bytes, marks: bool, verdict: Verdict)

  type Executor = seq<Bytes> -> Exec

  /** Why a loop is over: more bytes may come, the client quit, or the bytes
      broke the protocol. */
  datatype Ending = Open | Left | Broken(err: Error)

  /** The outcome of the loop on the pending bytes: commands executed, bytes
      left, and why the loop is over. */
  datatype Drained = Drained(log: seq<seq<Bytes>>, rest: Bytes, ending: Ending)

  /** A command in front of what the loop does next. */
  function After(args: seq<Bytes>, d: Drained): Drained {
    Drained([args] + d.log, d.rest, d.ending)
  }

  /** The loop goes on behind a command that is done, and only then: what
      follows a command that errs stays pending. */
  function Drain(b: Bytes, exec: Executor, junk: int): (d: Drained)
    ensures |d.rest| <= |b| && d.rest == b[|b| - |d.rest|..]
    decreases |b|
  {
    match Read(b, junk)
    case Incomplete => Drained([], b, Open)
    case Failed(e) => Drained([], b, Broken(e))
    case Command(args, used) =>
      match exec(args).verdict
      case Done => After(args, Drain(b[used..], exec, junk))
      case Quit => Drained([args], b[used..], Left)
      case Fault(_) => Drained([args], b[used..], Open)
  }

  // ---- The turns of the loop ----

  lemma DrainNothing(exec: Executor, junk: int)
    ensures Drain([], exec, junk) == Drained([], [], Open)
  {
  }

  lemma DrainIncomplete(b: Bytes, exec: Executor, junk: int)
    requires Read(b, junk) == Incomplete
    ensures Drain(b, exec, junk) == Drained([], b, Open)
  {
    hide Read;
  }

  lemma DrainFailed(b: Bytes, exec: Executor, junk: int, e: Error)
    requires Read(b, junk) == Failed(e)
    ensures Drain(b, exec, junk) == Drained([], b, Broken(e))
  {
    hide Read;
  }

  lemma DrainTurn(b: Bytes, exec: Executor, junk: int, args: seq<Bytes>, used: nat)
    requires Read(b, junk) == Command(args, used) && used <= |b|
    ensures Drain(b, exec, junk) ==
            match exec(args).verdict
            case Done => After(args, Drain(b[used..], exec, junk))
            case Quit => Drained([args], b[used..], Left)
            case Fault(_) => Drained([args], b[used..], Open)
  {
    hide Read;
  }

  /** A command that uses up all the bytes is the last one. */
  lemma DrainLast(b: Bytes, exec: Executor, junk: int, args: seq<Bytes>)
    requires Read(b, junk) == Command(args, |b|)
    ensures Drain(b, exec, junk) == Drained([args], [], if exec(args).verdict.Quit? then Left else Open)
  {
    hide Read, Drain;
    DrainTurn(b, exec, junk, args, |b|);
    assert b[|b|..] == [];
    DrainNothing(exec, junk);
    assert [args] + [] == [args];
  }

  // ---- Delivery in pieces ----

  /** A connection: commands executed, bytes pending, whether and why it is
      closed. */
  datatype Conn = Conn(log: seq<seq<Bytes>>, pending: Bytes, ending: Ending)

  const START: Conn := Conn([], [], Open)

  /** One read. */
  function Deliver(c: Conn, chunk: Bytes, exec: Executor, junk: int): Conn {
    if c.ending != Open then c
    else
      var d := Drain(c.pending + chunk, exec, junk);
      Conn(c.log + d.log, d.rest, d.ending)
  }

  function DeliverAll(c: Conn, chunks: seq<Bytes>, exec: Executor, junk: int): Conn
    decreases |chunks|
  {
    if chunks == [] then c else DeliverAll(Deliver(c, chunks[0], exec, junk), chunks[1..], exec, junk)
  }

  function Flatten(chunks: seq<Bytes>): Bytes {
    if chunks == [] then [] else chunks[0] + Flatten(chunks[1..])
  }

  lemma {:induction false} DeliverLast(c: Conn, chunks: seq<Bytes>, chunk: Bytes, exec: Executor, junk: int)
    ensures DeliverAll(c, chunks + [chunk], exec, junk) == Deliver(DeliverAll(c, chunks, exec, junk), chunk, exec, junk)
    decreases |chunks|
  {
    hide Deliver;
    if chunks == [] {
      assert ([] + [chunk])[1..] == [];
    } else {
      assert (chunks + [chunk])[1..] == chunks[1..] + [chunk];
      DeliverLast(Deliver(c, chunks[0], exec, junk), chunks[1..], chunk, exec, junk);
    }
  }

  lemma {:induction false} FlattenLast(chunks: seq<Bytes>, chunk: Bytes)
    ensures Flatten(chunks + [chunk]) == Flatten(chunks) + chunk
  {
    if chunks == [] {
      assert ([] + [chunk])[1..] == [];
    } else {
      assert (chunks + [chunk])[1..] == chunks[1..] + [chunk];
      FlattenLast(chunks[1..], chunk);
    }
  }

  lemma {:induction false} Closed(c: Conn, chunks: seq<Bytes>, exec: Executor, junk: int)
    requires c.ending != Open
    ensures DeliverAll(c, chunks, exec, junk) == c
    decreases |chunks|
  {
    if chunks != [] { Closed(c, chunks[1..], exec, junk); }
  }

  /** The log of executed commands is never taken back. */
  lemma {:induction false} LogGrows(c: Conn, chunks: seq<Bytes>, exec: Executor, junk: int)
    ensures c.log <= DeliverAll(c, chunks, exec, junk).log
    decreases |chunks|
  {
    hide Drain;
    if chunks != [] { LogGrows(Deliver(c, chunks[0], exec, junk), chunks[1..], exec, junk); }
  }
}
