/** The bounded multi-producer multi-consumer ring as a step system.

    Any number of threads run `enqueue` and `dequeue`; one step is one atomic
    action of one thread (a load of a counter, a load of a slot's stamp, a
    compare-and-exchange, a data access, a store of a stamp). Counters are
    unbounded here; MachineWords relates them to 64-bit words. */
module MpmcProtocol {
  import opened Residues

  type Tid = nat

  /** A slot of the ring: its sequence stamp and its data cell. */
  datatype Slot<T> = Slot(stamp: nat, data: T)

  /** Where a thread stands. `h` and `t` are its local copies of a counter,
      which other threads may have left behind. */
  datatype Pc<T> =
    | Idle
    | EnqLoad(v: T)              // about to load the head counter
    | EnqRead(v: T, h: nat)      // about to load the stamp of slot h
    | EnqCas(v: T, h: nat)       // saw stamp == h, about to exchange the head
    | EnqWrite(v: T, h: nat)     // won ticket h, about to write the data
    | EnqPublish(v: T, h: nat)   // data written, about to store stamp h + 1
    | EnqDone(ok: bool)
    | DeqLoad                    // about to load the tail counter
    | DeqRead(t: nat)            // about to load the stamp of slot t
    | DeqCas(t: nat)             // saw stamp == t + 1, about to exchange the tail
    | DeqTake(t: nat)            // won ticket t, about to read the data
    | DeqRelease(t: nat, x: T)   // data read, about to store stamp t + size
    | DeqGot(x: T)
    | DeqEmpty

  /** A value together with the thread whose exchange put it in the log. */
  datatype Entry<T> = Entry(owner: Tid, value: T)

  /** Shared memory, the threads, and the history of the run: `log[p]` is what
      the winner of enqueue ticket p brought, `claims[p]` the winner of dequeue
      ticket p, `got[p]` what that winner read. */
  datatype State<T> = State(
    size: nat,
    head: nat,
    tail: nat,
    slots: seq<Slot<T>>,
    threads: map<Tid, Pc<T>>,
    log: seq<Entry<T>>,
    claims: seq<Tid>,
    got: map<nat, T>)

  /** What the scheduler may choose for a thread. */
  datatype Choice<T> = CallEnqueue(v: T) | CallDequeue | Go | SpuriousFailure

  datatype Tick<T> = Tick(who: Tid, choice: Choice<T>)

  function PcOf<T>(s: State<T>, t: Tid): Pc<T> {
    if t in s.threads then s.threads[t] else Idle
  }

  predicate Shaped<T>(s: State<T>) {
    s.size > 0 && |s.slots| == s.size
  }

  function SlotAt<T>(s: State<T>, p: nat): Slot<T>
    requires Shaped(s)
  {
    s.slots[p % s.size]
  }

  function Goto<T>(s: State<T>, t: Tid, pc: Pc<T>): State<T> {
    s.(threads := s.threads[t := pc])
  }

  function PutSlot<T>(s: State<T>, p: nat, slot: Slot<T>): State<T>
    requires Shaped(s)
  {
    s.(slots := s.slots[p % s.size := slot])
  }

  /** One atomic action of thread t. */
  function Step<T>(s: State<T>, t: Tid, c: Choice<T>): State<T>
    requires Shaped(s)
  {
    match PcOf(s, t)
    case Idle =>
      (match c
       case CallEnqueue(v) => Goto(s, t, EnqLoad(v))
       case CallDequeue => Goto(s, t, DeqLoad)
       case Go => s
       case SpuriousFailure => s)
    case EnqLoad(v) => Goto(s, t, EnqRead(v, s.head))
    case EnqRead(v, h) =>
      var stamp := SlotAt(s, h).stamp;
      if stamp == h then Goto(s, t, EnqCas(v, h))
      else if stamp < h then Goto(s, t, EnqDone(false))
      else Goto(s, t, EnqLoad(v))
    case EnqCas(v, h) =>
      if s.head == h && c != SpuriousFailure then
        Goto(s.(head := h + 1, log := s.log + [Entry(t, v)]), t, EnqWrite(v, h))
      else Goto(s, t, EnqRead(v, s.head))
    case EnqWrite(v, h) =>
      Goto(PutSlot(s, h, SlotAt(s, h).(data := v)), t, EnqPublish(v, h))
    case EnqPublish(v, h) =>
      Goto(PutSlot(s, h, SlotAt(s, h).(stamp := h + 1)), t, EnqDone(true))
    case DeqLoad => Goto(s, t, DeqRead(s.tail))
    case DeqRead(p) =>
      var stamp := SlotAt(s, p).stamp;
      if stamp == p + 1 then Goto(s, t, DeqCas(p))
      else if stamp < p + 1 then Goto(s, t, DeqEmpty)
      else Goto(s, t, DeqLoad)
    case DeqCas(p) =>
      if s.tail == p && c != SpuriousFailure then
        Goto(s.(tail := p + 1, claims := s.claims + [t]), t, DeqTake(p))
      else Goto(s, t, DeqRead(s.tail))
    case DeqTake(p) =>
      Goto(s.(got := s.got[p := SlotAt(s, p).data]), t, DeqRelease(p, SlotAt(s, p).data))
    case DeqRelease(p, x) =>
      Goto(PutSlot(s, p, SlotAt(s, p).(stamp := p + s.size)), t, DeqGot(x))
    case EnqDone(_) => Goto(s, t, Idle)
    case DeqGot(_) => Goto(s, t, Idle)
    case DeqEmpty => Goto(s, t, Idle)
  }

  /** The state after a whole schedule. */
  function Run<T>(s: State<T>, ticks: seq<Tick<T>>): (r: State<T>)
    requires Shaped(s)
    ensures Shaped(r) && r.size == s.size
    decreases |ticks|
  {
    if ticks == [] then s
    else Run(Step(s, ticks[0].who, ticks[0].choice), ticks[1..])
  }

  /** What the constructor leaves: stamp i in slot i, arbitrary data cells. */
  ghost predicate Init<T>(s: State<T>) {
    && Shaped(s) && s.head == 0 && s.tail == 0
    && (forall i :: 0 <= i < s.size ==> s.slots[i].stamp == i)
    && s.threads == map[] && s.log == [] && s.claims == [] && s.got == map[]
  }

  // ---- The global invariant ----

  /** The ticket slot i is serving: the stamp, or one less once published. */
  function Turn<T>(s: State<T>, i: nat): int
    requires Shaped(s) && i < s.size
  {
    if s.slots[i].stamp % s.size == i then s.slots[i].stamp else s.slots[i].stamp - 1
  }

  ghost predicate Counters<T>(s: State<T>) {
    && Shaped(s) && s.size >= 2
    && s.tail <= s.head <= s.tail + s.size
    && |s.log| == s.head && |s.claims| == s.tail
  }

  predicate Writing<T>(pc: Pc<T>, p: nat) {
    (pc.EnqWrite? || pc.EnqPublish?) && pc.h == p
  }

  predicate Reading<T>(pc: Pc<T>, p: nat) {
    (pc.DeqTake? || pc.DeqRelease?) && pc.t == p
  }

  predicate OwnsSlot<T>(pc: Pc<T>) {
    pc.EnqWrite? || pc.EnqPublish? || pc.DeqTake? || pc.DeqRelease?
  }

  /** Slot i serves a ticket p of its own residue; its stamp is p until p is
      published and p + 1 from then on. Each of the two kinds lies in its own
      window, and a claimed ticket that is still unpublished (unreleased) is
      being written (read) by the thread that claimed it. */
  ghost predicate SlotOk<T>(s: State<T>, i: nat)
    requires Counters(s) && i < s.size
  {
    var p := Turn(s, i);
    var stamp := s.slots[i].stamp;
    && p >= 0 && p % s.size == i
    && (stamp == p ==>
          && s.tail <= p < s.tail + s.size
          && (p < s.head ==> Writing(PcOf(s, s.log[p].owner), p)))
    && (stamp == p + 1 ==>
          && s.head - s.size <= p < s.head
          && s.slots[i].data == s.log[p].value
          && (p < s.tail ==> Reading(PcOf(s, s.claims[p]), p)))
  }

  /** What a thread may rely on at its program point. */
  ghost predicate ThreadOk<T>(s: State<T>, t: Tid)
    requires Counters(s)
  {
    match PcOf(s, t)
    case EnqRead(_, h) => h <= s.head
    case EnqCas(_, h) => h <= s.head && h <= SlotAt(s, h).stamp
    case EnqWrite(v, h) => h < s.head && s.log[h] == Entry(t, v) && SlotAt(s, h).stamp == h
    case EnqPublish(v, h) => h < s.head && s.log[h] == Entry(t, v) && SlotAt(s, h) == Slot(h, v)
    case DeqRead(p) => p <= s.tail
    case DeqCas(p) => p <= s.tail && p + 1 <= SlotAt(s, p).stamp
    case DeqTake(p) => p < s.tail && s.claims[p] == t && SlotAt(s, p).stamp == p + 1 && p !in s.got
    case DeqRelease(p, x) =>
      p < s.tail && s.claims[p] == t && SlotAt(s, p).stamp == p + 1 && p in s.got && s.got[p] == x
    case _ => true
  }

  /** Only claimed tickets were read, each gave the logged value, and a claimed
      ticket not read yet is about to be read by its claimant. */
  ghost predicate GotOk<T>(s: State<T>)
    requires Counters(s)
  {
    && (forall p :: p in s.got ==> p < s.tail && s.got[p] == s.log[p].value)
    && (forall p :: 0 <= p < s.tail && p !in s.got ==> PcOf(s, s.claims[p]) == DeqTake(p))
  }

  ghost predicate Inv<T>(s: State<T>) {
    && Counters(s)
    && (forall i :: 0 <= i < s.size ==> SlotOk(s, i))
    && (forall t :: t in s.threads ==> ThreadOk(s, t))
    && GotOk(s)
  }

  lemma {:induction false} InitInv<T>(s: State<T>)
    requires Init(s) && s.size >= 2
    ensures Inv(s)
  {
    forall i | 0 <= i < s.size
      ensures SlotOk(s, i)
    {
      SmallResidue(i, s.size);
    }
  }

  /** Where the slot of ticket p stands when p is in the window of live
      tickets: its stamp has reached p, and it is exact at the two counters. */
  lemma StampAt<T>(s: State<T>, p: nat)
    requires Inv(s) && p <= s.head
    ensures p < s.head ==> p <= SlotAt(s, p).stamp
    ensures p == s.head && p <= SlotAt(s, p).stamp ==> SlotAt(s, p).stamp == p && p < s.tail + s.size
    ensures p == s.head && SlotAt(s, p).stamp < p ==>
              p >= s.size && p - s.size <= SlotAt(s, p).stamp <= p - s.size + 1
    ensures p < s.tail ==> p + 1 <= SlotAt(s, p).stamp
    ensures p == s.tail && p + 1 <= SlotAt(s, p).stamp ==> SlotAt(s, p).stamp == p + 1 && p < s.head
    ensures p == s.tail && SlotAt(s, p).stamp < p + 1 ==> SlotAt(s, p).stamp == p || p == s.head
  {
    var i := p % s.size;
    assert SlotOk(s, i);
    var q := Turn(s, i);
    if q < p { SameResidue(q, p, s.size); }
    if p < q { SameResidue(p, q, s.size); }
  }

  /** A thread that owns no slot may move on without touching shared memory. */
  lemma GotoInv<T>(s: State<T>, t: Tid, pc: Pc<T>)
    requires Inv(s)
    requires !OwnsSlot(PcOf(s, t))
    requires ThreadOk(Goto(s, t, pc), t)
    ensures Inv(Goto(s, t, pc))
  {
    var s' := Goto(s, t, pc);
    forall i | 0 <= i < s.size
      ensures SlotOk(s', i)
    {
      assert SlotOk(s, i);
    }
    forall u | u in s'.threads
      ensures ThreadOk(s', u)
    {
      if u != t { assert ThreadOk(s, u); }
    }
  }

  lemma {:induction false} ReadInv<T>(s: State<T>, t: Tid, c: Choice<T>)
    requires Inv(s) && t in s.threads
    requires var pc := PcOf(s, t); pc.EnqRead? || pc.DeqRead?
    ensures Inv(Step(s, t, c))
  {
    assert ThreadOk(s, t);
    GotoInv(s, t, PcOf(Step(s, t, c), t));
  }

  /** Winning an enqueue ticket: the slot was free, so the head stays within
      one lap of the tail. */
  lemma EnqCasInv<T>(s: State<T>, t: Tid, c: Choice<T>)
    requires Inv(s) && t in s.threads && PcOf(s, t).EnqCas?
    ensures Inv(Step(s, t, c))
  {
    var s' := Step(s, t, c);
    var EnqCas(v, h) := PcOf(s, t);
    assert ThreadOk(s, t);
    if s.head == h && c != SpuriousFailure {
      StampAt(s, h);
      forall i | 0 <= i < s.size
        ensures SlotOk(s', i)
      {
        assert SlotOk(s, i);
        var p := Turn(s, i);
        if p == h - s.size { NextLap(p, s.size); }
      }
      forall u | u in s'.threads
        ensures ThreadOk(s', u)
      {
        assert u in s.threads && ThreadOk(s, u);
      }
    } else {
      GotoInv(s, t, EnqRead(v, s.head));
    }
  }

  lemma DeqCasInv<T>(s: State<T>, t: Tid, c: Choice<T>)
    requires Inv(s) && t in s.threads && PcOf(s, t).DeqCas?
    ensures Inv(Step(s, t, c))
  {
    var s' := Step(s, t, c);
    var p := PcOf(s, t).t;
    assert ThreadOk(s, t);
    if s.tail == p && c != SpuriousFailure {
      StampAt(s, p);
      assert s.got == s'.got;
      forall i | 0 <= i < s.size
        ensures SlotOk(s', i)
      {
        assert SlotOk(s, i);
      }
      forall u | u in s'.threads
        ensures ThreadOk(s', u)
      {
        assert u in s.threads && ThreadOk(s, u);
      }
    } else {
      GotoInv(s, t, DeqRead(s.tail));
    }
  }

  lemma {:induction false} EnqWriteInv<T>(s: State<T>, t: Tid, c: Choice<T>)
    requires Inv(s) && t in s.threads && PcOf(s, t).EnqWrite?
    ensures Inv(Step(s, t, c))
  {
    var s' := Step(s, t, c);
    var EnqWrite(v, h) := PcOf(s, t);
    assert ThreadOk(s, t);
    assert SlotOk(s, h % s.size);
    forall i | 0 <= i < s.size
      ensures SlotOk(s', i)
    {
      assert SlotOk(s, i);
    }
    forall u | u in s'.threads
      ensures ThreadOk(s', u)
    {
      assert u in s.threads && ThreadOk(s, u);
    }
  }

  lemma {:induction false} EnqPublishInv<T>(s: State<T>, t: Tid, c: Choice<T>)
    requires Inv(s) && t in s.threads && PcOf(s, t).EnqPublish?
    ensures Inv(Step(s, t, c))
  {
    var s' := Step(s, t, c);
    assert ThreadOk(s, t);
    EnqPublishSlots(s, t, c);
    forall u | u in s'.threads
      ensures ThreadOk(s', u)
    {
      assert u in s.threads && ThreadOk(s, u);
      match PcOf(s, u)
      case DeqTake(p) => NextTicket(p, s.size);
      case DeqRelease(p, _) => NextTicket(p, s.size);
      case _ =>
    }
  }

  lemma EnqPublishSlots<T>(s: State<T>, t: Tid, c: Choice<T>)
    requires Inv(s) && t in s.threads && PcOf(s, t).EnqPublish?
    ensures var s' := Step(s, t, c); forall i :: 0 <= i < s.size ==> SlotOk(s', i)
  {
    var s' := Step(s, t, c);
    var EnqPublish(v, h) := PcOf(s, t);
    assert ThreadOk(s, t);
    var k := h % s.size;
    NextTicket(h, s.size);
    forall i | 0 <= i < s.size
      ensures SlotOk(s', i)
    {
      assert SlotOk(s, i);
      if i == k {
        assert Turn(s, k) == h && Turn(s', k) == h;
      } else {
        assert Turn(s', i) == Turn(s, i);
      }
    }
  }

  /** Reading the cell moves only the thread and the record of what was got. */
  lemma DeqTakeInv<T>(s: State<T>, t: Tid, c: Choice<T>)
    requires Inv(s) && t in s.threads && PcOf(s, t).DeqTake?
    ensures Inv(Step(s, t, c))
  {
    var s' := Step(s, t, c);
    var p := PcOf(s, t).t;
    assert ThreadOk(s, t);
    NextTicket(p, s.size);
    assert SlotOk(s, p % s.size);
    assert s'.got == s.got[p := s.log[p].value];
    forall i | 0 <= i < s.size
      ensures SlotOk(s', i)
    {
      assert SlotOk(s, i);
      assert Turn(s', i) == Turn(s, i);
    }
    forall u | u in s'.threads
      ensures ThreadOk(s', u)
    {
      assert u in s.threads && ThreadOk(s, u);
    }
  }

  lemma {:induction false} DeqReleaseInv<T>(s: State<T>, t: Tid, c: Choice<T>)
    requires Inv(s) && t in s.threads && PcOf(s, t).DeqRelease?
    ensures Inv(Step(s, t, c))
  {
    var s' := Step(s, t, c);
    assert ThreadOk(s, t);
    DeqReleaseSlots(s, t, c);
    forall u | u in s'.threads
      ensures ThreadOk(s', u)
    {
      assert u in s.threads && ThreadOk(s, u);
      match PcOf(s, u)
      case EnqWrite(_, h) => NextTicket(PcOf(s, t).t, s.size);
      case EnqPublish(_, h) => NextTicket(PcOf(s, t).t, s.size);
      case _ =>
    }
  }

  lemma DeqReleaseSlots<T>(s: State<T>, t: Tid, c: Choice<T>)
    requires Inv(s) && t in s.threads && PcOf(s, t).DeqRelease?
    ensures var s' := Step(s, t, c); forall i :: 0 <= i < s.size ==> SlotOk(s', i)
  {
    var s' := Step(s, t, c);
    var DeqRelease(p, x) := PcOf(s, t);
    assert ThreadOk(s, t);
    var k := p % s.size;
    NextTicket(p, s.size);
    NextLap(p, s.size);
    assert SlotOk(s, k);
    forall i | 0 <= i < s.size
      ensures SlotOk(s', i)
    {
      assert SlotOk(s, i);
      if i == k {
        assert Turn(s, k) == p && Turn(s', k) == p + s.size;
      } else {
        assert Turn(s', i) == Turn(s, i);
      }
    }
  }

  /** The invariant survives every atomic action of every thread. */
  lemma StepInv<T>(s: State<T>, t: Tid, c: Choice<T>)
    requires Inv(s)
    ensures Inv(Step(s, t, c))
  {
    match PcOf(s, t)
    case EnqRead(_, _) => ReadInv(s, t, c);
    case DeqRead(_) => ReadInv(s, t, c);
    case EnqCas(_, _) => EnqCasInv(s, t, c);
    case DeqCas(_) => DeqCasInv(s, t, c);
    case EnqWrite(_, _) => EnqWriteInv(s, t, c);
    case EnqPublish(_, _) => EnqPublishInv(s, t, c);
    case DeqTake(_) => DeqTakeInv(s, t, c);
    case DeqRelease(_, _) => DeqReleaseInv(s, t, c);
    case _ =>
      if Step(s, t, c) != s { GotoInv(s, t, PcOf(Step(s, t, c), t)); }
  }
}
