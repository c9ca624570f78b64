/** What the invariant of the multi-producer multi-consumer ring gives over
    whole runs: delivery by ticket, refinement of a bounded FIFO, honest
    failures, and the exact ring sizes for which all this holds. */
module MpmcTheorems {
  import opened Residues
  import opened MpmcProtocol

  // ---- Whole runs ----

  lemma {:induction false} RunInv<T>(s: State<T>, ticks: seq<Tick<T>>)
    requires Inv(s)
    ensures Inv(Run(s, ticks))
    decreases |ticks|
  {
    if ticks != [] {
      StepInv(s, ticks[0].who, ticks[0].choice);
      RunInv(Step(s, ticks[0].who, ticks[0].choice), ticks[1..]);
    }
  }

  lemma {:induction false} RunAppend<T>(s: State<T>, a: seq<Tick<T>>, b: seq<Tick<T>>)
    requires Shaped(s)
    ensures Run(s, a + b) == Run(Run(s, a), b)
    decreases |a|
  {
    if a == [] {
      assert a + b == b;
    } else {
      assert (a + b)[1..] == a[1..] + b;
      RunAppend(Step(s, a[0].who, a[0].choice), a[1..], b);
    }
  }

  /** Every value read under a ticket is the value its enqueuer brought. */
  ghost predicate Faithful<T>(s: State<T>) {
    forall p :: p in s.got ==> p < |s.log| && s.got[p] == s.log[p].value
  }

  /** In any interleaving, dequeue ticket p delivers the value of enqueue
      ticket p; a claimed ticket is delivered or in its claimant's hands. */
  lemma DeliveryByTicket<T>(s0: State<T>, ticks: seq<Tick<T>>)
    requires Init(s0) && s0.size >= 2
    ensures var s := Run(s0, ticks);
            && Faithful(s)
            && s.tail <= s.head <= s.tail + s.size && |s.log| == s.head && |s.claims| == s.tail
            && (forall p :: p in s.got ==> p < s.tail)
            && (forall p :: 0 <= p < s.tail && p !in s.got ==> PcOf(s, s.claims[p]) == DeqTake(p))
            && (forall t, p: nat, x :: t in s.threads && s.threads[t] == DeqRelease(p, x) ==>
                  p < s.tail && s.claims[p] == t && x == s.log[p].value)
  {
    InitInv(s0);
    RunInv(s0, ticks);
    var s := Run(s0, ticks);
    forall t, p: nat, x | t in s.threads && s.threads[t] == DeqRelease(p, x)
      ensures p < s.tail && s.claims[p] == t && x == s.log[p].value
    {
      assert ThreadOk(s, t);
    }
  }

  /** A read of the data cell happens at most once per ticket. */
  lemma TakenOnce<T>(s: State<T>, t: Tid, c: Choice<T>)
    requires Inv(s) && PcOf(s, t).DeqTake?
    ensures PcOf(s, t).t !in s.got
    ensures Step(s, t, c).got == s.got[PcOf(s, t).t := s.log[PcOf(s, t).t].value]
  {
    assert ThreadOk(s, t);
    var p := PcOf(s, t).t;
    NextTicket(p, s.size);
    assert SlotOk(s, p % s.size);
  }

  /** At most one thread stands between its exchange and its stamp store on
      any one slot, whichever side it is on. */
  lemma {:induction false} SlotOwnership<T>(s: State<T>, t: Tid, u: Tid)
    requires Inv(s) && OwnsSlot(PcOf(s, t)) && OwnsSlot(PcOf(s, u)) && t != u
    ensures Ticket(PcOf(s, t)) % s.size != Ticket(PcOf(s, u)) % s.size
  {
    assert ThreadOk(s, t) && ThreadOk(s, u);
    var p, q := Ticket(PcOf(s, t)), Ticket(PcOf(s, u));
    NextTicket(p, s.size);
    NextTicket(q, s.size);
  }

  function Ticket<T>(pc: Pc<T>): nat
    requires OwnsSlot(pc)
  {
    if pc.EnqWrite? || pc.EnqPublish? then pc.h else pc.t
  }

  /** No step lowers a stamp or a counter, or rewrites history. */
  lemma {:induction false} StepMonotone<T>(s: State<T>, t: Tid, c: Choice<T>)
    requires Inv(s)
    ensures var s' := Step(s, t, c);
            && s.head <= s'.head && s.tail <= s'.tail
            && s.log <= s'.log && s.claims <= s'.claims
            && (forall i :: 0 <= i < s.size ==> s.slots[i].stamp <= s'.slots[i].stamp)
  {
    if t in s.threads { assert ThreadOk(s, t); }
  }

  // ---- Refinement of a bounded FIFO ----

  function Values<T>(es: seq<Entry<T>>): (r: seq<T>)
    ensures |r| == |es|
    ensures forall i :: 0 <= i < |es| ==> r[i] == es[i].value
  {
    seq(|es|, i requires 0 <= i < |es| => es[i].value)
  }

  /** The abstract queue: what was enqueued and not yet claimed, in ticket order. */
  function Pending<T>(s: State<T>): seq<T>
    requires s.tail <= |s.log|
  {
    Values(s.log[s.tail..])
  }

  /** What the abstract FIFO does at a step. */
  datatype Effect<T> = Quiet | Push(v: T) | Pop(x: T)

  ghost predicate FifoStep<T>(q: seq<T>, q': seq<T>, capacity: nat, e: Effect<T>) {
    match e
    case Quiet => q' == q
    case Push(v) => |q| < capacity && q' == q + [v]
    case Pop(x) => q == [x] + q'
  }

  /** The effect of a step: pushes and pops happen exactly at the successful
      exchanges, each by the thread that performs it. */
  function EffectOf<T>(s: State<T>, t: Tid, c: Choice<T>): Effect<T> {
    match PcOf(s, t)
    case EnqCas(v, h) => if s.head == h && c != SpuriousFailure then Push(v) else Quiet
    case DeqCas(p) =>
      if s.tail == p && p < |s.log| && c != SpuriousFailure then Pop(s.log[p].value) else Quiet
    case _ => Quiet
  }

  lemma PushRefines<T>(s: State<T>, t: Tid, c: Choice<T>)
    requires Inv(s) && PcOf(s, t).EnqCas? && EffectOf(s, t, c).Push?
    ensures |Pending(s)| < s.size
    ensures Step(s, t, c).tail <= |Step(s, t, c).log|
    ensures Pending(Step(s, t, c)) == Pending(s) + [PcOf(s, t).v]
  {
    var EnqCas(v, h) := PcOf(s, t);
    assert ThreadOk(s, t);
    StampAt(s, h);
    assert Step(s, t, c).log[s.tail..] == s.log[s.tail..] + [Entry(t, v)];
  }

  lemma PopRefines<T>(s: State<T>, t: Tid, c: Choice<T>)
    requires Inv(s) && PcOf(s, t).DeqCas? && s.tail == PcOf(s, t).t && c != SpuriousFailure
    ensures s.tail < s.head && Step(s, t, c).tail == s.tail + 1
    ensures Step(s, t, c).log == s.log
    ensures Pending(s) == [s.log[s.tail].value] + Pending(Step(s, t, c))
  {
    assert ThreadOk(s, t);
    StampAt(s, s.tail);
    assert s.log[s.tail..] == [s.log[s.tail]] + s.log[s.tail + 1..];
  }

  /** Every step of the ring is a step of a FIFO of capacity `size`, and the
      thread that pops x is committed to reading x. */
  lemma StepRefinesFifo<T>(s: State<T>, t: Tid, c: Choice<T>)
    requires Inv(s)
    ensures var s' := Step(s, t, c);
            && s'.tail <= |s'.log|
            && FifoStep(Pending(s), Pending(s'), s.size, EffectOf(s, t, c))
            && (EffectOf(s, t, c).Pop? ==>
                  PcOf(s', t) == DeqTake(s.tail) && s'.log[s.tail].value == EffectOf(s, t, c).x)
  {
    match PcOf(s, t)
    case EnqCas(v, h) =>
      if s.head == h && c != SpuriousFailure { PushRefines(s, t, c); }
    case DeqCas(p) =>
      if s.tail == p && c != SpuriousFailure { PopRefines(s, t, c); }
    case _ =>
  }

  // ---- Failure is honest ----

  /** A dequeue gives up exactly when its ticket is the real tail and that
      ticket is unclaimed or still being written. */
  lemma EmptyIsHonest<T>(s: State<T>, t: Tid, c: Choice<T>)
    requires Inv(s) && PcOf(s, t).DeqRead?
    ensures var p := PcOf(s, t).t;
            PcOf(Step(s, t, c), t) == DeqEmpty <==>
            p == s.tail && (p == s.head || Writing(PcOf(s, s.log[p].owner), p))
  {
    assert ThreadOk(s, t);
    var p := PcOf(s, t).t;
    StampAt(s, p);
    if p == s.tail && p < s.head {
      var w := s.log[p].owner;
      if Writing(PcOf(s, w), p) {
        assert ThreadOk(s, w);
      }
      assert SlotOk(s, p % s.size);
    }
  }

  /** An enqueue gives up exactly when its ticket is the real head and the
      slot's previous ticket is unclaimed or still being read. */
  lemma FullIsHonest<T>(s: State<T>, t: Tid, c: Choice<T>)
    requires Inv(s) && PcOf(s, t).EnqRead?
    ensures var h := PcOf(s, t).h;
            PcOf(Step(s, t, c), t) == EnqDone(false) <==>
            h == s.head && h >= s.size &&
            (h - s.size >= s.tail || Reading(PcOf(s, s.claims[h - s.size]), h - s.size))
  {
    assert ThreadOk(s, t);
    var h := PcOf(s, t).h;
    StampAt(s, h);
    if h == s.head && h >= s.size { PreviousLap(s); }
  }

  /** The slot of the real head, once the ring has wrapped: its stamp is behind
      exactly while the previous ticket of the slot has not been released. */
  lemma PreviousLap<T>(s: State<T>)
    requires Inv(s) && s.head >= s.size
    ensures var q := s.head - s.size;
            SlotAt(s, s.head).stamp < s.head <==> q >= s.tail || Reading(PcOf(s, s.claims[q]), q)
  {
    var q := s.head - s.size;
    StampAt(s, s.head);
    NextLap(q, s.size);
    NextTicket(q, s.size);
    assert SlotOk(s, s.head % s.size);
    if q < s.tail && Reading(PcOf(s, s.claims[q]), q) {
      assert ThreadOk(s, s.claims[q]);
    }
  }

  // ---- Retries ----

  /** The ticket a thread tries to win has gone to someone else. */
  ghost predicate Overtaken<T>(s: State<T>, t: Tid)
    requires Counters(s)
  {
    match PcOf(s, t)
    case EnqRead(_, h) => h < s.head
    case EnqCas(_, h) => h < s.head
    case DeqRead(p) => p < s.tail
    case DeqCas(p) => p < s.tail
    case _ => false
  }

  /** A thread that is turned back to an earlier point of its loop, other than
      by a spurious failure, has been overtaken: the ring as a whole made
      progress since it loaded its ticket. */
  lemma RetryMeansProgress<T>(s: State<T>, t: Tid, c: Choice<T>)
    requires Inv(s) && c != SpuriousFailure
    ensures var pc, pc' := PcOf(s, t), PcOf(Step(s, t, c), t);
            && (pc.EnqRead? && pc'.EnqLoad? ==> Overtaken(s, t))
            && (pc.EnqCas? && pc'.EnqRead? ==> Overtaken(s, t))
            && (pc.DeqRead? && pc'.DeqLoad? ==> Overtaken(s, t))
            && (pc.DeqCas? && pc'.DeqRead? ==> Overtaken(s, t))
  {
    assert ThreadOk(s, t);
    match PcOf(s, t)
    case EnqRead(_, h) => StampAt(s, h);
    case DeqRead(p) => StampAt(s, p);
    case _ =>
  }

  // ---- Quiescent states ----

  ghost predicate AtRest<T>(s: State<T>) {
    forall t :: t in s.threads ==> !OwnsSlot(s.threads[t])
  }

  /** When no operation is half done, the delivered tickets are exactly those
      below the tail, and the slots hold exactly the pending values. */
  lemma NothingLostAtRest<T>(s: State<T>)
    requires Inv(s) && AtRest(s)
    ensures forall p: nat :: p in s.got <==> p < s.tail
    ensures forall p :: s.tail <= p < s.head ==> SlotAt(s, p) == Slot(p + 1, s.log[p].value)
    ensures forall p :: s.head <= p < s.tail + s.size ==> SlotAt(s, p).stamp == p
  {
    forall p | s.tail <= p < s.tail + s.size
      ensures p < s.head ==> SlotAt(s, p) == Slot(p + 1, s.log[p].value)
      ensures s.head <= p ==> SlotAt(s, p).stamp == p
    {
      var i := p % s.size;
      assert SlotOk(s, i);
      var q := Turn(s, i);
      if q < p { SameResidue(q, p, s.size); }
      if p < q { SameResidue(p, q, s.size); }
    }
  }

  // ---- Which sizes are safe ----

  ghost predicate SafeSize<T(!new)>(n: nat) {
    forall s0: State<T>, ticks: seq<Tick<T>> ::
      Init(s0) && s0.size == n ==> Faithful(Run(s0, ticks))
  }

  /** Extends a schedule by one tick. */
  lemma {:induction false} Extend<T>(s0: State<T>, ticks: seq<Tick<T>>, t: Tid, c: Choice<T>)
    returns (more: seq<Tick<T>>)
    requires Shaped(s0)
    ensures Run(s0, more) == Step(Run(s0, ticks), t, c)
  {
    more := ticks + [Tick(t, c)];
    RunAppend(s0, ticks, [Tick(t, c)]);
    assert [Tick(t, c)][1..] == [];
  }

  lemma GotoTwice<T>(s: State<T>, t: Tid, a: Pc<T>, b: Pc<T>)
    ensures Goto(Goto(s, t, a), t, b) == Goto(s, t, b)
    ensures PcOf(Goto(s, t, a), t) == a
  {
    assert s.threads[t := a][t := b] == s.threads[t := b];
  }

  /** The undisturbed path of an enqueue up to its exchange. */
  lemma EnqueuePath<T>(s: State<T>, t: Tid, v: T)
    requires Shaped(s) && PcOf(s, t) == Idle && SlotAt(s, s.head).stamp == s.head
    ensures Step(s, t, CallEnqueue(v)) == Goto(s, t, EnqLoad(v))
    ensures Step(Goto(s, t, EnqLoad(v)), t, Go) == Goto(s, t, EnqRead(v, s.head))
    ensures Step(Goto(s, t, EnqRead(v, s.head)), t, Go) == Goto(s, t, EnqCas(v, s.head))
    ensures var won := s.(head := s.head + 1, log := s.log + [Entry(t, v)]);
            && Step(Goto(s, t, EnqCas(v, s.head)), t, Go) == Goto(won, t, EnqWrite(v, s.head))
            && Step(Goto(won, t, EnqWrite(v, s.head)), t, Go)
               == Goto(PutSlot(won, s.head, Slot(s.head, v)), t, EnqPublish(v, s.head))
  {
    var won := s.(head := s.head + 1, log := s.log + [Entry(t, v)]);
    GotoTwice(s, t, EnqLoad(v), EnqRead(v, s.head));
    GotoTwice(s, t, EnqRead(v, s.head), EnqCas(v, s.head));
    GotoTwice(won, t, EnqCas(v, s.head), EnqWrite(v, s.head));
    GotoTwice(PutSlot(won, s.head, Slot(s.head, v)), t, EnqWrite(v, s.head), EnqPublish(v, s.head));
  }

  lemma DequeuePath<T>(s: State<T>, t: Tid)
    requires Shaped(s) && PcOf(s, t) == Idle && SlotAt(s, s.tail).stamp == s.tail + 1
    ensures Step(s, t, CallDequeue) == Goto(s, t, DeqLoad)
    ensures Step(Goto(s, t, DeqLoad), t, Go) == Goto(s, t, DeqRead(s.tail))
    ensures Step(Goto(s, t, DeqRead(s.tail)), t, Go) == Goto(s, t, DeqCas(s.tail))
    ensures Step(Goto(s, t, DeqCas(s.tail)), t, Go)
            == Goto(s.(tail := s.tail + 1, claims := s.claims + [t]), t, DeqTake(s.tail))
  {
    GotoTwice(s, t, DeqLoad, DeqRead(s.tail));
    GotoTwice(s, t, DeqRead(s.tail), DeqCas(s.tail));
    GotoTwice(s.(tail := s.tail + 1, claims := s.claims + [t]), t, DeqCas(s.tail), DeqTake(s.tail));
  }

  /** Thread t brings v up to the point of publishing it. */
  lemma {:induction false} Enqueueing<T>(s0: State<T>, ticks: seq<Tick<T>>, t: Tid, v: T) returns (more: seq<Tick<T>>)
    requires Shaped(s0)
    requires var s := Run(s0, ticks); PcOf(s, t) == Idle && SlotAt(s, s.head).stamp == s.head
    ensures var s := Run(s0, ticks);
            Run(s0, more) == Goto(PutSlot(s.(head := s.head + 1, log := s.log + [Entry(t, v)]),
              s.head, Slot(s.head, v)), t, EnqPublish(v, s.head))
  {
    EnqueuePath(Run(s0, ticks), t, v);
    more := Extend(s0, ticks, t, CallEnqueue(v));
    more := Extend(s0, more, t, Go);
    more := Extend(s0, more, t, Go);
    more := Extend(s0, more, t, Go);
    more := Extend(s0, more, t, Go);
  }

  /** Thread t claims the tail ticket. */
  lemma {:induction false} Claiming<T>(s0: State<T>, ticks: seq<Tick<T>>, t: Tid) returns (more: seq<Tick<T>>)
    requires Shaped(s0)
    requires var s := Run(s0, ticks); PcOf(s, t) == Idle && SlotAt(s, s.tail).stamp == s.tail + 1
    ensures var s := Run(s0, ticks);
            Run(s0, more) == Goto(s.(tail := s.tail + 1, claims := s.claims + [t]), t, DeqTake(s.tail))
  {
    DequeuePath(Run(s0, ticks), t);
    more := Extend(s0, ticks, t, CallDequeue);
    more := Extend(s0, more, t, Go);
    more := Extend(s0, more, t, Go);
    more := Extend(s0, more, t, Go);
  }

  /** In a ring of one slot every ticket uses slot 0. */
  lemma OneSlot<T>(s: State<T>, p: nat, slot: Slot<T>)
    requires Shaped(s) && s.size == 1
    ensures SlotAt(s, p) == s.slots[0]
    ensures PutSlot(s, p, slot) == s.(slots := [slot])
  {
    assert p % 1 == 0;
    assert s.slots[0 := slot] == [slot];
  }

  /** With one slot, a published ticket already looks free to the next
      producer: while u holds the claim on it, thread 2 overwrites it. */
  lemma Overwritten<T>(s0: State<T>, ticks: seq<Tick<T>>, a: T, b: T) returns (more: seq<Tick<T>>)
    requires Init(s0) && s0.size == 1
    requires var s := Run(s0, ticks);
             && s.got == map[] && s.log == [Entry(0, a)] && s.head == 1 && s.slots == [Slot(1, a)]
             && PcOf(s, 1) == DeqTake(0) && PcOf(s, 2) == Idle
    ensures Run(s0, more).got == map[0 := b] && Run(s0, more).log == [Entry(0, a), Entry(2, b)]
  {
    var s := Run(s0, ticks);
    OneSlot(s, 1, Slot(1, b));
    more := Enqueueing(s0, ticks, 2, b);
    var w := s.(head := 2, log := [Entry(0, a), Entry(2, b)]);
    OneSlot(w, 1, Slot(1, b));
    var e := Goto(w.(slots := [Slot(1, b)]), 2, EnqPublish(b, 1));
    assert Run(s0, more) == e;
    OneSlot(e, 0, Slot(1, b));
    assert PcOf(e, 1) == DeqTake(0);
    more := Extend(s0, more, 1, Go);
  }

  /** A ring of one slot passes the constructor's assertion, yet there stamp 1
      means both "ticket 0 is published" and "ticket 1 may be written": a
      second producer overwrites the value while its consumer reads it. */
  lemma SizeOneUnsafe<T>(s0: State<T>, a: T, b: T) returns (ticks: seq<Tick<T>>)
    requires Init(s0) && s0.size == 1 && a != b
    ensures !Faithful(Run(s0, ticks))
  {
    OneSlot(s0, 0, Slot(0, a));
    ticks := Enqueueing(s0, [], 0, a);
    var s1 := s0.(head := 1, log := [Entry(0, a)], slots := [Slot(0, a)]);
    OneSlot(s0.(head := 1, log := [Entry(0, a)]), 0, Slot(0, a));
    assert Run(s0, ticks) == Goto(s1, 0, EnqPublish(a, 0));
    OneSlot(Goto(s1, 0, EnqPublish(a, 0)), 0, Slot(1, a));
    ticks := Extend(s0, ticks, 0, Go);
    GotoTwice(s1.(slots := [Slot(1, a)]), 0, EnqPublish(a, 0), EnqDone(true));
    var s2 := s0.(head := 1, log := [Entry(0, a)], slots := [Slot(1, a)]);
    OneSlot(Goto(s2, 0, EnqDone(true)), 0, Slot(1, a));
    ticks := Claiming(s0, ticks, 1);
    ticks := Overwritten(s0, ticks, a, b);
    assert 0 in Run(s0, ticks).got;
  }

  /** Delivery by ticket holds in every interleaving exactly from two slots up. */
  lemma SafeExactlyFromTwo<T(!new)>(n: nat, a: T, b: T)
    requires n > 0 && a != b
    ensures SafeSize<T>(n) <==> n >= 2
  {
    if n >= 2 {
      forall s0: State<T>, ticks: seq<Tick<T>> | Init(s0) && s0.size == n
        ensures Faithful(Run(s0, ticks))
      {
        DeliveryByTicket(s0, ticks);
      }
    } else {
      var s0 := State(1, 0, 0, [Slot(0, a)], map[], [], [], map[]);
      var ticks := SizeOneUnsafe(s0, a, b);
      assert !Faithful(Run(s0, ticks));
    }
  }
}
