/** The single-producer single-consumer ring: index loads, slot accesses and
    index stores of the two threads interleave freely. The tests are the
    program's own, on wrapped 64-bit words; `head` and `tail` count without
    bound. */
module SpscRing {
  import opened Residues
  import opened MachineWords

  datatype Producer<T> =
    | Resting
    | LoadingHead(v: T)
    | LoadingTail(v: T, h: nat)
    | Writing(v: T, h: nat)
    | Storing(v: T, h: nat)
    | Put(ok: bool)

  datatype Consumer<T> =
    | Waiting
    | LoadingMyTail
    | LoadingTheirHead(t: nat)
    | Reading(t: nat)
    | Releasing(t: nat, x: T)
    | Took(x: T)
    | SawEmpty

  /** `sent` and `received` are the history: what was published, in order, and
      what the consumer has taken out for good. */
  datatype State<T> = State(
    size: nat, head: nat, tail: nat, buffer: seq<T>,
    producer: Producer<T>, consumer: Consumer<T>,
    sent: seq<T>, received: seq<T>)

  datatype Action<T> = Send(v: T) | ProducerGoes | Receive | ConsumerGoes

  /** `((tail - (head + 1)) & mask) >= 1` on words. */
  function HasRoom(head: nat, tail: nat, size: nat): bool
    requires size > 0
  {
    And(Wrap(Wrap(tail) - Wrap(head + 1)), size - 1) >= 1
  }

  /** `((head - tail) & mask) >= 1` on words. */
  function HasItem(head: nat, tail: nat, size: nat): bool
    requires size > 0
  {
    And(Wrap(Wrap(head) - Wrap(tail)), size - 1) >= 1
  }

  predicate Shaped<T>(s: State<T>) {
    s.size > 0 && |s.buffer| == s.size
  }

  function Step<T>(s: State<T>, a: Action<T>): State<T>
    requires Shaped(s)
  {
    match a
    case Send(v) => if s.producer.Resting? then s.(producer := LoadingHead(v)) else s
    case ProducerGoes =>
      (match s.producer
       case Resting => s
       case LoadingHead(v) => s.(producer := LoadingTail(v, s.head))
       case LoadingTail(v, h) =>
         if HasRoom(h, s.tail, s.size) then s.(producer := Writing(v, h)) else s.(producer := Put(false))
       case Writing(v, h) => s.(buffer := s.buffer[h % s.size := v], producer := Storing(v, h))
       case Storing(v, h) => s.(head := h + 1, sent := s.sent + [v], producer := Put(true))
       case Put(_) => s.(producer := Resting))
    case Receive => if s.consumer.Waiting? then s.(consumer := LoadingMyTail) else s
    case ConsumerGoes =>
      (match s.consumer
       case Waiting => s
       case LoadingMyTail => s.(consumer := LoadingTheirHead(s.tail))
       case LoadingTheirHead(t) =>
         if HasItem(s.head, t, s.size) then s.(consumer := Reading(t)) else s.(consumer := SawEmpty)
       case Reading(t) => s.(consumer := Releasing(t, s.buffer[s.tail % s.size]))
       case Releasing(t, x) => s.(tail := t + 1, received := s.received + [x], consumer := Took(x))
       case Took(_) => s.(consumer := Waiting)
       case SawEmpty => s.(consumer := Waiting))
  }

  function Run<T>(s: State<T>, acts: seq<Action<T>>): (r: State<T>)
    requires Shaped(s)
    ensures Shaped(r) && r.size == s.size
    decreases |acts|
  {
    if acts == [] then s else Run(Step(s, acts[0]), acts[1..])
  }

  ghost predicate Init<T>(s: State<T>) {
    && Shaped(s) && IsPow2(s.size) && s.size < WORD
    && s.head == 0 && s.tail == 0 && s.producer == Resting && s.consumer == Waiting
    && s.sent == [] && s.received == []
  }

  ghost predicate Inv<T>(s: State<T>) {
    && Shaped(s) && IsPow2(s.size) && s.size < WORD
    && s.tail <= s.head <= s.tail + s.size - 1
    && |s.sent| == s.head && s.received == s.sent[..s.tail]
    && (forall p :: s.tail <= p < s.head ==> s.buffer[p % s.size] == s.sent[p])
    && (match s.producer
        case LoadingTail(_, h) => h == s.head
        case Writing(_, h) => h == s.head < s.tail + s.size - 1
        case Storing(v, h) => h == s.head < s.tail + s.size - 1 && s.buffer[h % s.size] == v
        case _ => true)
    && (match s.consumer
        case LoadingTheirHead(t) => t == s.tail
        case Reading(t) => t == s.tail < s.head
        case Releasing(t, x) => t == s.tail < s.head && x == s.sent[t]
        case _ => true)
  }

  /** With at most size - 1 elements inside, the masked word differences are
      the free room and the number of elements. */
  lemma {:induction false} TestsAreCounts(head: nat, tail: nat, size: nat)
    requires IsPow2(size) && size < WORD && tail <= head <= tail + size - 1
    ensures And(Wrap(Wrap(tail) - Wrap(head + 1)), size - 1) == size - 1 - (head - tail)
    ensures And(Wrap(Wrap(head) - Wrap(tail)), size - 1) == head - tail
    ensures HasRoom(head, tail, size) <==> head - tail < size - 1
    ensures HasItem(head, tail, size) <==> head - tail >= 1
  {
    Difference(tail, head + 1, size);
    Difference(head, tail, size);
    Unique(tail - (head + 1), size, -1, size - 1 - (head - tail));
    Unique(head - tail, size, 0, head - tail);
  }

  lemma {:induction false} Difference(x: nat, y: nat, size: nat)
    requires IsPow2(size) && size < WORD
    ensures size > 0 && And(Wrap(Wrap(x) - Wrap(y)), size - 1) == (x - y) % size
  {
    MaskIsResidue(Wrap(x) - Wrap(y), size);
    WrapKeepsResidue(x, size);
    WrapKeepsResidue(y, size);
    SubResidues(x, y, Wrap(x), Wrap(y), size);
  }

  lemma {:induction false} SubResidues(x: int, y: int, a: int, b: int, n: nat)
    requires n > 0 && x % n == a % n && y % n == b % n
    ensures (x - y) % n == (a - b) % n
  {
    var q := (a - b) / n + (x / n - a / n) - (y / n - b / n);
    assert x - y == q * n + (a - b) % n;
    Unique(x - y, n, q, (a - b) % n);
  }

  /** The producer never writes a slot that holds an unread element. */
  lemma {:induction false} WritesFreeSlot<T>(s: State<T>, p: nat)
    requires Inv(s) && (s.producer.Writing? || s.producer.Storing?) && s.tail <= p < s.head
    ensures p % s.size != s.producer.h % s.size
  {
    if p % s.size == s.head % s.size { SameResidue(p, s.head, s.size); }
  }

  lemma {:induction false} ProducerInv<T>(s: State<T>)
    requires Inv(s)
    ensures Inv(Step(s, ProducerGoes))
  {
    match s.producer
    case LoadingTail(v, h) => TestsAreCounts(s.head, s.tail, s.size);
    case Writing(v, h) =>
      forall p | s.tail <= p < s.head
        ensures p % s.size != h % s.size
      {
        WritesFreeSlot(s, p);
      }
    case _ =>
  }

  lemma ConsumerInv<T>(s: State<T>)
    requires Inv(s)
    ensures Inv(Step(s, ConsumerGoes))
  {
    if s.consumer.LoadingTheirHead? { TestsAreCounts(s.head, s.tail, s.size); }
  }

  lemma {:induction false} StepInv<T>(s: State<T>, a: Action<T>)
    requires Inv(s)
    ensures Inv(Step(s, a))
  {
    match a
    case ProducerGoes => ProducerInv(s);
    case ConsumerGoes => ConsumerInv(s);
    case _ =>
  }

  lemma {:induction false} RunInv<T>(s: State<T>, acts: seq<Action<T>>)
    requires Inv(s)
    ensures Inv(Run(s, acts))
    decreases |acts|
  {
    if acts != [] {
      StepInv(s, acts[0]);
      RunInv(Step(s, acts[0]), acts[1..]);
    }
  }

  function Contents<T>(s: State<T>): seq<T>
    requires s.tail <= |s.sent|
  {
    s.sent[s.tail..]
  }

  /** Each step is a step of a FIFO of capacity size - 1: the head store pushes
      the producer's value, the tail store pops what the consumer holds. */
  lemma {:induction false} StepRefinesFifo<T>(s: State<T>, a: Action<T>)
    requires Inv(s)
    ensures var s' := Step(s, a);
            && Inv(s')
            && (if a == ProducerGoes && s.producer.Storing? then
                  |Contents(s)| < s.size - 1 && Contents(s') == Contents(s) + [s.producer.v]
                else if a == ConsumerGoes && s.consumer.Releasing? then
                  Contents(s) == [s.consumer.x] + Contents(s')
                else Contents(s') == Contents(s))
  {
    StepInv(s, a);
  }

  /** Over any run the consumer has received exactly the first `tail` values
      sent, in order, and the ring holds the rest, fewer than `size` of them. */
  lemma FifoOverRuns<T>(s0: State<T>, acts: seq<Action<T>>)
    requires Init(s0)
    ensures var s := Run(s0, acts);
            && s.tail <= s.head == |s.sent| && s.sent == s.received + Contents(s) && |Contents(s)| <= s.size - 1
            && (forall p :: s.tail <= p < s.head ==> s.buffer[p % s.size] == s.sent[p])
  {
    var k :| s0.size == Pow2(k);
    RunInv(s0, acts);
  }

  /** A refusal is honest at the moment the other index is loaded. */
  lemma RefusalsAreHonest<T>(s: State<T>)
    requires Inv(s)
    ensures s.producer.LoadingTail? ==>
              (Step(s, ProducerGoes).producer == Put(false) <==> |Contents(s)| == s.size - 1)
    ensures s.consumer.LoadingTheirHead? ==>
              (Step(s, ConsumerGoes).consumer == SawEmpty <==> Contents(s) == [])
  {
    TestsAreCounts(s.head, s.tail, s.size);
  }

  // ---- The ring in memory, on 64-bit words ----

  /** What a run of consumer actions leaves to the producer. */
  lemma {:induction false} ConsumerStaysWithin<T>(s: State<T>, acts: seq<Action<T>>)
    requires Inv(s)
    requires forall k :: 0 <= k < |acts| ==> acts[k].Receive? || acts[k].ConsumerGoes?
    ensures var s' := Run(s, acts);
            && Inv(s') && s'.producer == s.producer && s'.sent == s.sent
            && s'.head == s.head && s.received <= s'.received
    decreases |acts|
  {
    if acts != [] {
      StepInv(s, acts[0]);
      assert acts[0].Receive? || acts[0].ConsumerGoes?;
      ConsumerStaysWithin(Step(s, acts[0]), acts[1..]);
    }
  }

  lemma {:induction false} ProducerStaysWithin<T>(s: State<T>, acts: seq<Action<T>>)
    requires Inv(s)
    requires forall k :: 0 <= k < |acts| ==> acts[k].Send? || acts[k].ProducerGoes?
    ensures var s' := Run(s, acts);
            && Inv(s') && s'.consumer == s.consumer && s'.received == s.received
            && s'.tail == s.tail && s.sent <= s'.sent
    decreases |acts|
  {
    if acts != [] {
      StepInv(s, acts[0]);
      assert acts[0].Send? || acts[0].ProducerGoes?;
      ProducerStaysWithin(Step(s, acts[0]), acts[1..]);
    }
  }

  class Ring<T(0)> {
    const size: nat
    const buffer: array<T>
    var head: nat
    var tail: nat
    ghost var state: State<T>

    ghost predicate Valid()
      reads this, buffer
    {
      && Inv(state) && state.size == size && buffer.Length == size && state.buffer == buffer[..]
      && head == Wrap(state.head) && tail == Wrap(state.tail)
    }

    constructor (capacity: nat)
      requires IsPow2(capacity) && capacity < WORD
      ensures Valid() && Init(state) && size == capacity && fresh(buffer)
    {
      size := capacity;
      buffer := new T[capacity];
      head, tail := 0, 0;
      new;
      state := State(capacity, 0, 0, buffer[..], Resting, Waiting, [], []);
    }

    /** The consumer's steps between two of the producer's; ConsumerStaysWithin
        shows that every run of the consumer alone keeps this contract. */
    method ConsumerInterferes()
      requires Valid()
      modifies this, buffer
      ensures Valid() && state.producer == old(state).producer && state.sent == old(state).sent
      ensures head == old(head) && state.head == old(state).head && old(state).received <= state.received
    {
    }

    method ProducerInterferes()
      requires Valid()
      modifies this, buffer
      ensures Valid() && state.consumer == old(state).consumer && state.received == old(state).received
      ensures tail == old(tail) && state.tail == old(state).tail && old(state).sent <= state.sent
    {
    }

    ghost method Advance(a: Action<T>)
      requires Inv(state)
      modifies `state
      ensures state == Step(old(state), a) && Inv(state)
    {
      StepInv(state, a);
      state := Step(state, a);
    }

    /** The producer's call: v goes out last, or a full ring was seen, at a moment
        between its begin and its end. */
    method Enqueue(v: T) returns (ok: bool, ghost at: State<T>)
      requires Valid() && state.producer == Resting
      modifies this, buffer
      ensures Valid() && state.producer == Put(ok)
      ensures state.sent == old(state).sent + if ok then [v] else []
      ensures old(state).received <= state.received
      ensures Inv(at) && at.sent == old(state).sent && at.size == size
      ensures old(state).received <= at.received <= state.received
      ensures ok <==> |Contents(at)| < size - 1
    {
      Advance(Send(v));
      ghost var h := state.head;
      Advance(ProducerGoes);
      ConsumerInterferes();
      at := state;
      ok := TestRoom(v, h);
      if ok {
        StoreValue(v, h);
        StoreHead(v, h);
      }
    }

    method TestRoom(ghost v: T, ghost h: nat) returns (ok: bool)
      requires Valid() && state.producer == LoadingTail(v, h)
      modifies this
      ensures Valid() && state == old(state).(producer := if ok then Writing(v, h) else Put(false))
      ensures ok <==> |Contents(old(state))| < size - 1
    {
      TestsAreCounts(state.head, state.tail, size);
      WrapAdd(h, 1);
      var myHead := head;
      ok := And(Wrap(tail - Wrap(myHead + 1)), size - 1) >= 1;
      Advance(ProducerGoes);
    }

    method StoreValue(v: T, ghost h: nat)
      requires Valid() && state.producer == Writing(v, h)
      modifies this, buffer
      ensures Valid() && state.producer == Storing(v, h)
      ensures state.sent == old(state).sent && old(state).received <= state.received
    {
      ConsumerInterferes();
      MaskIsResidue(h, size);
      buffer[And(head, size - 1)] := v;
      Advance(ProducerGoes);
    }

    method StoreHead(ghost v: T, ghost h: nat)
      requires Valid() && state.producer == Storing(v, h)
      modifies this, buffer
      ensures Valid() && state.producer == Put(true)
      ensures state.sent == old(state).sent + [v] && old(state).received <= state.received
    {
      ConsumerInterferes();
      WrapAdd(h, 1);
      head := Wrap(head + 1);
      Advance(ProducerGoes);
    }

    /** The consumer's call: the oldest value comes out, or an empty ring was seen,
        at a moment between its begin and its end: nothing was inside when it
        began. */
    method Dequeue(initial: T) returns (ok: bool, x: T, ghost at: State<T>)
      requires Valid() && state.consumer == Waiting
      modifies this, buffer
      ensures Valid() && state.consumer == if ok then Took(x) else SawEmpty
      ensures state.received == old(state).received + if ok then [x] else []
      ensures Inv(at) && at.received == old(state).received
      ensures old(state).sent <= at.sent <= state.sent
      ensures ok <==> Contents(at) != []
      ensures ok ==> x == Contents(at)[0]
    {
      x := initial;
      Advance(Receive);
      ghost var t := state.tail;
      Advance(ConsumerGoes);
      ProducerInterferes();
      at := state;
      ok := TestItem(t);
      if ok {
        x := LoadValue(t);
        StoreTail(t, x);
      }
    }

    method TestItem(ghost t: nat) returns (ok: bool)
      requires Valid() && state.consumer == LoadingTheirHead(t)
      modifies this
      ensures Valid() && state == old(state).(consumer := if ok then Reading(t) else SawEmpty)
      ensures ok <==> Contents(old(state)) != []
    {
      TestsAreCounts(state.head, state.tail, size);
      var myTail := tail;
      ok := And(Wrap(head - myTail), size - 1) >= 1;
      Advance(ConsumerGoes);
    }

    method LoadValue(ghost t: nat) returns (x: T)
      requires Valid() && state.consumer == Reading(t)
      modifies this, buffer
      ensures Valid() && state.consumer == Releasing(t, x)
      ensures state.received == old(state).received && old(state).sent <= state.sent
      ensures t < |old(state).sent| && x == old(state).sent[t]
    {
      ProducerInterferes();
      MaskIsResidue(t, size);
      x := buffer[And(tail, size - 1)];
      Advance(ConsumerGoes);
    }

    method StoreTail(ghost t: nat, ghost x: T)
      requires Valid() && state.consumer == Releasing(t, x)
      modifies this, buffer
      ensures Valid() && state.consumer == Took(x)
      ensures state.received == old(state).received + [x] && old(state).sent <= state.sent
    {
      ProducerInterferes();
      WrapAdd(t, 1);
      tail := Wrap(tail + 1);
      Advance(ConsumerGoes);
    }

    /** The consumer's test answers for the moment it loads the head. */
    method IsEmpty() returns (empty: bool, ghost at: State<T>)
      requires Valid()
      modifies this, buffer
      ensures Valid() && state.received == old(state).received
      ensures Inv(at) && at.received == old(state).received && old(state).sent <= at.sent <= state.sent
      ensures empty <==> Contents(at) == []
    {
      var myTail := tail;
      ProducerInterferes();
      at := state;
      TestsAreCounts(state.head, state.tail, size);
      empty := !(And(Wrap(head - myTail), size - 1) >= 1);
    }
  }
}
