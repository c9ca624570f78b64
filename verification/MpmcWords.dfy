/** The multi-producer multi-consumer ring on 64-bit words takes the same
    decisions as on unbounded counters, as long as no thread sleeps through
    half a wrap. */
module MpmcWords {
  import opened MachineWords
  import opened MpmcProtocol
  import opened MpmcTheorems

  lemma StampBounds<T>(s: State<T>, i: nat)
    requires Inv(s) && i < s.size
    ensures s.head - s.size <= s.slots[i].stamp <= s.head + s.size
  {
    assert SlotOk(s, i);
  }

  /** Slot index and three-way test of an enqueue whose local ticket h lags the
      head by less than half a wrap (less one lap). */
  lemma {:induction false} EnqueueReadsAlike<T>(s: State<T>, t: Tid)
    requires Inv(s) && PcOf(s, t).EnqRead? && IsPow2(s.size) && s.size < WORD
    requires s.head - PcOf(s, t).h + s.size < HALF
    ensures var h := PcOf(s, t).h; var stamp := SlotAt(s, h).stamp;
            && And(Wrap(h), s.size - 1) == h % s.size
            && Dif(Wrap(stamp), Wrap(h)) == stamp - h
  {
    var h := PcOf(s, t).h;
    assert ThreadOk(s, t);
    MaskIsResidue(h, s.size);
    StampBounds(s, h % s.size);
    DifIsReal(SlotAt(s, h).stamp, h);
  }

  lemma {:induction false} DequeueReadsAlike<T>(s: State<T>, t: Tid)
    requires Inv(s) && PcOf(s, t).DeqRead? && IsPow2(s.size) && s.size < WORD
    requires s.tail - PcOf(s, t).t + 2 * s.size < HALF
    ensures var p := PcOf(s, t).t; var stamp := SlotAt(s, p).stamp;
            && And(Wrap(p), s.size - 1) == p % s.size
            && Dif(Wrap(stamp), Wrap(p + 1)) == stamp - (p + 1)
  {
    var p := PcOf(s, t).t;
    assert ThreadOk(s, t);
    MaskIsResidue(p, s.size);
    StampBounds(s, p % s.size);
    DifIsReal(SlotAt(s, p).stamp, p + 1);
  }

  /** The two exchanges compare words: they succeed exactly when the counter is
      the expected one or a whole number of wraps ahead of it. */
  lemma ExchangesAlike<T>(s: State<T>, t: Tid)
    requires Inv(s)
    ensures PcOf(s, t).EnqCas? && s.head - PcOf(s, t).h < WORD ==>
              (Wrap(s.head) == Wrap(PcOf(s, t).h) <==> s.head == PcOf(s, t).h)
    ensures PcOf(s, t).DeqCas? && s.tail - PcOf(s, t).t < WORD ==>
              (Wrap(s.tail) == Wrap(PcOf(s, t).t) <==> s.tail == PcOf(s, t).t)
  {
    match PcOf(s, t)
    case EnqCas(v, h) =>
      assert ThreadOk(s, t);
      if s.head - h < WORD { SameWord(s.head, h); }
    case DeqCas(p) =>
      assert ThreadOk(s, t);
      if s.tail - p < WORD { SameWord(s.tail, p); }
    case _ =>
  }

  // ---- The ring on words ----

  /** Memory and threads as the machine has them: every counter, stamp and
      ticket is a 64-bit word, and there is no history. */
  datatype Memory<T> = Memory(size: nat, head: nat, tail: nat, slots: seq<Slot<T>>, threads: map<Tid, Pc<T>>)

  predicate Sized<T>(w: Memory<T>) {
    w.size > 0 && |w.slots| == w.size
  }

  /** The mask picks the slot. */
  function Index(ticket: nat, size: nat): (i: nat)
    requires size > 0
    ensures i < size
  {
    AndBelow(ticket, size - 1);
    And(ticket, size - 1)
  }

  function MoveTo<T>(w: Memory<T>, t: Tid, pc: Pc<T>): Memory<T> {
    w.(threads := w.threads[t := pc])
  }

  function Store<T>(w: Memory<T>, ticket: nat, slot: Slot<T>): Memory<T>
    requires Sized(w)
  {
    w.(slots := w.slots[Index(ticket, w.size) := slot])
  }

  /** One atomic action of thread t in machine arithmetic. */
  function WordStep<T>(w: Memory<T>, t: Tid, c: Choice<T>): Memory<T>
    requires Sized(w)
  {
    match if t in w.threads then w.threads[t] else Idle
    case Idle =>
      (match c
       case CallEnqueue(v) => MoveTo(w, t, EnqLoad(v))
       case CallDequeue => MoveTo(w, t, DeqLoad)
       case Go => w
       case SpuriousFailure => w)
    case EnqLoad(v) => MoveTo(w, t, EnqRead(v, w.head))
    case EnqRead(v, h) =>
      var dif := Dif(w.slots[Index(h, w.size)].stamp, h);
      MoveTo(w, t, if dif == 0 then EnqCas(v, h) else if dif < 0 then EnqDone(false) else EnqLoad(v))
    case EnqCas(v, h) =>
      if w.head == h && c != SpuriousFailure then MoveTo(w.(head := Wrap(h + 1)), t, EnqWrite(v, h))
      else MoveTo(w, t, EnqRead(v, w.head))
    case EnqWrite(v, h) =>
      MoveTo(Store(w, h, w.slots[Index(h, w.size)].(data := v)), t, EnqPublish(v, h))
    case EnqPublish(v, h) =>
      MoveTo(Store(w, h, w.slots[Index(h, w.size)].(stamp := Wrap(h + 1))), t, EnqDone(true))
    case DeqLoad => MoveTo(w, t, DeqRead(w.tail))
    case DeqRead(p) =>
      var dif := Dif(w.slots[Index(p, w.size)].stamp, Wrap(p + 1));
      MoveTo(w, t, if dif == 0 then DeqCas(p) else if dif < 0 then DeqEmpty else DeqLoad)
    case DeqCas(p) =>
      if w.tail == p && c != SpuriousFailure then MoveTo(w.(tail := Wrap(p + 1)), t, DeqTake(p))
      else MoveTo(w, t, DeqRead(w.tail))
    case DeqTake(p) => MoveTo(w, t, DeqRelease(p, w.slots[Index(p, w.size)].data))
    case DeqRelease(p, x) =>
      MoveTo(Store(w, p, w.slots[Index(p, w.size)].(stamp := Wrap(p + (w.size - 1) + 1))), t, DeqGot(x))
    case EnqDone(_) => MoveTo(w, t, Idle)
    case DeqGot(_) => MoveTo(w, t, Idle)
    case DeqEmpty => MoveTo(w, t, Idle)
  }

  function WordRun<T>(w: Memory<T>, ticks: seq<Tick<T>>): Memory<T>
    requires Sized(w)
    decreases |ticks|
  {
    if ticks == [] then w else WordRun(WordStep(w, ticks[0].who, ticks[0].choice), ticks[1..])
  }

  // ---- Words of a state ----

  function WordSlot<T>(slot: Slot<T>): Slot<T> {
    slot.(stamp := Wrap(slot.stamp))
  }

  function WordPc<T>(pc: Pc<T>): Pc<T> {
    match pc
    case EnqRead(v, h) => EnqRead(v, Wrap(h))
    case EnqCas(v, h) => EnqCas(v, Wrap(h))
    case EnqWrite(v, h) => EnqWrite(v, Wrap(h))
    case EnqPublish(v, h) => EnqPublish(v, Wrap(h))
    case DeqRead(p) => DeqRead(Wrap(p))
    case DeqCas(p) => DeqCas(Wrap(p))
    case DeqTake(p) => DeqTake(Wrap(p))
    case DeqRelease(p, x) => DeqRelease(Wrap(p), x)
    case _ => pc
  }

  /** What the machine holds of a state of the ideal protocol. */
  function Words<T>(s: State<T>): (w: Memory<T>)
    ensures |w.slots| == |s.slots|
  {
    Memory(s.size, Wrap(s.head), Wrap(s.tail),
           seq(|s.slots|, i requires 0 <= i < |s.slots| => WordSlot(s.slots[i])),
           map t | t in s.threads :: WordPc(s.threads[t]))
  }

  /** Thread t has not slept through half a wrap of the counter it works with. */
  predicate Awake<T>(s: State<T>, t: Tid) {
    match PcOf(s, t)
    case EnqRead(_, h) => s.head - h + s.size < HALF
    case EnqCas(_, h) => s.head - h < WORD
    case DeqRead(p) => s.tail - p + 2 * s.size < HALF
    case DeqCas(p) => s.tail - p < WORD
    case _ => true
  }

  predicate AllAwake<T>(s: State<T>, ticks: seq<Tick<T>>)
    requires Shaped(s)
    decreases |ticks|
  {
    ticks == [] || (Awake(s, ticks[0].who) && AllAwake(Step(s, ticks[0].who, ticks[0].choice), ticks[1..]))
  }

  lemma MovesAlike<T>(s: State<T>, t: Tid, pc: Pc<T>)
    ensures Words(Goto(s, t, pc)) == MoveTo(Words(s), t, WordPc(pc))
  {
    hide WordPc, WordSlot;
  }

  lemma {:induction false} StoresAlike<T>(s: State<T>, p: nat, slot: Slot<T>)
    requires Shaped(s) && IsPow2(s.size) && s.size < WORD
    ensures Index(Wrap(p), s.size) == p % s.size
    ensures Words(s).slots[p % s.size] == WordSlot(SlotAt(s, p))
    ensures Words(PutSlot(s, p, slot)) == Store(Words(s), Wrap(p), WordSlot(slot))
  {
    hide WordPc, WordSlot, And, IsPow2;
    MaskIsResidue(p, s.size);
  }

  /** What a thread finds in the machine. */
  lemma WordsAre<T>(s: State<T>, t: Tid)
    ensures var w := Words(s);
            && w.size == s.size && w.head == Wrap(s.head) && w.tail == Wrap(s.tail)
            && (if t in w.threads then w.threads[t] else Idle) == WordPc(PcOf(s, t))
  {
    hide WordSlot, Wrap;
  }

  lemma {:induction false} EnqueueAlike<T>(s: State<T>, t: Tid, c: Choice<T>)
    requires Inv(s) && IsPow2(s.size) && s.size < WORD && Awake(s, t)
    requires var pc := PcOf(s, t); pc.EnqRead? || pc.EnqCas? || pc.EnqWrite? || pc.EnqPublish?
    ensures WordStep(Words(s), t, c) == Words(Step(s, t, c))
  {
    hide Words, IsPow2, And, Wrap, Dif, Index, Inv, Store, MoveTo;
    WordsAre(s, t);
    InvShapes(s);
    var pc, s' := PcOf(s, t), Step(s, t, c);
    MovesAlike(s, t, s'.threads[t]);
    match pc
    case EnqRead(v, h) =>
      EnqueueReadsAlike(s, t);
      StoresAlike(s, h, SlotAt(s, h));
    case EnqCas(v, h) =>
      ExchangesAlike(s, t);
      WrapAdd(h, 1);
      if s.head == h && c != SpuriousFailure {
        CounterAlike(s, h + 1, s.tail, s.log + [Entry(t, v)], s.claims);
        MovesAlike(s.(head := h + 1, log := s.log + [Entry(t, v)]), t, EnqWrite(v, h));
      }
    case EnqWrite(v, h) =>
      var slot := SlotAt(s, h).(data := v);
      StoresAlike(s, h, slot);
      MovesAlike(PutSlot(s, h, slot), t, EnqPublish(v, h));
    case EnqPublish(v, h) =>
      var slot := SlotAt(s, h).(stamp := h + 1);
      StoresAlike(s, h, slot);
      WrapAdd(h, 1);
      MovesAlike(PutSlot(s, h, slot), t, EnqDone(true));
  }

  lemma {:induction false} DequeueAlike<T>(s: State<T>, t: Tid, c: Choice<T>)
    requires Inv(s) && IsPow2(s.size) && s.size < WORD && Awake(s, t)
    requires var pc := PcOf(s, t); pc.DeqRead? || pc.DeqCas? || pc.DeqTake? || pc.DeqRelease?
    ensures WordStep(Words(s), t, c) == Words(Step(s, t, c))
  {
    hide Words, IsPow2, And, Wrap, Dif, Index, Inv, Store, MoveTo;
    WordsAre(s, t);
    InvShapes(s);
    var pc, s' := PcOf(s, t), Step(s, t, c);
    MovesAlike(s, t, s'.threads[t]);
    match pc
    case DeqRead(p) =>
      DequeueReadsAlike(s, t);
      StoresAlike(s, p, SlotAt(s, p));
      WrapAdd(p, 1);
    case DeqCas(p) =>
      ExchangesAlike(s, t);
      WrapAdd(p, 1);
      if s.tail == p && c != SpuriousFailure {
        CounterAlike(s, s.head, p + 1, s.log, s.claims + [t]);
        MovesAlike(s.(tail := p + 1, claims := s.claims + [t]), t, DeqTake(p));
      }
    case DeqTake(p) =>
      StoresAlike(s, p, SlotAt(s, p));
      GotAlike(s, s.got[p := SlotAt(s, p).data]);
      MovesAlike(s.(got := s.got[p := SlotAt(s, p).data]), t, DeqRelease(p, SlotAt(s, p).data));
    case DeqRelease(p, x) =>
      var slot := SlotAt(s, p).(stamp := p + s.size);
      StoresAlike(s, p, slot);
      WrapAdd(p, s.size - 1 + 1);
      MovesAlike(PutSlot(s, p, slot), t, DeqGot(x));
  }

  lemma InvShapes<T>(s: State<T>)
    requires Inv(s)
    ensures Shaped(s) && Sized(Words(s))
  {
  }

  lemma CounterAlike<T>(s: State<T>, head: nat, tail: nat, log: seq<Entry<T>>, claims: seq<Tid>)
    ensures Words(s.(head := head, tail := tail, log := log, claims := claims)) ==
            Words(s).(head := Wrap(head), tail := Wrap(tail))
  {
    hide Wrap, WordPc, WordSlot;
  }

  lemma GotAlike<T>(s: State<T>, got: map<nat, T>)
    ensures Words(s.(got := got)) == Words(s)
  {
    hide Wrap, WordPc, WordSlot;
  }

  /** One step on words is the words of one step. */
  lemma {:induction false} StepAlike<T>(s: State<T>, t: Tid, c: Choice<T>)
    requires Inv(s) && IsPow2(s.size) && s.size < WORD && Awake(s, t)
    ensures Sized(Words(s)) && WordStep(Words(s), t, c) == Words(Step(s, t, c))
  {
    hide Words, IsPow2, And, Wrap, Dif, Index, Inv;
    InvShapes(s);
    WordsAre(s, t);
    match PcOf(s, t)
    case EnqRead(_, _) => EnqueueAlike(s, t, c);
    case EnqCas(_, _) => EnqueueAlike(s, t, c);
    case EnqWrite(_, _) => EnqueueAlike(s, t, c);
    case EnqPublish(_, _) => EnqueueAlike(s, t, c);
    case DeqRead(_) => DequeueAlike(s, t, c);
    case DeqCas(_) => DequeueAlike(s, t, c);
    case DeqTake(_) => DequeueAlike(s, t, c);
    case DeqRelease(_, _) => DequeueAlike(s, t, c);
    case _ =>
      var s' := Step(s, t, c);
      if t in s'.threads { MovesAlike(s, t, s'.threads[t]); }
  }

  /** A whole run in machine arithmetic is the words of the ideal run, wraps
      included, while no thread sleeps through half a wrap. */
  lemma {:induction false} RunAlike<T>(s: State<T>, ticks: seq<Tick<T>>)
    requires Inv(s) && IsPow2(s.size) && s.size < WORD && AllAwake(s, ticks)
    ensures Sized(Words(s)) && WordRun(Words(s), ticks) == Words(Run(s, ticks))
    decreases |ticks|
  {
    hide Words, IsPow2, Step, WordStep, Inv, Awake;
    InvShapes(s);
    if ticks != [] {
      var t, c := ticks[0].who, ticks[0].choice;
      StepInv(s, t, c);
      StepAlike(s, t, c);
      SizeKept(s, t, c);
      RunAlike(Step(s, t, c), ticks[1..]);
    }
  }

  lemma SizeKept<T>(s: State<T>, t: Tid, c: Choice<T>)
    requires Shaped(s)
    ensures Step(s, t, c).size == s.size && Shaped(Step(s, t, c))
  {
  }

  /** So on words, too, a dequeuer that comes back with x has claimed a ticket
      under which an enqueuer brought x. */
  lemma {:induction false} WordsDeliver<T>(s0: State<T>, ticks: seq<Tick<T>>, t: Tid, x: T)
    requires Init(s0) && s0.size >= 2 && IsPow2(s0.size) && s0.size < WORD && AllAwake(s0, ticks)
    ensures var s, w := Run(s0, ticks), WordRun(Words(s0), ticks);
            && w == Words(s) && Faithful(s)
            && (t in w.threads && w.threads[t].DeqRelease? && w.threads[t].x == x ==>
                  exists p: nat :: p < s.tail <= |s.log| && |s.claims| == s.tail &&
                    s.claims[p] == t && s.log[p].value == x)
  {
    hide Words, IsPow2, Step, WordStep, Inv, Awake, AllAwake;
    InitInv(s0);
    RunAlike(s0, ticks);
    DeliveryByTicket(s0, ticks);
    var s := Run(s0, ticks);
    WordsAre(s, t);
    var pc := PcOf(s, t);
    if pc.DeqRelease? && pc.x == x && t in s.threads {
      assert s.threads[t] == DeqRelease(pc.t, x);
    }
  }
}
