/** The ring as the program has it: counters and slots in memory, `Enqueue` and
    `Dequeue` as retry loops over atomic actions, other threads running between
    any two of them.

    The ghost field `state` follows the memory through the step system of
    MpmcProtocol; `Interfere` stands for whatever the other threads do. */
module MpmcRing {
  import opened MpmcProtocol
  import opened MpmcTheorems

  datatype Outcome = Returned(ok: bool) | StillTrying

  /** What a thread has done to the ring: values put in, in order, and the number
      of tickets claimed to take one out. */
  datatype Deeds<T> = Deeds(put: seq<T>, taken: nat)

  function Put<T>(d: Deeds<T>, v: T): Deeds<T> {
    d.(put := d.put + [v])
  }

  function Take<T>(d: Deeds<T>): Deeds<T> {
    d.(taken := d.taken + 1)
  }

  /** The values thread `me` put into the log, in order. */
  function Mine<T>(log: seq<Entry<T>>, me: Tid): seq<T> {
    if log == [] then []
    else
      var last := log[|log| - 1];
      Mine(log[..|log| - 1], me) + if last.owner == me then [last.value] else []
  }

  lemma MineAppend<T>(log: seq<Entry<T>>, me: Tid, e: Entry<T>)
    ensures Mine(log + [e], me) == Mine(log, me) + if e.owner == me then [e.value] else []
  {
    assert (log + [e])[..|log|] == log;
  }

  function Won(claims: seq<Tid>, me: Tid): nat {
    if claims == [] then 0
    else Won(claims[..|claims| - 1], me) + if claims[|claims| - 1] == me then 1 else 0
  }

  lemma WonAppend(claims: seq<Tid>, me: Tid, t: Tid)
    ensures Won(claims + [t], me) == Won(claims, me) + if t == me then 1 else 0
  {
    assert (claims + [t])[..|claims|] == claims;
  }

  function DeedsOf<T>(s: State<T>, me: Tid): Deeds<T> {
    Deeds(Mine(s.log, me), Won(s.claims, me))
  }

  /** How many turns fail for no reason. */
  function Trues(weak: seq<bool>): nat {
    if weak == [] then 0 else Trues(weak[..|weak| - 1]) + if weak[|weak| - 1] then 1 else 0
  }

  lemma TruesNext(weak: seq<bool>, n: nat)
    requires n < |weak|
    ensures Trues(weak[..n + 1]) == Trues(weak[..n]) + if weak[n] then 1 else 0
  {
    assert weak[..n + 1][..n] == weak[..n];
  }

  predicate Without<T>(ticks: seq<Tick<T>>, me: Tid) {
    forall k :: 0 <= k < |ticks| ==> ticks[k].who != me
  }

  /** What a later state keeps of an earlier one, whoever ran. */
  ghost predicate Later<T>(s: State<T>, s': State<T>) {
    && s'.size == s.size && s.log <= s'.log && s.claims <= s'.claims
    && s.head <= s'.head && s.tail <= s'.tail
    && forall p :: p in s.got ==> p in s'.got && s'.got[p] == s.got[p]
  }

  lemma LaterTrans<T>(a: State<T>, b: State<T>, c: State<T>)
    requires Later(a, b) && Later(b, c)
    ensures Later(a, c)
  {
  }

  lemma UnreadEarlier<T>(a: State<T>, b: State<T>, ticket: nat)
    requires Later(a, b) && ticket !in b.got
    ensures ticket !in a.got
  {
  }

  /** `me` claimed the ticket, and x is the value logged under it. */
  ghost predicate Delivered<T>(s: State<T>, me: Tid, ticket: nat, x: T) {
    && ticket < s.tail <= |s.log| && |s.claims| == s.tail
    && s.claims[ticket] == me && x == s.log[ticket].value
  }

  lemma StaysDelivered<T>(s: State<T>, s': State<T>, me: Tid, ticket: nat, x: T)
    requires Inv(s') && Later(s, s') && ticket < s.tail <= |s.log| && ticket < |s.claims|
    requires s.claims[ticket] == me && x == s.log[ticket].value
    ensures Delivered(s', me, ticket, x)
  {
  }

  lemma GotFrame<T>(s: State<T>, t: Tid, c: Choice<T>)
    requires Shaped(s) && !PcOf(s, t).DeqTake?
    ensures Step(s, t, c).got == s.got
  {
  }

  lemma StepLater<T>(s: State<T>, t: Tid, c: Choice<T>)
    requires Inv(s)
    ensures Later(s, Step(s, t, c))
  {
    StepMonotone(s, t, c);
    if PcOf(s, t).DeqTake? { TakenOnce(s, t, c); } else { GotFrame(s, t, c); }
  }

  /** A step of another thread does nothing in the name of this one, and a step
      of its own at most one thing. */
  lemma StepDeeds<T>(s: State<T>, t: Tid, c: Choice<T>, me: Tid)
    requires Shaped(s)
    ensures var s' := Step(s, t, c);
            DeedsOf(s', me) ==
            if t != me then DeedsOf(s, me)
            else Deeds(Mine(s.log, me) + (if s'.log != s.log then [s'.log[|s'.log| - 1].value] else []),
                       Won(s.claims, me) + (if s'.claims != s.claims then 1 else 0))
  {
    if PcOf(s, t).EnqCas? { MineAppend(s.log, me, Entry(t, PcOf(s, t).v)); }
    if PcOf(s, t).DeqCas? { WonAppend(s.claims, me, t); }
    assert t == me || Mine(s.log, me) + [] == Mine(s.log, me);
  }

  lemma OtherStep<T>(s: State<T>, t: Tid, c: Choice<T>, me: Tid)
    requires Shaped(s) && t != me
    ensures PcOf(Step(s, t, c), me) == PcOf(s, me)
  {
  }

  /** Other threads cannot move `me`, nor do anything in its name. */
  lemma {:induction false} OthersKeep<T>(s: State<T>, ticks: seq<Tick<T>>, me: Tid)
    requires Inv(s) && Without(ticks, me)
    ensures Inv(Run(s, ticks)) && Later(s, Run(s, ticks))
    ensures PcOf(Run(s, ticks), me) == PcOf(s, me)
    ensures DeedsOf(Run(s, ticks), me) == DeedsOf(s, me)
    decreases |ticks|
  {
    hide DeedsOf, Step;
    if ticks != [] {
      var t, c := ticks[0].who, ticks[0].choice;
      assert t != me;
      StepInv(s, t, c);
      StepLater(s, t, c);
      OtherStep(s, t, c, me);
      StepDeeds(s, t, c, me);
      OthersKeep(Step(s, t, c), ticks[1..], me);
    }
  }

  /** A run that goes on. */
  lemma RunOn<T>(s: State<T>, ticks: seq<Tick<T>>, t: Tid, c: Choice<T>)
    requires Shaped(s)
    ensures Run(s, ticks + [Tick(t, c)]) == Step(Run(s, ticks), t, c)
  {
    hide Step;
    RunAppend(s, ticks, [Tick(t, c)]);
    assert [Tick(t, c)][1..] == [];
  }

  /** The slot for the real head still serves the previous lap: that ticket is
      unclaimed or its claimant has not released it. */
  ghost predicate NoFreeSlot<T>(s: State<T>) {
    && Inv(s) && s.head >= s.size
    && (s.head - s.size >= s.tail || Reading(PcOf(s, s.claims[s.head - s.size]), s.head - s.size))
  }

  /** The real tail ticket is unclaimed or its winner is still writing. */
  ghost predicate NothingPublished<T>(s: State<T>) {
    Inv(s) && (s.tail == s.head || Writing(PcOf(s, s.log[s.tail].owner), s.tail))
  }

  /** What the load of a stamp makes of a producer; memory stays as it is. A
      stamp that is ahead tells that the head has moved on. */
  lemma StampDecides<T>(s: State<T>, me: Tid)
    requires Inv(s) && PcOf(s, me).EnqRead?
    ensures var pc, s' := PcOf(s, me), Step(s, me, Go);
            var stamp := SlotAt(s, pc.h).stamp;
            && s'.size == s.size && s'.head == s.head && s'.tail == s.tail
            && s'.slots == s.slots && s'.log == s.log && s'.claims == s.claims
            && PcOf(s', me) == (if stamp == pc.h then EnqCas(pc.v, pc.h)
                                else if stamp < pc.h then EnqDone(false)
                                else EnqLoad(pc.v))
            && (stamp < pc.h ==> NoFreeSlot(s))
            && (stamp > pc.h ==> pc.h < s.head)
  {
    FullIsHonest(s, me, Go);
    RetryMeansProgress(s, me, Go);
  }

  /** A local ticket is never ahead of its counter. */
  lemma TicketBehind<T>(s: State<T>, me: Tid)
    requires Inv(s)
    ensures PcOf(s, me).EnqRead? || PcOf(s, me).EnqCas? ==> PcOf(s, me).h <= s.head
    ensures PcOf(s, me).DeqRead? || PcOf(s, me).DeqCas? ==> PcOf(s, me).t <= s.tail
  {
    if me in s.threads { assert ThreadOk(s, me); }
  }

  class Ring<T(0)> {
    const size: nat
    const stamps: array<nat>
    const cells: array<T>
    var head: nat
    var tail: nat
    ghost const start: State<T>
    ghost var past: seq<Tick<T>>     // what all threads have done since the start
    ghost var state: State<T>

    /** The memory is what the state of the step system says. */
    ghost predicate Mirrors()
      reads this, stamps, cells
    {
      && Shaped(state) && state.size == size
      && stamps.Length == size && cells.Length == size && stamps as object != cells
      && head == state.head && tail == state.tail
      && forall i :: 0 <= i < size ==> state.slots[i] == Slot(stamps[i], cells[i])
    }

    /** The state is what a run of the step system has led to. */
    ghost predicate Reached()
      reads `past, `state
    {
      Shaped(start) && state == Run(start, past)
    }

    ghost predicate Valid()
      reads this, stamps, cells
    {
      Inv(state) && Mirrors() && Reached()
    }

    /** A state of the run since the last look at it, k steps after the start. */
    twostate predicate Passed(k: nat)
      reads `past
    {
      Shaped(start) && |old(past)| <= k <= |past|
    }

    /** The state k steps after the start. */
    ghost function StateAt(k: nat): State<T>
      requires Shaped(start) && k <= |past|
      reads `past
    {
      Run(start, past[..k])
    }

    /** The run has gone on. */
    twostate predicate Onward()
      reads `past, `state
    {
      Later(old(state), state) && old(past) <= past && Shaped(start)
    }

    lemma Here()
      requires Valid()
      ensures Shaped(start) && StateAt(|past|) == state
    {
      assert past[..|past|] == past;
    }

    /** What has passed stays passed. */
    twostate lemma StaysPassed(k: nat)
      requires old(past) <= past && k <= |old(past)| && Shaped(start)
      ensures StateAt(k) == old(StateAt(k))
    {
      assert past[..k] == old(past)[..k];
    }

    /** One slot is accepted, but only two or more make a ring that keeps the
        invariant. */
    constructor (capacity: nat)
      requires capacity > 0
      ensures Mirrors() && Reached() && fresh(stamps) && fresh(cells)
      ensures size == capacity && Init(state) && past == []
      ensures capacity >= 2 ==> Valid()
    {
      var marks, data := new nat[capacity], new T[capacity];
      for i := 0 to capacity
        invariant forall k :: 0 <= k < i ==> marks[k] == k
      {
        marks[i] := i;
      }
      size, stamps, cells, head, tail := capacity, marks, data, 0, 0;
      start := State(capacity, 0, 0,
                     seq(capacity, i requires 0 <= i < capacity reads marks, data => Slot(marks[i], data[i])),
                     map[], [], [], map[]);
      past := [];
      new;
      state := start;
      if size >= 2 { InitInv(state); }
    }

    /** Between two atomic actions of `me` the other threads may make any steps,
        and only they. Callers know only this contract; OthersKeep shows that
        every schedule of the other threads stays within it. */
    method Interfere(ghost me: Tid)
      requires Valid()
      modifies this, stamps, cells
      ensures Valid() && Onward()
      ensures Without(past[|old(past)|..], me)
      ensures PcOf(state, me) == old(PcOf(state, me))
      ensures DeedsOf(state, me) == old(DeedsOf(state, me))
    {
    }

    /** `me` makes its atomic action c in the step system. */
    ghost method Advance(me: Tid, c: Choice<T>)
      requires Inv(state) && Reached()
      modifies `state, `past
      ensures state == Step(old(state), me, c) && Inv(state) && Reached() && Onward()
      ensures DeedsOf(state, me) ==
              Deeds(Mine(old(state).log, me) +
                    (if state.log == old(state).log then [] else [state.log[|state.log| - 1].value]),
                    Won(old(state).claims, me) + if state.claims == old(state).claims then 0 else 1)
    {
      hide Step, Later, Mine, Won, Run, Inv;
      StepInv(state, me, c);
      StepLater(state, me, c);
      StepDeeds(state, me, c, me);
      RunOn(start, past, me, c);
      state, past := Step(state, me, c), past + [Tick(me, c)];
    }

    /** Nothing has been put in or claimed. */
    twostate predicate Quiet()
      reads `past, `state
    {
      Onward() && state.log == old(state).log && state.claims == old(state).claims
    }

    /** A call begins. */
    ghost method Begin(me: Tid, c: Choice<T>)
      requires Valid() && PcOf(state, me) == Idle && (c.CallEnqueue? || c.CallDequeue?)
      modifies `state, `past
      ensures Valid() && Quiet() && state.head == old(state).head && state.tail == old(state).tail
      ensures PcOf(state, me) == if c.CallEnqueue? then EnqLoad(c.v) else DeqLoad
      ensures DeedsOf(state, me) == old(DeedsOf(state, me))
    {
      hide Inv, Later, Mine, Won, Reached;
      Advance(me, c);
    }

    // ---- The atomic actions of the program ----

    method LoadHead(ghost me: Tid) returns (h: nat)
      requires Valid() && PcOf(state, me).EnqLoad?
      modifies this
      ensures Valid() && Quiet() && h == old(state).head == state.head
      ensures PcOf(state, me) == EnqRead(old(PcOf(state, me)).v, h)
      ensures DeedsOf(state, me) == old(DeedsOf(state, me))
    {
      hide Inv, Later, Mine, Won, Reached;
      h := head;
      Advance(me, Go);
    }

    method LoadTail(ghost me: Tid) returns (t: nat)
      requires Valid() && PcOf(state, me).DeqLoad?
      modifies this
      ensures Valid() && Quiet() && t == old(state).tail == state.tail
      ensures PcOf(state, me) == DeqRead(t)
      ensures DeedsOf(state, me) == old(DeedsOf(state, me))
    {
      hide Inv, Later, Mine, Won, Reached;
      t := tail;
      Advance(me, Go);
    }

    /** The producer's load of a stamp decides its next move. */
    method LoadStampToWrite(ghost me: Tid, h: nat) returns (stamp: nat)
      requires Valid() && PcOf(state, me).EnqRead? && PcOf(state, me).h == h
      modifies this
      ensures Valid() && Quiet() && h <= state.head
      ensures stamp == h ==> PcOf(state, me) == EnqCas(old(PcOf(state, me)).v, h)
      ensures stamp < h ==> PcOf(state, me) == EnqDone(false) && NoFreeSlot(old(state))
      ensures stamp > h ==> PcOf(state, me) == EnqLoad(old(PcOf(state, me)).v) && h < state.head
    {
      hide Step, NoFreeSlot, Later, Mine, Won, Reached;
      stamp := stamps[h % size];
      TicketBehind(state, me);
      StampDecides(state, me);
      Advance(me, Go);
    }

    method LoadStampToRead(ghost me: Tid, t: nat) returns (stamp: nat)
      requires Valid() && PcOf(state, me) == DeqRead(t)
      modifies this
      ensures Valid() && Quiet() && t <= state.tail
      ensures stamp == t + 1 ==> PcOf(state, me) == DeqCas(t)
      ensures stamp < t + 1 ==> PcOf(state, me) == DeqEmpty && NothingPublished(old(state))
      ensures stamp > t + 1 ==> PcOf(state, me) == DeqLoad && t < state.tail
    {
      hide Later, Mine, Won, Reached;
      stamp := stamps[t % size];
      TicketBehind(state, me);
      RetryMeansProgress(state, me, Go);
      EmptyIsHonest(state, me, Go);
      Advance(me, Go);
    }

    /** compare_exchange_weak on the head: it wins if the counter is as expected,
        unless it is weak this time and fails for no reason; a failure loads the
        counter's value. */
    method ExchangeHead(ghost me: Tid, expected: nat, weak: bool) returns (won: bool, seen: nat)
      requires Valid() && PcOf(state, me).EnqCas? && PcOf(state, me).h == expected
      modifies this
      ensures Valid() && Onward()
      ensures won <==> old(state).head == expected && !weak
      ensures won ==> PcOf(state, me) == EnqWrite(old(PcOf(state, me)).v, expected) && seen == expected
      ensures won ==> DeedsOf(state, me) == Put(old(DeedsOf(state, me)), old(PcOf(state, me)).v)
      ensures !won ==> PcOf(state, me) == EnqRead(old(PcOf(state, me)).v, seen) && Quiet()
      ensures !won ==> expected <= seen == old(state).head == state.head
    {
      hide Inv, Later, Mine, Won, Reached;
      TicketBehind(state, me);
      won := head == expected && !weak;
      if won {
        head := expected + 1;
        seen := expected;
        Advance(me, Go);
      } else {
        seen := head;
        Advance(me, if weak then SpuriousFailure else Go);
      }
    }

    method ExchangeTail(ghost me: Tid, expected: nat, weak: bool) returns (won: bool, seen: nat)
      requires Valid() && PcOf(state, me) == DeqCas(expected)
      modifies this
      ensures Valid() && Onward()
      ensures won <==> old(state).tail == expected && !weak
      ensures won ==> PcOf(state, me) == DeqTake(expected) && seen == expected
      ensures won ==> DeedsOf(state, me) == Take(old(DeedsOf(state, me)))
      ensures !won ==> PcOf(state, me) == DeqRead(seen) && Quiet()
      ensures !won ==> expected <= seen == old(state).tail == state.tail
    {
      hide Inv, Later, Mine, Won, Reached;
      TicketBehind(state, me);
      won := tail == expected && !weak;
      if won {
        tail := expected + 1;
        seen := expected;
        Advance(me, Go);
      } else {
        seen := tail;
        Advance(me, if weak then SpuriousFailure else Go);
      }
    }

    method StoreData(ghost me: Tid, p: nat, v: T)
      requires Valid() && PcOf(state, me) == EnqWrite(v, p)
      modifies this, cells
      ensures Valid() && Quiet()
      ensures PcOf(state, me) == EnqPublish(v, p)
    {
      hide Later, Mine, Won, Reached;
      cells[p % size] := v;
      Advance(me, Go);
    }

    /** The read gives the value logged under the ticket, once. */
    method LoadData(ghost me: Tid, p: nat) returns (x: T)
      requires Valid() && PcOf(state, me) == DeqTake(p)
      modifies this
      ensures Valid() && Quiet()
      ensures PcOf(state, me) == DeqRelease(p, x)
      ensures p < state.tail <= |state.log| && p < |state.claims| && state.claims[p] == me
      ensures p !in old(state).got && x == state.log[p].value
    {
      hide Later, Mine, Won, Reached;
      assert me in state.threads && ThreadOk(state, me);
      TakenOnce(state, me, Go);
      x := cells[p % size];
      Advance(me, Go);
    }

    method StoreStamp(ghost me: Tid, p: nat, stamp: nat)
      requires Valid()
      requires var pc := PcOf(state, me);
               (pc.EnqPublish? && pc.h == p && stamp == p + 1) || (pc.DeqRelease? && pc.t == p && stamp == p + size)
      modifies this, stamps
      ensures Valid() && Quiet()
      ensures PcOf(state, me) == if old(PcOf(state, me)).EnqPublish? then EnqDone(true)
                                 else DeqGot(old(PcOf(state, me)).x)
    {
      hide Later, Mine, Won, Reached;
      stamps[p % size] := stamp;
      Advance(me, Go);
    }

    // ---- The two operations ----

    /** A successful enqueue puts in exactly v; any other outcome does nothing. A
        failure is witnessed by a state of the run during the call, `at` steps
        after the start, in which the ring had no free slot for the real head.
        The call takes one turn for every element of `weak`, which says where the
        exchange fails for no reason, and is still trying only if each other turn
        has lost its ticket to another thread. */
    method Enqueue(ghost me: Tid, v: T, weak: seq<bool>) returns (r: Outcome, ghost at: nat)
      requires Valid() && PcOf(state, me) == Idle
      modifies this, stamps, cells
      ensures Valid() && Onward()
      ensures DeedsOf(state, me) == if r == Returned(true) then Put(old(DeedsOf(state, me)), v)
                                    else old(DeedsOf(state, me))
      ensures r.Returned? ==> PcOf(state, me) == EnqDone(r.ok)
      ensures r == Returned(false) ==> Passed(at) && NoFreeSlot(StateAt(at))
      ensures r == StillTrying ==> |weak| <= Trues(weak) + (state.head - old(state).head)
    {
      hide Valid, Inv, Step, DeedsOf, Put, NoFreeSlot, Run, StateAt, PcOf;
      Begin(me, CallEnqueue(v));
      Interfere(me);
      var headSeq: nat := LoadHead(me);
      ghost var first := headSeq;
      at, r := |past|, StillTrying;
      var n := 0;
      while n < |weak| && r == StillTrying
        invariant n <= |weak| && Valid() && Onward()
        invariant DeedsOf(state, me) == if r == Returned(true) then Put(old(DeedsOf(state, me)), v)
                                        else old(DeedsOf(state, me))
        invariant r == StillTrying ==> PcOf(state, me) == EnqRead(v, headSeq)
        invariant r == StillTrying ==> old(state).head <= first <= headSeq <= state.head
        invariant r == StillTrying ==> n <= Trues(weak[..n]) + (headSeq - first)
        invariant r.Returned? ==> PcOf(state, me) == EnqDone(r.ok)
        invariant r == Returned(false) ==> Passed(at) && NoFreeSlot(StateAt(at))
        decreases |weak| - n
      {
        TruesNext(weak, n);
        r, headSeq, at := TryEnqueue(me, v, headSeq, weak[n]);
        n := n + 1;
      }
      assert weak[..|weak|] == weak;
    }

    /** One turn of the retry loop of Enqueue. It is repeated only if its
        exchange is weak or its ticket has gone to another thread. */
    method TryEnqueue(ghost me: Tid, v: T, headSeq: nat, weak: bool) returns (r: Outcome, next: nat, ghost at: nat)
      requires Valid() && PcOf(state, me) == EnqRead(v, headSeq)
      modifies this, stamps, cells
      ensures Valid() && Onward()
      ensures DeedsOf(state, me) == if r == Returned(true) then Put(old(DeedsOf(state, me)), v)
                                    else old(DeedsOf(state, me))
      ensures r.Returned? ==> PcOf(state, me) == EnqDone(r.ok)
      ensures r == StillTrying ==> PcOf(state, me) == EnqRead(v, next)
      ensures r == StillTrying ==> headSeq <= next <= state.head && (weak || headSeq < next)
      ensures r == Returned(false) ==> Passed(at) && NoFreeSlot(StateAt(at))
    {
      hide Valid, Inv, Step, Mine, Won, NoFreeSlot, NothingPublished, Run;
      next := headSeq;
      Interfere(me);
      at := |past|;
      Here();
      label loading:
      var nodeSeq := LoadStampToWrite(me, headSeq);
      var dif := nodeSeq - headSeq;
      if dif == 0 {
        var won;
        won, next := ClaimAndProduce(me, v, headSeq, weak);
        r := if won then Returned(true) else StillTrying;
      } else if dif < 0 {
        StaysPassed@loading(at);
        r := Returned(false);
      } else {
        next := ReloadHead(me);
        r := StillTrying;
      }
    }

    method BeginDequeue(ghost me: Tid) returns (t: nat)
      requires Valid() && PcOf(state, me) == Idle
      modifies this, stamps, cells
      ensures Valid() && Onward() && old(state).tail <= t <= state.tail
      ensures PcOf(state, me) == DeqRead(t) && DeedsOf(state, me) == old(DeedsOf(state, me))
    {
      hide Valid, Inv, Step, DeedsOf, Run, StateAt;
      Begin(me, CallDequeue);
      Interfere(me);
      t := LoadTail(me);
    }

    /** A successful dequeue returns the value logged under a ticket that the
        caller claimed and that nobody had read before; a failure is witnessed
        by a state of the run during the call in which the real tail was
        unclaimed or unpublished; the turns are as in Enqueue. */
    method Dequeue(ghost me: Tid, weak: seq<bool>, initial: T)
        returns (r: Outcome, x: T, ghost ticket: nat, ghost at: nat)
      requires Valid() && PcOf(state, me) == Idle
      modifies this, stamps, cells
      ensures Valid() && Onward()
      ensures DeedsOf(state, me) == if r == Returned(true) then Take(old(DeedsOf(state, me)))
                                    else old(DeedsOf(state, me))
      ensures r == Returned(true) ==>
                && PcOf(state, me) == DeqGot(x)
                && old(state).tail <= ticket && Delivered(state, me, ticket, x) && ticket !in old(state).got
      ensures r != Returned(true) ==> x == initial
      ensures r == Returned(false) ==> PcOf(state, me) == DeqEmpty && Passed(at) && NothingPublished(StateAt(at))
      ensures r == StillTrying ==> |weak| <= Trues(weak) + (state.tail - old(state).tail)
    {
      hide Valid, Inv, Step, DeedsOf, Take, NothingPublished, Run, StateAt, PcOf, Delivered, Later;
      var tailSeq: nat := BeginDequeue(me);
      ghost var first := tailSeq;
      x, ticket, at, r := initial, tailSeq, |past|, StillTrying;
      var n := 0;
      while n < |weak| && r == StillTrying
        invariant n <= |weak| && Valid() && Onward()
        invariant DeedsOf(state, me) == if r == Returned(true) then Take(old(DeedsOf(state, me)))
                                        else old(DeedsOf(state, me))
        invariant r == StillTrying ==> PcOf(state, me) == DeqRead(tailSeq)
        invariant r == StillTrying ==> old(state).tail <= first <= tailSeq <= state.tail
        invariant r == StillTrying ==> n <= Trues(weak[..n]) + (tailSeq - first)
        invariant r == Returned(true) ==>
                    && PcOf(state, me) == DeqGot(x)
                    && old(state).tail <= ticket && Delivered(state, me, ticket, x) && ticket !in old(state).got
        invariant r != Returned(true) ==> x == initial
        invariant r == Returned(false) ==> PcOf(state, me) == DeqEmpty && Passed(at) && NothingPublished(StateAt(at))
        decreases |weak| - n
      {
        ticket := tailSeq;
        TruesNext(weak, n);
        ghost var before := state;
        r, x, tailSeq, at := TryDequeue(me, tailSeq, initial, weak[n]);
        LaterTrans(old(state), before, state);
        if r == Returned(true) { UnreadEarlier(old(state), before, ticket); }
        n := n + 1;
      }
      assert weak[..|weak|] == weak;
    }

    /** One turn of the retry loop of Dequeue. */
    method TryDequeue(ghost me: Tid, tailSeq: nat, initial: T, weak: bool)
        returns (r: Outcome, x: T, next: nat, ghost at: nat)
      requires Valid() && PcOf(state, me) == DeqRead(tailSeq)
      modifies this, stamps, cells
      ensures Valid() && Onward()
      ensures DeedsOf(state, me) == if r == Returned(true) then Take(old(DeedsOf(state, me)))
                                    else old(DeedsOf(state, me))
      ensures r == Returned(true) ==>
                PcOf(state, me) == DeqGot(x) && Delivered(state, me, tailSeq, x) && tailSeq !in old(state).got
      ensures r != Returned(true) ==> x == initial
      ensures r == StillTrying ==> PcOf(state, me) == DeqRead(next)
      ensures r == StillTrying ==> tailSeq <= next <= state.tail && (weak || tailSeq < next)
      ensures r == Returned(false) ==> PcOf(state, me) == DeqEmpty && Passed(at) && NothingPublished(StateAt(at))
    {
      hide Valid, Inv, Step, Mine, Won, NoFreeSlot, NothingPublished, Run;
      x, next := initial, tailSeq;
      Interfere(me);
      at := |past|;
      Here();
      label loading:
      var nodeSeq := LoadStampToRead(me, tailSeq);
      var dif := nodeSeq - (tailSeq + 1);
      if dif == 0 {
        var won;
        won, x, next := ClaimAndConsume(me, tailSeq, initial, weak);
        r := if won then Returned(true) else StillTrying;
      } else if dif < 0 {
        StaysPassed@loading(at);
        r := Returned(false);
      } else {
        next := ReloadTail(me);
        r := StillTrying;
      }
    }

    method ReloadHead(ghost me: Tid) returns (h: nat)
      requires Valid() && PcOf(state, me).EnqLoad?
      modifies this, stamps, cells
      ensures Valid() && Onward() && old(state).head <= h <= state.head
      ensures DeedsOf(state, me) == old(DeedsOf(state, me))
      ensures PcOf(state, me) == EnqRead(old(PcOf(state, me)).v, h)
    {
      hide Valid, Inv, Step, Mine, Won;
      Interfere(me);
      h := LoadHead(me);
    }

    method ReloadTail(ghost me: Tid) returns (t: nat)
      requires Valid() && PcOf(state, me).DeqLoad?
      modifies this, stamps, cells
      ensures Valid() && Onward() && old(state).tail <= t <= state.tail
      ensures DeedsOf(state, me) == old(DeedsOf(state, me))
      ensures PcOf(state, me) == DeqRead(t)
    {
      hide Valid, Inv, Step, Mine, Won;
      Interfere(me);
      t := LoadTail(me);
    }

    /** The exchange on the head and, if it wins, all that follows it. */
    method ClaimAndProduce(ghost me: Tid, v: T, h: nat, weak: bool) returns (won: bool, next: nat)
      requires Valid() && PcOf(state, me) == EnqCas(v, h)
      modifies this, stamps, cells
      ensures Valid() && Onward()
      ensures DeedsOf(state, me) == if won then Put(old(DeedsOf(state, me)), v) else old(DeedsOf(state, me))
      ensures PcOf(state, me) == if won then EnqDone(true) else EnqRead(v, next)
      ensures !won ==> h <= next <= state.head && (weak || h < next)
    {
      hide Valid, Inv, Step, Mine, Won;
      Interfere(me);
      won, next := ExchangeHead(me, h, weak);
      if won { Produce(me, h, v); }
    }

    /** The exchange on the tail and, if it wins, all that follows it. */
    method ClaimAndConsume(ghost me: Tid, t: nat, initial: T, weak: bool) returns (won: bool, x: T, next: nat)
      requires Valid() && PcOf(state, me) == DeqCas(t)
      modifies this, stamps, cells
      ensures Valid() && Onward()
      ensures DeedsOf(state, me) == if won then Take(old(DeedsOf(state, me))) else old(DeedsOf(state, me))
      ensures won ==> PcOf(state, me) == DeqGot(x) && Delivered(state, me, t, x) && t !in old(state).got
      ensures !won ==> PcOf(state, me) == DeqRead(next) && x == initial
      ensures !won ==> t <= next <= state.tail && (weak || t < next)
    {
      hide Valid, Inv, Step, Mine, Won;
      Interfere(me);
      x := initial;
      won, next := ExchangeTail(me, t, weak);
      if won { x := Consume(me, t); }
    }

    /** The winner of an enqueue ticket writes the cell and publishes it. */
    method Produce(ghost me: Tid, ticket: nat, v: T)
      requires Valid() && PcOf(state, me) == EnqWrite(v, ticket)
      modifies this, stamps, cells
      ensures Valid() && Onward() && PcOf(state, me) == EnqDone(true)
      ensures DeedsOf(state, me) == old(DeedsOf(state, me))
    {
      hide Valid, Inv, Step, Mine, Won;
      Interfere(me);
      StoreData(me, ticket, v);
      Interfere(me);
      StoreStamp(me, ticket, ticket + 1);
    }

    /** The winner of a dequeue ticket reads the cell and hands the slot to the
        next lap. */
    method Consume(ghost me: Tid, ticket: nat) returns (x: T)
      requires Valid() && PcOf(state, me) == DeqTake(ticket)
      modifies this, stamps, cells
      ensures Valid() && Onward() && PcOf(state, me) == DeqGot(x)
      ensures DeedsOf(state, me) == old(DeedsOf(state, me))
      ensures Delivered(state, me, ticket, x) && ticket !in old(state).got
    {
      hide Inv, Step, Mine, Won, Reached, Mirrors;
      Interfere(me);
      x := LoadData(me, ticket);
      ghost var loaded := state;
      Interfere(me);
      StoreStamp(me, ticket, ticket + size);
      StaysDelivered(loaded, state, me, ticket, x);
    }
  }
}
