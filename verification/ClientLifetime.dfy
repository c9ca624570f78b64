/** When a client may be freed: the threads that complete and answer requests
    still follow the pointer from a request to its client, and its poll thread
    may still have a command to acknowledge. */
module ClientLifetime {
  import opened Lifecycle

  /** The step reads or writes the client's memory: a poll thread acknowledges
      its command, a completion thread looks up its queue, a reply thread writes
      to it. */
  predicate Touches(s: State, a: Action, c: Client) {
    match a
    case Acknowledge(p) => Owes(s, p) && s.births[s.owing[p]].client == c
    case EndReq(r) =>
      && r in s.requests && r in s.place && s.place[r] == Ending
      && s.requests[r].typ != 1 && s.requests[r].client == c
    case Answer(q) =>
      && q < |s.queues| && s.queues[q].handler.Holding? && s.queues[q].handler.r in s.requests
      && s.requests[s.queues[q].handler.r].client == c
    case _ => false
  }

  /** Some step of the run touches the client. */
  predicate TouchedIn(s: State, actions: seq<Action>, c: Client)
    requires s.queues != []
    decreases |actions|
  {
    if actions == [] then false
    else
      StepShape(s, actions[0]);
      Touches(s, actions[0], c) || TouchedIn(Step(s, actions[0]), actions[1..], c)
  }

  /** No command of this client: its connection is closed. */
  predicate Silent(actions: seq<Action>, c: Client) {
    forall i :: 0 <= i < |actions| && actions[i].Exec? ==> actions[i].client != c
  }

  /** A request of the client is under way that will be answered. */
  predicate Awaited(s: State, c: Client) {
    exists r :: r in s.requests && s.requests[r].client == c && TypeOf(s.requests[r].kind) != 1
  }

  /** A command of the client is to be acknowledged. */
  predicate Unacknowledged(s: State, c: Client) {
    exists p :: p in s.owing && Owes(s, p) && s.births[s.owing[p]].client == c
  }

  predicate Needed(s: State, c: Client) {
    Awaited(s, c) || Unacknowledged(s, c)
  }

  // ---- Without such a request or command nothing touches the client ----

  lemma StaysUnneeded(s: State, a: Action, c: Client)
    requires Inv(s) && !Needed(s, c) && (a.Exec? ==> a.client != c)
    ensures !Needed(Step(s, a), c)
  {
    StaysUnawaited(s, a, c);
    StaysAcknowledged(s, a, c);
  }

  lemma StaysUnawaited(s: State, a: Action, c: Client)
    requires Inv(s) && !Awaited(s, c) && (a.Exec? ==> a.client != c)
    ensures !Awaited(Step(s, a), c)
  {
    hide Places, History, ReplyFor, Fresh, MayLeave, AckBytes;
    var s' := Step(s, a);
    forall r | r in s'.requests && s'.requests[r].client == c ensures TypeOf(s'.requests[r].kind) == 1 {
      assert r in s.requests && s.requests[r].client == c && s.requests[r].kind == s'.requests[r].kind;
    }
  }

  lemma StaysAcknowledged(s: State, a: Action, c: Client)
    requires Inv(s) && !Unacknowledged(s, c) && (a.Exec? ==> a.client != c)
    ensures !Unacknowledged(Step(s, a), c)
  {
    hide Places, History, Step;
    OwingOwes(s);
    var s' := Step(s, a);
    forall p | p in s'.owing && Owes(s', p) ensures s'.births[s'.owing[p]].client != c {
      OwedLater(s, a, p);
    }
  }

  lemma OwingOwes(s: State)
    requires Inv(s)
    ensures forall p :: p in s.owing ==> Owes(s, p)
  {
  }

  lemma OwedLater(s: State, a: Action, p: nat)
    requires s.queues != [] && (forall p :: p in s.owing ==> Owes(s, p)) && Owes(Step(s, a), p)
    ensures var s' := Step(s, a);
            || (Owes(s, p) && s'.births[s'.owing[p]].client == s.births[s.owing[p]].client)
            || (a.Exec? && s'.births[s'.owing[p]].client == a.client)
  {
    hide ReplyFor, Fresh, MayLeave, AckBytes;
  }

  lemma UntouchedNow(s: State, a: Action, c: Client)
    requires Inv(s) && !Needed(s, c)
    ensures !Touches(s, a, c)
  {
    hide Places, History;
    match a
    case EndReq(r) => if Touches(s, a, c) { RequestOf(s, r); }
    case Answer(q) =>
      if Touches(s, a, c) {
        HeldByHandler(s, q, s.queues[q].handler.r);
        RequestOf(s, s.queues[q].handler.r);
      }
    case _ =>
  }

  lemma {:induction false} Untouched(s: State, actions: seq<Action>, c: Client)
    requires Inv(s) && !Needed(s, c) && Silent(actions, c)
    ensures !TouchedIn(s, actions, c)
    decreases |actions|
  {
    hide Needed, Touches, Step, Places, History;
    if actions != [] {
      UntouchedNow(s, actions[0], c);
      StepInv(s, actions[0]);
      StaysUnneeded(s, actions[0], c);
      Untouched(Step(s, actions[0]), actions[1..], c);
    }
  }

  // ---- With one, some run does ----

  /** A touch that a first step leads up to. */
  lemma TouchLater(s: State, a: Action, actions: seq<Action>, c: Client)
    requires s.queues != [] && Step(s, a).queues != [] && TouchedIn(Step(s, a), actions, c)
    requires !a.Exec? && Silent(actions, c)
    ensures TouchedIn(s, [a] + actions, c) && Silent([a] + actions, c)
  {
    hide Touches, Step;
    assert ([a] + actions)[1..] == actions;
  }

  lemma TouchNow(s: State, a: Action, c: Client)
    requires s.queues != [] && Touches(s, a, c)
    ensures TouchedIn(s, [a], c) && Silent([a], c)
  {
  }

  /** The reply thread works through what is ahead of the request. */
  lemma {:induction false} QueuedIsTouched(s: State, r: Ref, q: nat, i: nat, c: Client) returns (actions: seq<Action>)
    requires Inv(s) && q < |s.queues| && i < |s.queues[q].items| && s.queues[q].items[i] == r
    requires r in s.requests && s.requests[r].client == c
    ensures TouchedIn(s, actions, c) && Silent(actions, c)
    decreases 2 * i + if s.queues[q].handler.Holding? then 1 else 0
  {
    hide Places, History, ReplyFor, TouchedIn, Silent;
    if s.queues[q].handler.Holding? {
      var x := s.queues[q].handler.r;
      HeldByHandler(s, q, x);
      ItemPlaced(s, q, i);
      var s' := Step(s, Answer(q));
      StepInv(s, Answer(q));
      assert s' == Answered(s, q, x) && s.requests[x].typ != 1;
      actions := QueuedIsTouched(s', r, q, i, c);
      TouchLater(s, Answer(q), actions, c);
      actions := [Answer(q)] + actions;
    } else {
      var s' := Step(s, Dequeue(q));
      StepInv(s, Dequeue(q));
      assert s' == Dequeued(s, q);
      if i == 0 {
        TouchNow(s', Answer(q), c);
        actions := [Answer(q)];
      } else {
        actions := QueuedIsTouched(s', r, q, i - 1, c);
      }
      TouchLater(s, Dequeue(q), actions, c);
      actions := [Dequeue(q)] + actions;
    }
  }

  lemma ItemPlaced(s: State, q: nat, i: nat)
    requires Inv(s) && q < |s.queues| && i < |s.queues[q].items|
    ensures var r := s.queues[q].items[i]; r in s.place && s.place[r] == Queued(q)
  {
    assert QueueOk(s, q);
  }

  lemma {:induction false} AwaitedIsTouched(s: State, r: Ref, c: Client) returns (actions: seq<Action>)
    requires Inv(s) && r in s.requests && s.requests[r].client == c && TypeOf(s.requests[r].kind) != 1
    ensures TouchedIn(s, actions, c) && Silent(actions, c)
  {
    hide History, Places, ReplyFor, TouchedIn, Silent;
    RequestOf(s, r);
    Whereabouts(s, r);
    match s.place[r]
    case Engine =>
      var a := Complete(r, s.requests[r].typ);
      var s' := Step(s, a);
      assert s' == Completed(s, r, s.requests[r].typ) by { StillTyped(s, r); }
      TouchNow(s', EndReq(r), c);
      actions := [EndReq(r)];
      TouchLater(s, a, actions, c);
      actions := [a] + actions;
    case Ending =>
      TouchNow(s, EndReq(r), c);
      actions := [EndReq(r)];
    case Queued(q) =>
      var i :| 0 <= i < |s.queues[q].items| && s.queues[q].items[i] == r;
      actions := QueuedIsTouched(s, r, q, i, c);
    case Held(q) =>
      TouchNow(s, Answer(q), c);
      actions := [Answer(q)];
  }

  lemma Whereabouts(s: State, r: Ref)
    requires Inv(s) && r in s.requests
    ensures r in s.place
    ensures s.place[r].Queued? ==> s.place[r].q < |s.queues| && r in s.queues[s.place[r].q].items
    ensures s.place[r].Held? ==> s.place[r].q < |s.queues| && s.queues[s.place[r].q].handler == Holding(r)
  {
    RequestOf(s, r);
    assert PlaceOk(s, r);
  }

  /** With the engine a request still has the type of its command. */
  lemma StillTyped(s: State, r: Ref)
    requires Inv(s) && r in s.requests && r in s.place && s.place[r] == Engine
    ensures s.requests[r].typ == TypeOf(s.requests[r].kind)
    ensures s.requests[r].typ != 1 ==> MayLeave(s.requests[r].typ, s.requests[r].typ)
  {
    RequestOf(s, r);
  }

  /** A client may be freed, with no command of it to come, exactly if no request
      of it is under way but SETs and no command of it is to be acknowledged: only
      then does no continuation ever touch it. */
  lemma {:induction false} ClosingSafeExactly(s: State, c: Client)
    requires Inv(s)
    ensures (forall actions :: Silent(actions, c) ==> !TouchedIn(s, actions, c)) <==> !Needed(s, c)
  {
    hide Places, History, Silent, TouchedIn;
    if Awaited(s, c) {
      var r :| r in s.requests && s.requests[r].client == c && TypeOf(s.requests[r].kind) != 1;
      var actions := AwaitedIsTouched(s, r, c);
    } else if Unacknowledged(s, c) {
      var p :| Owes(s, p) && s.births[s.owing[p]].client == c;
      TouchNow(s, Acknowledge(p), c);
    } else {
      forall actions | Silent(actions, c) ensures !TouchedIn(s, actions, c) {
        Untouched(s, actions, c);
      }
    }
  }

  /** A client that asks for a key and leaves at once is touched after it has
      been freed. */
  lemma {:induction false} LeavingBehindGet(s0: State, p: nat, r: Ref, c: Client, digits: int, tag: int)
    requires Init(s0) && tag in s0.getTags
    ensures var get := Exec(p, r, Get, c, digits, [], tag);
            Run(s0, [get]).queues != [] &&
            exists actions :: Silent(actions, c) && TouchedIn(Run(s0, [get]), actions, c)
  {
    hide Silent, TouchedIn, Places, History;
    var get := Exec(p, r, Get, c, digits, [], tag);
    InitInv(s0);
    StepInv(s0, get);
    var s := Step(s0, get);
    assert s == Created(s0, p, r, Get, c, digits, [], tag);
    assert [get][1..] == [] && Run(s0, [get]) == s;
    var actions := AwaitedIsTouched(s, r, c);
  }

  // ---- Runs with closings ----

  datatype Event = Act(a: Action) | Close(c: Client)

  function After(s: State, e: Event): (s': State)
    requires s.queues != []
    ensures s'.queues != []
  {
    match e
    case Act(a) => StepShape(s, a); Step(s, a)
    case Close(_) => s
  }

  function Closed(closed: set<Client>, e: Event): set<Client> {
    if e.Close? then closed + {e.c} else closed
  }

  /** Commands come from open clients, and a client is closed only when none of
      its requests will be answered and none of its commands acknowledged any
      more. A new connection is a new client, whatever its descriptor. */
  predicate Careful(s: State, closed: set<Client>, events: seq<Event>)
    requires s.queues != []
    decreases |events|
  {
    if events == [] then true
    else
      && (match events[0]
          case Act(a) => a.Exec? ==> a.client !in closed
          case Close(c) => !Needed(s, c))
      && Careful(After(s, events[0]), Closed(closed, events[0]), events[1..])
  }

  /** No step of the run touches a client closed before it. */
  ghost predicate OnlyOpenTouched(s: State, closed: set<Client>, events: seq<Event>)
    requires s.queues != []
    decreases |events|
  {
    if events == [] then true
    else
      && (events[0].Act? ==> forall c :: c in closed ==> !Touches(s, events[0].a, c))
      && OnlyOpenTouched(After(s, events[0]), Closed(closed, events[0]), events[1..])
  }

  /** Closed with care, every look-up and every reply is for an open client. */
  lemma {:induction false} RepliesGoToOpenClients(s: State, closed: set<Client>, events: seq<Event>)
    requires Inv(s) && (forall c :: c in closed ==> !Needed(s, c)) && Careful(s, closed, events)
    ensures OnlyOpenTouched(s, closed, events)
    decreases |events|
  {
    hide Needed, Touches, Step, Places, History;
    if events != [] {
      match events[0]
      case Act(a) =>
        forall c | c in closed ensures !Touches(s, a, c) && !Needed(Step(s, a), c) {
          UntouchedNow(s, a, c);
          StaysUnneeded(s, a, c);
        }
        StepInv(s, a);
        RepliesGoToOpenClients(Step(s, a), closed, events[1..]);
      case Close(c) => RepliesGoToOpenClients(s, closed + {c}, events[1..]);
    }
  }
}
