/** Requests from their allocation to their free: poll threads create them, hand
    them to the storage engine and only then acknowledge them, the engine
    completes them, completion threads queue them, and one reply thread per queue
    answers and frees them. Every step is one hand-over of a request from one
    thread to the next, or an acknowledgement. */
module Lifecycle {
  import opened Bytes
  import opened Resp
  import MachineWords

  type Ref = nat

  const QUEUE_ROOM := 4096
  const OK_REPLY: Bytes := Ascii("+OK\r\n")
  const KO_REPLY: Bytes := Ascii("+KO\r\n")
  const NIL_REPLY: Bytes := Ascii("$-1\r\n")

  /** What a GET is answered with. */
  function Page(): Bytes {
    seq(8192, _ => 0)
  }

  /** A connection. A descriptor is used again once it is closed; `number` tells
      the connections apart and is not in the source. */
  datatype Client = Client(fd: int, whichQueue: nat, number: nat)

  /** The commands that make a request. */
  datatype Kind = Get | Set | Upt | Del

  function TypeOf(k: Kind): int {
    match k case Get => 2 case Set => 1 case Upt => 1 case Del => 3
  }

  /** What the command itself writes, whether the engine is done or not; a GET
      writes nothing. */
  function AckBytes(k: Kind): Bytes
    requires k != Get
  {
    if k == Set then OK_REPLY else KO_REPLY
  }

  /** A request; `id` and `kind` remember its birth and are not in the source. */
  datatype Request = Request(id: nat, kind: Kind, client: Client, typ: int, key: nat, tag: int, value: Bytes)

  /** Which thread the pointer to a request is with. */
  datatype Place = Engine | Ending | Queued(q: nat) | Held(q: nat)

  datatype Handler = Idle | Holding(r: Ref)

  /** A queue and its reply thread; `passed` and `done` record the ids that ever
      went in and that were answered. */
  datatype Queue = Queue(items: seq<Ref>, handler: Handler, passed: seq<nat>, done: seq<nat>)

  datatype Birth = Birth(kind: Kind, client: Client, tag: int)
  datatype Release = Release(id: nat, pool: int, tag: int)
  datatype Reply = Reply(id: nat, client: Client, bytes: Bytes)

  /** Memory, hand-overs, queues, the poll threads that still have to write an
      acknowledgement and for which id, and the two pools of DMA tags; then the
      history: births by id, the type the engine left, tags returned, replies
      written. */
  datatype State = State(
    requests: map<Ref, Request>, place: map<Ref, Place>, queues: seq<Queue>, owing: map<nat, nat>,
    setTags: set<int>, getTags: set<int>,
    births: seq<Birth>, left: map<nat, int>, released: seq<Release>, replies: seq<Reply>)

  datatype Action =
    | Exec(p: nat, r: Ref, kind: Kind, client: Client, digits: int, value: Bytes, tag: int)
    | Acknowledge(p: nat)
    | Complete(r: Ref, t: int)
    | EndReq(r: Ref)
    | Dequeue(q: nat)
    | Answer(q: nat)

  // ---- Steps ----

  /** The engine may turn a GET into "not found": any type but 1 and 2. */
  predicate MayLeave(typ: int, t: int) {
    if typ == 2 then t != 1 && -128 <= t < 128 else t == typ
  }

  function QueueOf(s: State, c: Client): (q: nat)
    requires s.queues != []
    ensures q < |s.queues|
  {
    c.whichQueue % |s.queues|
  }

  /** The poll thread has nothing left to write. The allocators answer with an
      address that is not in use and a tag that is free; a DEL takes no tag and
      keeps the zero it was born with. */
  predicate Fresh(s: State, p: nat, r: Ref, kind: Kind, tag: int) {
    && p !in s.owing && r !in s.requests
    && (match kind
        case Get => tag in s.getTags
        case Del => tag == 0
        case _ => tag in s.setTags)
  }

  /** A request is made and handed to the engine. */
  function Created(s: State, p: nat, r: Ref, kind: Kind, client: Client, digits: int, value: Bytes, tag: int): State {
    var id := |s.births|;
    var req := Request(id, kind, client, TypeOf(kind), (digits + 1) % MachineWords.WORD, tag, value);
    s.(requests := s.requests[r := req], place := s.place[r := Engine],
       setTags := if TypeOf(kind) == 1 then s.setTags - {tag} else s.setTags,
       getTags := if kind == Get then s.getTags - {tag} else s.getTags,
       owing := if kind == Get then s.owing else s.owing[p := id],
       births := s.births + [Birth(kind, client, tag)])
  }

  /** A poll thread owes only what has been born, and nothing for a GET. */
  predicate Owes(s: State, p: nat) {
    p in s.owing && s.owing[p] < |s.births| && s.births[s.owing[p]].kind != Get
  }

  /** The poll thread writes the reply of the command itself. */
  function Acknowledged(s: State, p: nat): State
    requires Owes(s, p)
  {
    var id := s.owing[p];
    s.(owing := s.owing - {p},
       replies := s.replies + [Reply(id, s.births[id].client, AckBytes(s.births[id].kind))])
  }

  function Completed(s: State, r: Ref, t: int): State
    requires r in s.requests
  {
    s.(requests := s.requests[r := s.requests[r].(typ := t)], place := s.place[r := Ending],
       left := s.left[s.requests[r].id := t])
  }

  /** The type decides the pool the tag goes to; whatever is not 1 is first made 2. */
  function Freed(s: State, r: Ref): State
    requires r in s.requests
  {
    var req := s.requests[r];
    var pool := if req.typ != 1 then 2 else 1;
    s.(requests := s.requests - {r}, place := s.place - {r},
       setTags := if pool == 1 then s.setTags + {req.tag} else s.setTags,
       getTags := if pool == 2 then s.getTags + {req.tag} else s.getTags,
       released := s.released + [Release(req.id, pool, req.tag)])
  }

  function Enqueued(s: State, r: Ref): State
    requires r in s.requests && s.queues != []
  {
    var q := QueueOf(s, s.requests[r].client);
    var queue := s.queues[q];
    s.(place := s.place[r := Queued(q)],
       queues := s.queues[q := queue.(items := queue.items + [r], passed := queue.passed + [s.requests[r].id])])
  }

  function Dequeued(s: State, q: nat): State
    requires q < |s.queues| && s.queues[q].items != []
  {
    var queue := s.queues[q];
    s.(place := s.place[queue.items[0] := Held(q)],
       queues := s.queues[q := queue.(items := queue.items[1..], handler := Holding(queue.items[0]))])
  }

  /** The reply for a type. The value itself is not sent, but a page of zeros. */
  function ReplyFor(typ: int): Bytes {
    if typ == 2 then BulkBytes(Page()) else if typ == 1 then OK_REPLY else NIL_REPLY
  }

  function Answered(s: State, q: nat, r: Ref): State
    requires q < |s.queues| && r in s.requests
  {
    var req := s.requests[r];
    var told := s.(replies := s.replies + [Reply(req.id, req.client, ReplyFor(req.typ))],
                   queues := s.queues[q := s.queues[q].(handler := Idle, done := s.queues[q].done + [req.id])]);
    if req.typ == 1 then told.(place := told.place - {r}) else Freed(told, r)
  }

  /** A step that cannot be taken waits: an allocator without tags, a poll thread
      with or without something to write, an engine without the request, a full
      or an empty queue, an idle thread. */
  function Step(s: State, a: Action): State
    requires s.queues != []
  {
    match a
    case Exec(p, r, kind, client, digits, value, tag) =>
      if Fresh(s, p, r, kind, tag) then Created(s, p, r, kind, client, digits, value, tag) else s
    case Acknowledge(p) => if Owes(s, p) then Acknowledged(s, p) else s
    case Complete(r, t) =>
      if r in s.requests && r in s.place && s.place[r] == Engine && MayLeave(s.requests[r].typ, t)
      then Completed(s, r, t) else s
    case EndReq(r) =>
      if r !in s.requests || r !in s.place || s.place[r] != Ending then s
      else if s.requests[r].typ == 1 then Freed(s, r)
      else if |s.queues[QueueOf(s, s.requests[r].client)].items| < QUEUE_ROOM then Enqueued(s, r)
      else s
    case Dequeue(q) =>
      if q < |s.queues| && s.queues[q].handler == Idle && s.queues[q].items != [] then Dequeued(s, q) else s
    case Answer(q) =>
      if q < |s.queues| && s.queues[q].handler.Holding? && s.queues[q].handler.r in s.requests
      then Answered(s, q, s.queues[q].handler.r) else s
  }

  lemma StepShape(s: State, a: Action)
    requires s.queues != []
    ensures |Step(s, a).queues| == |s.queues|
  {
  }

  function Run(s: State, actions: seq<Action>): State
    requires s.queues != []
    decreases |actions|
  {
    if actions == [] then s
    else
      StepShape(s, actions[0]);
      Run(Step(s, actions[0]), actions[1..])
  }

  predicate Init(s: State) {
    && s.queues != [] && (forall q :: 0 <= q < |s.queues| ==> s.queues[q] == Queue([], Idle, [], []))
    && s.requests == map[] && s.place == map[] && s.owing == map[]
    && s.births == [] && s.left == map[] && s.released == [] && s.replies == []
  }

  // ---- The invariant ----

  predicate LiveId(s: State, id: nat) {
    exists r :: r in s.requests && s.requests[r].id == id
  }

  /** A request agrees with its birth, and its type with what the engine left. */
  predicate RequestOk(s: State, r: Ref)
    requires r in s.requests
  {
    var req := s.requests[r];
    && req.id < |s.births| && s.births[req.id] == Birth(req.kind, req.client, req.tag)
    && r in s.place
    && (s.place[r] == Engine <==> req.id !in s.left)
    && req.typ == (if req.id in s.left then s.left[req.id] else TypeOf(req.kind))
    && (req.typ == 1 <==> TypeOf(req.kind) == 1)
    && (req.kind != Get ==> req.typ == TypeOf(req.kind))
  }

  /** Where the pointer is said to be, it is, and nowhere else. */
  predicate PlaceOk(s: State, r: Ref)
    requires r in s.place && s.queues != []
  {
    && r in s.requests
    && (s.place[r].Queued? || s.place[r].Held? ==>
          s.place[r].q == QueueOf(s, s.requests[r].client) && s.requests[r].typ != 1)
    && (s.place[r].Queued? ==> r in s.queues[s.place[r].q].items)
    && (s.place[r].Held? ==> s.queues[s.place[r].q].handler == Holding(r))
  }

  predicate QueueOk(s: State, q: nat)
    requires q < |s.queues|
  {
    var queue := s.queues[q];
    && |queue.items| <= QUEUE_ROOM
    && (forall i :: 0 <= i < |queue.items| ==>
          queue.items[i] in s.place && s.place[queue.items[i]] == Queued(q))
    && (forall i, j :: 0 <= i < j < |queue.items| ==> queue.items[i] != queue.items[j])
    && (queue.handler.Holding? ==> queue.handler.r in s.place && s.place[queue.handler.r] == Held(q))
  }

  /** Every request is with exactly one thread or queue. */
  predicate Places(s: State)
    requires s.queues != []
  {
    && (forall r :: r in s.requests ==> RequestOk(s, r))
    && (forall r :: r in s.place ==> PlaceOk(s, r))
    && (forall q :: 0 <= q < |s.queues| ==> QueueOk(s, q))
    && (forall r, t :: r in s.requests && t in s.requests && r != t ==> s.requests[r].id != s.requests[t].id)
  }

  /** How often the request with this id has been freed. */
  function Frees(released: seq<Release>, id: nat): nat {
    if released == [] then 0
    else Frees(released[..|released| - 1], id) + (if released[|released| - 1].id == id then 1 else 0)
  }

  /** The replies written for a request. */
  function RepliesTo(replies: seq<Reply>, id: nat): seq<Bytes> {
    if replies == [] then []
    else
      var last := replies[|replies| - 1];
      RepliesTo(replies[..|replies| - 1], id) + (if last.id == id then [last.bytes] else [])
  }

  /** The request is still to be acknowledged. */
  predicate Owed(s: State, id: nat) {
    exists p :: p in s.owing && s.owing[p] == id
  }

  /** The reply of the command itself, once it has been written. */
  function Acks(s: State, id: nat): seq<Bytes>
    requires id < |s.births|
  {
    if s.births[id].kind == Get || Owed(s, id) then [] else [AckBytes(s.births[id].kind)]
  }

  /** The reply of a reply thread: one with the free, but none for a SET. */
  function Answers(s: State, id: nat): seq<Bytes>
    requires LiveId(s, id) || id in s.left
  {
    if LiveId(s, id) || s.left[id] == 1 then [] else [ReplyFor(s.left[id])]
  }

  /** Freed once, or still there. */
  predicate FreeOk(s: State, id: nat)
    requires id < |s.births|
  {
    if LiveId(s, id) then Frees(s.released, id) == 0
    else
      && Frees(s.released, id) == 1 && id in s.left
      && (s.left[id] == 1 <==> TypeOf(s.births[id].kind) == 1)
      && (s.births[id].kind != Get ==> s.left[id] == TypeOf(s.births[id].kind))
  }

  /** The replies of both threads have been written, in either order. */
  predicate HistoryOk(s: State, id: nat)
    requires id < |s.births|
  {
    && FreeOk(s, id)
    && var written := RepliesTo(s.replies, id);
       written == Acks(s, id) + Answers(s, id) || written == Answers(s, id) + Acks(s, id)
  }

  predicate History(s: State) {
    && (forall id :: 0 <= id < |s.births| ==> HistoryOk(s, id))
    && (forall id :: id in s.left ==> id < |s.births|)
    && (forall p :: p in s.owing ==> Owes(s, p))
    && (forall p, q :: p in s.owing && q in s.owing && p != q ==> s.owing[p] != s.owing[q])
    && (forall i :: 0 <= i < |s.released| ==> s.released[i].id < |s.births| && ReleaseOk(s, s.released[i]))
    && (forall i :: 0 <= i < |s.replies| ==>
          s.replies[i].id < |s.births| && s.replies[i].client == s.births[s.replies[i].id].client)
  }

  /** The tag a request was born with, to the pool of its kind. */
  predicate ReleaseOk(s: State, ret: Release)
    requires ret.id < |s.births|
  {
    ret.tag == s.births[ret.id].tag && ret.pool == (if TypeOf(s.births[ret.id].kind) == 1 then 1 else 2)
  }

  ghost predicate Inv(s: State) {
    s.queues != [] && Places(s) && History(s)
  }

  // ---- Every step keeps it: places ----

  /** A request that a step leaves alone. */
  lemma RequestSame(s: State, s': State, u: Ref)
    requires u in s.requests && u in s'.requests && s'.requests[u] == s.requests[u] && RequestOk(s, u)
    requires u in s'.place && (s'.place[u] == Engine <==> s.place[u] == Engine) && s.births <= s'.births
    requires s.requests[u].id in s.left <==> s.requests[u].id in s'.left
    requires s.requests[u].id in s.left ==> s.left[s.requests[u].id] == s'.left[s.requests[u].id]
    ensures RequestOk(s', u)
  {
  }

  lemma CreatedPlaces(s: State, p: nat, r: Ref, kind: Kind, client: Client, digits: int, value: Bytes, tag: int)
    requires s.queues != [] && Places(s) && r !in s.requests
    requires forall id :: id in s.left ==> id < |s.births|
    ensures Places(Created(s, p, r, kind, client, digits, value, tag))
  {
    hide RequestOk, PlaceOk, QueueOk;
    var s' := Created(s, p, r, kind, client, digits, value, tag);
    if r in s.place { PlaceLive(s, r); }
    NewRequest(s, p, r, kind, client, digits, value, tag);
    forall t | t in s.requests ensures RequestOk(s', t) && s.requests[t].id < |s.births| {
      IdKnown(s, t);
      RequestSame(s, s', t);
    }
    forall t | t in s.place ensures PlaceOk(s', t) {
      PlaceLive(s, t);
      PlaceSame(s, s', t);
    }
    forall q | 0 <= q < |s'.queues| ensures QueueOk(s', q) {
      QueueSame(s, s', q);
    }
  }

  lemma NewRequest(s: State, p: nat, r: Ref, kind: Kind, client: Client, digits: int, value: Bytes, tag: int)
    requires s.queues != [] && forall id :: id in s.left ==> id < |s.births|
    ensures var s' := Created(s, p, r, kind, client, digits, value, tag);
            r in s'.requests && RequestOk(s', r) && r in s'.place && PlaceOk(s', r)
  {
    assert |s.births| !in s.left;
  }

  lemma PlaceLive(s: State, r: Ref)
    requires r in s.place && s.queues != [] && PlaceOk(s, r)
    ensures r in s.requests
  {
  }

  lemma IdKnown(s: State, r: Ref)
    requires r in s.requests && RequestOk(s, r)
    ensures r in s.place && s.requests[r].id < |s.births|
    ensures s.births[s.requests[r].id] == Birth(s.requests[r].kind, s.requests[r].client, s.requests[r].tag)
  {
  }

  lemma PlaceSame(s: State, s': State, u: Ref)
    requires s.queues != [] && s.queues == s'.queues && u in s.place && PlaceOk(s, u)
    requires u in s'.place && s'.place[u] == s.place[u]
    requires u in s'.requests && u in s.requests && s'.requests[u] == s.requests[u]
    ensures PlaceOk(s', u)
  {
  }

  lemma QueueSame(s: State, s': State, q: nat)
    requires q < |s.queues| && s.queues == s'.queues && QueueOk(s, q)
    requires forall u :: u in s.place && !s.place[u].Engine? && !s.place[u].Ending? ==>
               u in s'.place && s'.place[u] == s.place[u]
    ensures QueueOk(s', q)
  {
  }

  lemma CompletedPlaces(s: State, r: Ref, t: int)
    requires Inv(s) && r in s.requests && s.place[r] == Engine && MayLeave(s.requests[r].typ, t)
    ensures Places(Completed(s, r, t))
  {
    hide History, RequestOk, PlaceOk, QueueOk, MayLeave;
    var s' := Completed(s, r, t);
    IdKnown(s, r);
    CompletedRequest(s, r, t);
    forall u | u in s'.requests ensures RequestOk(s', u) {
      IdKnown(s, u);
      if u != r {
        IdOnce(s, r, u);
        RequestSame(s, s', u);
      }
    }
    forall u | u in s'.place ensures PlaceOk(s', u) {
      PlaceLive(s, u);
      if u != r { PlaceSame(s, s', u); }
    }
    forall q | 0 <= q < |s'.queues| ensures QueueOk(s', q) {
      QueueSame(s, s', q);
    }
  }

  lemma CompletedRequest(s: State, r: Ref, t: int)
    requires s.queues != [] && r in s.requests && r in s.place && RequestOk(s, r)
    requires s.place[r] == Engine && MayLeave(s.requests[r].typ, t)
    ensures RequestOk(Completed(s, r, t), r) && PlaceOk(Completed(s, r, t), r)
  {
  }

  /** Nobody but the thread that frees a request has its pointer. */
  lemma FreedPlaces(s: State, r: Ref)
    requires Inv(s) && r in s.requests && s.place[r] == Ending
    ensures Places(Freed(s, r))
  {
    hide History, RequestOk;
    var s' := Freed(s, r);
    forall u | u in s'.requests ensures RequestOk(s', u) {
      IdKnown(s, u);
      RequestSame(s, s', u);
    }
    forall u | u in s'.place ensures PlaceOk(s', u) {
      assert PlaceOk(s, u);
    }
    forall q | 0 <= q < |s'.queues| ensures QueueOk(s', q) {
      assert QueueOk(s, q);
    }
  }

  lemma {:induction false} EnqueuedPlaces(s: State, r: Ref)
    requires Inv(s) && r in s.requests && s.place[r] == Ending && s.requests[r].typ != 1
    requires |s.queues[QueueOf(s, s.requests[r].client)].items| < QUEUE_ROOM
    ensures Places(Enqueued(s, r))
  {
    hide History, RequestOk;
    var s' := Enqueued(s, r);
    IdKnown(s, r);
    forall u | u in s'.requests ensures RequestOk(s', u) {
      IdKnown(s, u);
      RequestSame(s, s', u);
    }
    forall u | u in s'.place ensures PlaceOk(s', u) {
      assert PlaceOk(s, u);
      if u == r { assert s'.queues[s'.place[r].q].items[|s.queues[s'.place[r].q].items|] == r; }
    }
    forall q | 0 <= q < |s'.queues| ensures QueueOk(s', q) {
      assert QueueOk(s, q);
    }
  }

  lemma DequeuedPlaces(s: State, q: nat)
    requires Inv(s) && q < |s.queues| && s.queues[q].handler == Idle && s.queues[q].items != []
    ensures Places(Dequeued(s, q))
  {
    hide History, RequestOk;
    var s' := Dequeued(s, q);
    var items := s.queues[q].items;
    assert QueueOk(s, q);
    assert s.place[items[0]] == Queued(q) && PlaceOk(s, items[0]);
    forall u | u in s'.requests ensures RequestOk(s', u) {
      IdKnown(s, u);
      RequestSame(s, s', u);
    }
    forall u | u in s'.place ensures PlaceOk(s', u) {
      assert PlaceOk(s, u);
      if s.place[u] == Queued(q) && u != items[0] {
        var i :| 0 <= i < |items| && items[i] == u;
        assert items[1..][i - 1] == u;
      }
    }
    forall p | 0 <= p < |s'.queues| ensures QueueOk(s', p) {
      assert QueueOk(s, p);
    }
  }

  lemma AnsweredPlaces(s: State, q: nat, r: Ref)
    requires Inv(s) && q < |s.queues| && s.queues[q].handler == Holding(r) && r in s.requests
    ensures Places(Answered(s, q, r))
  {
    hide History, RequestOk, ReplyFor;
    var s' := Answered(s, q, r);
    assert QueueOk(s, q) && PlaceOk(s, r);
    forall u | u in s'.requests ensures RequestOk(s', u) {
      IdKnown(s, u);
      RequestSame(s, s', u);
    }
    forall u | u in s'.place ensures PlaceOk(s', u) {
      assert PlaceOk(s, u);
    }
    forall p | 0 <= p < |s'.queues| ensures QueueOk(s', p) {
      assert QueueOk(s, p);
    }
  }

  // ---- Every step keeps it: the history ----

  lemma FreesAppend(released: seq<Release>, x: Release, id: nat)
    ensures Frees(released + [x], id) == Frees(released, id) + (if x.id == id then 1 else 0)
  {
    assert (released + [x])[..|released|] == released;
  }

  lemma RepliesAppend(replies: seq<Reply>, x: Reply, id: nat)
    ensures RepliesTo(replies + [x], id) == RepliesTo(replies, id) + (if x.id == id then [x.bytes] else [])
  {
    assert (replies + [x])[..|replies|] == replies;
  }

  /** Ids that have not been given out have no history. */
  lemma {:induction false} NoFrees(released: seq<Release>, id: nat)
    requires forall i :: 0 <= i < |released| ==> released[i].id != id
    ensures Frees(released, id) == 0
  {
    if released != [] {
      NoFrees(released[..|released| - 1], id);
    }
  }

  lemma {:induction false} NoReplies(replies: seq<Reply>, id: nat)
    requires forall i :: 0 <= i < |replies| ==> replies[i].id != id
    ensures RepliesTo(replies, id) == []
  {
    if replies != [] {
      NoReplies(replies[..|replies| - 1], id);
    }
  }

  lemma CreatedHistory(s: State, p: nat, r: Ref, kind: Kind, client: Client, digits: int, value: Bytes, tag: int)
    requires Inv(s) && r !in s.requests && p !in s.owing
    ensures History(Created(s, p, r, kind, client, digits, value, tag))
  {
    hide Places, HistoryOk, ReleaseOk, RequestOk, LiveId, Owed;
    var s' := Created(s, p, r, kind, client, digits, value, tag);
    var next := |s.births|;
    NewHistory(s, p, r, kind, client, digits, value, tag);
    forall id | 0 <= id < next ensures HistoryOk(s', id) {
      SameLive(s, s', id, r);
      SameOwed(s, s', id, p);
      HistorySame(s, s', id);
    }
    forall i | 0 <= i < |s.released| ensures ReleaseOk(s', s.released[i]) {
      ReleaseSame(s, s', s.released[i]);
    }
  }

  lemma NewHistory(s: State, p: nat, r: Ref, kind: Kind, client: Client, digits: int, value: Bytes, tag: int)
    requires History(s) && r !in s.requests
    ensures HistoryOk(Created(s, p, r, kind, client, digits, value, tag), |s.births|)
  {
    hide HistoryOk, LiveId, ReleaseOk, Owed;
    var next, s' := |s.births|, Created(s, p, r, kind, client, digits, value, tag);
    NoFrees(s.released, next);
    NoReplies(s.replies, next);
    if kind != Get { assert Owed(s', next) by { OwedNow(s', p); } }
    OpenHistory(s', r);
  }

  lemma OwedNow(s: State, p: nat)
    requires p in s.owing
    ensures Owed(s, s.owing[p])
  {
  }

  /** The other poll threads owe what they owed. */
  lemma SameOwed(s: State, s': State, id: nat, p: nat)
    requires forall t :: t != p ==> (t in s.owing <==> t in s'.owing)
    requires forall t :: t != p && t in s.owing ==> s.owing[t] == s'.owing[t]
    requires p in s.owing ==> s.owing[p] != id
    requires p in s'.owing ==> s'.owing[p] != id
    ensures Owed(s, id) <==> Owed(s', id)
  {
    if Owed(s, id) {
      var t :| t in s.owing && s.owing[t] == id;
      assert s'.owing[t] == id;
    }
  }

  /** A poll thread writes what it owes, before or after the free. */
  lemma AcknowledgedHistory(s: State, p: nat)
    requires Inv(s) && Owes(s, p)
    ensures History(Acknowledged(s, p))
  {
    hide Places, HistoryOk, ReleaseOk, RequestOk, LiveId, Owed, AckBytes;
    var s', mine := Acknowledged(s, p), s.owing[p];
    forall id | 0 <= id < |s'.births| ensures HistoryOk(s', id) {
      RepliesAppend(s.replies, s'.replies[|s.replies|], id);
      AsideLive(s, s', id);
      if id == mine {
        OwedNow(s, p);
        PaidOnce(s, p);
        PaidHistory(s, s', id);
      } else {
        assert RepliesTo(s.replies, id) + [] == RepliesTo(s.replies, id);
        SameOwed(s, s', id, p);
        HistorySame(s, s', id);
      }
    }
    forall i | 0 <= i < |s.released| ensures ReleaseOk(s', s.released[i]) {
      ReleaseSame(s, s', s.released[i]);
    }
    forall t | t in s'.owing ensures Owes(s', t) {
      assert Owes(s, t);
    }
  }

  lemma AsideLive(s: State, s': State, id: nat)
    requires s'.requests == s.requests
    ensures LiveId(s, id) <==> LiveId(s', id)
  {
  }

  lemma PaidOnce(s: State, p: nat)
    requires Inv(s) && Owes(s, p)
    ensures !Owed(Acknowledged(s, p), s.owing[p])
  {
    hide Places, HistoryOk, ReleaseOk, AckBytes;
  }

  lemma PaidHistory(s: State, s': State, id: nat)
    requires id < |s.births| && s'.births == s.births && s'.left == s.left && s'.released == s.released
    requires HistoryOk(s, id) && Owed(s, id) && !Owed(s', id) && s.births[id].kind != Get
    requires LiveId(s, id) <==> LiveId(s', id)
    requires RepliesTo(s'.replies, id) == RepliesTo(s.replies, id) + [AckBytes(s.births[id].kind)]
    ensures HistoryOk(s', id)
  {
    hide LiveId, Owed, AckBytes, ReplyFor;
    assert [] + Answers(s, id) == Answers(s, id) == Answers(s, id) + [];
  }

  /** The other requests are there before and after. */
  lemma SameLive(s: State, s': State, id: nat, r: Ref)
    requires forall t :: t != r ==> (t in s.requests <==> t in s'.requests)
    requires forall t :: t != r && t in s.requests ==> s.requests[t].id == s'.requests[t].id
    requires r in s.requests ==> s.requests[r].id != id
    requires r in s'.requests ==> s'.requests[r].id != id
    ensures LiveId(s, id) <==> LiveId(s', id)
  {
    if LiveId(s, id) {
      var t :| t in s.requests && s.requests[t].id == id;
      assert s'.requests[t].id == id;
    }
  }

  lemma CompletedHistory(s: State, r: Ref, t: int)
    requires Inv(s) && r in s.requests && s.place[r] == Engine && MayLeave(s.requests[r].typ, t)
    ensures History(Completed(s, r, t))
  {
    hide Places, HistoryOk, ReleaseOk, RequestOk, LiveId, Owed;
    var s' := Completed(s, r, t);
    RequestOf(s, r);
    forall id | 0 <= id < |s'.births| ensures HistoryOk(s', id) {
      if id == s.requests[r].id {
        LiveHistory(s, r);
        AsideOwed(s, s', id);
        OpenHistory(s', r);
      } else {
        SameLive(s, s', id, r);
        AsideOwed(s, s', id);
        HistorySame(s, s', id);
      }
    }
    forall i | 0 <= i < |s.released| ensures ReleaseOk(s', s.released[i]) {
      ReleaseSame(s, s', s.released[i]);
    }
  }

  lemma AsideOwed(s: State, s': State, id: nat)
    requires s'.owing == s.owing
    ensures Owed(s, id) <==> Owed(s', id)
  {
  }

  lemma OpenHistory(s: State, r: Ref)
    requires r in s.requests && s.requests[r].id < |s.births| && Frees(s.released, s.requests[r].id) == 0
    requires RepliesTo(s.replies, s.requests[r].id) == Acks(s, s.requests[r].id)
    ensures LiveId(s, s.requests[r].id) && HistoryOk(s, s.requests[r].id)
  {
    hide Acks;
    assert LiveId(s, s.requests[r].id);
  }

  /** The history of a request that a step leaves alone. */
  lemma HistorySame(s: State, s': State, id: nat)
    requires id < |s.births| <= |s'.births| && s'.births[id] == s.births[id] && HistoryOk(s, id)
    requires (LiveId(s, id) <==> LiveId(s', id)) && (Owed(s, id) <==> Owed(s', id))
    requires Frees(s.released, id) == Frees(s'.released, id) && RepliesTo(s.replies, id) == RepliesTo(s'.replies, id)
    requires id in s.left <==> id in s'.left
    requires id in s.left ==> s.left[id] == s'.left[id]
    ensures HistoryOk(s', id)
  {
    hide LiveId, Owed, AckBytes, ReplyFor;
  }

  lemma IdOnce(s: State, r: Ref, t: Ref)
    requires s.queues != [] && Places(s) && r in s.requests && t in s.requests && r != t
    ensures s.requests[r].id != s.requests[t].id
  {
  }

  /** A reply and a free make the history of the request complete. */
  lemma {:induction false} FreedHistory(s: State, told: State, r: Ref)
    requires Inv(s) && r in s.requests && s.requests[r].id in s.left
    requires told.requests == s.requests && told.births == s.births
    requires told.left == s.left && told.released == s.released && told.owing == s.owing
    requires told.replies == s.replies + (if s.requests[r].typ == 1 then []
                 else [Reply(s.requests[r].id, s.requests[r].client, ReplyFor(s.requests[r].typ))])
    ensures History(Freed(told, r))
  {
    hide HistoryOk, ReleaseOk, RequestOk, Places, LiveId, Owed, ReplyFor;
    var req, s' := s.requests[r], Freed(told, r);
    var x := s'.released[|s.released|];
    RequestOf(s, r);
    forall id | 0 <= id < |s'.births| ensures HistoryOk(s', id) {
      FreesAppend(s.released, x, id);
      assert s.replies + [] == s.replies;
      RepliesAppend(s.replies, Reply(req.id, req.client, ReplyFor(req.typ)), id);
      AsideOwed(s, s', id);
      if id == req.id {
        LiveHistory(s, r);
        FreedIsDead(s, s', r);
        CloseHistory(s', id);
      } else {
        SameLive(s, s', id, r);
        HistorySame(s, s', id);
      }
    }
    ReleasedWhereBorn(s', x);
    forall i | 0 <= i < |s.released| ensures ReleaseOk(s', s.released[i]) {
      ReleaseSame(s, s', s.released[i]);
    }
  }

  lemma ReleaseSame(s: State, s': State, x: Release)
    requires x.id < |s.births| && s.births <= s'.births && ReleaseOk(s, x)
    ensures ReleaseOk(s', x)
  {
  }

  lemma ReleasedWhereBorn(s: State, x: Release)
    requires x.id < |s.births| && x.tag == s.births[x.id].tag
    requires x.pool == if TypeOf(s.births[x.id].kind) == 1 then 1 else 2
    ensures ReleaseOk(s, x)
  {
  }

  lemma RequestOf(s: State, r: Ref)
    requires Inv(s) && r in s.requests
    ensures RequestOk(s, r)
    ensures var req := s.requests[r];
            && req.id < |s.births| && s.births[req.id] == Birth(req.kind, req.client, req.tag)
            && req.typ == (if req.id in s.left then s.left[req.id] else TypeOf(req.kind))
            && (req.typ == 1 <==> TypeOf(req.kind) == 1) && (req.kind != Get ==> req.typ == TypeOf(req.kind))
    ensures r in s.place && (s.place[r] == Engine <==> s.requests[r].id !in s.left)
  {
  }

  lemma LiveHistory(s: State, r: Ref)
    requires Inv(s) && r in s.requests && s.requests[r].id < |s.births|
    ensures var id := s.requests[r].id;
            Frees(s.released, id) == 0 && RepliesTo(s.replies, id) == Acks(s, id)
  {
    hide Acks, Owed;
    assert LiveId(s, s.requests[r].id);
    assert HistoryOk(s, s.requests[r].id);
  }

  lemma FreedIsDead(s: State, s': State, r: Ref)
    requires Inv(s) && r in s.requests && s'.requests == s.requests - {r}
    ensures !LiveId(s', s.requests[r].id)
  {
    hide HistoryOk, History, RequestOk, PlaceOk, QueueOk;
    forall t | t in s'.requests ensures s'.requests[t].id != s.requests[r].id {
      IdOnce(s, r, t);
    }
  }

  lemma CloseHistory(s: State, id: nat)
    requires id < |s.births| && !LiveId(s, id) && Frees(s.released, id) == 1 && id in s.left
    requires RepliesTo(s.replies, id) ==
               Acks(s, id) + (if s.left[id] == 1 then [] else [ReplyFor(s.left[id])])
    requires s.left[id] == 1 <==> TypeOf(s.births[id].kind) == 1
    requires s.births[id].kind != Get ==> s.left[id] == TypeOf(s.births[id].kind)
    ensures HistoryOk(s, id)
  {
    hide Acks, ReplyFor;
  }

  // ---- Every step keeps it ----

  lemma StepInv(s: State, a: Action)
    requires Inv(s)
    ensures Inv(Step(s, a))
  {
    hide Places, History, RequestOk, PlaceOk, QueueOk;
    match a
    case Exec(p, r, kind, client, digits, value, tag) =>
      if Fresh(s, p, r, kind, tag) {
        LeftKnown(s);
        CreatedPlaces(s, p, r, kind, client, digits, value, tag);
        CreatedHistory(s, p, r, kind, client, digits, value, tag);
      }
    case Acknowledge(p) =>
      if Owes(s, p) {
        PlacesAside(s, Acknowledged(s, p));
        AcknowledgedHistory(s, p);
      }
    case Complete(r, t) =>
      if r in s.requests && r in s.place && s.place[r] == Engine && MayLeave(s.requests[r].typ, t) {
        CompletedPlaces(s, r, t);
        CompletedHistory(s, r, t);
      }
    case EndReq(r) => EndReqInv(s, r);
    case Dequeue(q) =>
      if q < |s.queues| && s.queues[q].handler == Idle && s.queues[q].items != [] {
        DequeuedPlaces(s, q);
        HistoryAside(s, Dequeued(s, q));
      }
    case Answer(q) =>
      if q < |s.queues| && s.queues[q].handler.Holding? && s.queues[q].handler.r in s.requests {
        AnswerInv(s, q, s.queues[q].handler.r);
      }
  }

  lemma LeftKnown(s: State)
    requires Inv(s)
    ensures forall id :: id in s.left ==> id < |s.births|
  {
  }

  lemma HistoryAside(s: State, s': State)
    requires Inv(s) && s'.requests == s.requests && s'.births == s.births && s'.left == s.left
    requires s'.released == s.released && s'.replies == s.replies && s'.owing == s.owing
    ensures History(s')
  {
    hide Places, HistoryOk, LiveId, Owed;
    forall id | 0 <= id < |s'.births| ensures HistoryOk(s', id) {
      AsideLive(s, s', id);
      AsideOwed(s, s', id);
      HistorySame(s, s', id);
    }
  }

  lemma PlacesAside(s: State, s': State)
    requires s.queues != [] && Places(s) && s'.requests == s.requests && s'.births == s.births && s'.left == s.left
    requires s'.place == s.place && s'.queues == s.queues
    ensures Places(s')
  {
    forall r | r in s'.requests ensures RequestOk(s', r) {
      assert RequestOk(s, r);
    }
    forall r | r in s'.place ensures PlaceOk(s', r) {
      assert PlaceOk(s, r);
    }
    forall q | 0 <= q < |s'.queues| ensures QueueOk(s', q) {
      assert QueueOk(s, q);
    }
  }

  lemma {:induction false} EndReqInv(s: State, r: Ref)
    requires Inv(s)
    ensures Inv(Step(s, EndReq(r)))
  {
    hide Places, History, RequestOk, PlaceOk, QueueOk;
    if r in s.requests && r in s.place && s.place[r] == Ending {
      RequestOf(s, r);
      if s.requests[r].typ == 1 {
        FreedPlaces(s, r);
        assert s.replies + [] == s.replies;
        FreedHistory(s, s, r);
      } else if |s.queues[QueueOf(s, s.requests[r].client)].items| < QUEUE_ROOM {
        EnqueuedPlaces(s, r);
        HistoryAside(s, Enqueued(s, r));
      }
    }
  }

  lemma AnswerInv(s: State, q: nat, r: Ref)
    requires Inv(s) && q < |s.queues| && s.queues[q].handler == Holding(r) && r in s.requests
    ensures Inv(Answered(s, q, r))
  {
    hide Places, History, RequestOk, PlaceOk, QueueOk, ReplyFor;
    HeldByHandler(s, q, r);
    RequestOf(s, r);
    AnsweredPlaces(s, q, r);
    var req := s.requests[r];
    var told := s.(replies := s.replies + [Reply(req.id, req.client, ReplyFor(req.typ))],
                   queues := s.queues[q := s.queues[q].(handler := Idle, done := s.queues[q].done + [req.id])]);
    FreedHistory(s, told, r);
  }

  /** What a reply thread holds is not a SET. */
  lemma HeldByHandler(s: State, q: nat, r: Ref)
    requires Inv(s) && q < |s.queues| && s.queues[q].handler == Holding(r)
    ensures r in s.requests && r in s.place && s.place[r] == Held(q) && s.requests[r].typ != 1
  {
    assert QueueOk(s, q) && PlaceOk(s, r);
  }

  lemma InitInv(s: State)
    requires Init(s)
    ensures Inv(s)
  {
  }

  lemma {:induction false} RunInv(s: State, actions: seq<Action>)
    requires Inv(s)
    ensures Inv(Run(s, actions))
    decreases |actions|
  {
    if actions != [] {
      StepInv(s, actions[0]);
      RunInv(Step(s, actions[0]), actions[1..]);
    }
  }
}
