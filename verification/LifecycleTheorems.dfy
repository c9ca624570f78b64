/** What holds of requests, replies and DMA tags over every run. */
module LifecycleTheorems {
  import opened Bytes
  import opened Resp
  import opened RespRoundTrip
  import opened Lifecycle

  // ---- Memory ----

  /** Nobody holds the pointer of a request that has been freed. */
  ghost predicate PointersLive(s: State) {
    && (forall q, i :: 0 <= q < |s.queues| && 0 <= i < |s.queues[q].items| ==> s.queues[q].items[i] in s.requests)
    && (forall q :: 0 <= q < |s.queues| && s.queues[q].handler.Holding? ==> s.queues[q].handler.r in s.requests)
    && (forall r :: r in s.place ==> r in s.requests)
  }

  /** In every run each request ever created is there or has been freed, and
      freed at most once; no thread is left with a pointer to a freed one. */
  lemma FreedOnce(s0: State, actions: seq<Action>)
    requires Init(s0)
    ensures var s := Run(s0, actions);
            && PointersLive(s)
            && forall id :: 0 <= id < |s.births| ==> Frees(s.released, id) == if LiveId(s, id) then 0 else 1
  {
    InitInv(s0);
    RunInv(s0, actions);
    var s := Run(s0, actions);
    forall q, i | 0 <= q < |s.queues| && 0 <= i < |s.queues[q].items| ensures s.queues[q].items[i] in s.requests {
      assert QueueOk(s, q);
      assert PlaceOk(s, s.queues[q].items[i]);
    }
    forall q | 0 <= q < |s.queues| && s.queues[q].handler.Holding? ensures s.queues[q].handler.r in s.requests {
      HeldByHandler(s, q, s.queues[q].handler.r);
    }
    forall r | r in s.place ensures r in s.requests {
      assert PlaceOk(s, r);
    }
    forall id | 0 <= id < |s.births| ensures Frees(s.released, id) == if LiveId(s, id) then 0 else 1 {
      assert HistoryOk(s, id);
    }
  }

  /** What was freed stays freed: its id never comes back. */
  lemma {:induction false} FreedStaysFreed(s: State, actions: seq<Action>, id: nat)
    requires Inv(s) && id < |s.births| && !LiveId(s, id)
    ensures id < |Run(s, actions).births| && !LiveId(Run(s, actions), id)
    decreases |actions|
  {
    if actions != [] {
      StepInv(s, actions[0]);
      StepKeepsFreed(s, actions[0], id);
      FreedStaysFreed(Step(s, actions[0]), actions[1..], id);
    }
  }

  lemma StepKeepsFreed(s: State, a: Action, id: nat)
    requires Inv(s) && id < |s.births| && !LiveId(s, id)
    ensures id < |Step(s, a).births| && !LiveId(Step(s, a), id)
  {
    hide Places, History, ReplyFor, Fresh, MayLeave;
    var s' := Step(s, a);
    forall r | r in s'.requests ensures s'.requests[r].id != id {
      if r in s.requests { assert s.requests[r].id != id; }
    }
  }

  // ---- One place at a time ----

  predicate InQueue(s: State, q: nat, i: nat, r: Ref) {
    q < |s.queues| && i < |s.queues[q].items| && s.queues[q].items[i] == r
  }

  predicate InHandler(s: State, q: nat, r: Ref) {
    q < |s.queues| && s.queues[q].handler == Holding(r)
  }

  /** A live request is in the engine, with an ending thread, at one index of
      one queue, or with one reply thread: never in two of these. The queue and the
      reply thread are those of its client. */
  lemma OnePlace(s0: State, actions: seq<Action>, r: Ref)
    requires Init(s0) && r in Run(s0, actions).requests
    ensures var s := Run(s0, actions);
            && r in s.place
            && (forall q, i :: InQueue(s, q, i, r) ==> s.place[r] == Queued(q))
            && (forall q :: InHandler(s, q, r) ==> s.place[r] == Held(q))
            && (forall q, i, j :: InQueue(s, q, i, r) && InQueue(s, q, j, r) ==> i == j)
            && (s.place[r].Queued? ==> exists i :: InQueue(s, s.place[r].q, i, r))
            && (s.place[r].Held? ==> InHandler(s, s.place[r].q, r))
            && (s.place[r].Queued? || s.place[r].Held? ==>
                  s.place[r].q == s.requests[r].client.whichQueue % |s.queues|)
  {
    InitInv(s0);
    RunInv(s0, actions);
    var s := Run(s0, actions);
    RequestOf(s, r);
    assert PlaceOk(s, r);
    forall q: nat, i: nat | InQueue(s, q, i, r) ensures s.place[r] == Queued(q) {
      assert QueueOk(s, q);
    }
    forall q: nat | InHandler(s, q, r) ensures s.place[r] == Held(q) {
      assert QueueOk(s, q);
    }
    forall q: nat, i: nat, j: nat | InQueue(s, q, i, r) && InQueue(s, q, j, r) ensures i == j {
      assert QueueOk(s, q);
    }
    if s.place[r].Queued? {
      var q := s.place[r].q;
      var i :| 0 <= i < |s.queues[q].items| && s.queues[q].items[i] == r;
      assert InQueue(s, q, i, r);
    }
  }

  // ---- What is handed over ----

  /** The request is what this command asked for: its kind, client, key (which
      counts from one, as an unsigned 64-bit number), value and tag. */
  predicate MadeBy(req: Request, r: Ref, a: Action) {
    && a.Exec? && a.r == r && req.kind == a.kind && req.client == a.client
    && req.key == (a.digits + 1) % 0x1_0000_0000_0000_0000 && req.value == a.value && req.tag == a.tag
  }

  predicate Made(req: Request, r: Ref, actions: seq<Action>) {
    exists i :: 0 <= i < |actions| && MadeBy(req, r, actions[i])
  }

  lemma MadeLater(req: Request, req': Request, r: Ref, actions: seq<Action>, a: Action)
    requires MadeBy(req, r, a) || (Made(req', r, actions) && req == req'.(typ := req.typ))
    ensures Made(req, r, actions + [a])
  {
    var all := actions + [a];
    if MadeBy(req, r, a) {
      assert MadeBy(req, r, all[|actions|]);
    } else {
      var i :| 0 <= i < |actions| && MadeBy(req', r, actions[i]);
      assert MadeBy(req, r, all[i]);
    }
  }

  /** A step makes the request of its own command, and changes nothing but the
      type of another. */
  lemma StepMakes(s: State, a: Action, r: Ref)
    requires s.queues != [] && r in Step(s, a).requests
    ensures var req := Step(s, a).requests[r];
            MadeBy(req, r, a) || (r in s.requests && req == s.requests[r].(typ := req.typ))
  {
    hide ReplyFor, MayLeave, AckBytes;
  }

  lemma {:induction false} RunMakes(s0: State, actions: seq<Action>, r: Ref)
    requires Init(s0) && r in Run(s0, actions).requests
    ensures Made(Run(s0, actions).requests[r], r, actions)
    decreases |actions|
  {
    hide Step, Made, MadeBy;
    if actions != [] {
      var front, a := actions[..|actions| - 1], actions[|actions| - 1];
      assert actions == front + [a];
      RunJoin(s0, front, [a]);
      RunOne(Run(s0, front), a);
      var s := Run(s0, front);
      StepMakes(s, a, r);
      var req := Step(s, a).requests[r];
      if !MadeBy(req, r, a) { RunMakes(s0, front, r); }
      MadeLater(req, if r in s.requests then s.requests[r] else req, r, front, a);
    }
  }

  /** Over all runs, a live request has the key and the value of its command, and
      the engine is handed the type of its kind. */
  lemma HandedOver(s0: State, actions: seq<Action>, r: Ref)
    requires Init(s0) && r in Run(s0, actions).requests
    ensures var s := Run(s0, actions);
            && Made(s.requests[r], r, actions)
            && r in s.place
            && (s.place[r] == Engine ==>
                  s.requests[r].typ == match s.requests[r].kind case Get => 2 case Set => 1 case Upt => 1 case Del => 3)
  {
    hide Made;
    InitInv(s0);
    RunInv(s0, actions);
    RequestOf(Run(s0, actions), r);
    RunMakes(s0, actions, r);
  }

  // ---- Replies ----

  /** One printed bulk string of 8192 zero bytes. */
  ghost predicate IsZeroPage(reply: Bytes) {
    exists p: Bytes :: |p| == 8192 && (forall i :: 0 <= i < 8192 ==> p[i] == 0) && reply == BulkBytes(p)
  }

  /** A GET: nothing before it is freed; then one bulk string if the engine found
      the key, and one nil if it did not. A SET: its one reply, as soon as the poll
      thread has written it, freed or not. A DEL: that reply, and a nil once it is
      freed, in either order. */
  lemma Replies(s0: State, actions: seq<Action>, id: nat)
    requires Init(s0) && id < |Run(s0, actions).births|
    ensures var s := Run(s0, actions);
            var written := RepliesTo(s.replies, id);
            match s.births[id].kind
            case Get =>
              if LiveId(s, id) then written == []
              else
                && id in s.left
                && if s.left[id] == 2 then |written| == 1 && IsZeroPage(written[0]) else written == [NIL_REPLY]
            case Set => written == if Owed(s, id) then [] else [OK_REPLY]
            case Upt => written == if Owed(s, id) then [] else [KO_REPLY]
            case Del =>
              if LiveId(s, id) then written == if Owed(s, id) then [] else [KO_REPLY]
              else if Owed(s, id) then written == [NIL_REPLY]
              else written == [KO_REPLY, NIL_REPLY] || written == [NIL_REPLY, KO_REPLY]
  {
    hide LiveId, Owed, BulkBytes;
    InitInv(s0);
    RunInv(s0, actions);
    assert HistoryOk(Run(s0, actions), id);
    assert IsZeroPage(ReplyFor(2));
  }

  /** What this project's own reader, on the side of the peer, makes of the
      replies, whatever follows them: a page comes in as one bulk string of 8192
      zero bytes, and the short ones as OK, KO and NOT. */
  lemma PeerReads(reply: Bytes, t: Bytes, junk: int)
    ensures IsZeroPage(reply) ==>
              exists p: Bytes ::
                && |p| == 8192 && (forall i :: 0 <= i < 8192 ==> p[i] == 0)
                && Read(reply + t, junk) == Command([BULK, p], |reply|)
    ensures Read(OK_REPLY + t, junk) == Command([OK], 5)
    ensures Read(KO_REPLY + t, junk) == Command([KO], 5)
    ensures Read(NIL_REPLY + t, junk) == Command([NOT], 5)
  {
    hide Read, BulkBytes;
    if IsZeroPage(reply) {
      var p: Bytes :| |p| == 8192 && (forall i :: 0 <= i < 8192 ==> p[i] == 0) && reply == BulkBytes(p);
      ReadEncoded(Lone(p), t, junk);
    }
    AsciiReplies();
    ReadEncoded(Okay, t, junk);
    ReadEncoded(NotOkay, t, junk);
    ReadEncoded(Nil, t, junk);
  }

  lemma AsciiReplies()
    ensures OK_REPLY == Encode(Okay) && KO_REPLY == Encode(NotOkay) && NIL_REPLY == Encode(Nil)
  {
  }

  /** A request that has been freed and acknowledged has been answered exactly
      once, unless it was a DEL. */
  lemma OneReplyExactly(s0: State, actions: seq<Action>, id: nat)
    requires Init(s0) && id < |Run(s0, actions).births|
    requires !LiveId(Run(s0, actions), id) && !Owed(Run(s0, actions), id)
    ensures var s := Run(s0, actions);
            |RepliesTo(s.replies, id)| == 1 <==> s.births[id].kind != Del
  {
    Replies(s0, actions, id);
  }

  /** Every reply goes to the client that asked. */
  lemma RepliesToAsker(s0: State, actions: seq<Action>, i: nat)
    requires Init(s0) && i < |Run(s0, actions).replies|
    ensures var s := Run(s0, actions);
            s.replies[i].id < |s.births| && s.replies[i].client == s.births[s.replies[i].id].client
  {
    InitInv(s0);
    RunInv(s0, actions);
  }

  // ---- DMA tags ----

  /** The pool and the tag a request took when it was born; a DEL took none. */
  function Took(b: Birth): seq<(int, int)> {
    if b.kind == Del then [] else [(TypeOf(b.kind), b.tag)]
  }

  predicate NoDelFreed(s: State) {
    forall i :: 0 <= i < |s.released| ==> s.released[i].id < |s.births| && s.births[s.released[i].id].kind != Del
  }

  /** Every tag goes back where it was taken, although the type that decides the
      pool may have been rewritten by the engine: exactly as long as no DEL has
      been freed. */
  lemma TagsReturnExactly(s0: State, actions: seq<Action>)
    requires Init(s0)
    ensures var s := Run(s0, actions);
            (forall i :: 0 <= i < |s.released| ==>
               s.released[i].id < |s.births| &&
               Took(s.births[s.released[i].id]) == [(s.released[i].pool, s.released[i].tag)]) <==> NoDelFreed(s)
  {
    InitInv(s0);
    RunInv(s0, actions);
    var s := Run(s0, actions);
    forall i | 0 <= i < |s.released|
      ensures s.released[i].id < |s.births| &&
              (Took(s.births[s.released[i].id]) == [(s.released[i].pool, s.released[i].tag)] <==>
               s.births[s.released[i].id].kind != Del)
    {
      assert ReleaseOk(s, s.released[i]);
    }
  }

  function Pool(s: State, pool: int): set<int> {
    if pool == 1 then s.setTags else s.getTags
  }

  /** The live request r has taken this tag of this pool. */
  predicate Takes(s: State, r: Ref, pool: int, tag: int) {
    && r in s.requests && s.requests[r].kind != Del
    && TypeOf(s.requests[r].kind) == pool && s.requests[r].tag == tag
  }

  /** A tag of the pool is free, or with exactly one live request. */
  ghost predicate PoolOk(s: State, pool: int, tags: set<int>) {
    && (forall r, tag :: Takes(s, r, pool, tag) ==> tag in tags && tag !in Pool(s, pool))
    && (forall tag :: tag in tags && tag !in Pool(s, pool) ==> exists r :: Takes(s, r, pool, tag))
    && (forall r, t, tag :: Takes(s, r, pool, tag) && Takes(s, t, pool, tag) ==> r == t)
    && Pool(s, pool) <= tags
  }

  /** A step that neither makes nor frees a request leaves the pools alone. */
  lemma PoolSame(s: State, s': State, pool: int, tags: set<int>)
    requires PoolOk(s, pool, tags) && Pool(s', pool) == Pool(s, pool)
    requires forall r, tag :: Takes(s', r, pool, tag) <==> Takes(s, r, pool, tag)
    ensures PoolOk(s', pool, tags)
  {
    forall tag | tag in tags && tag !in Pool(s', pool) ensures exists r :: Takes(s', r, pool, tag) {
      var r :| Takes(s, r, pool, tag);
      assert Takes(s', r, pool, tag);
    }
  }

  /** A tag taken out of the pool by a new request. */
  lemma PoolTaken(s: State, s': State, r: Ref, pool: int, tag: int, tags: set<int>)
    requires PoolOk(s, pool, tags) && tag in Pool(s, pool) && Pool(s', pool) == Pool(s, pool) - {tag}
    requires r !in s.requests && Takes(s', r, pool, tag)
    requires forall t, g :: t != r ==> (Takes(s', t, pool, g) <==> Takes(s, t, pool, g))
    ensures PoolOk(s', pool, tags)
  {
    forall g | g in tags && g !in Pool(s', pool) ensures exists t :: Takes(s', t, pool, g) {
      if g == tag {
        assert Takes(s', r, pool, g);
      } else {
        var t :| Takes(s, t, pool, g);
        assert Takes(s', t, pool, g);
      }
    }
    forall t, g | Takes(s', t, pool, g) ensures g in tags && g !in Pool(s', pool) {
      if t != r { assert Takes(s, t, pool, g); }
    }
    forall t, u, g | Takes(s', t, pool, g) && Takes(s', u, pool, g) ensures t == u {
      if t != r && u != r { assert Takes(s, t, pool, g) && Takes(s, u, pool, g); }
    }
  }

  /** A tag put back by the request that had it. */
  lemma PoolRefilled(s: State, s': State, r: Ref, pool: int, tag: int, tags: set<int>)
    requires PoolOk(s, pool, tags) && Takes(s, r, pool, tag) && Pool(s', pool) == Pool(s, pool) + {tag}
    requires r !in s'.requests
    requires forall t, g :: t != r ==> (Takes(s', t, pool, g) <==> Takes(s, t, pool, g))
    ensures PoolOk(s', pool, tags)
  {
    forall g | g in tags && g !in Pool(s', pool) ensures exists t :: Takes(s', t, pool, g) {
      var t :| Takes(s, t, pool, g);
      assert t != r;
      assert Takes(s', t, pool, g);
    }
    forall t, g | Takes(s', t, pool, g) ensures g in tags && g !in Pool(s', pool) {
      assert Takes(s, t, pool, g);
    }
    forall t, u, g | Takes(s', t, pool, g) && Takes(s', u, pool, g) ensures t == u {
      assert Takes(s, t, pool, g) && Takes(s, u, pool, g);
    }
  }

  lemma CreatedPool(s: State, a: Action, pool: int, tags: set<int>)
    requires a.Exec? && s.queues != [] && Fresh(s, a.p, a.r, a.kind, a.tag) && PoolOk(s, pool, tags) && 1 <= pool <= 2
    ensures PoolOk(Step(s, a), pool, tags)
  {
    hide PoolOk;
    var s' := Step(s, a);
    if a.kind != Del && TypeOf(a.kind) == pool {
      PoolTaken(s, s', a.r, pool, a.tag, tags);
    } else {
      PoolSame(s, s', pool, tags);
    }
  }

  lemma FreedPool(s: State, told: State, r: Ref, pool: int, tags: set<int>)
    requires Inv(s) && PoolOk(s, pool, tags) && 1 <= pool <= 2 && r in s.requests && s.requests[r].kind != Del
    requires told.requests == s.requests && told.setTags == s.setTags && told.getTags == s.getTags
    ensures PoolOk(Freed(told, r), pool, tags)
  {
    hide PoolOk, Inv;
    RequestOf(s, r);
    var s' := Freed(told, r);
    if TypeOf(s.requests[r].kind) == pool {
      PoolRefilled(s, s', r, pool, s.requests[r].tag, tags);
    } else {
      PoolSame(s, s', pool, tags);
    }
  }

  /** A step that frees a DEL shows in the history. */
  lemma FreedKind(s: State, told: State, r: Ref)
    requires Inv(s) && r in s.requests && told.requests == s.requests
    requires told.births == s.births && told.released == s.released && NoDelFreed(Freed(told, r))
    ensures s.requests[r].kind != Del && NoDelFreed(s)
  {
    hide Inv;
    RequestOf(s, r);
    var s' := Freed(told, r);
    assert s'.released[|s.released|].id == s.requests[r].id;
    forall i | 0 <= i < |s.released|
      ensures s.released[i].id < |s.births| && s.births[s.released[i].id].kind != Del
    {
      assert s'.released[i] == s.released[i];
    }
  }

  lemma StepPool(s: State, a: Action, pool: int, tags: set<int>)
    requires Inv(s) && (NoDelFreed(s) ==> PoolOk(s, pool, tags)) && 1 <= pool <= 2
    ensures NoDelFreed(Step(s, a)) ==> PoolOk(Step(s, a), pool, tags)
  {
    hide PoolOk, Places, History, ReplyFor, QueueOf;
    var s' := Step(s, a);
    if NoDelFreed(s') && s' != s {
      match a
      case Exec(_, r, kind, _, _, _, tag) =>
        EarlierRelease(s, s');
        CreatedPool(s, a, pool, tags);
      case EndReq(r) =>
        if s.requests[r].typ == 1 {
          FreedKind(s, s, r);
          FreedPool(s, s, r, pool, tags);
        } else {
          EarlierRelease(s, s');
          PoolSame(s, s', pool, tags);
        }
      case Answer(q) =>
        var r := s.queues[q].handler.r;
        HeldByHandler(s, q, r);
        var told := s.(replies := s'.replies, queues := s'.queues);
        assert s' == Freed(told, r);
        FreedKind(s, told, r);
        FreedPool(s, told, r, pool, tags);
      case _ =>
        EarlierRelease(s, s');
        PoolSame(s, s', pool, tags);
    }
  }

  lemma EarlierRelease(s: State, s': State)
    requires Inv(s) && NoDelFreed(s') && s'.released == s.released && s.births <= s'.births
    ensures NoDelFreed(s)
  {
    forall i | 0 <= i < |s.released| ensures s.births[s.released[i].id].kind != Del {
      assert s.births[s.released[i].id] == s'.births[s.released[i].id];
    }
  }

  lemma {:induction false} RunPool(s: State, actions: seq<Action>, pool: int, tags: set<int>)
    requires Inv(s) && (NoDelFreed(s) ==> PoolOk(s, pool, tags)) && 1 <= pool <= 2
    ensures NoDelFreed(Run(s, actions)) ==> PoolOk(Run(s, actions), pool, tags)
    decreases |actions|
  {
    hide PoolOk, NoDelFreed;
    if actions != [] {
      StepInv(s, actions[0]);
      StepPool(s, actions[0], pool, tags);
      RunPool(Step(s, actions[0]), actions[1..], pool, tags);
    }
  }

  lemma AllFree(s: State, pool: int, tags: set<int>)
    requires PoolOk(s, pool, tags) && s.requests == map[]
    ensures Pool(s, pool) == tags
  {
    forall tag | tag in tags ensures tag in Pool(s, pool) {
      assert !exists r :: Takes(s, r, pool, tag);
    }
  }

  /** No tag is lost, invented or given out twice; once every request has been
      freed both pools are what they were. */
  lemma PoolsConserved(s0: State, actions: seq<Action>)
    requires Init(s0) && NoDelFreed(Run(s0, actions))
    ensures var s := Run(s0, actions);
            && PoolOk(s, 1, s0.setTags) && PoolOk(s, 2, s0.getTags)
            && (s.requests == map[] ==> s.setTags == s0.setTags && s.getTags == s0.getTags)
  {
    InitInv(s0);
    RunPool(s0, actions, 1, s0.setTags);
    RunPool(s0, actions, 2, s0.getTags);
    var s := Run(s0, actions);
    if s.requests == map[] {
      AllFree(s, 1, s0.setTags);
      AllFree(s, 2, s0.getTags);
    }
  }

  /** From the hand-over of a DEL to its answer, with nothing else going on. */
  function DelDone(r: Ref, q: nat): seq<Action> {
    [Complete(r, 3), EndReq(r), Dequeue(q), Answer(q)]
  }

  function DelRun(p: nat, r: Ref, c: Client, digits: int, q: nat): seq<Action> {
    [Exec(p, r, Del, c, digits, [], 0), Acknowledge(p)] + DelDone(r, q)
  }

  /** The reply thread may be faster than the poll thread. */
  function SwiftDelRun(p: nat, r: Ref, c: Client, digits: int, q: nat): seq<Action> {
    [Exec(p, r, Del, c, digits, [], 0)] + DelDone(r, q) + [Acknowledge(p)]
  }

  /** What is left of a DEL with the engine and an idle queue. */
  lemma DelAnswered(s: State, r: Ref, q: nat)
    requires s.queues != [] && r in s.requests && r in s.place && s.place[r] == Engine && s.requests[r].typ == 3
    requires q == QueueOf(s, s.requests[r].client) && s.queues[q].handler == Idle && s.queues[q].items == []
    ensures var s', req := Run(s, DelDone(r, q)), s.requests[r];
            && s'.queues != []
            && s'.requests == s.requests - {r} && s'.setTags == s.setTags && s'.getTags == s.getTags + {req.tag}
            && s'.births == s.births && s'.owing == s.owing
            && s'.released == s.released + [Release(req.id, 2, req.tag)]
            && s'.replies == s.replies + [Reply(req.id, req.client, NIL_REPLY)]
  {
    hide Page;
    var actions := DelDone(r, q);
    FourSteps(s, actions);
    var s1 := Step(s, actions[0]);
    assert s1 == Completed(s, r, 3);
    var s2 := Step(s1, actions[1]);
    assert s2 == Enqueued(s1, r);
    var s3 := Step(s2, actions[2]);
    assert s2.queues[q].items == [r];
    assert s3 == Dequeued(s2, q);
    var s4 := Step(s3, actions[3]);
    assert s4 == Answered(s3, q, r);
    assert s4.requests == s.requests - {r};
  }

  lemma {:induction false} FourSteps(s: State, actions: seq<Action>)
    requires s.queues != [] && |actions| == 4
    ensures |Step(s, actions[0]).queues| > 0
    ensures var s1 := Step(s, actions[0]); |Step(s1, actions[1]).queues| > 0
    ensures var s2 := Step(Step(s, actions[0]), actions[1]); |Step(s2, actions[2]).queues| > 0
    ensures var s3 := Step(Step(Step(s, actions[0]), actions[1]), actions[2]);
            |Step(s3, actions[3]).queues| > 0 && Run(s, actions) == Step(s3, actions[3])
  {
    hide Step;
    RunUnfold(s, actions);
    var s1 := Step(s, actions[0]);
    RunUnfold(s1, actions[1..]);
    var s2 := Step(s1, actions[1]);
    RunUnfold(s2, actions[2..]);
    var s3 := Step(s2, actions[2]);
    RunUnfold(s3, actions[3..]);
    assert actions[1..][1..] == actions[2..] && actions[2..][1..] == actions[3..] && actions[3..][1..] == [];
  }

  lemma {:induction false} RunJoin(s: State, a: seq<Action>, b: seq<Action>)
    requires s.queues != []
    ensures Run(s, a).queues != [] && Run(s, a + b) == Run(Run(s, a), b)
    decreases |a|
  {
    hide Step;
    if a == [] {
      assert [] + b == b;
    } else {
      StepShape(s, a[0]);
      assert (a + b)[1..] == a[1..] + b;
      RunJoin(Step(s, a[0]), a[1..], b);
    }
  }

  lemma RunOne(s: State, a: Action)
    requires s.queues != []
    ensures Run(s, [a]) == Step(s, a) && Step(s, a).queues != []
  {
    hide Step;
    RunUnfold(s, [a]);
  }

  ghost predicate IdleFor(s: State, p: nat, r: Ref, c: Client) {
    && s.queues != [] && p !in s.owing && r !in s.requests
    && s.queues[QueueOf(s, c)].handler == Idle && s.queues[QueueOf(s, c)].items == []
  }

  /** A DEL that runs through an idle queue gives back a tag it never took, and
      is answered twice. */
  lemma DelRoundTrip(s: State, p: nat, r: Ref, c: Client, digits: int)
    requires IdleFor(s, p, r, c)
    ensures var s' := Run(s, DelRun(p, r, c, digits, QueueOf(s, c)));
            && s'.requests == s.requests && s'.setTags == s.setTags && s'.getTags == s.getTags + {0}
            && s'.births == s.births + [Birth(Del, c, 0)] && s'.owing == s.owing
            && s'.released == s.released + [Release(|s.births|, 2, 0)]
            && s'.replies == s.replies + [Reply(|s.births|, c, KO_REPLY), Reply(|s.births|, c, NIL_REPLY)]
  {
    hide Run, DelDone;
    var exec, q := Exec(p, r, Del, c, digits, [], 0), QueueOf(s, c);
    var s1 := Step(s, exec);
    assert s1 == Created(s, p, r, Del, c, digits, [], 0);
    var s2 := Step(s1, Acknowledge(p));
    assert s2 == Acknowledged(s1, p);
    RunOne(s, exec);
    RunOne(s1, Acknowledge(p));
    RunJoin(s, [exec], [Acknowledge(p)]);
    RunJoin(s, [exec] + [Acknowledge(p)], DelDone(r, q));
    assert [exec] + [Acknowledge(p)] == [exec, Acknowledge(p)];
    DelAnswered(s2, r, q);
    assert s1.owing - {p} == s.owing && s1.requests - {r} == s.requests;
  }

  /** A reply thread that is faster than the poll thread answers a DEL with nil
      before the command's own reply is written. */
  lemma SwiftDel(s: State, p: nat, r: Ref, c: Client, digits: int)
    requires IdleFor(s, p, r, c)
    ensures Run(s, SwiftDelRun(p, r, c, digits, QueueOf(s, c))).replies ==
            s.replies + [Reply(|s.births|, c, NIL_REPLY), Reply(|s.births|, c, KO_REPLY)]
  {
    hide Run, DelDone;
    var exec, q := Exec(p, r, Del, c, digits, [], 0), QueueOf(s, c);
    var s1 := Step(s, exec);
    assert s1 == Created(s, p, r, Del, c, digits, [], 0);
    RunOne(s, exec);
    RunJoin(s, [exec], DelDone(r, q));
    DelAnswered(s1, r, q);
    var s2 := Run(s1, DelDone(r, q));
    RunOne(s2, Acknowledge(p));
    RunJoin(s, [exec] + DelDone(r, q), [Acknowledge(p)]);
    assert Step(s2, Acknowledge(p)) == Acknowledged(s2, p);
  }

  /** The engine may be done with a SET before its reply is written: it has been
      freed, and its client has been told nothing yet. */
  lemma SwiftSet(s0: State, p: nat, r: Ref, c: Client, digits: int, value: Bytes, tag: int)
    requires Init(s0) && tag in s0.setTags
    ensures var s := Run(s0, [Exec(p, r, Set, c, digits, value, tag), Complete(r, 1), EndReq(r)]);
            && s.births == [Birth(Set, c, tag)] && s.requests == map[] && !LiveId(s, 0) && Owed(s, 0)
            && s.replies == []
  {
    hide Run;
    var exec := Exec(p, r, Set, c, digits, value, tag);
    var s1 := Step(s0, exec);
    assert s1 == Created(s0, p, r, Set, c, digits, value, tag);
    var s2 := Step(s1, Complete(r, 1));
    assert s2 == Completed(s1, r, 1);
    var s3 := Step(s2, EndReq(r));
    assert s3 == Freed(s2, r);
    RunOne(s0, exec);
    RunOne(s1, Complete(r, 1));
    RunOne(s2, EndReq(r));
    RunJoin(s0, [exec], [Complete(r, 1)]);
    RunJoin(s0, [exec] + [Complete(r, 1)], [EndReq(r)]);
    assert [exec] + [Complete(r, 1)] + [EndReq(r)] == [exec, Complete(r, 1), EndReq(r)];
    OwedNow(s3, p);
  }

  /** While a GET holds tag 0, a DEL makes that tag free. */
  lemma DelReturnsForeignTag(c: Client)
    ensures exists s0: State, actions: seq<Action> ::
              && Init(s0)
              && var s := Run(s0, actions);
                 Takes(s, 0, 2, 0) && 0 in s.getTags && !NoDelFreed(s)
  {
    var s0 := State(map[], map[], [Queue([], Idle, [], [])], map[], {}, {0}, [], map[], [], []);
    var get := Exec(0, 0, Get, c, 7, [], 0);
    var s1 := Step(s0, get);
    assert s1 == Created(s0, 0, 0, Get, c, 7, [], 0);
    assert Takes(s1, 0, 2, 0);
    var actions := [get] + DelRun(0, 1, c, 7, 0);
    DelRoundTrip(s1, 0, 1, c, 7);
    RunUnfold(s0, actions);
    assert actions[1..] == DelRun(0, 1, c, 7, 0);
    var s := Run(s0, actions);
    assert s.released[0].id == 1;
    assert Takes(s, 0, 2, 0);
  }

  lemma RunUnfold(s: State, actions: seq<Action>)
    requires s.queues != [] && actions != []
    ensures Step(s, actions[0]).queues != [] && Run(s, actions) == Run(Step(s, actions[0]), actions[1..])
  {
    StepShape(s, actions[0]);
  }

  // ---- Order ----

  function Ids(s: State, refs: seq<Ref>): seq<nat>
    requires forall i :: 0 <= i < |refs| ==> refs[i] in s.requests
  {
    seq(|refs|, i requires 0 <= i < |refs| => s.requests[refs[i]].id)
  }

  /** What a reply thread has in hand, then what waits for it. */
  function Ahead(queue: Queue): seq<Ref> {
    (if queue.handler.Holding? then [queue.handler.r] else []) + queue.items
  }

  predicate InOrder(s: State, q: nat)
    requires q < |s.queues|
  {
    && (forall i :: 0 <= i < |Ahead(s.queues[q])| ==> Ahead(s.queues[q])[i] in s.requests)
    && s.queues[q].passed == s.queues[q].done + Ids(s, Ahead(s.queues[q]))
  }

  lemma IdsSame(s: State, s': State, refs: seq<Ref>)
    requires forall i :: 0 <= i < |refs| ==> refs[i] in s.requests && refs[i] in s'.requests
    requires forall i :: 0 <= i < |refs| ==> s.requests[refs[i]].id == s'.requests[refs[i]].id
    ensures Ids(s, refs) == Ids(s', refs)
  {
  }

  lemma EnqueuedInOrder(s: State, r: Ref)
    requires s.queues != [] && r in s.requests && InOrder(s, QueueOf(s, s.requests[r].client))
    ensures InOrder(Enqueued(s, r), QueueOf(s, s.requests[r].client))
  {
    var s', q := Enqueued(s, r), QueueOf(s, s.requests[r].client);
    var ahead := Ahead(s.queues[q]);
    assert Ahead(s'.queues[q]) == ahead + [r];
    IdsSame(s, s', ahead);
    assert Ids(s', ahead + [r]) == Ids(s', ahead) + [s.requests[r].id];
  }

  lemma DequeuedInOrder(s: State, q: nat)
    requires q < |s.queues| && s.queues[q].handler == Idle && s.queues[q].items != [] && InOrder(s, q)
    ensures InOrder(Dequeued(s, q), q)
  {
    var s' := Dequeued(s, q);
    assert Ahead(s'.queues[q]) == Ahead(s.queues[q]);
    IdsSame(s, s', Ahead(s.queues[q]));
  }

  lemma AnswerInOrder(s: State, q: nat, r: Ref)
    requires q < |s.queues| && s.queues[q].handler == Holding(r) && r in s.requests && InOrder(s, q)
    requires r !in s.queues[q].items
    ensures InOrder(Answered(s, q, r), q)
  {
    hide ReplyFor, InOrder;
    var s', items := Answered(s, q, r), s.queues[q].items;
    HandlerFirst(s, q, r);
    QueueAnswered(s, q, r);
    hide Answered;
    IdsSame(s, s', items);
    AheadInOrder(s', q);
  }

  lemma QueueAnswered(s: State, q: nat, r: Ref)
    requires q < |s.queues| && s.queues[q].handler == Holding(r) && r in s.requests && r !in s.queues[q].items
    ensures var s' := Answered(s, q, r); var queue := s.queues[q];
            && |s'.queues| == |s.queues|
            && s'.queues[q] == queue.(handler := Idle, done := queue.done + [s.requests[r].id])
            && forall u :: u in queue.items && u in s.requests ==> u in s'.requests && s'.requests[u] == s.requests[u]
  {
    hide ReplyFor;
  }

  lemma HandlerFirst(s: State, q: nat, r: Ref)
    requires q < |s.queues| && s.queues[q].handler == Holding(r) && InOrder(s, q)
    ensures var items := s.queues[q].items;
            && (forall i :: 0 <= i < |items| ==> items[i] in s.requests) && r in s.requests
            && s.queues[q].passed == s.queues[q].done + [s.requests[r].id] + Ids(s, items)
  {
    var items, ahead := s.queues[q].items, Ahead(s.queues[q]);
    assert ahead == [r] + items;
    forall i | 0 <= i < |items| ensures items[i] in s.requests {
      assert ahead[i + 1] == items[i];
    }
    assert ahead[0] == r;
    assert Ids(s, ahead) == [s.requests[r].id] + Ids(s, items);
  }

  lemma AheadInOrder(s: State, q: nat)
    requires q < |s.queues| && s.queues[q].handler == Idle
    requires forall i :: 0 <= i < |s.queues[q].items| ==> s.queues[q].items[i] in s.requests
    requires s.queues[q].passed == s.queues[q].done + Ids(s, s.queues[q].items)
    ensures InOrder(s, q)
  {
    assert Ahead(s.queues[q]) == s.queues[q].items;
  }

  /** A request in a queue or with its reply thread outlives the steps of others. */
  lemma StaysInQueue(s: State, a: Action, q: nat, r: Ref)
    requires Inv(s) && q < |s.queues| && r in Ahead(s.queues[q]) && r in s.requests
    requires a.Answer? ==> a.q != q
    ensures r in Step(s, a).requests && Step(s, a).requests[r].id == s.requests[r].id
  {
    hide History, RequestOk, ReplyFor, MayLeave;
    assert QueueOk(s, q);
    if a.Answer? && a.q < |s.queues| { assert QueueOk(s, a.q); }
  }

  lemma StepInOrder(s: State, a: Action, q: nat)
    requires Inv(s) && q < |s.queues| && InOrder(s, q)
    ensures q < |Step(s, a).queues| && InOrder(Step(s, a), q)
  {
    hide Places, History, ReplyFor, MayLeave, InOrder, Fresh, Inv;
    StepShape(s, a);
    var s' := Step(s, a);
    if s'.queues[q] == s.queues[q] && !(a.Answer? && a.q == q) {
      OtherQueue(s, a, q);
    } else if s' != s {
      match a
      case EndReq(r) => EnqueuedInOrder(s, r);
      case Dequeue(_) => DequeuedInOrder(s, q);
      case Answer(_) =>
        NotAlsoQueued(s, q);
        AnswerInOrder(s, q, s.queues[q].handler.r);
    }
  }

  lemma NotAlsoQueued(s: State, q: nat)
    requires Inv(s) && q < |s.queues| && s.queues[q].handler.Holding?
    ensures s.queues[q].handler.r !in s.queues[q].items
  {
    hide History;
    assert QueueOk(s, q);
  }

  lemma OtherQueue(s: State, a: Action, q: nat)
    requires Inv(s) && q < |s.queues| && InOrder(s, q) && !(a.Answer? && a.q == q)
    requires |Step(s, a).queues| == |s.queues| && Step(s, a).queues[q] == s.queues[q]
    ensures InOrder(Step(s, a), q)
  {
    hide Step, Inv;
    var ahead := Ahead(s.queues[q]);
    forall i | 0 <= i < |ahead|
      ensures ahead[i] in Step(s, a).requests && Step(s, a).requests[ahead[i]].id == s.requests[ahead[i]].id
    {
      StaysInQueue(s, a, q, ahead[i]);
    }
    IdsSame(s, Step(s, a), ahead);
  }

  lemma {:induction false} RunInOrder(s: State, actions: seq<Action>, q: nat)
    requires Inv(s) && q < |s.queues| && InOrder(s, q)
    ensures q < |Run(s, actions).queues| && InOrder(Run(s, actions), q)
    decreases |actions|
  {
    if actions != [] {
      StepInv(s, actions[0]);
      StepInOrder(s, actions[0], q);
      RunInOrder(Step(s, actions[0]), actions[1..], q);
    }
  }

  /** A reply thread answers the requests of its queue in the order in which
      they were put in, leaving none out, and at most 4096 wait. */
  lemma AnsweredInOrder(s0: State, actions: seq<Action>, q: nat)
    requires Init(s0) && q < |s0.queues|
    ensures var s := Run(s0, actions);
            && q < |s.queues|
            && s.queues[q].done <= s.queues[q].passed
            && (s.queues[q].handler == Idle && s.queues[q].items == [] ==> s.queues[q].done == s.queues[q].passed)
            && |s.queues[q].items| <= 4096
  {
    InitInv(s0);
    RunInOrder(s0, actions, q);
    RunInv(s0, actions);
    assert QueueOk(Run(s0, actions), q);
  }
}
