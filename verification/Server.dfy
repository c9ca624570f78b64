/** The functions that make, complete, answer and free requests, in their own
    imperative form: each is one step, or two, of the life cycle. */
module Server {
  import opened Bytes
  import opened Resp
  import opened Lifecycle
  import MachineWords

  class Server {
    var requests: map<Ref, Request>
    var queues: seq<Queue>
    var setTags: set<int>
    var getTags: set<int>
    var replies: seq<Reply>
    var births: seq<Birth>
    ghost var place: map<Ref, Place>
    ghost var owing: map<nat, nat>
    ghost var left: map<nat, int>
    ghost var released: seq<Release>

    ghost function Now(): State
      reads this
    {
      State(requests, place, queues, owing, setTags, getTags, births, left, released, replies)
    }

    ghost predicate Valid()
      reads this
    {
      Inv(Now())
    }

    constructor (queueNum: nat, setTags: set<int>, getTags: set<int>)
      requires queueNum > 0
      ensures Init(Now()) && Valid() && |queues| == queueNum
      ensures this.setTags == setTags && this.getTags == getTags
    {
      requests, place, replies := map[], map[], [];
      queues := seq(queueNum, _ => Queue([], Idle, [], []));
      this.setTags, this.getTags := setTags, getTags;
      births, left, released, owing := [], map[], [], map[];
      new;
      InitInv(Now());
    }

    // ---- Requests ----

    /** calloc: every field starts as zero. */
    method AllocReq(r: Ref, kind: Kind, c: Client)
      requires r !in requests
      modifies `requests
      ensures requests == old(requests)[r := Request(|births|, kind, c, 0, 0, 0, [])]
    {
      requests := requests[r := Request(|births|, kind, c, 0, 0, 0, [])];
    }

    /** The DMA library answers with a tag that is free in the pool of the type. */
    method AllocDma(r: Ref, tag: int)
      requires r in requests && 1 <= requests[r].typ <= 2
      requires tag in if requests[r].typ == 1 then setTags else getTags
      modifies `requests, `setTags, `getTags
      ensures requests == old(requests)[r := old(requests[r]).(tag := tag)]
      ensures setTags == if old(requests[r].typ) == 1 then old(setTags) - {tag} else old(setTags)
      ensures getTags == if old(requests[r].typ) == 2 then old(getTags) - {tag} else old(getTags)
    {
      if requests[r].typ == 1 {
        setTags := setTags - {tag};
      } else {
        getTags := getTags - {tag};
      }
      requests := requests[r := requests[r].(tag := tag)];
    }

    method FreeDma(r: Ref)
      requires r in requests && 1 <= requests[r].typ <= 2
      modifies `setTags, `getTags, `released
      ensures setTags == if requests[r].typ == 1 then old(setTags) + {requests[r].tag} else old(setTags)
      ensures getTags == if requests[r].typ == 2 then old(getTags) + {requests[r].tag} else old(getTags)
      ensures released == old(released) + [Release(requests[r].id, requests[r].typ, requests[r].tag)]
    {
      if requests[r].typ == 1 {
        setTags := setTags + {requests[r].tag};
      } else {
        getTags := getTags + {requests[r].tag};
      }
      released := released + [Release(requests[r].id, requests[r].typ, requests[r].tag)];
    }

    /** The type is put right before the tag is given back. */
    method FreeReq(r: Ref)
      requires r in requests
      modifies this
      ensures Now() == Freed(old(Now()), r)
    {
      if requests[r].typ != 1 {
        requests := requests[r := requests[r].(typ := 2)];
      }
      if requests[r].typ <= 2 {
        FreeDma(r);
      }
      requests := requests - {r};
      place := place - {r};
    }

    /** The key counts from one, and the request goes to the engine. */
    method MakeReq(ghost p: nat, r: Ref)
      requires r in requests
      modifies `requests, `place, `births, `owing
      ensures requests == old(requests)[r := old(requests[r]).(key := (old(requests[r].key) + 1) % MachineWords.WORD)]
      ensures place == old(place)[r := Engine]
      ensures births == old(births) + [Birth(requests[r].kind, requests[r].client, requests[r].tag)]
      ensures owing == if requests[r].kind == Get then old(owing) else old(owing)[p := |old(births)|]
    {
      if requests[r].kind != Get {
        owing := owing[p := |births|];
      }
      requests := requests[r := requests[r].(key := (requests[r].key + 1) % MachineWords.WORD)];
      place := place[r := Engine];
      births := births + [Birth(requests[r].kind, requests[r].client, requests[r].tag)];
    }

    /** One attempt at the bounded queue of a reply thread. The ring is busy, and
        refuses although there is room, while the slot is still being read. */
    method Enqueue(q: nat, r: Ref, busy: bool) returns (ok: bool)
      requires q < |queues| && r in requests && r in place
      modifies `queues, `place
      ensures ok == (!busy && |old(queues[q].items)| < QUEUE_ROOM)
      ensures !ok ==> queues == old(queues) && place == old(place)
      ensures ok ==> place == old(place)[r := Queued(q)]
      ensures ok ==> queues == old(queues)[q := old(queues[q]).(items := old(queues[q].items) + [r],
                                                               passed := old(queues[q].passed) + [requests[r].id])]
    {
      var queue := queues[q];
      ok := !busy && |queue.items| < QUEUE_ROOM;
      if ok {
        queues := queues[q := queue.(items := queue.items + [r], passed := queue.passed + [requests[r].id])];
        place := place[r := Queued(q)];
      }
    }

    method Write(id: nat, c: Client, bytes: Bytes)
      modifies `replies
      ensures replies == old(replies) + [Reply(id, c, bytes)]
    {
      replies := replies + [Reply(id, c, bytes)];
    }

    // ---- Commands; argc counts the command's own name ----

    /** `digits` is what atoi finds behind the first four bytes of the key; p is
        the poll thread. */
    method ExecGet(ghost p: nat, c: Client, argc: int, digits: int, r: Ref, tag: int) returns (error: bool)
      requires Valid() && p !in owing && r !in requests && (argc == 2 ==> tag in getTags)
      modifies this
      ensures Valid() && error == (argc != 2)
      ensures Now() == if error then old(Now()) else Step(old(Now()), Exec(p, r, Get, c, digits, [], tag))
    {
      hide Inv;
      if argc != 2 {
        return true;
      }
      InvStep(Exec(p, r, Get, c, digits, [], tag));
      ghost var before := Now();
      AllocReq(r, Get, c);
      requests := requests[r := requests[r].(key := digits % MachineWords.WORD)];
      requests := requests[r := requests[r].(typ := 2)];
      AllocDma(r, tag);
      MakeReq(p, r);
      error := false;
      KeyOnce(digits);
      assert requests[r] == Request(|before.births|, Get, c, 2, (digits + 1) % MachineWords.WORD, tag, []);
      assert requests == before.requests[r := requests[r]];
    }

    /** A request to write, up to the copy of its value. */
    method NewWrite(r: Ref, kind: Kind, c: Client, digits: int, value: Bytes, tag: int)
      requires r !in requests && tag in setTags
      modifies `requests, `setTags, `getTags
      ensures requests == old(requests)[r := Request(|births|, kind, c, 1, digits % MachineWords.WORD, tag, value)]
      ensures setTags == old(setTags) - {tag} && getTags == old(getTags)
    {
      AllocReq(r, kind, c);
      requests := requests[r := requests[r].(key := digits % MachineWords.WORD)];
      requests := requests[r := requests[r].(typ := 1)];
      AllocDma(r, tag);
      requests := requests[r := requests[r].(value := value)];
      assert requests == old(requests)[r := requests[r]];
    }

    /** Between the hand-over of a request and its acknowledgement the other
        threads may do anything. Callers know only this contract. */
    method Others(ghost p: nat) returns (ghost others: seq<Action>)
      requires Valid()
      modifies this
      ensures Valid() && Now() == Run(old(Now()), others) && NoneOf(others, p)
    {
      others := [];
    }

    /** SET and UPT: the reply does not wait for the engine. When it is written
        the request may already have been freed. */
    method ExecSet(
        ghost p: nat, c: Client, argc: int, digits: int, value: Bytes, kind: Kind, r: Ref, tag: int)
        returns (error: bool, ghost others: seq<Action>)
      requires kind == Set || kind == Upt
      requires Valid() && p !in owing && r !in requests && (argc == 3 ==> tag in setTags)
      modifies this
      ensures Valid() && error == (argc != 3)
      ensures NoneOf(others, p)
      ensures Now() == if error then old(Now())
                       else Commanded(old(Now()), p, Exec(p, r, kind, c, digits, value, tag), others)
    {
      hide Inv;
      if argc != 3 {
        return true, [];
      }
      ghost var before, exec := Now(), Exec(p, r, kind, c, digits, value, tag);
      InvStep(exec);
      var id := |births|;
      NewWrite(r, kind, c, digits, value, tag);
      MakeReq(p, r);
      KeyOnce(digits);
      assert requests[r] == Request(id, kind, c, 1, (digits + 1) % MachineWords.WORD, tag, value);
      assert requests == before.requests[r := requests[r]];
      assert Now() == Step(before, exec);
      ghost var handed := Now();
      others := Others(p);
      OthersLeaveOwing(handed, others, p);
      InvStep(Acknowledge(p));
      Finish(p, id, c, if kind == Set then OK_REPLY else KO_REPLY);
      error := false;
    }

    /** DEL takes no tag. */
    method ExecDel(ghost p: nat, c: Client, argc: int, digits: int, r: Ref)
        returns (error: bool, ghost others: seq<Action>)
      requires Valid() && p !in owing && r !in requests
      modifies this
      ensures Valid() && error == (argc != 2)
      ensures NoneOf(others, p)
      ensures Now() == if error then old(Now())
                       else Commanded(old(Now()), p, Exec(p, r, Del, c, digits, [], 0), others)
    {
      hide Inv;
      if argc != 2 {
        return true, [];
      }
      ghost var before, exec := Now(), Exec(p, r, Del, c, digits, [], 0);
      InvStep(exec);
      var id := |births|;
      AllocReq(r, Del, c);
      requests := requests[r := requests[r].(key := digits % MachineWords.WORD)];
      requests := requests[r := requests[r].(typ := 3)];
      MakeReq(p, r);
      KeyOnce(digits);
      assert requests[r] == Request(id, Del, c, 3, (digits + 1) % MachineWords.WORD, 0, []);
      assert requests == before.requests[r := requests[r]];
      assert Now() == Step(before, exec);
      ghost var handed := Now();
      others := Others(p);
      OthersLeaveOwing(handed, others, p);
      InvStep(Acknowledge(p));
      Finish(p, id, c, KO_REPLY);
      error := false;
    }

    /** The poll thread writes the command's own reply. */
    method Finish(ghost p: nat, id: nat, c: Client, bytes: Bytes)
      requires queues != [] && Owes(Now(), p) && owing[p] == id
      requires births[id].client == c && bytes == AckBytes(births[id].kind)
      modifies `replies, `owing
      ensures Now() == Step(old(Now()), Acknowledge(p))
    {
      Write(id, c, bytes);
      owing := owing - {p};
    }

    // ---- Completion and answer ----

    /** One round of what a completion thread does with a finished request: it
        is done when the request has been freed or has been put into its queue. A
        full queue refuses it, and so does a busy one. */
    method EndReq(r: Ref, busy: bool) returns (done: bool)
      requires Valid() && r in requests && place[r] == Ending
      modifies this
      ensures Valid() && Now() == if done then Step(old(Now()), Action.EndReq(r)) else old(Now())
      ensures done <==> r !in place || place[r] != Ending
      ensures done <==>
                var req := old(requests)[r];
                req.typ == 1 || (!busy && |old(queues)[req.client.whichQueue % |old(queues)|].items| < 4096)
    {
      hide RequestOk, PlaceOk, History;
      InvStep(Action.EndReq(r));
      RequestOf(Now(), r);
      ghost var before := Now();
      if requests[r].typ == 2 {
        done := Enqueue(requests[r].client.whichQueue % |queues|, r, busy);
      } else if requests[r].typ == 1 {
        FreeReq(r);
        done := true;
      } else {
        done := Enqueue(requests[r].client.whichQueue % |queues|, r, busy);
      }
    }

    /** One attempt to take the front of a queue. The ring is busy, and reports
        that it is empty although it is not, while the front is being written. */
    method TryTake(idx: nat, busy: bool) returns (found: bool, r: Ref)
      requires Valid() && idx < |queues| && queues[idx].handler == Idle
      modifies `queues, `place
      ensures Valid() && Now() == if found then Step(old(Now()), Dequeue(idx)) else old(Now())
      ensures found == (!busy && old(queues[idx].items) != [])
      ensures found ==> r == old(queues[idx].items[0])
      ensures found ==> idx < |queues| && queues[idx].handler == Holding(r)
    {
      hide Inv;
      found, r := !busy && queues[idx].items != [], 0;
      if found {
        r := Take(idx);
      }
    }

    /** One round of a reply thread; nothing happens if it finds no request. */
    method HandleOne(idx: nat, busy: bool) returns (found: bool)
      requires Valid() && idx < |queues| && queues[idx].handler == Idle
      modifies this
      ensures Valid() && found == (!busy && old(queues[idx].items) != [])
      ensures Now() == if found then Step(Step(old(Now()), Dequeue(idx)), Answer(idx)) else old(Now())
      ensures found ==>
                var r := old(queues[idx].items[0]);
                && r in old(requests) && requests == old(requests) - {r}
                && var req := old(requests)[r];
                   replies == old(replies) + [Reply(req.id, req.client, ReplyFor(req.typ))] && req.typ != 1
    {
      hide RequestOk, PlaceOk, History, QueueOk, ReplyFor;
      var r;
      found, r := TryTake(idx, busy);
      if found {
        HeldByHandler(Now(), idx, r);
        InvStep(Answer(idx));
        Respond(idx, r);
      }
    }

    method Take(idx: nat) returns (r: Ref)
      requires Valid() && idx < |queues| && queues[idx].handler == Idle && queues[idx].items != []
      modifies `queues, `place
      ensures Valid() && Now() == Step(old(Now()), Dequeue(idx))
      ensures r == old(queues[idx].items[0]) && idx < |queues| && queues[idx].handler == Holding(r)
    {
      hide Inv;
      InvStep(Dequeue(idx));
      var queue := queues[idx];
      r := queue.items[0];
      queues := queues[idx := queue.(items := queue.items[1..], handler := Holding(r))];
      place := place[r := Held(idx)];
    }

    /** The answer depends on the type; only the type of a SET, which never gets
        here, would leave the request unfreed. */
    method Respond(idx: nat, r: Ref)
      requires r in requests && idx < |queues| && queues[idx].handler == Holding(r)
      modifies this
      ensures Now() == Answered(old(Now()), idx, r)
    {
      var req := requests[r];
      queues := queues[idx := queues[idx].(handler := Idle, done := queues[idx].done + [req.id])];
      if req.typ == 2 {
        Write(req.id, req.client, BulkBytes(Page()));
        FreeReq(r);
      } else if req.typ == 1 {
        Write(req.id, req.client, OK_REPLY);
        place := place - {r};
      } else {
        Write(req.id, req.client, NIL_REPLY);
        FreeReq(r);
      }
    }

    /** The invariant after a step, for whoever takes it. */
    lemma InvStep(a: Action)
      requires Valid()
      ensures queues != [] && Inv(Step(Now(), a))
    {
      StepInv(Now(), a);
    }
  }

  /** The poll thread p does nothing in these. */
  predicate NoneOf(actions: seq<Action>, p: nat) {
    forall i :: 0 <= i < |actions| ==> match actions[i]
                                       case Exec(t, _, _, _, _, _, _) => t != p
                                       case Acknowledge(t) => t != p
                                       case _ => true
  }

  /** A command, from its hand-over to its acknowledgement. */
  ghost function Commanded(s: State, p: nat, exec: Action, others: seq<Action>): State
    requires s.queues != []
  {
    StepShape(s, exec);
    RunShape(Step(s, exec), others);
    Step(Run(Step(s, exec), others), Acknowledge(p))
  }

  lemma {:induction false} RunShape(s: State, actions: seq<Action>)
    requires s.queues != []
    ensures Run(s, actions).queues != []
    decreases |actions|
  {
    hide Step;
    if actions != [] {
      StepShape(s, actions[0]);
      RunShape(Step(s, actions[0]), actions[1..]);
    }
  }

  /** Nobody else writes what a poll thread owes. */
  lemma {:induction false} OthersLeaveOwing(s: State, others: seq<Action>, p: nat)
    requires s.queues != [] && Owes(s, p) && NoneOf(others, p)
    ensures var s' := Run(s, others);
            s'.queues != [] && Owes(s', p) && s'.owing[p] == s.owing[p] && s.births <= s'.births
    decreases |others|
  {
    hide Step;
    if others != [] {
      StepShape(s, others[0]);
      OtherLeavesOwing(s, others[0], p);
      assert NoneOf(others[1..], p);
      OthersLeaveOwing(Step(s, others[0]), others[1..], p);
    }
  }

  lemma OtherLeavesOwing(s: State, a: Action, p: nat)
    requires s.queues != [] && Owes(s, p) && NoneOf([a], p)
    ensures var s' := Step(s, a); Owes(s', p) && s'.owing[p] == s.owing[p] && s.births <= s'.births
  {
    hide ReplyFor, MayLeave, AckBytes;
    assert [a][0] == a;
  }

  lemma KeyOnce(digits: int)
    ensures (digits % MachineWords.WORD + 1) % MachineWords.WORD == (digits + 1) % MachineWords.WORD
  {
  }
}
