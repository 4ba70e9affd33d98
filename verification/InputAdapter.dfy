/** User input requests: clients add, read and cancel requests while one handler thread asks them
    one after the other. */
module InputAdapter {
  import opened Workspaces

  /** Requests and replies are opaque; numbers stand for them. */
  datatype Request = Request(id: nat, text: nat)

  /** The fields guarded by the adapter's lock. */
  datatype Core = Core(queue: seq<Request>, replies: map<nat, nat>, current: nat, last: nat, halt: bool)

  // ---------------------------------------------------------------- what happens under the lock

  function Add(c: Core, text: nat): Core {
    c.(last := c.last + 1, queue := c.queue + [Request(c.last + 1, text)])
  }

  function Take(c: Core): Core
    requires c.queue != []
  {
    c.(queue := c.queue[1..], current := c.queue[0].id)
  }

  /** The handler comes back with the reply to request id: it is kept unless the request was cancelled. */
  function Answer(c: Core, id: nat, reply: nat): Core {
    c.(replies := if c.current == id then c.replies[id := reply] else c.replies, current := 0)
  }

  predicate Queued(q: seq<Request>, id: nat) {
    exists i :: 0 <= i < |q| && q[i].id == id
  }

  function Without(q: seq<Request>, id: nat): seq<Request> {
    if q == [] then []
    else if q[0].id == id then q[1..]
    else [q[0]] + Without(q[1..], id)
  }

  function Cancel(c: Core, id: nat): Core {
    if Queued(c.queue, id) then c.(queue := Without(c.queue, id))
    else if id in c.replies then c.(replies := c.replies - {id})
    else if c.current == id then c.(current := 0)
    else c
  }

  /** Cancelling calls the interrupt function for a request that is being asked. */
  predicate Interrupts(c: Core, id: nat) {
    !Queued(c.queue, id) && id !in c.replies && c.current == id
  }

  // ---------------------------------------------------------------- the protocol

  datatype Handler = Waiting | Asking(request: Request) | Stopped

  /** The adapter, its handler thread, the live futures and the history of the requests. */
  datatype State = State(
    core: Core,
    handler: Handler,
    live: set<nat>,                    // ids of futures that were not read or destroyed
    cancelled: set<nat>,
    added: seq<nat>,                   // the text of request number k is added[k - 1]
    asked: seq<Request>,               // requests given to the input function, in order
    answers: map<nat, nat>,            // what the input function returned
    delivered: map<nat, nat>,          // what clients read
    readIds: seq<nat>)                 // ids of the successful reads, in order

  const START: State := State(Core([], map[], 0, 0, false), Waiting, {}, {}, [], [], map[], map[], [])

  datatype Move =
    | AddRequest(text: nat)
    | TakeRequest
    | GiveReply(reply: nat)
    | Read(id: nat)       // Future::GetValue
    | Drop(id: nat)       // the destructor of a future
    | Shutdown            // the destructor of the adapter
    | Stop

  predicate Can(s: State, m: Move) {
    match m
    case AddRequest(_) => true
    case TakeRequest => s.handler == Waiting && !s.core.halt && s.core.queue != []
    case GiveReply(_) => s.handler.Asking?
    case Read(id) => id in s.live
    case Drop(id) => id in s.live
    case Shutdown => true
    case Stop => s.handler == Waiting && s.core.halt
  }

  function Do(s: State, m: Move): State
    requires Can(s, m)
  {
    match m
    case AddRequest(text) =>
      s.(core := Add(s.core, text), live := s.live + {s.core.last + 1}, added := s.added + [text])
    case TakeRequest =>
      s.(core := Take(s.core), handler := Asking(s.core.queue[0]), asked := s.asked + [s.core.queue[0]])
    case GiveReply(reply) =>
      var id := s.handler.request.id;
      s.(core := Answer(s.core, id, reply), handler := Waiting, answers := s.answers[id := reply])
    case Read(id) =>
      if id in s.core.replies then
        s.(core := s.core.(replies := s.core.replies - {id}), live := s.live - {id},
           delivered := s.delivered[id := s.core.replies[id]], readIds := s.readIds + [id])
      else s
    case Drop(id) => s.(core := Cancel(s.core, id), live := s.live - {id}, cancelled := s.cancelled + {id})
    case Shutdown => s.(core := s.core.(halt := true))
    case Stop => s.(handler := Stopped)
  }

  predicate Possible(s: State, moves: seq<Move>)
    decreases |moves|
  {
    moves == [] || (Can(s, moves[0]) && Possible(Do(s, moves[0]), moves[1..]))
  }

  function After(s: State, moves: seq<Move>): State
    requires Possible(s, moves)
    decreases |moves|
  {
    if moves == [] then s else After(Do(s, moves[0]), moves[1..])
  }

  // ---------------------------------------------------------------- what every run keeps

  predicate Increasing(q: seq<Request>) {
    forall i, j :: 0 <= i < j < |q| ==> q[i].id < q[j].id
  }

  /** A request that was really added. */
  predicate Genuine(r: Request, added: seq<nat>) {
    1 <= r.id <= |added| && r.text == added[r.id - 1]
  }

  /** Requests wait, and are asked, in the order in which they were added. */
  predicate InOrder(s: State) {
    && |s.added| == s.core.last
    && Increasing(s.asked) && Increasing(s.core.queue)
    && (forall i :: 0 <= i < |s.asked| ==> Genuine(s.asked[i], s.added))
    && (forall r :: r in s.core.queue ==> Genuine(r, s.added))
    && (s.asked != [] ==> forall r :: r in s.core.queue ==> s.asked[|s.asked| - 1].id < r.id)
  }

  /** The current id is that of the request the handler is busy with, or 0. */
  predicate CurrentIsBusy(s: State) {
    && (s.core.current != 0 ==> s.handler.Asking? && s.handler.request.id == s.core.current)
    && (s.handler.Asking? ==>
      && s.asked != [] && s.handler.request == s.asked[|s.asked| - 1]
      && s.handler.request.id !in s.core.replies && s.handler.request.id !in s.delivered)
  }

  /** The places a request can be in. */
  predicate InQueue(s: State, id: nat) { Queued(s.core.queue, id) }
  predicate IsCurrent(s: State, id: nat) { s.core.current == id && id != 0 }
  predicate HasReply(s: State, id: nat) { id in s.core.replies }

  predicate OnePlace(s: State, id: nat) {
    || (InQueue(s, id) && !IsCurrent(s, id) && !HasReply(s, id))
    || (!InQueue(s, id) && IsCurrent(s, id) && !HasReply(s, id))
    || (!InQueue(s, id) && !IsCurrent(s, id) && HasReply(s, id))
  }

  /** A request is somewhere exactly if its future is live, and then in one place. */
  predicate Placed(s: State) {
    && (forall id :: id in s.live ==> 1 <= id <= s.core.last && OnePlace(s, id))
    && (forall r :: r in s.core.queue ==> r.id in s.live)
    && (s.core.current != 0 ==> s.core.current in s.live)
    && (forall id :: id in s.core.replies ==> id in s.live)
  }

  /** Stored and delivered replies are what was answered, and nothing is delivered twice. */
  predicate Answered(s: State) {
    && (forall id :: id in s.core.replies ==> id in s.answers && s.core.replies[id] == s.answers[id])
    && (forall id :: id in s.delivered ==> id in s.answers && s.delivered[id] == s.answers[id] && id !in s.live)
    && (forall i :: 0 <= i < |s.readIds| ==> s.readIds[i] in s.delivered)
    && (forall i, j :: 0 <= i < j < |s.readIds| ==> s.readIds[i] != s.readIds[j])
    && (forall id :: id in s.delivered ==> 1 <= id <= s.core.last)
    && (forall id :: id in s.cancelled ==> 1 <= id <= s.core.last)
    && (forall id :: id in s.cancelled ==> id !in s.live && id !in s.delivered)
    && (forall id :: 1 <= id <= s.core.last ==> id in s.live || id in s.cancelled || id in s.delivered)
  }

  predicate Inv(s: State) {
    InOrder(s) && CurrentIsBusy(s) && Placed(s) && Answered(s)
  }

  // ---------------------------------------------------------------- adding and asking

  lemma {:induction false} QueuedAppend(q: seq<Request>, r: Request, id: nat)
    ensures Queued(q + [r], id) <==> Queued(q, id) || r.id == id
  {
    var t := q + [r];
    if Queued(q, id) {
      var i :| 0 <= i < |q| && q[i].id == id;
      assert t[i].id == id;
    }
    assert t[|q|] == r;
  }

  lemma {:induction false} QueuedTail(q: seq<Request>, id: nat)
    requires q != [] && Increasing(q)
    ensures Queued(q[1..], id) <==> Queued(q, id) && q[0].id != id
  {
    if Queued(q[1..], id) {
      var i :| 0 <= i < |q[1..]| && q[1..][i].id == id;
      assert q[i + 1].id == id;
    }
    if Queued(q, id) && q[0].id != id {
      var i :| 0 <= i < |q| && q[i].id == id;
      assert q[1..][i - 1].id == id;
    }
  }

  lemma {:induction false} AddKeepsOrder(s: State, text: nat)
    requires Inv(s)
    ensures InOrder(Do(s, AddRequest(text))) && CurrentIsBusy(Do(s, AddRequest(text)))
  {
    var r := Request(s.core.last + 1, text);
    AppendIncreasing(s.core.queue, r);
    forall x | x in s.core.queue + [r] ensures Genuine(x, s.added + [text]) {
      StaysGenuine(x, s.added, text);
    }
    forall i | 0 <= i < |s.asked| ensures Genuine(s.asked[i], s.added + [text]) {
      StaysGenuine(s.asked[i], s.added, text);
    }
  }

  lemma {:induction false} StaysGenuine(r: Request, added: seq<nat>, text: nat)
    ensures Genuine(r, added) ==> Genuine(r, added + [text])
    ensures r == Request(|added| + 1, text) ==> Genuine(r, added + [text])
  {
  }

  lemma {:induction false} AppendIncreasing(q: seq<Request>, r: Request)
    requires Increasing(q) && forall x :: x in q ==> x.id < r.id
    ensures Increasing(q + [r])
  {
    assert forall i :: 0 <= i < |q| ==> q[i] in q;
  }

  lemma {:induction false} AddKeepsPlaces(s: State, text: nat)
    requires Inv(s)
    ensures Placed(Do(s, AddRequest(text))) && Answered(Do(s, AddRequest(text)))
  {
    var t := Do(s, AddRequest(text));
    forall id | id in t.live ensures 1 <= id <= t.core.last && OnePlace(t, id) {
      QueuedAppend(s.core.queue, Request(s.core.last + 1, text), id);
    }
  }

  lemma {:induction false} TakeKeepsOrder(s: State)
    requires Inv(s) && Can(s, TakeRequest)
    ensures InOrder(Do(s, TakeRequest)) && CurrentIsBusy(Do(s, TakeRequest))
  {
    var q := s.core.queue;
    assert q[0].id in s.live;
    assert OnePlace(s, q[0].id);
    assert Queued(q, q[0].id);
  }

  lemma {:induction false} TakeKeepsPlaces(s: State)
    requires Inv(s) && Can(s, TakeRequest)
    ensures Placed(Do(s, TakeRequest)) && Answered(Do(s, TakeRequest))
  {
    var q, t := s.core.queue, Do(s, TakeRequest);
    assert q[0].id in s.live;
    forall id | id in t.live ensures OnePlace(t, id) {
      QueuedTail(q, id);
      assert OnePlace(s, id);
    }
  }

  lemma {:induction false} ReplyKeepsInv(s: State, reply: nat)
    requires Inv(s) && Can(s, GiveReply(reply))
    ensures Inv(Do(s, GiveReply(reply)))
  {
    var t := Do(s, GiveReply(reply));
    forall id | id in t.live ensures OnePlace(t, id) {
      assert OnePlace(s, id);
    }
  }

  lemma {:induction false} ReadKeepsInv(s: State, id: nat)
    requires Inv(s) && Can(s, Read(id))
    ensures Inv(Do(s, Read(id)))
  {
    ReadKeepsPlaces(s, id);
  }

  lemma {:induction false} ReadKeepsPlaces(s: State, id: nat)
    requires Inv(s) && Can(s, Read(id))
    ensures Placed(Do(s, Read(id)))
  {
    var t := Do(s, Read(id));
    forall x | x in t.live ensures OnePlace(t, x) {
      assert OnePlace(s, x);
    }
    assert OnePlace(s, id);
    forall i | 0 <= i < |t.core.queue| ensures t.core.queue[i].id in t.live {
      assert Queued(s.core.queue, s.core.queue[i].id);
    }
  }

  // ---------------------------------------------------------------- cancelling

  lemma {:induction false} WithoutTail(q: seq<Request>, id: nat)
    requires q != [] && q[0].id != id
    ensures Without(q, id) == [q[0]] + Without(q[1..], id)
  {
  }

  /** Removing a request keeps the order of the others. */
  lemma {:induction false} WithoutKeeps(q: seq<Request>, id: nat)
    requires Increasing(q)
    ensures Increasing(Without(q, id))
    ensures forall r :: r in Without(q, id) <==> r in q && r.id != id
  {
    if q != [] {
      WithoutKeeps(q[1..], id);
      assert forall r :: r in q <==> r == q[0] || r in q[1..];
      if q[0].id != id {
        var w := Without(q[1..], id);
        forall i | 0 <= i < |w| ensures q[0].id < w[i].id {
          assert w[i] in q[1..];
        }
      }
    }
  }

  lemma {:induction false} QueuedWithout(q: seq<Request>, id: nat, x: nat)
    requires Increasing(q)
    ensures Queued(Without(q, id), x) <==> Queued(q, x) && x != id
  {
    WithoutKeeps(q, id);
    var w := Without(q, id);
    if Queued(w, x) {
      var i :| 0 <= i < |w| && w[i].id == x;
      assert w[i] in q;
    }
    if Queued(q, x) && x != id {
      var i :| 0 <= i < |q| && q[i].id == x;
      assert q[i] in w;
    }
  }

  lemma {:induction false} DropKeepsBusy(s: State, id: nat)
    requires Inv(s) && Can(s, Drop(id))
    ensures CurrentIsBusy(Do(s, Drop(id)))
  {
  }

  lemma {:induction false} CancelKeepsQueue(c: Core, id: nat)
    requires Increasing(c.queue)
    ensures Increasing(Cancel(c, id).queue) && Cancel(c, id).last == c.last
    ensures forall r :: r in Cancel(c, id).queue ==> r in c.queue
  {
    WithoutKeeps(c.queue, id);
  }

  lemma {:induction false} DropKeepsOrder(s: State, id: nat)
    requires Inv(s) && Can(s, Drop(id))
    ensures InOrder(Do(s, Drop(id)))
  {
    CancelKeepsQueue(s.core, id);
    assert Do(s, Drop(id)).core == Cancel(s.core, id);
  }

  lemma {:induction false} DropPlaces(s: State, id: nat, x: nat)
    requires Inv(s) && Can(s, Drop(id)) && x in s.live && x != id
    ensures OnePlace(Do(s, Drop(id)), x)
  {
    assert OnePlace(s, x) && OnePlace(s, id);
    QueuedWithout(s.core.queue, id, x);
  }

  lemma {:induction false} DropKeepsAnswers(s: State, id: nat)
    requires Inv(s) && Can(s, Drop(id))
    ensures Answered(Do(s, Drop(id)))
  {
  }

  lemma {:induction false} DropKeepsPlaces(s: State, id: nat)
    requires Inv(s) && Can(s, Drop(id))
    ensures Placed(Do(s, Drop(id)))
  {
    var t := Do(s, Drop(id));
    forall x | x in t.live ensures OnePlace(t, x) {
      DropPlaces(s, id, x);
    }
    DroppedIsNowhere(s, id);
  }

  lemma {:induction false} DroppedIsNowhere(s: State, id: nat)
    requires Inv(s) && Can(s, Drop(id))
    ensures var t := Do(s, Drop(id));
      && (forall r :: r in t.core.queue ==> r in s.core.queue && r.id != id)
      && t.core.current != id && id !in t.core.replies
  {
    assert OnePlace(s, id);
    WithoutKeeps(s.core.queue, id);
    forall r | r in s.core.queue ensures Queued(s.core.queue, r.id) {
      var i :| 0 <= i < |s.core.queue| && s.core.queue[i] == r;
    }
  }

  // ---------------------------------------------------------------- whole runs

  lemma {:induction false} MoveKeepsInv(s: State, m: Move)
    requires Inv(s) && Can(s, m)
    ensures Inv(Do(s, m))
  {
    match m
    case AddRequest(text) =>
      AddKeepsOrder(s, text);
      AddKeepsPlaces(s, text);
    case TakeRequest =>
      TakeKeepsOrder(s);
      TakeKeepsPlaces(s);
    case GiveReply(reply) => ReplyKeepsInv(s, reply);
    case Read(id) => ReadKeepsInv(s, id);
    case Drop(id) =>
      DropKeepsOrder(s, id);
      DropKeepsBusy(s, id);
      DropKeepsPlaces(s, id);
      DropKeepsAnswers(s, id);
    case Shutdown => HandlerAside(s, m);
    case Stop => HandlerAside(s, m);
  }

  lemma {:induction false} HandlerAside(s: State, m: Move)
    requires Inv(s) && Can(s, m) && (m.Shutdown? || m.Stop?)
    ensures Inv(Do(s, m))
  {
    var t := Do(s, m);
    forall id | id in t.live ensures OnePlace(t, id) {
      assert OnePlace(s, id);
    }
  }

  lemma {:induction false} RunKeepsInv(s: State, moves: seq<Move>)
    requires Inv(s) && Possible(s, moves)
    ensures Inv(After(s, moves))
    decreases |moves|
  {
    if moves != [] {
      MoveKeepsInv(s, moves[0]);
      RunKeepsInv(Do(s, moves[0]), moves[1..]);
    }
  }

  /** In every reachable state a request that was neither cancelled nor read is in exactly one of the
      queue, the handler and the stored replies, and any other is in none of them. */
  lemma {:induction false} EveryRequestHasOnePlace(moves: seq<Move>, id: nat)
    requires Possible(START, moves)
    ensures var s := After(START, moves);
      if 1 <= id <= s.core.last && id !in s.cancelled && id !in s.delivered then OnePlace(s, id)
      else !InQueue(s, id) && !IsCurrent(s, id) && !HasReply(s, id)
  {
    RunKeepsInv(START, moves);
  }

  /** The current id is 0 or that of the request being asked; requests are asked one at a time, in
      the order of their ids, with the text they were added with. */
  lemma {:induction false} AskedInOrder(moves: seq<Move>)
    requires Possible(START, moves)
    ensures var s := After(START, moves);
      && (s.core.current == 0 || (s.handler.Asking? && s.handler.request.id == s.core.current))
      && (s.handler.Asking? ==> s.handler.request in s.asked)
      && Increasing(s.asked)
      && forall i :: 0 <= i < |s.asked| ==> Genuine(s.asked[i], s.added)
  {
    RunKeepsInv(START, moves);
  }

  /** A reply is delivered at most once, is the one that was given to that request, and never
      belongs to a cancelled one; every stored reply has a live future. */
  lemma {:induction false} RepliesAreDeliveredOnce(moves: seq<Move>)
    requires Possible(START, moves)
    ensures var s := After(START, moves);
      && (forall i, j :: 0 <= i < j < |s.readIds| ==> s.readIds[i] != s.readIds[j])
      && (forall id :: id in s.delivered ==> id in s.answers && s.delivered[id] == s.answers[id])
      && (forall id :: id in s.core.replies ==> id in s.live && id !in s.cancelled)
      && (forall id :: id in s.delivered ==> id !in s.cancelled)
  {
    RunKeepsInv(START, moves);
  }

  // ---------------------------------------------------------------- the objects

  // ---------------------------------------------------------------- what the handler gets done

  lemma {:induction false} RunKeepsHandler(s: State, moves: seq<Move>)
    requires Inv(s) && Possible(s, moves) && (s.handler == Stopped ==> s.core.halt)
    ensures After(s, moves).handler == Stopped ==> After(s, moves).core.halt
    decreases |moves|
  {
    if moves != [] {
      MoveKeepsInv(s, moves[0]);
      RunKeepsHandler(Do(s, moves[0]), moves[1..]);
    }
  }

  /** The handler leaves the reply for the client exactly if the request is still live. */
  lemma {:induction false} ReplyIsKept(s: State, reply: nat)
    requires Inv(s) && s.handler.Asking?
    ensures Can(s, GiveReply(reply))
    ensures var t := Do(s, GiveReply(reply));
            var id := s.handler.request.id;
            t.handler == Waiting && t.core.queue == s.core.queue
            && t.core.replies == if id in s.live then s.core.replies[id := reply] else s.core.replies
  {
    AskedIsCurrent(s, s.handler.request.id);
  }

  /** In every reachable state of an adapter that is not shut down the handler is at work: waiting, it asks
      the oldest request as soon as there is one; asking, it leaves the reply for the client, unless the
      request was cancelled meanwhile. */
  lemma {:induction false} HandlerServes(moves: seq<Move>, reply: nat)
    requires Possible(START, moves) && !After(START, moves).core.halt
    ensures var s := After(START, moves);
            && s.handler != Stopped
            && (s.handler == Waiting && s.core.queue != [] ==>
                  && Can(s, TakeRequest)
                  && var t := Do(s, TakeRequest);
                  t.handler == Asking(s.core.queue[0]) && t.core.current == s.core.queue[0].id
                  && t.core.queue == s.core.queue[1..])
            && (s.handler.Asking? ==>
                  && Can(s, GiveReply(reply))
                  && var t := Do(s, GiveReply(reply));
                  var id := s.handler.request.id;
                  t.handler == Waiting && t.core.queue == s.core.queue
                  && t.core.replies == if id in s.live then s.core.replies[id := reply] else s.core.replies)
  {
    RunKeepsInv(START, moves);
    RunKeepsHandler(START, moves);
    if After(START, moves).handler.Asking? {
      ReplyIsKept(After(START, moves), reply);
    }
  }

  lemma {:induction false} AskedIsCurrent(s: State, id: nat)
    requires Inv(s) && s.handler.Asking? && s.handler.request.id == id
    ensures id in s.live <==> s.core.current == id
    ensures !Queued(s.core.queue, id) && id !in s.core.replies && id != 0
  {
    assert s.asked[|s.asked| - 1] == s.handler.request;
    if id in s.live {
      assert OnePlace(s, id);
    }
  }

  /** Destroying a live future interrupts the input function exactly if it is asking just that request. */
  lemma {:induction false} CancelInterruptsAsked(moves: seq<Move>, id: nat)
    requires Possible(START, moves) && id in After(START, moves).live
    ensures var s := After(START, moves);
            Interrupts(s.core, id) <==> s.handler.Asking? && s.handler.request.id == id
  {
    RunKeepsInv(START, moves);
    var s := After(START, moves);
    assert OnePlace(s, id);
    if s.handler.Asking? && s.handler.request.id == id {
      AskedIsCurrent(s, id);
    }
  }

  /** The adapter; each method is what its namesake does while it holds the lock. */
  class AsyncInputAdapter {
    var requestQueue: seq<Request>
    var replies: map<nat, nat>
    var currentId: nat
    var lastRequestId: nat
    var halt: bool
    ghost var interrupted: seq<nat>

    ghost function View(): Core
      reads this
    {
      Core(requestQueue, replies, currentId, lastRequestId, halt)
    }

    constructor ()
      ensures View() == START.core && interrupted == []
    {
      requestQueue, replies, currentId, lastRequestId, halt, interrupted := [], map[], 0, 0, false, [];
    }

    method AddUserInputRequest(text: nat) returns (future: Future)
      modifies this
      ensures View() == Add(old(View()), text) && interrupted == old(interrupted)
      ensures fresh(future) && future.adapter == this && future.id == lastRequestId
    {
      var id := GetNewRequestId();
      requestQueue := requestQueue + [Request(id, text)];
      future := new Future(this, id);
    }

    method GetNewRequestId() returns (id: nat)
      modifies `lastRequestId
      ensures lastRequestId == old(lastRequestId) + 1 && id == lastRequestId
    {
      lastRequestId := lastRequestId + 1;
      return lastRequestId;
    }

    /** The first half of HandleRequestQueue's loop, once there is something to wake up for: the next
        request, or nothing when the adapter was halted and the loop ends. */
    method NextRequest() returns (r: Option<Request>)
      requires halt || requestQueue != []
      modifies this
      ensures interrupted == old(interrupted)
      ensures r == if old(halt) then None else Some(old(requestQueue[0]))
      ensures View() == if old(halt) then old(View()) else Take(old(View()))
    {
      if halt {
        return None;
      }
      var request := requestQueue[0];
      requestQueue := requestQueue[1..];
      currentId := request.id;
      return Some(request);
    }

    /** The destructor: interrupts a request that is being asked, and lets the handler's loop end. */
    method Shutdown()
      modifies this
      ensures View() == old(View()).(halt := true)
      ensures interrupted == old(interrupted) + if currentId != 0 then [currentId] else []
    {
      if currentId != 0 {
        interrupted := interrupted + [currentId];
      }
      halt := true;
    }

    /** The second half, once the input function returned. */
    method StoreReply(id: nat, reply: nat)
      modifies this
      ensures View() == Answer(old(View()), id, reply) && interrupted == old(interrupted)
    {
      if currentId == id {
        replies := replies[currentId := reply];
      }
      currentId := 0;
    }

    /** Fails for invalid futures and while there is no reply. */
    method GetReply(id: nat) returns (r: Option<nat>)
      modifies this
      ensures interrupted == old(interrupted)
      ensures r == if id != 0 && id in old(replies) then Some(old(replies)[id]) else None
      ensures View() == if r.Some? then old(View()).(replies := old(replies) - {id}) else old(View())
    {
      if id == 0 || id !in replies {
        return None;
      }
      r := Some(replies[id]);
      replies := replies - {id};
    }

    method CancelInputRequest(id: nat)
      modifies this
      ensures View() == if id == 0 then old(View()) else Cancel(old(View()), id)
      ensures interrupted == old(interrupted) + if id != 0 && Interrupts(old(View()), id) then [id] else []
    {
      if id == 0 {
        return;
      }
      var i := FindRequest(id);
      WithoutAt(requestQueue, id, i);
      if i < |requestQueue| {
        requestQueue := requestQueue[..i] + requestQueue[i + 1..];
        return;
      }
      if id in replies {
        replies := replies - {id};
        return;
      }
      if currentId == id {
        interrupted := interrupted + [id];
        currentId := 0;
      }
    }

    method FindRequest(id: nat) returns (i: nat)
      ensures i <= |requestQueue|
      ensures forall j :: 0 <= j < i ==> requestQueue[j].id != id
      ensures i < |requestQueue| ==> requestQueue[i].id == id
    {
      i := 0;
      while i < |requestQueue| && requestQueue[i].id != id
        invariant i <= |requestQueue|
        invariant forall j :: 0 <= j < i ==> requestQueue[j].id != id
      {
        i := i + 1;
      }
    }
  }

  lemma {:induction false} WithoutAt(q: seq<Request>, id: nat, i: nat)
    requires i <= |q| && (forall j :: 0 <= j < i ==> q[j].id != id) && (i < |q| ==> q[i].id == id)
    ensures Without(q, id) == if i < |q| then q[..i] + q[i + 1..] else q
    ensures Queued(q, id) <==> i < |q|
  {
    if i > 0 {
      WithoutAt(q[1..], id, i - 1);
      WithoutTail(q, id);
      CutLater(q, i);
    }
  }

  lemma {:induction false} CutLater(q: seq<Request>, i: nat)
    requires 0 < i <= |q|
    ensures i < |q| ==> [q[0]] + (q[1..][..i - 1] + q[1..][i..]) == q[..i] + q[i + 1..]
    ensures [q[0]] + q[1..] == q
  {
  }

  /** The client's handle; an id of 0 marks one that was read. */
  class Future {
    const adapter: AsyncInputAdapter
    var id: nat

    constructor (adapter: AsyncInputAdapter, id: nat)
      ensures this.adapter == adapter && this.id == id
    {
      this.adapter := adapter;
      this.id := id;
    }

    method GetValue() returns (r: Option<nat>)
      modifies this, adapter
      ensures r == if old(id) != 0 && old(id) in old(adapter.replies) then Some(old(adapter.replies)[old(id)]) else None
      ensures id == if r.Some? then 0 else old(id)
      ensures adapter.View() ==
        if r.Some? then old(adapter.View()).(replies := old(adapter.replies) - {old(id)}) else old(adapter.View())
    {
      r := adapter.GetReply(id);
      if r.Some? {
        id := 0;
      }
    }

    /** The destructor. */
    method Destroy()
      modifies adapter
      ensures adapter.View() == if id != 0 then Cancel(old(adapter.View()), id) else old(adapter.View())
    {
      if id != 0 {
        adapter.CancelInputRequest(id);
      }
    }
  }
}
