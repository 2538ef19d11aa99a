/** The server's event loop (server/src/server.rs, server/src/queue.rs): connection slots that are freed and
  * reused, requests handed to a worker, and worker responses routed back by slot number and request id.
  */
module Routing {
  import opened Common

  const MAX_RECYCLED: nat := 64

  /** The bytes of an HTTP response: never empty. */
  type Text = t: seq<Byte> | |t| > 0 witness [0]

  datatype Phase = Reading | Processing | Writing

  /** A connection. `serial` tells connections apart that use the same slot one after the other (a history, not
    * read by any step).
    */
  datatype Connection = Connection(
    serial: nat,
    recv: seq<Byte>,
    send: seq<Byte>,
    sendPos: nat,
    pending: Option<nat>,
    phase: Phase,
    shouldClose: bool
  )

  datatype Recycled = Recycled(recv: seq<Byte>, send: seq<Byte>)

  /** A worker's response, with the id and token embedded in its sender. */
  datatype Response = Response(id: nat, token: nat, result: string)

  datatype Reply = Error(text: Text) | FromWorker(response: Response, text: Text)

  /** The history of one connection: what its requests became (an id handed to the worker, or None when
    * rejected at once), the replies queued to it, and the bytes put on its socket.
    */
  datatype Session = Session(asks: seq<Option<nat>>, replies: seq<Reply>, wire: seq<Byte>)

  /** Who submitted a request id, through which token, and whether the request asked to close afterwards. */
  datatype Owner = Owner(serial: nat, token: nat, close: bool)

  datatype State = State(
    connections: seq<Option<Connection>>,
    free: seq<nat>,
    recycled: seq<Recycled>,
    nextId: nat,
    responses: seq<Response>,
    issued: map<nat, Owner>,      // history
    sessions: seq<Session>        // history, by serial
  )

  /** What the socket and the request parser make of a readable event. */
  datatype ReadOutcome =
    | Closed
    | ReadFailed
    | Incomplete(bytes: seq<Byte>)
    | Rejected(bytes: seq<Byte>, text: Text, idSpent: bool)
    | Submitted(bytes: seq<Byte>, close: bool)

  /** How many bytes the socket took before it would block, or before it failed. */
  datatype WriteOutcome = Progress(n: nat) | Broken(n: nat)

  datatype Input =
    | Accept
    | Event(idx: nat, readable: Option<ReadOutcome>, writable: Option<WriteOutcome>)
    | Work(id: nat, result: string)
    | Deliver(text: Text, write: WriteOutcome)

  // ------------------------------------------------------------ one connection

  /** The connection an event is about, with everything its handling may change. */
  datatype Local = Local(conn: Connection, session: Session, remove: bool, nextId: nat, issued: map<nat, Owner>)

  function Queued(c: Connection, text: Text): (c': Connection)
  {
    c.(send := text, sendPos := 0, phase := Writing)
  }

  /** `reset_for_next_request`. */
  function Reset(c: Connection): (c': Connection)
  {
    c.(recv := [], send := [], sendPos := 0, pending := None, phase := Reading)
  }

  function OnReadable(l: Local, token: nat, outcome: ReadOutcome): (l': Local)
  {
    var c := l.conn;
    if !c.phase.Reading? then l
    else match outcome
      case Closed => l.(remove := true)
      case ReadFailed => l.(remove := true)
      case Incomplete(bytes) => l.(conn := c.(recv := c.recv + bytes))
      case Rejected(bytes, text, idSpent) =>
        if c.pending.Some? then l.(conn := c.(recv := c.recv + bytes))
        else l.(conn := Queued(c.(recv := c.recv + bytes), text),
                nextId := if idSpent then l.nextId + 1 else l.nextId,
                session := l.session.(asks := l.session.asks + [None], replies := l.session.replies + [Error(text)]))
      case Submitted(bytes, close) =>
        if c.pending.Some? then l.(conn := c.(recv := c.recv + bytes))
        else l.(conn := c.(pending := Some(l.nextId), shouldClose := close, phase := Processing, recv := []),
                nextId := l.nextId + 1,
                issued := l.issued[l.nextId := Owner(c.serial, token, close)],
                session := l.session.(asks := l.session.asks + [Some(l.nextId)]))
  }

  function Sent(c: Connection, n: nat): (m: nat)
    requires c.sendPos <= |c.send|
    ensures c.sendPos + m <= |c.send|
  {
    if c.sendPos + n <= |c.send| then n else |c.send| - c.sendPos
  }

  /** `try_write` and what follows it. */
  function OnWrite(l: Local, outcome: WriteOutcome): (l': Local)
    requires l.conn.sendPos <= |l.conn.send|
  {
    var c := l.conn;
    var m := Sent(c, outcome.n);
    var wrote := l.(conn := c.(sendPos := c.sendPos + m),
                    session := l.session.(wire := l.session.wire + c.send[c.sendPos..c.sendPos + m]));
    if outcome.Broken? then wrote.(remove := true)
    else if wrote.conn.sendPos < |c.send| then wrote
    else if c.shouldClose then wrote.(remove := true)
    else wrote.(conn := Reset(wrote.conn))
  }

  function OnWritable(l: Local, outcome: WriteOutcome): (l': Local)
    requires l.conn.sendPos <= |l.conn.send|
  {
    if l.conn.send == [] then l else OnWrite(l, outcome)
  }

  function OnEvent(l: Local, token: nat, readable: Option<ReadOutcome>, writable: Option<WriteOutcome>): (l': Local)
    requires l.conn.sendPos <= |l.conn.send|
  {
    var afterRead := if readable.Some? then OnReadable(l, token, readable.value) else l;
    if afterRead.remove || writable.None? then afterRead else OnWritable(afterRead, writable.value)
  }

  /** A response whose id is the one the connection waits for. */
  function OnReply(l: Local, response: Response, text: Text, write: WriteOutcome): (l': Local)
  {
    OnWrite(l.(conn := Queued(l.conn, text).(pending := None),
               session := l.session.(replies := l.session.replies + [FromWorker(response, text)])), write)
  }

  // ------------------------------------------------------------ the pool of slots

  function Live(connections: seq<Option<Connection>>, idx: nat): (r: Option<Connection>)
  {
    if idx < |connections| then connections[idx] else None
  }

  function NewConnection(serial: nat, buffers: Recycled): (c: Connection)
  {
    Connection(serial, buffers.recv, buffers.send, 0, None, Reading, false)
  }

  class ConnectionPool {
    var connections: seq<Option<Connection>>
    var freeSlots: seq<nat>
    var recycled: seq<Recycled>

    constructor ()
      ensures connections == [] && freeSlots == [] && recycled == []
    {
      connections, freeSlots, recycled := [], [], [];
    }

    /** Takes buffers from the recycling list when there are some. */
    method CreateConnection(serial: nat) returns (conn: Connection)
      modifies this`recycled
      ensures conn == NewConnection(serial, TopRecycled(old(recycled)))
      ensures recycled == Popped(old(recycled))
    {
      if recycled == [] {
        conn := NewConnection(serial, Recycled([], []));
      } else {
        conn := NewConnection(serial, recycled[|recycled| - 1]);
        recycled := recycled[..|recycled| - 1];
      }
    }

    method AllocEmpty() returns (idx: nat)
      modifies this`connections, this`freeSlots
      ensures idx == Slot(old(connections), old(freeSlots))
      ensures freeSlots == Popped(old(freeSlots))
      ensures connections == if old(freeSlots) == [] then old(connections) + [None] else old(connections)
    {
      if freeSlots == [] {
        idx := |connections|;
        connections := connections + [None];
      } else {
        idx := freeSlots[|freeSlots| - 1];
        freeSlots := freeSlots[..|freeSlots| - 1];
      }
    }

    method Set(idx: nat, conn: Connection)
      modifies this`connections
      ensures connections == if idx < |old(connections)| then old(connections)[idx := Some(conn)] else old(connections)
    {
      if idx < |connections| {
        connections := connections[idx := Some(conn)];
      }
    }

    /** Clears the buffers before they are handed on; at most 64 pairs are kept. */
    method Remove(idx: nat)
      modifies this
      ensures idx < |old(connections)| ==>
                && connections == old(connections)[idx := None] && freeSlots == old(freeSlots) + [idx]
                && recycled == if old(connections)[idx].Some? then Kept(old(recycled)) else old(recycled)
      ensures idx >= |old(connections)| ==> unchanged(this)
    {
      if idx < |connections| {
        var conn := connections[idx];
        connections := connections[idx := None];
        if conn.Some? && |recycled| < MAX_RECYCLED {
          recycled := recycled + [Recycled([], [])];
        }
        freeSlots := freeSlots + [idx];
      }
    }
  }

  function Popped<T>(s: seq<T>): (r: seq<T>) { if s == [] then [] else s[..|s| - 1] }

  function TopRecycled(s: seq<Recycled>): (r: Recycled) { if s == [] then Recycled([], []) else s[|s| - 1] }

  function Kept(s: seq<Recycled>): (r: seq<Recycled>) { if |s| < MAX_RECYCLED then s + [Recycled([], [])] else s }

  /** The slot `alloc_empty` hands out: the one freed last, or a new one. */
  function Slot(connections: seq<Option<Connection>>, free: seq<nat>): (idx: nat)
  {
    if free == [] then |connections| else free[|free| - 1]
  }

  // ------------------------------------------------------------ the event loop

  const INITIAL: State := State([], [], [], 1, [], map[], [])

  /** Every live connection has a history, and its send position is inside its buffer. */
  ghost predicate Usable(s: State)
  {
    && (forall i :: 0 <= i < |s.connections| && s.connections[i].Some? ==>
          s.connections[i].value.serial < |s.sessions|
              && s.connections[i].value.sendPos <= |s.connections[i].value.send|)
    && (forall i :: 0 <= i < |s.free| ==> s.free[i] < |s.connections|)
    && (forall i :: 0 <= i < |s.responses| ==> s.responses[i].token > 0)
  }

  function LocalOf(s: State, c: Connection): (l: Local)
    requires c.serial < |s.sessions|
  {
    Local(c, s.sessions[c.serial], false, s.nextId, s.issued)
  }

  /** Puts the outcome of handling slot `idx` back into the state. */
  function Settled(s: State, idx: nat, l: Local): (s': State)
    requires idx < |s.connections| && l.conn.serial < |s.sessions|
  {
    State(s.connections[idx := if l.remove then None else Some(l.conn)],
          if l.remove then s.free + [idx] else s.free,
          if l.remove then Kept(s.recycled) else s.recycled,
          l.nextId, s.responses, l.issued, s.sessions[l.conn.serial := l.session])
  }

  ghost function Accepted(s: State): (s': State)
    requires Usable(s)
  {
    var connections := if s.free == [] then s.connections + [None] else s.connections;
    var conn := NewConnection(|s.sessions|, TopRecycled(s.recycled));
    s.(connections := connections[Slot(s.connections, s.free) := Some(conn)], free := Popped(s.free),
        recycled := Popped(s.recycled),
       sessions := s.sessions + [Session([], [], [])])
  }

  ghost function Handled(s: State, idx: nat, readable: Option<ReadOutcome>, writable: Option<WriteOutcome>): (s': State)
    requires Usable(s)
  {
    match Live(s.connections, idx)
    case None => s
    case Some(c) => Settled(s, idx, OnEvent(LocalOf(s, c), idx + 1, readable, writable))
  }

  ghost function Delivered(s: State, text: Text, write: WriteOutcome): (s': State)
    requires Usable(s)
  {
    if s.responses == [] then s
    else
      var response := s.responses[0];
      var rest := s.(responses := s.responses[1..]);
      match Live(s.connections, response.token - 1)
      case None => rest
      case Some(c) =>
        if c.pending != Some(response.id) then rest
        else Settled(rest, response.token - 1, OnReply(LocalOf(rest, c), response, text, write))
  }

  ghost function Step(s: State, input: Input): (s': State)
    requires Usable(s)
  {
    match input
    case Accept => Accepted(s)
    case Event(idx, readable, writable) => Handled(s, idx, readable, writable)
    case Work(id, result) =>
      // the worker may answer a request any number of times, at any time after it was submitted
      if id in s.issued && s.issued[id].token > 0
      then s.(responses := s.responses + [Response(id, s.issued[id].token, result)]) else s
    case Deliver(text, write) => Delivered(s, text, write)
  }

  class EventLoop {
    const pool: ConnectionPool
    var nextId: nat
    var responses: seq<Response>
    var accepted: nat
    ghost var issued: map<nat, Owner>
    ghost var sessions: seq<Session>

    ghost function Snapshot(): (s: State)
      reads this, pool
    {
      State(pool.connections, pool.freeSlots, pool.recycled, nextId, responses, issued, sessions)
    }

    ghost predicate Ready()
      reads this, pool
    {
      accepted == |sessions| && Usable(Snapshot())
    }

    ghost predicate Valid()
      reads this, pool
    {
      Ready() && Inv(Snapshot())
    }

    constructor ()
      ensures fresh(pool) && Valid() && Snapshot() == INITIAL
    {
      pool := new ConnectionPool();
      nextId, responses, accepted, issued, sessions := 1, [], 0, map[], [];
    }

    /** One event, accept or response, as the loop dispatches it. */
    method Process(input: Input)
      requires Valid() && !input.Work?
      modifies this, pool
      ensures Valid() && Snapshot() == Step(old(Snapshot()), input)
    {
      ghost var before := Snapshot();
      match input {
        case Accept => AcceptOne();
        case Event(idx, readable, writable) => HandleEvent(idx, readable, writable);
        case Deliver(text, write) => HandleResponse(text, write);
      }
      StepInv(before, input);
      InvUsable(Snapshot());
    }

    /** One turn of the accept loop. */
    method AcceptOne()
      requires Ready()
      modifies this, pool
      ensures accepted == |sessions| && Snapshot() == old(Accepted(Snapshot()))
    {
      var idx := pool.AllocEmpty();
      var conn := pool.CreateConnection(accepted);
      pool.Set(idx, conn);
      accepted := accepted + 1;
      sessions := sessions + [Session([], [], [])];
    }

    method HandleEvent(idx: nat, readable: Option<ReadOutcome>, writable: Option<WriteOutcome>)
      requires Ready()
      modifies this, pool
      ensures accepted == |sessions| && Snapshot() == old(Handled(Snapshot(), idx, readable, writable))
    {
      var live := Live(pool.connections, idx);
      if live.Some? {
        var conn, remove, session :=
          HandleConnection(live.value, sessions[live.value.serial], idx + 1, readable, writable);
        Store(idx, conn, remove, session);
      }
    }

    method HandleConnection(c: Connection, ghost session: Session, token: nat, readable: Option<ReadOutcome>,
        writable: Option<WriteOutcome>)
      returns (conn: Connection, remove: bool, ghost session': Session)
      requires c.sendPos <= |c.send|
      modifies this`nextId, this`issued
      ensures conn.serial == c.serial
      ensures Local(conn, session', remove, nextId, issued)
           == OnEvent(Local(c, session, false, old(nextId), old(issued)), token, readable, writable)
    {
      conn, remove, session' := c, false, session;
      if readable.Some? {
        conn, remove, session' := HandleReadable(c, session, token, readable.value);
      }
      if !remove && writable.Some? && conn.send != [] {
        ghost var before := Local(conn, session', false, nextId, issued);
        conn, remove := TryWrite(conn, writable.value);
        session' := OnWrite(before, writable.value).session;
      }
    }

    /** Puts the connection back, or removes it. */
    method Store(idx: nat, conn: Connection, remove: bool, ghost session: Session)
      requires Live(pool.connections, idx).Some? && conn.serial < |sessions|
      modifies this`sessions, pool
      ensures Snapshot() == Settled(old(Snapshot()), idx, Local(conn, session, remove, nextId, issued))
    {
      sessions := sessions[conn.serial := session];
      if remove {
        pool.Remove(idx);
      } else {
        pool.Set(idx, conn);
      }
    }

    method HandleReadable(c: Connection, ghost session: Session, token: nat, outcome: ReadOutcome)
      returns (c': Connection, remove: bool, ghost session': Session)
      modifies this`nextId, this`issued
      ensures Local(c', session', remove, nextId, issued)
              == OnReadable(Local(c, session, false, old(nextId), old(issued)), token, outcome)
      ensures c'.serial == c.serial && (c.sendPos <= |c.send| ==> c'.sendPos <= |c'.send|)
    {
      c', remove, session' := c, false, session;
      if c.phase.Reading? {
        match outcome
        case Closed => remove := true;
        case ReadFailed => remove := true;
        case Incomplete(bytes) => c' := c.(recv := c.recv + bytes);
        case Rejected(bytes, text, idSpent) =>
          c' := c.(recv := c.recv + bytes);
          if c.pending.None? {
            if idSpent { nextId := nextId + 1; }
            c' := Queued(c', text);
            session' := session.(asks := session.asks + [None], replies := session.replies + [Error(text)]);
          }
        case Submitted(bytes, close) =>
          c' := c.(recv := c.recv + bytes);
          if c.pending.None? {
            issued := issued[nextId := Owner(c.serial, token, close)];
            session' := session.(asks := session.asks + [Some(nextId)]);
            c' := c'.(pending := Some(nextId), shouldClose := close, phase := Processing, recv := []);
            nextId := nextId + 1;
          }
      }
    }

    /** `try_write`, then close, reset, or wait for the rest to be written. */
    method TryWrite(c: Connection, outcome: WriteOutcome) returns (c': Connection, remove: bool)
      requires c.sendPos <= |c.send|
      ensures forall session: Session, n: nat, ids: map<nat, Owner> ::
              var l := OnWrite(Local(c, session, false, n, ids), outcome);
                l.conn == c' && l.remove == remove && l.nextId == n && l.issued == ids
    {
      c' := c.(sendPos := c.sendPos + Sent(c, outcome.n));
      remove := false;
      if outcome.Broken? {
        remove := true;
      } else if c'.sendPos >= |c'.send| {
        if c'.shouldClose {
          remove := true;
        } else {
          c' := Reset(c');
        }
      }
    }

    /** `ResponseSender::send` for a request the worker holds. */
    method WorkerSend(id: nat, token: nat, result: string)
      requires Valid() && id in issued && issued[id].token == token
      modifies this`responses
      ensures Valid() && Snapshot() == old(Step(Snapshot(), Work(id, result)))
    {
      ghost var before := Snapshot();
      responses := responses + [Response(id, token, result)];
      StepInv(before, Work(id, result));
      InvUsable(Snapshot());
    }

    /** One turn of the response batch. */
    method HandleResponse(text: Text, write: WriteOutcome)
      requires Ready()
      modifies this, pool
      ensures accepted == |sessions| && Snapshot() == old(Delivered(Snapshot(), text, write))
    {
      if responses != [] {
        var response := responses[0];
        responses := responses[1..];
        var idx := response.token - 1;
        var live := Live(pool.connections, idx);
        if live.Some? && live.value.pending == Some(response.id) {
          var conn := Queued(live.value, text).(pending := None);
          ghost var session := sessions[conn.serial];
          session := session.(replies := session.replies + [FromWorker(response, text)]);
          ghost var before := Local(conn, session, false, nextId, issued);
          var remove;
          conn, remove := TryWrite(conn, write);
          session := OnWrite(before, write).session;
          Store(idx, conn, remove, session);
        }
      }
    }
  }

  // ------------------------------------------------------------ invariant

  /** All reply texts, one after the other. */
  ghost function Texts(replies: seq<Reply>): (bytes: seq<Byte>)
  {
    if replies == [] then [] else Texts(replies[..|replies| - 1]) + replies[|replies| - 1].text
  }

  ghost predicate Answers(ask: Option<nat>, reply: Reply)
  {
    match ask case None => reply.Error? case Some(id) => reply.FromWorker? && reply.response.id == id
  }

  /** Reply k answers request k, and at most the last request is unanswered. */
  ghost predicate InOrder(asks: seq<Option<nat>>, replies: seq<Reply>)
  {
    && |replies| <= |asks| <= |replies| + 1
    && forall k :: 0 <= k < |replies| ==> Answers(asks[k], replies[k])
  }

  /** The ids of a session were issued to it, in increasing order. */
  ghost predicate AsksOk(asks: seq<Option<nat>>, serial: nat, issued: map<nat, Owner>, nextId: nat)
  {
    && (forall k :: 0 <= k < |asks| && asks[k].Some? ==>
          asks[k].value < nextId && asks[k].value in issued && issued[asks[k].value].serial == serial)
    && (forall j, k :: 0 <= j < k < |asks| && asks[j].Some? && asks[k].Some? ==> asks[j].value < asks[k].value)
  }

  /** What is on the wire is a prefix of the replies; the part still missing belongs to the last one. */
  ghost predicate WireOk(wire: seq<Byte>, replies: seq<Reply>)
  {
    && wire <= Texts(replies)
    && (replies != [] ==> |Texts(replies[..|replies| - 1])| <= |wire|)
  }

  ghost predicate SessionOk(session: Session, serial: nat, issued: map<nat, Owner>, nextId: nat)
  {
    && InOrder(session.asks, session.replies) && AsksOk(session.asks, serial, issued, nextId)
    && WireOk(session.wire, session.replies)
  }

  predicate Known(reply: Reply, issued: map<nat, Owner>) { reply.FromWorker? ==> reply.response.id in issued }

  /** A reply closes the connection when it answers a request that asked for it. An error reply never does. */
  predicate Closes(reply: Reply, issued: map<nat, Owner>)
    requires Known(reply, issued)
  {
    reply.FromWorker? && issued[reply.response.id].close
  }

  /** Where a live connection stands in its own session. */
  ghost predicate ConnectionOk(c: Connection, token: nat, session: Session, issued: map<nat, Owner>)
  {
    match c.phase
    case Reading =>
      && c.pending.None? && c.send == [] && c.sendPos == 0 && |session.asks| == |session.replies|
      && session.wire == Texts(session.replies) && !c.shouldClose
    case Processing =>
      && c.pending.Some? && c.send == [] && c.sendPos == 0 && |session.asks| == |session.replies| + 1
      && session.asks[|session.replies|] == c.pending && session.wire == Texts(session.replies)
      && c.pending.value in issued && issued[c.pending.value].token == token
      && c.shouldClose == issued[c.pending.value].close
    case Writing =>
      && c.pending.None? && |session.asks| == |session.replies| && |session.replies| > 0 && c.sendPos < |c.send|
      && c.send == session.replies[|session.replies| - 1].text
      && session.wire == Texts(session.replies[..|session.replies| - 1]) + c.send[..c.sendPos]
      && Known(session.replies[|session.replies| - 1], issued)
      && c.shouldClose == Closes(session.replies[|session.replies| - 1], issued)
  }

  ghost predicate LocalOk(l: Local, token: nat)
  {
    && SessionOk(l.session, l.conn.serial, l.issued, l.nextId)
    && (!l.remove ==> ConnectionOk(l.conn, token, l.session, l.issued))
  }

  /** Ids below `nextId` keep their owner; new ones belong to `serial` and `token`. */
  ghost predicate Issues(issued: map<nat, Owner>, nextId: nat, issued': map<nat, Owner>, nextId': nat, serial: nat,
      token: nat)
  {
    && nextId <= nextId'
    && (forall id :: id in issued ==> id in issued' && issued'[id] == issued[id])
    && (forall id :: id in issued' && id !in issued ==>
          nextId <= id < nextId' && issued'[id].serial == serial && issued'[id].token == token)
  }

  lemma {:induction false} RejectLocal(l: Local, token: nat, outcome: ReadOutcome)
    requires LocalOk(l, token) && !l.remove && l.conn.phase.Reading? && outcome.Rejected?
    ensures LocalOk(OnReadable(l, token, outcome), token)
  {
    ReplyAppended(l.session.wire, l.session.replies, Error(outcome.text));
    RejectionAppended(l.session.asks, l.session.replies, outcome.text, l.conn.serial, l.issued, l.nextId);
    IdSkipped(l.session.asks + [None], l.conn.serial, l.issued, l.nextId);
    var l' := OnReadable(l, token, outcome);
    assert SessionOk(l'.session, l.conn.serial, l.issued, l'.nextId);
  }

  lemma {:induction false} IdSkipped(asks: seq<Option<nat>>, serial: nat, issued: map<nat, Owner>, nextId: nat)
    requires AsksOk(asks, serial, issued, nextId)
    ensures AsksOk(asks, serial, issued, nextId + 1)
  {
  }

  lemma {:induction false} RejectionAppended(asks: seq<Option<nat>>, replies: seq<Reply>, text: Text, serial: nat,
      issued: map<nat, Owner>, nextId: nat)
    requires InOrder(asks, replies) && AsksOk(asks, serial, issued, nextId) && |asks| == |replies|
    ensures InOrder(asks + [None], replies + [Error(text)]) && AsksOk(asks + [None], serial, issued, nextId)
  {
  }

  /** A reply is queued when all earlier ones are on the wire. */
  lemma {:induction false} ReplyAppended(wire: seq<Byte>, replies: seq<Reply>, reply: Reply)
    requires wire == Texts(replies)
    ensures WireOk(wire, replies + [reply]) && (replies + [reply])[..|replies|] == replies
    ensures wire == Texts(replies) + reply.text[..0]
  {
    assert (replies + [reply])[..|replies|] == replies;
  }

  lemma {:induction false} SubmitLocal(l: Local, token: nat, outcome: ReadOutcome)
    requires LocalOk(l, token) && !l.remove && l.conn.phase.Reading? && outcome.Submitted?
    requires forall id :: id in l.issued ==> id < l.nextId
    ensures var l' := OnReadable(l, token, outcome);
            LocalOk(l', token) && Issues(l.issued, l.nextId, l'.issued, l'.nextId, l.conn.serial, token)
  {
    AskAppended(l.session.asks, l.conn.serial, l.issued, l.nextId, Owner(l.conn.serial, token, outcome.close));
  }

  lemma {:induction false} AskAppended(asks: seq<Option<nat>>, serial: nat, issued: map<nat, Owner>, nextId: nat,
      owner: Owner)
    requires AsksOk(asks, serial, issued, nextId) && owner.serial == serial
    ensures AsksOk(asks + [Some(nextId)], serial, issued[nextId := owner], nextId + 1)
  {
  }

  lemma {:induction false} ReadLocal(l: Local, token: nat, outcome: ReadOutcome)
    requires LocalOk(l, token) && !l.remove && forall id :: id in l.issued ==> id < l.nextId
    ensures var l' := OnReadable(l, token, outcome);
            LocalOk(l', token) && l'.conn.serial == l.conn.serial
                && Issues(l.issued, l.nextId, l'.issued, l'.nextId, l.conn.serial, token)
  {
    if l.conn.phase.Reading? {
      if outcome.Rejected? {
        RejectLocal(l, token, outcome);
      } else if outcome.Submitted? {
        SubmitLocal(l, token, outcome);
      }
    }
  }

  lemma {:induction false} WriteLocal(l: Local, token: nat, outcome: WriteOutcome)
    requires LocalOk(l, token) && !l.remove && l.conn.phase.Writing?
    ensures var l' := OnWrite(l, outcome);
            LocalOk(l', token) && l'.conn.serial == l.conn.serial && l'.issued == l.issued && l'.nextId == l.nextId
  {
    var c := l.conn;
    var m := Sent(c, outcome.n);
    BytesSent(l.session.wire, l.session.replies, c.send, c.sendPos, c.sendPos + m);
  }

  lemma {:induction false} BytesSent(wire: seq<Byte>, replies: seq<Reply>, send: seq<Byte>, pos: nat, next: nat)
    requires replies != [] && send == replies[|replies| - 1].text && pos <= next <= |send|
    requires wire == Texts(replies[..|replies| - 1]) + send[..pos]
    ensures var wire' := wire + send[pos..next];
            && wire' == Texts(replies[..|replies| - 1]) + send[..next] && WireOk(wire', replies)
            && (next == |send| ==> wire' == Texts(replies))
  {
    assert send[..pos] + send[pos..next] == send[..next];
    assert next == |send| ==> send[..next] == send;
  }

  lemma {:induction false} EventLocal(l: Local, token: nat, readable: Option<ReadOutcome>,
      writable: Option<WriteOutcome>)
    requires LocalOk(l, token) && !l.remove && forall id :: id in l.issued ==> id < l.nextId
    ensures var l' := OnEvent(l, token, readable, writable);
            LocalOk(l', token) && l'.conn.serial == l.conn.serial
                && Issues(l.issued, l.nextId, l'.issued, l'.nextId, l.conn.serial, token)
  {
    var afterRead := if readable.Some? then OnReadable(l, token, readable.value) else l;
    if readable.Some? { ReadLocal(l, token, readable.value); }
    if !afterRead.remove && writable.Some? { WritableLocal(afterRead, token, writable.value); }
  }

  lemma {:induction false} WritableLocal(l: Local, token: nat, outcome: WriteOutcome)
    requires LocalOk(l, token) && !l.remove
    ensures l.conn.sendPos <= |l.conn.send|
    ensures var l' := OnWritable(l, outcome);
            LocalOk(l', token) && l'.conn.serial == l.conn.serial && l'.issued == l.issued && l'.nextId == l.nextId
  {
    if l.conn.send != [] {
      WriteLocal(l, token, outcome);
    }
  }

  lemma {:induction false} ReplyLocal(l: Local, token: nat, response: Response, text: Text, write: WriteOutcome)
    requires LocalOk(l, token) && !l.remove && l.conn.pending == Some(response.id)
    ensures var l' := OnReply(l, response, text, write);
            LocalOk(l', token) && l'.conn.serial == l.conn.serial && l'.issued == l.issued && l'.nextId == l.nextId
  {
    var replies := l.session.replies + [FromWorker(response, text)];
    ReplyAppended(l.session.wire, l.session.replies, FromWorker(response, text));
    var queued := l.(conn := Queued(l.conn, text).(pending := None), session := l.session.(replies := replies));
    WriteLocal(queued, token, write);
  }

  /** The free list holds exactly the vacant slots, each once. */
  ghost predicate SlotsOk(connections: seq<Option<Connection>>, free: seq<nat>)
  {
    && (forall k :: 0 <= k < |free| ==> free[k] < |connections| && connections[free[k]].None?)
    && (forall j, k :: 0 <= j < k < |free| ==> free[j] != free[k])
    && (forall i :: 0 <= i < |connections| && connections[i].None? ==> i in free)
  }

  ghost predicate SerialsOk(connections: seq<Option<Connection>>, count: nat)
  {
    && (forall i :: 0 <= i < |connections| && connections[i].Some? ==> connections[i].value.serial < count)
    && (forall i, j :: 0 <= i < j < |connections| && connections[i].Some? && connections[j].Some? ==>
          connections[i].value.serial != connections[j].value.serial)
  }

  ghost predicate ConnectionsOk(s: State)
    requires SerialsOk(s.connections, |s.sessions|)
  {
    forall i :: 0 <= i < |s.connections| && s.connections[i].Some? ==>
      ConnectionOk(s.connections[i].value, i + 1, s.sessions[s.connections[i].value.serial], s.issued)
  }

  ghost predicate SessionsOk(sessions: seq<Session>, issued: map<nat, Owner>, nextId: nat)
  {
    forall k :: 0 <= k < |sessions| ==> SessionOk(sessions[k], k, issued, nextId)
  }

  ghost predicate IdsOk(issued: map<nat, Owner>, nextId: nat)
  {
    forall id :: id in issued ==> id < nextId && issued[id].token > 0
  }

  ghost predicate ResponsesOk(responses: seq<Response>, issued: map<nat, Owner>)
  {
    forall k :: 0 <= k < |responses| ==>
      responses[k].token > 0 && responses[k].id in issued && issued[responses[k].id].token == responses[k].token
  }

  ghost predicate RecycledOk(recycled: seq<Recycled>)
  {
    |recycled| <= MAX_RECYCLED && forall k :: 0 <= k < |recycled| ==> recycled[k] == Recycled([], [])
  }

  ghost predicate Inv(s: State)
  {
    && SlotsOk(s.connections, s.free) && SerialsOk(s.connections, |s.sessions|) && ConnectionsOk(s)
    && SessionsOk(s.sessions, s.issued, s.nextId) && IdsOk(s.issued, s.nextId)
    && ResponsesOk(s.responses, s.issued) && RecycledOk(s.recycled)
  }

  lemma {:induction false} InvUsable(s: State)
    requires Inv(s)
    ensures Usable(s)
  {
    forall i | 0 <= i < |s.connections| && s.connections[i].Some?
      ensures s.connections[i].value.sendPos <= |s.connections[i].value.send|
    {
      assert ConnectionOk(s.connections[i].value, i + 1, s.sessions[s.connections[i].value.serial], s.issued);
    }
  }

  // ------------------------------------------------------------ every step keeps it

  lemma {:induction false} VacateSlots(connections: seq<Option<Connection>>, free: seq<nat>, idx: nat)
    requires SlotsOk(connections, free) && idx < |connections| && connections[idx].Some?
    ensures SlotsOk(connections[idx := None], free + [idx])
  {
    var connections', free' := connections[idx := None], free + [idx];
    forall i | 0 <= i < |connections'| && connections'[i].None?
      ensures i in free'
    {
      assert i == idx || i in free;
      assert free'[|free|] == idx;
    }
  }

  lemma {:induction false} IssuesKeepSession(session: Session, k: nat, issued: map<nat, Owner>, nextId: nat,
                                             issued': map<nat, Owner>, nextId': nat, serial: nat, token: nat)
    requires SessionOk(session, k, issued, nextId) && Issues(issued, nextId, issued', nextId', serial, token)
    ensures SessionOk(session, k, issued', nextId')
  {
  }

  lemma {:induction false} SettledConnections(s: State, idx: nat, l: Local)
    requires Inv(s) && idx < |s.connections| && s.connections[idx].Some?
             && l.conn.serial == s.connections[idx].value.serial
    requires LocalOk(l, idx + 1) && Issues(s.issued, s.nextId, l.issued, l.nextId, l.conn.serial, idx + 1)
    ensures var s' := Settled(s, idx, l); SerialsOk(s'.connections, |s'.sessions|) && ConnectionsOk(s')
  {
    var s' := Settled(s, idx, l);
    forall i | 0 <= i < |s'.connections| && s'.connections[i].Some?
      ensures ConnectionOk(s'.connections[i].value, i + 1, s'.sessions[s'.connections[i].value.serial], s'.issued)
    {
      if i != idx {
        assert ConnectionOk(s.connections[i].value, i + 1, s.sessions[s.connections[i].value.serial], s.issued);
        assert s'.connections[i] == s.connections[i];
      }
    }
  }

  /** Whatever happened to one connection, the rest of the server is as it was. */
  lemma {:induction false} SettledInv(s: State, idx: nat, l: Local)
    requires Inv(s) && idx < |s.connections| && s.connections[idx].Some?
             && l.conn.serial == s.connections[idx].value.serial
    requires LocalOk(l, idx + 1) && Issues(s.issued, s.nextId, l.issued, l.nextId, l.conn.serial, idx + 1)
    ensures Inv(Settled(s, idx, l))
  {
    var s' := Settled(s, idx, l);
    SettledConnections(s, idx, l);
    if l.remove {
      VacateSlots(s.connections, s.free, idx);
    }
    forall k | 0 <= k < |s'.sessions|
      ensures SessionOk(s'.sessions[k], k, s'.issued, s'.nextId)
    {
      if k != l.conn.serial {
        IssuesKeepSession(s.sessions[k], k, s.issued, s.nextId, l.issued, l.nextId, l.conn.serial, idx + 1);
      }
    }
    ResponsesKept(s.responses, s.issued, s.nextId, l.issued, l.nextId, l.conn.serial, idx + 1);
  }

  lemma {:induction false} ResponsesKept(responses: seq<Response>, issued: map<nat, Owner>, nextId: nat,
                                         issued': map<nat, Owner>, nextId': nat, serial: nat, token: nat)
    requires ResponsesOk(responses, issued) && Issues(issued, nextId, issued', nextId', serial, token)
    ensures ResponsesOk(responses, issued')
  {
  }

  lemma {:induction false} AcceptSlots(connections: seq<Option<Connection>>, free: seq<nat>, c: Connection)
    requires SlotsOk(connections, free)
    ensures var grown := if free == [] then connections + [None] else connections;
            && Slot(connections, free) < |grown| && grown[Slot(connections, free)].None?
            && SlotsOk(grown[Slot(connections, free) := Some(c)], Popped(free))
  {
    if free != [] {
      var rest := Popped(free);
      assert free == rest + [free[|free| - 1]];
    }
  }

  lemma {:induction false} AcceptInv(s: State)
    requires Inv(s) && Usable(s)
    ensures Inv(Accepted(s))
  {
    var s' := Accepted(s);
    var idx := Slot(s.connections, s.free);
    AcceptSlots(s.connections, s.free, s'.connections[idx].value);
    assert s'.connections[idx].value == NewConnection(|s.sessions|, Recycled([], []));
    forall i | 0 <= i < |s'.connections| && s'.connections[i].Some?
      ensures ConnectionOk(s'.connections[i].value, i + 1, s'.sessions[s'.connections[i].value.serial], s'.issued)
    {
      if i != idx {
        assert s'.connections[i] == s.connections[i];
        assert ConnectionOk(s.connections[i].value, i + 1, s.sessions[s.connections[i].value.serial], s.issued);
      }
    }
  }

  lemma {:induction false} HandledInv(s: State, idx: nat, readable: Option<ReadOutcome>, writable: Option<WriteOutcome>)
    requires Inv(s) && Usable(s)
    ensures Inv(Handled(s, idx, readable, writable))
  {
    var live := Live(s.connections, idx);
    if live.Some? {
      LiveLocal(s, idx);
      var l := EventOutcome(LocalOf(s, live.value), idx + 1, readable, writable);
      SettledInv(s, idx, l);
    }
  }

  lemma {:induction false} LiveLocal(s: State, idx: nat)
    requires Inv(s) && Live(s.connections, idx).Some?
    ensures LocalOk(LocalOf(s, s.connections[idx].value), idx + 1) && forall id :: id in s.issued ==> id < s.nextId
  {
    var c := s.connections[idx].value;
    assert ConnectionOk(c, idx + 1, s.sessions[c.serial], s.issued);
  }

  lemma {:induction false} EventOutcome(l: Local, token: nat, readable: Option<ReadOutcome>,
      writable: Option<WriteOutcome>) returns (l': Local)
    requires LocalOk(l, token) && !l.remove && forall id :: id in l.issued ==> id < l.nextId
    ensures l' == OnEvent(l, token, readable, writable)
    ensures LocalOk(l', token) && l'.conn.serial == l.conn.serial
            && Issues(l.issued, l.nextId, l'.issued, l'.nextId, l.conn.serial, token)
    ensures SessionGrows(l.session, l'.session)
  {
    EventLocal(l, token, readable, writable);
    EventGrows(l, token, readable, writable);
    l' := OnEvent(l, token, readable, writable);
  }

  lemma {:induction false} DeliveredInv(s: State, text: Text, write: WriteOutcome)
    requires Inv(s) && Usable(s)
    ensures Inv(Delivered(s, text, write))
  {
    if s.responses != [] {
      var response := s.responses[0];
      var rest := s.(responses := s.responses[1..]);
      assert ResponsesOk(rest.responses, rest.issued);
      assert ConnectionsOk(rest) by { assert ConnectionsOk(s); }
      match Live(s.connections, response.token - 1)
      case None =>
      case Some(c) =>
        if c.pending == Some(response.id) {
          ReplyLocal(LocalOf(rest, c), response.token, response, text, write);
          SettledInv(rest, response.token - 1, OnReply(LocalOf(rest, c), response, text, write));
        }
    }
  }

  lemma {:induction false} StepInv(s: State, input: Input)
    requires Inv(s) && Usable(s)
    ensures Inv(Step(s, input))
  {
    match input
    case Accept => AcceptInv(s);
    case Event(idx, readable, writable) => HandledInv(s, idx, readable, writable);
    case Work(id, result) => assert ConnectionsOk(s);
    case Deliver(text, write) => DeliveredInv(s, text, write);
  }

  // ------------------------------------------------------------ whole runs

  /** A step from any state; the guard never bites in a run, by AfterInv. */
  ghost function Next(s: State, input: Input): (s': State) { if Usable(s) then Step(s, input) else s }

  /** The server after any inputs: connections, socket events in any order, worker answers at any time. */
  ghost function After(inputs: seq<Input>): (s: State)
  {
    if inputs == [] then INITIAL else Next(After(inputs[..|inputs| - 1]), inputs[|inputs| - 1])
  }

  lemma {:induction false} AfterInv(inputs: seq<Input>)
    ensures Inv(After(inputs)) && Usable(After(inputs))
  {
    if inputs == [] {
      InitInv(INITIAL);
    } else {
      var shorter := inputs[..|inputs| - 1];
      AfterInv(shorter);
      StepInv(After(shorter), inputs[|inputs| - 1]);
    }
    InvUsable(After(inputs));
  }

  lemma {:induction false} InitInv(s: State)
    requires s == INITIAL
    ensures Inv(s)
  {
  }

  /** Main theorem. A worker response is only ever queued to the connection that submitted that request, as the
    * answer to exactly that request, whatever happened to the slot in between.
    */
  lemma {:induction false} RepliesReachTheirRequest(inputs: seq<Input>, serial: nat, k: nat)
    requires serial < |After(inputs).sessions| && k < |After(inputs).sessions[serial].replies|
    requires After(inputs).sessions[serial].replies[k].FromWorker?
    ensures var s := After(inputs); var id := s.sessions[serial].replies[k].response.id;
            && id in s.issued && s.issued[id].serial == serial
            && k < |s.sessions[serial].asks| && s.sessions[serial].asks[k] == Some(id)
  {
    AfterInv(inputs);
    var s := After(inputs);
    assert SessionOk(s.sessions[serial], serial, s.issued, s.nextId);
    assert Answers(s.sessions[serial].asks[k], s.sessions[serial].replies[k]);
  }

  /** No request is answered twice, neither on its own connection nor on another. */
  lemma {:induction false} AnsweredAtMostOnce(inputs: seq<Input>, a: nat, j: nat, b: nat, k: nat)
    requires a < |After(inputs).sessions| && j < |After(inputs).sessions[a].replies|
    requires b < |After(inputs).sessions| && k < |After(inputs).sessions[b].replies|
    requires After(inputs).sessions[a].replies[j].FromWorker? && After(inputs).sessions[b].replies[k].FromWorker?
    requires After(inputs).sessions[a].replies[j].response.id == After(inputs).sessions[b].replies[k].response.id
    ensures a == b && j == k
  {
    AfterInv(inputs);
    var s := After(inputs);
    RepliesReachTheirRequest(inputs, a, j);
    RepliesReachTheirRequest(inputs, b, k);
    var asks := s.sessions[a].asks;
    assert AsksOk(asks, a, s.issued, s.nextId) by { assert SessionOk(s.sessions[a], a, s.issued, s.nextId); }
    IncreasingUnique(asks, j, k);
  }

  lemma {:induction false} IncreasingUnique(asks: seq<Option<nat>>, j: nat, k: nat)
    requires j < |asks| && k < |asks| && asks[j].Some? && asks[j] == asks[k]
    requires forall j, k :: 0 <= j < k < |asks| && asks[j].Some? && asks[k].Some? ==> asks[j].value < asks[k].value
    ensures j == k
  {
  }

  /** On every socket, the bytes are the replies in the order of the requests, whole and unmixed, the last one
    * possibly cut short; reply k answers request k, and at most one request is waiting.
    */
  lemma {:induction false} WireIsTheReplies(inputs: seq<Input>, serial: nat)
    requires serial < |After(inputs).sessions|
    ensures var session := After(inputs).sessions[serial];
            && InOrder(session.asks, session.replies) && session.wire <= Texts(session.replies)
            && (session.replies != [] ==> Texts(session.replies[..|session.replies| - 1]) <= session.wire)
  {
    AfterInv(inputs);
    var s := After(inputs);
    assert SessionOk(s.sessions[serial], serial, s.issued, s.nextId);
    if s.sessions[serial].replies != [] {
      EarlierAreWhole(s.sessions[serial].wire, s.sessions[serial].replies);
    }
  }

  lemma {:induction false} EarlierAreWhole(wire: seq<Byte>, replies: seq<Reply>)
    requires WireOk(wire, replies) && replies != []
    ensures Texts(replies[..|replies| - 1]) <= wire
  {
    assert Texts(replies[..|replies| - 1]) <= Texts(replies);
  }

  /** A live connection waits for the worker exactly while its last request is unanswered, and reads the next
    * request only when every reply is on the wire in full.
    */
  lemma {:induction false} OneOutstandingRequest(inputs: seq<Input>, idx: nat)
    requires Live(After(inputs).connections, idx).Some?
    ensures var s := After(inputs); var c := s.connections[idx].value;
            c.serial < |s.sessions| && var session := s.sessions[c.serial];
            && (c.pending.Some? <==> |session.asks| == |session.replies| + 1)
            && (c.pending.Some? ==> session.asks[|session.asks| - 1] == c.pending)
            && (c.phase.Reading? <==> |session.asks| == |session.replies| && session.wire == Texts(session.replies))
  {
    AfterInv(inputs);
    var s := After(inputs);
    var c := s.connections[idx].value;
    assert ConnectionOk(c, idx + 1, s.sessions[c.serial], s.issued);
    if c.phase.Writing? {
      var replies := s.sessions[c.serial].replies;
      assert Texts(replies) == Texts(replies[..|replies| - 1]) + c.send;
    }
  }

  /** Live connections hold distinct slots, and a slot is free if and only if it is listed, once, as free. */
  lemma {:induction false} SlotsAreNotShared(inputs: seq<Input>)
    ensures var s := After(inputs);
            && (forall i, j :: 0 <= i < j < |s.connections| && s.connections[i].Some? && s.connections[j].Some? ==>
                  s.connections[i].value.serial != s.connections[j].value.serial)
            && (forall i :: 0 <= i < |s.connections| ==> (s.connections[i].None? <==> i in s.free))
            && (forall j, k :: 0 <= j < k < |s.free| ==> s.free[j] != s.free[k])
  {
    AfterInv(inputs);
    var s := After(inputs);
    assert SlotsOk(s.connections, s.free) && SerialsOk(s.connections, |s.sessions|);
  }

  /** A new connection starts with empty buffers even when they are recycled, in a slot nobody holds. */
  lemma {:induction false} AcceptStartsClean(inputs: seq<Input>)
    ensures var s := After(inputs); var idx := Slot(s.connections, s.free); var s' := Next(s, Accept);
            && Live(s.connections, idx).None?
            && Live(s'.connections, idx) == Some(Connection(|s.sessions|, [], [], 0, None, Reading, false))
            && forall i: nat :: i != idx ==> Live(s'.connections, i) == Live(s.connections, i)
  {
    AfterInv(inputs);
    var s := After(inputs);
    AcceptSlots(s.connections, s.free, NewConnection(0, Recycled([], [])));
    assert TopRecycled(s.recycled) == Recycled([], []);
  }

  /** The connection that submitted request `id` is still there and still waits for it. */
  ghost predicate Waiting(s: State, id: nat)
  {
    id in s.issued &&
    exists i :: 0 <= i < |s.connections| && s.connections[i].Some? && s.connections[i].value.pending == Some(id)
                && s.connections[i].value.serial == s.issued[id].serial
  }

  /** If the connection that submitted its request still waits, the next response in the queue becomes that
    * connection's next reply. Otherwise the response is dropped and nothing else changes.
    */
  lemma {:induction false} DeliveredExactly(inputs: seq<Input>, text: Text, write: WriteOutcome)
    requires After(inputs).responses != []
    ensures var s := After(inputs); var response := s.responses[0]; var s' := Next(s, Deliver(text, write));
            && (Waiting(s, response.id) ==>
                  var serial := s.issued[response.id].serial;
                  && serial < |s.sessions| == |s'.sessions|
                  && s'.sessions[serial].replies == s.sessions[serial].replies + [FromWorker(response, text)])
            && (!Waiting(s, response.id) ==> s' == s.(responses := s.responses[1..]))
  {
    AfterInv(inputs);
    var s := After(inputs);
    var live := Live(s.connections, s.responses[0].token - 1);
    if live.Some? && live.value.pending == Some(s.responses[0].id) {
      DeliveryRecorded(s, text, write);
    } else {
      DroppedIsStale(s);
    }
  }

  lemma {:induction false} DroppedIsStale(s: State)
    requires Inv(s) && s.responses != []
    requires var live := Live(s.connections, s.responses[0].token - 1);
             live.Some? ==> live.value.pending != Some(s.responses[0].id)
    ensures !Waiting(s, s.responses[0].id)
  {
    forall i | 0 <= i < |s.connections| && s.connections[i].Some?
      ensures s.connections[i].value.pending != Some(s.responses[0].id)
    {
      var c := s.connections[i].value;
      assert ConnectionOk(c, i + 1, s.sessions[c.serial], s.issued);
    }
  }

  lemma {:induction false} DeliveryRecorded(s: State, text: Text, write: WriteOutcome)
    requires Inv(s) && Usable(s) && s.responses != []
    requires Live(s.connections, s.responses[0].token - 1).Some?
    requires s.connections[s.responses[0].token - 1].value.pending == Some(s.responses[0].id)
    ensures var c := s.connections[s.responses[0].token - 1].value;
            var s' := Step(s, Deliver(text, write));
            && s.responses[0].id in s.issued && c.serial == s.issued[s.responses[0].id].serial
                && Waiting(s, s.responses[0].id)
            && c.serial < |s.sessions| == |s'.sessions|
            && s'.sessions[c.serial].replies == s.sessions[c.serial].replies + [FromWorker(s.responses[0], text)]
  {
    var idx := s.responses[0].token - 1;
    var c := s.connections[idx].value;
    PendingIsOwned(s, idx, c);
    assert Waiting(s, s.responses[0].id);
    ReplyAppends(LocalOf(s, c), s.responses[0], text, write);
    DeliverySession(s, text, write);
  }

  /** The id a live connection waits for was issued to it. */
  lemma {:induction false} PendingIsOwned(s: State, idx: nat, c: Connection)
    requires Inv(s) && Live(s.connections, idx) == Some(c) && c.pending.Some?
    ensures c.serial < |s.sessions| && c.pending.value in s.issued && s.issued[c.pending.value].serial == c.serial
  {
    var session := s.sessions[c.serial];
    assert ConnectionOk(c, idx + 1, session, s.issued);
    assert SessionOk(session, c.serial, s.issued, s.nextId);
  }

  lemma {:induction false} DeliverySession(s: State, text: Text, write: WriteOutcome)
    requires Usable(s) && s.responses != [] && Live(s.connections, s.responses[0].token - 1).Some?
    requires s.connections[s.responses[0].token - 1].value.pending == Some(s.responses[0].id)
    ensures var c := s.connections[s.responses[0].token - 1].value;
            var l := OnReply(LocalOf(s, c), s.responses[0], text, write);
            && l.conn.serial == c.serial && |Delivered(s, text, write).sessions| == |s.sessions|
            && Delivered(s, text, write).sessions[c.serial] == l.session
  {
    var c := s.connections[s.responses[0].token - 1].value;
    ReplyAppends(LocalOf(s, c), s.responses[0], text, write);
  }

  lemma {:induction false} ReplyAppends(l: Local, response: Response, text: Text, write: WriteOutcome)
    ensures var l' := OnReply(l, response, text, write);
            l'.conn.serial == l.conn.serial && l'.session.replies == l.session.replies + [FromWorker(response, text)]
  {
  }

  // ------------------------------------------------------------ requests, and which replies close

  /** The live connection in slot `idx` and its history, in the server after these inputs. */
  lemma {:induction false} LiveAfter(inputs: seq<Input>, idx: nat) returns (c: Connection, session: Session)
    requires Live(After(inputs).connections, idx).Some?
    ensures var s := After(inputs);
            && Usable(s) && Live(s.connections, idx) == Some(c) && c.serial < |s.sessions|
            && session == s.sessions[c.serial] && ConnectionOk(c, idx + 1, session, s.issued)
  {
    AfterInv(inputs);
    c := After(inputs).connections[idx].value;
    session := After(inputs).sessions[c.serial];
  }

  /** What a readable socket does to a connection that waits for a request: it goes away with its peer, gathers bytes,
    * gets its next reply at once, or waits for the worker under a new id.
    */
  lemma {:induction false} RequestExactly(inputs: seq<Input>, idx: nat, outcome: ReadOutcome)
    requires Live(After(inputs).connections, idx).Some?
    requires After(inputs).connections[idx].value.phase.Reading?
    ensures var s := After(inputs); var c := s.connections[idx].value;
            var s' := Next(s, Event(idx, Some(outcome), None)); var live := Live(s'.connections, idx);
            && c.serial < |s.sessions| == |s'.sessions|
            && var session, session' := s.sessions[c.serial], s'.sessions[c.serial];
               match outcome
               case Closed => live.None? && session' == session
               case ReadFailed => live.None? && session' == session
               case Incomplete(bytes) => live == Some(c.(recv := c.recv + bytes)) && session' == session
               case Rejected(_, text, idSpent) =>
                 && live.Some? && live.value.phase.Writing? && live.value.send == text && !live.value.shouldClose
                 && session'.asks == session.asks + [None] && session'.replies == session.replies + [Error(text)]
                 && s'.issued == s.issued && s'.nextId == if idSpent then s.nextId + 1 else s.nextId
               case Submitted(_, close) =>
                 && live.Some? && live.value.phase.Processing? && live.value.pending == Some(s.nextId)
                 && session'.asks == session.asks + [Some(s.nextId)] && session'.replies == session.replies
                 && s'.nextId == s.nextId + 1
                 && s'.issued == s.issued[s.nextId := Owner(c.serial, idx + 1, close)]
  {
    var c, session := LiveAfter(inputs, idx);
  }

  /** Main theorem. A connection that has bytes to send is kept until they are all on the wire. Then it is closed
    * exactly when its last reply answers a request that asked for it; otherwise it is kept, ready for the next request,
    * with nothing left of this one.
    */
  lemma {:induction false} ClosesExactly(inputs: seq<Input>, idx: nat, n: nat)
    requires Live(After(inputs).connections, idx).Some? && After(inputs).connections[idx].value.send != []
    ensures var s := After(inputs); var c := s.connections[idx].value;
            && c.serial < |s.sessions| && s.sessions[c.serial].replies != []
            && Known(Last(s.sessions[c.serial].replies), s.issued) && c.sendPos < |c.send|
            && var live := Live(Next(s, Event(idx, None, Some(Progress(n)))).connections, idx);
               && (n < |c.send| - c.sendPos ==> live == Some(c.(sendPos := c.sendPos + n)))
               && (n >= |c.send| - c.sendPos ==>
                     && (live.None? <==> Closes(Last(s.sessions[c.serial].replies), s.issued))
                     && (live.Some? ==> live.value == Reset(c) && live.value.recv == [] && !live.value.shouldClose))
  {
    var c := Sending(inputs, idx);
    WrittenOut(LocalOf(After(inputs), c), n);
    HandledSlot(After(inputs), idx, c, n);
  }

  lemma {:induction false} Sending(inputs: seq<Input>, idx: nat) returns (c: Connection)
    requires Live(After(inputs).connections, idx).Some? && After(inputs).connections[idx].value.send != []
    ensures var s := After(inputs);
            && Usable(s) && Live(s.connections, idx) == Some(c)
            && c.serial < |s.sessions| && s.sessions[c.serial].replies != [] && c.sendPos < |c.send|
            && Known(Last(s.sessions[c.serial].replies), s.issued)
            && c.shouldClose == Closes(Last(s.sessions[c.serial].replies), s.issued)
  {
    var session;
    c, session := LiveAfter(inputs, idx);
    assert c.phase.Writing?;
  }

  lemma {:induction false} HandledSlot(s: State, idx: nat, c: Connection, n: nat)
    requires Usable(s) && Live(s.connections, idx) == Some(c) && c.send != [] && c.serial < |s.sessions|
    requires c.sendPos <= |c.send|
    ensures var l := OnWrite(LocalOf(s, c), Progress(n));
            Live(Next(s, Event(idx, None, Some(Progress(n)))).connections, idx)
            == if l.remove then None else Some(l.conn)
  {
    assert OnWrite(LocalOf(s, c), Progress(n)).conn.serial == c.serial;
  }

  lemma {:induction false} WrittenOut(l: Local, n: nat)
    requires l.conn.sendPos < |l.conn.send| && !l.remove
    ensures var l' := OnWrite(l, Progress(n)); var c := l.conn;
            && (n < |c.send| - c.sendPos ==> !l'.remove && l'.conn == c.(sendPos := c.sendPos + n))
            && (n >= |c.send| - c.sendPos ==>
                  && (l'.remove <==> c.shouldClose)
                  && (!l'.remove ==> l'.conn == Reset(c) && l'.conn.recv == [] && !l'.conn.shouldClose))
  {
  }

  /** The same when the worker's response is delivered and the socket takes all of it at once. */
  lemma {:induction false} DeliveryClosesExactly(inputs: seq<Input>, idx: nat, text: Text, n: nat)
    requires After(inputs).responses != [] && After(inputs).responses[0].token == idx + 1 && n >= |text|
    requires Live(After(inputs).connections, idx).Some?
    requires After(inputs).connections[idx].value.pending == Some(After(inputs).responses[0].id)
    ensures var s := After(inputs); var id := s.responses[0].id;
            && id in s.issued
            && (Live(Next(s, Deliver(text, Progress(n))).connections, idx).None? <==> s.issued[id].close)
  {
    var c, session := LiveAfter(inputs, idx);
    var s := After(inputs);
    var l := OnReply(LocalOf(s, c), s.responses[0], text, Progress(n));
    WholeReply(LocalOf(s, c), s.responses[0], text, n);
    assert Delivered(s, text, Progress(n)).connections == s.connections[idx := if l.remove then None else Some(l.conn)];
  }

  lemma {:induction false} WholeReply(l: Local, response: Response, text: Text, n: nat)
    requires n >= |text|
    ensures OnReply(l, response, text, Progress(n)).remove <==> l.remove || l.conn.shouldClose
    ensures OnReply(l, response, text, Progress(n)).conn.serial == l.conn.serial
  {
  }

  // ------------------------------------------------------------ histories only grow

  ghost predicate SessionGrows(a: Session, b: Session)
  {
    a.asks <= b.asks && a.replies <= b.replies && a.wire <= b.wire
  }

  ghost predicate Grows(s: State, s': State)
  {
    && |s.sessions| <= |s'.sessions|
        && (forall k :: 0 <= k < |s.sessions| ==> SessionGrows(s.sessions[k], s'.sessions[k]))
    && (forall id :: id in s.issued ==> id in s'.issued && s'.issued[id] == s.issued[id])
  }

  lemma {:induction false} StepGrows(s: State, input: Input)
    requires Inv(s) && Usable(s)
    ensures Grows(s, Step(s, input))
  {
    match input
    case Event(idx, readable, writable) => HandledGrows(s, idx, readable, writable);
    case Accept => AcceptedGrows(s);
    case Deliver(text, write) => DeliveredGrows(s, text, write);
    case Work(id, result) =>
  }

  lemma {:induction false} AcceptedGrows(s: State)
    requires Usable(s)
    ensures Grows(s, Accepted(s))
  {
  }

  lemma {:induction false} DeliveredGrows(s: State, text: Text, write: WriteOutcome)
    requires Inv(s) && Usable(s)
    ensures Grows(s, Delivered(s, text, write))
  {
    if s.responses != [] {
      var response := s.responses[0];
      var idx := response.token - 1;
      var live := Live(s.connections, idx);
      if live.Some? && live.value.pending == Some(response.id) {
        LiveLocal(s, idx);
        var rest := s.(responses := s.responses[1..]);
        var before := LocalOf(rest, live.value);
        ReplyGrows(before, response, text, write);
        SettledGrows(rest, idx, OnReply(before, response, text, write));
      }
    }
  }

  lemma {:induction false} ReplyGrows(l: Local, response: Response, text: Text, write: WriteOutcome)
    requires l.conn.sendPos <= |l.conn.send|
    ensures var l' := OnReply(l, response, text, write);
            SessionGrows(l.session, l'.session) && l'.issued == l.issued && l'.conn.serial == l.conn.serial
  {
  }

  lemma {:induction false} HandledGrows(s: State, idx: nat, readable: Option<ReadOutcome>,
      writable: Option<WriteOutcome>)
    requires Inv(s) && Usable(s)
    ensures Grows(s, Handled(s, idx, readable, writable))
  {
    var live := Live(s.connections, idx);
    if live.Some? {
      LiveLocal(s, idx);
      var before := LocalOf(s, live.value);
      var l := EventOutcome(before, idx + 1, readable, writable);
      SettledGrows(s, idx, l);
    }
  }

  lemma {:induction false} SettledGrows(s: State, idx: nat, l: Local)
    requires idx < |s.connections| && l.conn.serial < |s.sessions| && SessionGrows(s.sessions[l.conn.serial], l.session)
    requires forall id :: id in s.issued ==> id in l.issued && l.issued[id] == s.issued[id]
    ensures Grows(s, Settled(s, idx, l))
  {
  }

  lemma {:induction false} ReadGrows(l: Local, token: nat, outcome: ReadOutcome)
    ensures SessionGrows(l.session, OnReadable(l, token, outcome).session)
  {
  }

  lemma {:induction false} WriteGrows(l: Local, outcome: WriteOutcome)
    requires l.conn.sendPos <= |l.conn.send|
    ensures SessionGrows(l.session, OnWritable(l, outcome).session)
  {
  }

  lemma {:induction false} EventGrows(l: Local, token: nat, readable: Option<ReadOutcome>,
      writable: Option<WriteOutcome>)
    requires l.conn.sendPos <= |l.conn.send|
    ensures SessionGrows(l.session, OnEvent(l, token, readable, writable).session)
  {
    var afterRead := if readable.Some? then OnReadable(l, token, readable.value) else l;
    if readable.Some? { ReadGrows(l, token, readable.value); }
    if !afterRead.remove && writable.Some? { WriteGrows(afterRead, writable.value); }
  }

  /** Nothing recorded is ever taken back: a reply once queued stays the answer to its request, and an id keeps
    * its owner.
    */
  lemma {:induction false} RunGrows(inputs: seq<Input>, n: nat)
    requires n <= |inputs|
    ensures Grows(After(inputs[..n]), After(inputs))
  {
    if n == |inputs| {
      assert inputs[..n] == inputs;
    } else {
      var shorter := inputs[..|inputs| - 1];
      RunGrows(shorter, n);
      assert shorter[..n] == inputs[..n];
      AfterInv(shorter);
      StepGrows(After(shorter), inputs[|inputs| - 1]);
      GrowsTransitive(After(inputs[..n]), After(shorter), After(inputs));
    }
  }

  lemma {:induction false} GrowsTransitive(a: State, b: State, c: State)
    requires Grows(a, b) && Grows(b, c)
    ensures Grows(a, c)
  {
    forall k | 0 <= k < |a.sessions|
      ensures SessionGrows(a.sessions[k], c.sessions[k])
    {
      assert SessionGrows(a.sessions[k], b.sessions[k]) && SessionGrows(b.sessions[k], c.sessions[k]);
    }
  }
}
