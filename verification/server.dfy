/**
 The server as a whole: the acceptor, any number of workers and any number of rooms, taking
 steps in any order on one shared queue. One action is one pass through one thread's loop; every
 pass touches the queue at most once, and nothing else is shared.
 */
module Server {
  import opened Wrappers
  import opened UnitText
  import opened Protocol
  import opened MessageQueue
  import opened Totals
  import Worker
  import RoomSpec
  import RoomInvariant

  /**
   The state. Connections are numbered as they are accepted. The last six fields are history:
   what was closed, and what was dropped without closing, counted; all messages sent and received;
   packets remembers what each client sent, requests what was passed on for it.
   */
  datatype State = State(
    queue: seq<Message>,
    workers: seq<Worker.Worker>,
    rooms: seq<RoomSpec.Room>,
    accepted: nat,
    closed: multiset<Conn>,
    abandoned: multiset<Conn>,
    sent: seq<Message>,
    received: seq<Message>,
    packets: map<Conn, Worker.RequestPacket>,
    requests: map<Conn, JoinInfo>)

  /** One pass of one thread; queueOk tells whether its msgrcv or msgsnd works. */
  datatype Action =
    | Accept(queueOk: bool)
    | WorkerAct(w: nat, queueOk: bool, packet: Option<Worker.RequestPacket>)
    | RoomAct(r: nat, queueOk: bool, input: RoomSpec.Input)

  function Start(bank: seq<UnitValue>, workers: nat, rooms: nat): State
    requires bank != []
  {
    State([], seq(workers, i => Worker.Start), seq(rooms, i => RoomSpec.Start(bank)),
          0, multiset{}, multiset{}, [], [], map[], map[])
  }

  // ----- where a connection can be -----

  function MessageConns(m: Message): multiset<Conn>
  {
    match m
    case Connection(c) => multiset{c}
    case Request(info) => multiset{info.player.socket}
  }

  function HandConns(w: Worker.Worker): multiset<Conn>
  {
    if Worker.Holds(w) then multiset{w.socket} else multiset{}
  }

  function PlayerConns(p: Player): multiset<Conn>
  {
    multiset{p.socket}
  }

  function RoomConns(room: RoomSpec.Room): multiset<Conn>
  {
    Total(PlayerConns, room.seats)
  }

  /** All the places at once, with multiplicity. */
  function Places(s: State): multiset<Conn>
  {
    Total(MessageConns, s.queue) + Total(HandConns, s.workers) + Total(RoomConns, s.rooms) + s.closed + s.abandoned
  }

  function Accepted(n: nat): multiset<Conn>
  {
    if n == 0 then multiset{} else Accepted(n - 1) + multiset{n - 1}
  }

  lemma {:induction false} AcceptedOnce(n: nat, c: Conn)
    ensures Accepted(n)[c] == if c < n then 1 else 0
  {
    if n > 0 {
      AcceptedOnce(n - 1, c);
    }
  }

  // ----- what every step keeps -----

  /** Every connection is in exactly one place. */
  ghost predicate Conserved(s: State)
  {
    Places(s) == Accepted(s.accepted)
  }

  /** A message on its way: a connection nobody asked for anything on yet, or the request that was passed on. */
  predicate MessageKnown(m: Message, requests: map<Conn, JoinInfo>, accepted: nat)
  {
    match m
    case Connection(c) => c !in requests && c < accepted
    case Request(info) =>
      && ClientSize(info.roomSize)
      && info.player.socket in requests && requests[info.player.socket] == info
  }

  /** A connection in a hand has no request yet. */
  predicate HandKnown(w: Worker.Worker, requests: map<Conn, JoinInfo>, accepted: nat)
  {
    && (Worker.Holds(w) ==> w.socket !in requests && w.socket < accepted)
    && (w.phase == Worker.Proc ==> Worker.ClientRequest(w.req))
  }

  /** The first seat belongs to whoever opened the room, with the size they asked for; the others joined. */
  ghost predicate SeatsRemembered(room: RoomSpec.Room, requests: map<Conn, JoinInfo>)
  {
    && (forall i :: 0 <= i < |room.seats| ==>
          room.seats[i].socket in requests && requests[room.seats[i].socket].player == room.seats[i])
    && (forall i :: 0 < i < |room.seats| ==> !requests[room.seats[i].socket].create)
    && (room.seats != [] ==> requests[room.seats[0].socket].roomSize == room.size)
  }

  /** Requests on their way and in the seats are the ones the workers passed on. */
  ghost predicate Remembered(s: State)
  {
    && (forall m :: m in s.queue ==> MessageKnown(m, s.requests, s.accepted))
    && (forall w :: w in s.workers ==> HandKnown(w, s.requests, s.accepted))
    && (forall c :: c in s.requests ==> c < s.accepted)
    && (forall room :: room in s.rooms ==> SeatsRemembered(room, s.requests))
  }

  ghost predicate Inv(bank: seq<UnitValue>, s: State)
  {
    && Conserved(s)
    && Fifo(s.sent, s.received, s.queue)
    && Remembered(s)
    && forall room :: room in s.rooms ==> RoomInvariant.Inv(|bank|, room)
  }

  // ----- steps -----

  /** The pass can be taken now: its thread runs and, if it is to receive, there is a message for it. */
  predicate Enabled(s: State, a: Action)
  {
    match a
    case Accept(_) => true
    case WorkerAct(w, queueOk, packet) =>
      && w < |s.workers| && s.workers[w].phase != Worker.Fin
      && (s.workers[w].phase == Worker.Wait && queueOk ==> Select(s.queue, MSG_WRK).Some?)
      && (packet.Some? ==> Worker.ClientRequest(packet.value))
    case RoomAct(r, queueOk, input) =>
      && r < |s.rooms| && s.rooms[r].phase != RoomSpec.Exit
      && RoomSpec.CanPass(s.rooms[r], s.queue, queueOk)
      && RoomSpec.ValidInput(input.(message := None))
  }

  function Take(s: State, i: nat): State
    requires i < |s.queue|
  {
    s.(queue := Without(s.queue, i), received := s.received + [s.queue[i]])
  }

  function Send(s: State, m: Message): State
  {
    s.(queue := s.queue + [m], sent := s.sent + [m])
  }

  // The acceptor does not look at the outcome of its msgsnd: when that fails, nobody knows the
  // connection any more.
  function AcceptApply(s: State, queueOk: bool): State
  {
    var t := s.(accepted := s.accepted + 1);
    if queueOk then Send(t, Connection(s.accepted)) else t.(abandoned := t.abandoned + multiset{s.accepted})
  }

  /** The worker hands its request to the queue in this pass, and the queue takes it. */
  predicate Forwards(worker: Worker.Worker, queueOk: bool)
  {
    worker.phase == Worker.Proc && Worker.Forward(worker).Some? && queueOk
  }

  // Whatever leaves a hand without reaching the queue is abandoned: after a receive error, on a
  // disconnect, and when msgsnd fails.
  function WorkerApply(s: State, w: nat, queueOk: bool, packet: Option<Worker.RequestPacket>): State
    requires Enabled(s, WorkerAct(w, queueOk, packet))
  {
    var worker := s.workers[w];
    if worker.phase == Worker.Wait && queueOk then
      WhatReceiversGet(s.queue);
      var i := Select(s.queue, MSG_WRK).value;
      var con := s.queue[i].socket;
      var t := Take(s, i);
      t.(workers := t.workers[w := Worker.WorkerStep(worker, Worker.Input(Some(con), None))])
    else
      var next := Worker.WorkerStep(worker, Worker.Input(None, packet));
      var heard := worker.phase == Worker.Recv && packet.Some?;
      var t := s.(
        workers := s.workers[w := next],
        packets := if heard then s.packets[worker.socket := packet.value] else s.packets);
      if Forwards(worker, queueOk) then
        var m := Worker.Forward(worker).value;
        Send(t, m).(requests := s.requests[worker.socket := m.info])
      else if Worker.Holds(worker) && !Worker.Holds(next) then
        t.(abandoned := t.abandoned + multiset{worker.socket})
      else t
  }

  /** What a room's msgrcv delivers. */
  function Delivered(s: State, r: nat, queueOk: bool): (message: Option<JoinInfo>)
    requires r < |s.rooms| && RoomSpec.CanPass(s.rooms[r], s.queue, queueOk)
  {
    RoomSpec.Delivery(s.rooms[r], s.queue, queueOk)
  }

  function RoomApply(bank: seq<UnitValue>, s: State, r: nat, queueOk: bool, input: RoomSpec.Input): State
    requires bank != [] && Enabled(s, RoomAct(r, queueOk, input)) && RoomSpec.Bounded(s.rooms[r])
    requires forall m :: m in s.queue ==> MessageKnown(m, s.requests, s.accepted)
  {
    var room := s.rooms[r];
    var message := Delivered(s, r, queueOk);
    WhatReceiversGet(s.queue);
    var t := if message.Some? then Take(s, Select(s.queue, RoomSpec.Selector(room)).value) else s;
    assert message.Some? ==>
             var m := s.queue[Select(s.queue, RoomSpec.Selector(room)).value];
             m in s.queue && MessageKnown(m, s.requests, s.accepted) && ClientSize(m.info.roomSize);
    var next := RoomSpec.RoomStep(bank, room, input.(message := message));
    t.(rooms := t.rooms[r := next],
       closed := if RoomSpec.Closes(room) then t.closed + RoomConns(room)
                 else t.closed)
  }

  /** The state after a pass, or the same state when the pass cannot be taken. */
  ghost function Apply(bank: seq<UnitValue>, s: State, a: Action): State
    requires bank != [] && Inv(bank, s)
  {
    if !Enabled(s, a) then s
    else
      match a
      case Accept(queueOk) => AcceptApply(s, queueOk)
      case WorkerAct(w, queueOk, packet) => WorkerApply(s, w, queueOk, packet)
      case RoomAct(r, queueOk, input) =>
        assert s.rooms[r] in s.rooms;
        RoomApply(bank, s, r, queueOk, input)
  }
}
