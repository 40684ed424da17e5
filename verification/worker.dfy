/**
 A worker: it takes one connection at a time, reads the client's request from it and passes the
 request on to the rooms.
 */
module Worker {
  import opened Wrappers
  import opened CStrings
  import opened Protocol
  import opened MessageQueue

  const REQ_JOIN := 0
  const REQ_CREATE := 1
  const REQ_DISCONNECT := -1

  datatype Phase = Wait | Recv | Proc | Error | Fin

  datatype RequestPacket = RequestPacket(reqType: int, roomSize: nat, username: Text)

  /** Where a noted error happened, and with what. */
  datatype Trouble = Trouble(where: Phase, arg: int)

  /** The state between two passes through the loop. */
  datatype Worker = Worker(phase: Phase, socket: Conn, req: RequestPacket, trouble: Option<Trouble>)

  /**
   What the environment answers: the connection received (none when msgrcv fails), and the packet
   read (none when recv fails).
   */
  datatype Input = Input(connection: Option<Conn>, packet: Option<RequestPacket>)

  /** A request as clients send it. */
  predicate ClientRequest(req: RequestPacket)
  {
    req.reqType == REQ_JOIN || req.reqType == REQ_CREATE ==> ClientSize(req.roomSize)
  }

  const Start := Worker(Wait, 0, RequestPacket(0, 0, []), None)

  /** The type acted upon: a request without a name counts as a disconnect. */
  function EffectiveType(req: RequestPacket): int
  {
    if req.username == [] then REQ_DISCONNECT else req.reqType
  }

  /** The message a worker in PROC passes on. */
  function Forward(w: Worker): Option<Message>
  {
    var info := JoinInfo(EffectiveType(w.req) == REQ_CREATE, w.req.roomSize, Player(w.socket, w.req.username));
    if EffectiveType(w.req) == REQ_JOIN || EffectiveType(w.req) == REQ_CREATE then Some(Request(info)) else None
  }

  /** One pass through the loop. A request of unknown type leaves the worker where it is. */
  function WorkerStep(w: Worker, input: Input): Worker
  {
    match w.phase
    case Wait =>
      if input.connection == None then w.(phase := Fin)
      else w.(phase := Recv, socket := input.connection.value)
    case Recv =>
      if input.packet == None then w.(phase := Error, trouble := Some(Trouble(Recv, w.socket)))
      else w.(phase := Proc, req := input.packet.value)
    case Proc =>
      var after := w.(req := w.req.(reqType := EffectiveType(w.req)));
      if Forward(w).Some? || EffectiveType(w.req) == REQ_DISCONNECT then after.(phase := Wait)
      else after.(trouble := Some(Trouble(Proc, EffectiveType(w.req))))
    case Error => w.(phase := Wait)
    case Fin => w
  }

  /** The connection in the worker's hand. */
  predicate Holds(w: Worker)
  {
    w.phase == Recv || w.phase == Proc || w.phase == Error
  }

  // The state machine as a table: what each phase is entered from, and when. A request counts as
  // unknown when it has a name and a type that is none of the three.
  lemma WorkerPhases(w: Worker, input: Input)
    ensures var next := WorkerStep(w, input);
            var unknown := w.req.username != [] && w.req.reqType !in {-1, 0, 1};
            && (next.phase == Recv <==> w.phase == Wait && input.connection.Some?)
            && (next.phase == Proc <==> (w.phase == Recv && input.packet.Some?) || (w.phase == Proc && unknown))
            && (next.phase == Error <==> w.phase == Recv && input.packet.None?)
            && (next.phase == Wait <==> w.phase == Error || (w.phase == Proc && !unknown))
            && (next.phase == Fin <==> w.phase == Fin || (w.phase == Wait && input.connection.None?))
            && (next.phase == Recv ==> next.socket == input.connection.value)
            && (next.phase != Recv ==> next.socket == w.socket)
            && (w.phase == Recv && next.phase == Proc ==> next.req == input.packet.value)
            && (w.phase != Recv && w.req.username != [] ==> next.req == w.req)
            && (next.trouble != w.trouble ==>
                  next.trouble ==
                    Some(if w.phase == Recv then Trouble(Recv, w.socket) else Trouble(Proc, w.req.reqType)))
  {
  }

  /** The message says what the packet asked, on the connection it came from. */
  predicate AsAsked(packet: RequestPacket, info: JoinInfo, c: Conn)
  {
    && packet.username != [] && info.player == Player(c, packet.username)
    && info.roomSize == packet.roomSize
    && ((info.create && packet.reqType == 1) || (!info.create && packet.reqType == 0))
  }

  // A named request to join or create is passed on as it was asked, and nothing else is.
  lemma ForwardIsAsAsked(w: Worker)
    ensures Forward(w).Some? <==> w.req.username != [] && w.req.reqType in {0, 1}
    ensures Forward(w).Some? ==> Forward(w).value.Request? && AsAsked(w.req, Forward(w).value.info, w.socket)
  {
  }

  /** The loop as it runs, on the shared queue. */
  class WorkerFsm {
    const queue: Queue
    var state: Phase
    var socket: Conn
    var req: RequestPacket
    var trouble: Option<Trouble>

    ghost function View(): Worker
      reads this
    {
      Worker(state, socket, req, trouble)
    }

    constructor (queue: Queue)
      ensures this.queue == queue && View() == Start
    {
      this.queue := queue;
      state, socket, req, trouble := Wait, 0, RequestPacket(0, 0, []), None;
    }

    // Takes the next connection; queueOk tells whether msgrcv works, and it blocks until there is one.
    method WaitPass(queueOk: bool)
      requires queue.Valid() && state == Wait
      requires queueOk ==> Select(queue.items, MSG_WRK).Some?
      modifies this, queue
      ensures queue.Valid() && queue.sent == old(queue.sent)
      ensures !queueOk ==>
                && View() == WorkerStep(old(View()), Input(None, None))
                && queue.items == old(queue.items) && queue.received == old(queue.received)
      ensures queueOk ==>
                var i := Select(old(queue.items), MSG_WRK).value;
                && queue.items == Without(old(queue.items), i)
                && queue.received == old(queue.received) + [old(queue.items)[i]]
                && old(queue.items)[i].Connection?
                && View() == WorkerStep(old(View()), Input(Some(old(queue.items)[i].socket), None))
    {
      if !queueOk {
        state := Fin;
      } else {
        WhatReceiversGet(queue.items);
        var con := queue.MsgRcv(MSG_WRK);
        socket := con.socket;
        state := Recv;
      }
    }

    method RecvPass(packet: Option<RequestPacket>)
      requires state == Recv
      modifies this
      ensures View() == WorkerStep(old(View()), Input(None, packet))
    {
      if packet == None {
        state := Error;
        trouble := Some(Trouble(Recv, socket));
      } else {
        req := packet.value;
        state := Proc;
      }
    }

    // Enqueues the request as the client made it; queueOk tells whether msgsnd works, and its outcome
    // is not looked at.
    method ProcPass(queueOk: bool)
      requires queue.Valid() && state == Proc
      modifies this, queue
      ensures queue.Valid() && queue.received == old(queue.received)
      ensures View() == WorkerStep(old(View()), Input(None, None))
      ensures var m := Forward(old(View()));
              var sent := if m.Some? && queueOk then [m.value] else [];
              queue.items == old(queue.items) + sent && queue.sent == old(queue.sent) + sent
      ensures old(req).username != [] && (old(req).reqType == 0 || old(req).reqType == 1) ==>
                var info := JoinInfo(old(req).reqType == 1, old(req).roomSize, Player(old(socket), old(req).username));
                && state == Wait && TypeOf(Request(info)) == (if old(req).reqType == 1 then 2 else 1)
                && queue.items == old(queue.items) + if queueOk then [Request(info)] else []
      ensures old(req).username == [] || old(req).reqType == -1 ==> state == Wait && queue.items == old(queue.items)
      ensures old(req).username != [] && old(req).reqType !in {-1, 0, 1} ==>
                state == Proc && queue.items == old(queue.items)
    {
      var player := Player(socket, req.username);
      if req.username == [] {
        req := req.(reqType := REQ_DISCONNECT);
      }
      if req.reqType == REQ_JOIN {
        queue.MsgSnd(Request(JoinInfo(false, req.roomSize, player)), queueOk);
        state := Wait;
      } else if req.reqType == REQ_CREATE {
        queue.MsgSnd(Request(JoinInfo(true, req.roomSize, player)), queueOk);
        state := Wait;
      } else if req.reqType == REQ_DISCONNECT {
        state := Wait;
      } else {
        trouble := Some(Trouble(Proc, req.reqType));
      }
    }

    method ErrorPass()
      requires state == Error
      modifies this
      ensures View() == WorkerStep(old(View()), Input(None, None))
    {
      state := Wait;
    }

    // One pass through the switch. Only WAIT takes from the queue and only PROC adds to it;
    // queueOk tells whether the queue serves the call.
    method Pass(queueOk: bool, packet: Option<RequestPacket>)
      requires queue.Valid()
      requires state == Wait && queueOk ==> Select(queue.items, MSG_WRK).Some?
      modifies this, queue
      ensures queue.Valid()
      ensures old(state) == Wait && queueOk ==>
                var i := Select(old(queue.items), MSG_WRK).value;
                && queue.items == Without(old(queue.items), i)
                && queue.sent == old(queue.sent) && queue.received == old(queue.received) + [old(queue.items)[i]]
                && old(queue.items)[i].Connection?
                && View() == WorkerStep(old(View()), Input(Some(old(queue.items)[i].socket), None))
      ensures !(old(state) == Wait && queueOk) ==>
                var w := old(View());
                var added := if w.phase == Proc && Forward(w).Some? && queueOk then [Forward(w).value] else [];
                && View() == WorkerStep(w, Input(None, packet))
                && queue.items == old(queue.items) + added
                && queue.sent == old(queue.sent) + added && queue.received == old(queue.received)
    {
      match state {
        case Wait => WaitPass(queueOk);
        case Recv => RecvPass(packet);
        case Proc => ProcPass(queueOk);
        case Error => ErrorPass();
        case Fin =>
      }
    }
  }
}
