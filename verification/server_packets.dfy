/**
 From the packet to the seat: what is queued and who sits where, told by what the clients
 themselves sent rather than by what the workers made of it.
 */
module ServerPackets {
  import opened Wrappers
  import opened UnitText
  import opened Protocol
  import opened MessageQueue
  import opened Server
  import opened ServerInvariant
  import opened ServerHistory
  import Worker
  import RoomSpec
  import RoomInvariant

  /** A worker that has read a packet still has it, and one that has not has the client's first one to read. */
  predicate HandHeard(w: Worker.Worker, packets: map<Conn, Worker.RequestPacket>)
  {
    && (w.phase == Worker.Recv ==> w.socket !in packets)
    && (w.phase == Worker.Proc ==> w.socket in packets && packets[w.socket] == w.req)
  }

  /** What was passed on is what the packets asked, and connections on their way have sent none yet. */
  ghost predicate Heard(s: State)
  {
    && (forall c :: c in s.packets ==> c < s.accepted)
    && (forall w :: w in s.workers ==> HandHeard(w, s.packets))
    && (forall c :: Connection(c) in s.queue ==> c !in s.packets)
    && (forall c :: c in s.requests ==> c in s.packets && Worker.AsAsked(s.packets[c], s.requests[c], c))
  }

  // What a worker's pass does to the books, part by part.
  lemma WorkerParts(s: State, w: nat, queueOk: bool, packet: Option<Worker.RequestPacket>)
    requires Enabled(s, WorkerAct(w, queueOk, packet))
    ensures var t, worker := WorkerApply(s, w, queueOk, packet), s.workers[w];
            var next := t.workers[w];
            && t.accepted == s.accepted && t.workers == s.workers[w := next]
            && (forall c :: Connection(c) in t.queue ==> Connection(c) in s.queue)
            && (next.phase == Worker.Recv ==> worker.phase == Worker.Wait && Connection(next.socket) in s.queue)
            && (next.phase == Worker.Proc ==>
                  && next.socket == worker.socket
                  && ((worker.phase == Worker.Recv && packet == Some(next.req))
                      || (worker.phase == Worker.Proc && next.req == worker.req)))
  {
    hide MustDeliver;
    hide Worker.WorkerStep;
    WhatReceiversGet(s.queue);
    var worker := s.workers[w];
    Worker.WorkerPhases(worker, Worker.Input(None, packet));
    Worker.ForwardIsAsAsked(worker);
    if worker.phase == Worker.Wait && queueOk {
      var m := s.queue[Select(s.queue, MSG_WRK).value];
      assert m in s.queue && m == Connection(m.socket);
      Worker.WorkerPhases(worker, Worker.Input(Some(m.socket), None));
    }
  }

  lemma WorkerBooks(s: State, w: nat, queueOk: bool, packet: Option<Worker.RequestPacket>)
    requires Enabled(s, WorkerAct(w, queueOk, packet))
    ensures var t, worker := WorkerApply(s, w, queueOk, packet), s.workers[w];
            var heard, passed := worker.phase == Worker.Recv && packet.Some?, Forwards(worker, queueOk);
            && t.packets == (if heard then s.packets[worker.socket := packet.value] else s.packets)
            && t.requests == (if passed then s.requests[worker.socket := Worker.Forward(worker).value.info]
                              else s.requests)
  {
    hide MustDeliver;
    hide Worker.WorkerStep;
    hide Worker.Forward;
    WhatReceiversGet(s.queue);
  }

  lemma WorkerHears(bank: seq<UnitValue>, s: State, w: nat, queueOk: bool, packet: Option<Worker.RequestPacket>)
    requires bank != [] && Inv(bank, s) && Heard(s) && Enabled(s, WorkerAct(w, queueOk, packet))
    ensures Heard(WorkerApply(s, w, queueOk, packet))
  {
    hide RoomInvariant.Inv;
    hide Conserved;
    hide Fifo;
    hide SeatsRemembered;
    hide WorkerApply;
    hide Select;
    hide Worker.Forward;
    var worker, t := s.workers[w], WorkerApply(s, w, queueOk, packet);
    assert worker in s.workers && HandKnown(worker, s.requests, s.accepted) && HandHeard(worker, s.packets);
    WorkerParts(s, w, queueOk, packet);
    WorkerBooks(s, w, queueOk, packet);
    Worker.ForwardIsAsAsked(worker);
    forall v | v in t.workers ensures HandHeard(v, t.packets) {
      var k: nat :| k < |t.workers| && t.workers[k] == v;
      if k != w {
        assert v == s.workers[k] && v in s.workers && HandHeard(v, s.packets);
        if Worker.Holds(v) && Worker.Holds(worker) {
          HeldOnce(s, w, k);
        }
      }
    }
    forall c | Connection(c) in t.queue ensures c !in t.packets {
      if Worker.Holds(worker) {
        HeldIsNotQueued(s, w, Connection(c));
      }
    }
  }

  lemma RoomHears(bank: seq<UnitValue>, s: State, r: nat, queueOk: bool, input: RoomSpec.Input)
    requires bank != [] && Inv(bank, s) && Heard(s) && Enabled(s, RoomAct(r, queueOk, input))
    requires RoomSpec.Bounded(s.rooms[r])
    ensures var t := RoomApply(bank, s, r, queueOk, input); Heard(t) && t.packets == s.packets
  {
    hide RoomInvariant.Inv;
    hide RoomSpec.RoomStep;
    hide Conserved;
    hide Fifo;
    hide SeatsRemembered;
    hide RoomApply;
    hide Select;
    DeliveredIsValid(bank, s, r, queueOk, input);
    RoomParts(bank, s, r, queueOk, input);
  }

  lemma StepHears(bank: seq<UnitValue>, s: State, a: Action)
    requires bank != [] && Inv(bank, s) && Heard(s)
    ensures var t := Apply(bank, s, a);
            Heard(t) && forall c :: c in s.packets ==> c in t.packets && t.packets[c] == s.packets[c]
  {
    hide RoomInvariant.Inv;
    hide Conserved;
    hide Fifo;
    hide SeatsRemembered;
    hide WorkerApply;
    hide RoomApply;
    hide Select;
    if Enabled(s, a) {
      match a {
        case Accept(queueOk) =>
        case WorkerAct(w, queueOk, packet) =>
          WorkerHears(bank, s, w, queueOk, packet);
          WorkerBooks(s, w, queueOk, packet);
          assert s.workers[w] in s.workers;
        case RoomAct(r, queueOk, input) =>
          DeliveredIsValid(bank, s, r, queueOk, input);
          RoomHears(bank, s, r, queueOk, input);
      }
    }
  }

  lemma {:induction false} RunHears(bank: seq<UnitValue>, s: State, actions: seq<Action>)
    requires bank != [] && Inv(bank, s) && Heard(s)
    ensures Heard(Run(bank, s, actions))
    decreases |actions|
  {
    hide Inv;
    hide Apply;
    hide Heard;
    if actions != [] {
      StepKeeps(bank, s, actions[0]);
      StepHears(bank, s, actions[0]);
      RunHears(bank, Apply(bank, s, actions[0]), actions[1..]);
    }
  }

  lemma ReachedIsHeard(bank: seq<UnitValue>, workers: nat, rooms: nat, actions: seq<Action>)
    requires bank != []
    ensures Heard(Reached(bank, workers, rooms, actions))
  {
    hide Inv;
    StartIsGood(bank, workers, rooms);
    RunHears(bank, Start(bank, workers, rooms), actions);
  }

  // Every request in the queue of a reached server is what the client on that connection sent.
  lemma QueuedAsAsked(bank: seq<UnitValue>, workers: nat, rooms: nat, actions: seq<Action>, info: JoinInfo)
    requires bank != [] && Request(info) in Reached(bank, workers, rooms, actions).queue
    ensures var s := Reached(bank, workers, rooms, actions);
            info.player.socket in s.packets && Worker.AsAsked(s.packets[info.player.socket], info, info.player.socket)
  {
    hide RoomInvariant.Inv;
    ReachedIsHeard(bank, workers, rooms, actions);
    var s := Reached(bank, workers, rooms, actions);
    assert MessageKnown(Request(info), s.requests, s.accepted);
  }

  // Who sits where, by what they sent: on the first seat somebody whose packet asked to create a room
  // of this size, or to join one and gave this size; on every later seat somebody who asked to join.
  // All sit under the name they sent.
  lemma SeatedAsAsked(bank: seq<UnitValue>, workers: nat, rooms: nat, actions: seq<Action>, r: nat, i: nat)
    requires bank != []
    requires r < |Reached(bank, workers, rooms, actions).rooms|
    requires i < |Reached(bank, workers, rooms, actions).rooms[r].seats|
    ensures var s := Reached(bank, workers, rooms, actions);
            var player := s.rooms[r].seats[i];
            && player.socket in s.packets
            && var packet := s.packets[player.socket];
               && packet.username == player.username != []
               && (i == 0 ==> packet.reqType in {0, 1} && packet.roomSize == s.rooms[r].size)
               && (i > 0 ==> packet.reqType == 0)
  {
    hide RoomInvariant.Inv;
    ReachedIsHeard(bank, workers, rooms, actions);
    var s := Reached(bank, workers, rooms, actions);
    assert SeatsRemembered(s.rooms[r], s.requests);
  }
}
