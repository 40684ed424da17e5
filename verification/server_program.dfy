/**
 The running server: worker and room objects on one queue object. Each pass of one of them is proved
 to be the matching action of the transition system, so what holds of every reached state holds of
 the objects, in whatever order the threads take their passes.
 */
module ServerProgram {
  import opened Wrappers
  import opened CStrings
  import opened UnitText
  import opened UnitRing
  import opened Protocol
  import opened MessageQueue
  import opened Server
  import opened ServerInvariant
  import Worker
  import Room
  import RoomSpec
  import RoomInvariant

  /** Each action can be taken when its turn comes. */
  ghost predicate Schedule(bank: seq<UnitValue>, s: State, actions: seq<Action>)
    requires bank != [] && Inv(bank, s)
    decreases |actions|
  {
    if actions == [] then true
    else
      StepKeeps(bank, s, actions[0]);
      Enabled(s, actions[0]) && Schedule(bank, Apply(bank, s, actions[0]), actions[1..])
  }

  ghost predicate ScheduleFromStart(bank: seq<UnitValue>, wnum: nat, rnum: nat, actions: seq<Action>)
    requires bank != []
  {
    StartIsGood(bank, wnum, rnum);
    Schedule(bank, Start(bank, wnum, rnum), actions)
  }

  // What each kind of action does to the parts of the state.
  lemma AcceptedState(bank: seq<UnitValue>, s: State, queueOk: bool)
    requires bank != [] && Inv(bank, s)
    ensures var t, sent := Apply(bank, s, Accept(queueOk)), if queueOk then [Connection(s.accepted)] else [];
            && Inv(bank, t) && t.accepted == s.accepted + 1
            && t.queue == s.queue + sent && t.sent == s.sent + sent && t.received == s.received
            && t.workers == s.workers && t.rooms == s.rooms
  {
    StepKeeps(bank, s, Accept(queueOk));
  }

  lemma WorkedState(bank: seq<UnitValue>, s: State, w: nat, queueOk: bool, packet: Option<Worker.RequestPacket>)
    requires bank != [] && Inv(bank, s) && Enabled(s, WorkerAct(w, queueOk, packet))
    ensures w < |s.workers|
    ensures s.workers[w].phase == Worker.Wait && queueOk ==> Select(s.queue, MSG_WRK).Some?
    ensures var t, worker := Apply(bank, s, WorkerAct(w, queueOk, packet)), s.workers[w];
            && Inv(bank, t) && t.accepted == s.accepted && t.rooms == s.rooms && |t.workers| == |s.workers|
            && (forall v :: 0 <= v < |s.workers| && v != w ==> t.workers[v] == s.workers[v])
            && if worker.phase == Worker.Wait && queueOk then
                 var i := Select(s.queue, MSG_WRK).value;
                 && s.queue[i].Connection?
                 && t.workers[w] == Worker.WorkerStep(worker, Worker.Input(Some(s.queue[i].socket), None))
                 && t.queue == Without(s.queue, i) && t.sent == s.sent && t.received == s.received + [s.queue[i]]
               else
                 var added := if Forwards(worker, queueOk) then [Worker.Forward(worker).value] else [];
                 && t.workers[w] == Worker.WorkerStep(worker, Worker.Input(None, packet))
                 && t.queue == s.queue + added && t.sent == s.sent + added && t.received == s.received
  {
    hide Inv;
    hide Worker.WorkerStep;
    StepKeeps(bank, s, WorkerAct(w, queueOk, packet));
    WhatReceiversGet(s.queue);
  }

  lemma RoomedState(bank: seq<UnitValue>, s: State, r: nat, queueOk: bool, input: RoomSpec.Input)
    requires bank != [] && Inv(bank, s) && Enabled(s, RoomAct(r, queueOk, input))
    ensures r < |s.rooms| && RoomSpec.CanPass(s.rooms[r], s.queue, queueOk) && RoomSpec.Bounded(s.rooms[r])
    ensures RoomSpec.ValidInput(input.(message := None))
    ensures var message := RoomSpec.Delivery(s.rooms[r], s.queue, queueOk);
            var t := Apply(bank, s, RoomAct(r, queueOk, input));
            && RoomSpec.ValidInput(input.(message := message))
            && Inv(bank, t) && t.accepted == s.accepted && t.workers == s.workers && |t.rooms| == |s.rooms|
            && (forall q :: 0 <= q < |s.rooms| && q != r ==> t.rooms[q] == s.rooms[q])
            && t.rooms[r] == RoomSpec.RoomStep(bank, s.rooms[r], input.(message := message))
            && t.queue == RoomSpec.Remaining(s.rooms[r], s.queue, queueOk) && t.sent == s.sent
            && t.received == s.received + if message.Some? then [Request(message.value)] else []
    ensures forall m :: m in s.queue && m.Request? ==> ClientSize(m.info.roomSize)
  {
    hide RoomInvariant.Inv;
    hide RoomSpec.RoomStep;
    hide Conserved;
    hide Fifo;
    hide MustDeliver;
    hide SeatsRemembered;
    StepKeeps(bank, s, RoomAct(r, queueOk, input));
    DeliveredIsValid(bank, s, r, queueOk, input);
    assert forall m :: m in s.queue ==> MessageKnown(m, s.requests, s.accepted);
  }

  method MakeWorkers(queue: Queue, wnum: nat) returns (workers: seq<Worker.WorkerFsm>)
    ensures |workers| == wnum && fresh(workers)
    ensures forall v, w :: 0 <= v < w < wnum ==> workers[v] != workers[w]
    ensures forall w :: 0 <= w < wnum ==> workers[w].queue == queue && workers[w].View() == Worker.Start
  {
    workers := [];
    for idx := 0 to wnum
      invariant |workers| == idx && fresh(workers)
      invariant forall v, w :: 0 <= v < w < idx ==> workers[v] != workers[w]
      invariant forall w :: 0 <= w < idx ==> workers[w].queue == queue && workers[w].View() == Worker.Start
    {
      var worker := new Worker.WorkerFsm(queue);
      workers := workers + [worker];
    }
  }

  // Two rooms share no array.
  predicate Apart(rooms: seq<Room.RoomFsm>)
  {
    forall q, r :: 0 <= q < r < |rooms| ==>
      rooms[q] != rooms[r] && rooms[q].score != rooms[r].score && rooms[q].players != rooms[r].players
  }

  method MakeRooms(units: Unit, ghost ring: seq<Unit>, ghost bank: seq<UnitValue>, rnum: nat)
    returns (rooms: seq<Room.RoomFsm>)
    requires IsRing(ring) && HoldAll(ring, bank) && units == ring[|ring| - 1]
    requires bank != [] && forall u :: u in bank ==> Writable(u)
    ensures |rooms| == rnum && fresh(rooms) && Apart(rooms)
    ensures forall room :: room in rooms ==> fresh(room.score) && fresh(room.players)
    ensures forall room :: room in rooms ==>
              room.ring == ring && room.bank == bank && room.Valid() && room.View() == RoomSpec.Start(bank)
  {
    hide HoldAll;
    hide IsRing;
    hide Writable;
    rooms := [];
    for idx := 0 to rnum
      invariant |rooms| == idx && fresh(rooms) && Apart(rooms)
      invariant forall room :: room in rooms ==> fresh(room.score) && fresh(room.players)
      invariant forall room :: room in rooms ==>
                  room.ring == ring && room.bank == bank && room.Valid() && room.View() == RoomSpec.Start(bank)
    {
      var room := new Room.RoomFsm(units, ring, bank);
      rooms := rooms + [room];
    }
  }

  class ServerFsm {
    const queue: Queue
    const workers: seq<Worker.WorkerFsm>
    const rooms: seq<Room.RoomFsm>

    var accepted: nat // the number of the next connection

    ghost const ring: seq<Unit>
    ghost const bank: seq<UnitValue>
    ghost var state: State

    ghost predicate QueueMatches()
      reads this, queue
    {
      && queue.Valid()
      && queue.items == state.queue && queue.sent == state.sent && queue.received == state.received
    }

    ghost predicate WorkersMatch(values: seq<Worker.Worker>)
      reads workers
    {
      && |workers| == |values|
      && (forall v, w :: 0 <= v < w < |workers| ==> workers[v] != workers[w])
      && forall w :: 0 <= w < |workers| ==> workers[w].queue == queue && workers[w].View() == values[w]
    }

    ghost predicate RoomsMatch(values: seq<RoomSpec.Room>)
      reads rooms, set room <- rooms :: room.score, set room <- rooms :: room.players, ring
    {
      && |rooms| == |values|
      && Apart(rooms)
      && forall r :: 0 <= r < |rooms| ==>
           && rooms[r].ring == ring && rooms[r].bank == bank
           && rooms[r].Valid() && rooms[r].View() == values[r]
    }

    /** The objects are in the state, and the state is one the server can be in. */
    ghost predicate Valid()
      reads this, queue, workers, rooms, set room <- rooms :: room.score, set room <- rooms :: room.players, ring
    {
      && bank != [] && Inv(bank, state) && accepted == state.accepted
      && QueueMatches() && WorkersMatch(state.workers) && RoomsMatch(state.rooms)
    }

    // Workers and rooms are made around one queue; all rooms walk the same ring.
    constructor (units: Unit, ghost ring: seq<Unit>, ghost bank: seq<UnitValue>, wnum: nat, rnum: nat)
      requires IsRing(ring) && HoldAll(ring, bank) && units == ring[|ring| - 1]
      requires bank != [] && forall u :: u in bank ==> Writable(u)
      ensures Valid() && this.bank == bank && state == Start(bank, wnum, rnum)
      ensures fresh(queue) && fresh(workers) && fresh(rooms)
      ensures forall room :: room in rooms ==> fresh(room.score) && fresh(room.players)
    {
      hide Inv;
      hide Apart;
      hide HoldAll;
      hide IsRing;
      hide Writable;
      var queue := new Queue();
      var workers := MakeWorkers(queue, wnum);
      var rooms := MakeRooms(units, ring, bank, rnum);
      StartIsGood(bank, wnum, rnum);
      this.queue, this.workers, this.rooms := queue, workers, rooms;
      this.ring, this.bank, accepted, state := ring, bank, 0, Start(bank, wnum, rnum);
    }

    // The acceptor's pass: the new connection goes to the queue.
    method AcceptPass(queueOk: bool)
      requires Valid()
      modifies this, queue
      ensures Valid() && state == Apply(bank, old(state), Accept(queueOk))
    {
      hide Inv;
      hide Apply;
      hide Apart;
      hide WorkersMatch;
      hide RoomsMatch;
      AcceptedState(bank, state, queueOk);
      queue.MsgSnd(Connection(accepted), queueOk);
      accepted := accepted + 1;
      state := Apply(bank, state, Accept(queueOk));
    }

    method WorkerPass(w: nat, queueOk: bool, packet: Option<Worker.RequestPacket>)
      requires Valid() && Enabled(state, WorkerAct(w, queueOk, packet))
      modifies this`state, queue, workers
      ensures Valid() && state == Apply(bank, old(state), WorkerAct(w, queueOk, packet))
    {
      hide Inv;
      hide Apply;
      hide Apart;
      hide Worker.WorkerStep;
      hide Worker.Forward;
      hide Select;
      hide Enabled;
      hide RoomsMatch;
      WorkedState(bank, state, w, queueOk, packet);
      workers[w].Pass(queueOk, packet);
      state := Apply(bank, state, WorkerAct(w, queueOk, packet));
    }

    method RoomPass(r: nat, queueOk: bool, input: RoomSpec.Input)
      requires Valid() && Enabled(state, RoomAct(r, queueOk, input))
      modifies this`state, queue, rooms, set room <- rooms :: room.score, set room <- rooms :: room.players
      ensures Valid() && state == Apply(bank, old(state), RoomAct(r, queueOk, input))
    {
      hide Inv;
      hide Apply;
      hide Enabled;
      hide RoomSpec.RoomStep;
      hide RoomSpec.Remaining;
      hide RoomSpec.Delivery;
      hide RoomSpec.CanPass;
      hide RoomSpec.ValidInput;
      hide Room.RoomFsm.Valid;
      hide Room.RoomFsm.View;
      hide WorkersMatch;
      RoomedState(bank, state, r, queueOk, input);
      rooms[r].PassOnQueue(queue, queueOk, input);
      state := Apply(bank, state, RoomAct(r, queueOk, input));
    }

    // One pass of the thread whose turn it is.
    method Pass(action: Action)
      requires Valid() && Enabled(state, action)
      modifies this, queue, workers, rooms, set room <- rooms :: room.score, set room <- rooms :: room.players
      ensures Valid() && state == Apply(bank, old(state), action)
    {
      hide Inv;
      hide Enabled;
      hide WorkersMatch;
      hide RoomsMatch;
      hide QueueMatches;
      match action {
        case Accept(queueOk) => AcceptPass(queueOk);
        case WorkerAct(w, queueOk, packet) => WorkerPass(w, queueOk, packet);
        case RoomAct(r, queueOk, input) => RoomPass(r, queueOk, input);
      }
    }

    // The threads take their passes in the given order.
    method Serve(actions: seq<Action>)
      requires Valid() && Schedule(bank, state, actions)
      modifies this, queue, workers, rooms, set room <- rooms :: room.score, set room <- rooms :: room.players
      ensures Valid() && state == Run(bank, old(state), actions)
    {
      hide Inv;
      hide Enabled;
      hide Apply;
      hide WorkersMatch;
      hide RoomsMatch;
      hide QueueMatches;
      for k := 0 to |actions|
        invariant Valid() && Schedule(bank, state, actions[k..])
        invariant Run(bank, state, actions[k..]) == Run(bank, old(state), actions)
      {
        assert actions[k..][1..] == actions[k + 1..];
        Pass(actions[k]);
      }
    }
  }

  // What is proved of reached states, read off the objects: nobody sits twice.
  lemma PlayersSitOnce(server: ServerFsm, r: nat, i: nat, q: nat, j: nat)
    requires server.Valid() && r < |server.rooms| && q < |server.rooms|
    requires server.rooms[r].Valid() && i < |server.rooms[r].Seats()|
    requires server.rooms[q].Valid() && j < |server.rooms[q].Seats()|
    ensures server.rooms[r].Seats()[i].socket == server.rooms[q].Seats()[j].socket ==> r == q && i == j
    ensures server.rooms[r].Seats()[i].socket !in server.state.closed
  {
    hide Inv;
    hide Room.RoomFsm.Seats;
    SeatsAreDistinct(server.bank, server.state, r, i, q, j);
  }

  // From the question files to any point of the service: the objects are in the state that the
  // transition system reaches by the same actions.
  method ServeFrom(heap: Heap, files: seq<Text>, wnum: nat, rnum: nat, actions: seq<Action>)
    returns (server: ServerFsm)
    requires LoadFiles(files) != [] && ScheduleFromStart(LoadFiles(files), wnum, rnum, actions)
    modifies heap
    ensures server.Valid() && server.bank == LoadFiles(files)
    ensures server.state == Reached(server.bank, wnum, rnum, actions)
  {
    hide Inv;
    LoadedAreWritable(files);
    var last, ring := UnitDequeInit(heap, files);
    StartIsGood(LoadFiles(files), wnum, rnum);
    server := new ServerFsm(last, ring, LoadFiles(files), wnum, rnum);
    server.Serve(actions);
  }
}
