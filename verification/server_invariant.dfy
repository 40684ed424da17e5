/**
 Every step of the server keeps its invariant, for any number of workers and rooms and in any
 interleaving; and what follows for every state that can be reached.
 */
module ServerInvariant {
  import opened Wrappers
  import opened UnitText
  import opened Protocol
  import opened MessageQueue
  import opened Totals
  import opened Server
  import Worker
  import RoomSpec
  import RoomInvariant

  lemma {:induction false} EmptyTotal<T, K>(f: T -> multiset<K>, s: seq<T>)
    requires forall i :: 0 <= i < |s| ==> f(s[i]) == multiset{}
    ensures Total(f, s) == multiset{}
  {
    if s != [] {
      EmptyTotal(f, s[..|s| - 1]);
    }
  }

  lemma StartIsGood(bank: seq<UnitValue>, workers: nat, rooms: nat)
    requires bank != []
    ensures Inv(bank, Start(bank, workers, rooms))
  {
    var s := Start(bank, workers, rooms);
    EmptyTotal(HandConns, s.workers);
    forall r | 0 <= r < |s.rooms| ensures RoomConns(s.rooms[r]) == multiset{} {
      assert s.rooms[r].seats == [];
    }
    EmptyTotal(RoomConns, s.rooms);
    RoomInvariant.StartIsGood(bank);
  }

  // ----- the acceptor -----

  lemma AcceptRemembers(s: State, queueOk: bool)
    requires Remembered(s)
    ensures Remembered(AcceptApply(s, queueOk))
  {
    hide SeatsRemembered;
    hide Worker.ClientRequest;
    var t := AcceptApply(s, queueOk);
    forall m | m in t.queue ensures MessageKnown(m, t.requests, t.accepted) {
      assert m in s.queue || m == Connection(s.accepted);
    }
  }

  lemma AcceptConserves(s: State, queueOk: bool)
    requires Conserved(s)
    ensures Conserved(AcceptApply(s, queueOk))
  {
    hide Total;
    TotalAppend(MessageConns, s.queue, Connection(s.accepted));
    var t := AcceptApply(s, queueOk);
    assert Places(t) == Places(s) + multiset{s.accepted};
  }

  lemma AcceptKeeps(bank: seq<UnitValue>, s: State, queueOk: bool)
    requires bank != [] && Inv(bank, s)
    ensures Inv(bank, AcceptApply(s, queueOk))
  {
    hide RoomInvariant.Inv;
    hide Fifo;
    hide Remembered;
    hide Total;
    hide Conserved;
    AcceptRemembers(s, queueOk);
    AcceptConserves(s, queueOk);
    SendKeepsFifo(s.sent, s.received, s.queue, Connection(s.accepted));
  }

  // ----- workers -----

  lemma OneOf<T, K>(f: T -> multiset<K>, s: seq<T>, i: nat, k: K)
    requires i < |s| && k in f(s[i])
    ensures Total(f, s)[k] >= 1
  {
    TotalOfOne(f, s, i);
  }

  // A connection in a worker's hand is in no other hand.
  lemma HeldOnce(s: State, w: nat, v: nat)
    requires Conserved(s) && w < |s.workers| && v < |s.workers| && v != w
    requires Worker.Holds(s.workers[w]) && Worker.Holds(s.workers[v])
    ensures s.workers[v].socket != s.workers[w].socket
  {
    var c := s.workers[w].socket;
    AcceptedOnce(s.accepted, c);
    assert Places(s)[c] <= 1;
    if s.workers[v].socket == c {
      TotalOfTwo(HandConns, s.workers, v, w, c);
      assert false;
    }
  }

  // Nor is it on its way to another worker.
  lemma HeldIsNotQueued(s: State, w: nat, m: Message)
    requires Conserved(s) && w < |s.workers| && Worker.Holds(s.workers[w]) && m in s.queue
    ensures m != Connection(s.workers[w].socket)
  {
    var c := s.workers[w].socket;
    AcceptedOnce(s.accepted, c);
    assert Places(s)[c] <= 1;
    if m == Connection(c) {
      var i: nat :| i < |s.queue| && s.queue[i] == m;
      OneOf(MessageConns, s.queue, i, c);
      OneOf(HandConns, s.workers, w, c);
      assert false;
    }
  }

  /** What came into each kind of place and what left it, in one step. */
  datatype Moves = Moves(
    queueIn: multiset<Conn>, queueOut: multiset<Conn>,
    handIn: multiset<Conn>, handOut: multiset<Conn>,
    seatIn: multiset<Conn>, seatOut: multiset<Conn>)

  // When what left some places is what came into others, everything stays accounted for.
  lemma SamePlaces(s: State, t: State, m: Moves)
    requires Total(MessageConns, t.queue) + m.queueOut == Total(MessageConns, s.queue) + m.queueIn
    requires Total(HandConns, t.workers) + m.handOut == Total(HandConns, s.workers) + m.handIn
    requires Total(RoomConns, t.rooms) + m.seatOut == Total(RoomConns, s.rooms) + m.seatIn
    requires m.queueIn + m.handIn + m.seatIn + t.closed + t.abandoned
          == m.queueOut + m.handOut + m.seatOut + s.closed + s.abandoned
    ensures Places(t) == Places(s)
  {
    hide Total;
    forall c ensures Places(t)[c] == Places(s)[c] {
      assert (Total(MessageConns, t.queue) + m.queueOut)[c] == (Total(MessageConns, s.queue) + m.queueIn)[c];
      assert (Total(HandConns, t.workers) + m.handOut)[c] == (Total(HandConns, s.workers) + m.handIn)[c];
      assert (Total(RoomConns, t.rooms) + m.seatOut)[c] == (Total(RoomConns, s.rooms) + m.seatIn)[c];
      assert (m.queueIn + m.handIn + m.seatIn + t.closed + t.abandoned)[c]
          == (m.queueOut + m.handOut + m.seatOut + s.closed + s.abandoned)[c];
    }
  }

  lemma TakeConserves(bank: seq<UnitValue>, s: State, w: nat, packet: Option<Worker.RequestPacket>)
    requires bank != [] && Conserved(s) && Enabled(s, WorkerAct(w, true, packet))
    requires s.workers[w].phase == Worker.Wait
    ensures Conserved(WorkerApply(s, w, true, packet))
  {
    hide Total;
    hide MustDeliver;
    WhatReceiversGet(s.queue);
    var i := Select(s.queue, MSG_WRK).value;
    TotalRemove(MessageConns, s.queue, i);
    TotalUpdate(HandConns, s.workers, w, Worker.WorkerStep(s.workers[w], Worker.Input(Some(s.queue[i].socket), None)));
    var c := multiset{s.queue[i].socket};
    SamePlaces(s, WorkerApply(s, w, true, packet), Moves(multiset{}, c, c, multiset{}, multiset{}, multiset{}));
  }

  lemma TakeRemembers(s: State, w: nat, packet: Option<Worker.RequestPacket>)
    requires Remembered(s) && Enabled(s, WorkerAct(w, true, packet))
    requires s.workers[w].phase == Worker.Wait
    ensures Remembered(WorkerApply(s, w, true, packet))
  {
    hide SeatsRemembered;
    hide MustDeliver;
    WhatReceiversGet(s.queue);
    var m := s.queue[Select(s.queue, MSG_WRK).value];
    assert m in s.queue && MessageKnown(m, s.requests, s.accepted);
    var t := WorkerApply(s, w, true, packet);
    assert forall m :: m in t.queue ==> m in s.queue;
    assert forall v :: v in t.workers ==> v in s.workers || v == t.workers[w];
  }

  lemma WorkerTakes(bank: seq<UnitValue>, s: State, w: nat, packet: Option<Worker.RequestPacket>)
    requires bank != [] && Inv(bank, s) && Enabled(s, WorkerAct(w, true, packet))
    requires s.workers[w].phase == Worker.Wait
    ensures Inv(bank, WorkerApply(s, w, true, packet))
  {
    hide RoomInvariant.Inv;
    hide Fifo;
    hide Conserved;
    hide Remembered;
    hide MustDeliver;
    TakeConserves(bank, s, w, packet);
    TakeRemembers(s, w, packet);
    ReceiveKeepsFifo(s.sent, s.received, s.queue, MSG_WRK, Select(s.queue, MSG_WRK).value);
  }

  // A request that is new to the books disturbs nobody else's.
  lemma ForwardRemembers(s: State, w: nat, queueOk: bool, packet: Option<Worker.RequestPacket>)
    requires Conserved(s) && Remembered(s) && Enabled(s, WorkerAct(w, queueOk, packet))
    requires Forwards(s.workers[w], queueOk)
    ensures Remembered(WorkerApply(s, w, queueOk, packet))
  {
    hide Conserved;
    hide Select;
    var worker := s.workers[w];
    assert worker in s.workers && HandKnown(worker, s.requests, s.accepted);
    var m := Worker.Forward(worker).value;
    var next := Worker.WorkerStep(worker, Worker.Input(None, packet));
    var t := WorkerApply(s, w, queueOk, packet);
    assert t.requests == s.requests[worker.socket := m.info] && t.queue == s.queue + [m];
    forall k | k in t.queue ensures MessageKnown(k, t.requests, t.accepted) {
      if k in s.queue {
        assert MessageKnown(k, s.requests, s.accepted);
        HeldIsNotQueued(s, w, k);
      }
    }
    forall v | v in t.workers ensures HandKnown(v, t.requests, t.accepted) {
      var k: nat :| k < |t.workers| && t.workers[k] == v;
      if k != w {
        assert v == s.workers[k] && v in s.workers;
        if Worker.Holds(v) {
          HeldOnce(s, w, k);
        }
      }
    }
    forall room | room in t.rooms ensures SeatsRemembered(room, t.requests) {
      assert SeatsRemembered(room, s.requests);
    }
  }

  lemma WorkerForwards(bank: seq<UnitValue>, s: State, w: nat, queueOk: bool, packet: Option<Worker.RequestPacket>)
    requires bank != [] && Inv(bank, s) && Enabled(s, WorkerAct(w, queueOk, packet))
    requires Forwards(s.workers[w], queueOk)
    ensures Inv(bank, WorkerApply(s, w, queueOk, packet))
  {
    hide RoomInvariant.Inv;
    hide Remembered;
    hide Fifo;
    hide Total;
    var worker := s.workers[w];
    var m := Worker.Forward(worker).value;
    ForwardRemembers(s, w, queueOk, packet);
    SendKeepsFifo(s.sent, s.received, s.queue, m);
    TotalAppend(MessageConns, s.queue, m);
    TotalUpdate(HandConns, s.workers, w, Worker.WorkerStep(worker, Worker.Input(None, packet)));
    var c := multiset{worker.socket};
    SamePlaces(s, WorkerApply(s, w, queueOk, packet), Moves(c, multiset{}, multiset{}, c, multiset{}, multiset{}));
  }

  lemma GoingOnRemembers(s: State, w: nat, queueOk: bool, packet: Option<Worker.RequestPacket>)
    requires Remembered(s) && Enabled(s, WorkerAct(w, queueOk, packet))
    requires !(s.workers[w].phase == Worker.Wait && queueOk)
    requires !Forwards(s.workers[w], queueOk)
    ensures Remembered(WorkerApply(s, w, queueOk, packet))
  {
    hide SeatsRemembered;
    hide MessageKnown;
    assert s.workers[w] in s.workers && HandKnown(s.workers[w], s.requests, s.accepted);
    var t := WorkerApply(s, w, queueOk, packet);
    assert forall v :: v in t.workers ==> v in s.workers || v == t.workers[w];
  }

  lemma GoingOnConserves(s: State, w: nat, queueOk: bool, packet: Option<Worker.RequestPacket>)
    requires Conserved(s) && Enabled(s, WorkerAct(w, queueOk, packet))
    requires !(s.workers[w].phase == Worker.Wait && queueOk)
    requires !Forwards(s.workers[w], queueOk)
    ensures Conserved(WorkerApply(s, w, queueOk, packet))
  {
    hide Total;
    hide Select;
    hide Places;
    var worker, t := s.workers[w], WorkerApply(s, w, queueOk, packet);
    TotalUpdate(HandConns, s.workers, w, t.workers[w]);
    SamePlaces(s, t, Moves(multiset{}, multiset{}, HandConns(t.workers[w]), HandConns(worker), multiset{}, multiset{}));
  }

  lemma WorkerGoesOn(bank: seq<UnitValue>, s: State, w: nat, queueOk: bool, packet: Option<Worker.RequestPacket>)
    requires bank != [] && Inv(bank, s) && Enabled(s, WorkerAct(w, queueOk, packet))
    requires !(s.workers[w].phase == Worker.Wait && queueOk)
    requires !Forwards(s.workers[w], queueOk)
    ensures Inv(bank, WorkerApply(s, w, queueOk, packet))
  {
    hide RoomInvariant.Inv;
    hide Fifo;
    hide Remembered;
    hide Conserved;
    hide Select;
    GoingOnRemembers(s, w, queueOk, packet);
    GoingOnConserves(s, w, queueOk, packet);
  }

  // ----- rooms -----

  // Who sits in a room after a pass.
  lemma SeatsAfter(bank: seq<UnitValue>, room: RoomSpec.Room, input: RoomSpec.Input)
    requires bank != [] && RoomSpec.ValidInput(input) && RoomSpec.Bounded(room)
    ensures var next := RoomSpec.RoomStep(bank, room, input);
            match room.phase {
              case Init => (input.message == None && next.seats == [])
                        || (input.message.Some? && next.seats == [input.message.value.player]
                            && next.size == input.message.value.roomSize)
              case Wait => next.size == room.size
                        && next.seats == room.seats + if input.message == None then [] else [input.message.value.player]
              case GameOver => next.seats == []
              case Fin => next.seats == []
              case _ => next.seats == room.seats && next.size == room.size
            }
  {
  }

  // Seating moves one connection into the room, a close moves all of them out.
  lemma RoomMovesConns(bank: seq<UnitValue>, room: RoomSpec.Room, input: RoomSpec.Input)
    requires bank != [] && RoomSpec.ValidInput(input) && RoomInvariant.Inv(|bank|, room)
    requires input.message.Some? ==> RoomSpec.Receives(room)
    ensures var next := RoomSpec.RoomStep(bank, room, input);
            var left := if RoomSpec.Closes(room) then RoomConns(room) else multiset{};
            var came := if input.message.Some? then multiset{input.message.value.player.socket} else multiset{};
            RoomConns(next) + left == RoomConns(room) + came
  {
    hide RoomSpec.RoomStep;
    hide RoomInvariant.SeatsAgree;
    hide Total;
    SeatsAfter(bank, room, input);
    EmptyTotal<Player, Conn>(PlayerConns, []);
    if input.message.Some? {
      TotalAppend(PlayerConns, room.seats, input.message.value.player);
      assert room.phase == RoomSpec.Init ==> room.seats + [input.message.value.player] == [input.message.value.player];
    }
    assert room.seats + [] == room.seats;
  }

  // The room's pass, with what its msgrcv delivers put in.
  lemma DeliveredIsValid(bank: seq<UnitValue>, s: State, r: nat, queueOk: bool, input: RoomSpec.Input)
    requires bank != [] && Inv(bank, s) && Enabled(s, RoomAct(r, queueOk, input))
    ensures RoomSpec.Bounded(s.rooms[r]) && RoomInvariant.Inv(|bank|, s.rooms[r])
    ensures SeatsRemembered(s.rooms[r], s.requests)
    ensures RoomSpec.ValidInput(input.(message := Delivered(s, r, queueOk)))
    ensures Delivered(s, r, queueOk).Some? ==>
              var i := Select(s.queue, RoomSpec.Selector(s.rooms[r])).value;
              && s.queue[i] == Request(Delivered(s, r, queueOk).value)
              && MustDeliver(s.queue, RoomSpec.Selector(s.rooms[r]), i)
              && MessageKnown(s.queue[i], s.requests, s.accepted)
              && (s.rooms[r].phase == RoomSpec.Wait ==> !s.queue[i].info.create)
  {
    hide RoomInvariant.SeatsAgree;
    hide MustDeliver;
    assert s.rooms[r] in s.rooms;
    WhatReceiversGet(s.queue);
    if Delivered(s, r, queueOk).Some? {
      assert s.queue[Select(s.queue, RoomSpec.Selector(s.rooms[r])).value] in s.queue;
    }
  }

  lemma Balance<K>(after: multiset<K>, left: multiset<K>, before: multiset<K>, came: multiset<K>,
                   closed: multiset<K>, abandoned: multiset<K>)
    requires after + left == before + came
    ensures multiset{} + multiset{} + after + (closed + left) + abandoned
         == came + multiset{} + before + closed + abandoned
  {
    var a := multiset{} + multiset{} + after + (closed + left) + abandoned;
    var b := came + multiset{} + before + closed + abandoned;
    forall k ensures a[k] == b[k] {
      assert (after + left)[k] == (before + came)[k];
    }
  }

  lemma RoomConserves(bank: seq<UnitValue>, s: State, r: nat, queueOk: bool, input: RoomSpec.Input)
    requires bank != [] && Inv(bank, s) && Enabled(s, RoomAct(r, queueOk, input))
    requires RoomSpec.Bounded(s.rooms[r])
    ensures Conserved(RoomApply(bank, s, r, queueOk, input))
    ensures var t := RoomApply(bank, s, r, queueOk, input); Fifo(t.sent, t.received, t.queue)
  {
    hide RoomInvariant.Inv;
    hide RoomSpec.RoomStep;
    hide Fifo;
    hide MustDeliver;
    hide SeatsRemembered;
    hide Total;
    hide RoomConns;
    DeliveredIsValid(bank, s, r, queueOk, input);
    var room := s.rooms[r];
    var message := Delivered(s, r, queueOk);
    var next := RoomSpec.RoomStep(bank, room, input.(message := message));
    RoomMovesConns(bank, room, input.(message := message));
    TotalUpdate(RoomConns, s.rooms, r, next);
    var t := RoomApply(bank, s, r, queueOk, input);
    var came := if message.Some? then multiset{message.value.player.socket} else multiset{};
    if message.Some? {
      var i := Select(s.queue, RoomSpec.Selector(room)).value;
      TotalRemove(MessageConns, s.queue, i);
      ReceiveKeepsFifo(s.sent, s.received, s.queue, RoomSpec.Selector(room), i);
    }
    var left := if RoomSpec.Closes(room) then RoomConns(room) else multiset{};
    assert t.closed == s.closed + left;
    Balance(RoomConns(next), left, RoomConns(room), came, s.closed, s.abandoned);
    SamePlaces(s, t, Moves(multiset{}, came, multiset{}, multiset{}, RoomConns(next), RoomConns(room)));
  }

  // Seating keeps the books: the opener's size is the room's, later seats are joiners'.
  lemma SeatingRemembers(bank: seq<UnitValue>, room: RoomSpec.Room, input: RoomSpec.Input,
                         requests: map<Conn, JoinInfo>)
    requires bank != [] && RoomSpec.ValidInput(input) && RoomInvariant.Inv(|bank|, room)
    requires SeatsRemembered(room, requests)
    requires input.message.Some? ==>
               var info := input.message.value;
               && info.player.socket in requests && requests[info.player.socket] == info
               && (room.phase == RoomSpec.Wait ==> !info.create)
    ensures SeatsRemembered(RoomSpec.RoomStep(bank, room, input), requests)
  {
    hide RoomSpec.RoomStep;
    hide RoomInvariant.SeatsAgree;
    SeatsAfter(bank, room, input);
  }

  lemma RoomRemembers(bank: seq<UnitValue>, s: State, r: nat, queueOk: bool, input: RoomSpec.Input)
    requires bank != [] && Inv(bank, s) && Enabled(s, RoomAct(r, queueOk, input))
    requires RoomSpec.Bounded(s.rooms[r])
    ensures Remembered(RoomApply(bank, s, r, queueOk, input))
  {
    hide RoomInvariant.Inv;
    hide RoomSpec.RoomStep;
    hide SeatsRemembered;
    hide Conserved;
    hide Fifo;
    hide MustDeliver;
    DeliveredIsValid(bank, s, r, queueOk, input);
    var t := RoomApply(bank, s, r, queueOk, input);
    SeatingRemembers(bank, s.rooms[r], input.(message := Delivered(s, r, queueOk)), s.requests);
    assert forall m :: m in t.queue ==> m in s.queue;
    assert forall room :: room in t.rooms ==> room in s.rooms || room == t.rooms[r];
  }

  lemma RoomKeeps(bank: seq<UnitValue>, s: State, r: nat, queueOk: bool, input: RoomSpec.Input)
    requires bank != [] && Inv(bank, s) && Enabled(s, RoomAct(r, queueOk, input))
    requires RoomSpec.Bounded(s.rooms[r])
    ensures Inv(bank, RoomApply(bank, s, r, queueOk, input))
  {
    hide RoomInvariant.Inv;
    hide RoomSpec.RoomStep;
    hide SeatsRemembered;
    hide Conserved;
    hide Fifo;
    hide MustDeliver;
    DeliveredIsValid(bank, s, r, queueOk, input);
    RoomConserves(bank, s, r, queueOk, input);
    RoomRemembers(bank, s, r, queueOk, input);
    RoomInvariant.StepKeeps(bank, s.rooms[r], input.(message := Delivered(s, r, queueOk)));
    var t := RoomApply(bank, s, r, queueOk, input);
    assert forall room :: room in t.rooms ==> room in s.rooms || room == t.rooms[r];
  }

  // ----- all steps, all runs -----

  lemma StepKeeps(bank: seq<UnitValue>, s: State, a: Action)
    requires bank != [] && Inv(bank, s)
    ensures Inv(bank, Apply(bank, s, a))
  {
    hide Inv;
    if Enabled(s, a) {
      match a {
        case Accept(queueOk) => AcceptKeeps(bank, s, queueOk);
        case WorkerAct(w, queueOk, packet) =>
          if s.workers[w].phase == Worker.Wait && queueOk {
            WorkerTakes(bank, s, w, packet);
          } else if Forwards(s.workers[w], queueOk) {
            WorkerForwards(bank, s, w, queueOk, packet);
          } else {
            WorkerGoesOn(bank, s, w, queueOk, packet);
          }
        case RoomAct(r, queueOk, input) =>
          DeliveredIsValid(bank, s, r, queueOk, input);
          RoomKeeps(bank, s, r, queueOk, input);
      }
    }
  }

  /** The state after the actions, taken in the given order. */
  ghost function Run(bank: seq<UnitValue>, s: State, actions: seq<Action>): (last: State)
    requires bank != [] && Inv(bank, s)
    ensures Inv(bank, last)
    decreases |actions|
  {
    if actions == [] then s
    else
      StepKeeps(bank, s, actions[0]);
      Run(bank, Apply(bank, s, actions[0]), actions[1..])
  }

  /** The state of a server with the given threads after the actions. */
  ghost function Reached(bank: seq<UnitValue>, workers: nat, rooms: nat, actions: seq<Action>): (s: State)
    requires bank != []
    ensures Inv(bank, s)
  {
    StartIsGood(bank, workers, rooms);
    Run(bank, Start(bank, workers, rooms), actions)
  }

  // A thread is held up by nothing but the queue: a worker in WAIT while no connection is queued, a
  // room in INIT while no request is, a room in WAIT while no join is.
  lemma ThreadsBlockIff(s: State, a: Action)
    ensures Enabled(s, a) <==>
              match a {
                case Accept(_) => true
                case WorkerAct(w, queueOk, packet) =>
                  && w < |s.workers| && s.workers[w].phase != Worker.Fin
                  && !(queueOk && s.workers[w].phase == Worker.Wait
                       && forall i :: 0 <= i < |s.queue| ==> !s.queue[i].Connection?)
                  && (packet.Some? && packet.value.reqType in {0, 1} ==> 2 <= packet.value.roomSize <= 4)
                case RoomAct(r, queueOk, input) =>
                  && r < |s.rooms| && s.rooms[r].phase != RoomSpec.Exit
                  && !(queueOk && s.rooms[r].phase == RoomSpec.Init
                       && forall i :: 0 <= i < |s.queue| ==> !s.queue[i].Request?)
                  && !(queueOk && s.rooms[r].phase == RoomSpec.Wait
                       && forall i :: 0 <= i < |s.queue| ==> !(s.queue[i].Request? && !s.queue[i].info.create))
                  && |input.sendOk| == 4 && |input.answers| == 4 && 1 <= input.step <= 5
              }
  {
    hide MustDeliver;
    WhatReceiversGet(s.queue);
  }

  // What a room gets when it asks: in INIT a request to create a room only if nobody waits to join,
  // in WAIT only requests to join, and never a connection. It is the oldest of its kind.
  lemma RoomsTakeInOrder(s: State, r: nat, queueOk: bool, input: RoomSpec.Input)
    requires Enabled(s, RoomAct(r, queueOk, input)) && Delivered(s, r, queueOk).Some?
    ensures var info := Delivered(s, r, queueOk).value;
            && (info.create ==> s.rooms[r].phase == RoomSpec.Init)
            && (info.create ==> forall m :: m in s.queue ==> TypeOf(m) != MSG_JOIN)
            && OfType(s.queue, TypeOf(Request(info))) != []
            && OfType(s.queue, TypeOf(Request(info)))[0] == Request(info)
  {
    WhatReceiversGet(s.queue);
    var selector := RoomSpec.Selector(s.rooms[r]);
    var i := Select(s.queue, selector).value;
    var m := s.queue[i];
    TakeFromMiddle(s.queue, selector, i, TypeOf(m));
    OfTypeOne(m, TypeOf(m));
  }

  // In every reachable state each accepted connection is in exactly one place, and no other
  // connection is anywhere.
  lemma ExactlyOnePlace(bank: seq<UnitValue>, workers: nat, rooms: nat, actions: seq<Action>, c: Conn)
    requires bank != []
    ensures var s := Reached(bank, workers, rooms, actions);
            Total(MessageConns, s.queue)[c] + Total(HandConns, s.workers)[c] + Total(RoomConns, s.rooms)[c]
            + s.closed[c] + s.abandoned[c] == (if c < s.accepted then 1 else 0)
  {
    var s := Reached(bank, workers, rooms, actions);
    AcceptedOnce(s.accepted, c);
    assert Places(s)[c] == Accepted(s.accepted)[c];
  }

  lemma SeatsAreDistinct(bank: seq<UnitValue>, s: State, r: nat, i: nat, q: nat, j: nat)
    requires bank != [] && Inv(bank, s)
    requires r < |s.rooms| && i < |s.rooms[r].seats| && q < |s.rooms| && j < |s.rooms[q].seats|
    ensures s.rooms[r].seats[i].socket == s.rooms[q].seats[j].socket ==> r == q && i == j
    ensures s.rooms[r].seats[i].socket !in s.closed && s.rooms[r].seats[i].socket !in s.abandoned
  {
    hide RoomInvariant.Inv;
    var c := s.rooms[r].seats[i].socket;
    AcceptedOnce(s.accepted, c);
    assert Places(s)[c] <= 1;
    TotalOfOne(PlayerConns, s.rooms[r].seats, i);
    TotalOfOne(RoomConns, s.rooms, r);
    assert PlayerConns(s.rooms[r].seats[i])[c] == 1;
    assert Total(RoomConns, s.rooms)[c] >= 1;
    if s.rooms[q].seats[j].socket == c {
      TotalOfOne(PlayerConns, s.rooms[q].seats, j);
      assert PlayerConns(s.rooms[q].seats[j])[c] == 1;
      if r != q {
        TotalOfTwo(RoomConns, s.rooms, r, q, c);
        assert false;
      } else if i != j {
        TotalOfTwo(PlayerConns, s.rooms[r].seats, i, j, c);
        assert false;
      }
    }
  }

  // So in no reachable state does anybody sit on two seats, in one room or in two, and nobody seated
  // has been closed.
  lemma NobodySitsTwice(bank: seq<UnitValue>, workers: nat, rooms: nat, actions: seq<Action>,
                        r: nat, i: nat, q: nat, j: nat)
    requires bank != []
    requires var s := Reached(bank, workers, rooms, actions);
             r < |s.rooms| && i < |s.rooms[r].seats| && q < |s.rooms| && j < |s.rooms[q].seats|
    ensures var s := Reached(bank, workers, rooms, actions);
            && (s.rooms[r].seats[i].socket == s.rooms[q].seats[j].socket ==> r == q && i == j)
            && s.rooms[r].seats[i].socket !in s.closed && s.rooms[r].seats[i].socket !in s.abandoned
  {
    hide Inv;
    SeatsAreDistinct(bank, Reached(bank, workers, rooms, actions), r, i, q, j);
  }

  // Whoever asked to create a room sits on no seat but the first, in a room of the size they asked
  // for; every other seat holds somebody who asked to join.
  lemma CreatorsSitFirst(bank: seq<UnitValue>, workers: nat, rooms: nat, actions: seq<Action>, r: nat, i: nat)
    requires bank != []
    requires r < |Reached(bank, workers, rooms, actions).rooms|
    requires i < |Reached(bank, workers, rooms, actions).rooms[r].seats|
    ensures var s := Reached(bank, workers, rooms, actions);
            var player := s.rooms[r].seats[i];
            && player.socket in s.requests && s.requests[player.socket].player == player
            && (s.requests[player.socket].create ==> i == 0)
            && (i == 0 ==> s.rooms[r].size == s.requests[player.socket].roomSize)
  {
    hide RoomInvariant.Inv;
    var s := Reached(bank, workers, rooms, actions);
    assert SeatsRemembered(s.rooms[r], s.requests);
  }

  // Messages of each type are received in the order in which they were sent, and none is lost.
  lemma DeliveryIsFifo(bank: seq<UnitValue>, workers: nat, rooms: nat, actions: seq<Action>, mtype: int)
    requires bank != []
    ensures var s := Reached(bank, workers, rooms, actions);
            OfType(s.sent, mtype) == OfType(s.received, mtype) + OfType(s.queue, mtype)
  {
    var s := Reached(bank, workers, rooms, actions);
    assert Fifo(s.sent, s.received, s.queue);
  }
}
