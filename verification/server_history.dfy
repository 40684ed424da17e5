/**
 How the states of one run of the server relate: what is over stays over, what was passed on is
 never changed, and every room goes through a run of its own.
 */
module ServerHistory {
  import opened Wrappers
  import opened UnitText
  import opened Protocol
  import opened MessageQueue
  import opened Totals
  import opened Server
  import opened ServerInvariant
  import Worker
  import RoomSpec
  import RoomInvariant
  import RoomTheorems

  /** Everything that is on a seat, or was on one until its room closed it. */
  function SeatedOrClosed(s: State): multiset<Conn>
  {
    Total(RoomConns, s.rooms) + s.closed
  }

  /** What never shrinks or changes from s to t. */
  ghost predicate Grows(s: State, t: State)
  {
    && s.accepted <= t.accepted
    && s.closed <= t.closed
    && s.abandoned <= t.abandoned
    && SeatedOrClosed(s) <= SeatedOrClosed(t)
    && s.sent <= t.sent
    && s.received <= t.received
    && forall c :: c in s.requests ==> c in t.requests && t.requests[c] == s.requests[c]
  }

  lemma WorkerGrows(bank: seq<UnitValue>, s: State, w: nat, queueOk: bool, packet: Option<Worker.RequestPacket>)
    requires bank != [] && Inv(bank, s) && Enabled(s, WorkerAct(w, queueOk, packet))
    ensures Grows(s, WorkerApply(s, w, queueOk, packet))
  {
    hide RoomInvariant.Inv;
    hide Total;
    hide Select;
    hide MustDeliver;
    hide Conserved;
    hide Fifo;
    hide SeatsRemembered;
    WhatReceiversGet(s.queue);
    assert s.workers[w] in s.workers && HandKnown(s.workers[w], s.requests, s.accepted);
  }

  // What a room's pass does to the books, part by part.
  lemma RoomParts(bank: seq<UnitValue>, s: State, r: nat, queueOk: bool, input: RoomSpec.Input)
    requires bank != [] && Inv(bank, s) && Enabled(s, RoomAct(r, queueOk, input))
    requires RoomSpec.Bounded(s.rooms[r]) && RoomSpec.ValidInput(input.(message := Delivered(s, r, queueOk)))
    ensures var t, room := RoomApply(bank, s, r, queueOk, input), s.rooms[r];
            var next := RoomSpec.RoomStep(bank, room, input.(message := Delivered(s, r, queueOk)));
            && t.rooms == s.rooms[r := next] && t.workers == s.workers
            && t.closed == s.closed + (if RoomSpec.Closes(room) then RoomConns(room) else multiset{})
            && t.accepted == s.accepted && t.abandoned == s.abandoned && t.sent == s.sent && s.received <= t.received
            && t.packets == s.packets && t.requests == s.requests
            && (forall m :: m in t.queue ==> m in s.queue)
  {
    hide RoomInvariant.Inv;
    hide RoomSpec.RoomStep;
    hide RoomSpec.ValidInput;
    hide Conserved;
    hide Fifo;
    hide MustDeliver;
    hide SeatsRemembered;
    hide RoomConns;
  }

  lemma RoomGrows(bank: seq<UnitValue>, s: State, r: nat, queueOk: bool, input: RoomSpec.Input)
    requires bank != [] && Inv(bank, s) && Enabled(s, RoomAct(r, queueOk, input))
    requires RoomSpec.Bounded(s.rooms[r])
    ensures Grows(s, RoomApply(bank, s, r, queueOk, input))
  {
    hide RoomInvariant.Inv;
    hide RoomSpec.RoomStep;
    hide SeatsRemembered;
    hide Conserved;
    hide Fifo;
    hide Total;
    hide RoomConns;
    hide RoomApply;
    hide Select;
    DeliveredIsValid(bank, s, r, queueOk, input);
    RoomParts(bank, s, r, queueOk, input);
    var room := s.rooms[r];
    var full := input.(message := Delivered(s, r, queueOk));
    RoomMovesConns(bank, room, full);
    var next := RoomSpec.RoomStep(bank, room, full);
    TotalUpdate(RoomConns, s.rooms, r, next);
    var left := if RoomSpec.Closes(room) then RoomConns(room) else multiset{};
    var t := RoomApply(bank, s, r, queueOk, input);
    forall c ensures SeatedOrClosed(s)[c] <= SeatedOrClosed(t)[c] {
      assert (Total(RoomConns, t.rooms) + RoomConns(room))[c] == (Total(RoomConns, s.rooms) + RoomConns(next))[c];
      assert (RoomConns(next) + left)[c] >= RoomConns(room)[c];
    }
  }

  lemma StepGrows(bank: seq<UnitValue>, s: State, a: Action)
    requires bank != [] && Inv(bank, s)
    ensures Grows(s, Apply(bank, s, a))
  {
    hide Inv;
    hide Total;
    if Enabled(s, a) {
      match a {
        case Accept(queueOk) =>
        case WorkerAct(w, queueOk, packet) => WorkerGrows(bank, s, w, queueOk, packet);
        case RoomAct(r, queueOk, input) =>
          DeliveredIsValid(bank, s, r, queueOk, input);
          RoomGrows(bank, s, r, queueOk, input);
      }
    }
  }

  lemma {:induction false} RunGrows(bank: seq<UnitValue>, s: State, actions: seq<Action>)
    requires bank != [] && Inv(bank, s)
    ensures Grows(s, Run(bank, s, actions))
    decreases |actions|
  {
    hide Inv;
    hide Apply;
    hide SeatedOrClosed;
    if actions != [] {
      StepKeeps(bank, s, actions[0]);
      StepGrows(bank, s, actions[0]);
      RunGrows(bank, Apply(bank, s, actions[0]), actions[1..]);
    }
  }

  lemma {:induction false} RunSplits(bank: seq<UnitValue>, s: State, actions: seq<Action>, k: nat)
    requires bank != [] && Inv(bank, s) && k <= |actions|
    ensures Run(bank, s, actions) == Run(bank, Run(bank, s, actions[..k]), actions[k..])
    decreases |actions|
  {
    hide Inv;
    hide Apply;
    if k > 0 {
      StepKeeps(bank, s, actions[0]);
      RunSplits(bank, Apply(bank, s, actions[0]), actions[1..], k - 1);
      assert actions[..k][1..] == actions[1..][..k - 1];
      assert actions[1..][k - 1..] == actions[k..];
    } else {
      assert actions[..0] == [] && actions[0..] == actions;
    }
  }

  // Along every run: what is closed or abandoned, sent and received only grows, and nobody's request
  // is ever replaced.
  lemma HistoryGrows(bank: seq<UnitValue>, workers: nat, rooms: nat, actions: seq<Action>, k: nat)
    requires bank != [] && k <= |actions|
    ensures Grows(Reached(bank, workers, rooms, actions[..k]), Reached(bank, workers, rooms, actions))
  {
    hide Inv;
    hide Grows;
    StartIsGood(bank, workers, rooms);
    RunSplits(bank, Start(bank, workers, rooms), actions, k);
    RunGrows(bank, Reached(bank, workers, rooms, actions[..k]), actions[k..]);
  }

  /** No message and no hand holds the connection. */
  ghost predicate NotOnTheWay(s: State, c: Conn)
  {
    && (forall m :: m in s.queue ==> c !in MessageConns(m))
    && (forall w :: w in s.workers ==> c !in HandConns(w))
  }

  /** Nor does any seat. */
  ghost predicate Gone(s: State, c: Conn)
  {
    NotOnTheWay(s, c) && forall room, i: nat :: room in s.rooms && i < |room.seats| ==> room.seats[i].socket != c
  }

  // What the account of places says, place by place.
  lemma ArrivedOrGone(s: State, c: Conn)
    requires Conserved(s) && Total(RoomConns, s.rooms)[c] + s.closed[c] + s.abandoned[c] >= 1
    ensures NotOnTheWay(s, c)
  {
    hide Total;
    AcceptedOnce(s.accepted, c);
    assert Places(s)[c] <= 1;
    forall m | m in s.queue ensures c !in MessageConns(m) {
      var i: nat :| i < |s.queue| && s.queue[i] == m;
      if c in MessageConns(m) {
        OneOf(MessageConns, s.queue, i, c);
        assert false;
      }
    }
    forall w | w in s.workers ensures c !in HandConns(w) {
      var i: nat :| i < |s.workers| && s.workers[i] == w;
      if c in HandConns(w) {
        OneOf(HandConns, s.workers, i, c);
        assert false;
      }
    }
  }

  lemma SeatIsCounted(s: State, r: nat, i: nat)
    requires r < |s.rooms| && i < |s.rooms[r].seats|
    ensures Total(RoomConns, s.rooms)[s.rooms[r].seats[i].socket] >= 1
  {
    var c := s.rooms[r].seats[i].socket;
    OneOf(PlayerConns, s.rooms[r].seats, i, c);
    OneOf(RoomConns, s.rooms, r, c);
  }

  lemma NowhereElse(s: State, c: Conn)
    requires Conserved(s) && (c in s.closed || c in s.abandoned)
    ensures Gone(s, c)
  {
    hide Total;
    ArrivedOrGone(s, c);
    AcceptedOnce(s.accepted, c);
    assert Places(s)[c] <= 1;
    forall room, i: nat | room in s.rooms && i < |room.seats| ensures room.seats[i].socket != c {
      var r: nat :| r < |s.rooms| && s.rooms[r] == room;
      if room.seats[i].socket == c {
        SeatIsCounted(s, r, i);
        assert false;
      }
    }
  }

  // A connection that was closed or abandoned at some point of a run is never again queued, held or
  // seated.
  lemma GoneForGood(bank: seq<UnitValue>, workers: nat, rooms: nat, actions: seq<Action>, k: nat, c: Conn)
    requires bank != [] && k <= |actions|
    requires var early := Reached(bank, workers, rooms, actions[..k]); c in early.closed || c in early.abandoned
    ensures Gone(Reached(bank, workers, rooms, actions), c)
  {
    hide RoomInvariant.Inv;
    hide SeatedOrClosed;
    HistoryGrows(bank, workers, rooms, actions, k);
    NowhereElse(Reached(bank, workers, rooms, actions), c);
  }

  // A player who was seated at some point of a run is on a seat or closed ever after: never back in
  // the queue or with a worker, and never abandoned.
  lemma SeatedUntilClosed(bank: seq<UnitValue>, workers: nat, rooms: nat, actions: seq<Action>, k: nat, r: nat, i: nat)
    requires bank != [] && k <= |actions|
    requires r < |Reached(bank, workers, rooms, actions[..k]).rooms|
    requires i < |Reached(bank, workers, rooms, actions[..k]).rooms[r].seats|
    ensures var c := Reached(bank, workers, rooms, actions[..k]).rooms[r].seats[i].socket;
            var s := Reached(bank, workers, rooms, actions);
            && Total(RoomConns, s.rooms)[c] + s.closed[c] == 1
            && NotOnTheWay(s, c)
            && c !in s.abandoned
  {
    hide RoomInvariant.Inv;
    hide Total;
    hide PlayerConns;
    var early, s := Reached(bank, workers, rooms, actions[..k]), Reached(bank, workers, rooms, actions);
    var c := early.rooms[r].seats[i].socket;
    HistoryGrows(bank, workers, rooms, actions, k);
    SeatIsCounted(early, r, i);
    AcceptedOnce(s.accepted, c);
    assert Places(s)[c] == Accepted(s.accepted)[c];
    assert SeatedOrClosed(s)[c] >= SeatedOrClosed(early)[c] >= 1;
    ArrivedOrGone(s, c);
  }

  // ----- rooms -----

  /** The room is where passes of its own, with some inputs, have brought it. */
  ghost predicate HasRun(bank: seq<UnitValue>, room: RoomSpec.Room)
    requires bank != []
  {
    exists inputs :: RoomTheorems.RunsTo(bank, inputs, room)
  }

  ghost predicate RoomsRun(bank: seq<UnitValue>, s: State)
    requires bank != []
  {
    forall room :: room in s.rooms ==> HasRun(bank, room)
  }

  lemma StepHasRun(bank: seq<UnitValue>, room: RoomSpec.Room, input: RoomSpec.Input)
    requires bank != [] && HasRun(bank, room) && RoomSpec.ValidInput(input) && RoomSpec.Bounded(room)
    ensures HasRun(bank, RoomSpec.RoomStep(bank, room, input))
  {
    var inputs :| RoomTheorems.RunsTo(bank, inputs, room);
    RoomTheorems.ReachedSnoc(bank, inputs, input);
  }

  lemma StepRunsRooms(bank: seq<UnitValue>, s: State, a: Action)
    requires bank != [] && Inv(bank, s) && RoomsRun(bank, s)
    ensures RoomsRun(bank, Apply(bank, s, a))
  {
    hide RoomInvariant.Inv;
    hide RoomSpec.RoomStep;
    hide Conserved;
    hide Fifo;
    hide MustDeliver;
    hide SeatsRemembered;
    hide HasRun;
    if Enabled(s, a) && a.RoomAct? {
      DeliveredIsValid(bank, s, a.r, a.queueOk, a.input);
      var input := a.input.(message := Delivered(s, a.r, a.queueOk));
      assert s.rooms[a.r] in s.rooms;
      StepHasRun(bank, s.rooms[a.r], input);
      var t := RoomApply(bank, s, a.r, a.queueOk, a.input);
      assert t.rooms == s.rooms[a.r := RoomSpec.RoomStep(bank, s.rooms[a.r], input)];
    } else {
      assert Apply(bank, s, a).rooms == s.rooms;
    }
  }

  lemma {:induction false} RunRunsRooms(bank: seq<UnitValue>, s: State, actions: seq<Action>)
    requires bank != [] && Inv(bank, s) && RoomsRun(bank, s)
    ensures RoomsRun(bank, Run(bank, s, actions))
    decreases |actions|
  {
    hide Inv;
    hide Apply;
    hide RoomsRun;
    if actions != [] {
      StepKeeps(bank, s, actions[0]);
      StepRunsRooms(bank, s, actions[0]);
      RunRunsRooms(bank, Apply(bank, s, actions[0]), actions[1..]);
    }
  }

  // Every room of a reached server was brought there by a run of its own, so all that is proved of
  // the runs of a single room holds of it, whatever the other threads did in between.
  lemma RoomsAreReached(bank: seq<UnitValue>, workers: nat, rooms: nat, actions: seq<Action>, r: nat)
    returns (inputs: seq<RoomSpec.Input>)
    requires bank != [] && r < |Reached(bank, workers, rooms, actions).rooms|
    ensures RoomTheorems.AllValid(inputs)
    ensures RoomTheorems.Reached(bank, inputs) == Reached(bank, workers, rooms, actions).rooms[r]
  {
    hide RoomInvariant.Inv;
    StartIsGood(bank, workers, rooms);
    RoomInvariant.StartIsGood(bank);
    var s := Start(bank, workers, rooms);
    assert RoomTheorems.RunsTo(bank, [], RoomSpec.Start(bank));
    assert HasRun(bank, RoomSpec.Start(bank));
    RunRunsRooms(bank, s, actions);
    var room := Reached(bank, workers, rooms, actions).rooms[r];
    assert HasRun(bank, room);
    inputs :| RoomTheorems.RunsTo(bank, inputs, room);
  }
}
