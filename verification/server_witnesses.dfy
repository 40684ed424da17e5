/**
 A run of the whole server, from accepting a connection to a seat and a queue that is empty again.
 */
module ServerWitnesses {
  import opened Wrappers
  import opened CStrings
  import opened UnitText
  import opened Protocol
  import opened MessageQueue
  import opened Server
  import opened ServerInvariant
  import opened ServerHistory
  import Worker
  import RoomSpec
  import RoomInvariant

  // One more action on top of a run is a run.
  lemma ReachedSnoc(bank: seq<UnitValue>, workers: nat, rooms: nat, actions: seq<Action>, a: Action)
    requires bank != []
    ensures Reached(bank, workers, rooms, actions + [a]) == Apply(bank, Reached(bank, workers, rooms, actions), a)
  {
    hide Inv;
    hide Apply;
    StartIsGood(bank, workers, rooms);
    RunSplits(bank, Start(bank, workers, rooms), actions + [a], |actions|);
    assert (actions + [a])[..|actions|] == actions && (actions + [a])[|actions|..] == [a];
    var s := Reached(bank, workers, rooms, actions);
    StepKeeps(bank, s, a);
    assert [a][1..] == [];
    assert Run(bank, Apply(bank, s, a), []) == Apply(bank, s, a);
  }

  lemma OnlyOne(queue: seq<Message>, selector: int)
    requires |queue| == 1 && Matches(queue[0], selector)
    ensures Select(queue, selector) == Some(0)
  {
  }

  lemma OneAccepted(bank: seq<UnitValue>)
    requires bank != []
    ensures var s := Reached(bank, 1, 1, [] + [Accept(true)]);
            && s.queue == [Connection(0)] && s.sent == [Connection(0)] && s.accepted == 1 && s.packets == map[]
            && s.workers == [Worker.Start] && s.rooms == [RoomSpec.Start(bank)]
  {
    hide Inv;
    StartIsGood(bank, 1, 1);
    assert Reached(bank, 1, 1, []) == Start(bank, 1, 1);
    ReachedSnoc(bank, 1, 1, [], Accept(true));
  }

  // The worker takes the only connection there is.
  lemma OneTaken(bank: seq<UnitValue>) returns (actions: seq<Action>)
    requires bank != []
    ensures var s := Reached(bank, 1, 1, actions);
            && s.queue == [] && s.sent == [Connection(0)] && s.accepted == 1 && s.packets == map[]
            && |s.workers| == 1 && s.workers[0].phase == Worker.Recv && s.workers[0].socket == 0
            && s.rooms == [RoomSpec.Start(bank)]
  {
    hide Inv;
    OneAccepted(bank);
    var s := Reached(bank, 1, 1, [] + [Accept(true)]);
    OnlyOne(s.queue, MSG_WRK);
    ReachedSnoc(bank, 1, 1, [] + [Accept(true)], WorkerAct(0, true, None));
    actions := [] + [Accept(true)] + [WorkerAct(0, true, None)];
  }

  // It reads a request to create a room.
  lemma CreateHeard(bank: seq<UnitValue>, name: Text) returns (actions: seq<Action>)
    requires bank != [] && name != []
    ensures var s := Reached(bank, 1, 1, actions);
            && s.queue == [] && s.sent == [Connection(0)] && s.accepted == 1
            && s.packets == map[0 := Worker.RequestPacket(1, 2, name)]
            && |s.workers| == 1 && s.workers[0].phase == Worker.Proc && s.workers[0].socket == 0
            && s.workers[0].req == Worker.RequestPacket(1, 2, name)
            && s.rooms == [RoomSpec.Start(bank)]
  {
    hide Inv;
    hide Select;
    var taken := OneTaken(bank);
    var hear := WorkerAct(0, true, Some(Worker.RequestPacket(1, 2, name)));
    ReachedSnoc(bank, 1, 1, taken, hear);
    actions := taken + [hear];
  }

  // In some run a client's request to create a room goes through the acceptor, a worker and the queue,
  // and a room seats the client and waits for one more.
  lemma CreatorIsSeated(bank: seq<UnitValue>, name: Text) returns (actions: seq<Action>)
    requires bank != [] && name != []
    ensures var s := Reached(bank, 1, 1, actions);
            && s.queue == [] && s.sent == [Connection(0), Request(JoinInfo(true, 2, Player(0, name)))]
            && |s.rooms| == 1 && s.rooms[0].phase == RoomSpec.Wait
            && s.rooms[0].seats == [Player(0, name)] && s.rooms[0].size == 2
  {
    hide Inv;
    var heard := CreateHeard(bank, name);
    var pass := WorkerAct(0, true, None);
    ReachedSnoc(bank, 1, 1, heard, pass);
    var s := Reached(bank, 1, 1, heard + [pass]);
    assert s.queue == [Request(JoinInfo(true, 2, Player(0, name)))];
    OnlyOne(s.queue, MSG_ROOM);
    var seat := RoomAct(0, true, RoomSpec.Input(None, [true, true, true, true], 1, [None, None, None, None]));
    ReachedSnoc(bank, 1, 1, heard + [pass], seat);
    actions := heard + [pass] + [seat];
  }
}
