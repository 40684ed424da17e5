/**
 What the threads do with connections: every send, receive and close of a run, in order. Whatever the
 interleaving, a connection is not touched again once it has been closed, so no thread ever writes to
 a descriptor that meanwhile stands for somebody else.
 */
module ServerUses {
  import opened UnitText
  import opened Protocol
  import opened SeatTrace
  import opened MessageQueue
  import opened Totals
  import opened Server
  import opened ServerInvariant
  import opened ServerHistory
  import Worker
  import RoomSpec
  import RoomInvariant
  import RoomLaws

  /** One system call on a connection: a send or receive, or the close. */
  datatype Use = Use(conn: Conn, closes: bool)

  function ClosedBy(u: Use): multiset<Conn>
  {
    if u.closes then multiset{u.conn} else multiset{}
  }

  /** Nothing is done with a connection after its close; in particular it is not closed again. */
  predicate NoUseAfterClose(uses: seq<Use>)
  {
    forall i, j :: 0 <= i < j < |uses| && uses[i].closes ==> uses[j].conn != uses[i].conn
  }

  // ----- one pass of a room -----

  /** The players whom a pass deals with. */
  function PassSeats(room: RoomSpec.Room, next: RoomSpec.Room): seq<Player>
  {
    if RoomSpec.Closes(room) then room.seats else next.seats
  }

  /** The events of a pass; INIT starts a new log. */
  function PassEvents(room: RoomSpec.Room, next: RoomSpec.Room): seq<Event>
    requires room.phase != RoomSpec.Init ==> room.log <= next.log
  {
    if room.phase == RoomSpec.Init then next.log else next.log[|room.log|..]
  }

  /** The events as calls on the connections of the seats. */
  function UsesOf(seats: seq<Player>, events: seq<Event>): (uses: seq<Use>)
    requires forall k :: 0 <= k < |events| ==> events[k].id < |seats|
    ensures |uses| == |events|
  {
    seq(|events|, k requires 0 <= k < |events| => Use(seats[events[k].id].socket, events[k].Closed?))
  }

  // While players are seated, the log tells only of them and of no close.
  lemma SeatedEvents(n: nat, room: RoomSpec.Room, e: Event)
    requires RoomInvariant.Inv(n, room) && room.seats != [] && e in room.log
    ensures e.id < |room.seats| && !e.Closed?
  {
    hide Project;
    ProjectKeepsAll(room.log, e);
    var trace := Project(room.log, e.id);
    assert e.id >= |room.seats| ==> RoomInvariant.IsDone(room, e.id);
    assert RoomInvariant.Agrees(room.phase, room.quest, room.score[e.id], SeatTrace.Run(trace));
    LegalIsWellShaped(trace);
    var i: nat :| i < |trace| && trace[i] == e;
    assert ShapedAt(trace, i);
  }

  lemma PassEventsAreOfSeats(bank: seq<UnitValue>, room: RoomSpec.Room, input: RoomSpec.Input)
    requires bank != [] && RoomInvariant.Inv(|bank|, room) && RoomSpec.ValidInput(input)
    ensures var next := RoomSpec.RoomStep(bank, room, input);
            && (room.phase != RoomSpec.Init ==> room.log <= next.log)
            && var events := PassEvents(room, next);
               if RoomSpec.Closes(room) then events == RoomSpec.CloseEvents(|room.seats|)
               else
                 forall k :: 0 <= k < |events| ==> events[k].id < |PassSeats(room, next)| && !events[k].Closed?
  {
    hide RoomInvariant.SeatsAgree;
    var next := RoomSpec.RoomStep(bank, room, input);
    RoomInvariant.StepKeeps(bank, room, input);
    if !RoomSpec.Closes(room) {
      var events := PassEvents(room, next);
      forall k | 0 <= k < |events| ensures events[k].id < |next.seats| && !events[k].Closed? {
        assert events[k] in next.log;
        SeatedEvents(|bank|, next, events[k]);
      }
    }
  }

  /** The calls of one pass of a room. */
  ghost function RoomUses(bank: seq<UnitValue>, room: RoomSpec.Room, input: RoomSpec.Input): seq<Use>
    requires bank != [] && RoomInvariant.Inv(|bank|, room) && RoomSpec.ValidInput(input)
  {
    var next := RoomSpec.RoomStep(bank, room, input);
    PassEventsAreOfSeats(bank, room, input);
    RoomLaws.ClosesAt(|room.seats|);
    UsesOf(PassSeats(room, next), PassEvents(room, next))
  }

  lemma {:induction false} ClosingTakesAll(seats: seq<Player>, n: nat)
    requires n <= |seats|
    ensures |RoomSpec.CloseEvents(n)| == n && forall i :: 0 <= i < n ==> RoomSpec.CloseEvents(n)[i].id < |seats|
    ensures Total(ClosedBy, UsesOf(seats, RoomSpec.CloseEvents(n))) == Total(PlayerConns, seats[..n])
  {
    hide RoomSpec.CloseEvents;
    RoomLaws.ClosesAt(n);
    if n > 0 {
      RoomLaws.ClosesAt(n - 1);
      ClosingTakesAll(seats, n - 1);
      var uses := UsesOf(seats, RoomSpec.CloseEvents(n));
      assert uses[..n - 1] == UsesOf(seats, RoomSpec.CloseEvents(n - 1));
      assert seats[..n][..n - 1] == seats[..n - 1];
    }
  }

  // A closing pass closes all the seats, once each and in order.
  lemma ClosingPass(bank: seq<UnitValue>, room: RoomSpec.Room, input: RoomSpec.Input)
    requires bank != [] && RoomInvariant.Inv(|bank|, room) && RoomSpec.ValidInput(input) && RoomSpec.Closes(room)
    ensures var uses := RoomUses(bank, room, input);
            && |uses| == |room.seats| && Total(ClosedBy, uses) == RoomConns(room)
            && forall k :: 0 <= k < |uses| ==> uses[k] == Use(room.seats[k].socket, true)
  {
    hide RoomInvariant.Inv;
    hide RoomSpec.RoomStep;
    hide RoomSpec.CloseEvents;
    hide Total;
    PassEventsAreOfSeats(bank, room, input);
    RoomLaws.ClosesAt(|room.seats|);
    ClosingTakesAll(room.seats, |room.seats|);
    assert room.seats[..|room.seats|] == room.seats;
  }

  // Every call is on the connection of a seat, and no other pass closes any.
  lemma UsedSeat(bank: seq<UnitValue>, room: RoomSpec.Room, input: RoomSpec.Input, k: nat) returns (i: nat)
    requires bank != [] && RoomInvariant.Inv(|bank|, room) && RoomSpec.ValidInput(input)
    requires k < |RoomUses(bank, room, input)|
    ensures var seats := PassSeats(room, RoomSpec.RoomStep(bank, room, input));
            i < |seats| && RoomUses(bank, room, input)[k] == Use(seats[i].socket, RoomSpec.Closes(room))
  {
    hide RoomInvariant.SeatsAgree;
    hide RoomSpec.RoomStep;
    hide RoomSpec.CloseEvents;
    PassEventsAreOfSeats(bank, room, input);
    RoomLaws.ClosesAt(|room.seats|);
    i := PassEvents(room, RoomSpec.RoomStep(bank, room, input))[k].id;
  }

  lemma OpenPass(bank: seq<UnitValue>, room: RoomSpec.Room, input: RoomSpec.Input)
    requires bank != [] && RoomInvariant.Inv(|bank|, room) && RoomSpec.ValidInput(input) && !RoomSpec.Closes(room)
    ensures forall k :: 0 <= k < |RoomUses(bank, room, input)| ==> !RoomUses(bank, room, input)[k].closes
    ensures Total(ClosedBy, RoomUses(bank, room, input)) == multiset{}
  {
    hide RoomInvariant.Inv;
    hide RoomSpec.RoomStep;
    hide RoomUses;
    hide Total;
    var uses := RoomUses(bank, room, input);
    forall k | 0 <= k < |uses| ensures !uses[k].closes {
      var _ := UsedSeat(bank, room, input, k);
    }
    EmptyTotal(ClosedBy, uses);
  }

  // ----- one action -----

  /** The calls of one pass of any thread. A worker only receives; the acceptor has no connection yet. */
  ghost function Uses(bank: seq<UnitValue>, s: State, a: Action): seq<Use>
    requires bank != [] && Inv(bank, s)
  {
    if !Enabled(s, a) then []
    else
      match a
      case Accept(_) => []
      case WorkerAct(w, _, _) =>
        if s.workers[w].phase == Worker.Recv then [Use(s.workers[w].socket, false)] else []
      case RoomAct(r, queueOk, input) =>
        DeliveredIsValid(bank, s, r, queueOk, input);
        RoomUses(bank, s.rooms[r], input.(message := Delivered(s, r, queueOk)))
  }

  // Who is used by a pass has been neither closed nor abandoned before.
  lemma UsedAreOpen(bank: seq<UnitValue>, s: State, a: Action, k: nat)
    requires bank != [] && Inv(bank, s) && k < |Uses(bank, s, a)|
    ensures var c := Uses(bank, s, a)[k].conn; c !in s.closed && c !in s.abandoned
  {
    hide RoomInvariant.Inv;
    hide RoomSpec.RoomStep;
    hide Total;
    var c := Uses(bank, s, a)[k].conn;
    match a {
      case WorkerAct(w, _, _) =>
        AcceptedOnce(s.accepted, c);
        assert Places(s)[c] <= 1;
        OneOf(HandConns, s.workers, w, c);
      case RoomAct(r, queueOk, input) =>
        DeliveredIsValid(bank, s, r, queueOk, input);
        var room, full := s.rooms[r], input.(message := Delivered(s, r, queueOk));
        var next := RoomSpec.RoomStep(bank, room, full);
        var i := UsedSeat(bank, room, full, k);
        if RoomSpec.Closes(room) {
          SeatsAreDistinct(bank, s, r, i, r, i);
        } else {
          var t := Apply(bank, s, a);
          StepKeeps(bank, s, a);
          StepGrows(bank, s, a);
          assert t.rooms[r] == next;
          SeatsAreDistinct(bank, t, r, i, r, i);
        }
    }
  }

  // One pass does nothing after a close, and closes exactly what the state then counts as closed.
  lemma StepUses(bank: seq<UnitValue>, s: State, a: Action)
    requires bank != [] && Inv(bank, s)
    ensures NoUseAfterClose(Uses(bank, s, a))
    ensures Apply(bank, s, a).closed == s.closed + Total(ClosedBy, Uses(bank, s, a))
  {
    hide RoomInvariant.Inv;
    hide RoomSpec.RoomStep;
    hide RoomUses;
    hide Total;
    hide Conserved;
    hide Fifo;
    hide Remembered;
    hide MustDeliver;
    var uses := Uses(bank, s, a);
    if Enabled(s, a) && a.RoomAct? {
      var room := s.rooms[a.r];
      DeliveredIsValid(bank, s, a.r, a.queueOk, a.input);
      var full := a.input.(message := Delivered(s, a.r, a.queueOk));
      if RoomSpec.Closes(room) {
        ClosingPass(bank, room, full);
        forall i, j | 0 <= i < j < |uses| ensures uses[j].conn != uses[i].conn {
          SeatsAreDistinct(bank, s, a.r, i, a.r, j);
        }
      } else {
        OpenPass(bank, room, full);
      }
    } else {
      EmptyTotal(ClosedBy, uses);
    }
  }

  // ----- all runs -----

  /** All calls of a run, in the order of its actions. */
  ghost function RunUses(bank: seq<UnitValue>, s: State, actions: seq<Action>): seq<Use>
    requires bank != [] && Inv(bank, s)
    decreases |actions|
  {
    if actions == [] then []
    else
      StepKeeps(bank, s, actions[0]);
      Uses(bank, s, actions[0]) + RunUses(bank, Apply(bank, s, actions[0]), actions[1..])
  }

  lemma {:induction false} TotalConcat<T, K>(f: T -> multiset<K>, a: seq<T>, b: seq<T>)
    ensures Total(f, a + b) == Total(f, a) + Total(f, b)
  {
    if b == [] {
      assert a + b == a;
    } else {
      assert (a + b)[..|a + b| - 1] == a + b[..|b| - 1];
      TotalConcat(f, a, b[..|b| - 1]);
    }
  }

  lemma {:induction false} RunUsesAreOpen(bank: seq<UnitValue>, s: State, actions: seq<Action>)
    requires bank != [] && Inv(bank, s)
    ensures var uses := RunUses(bank, s, actions);
            && NoUseAfterClose(uses)
            && ServerInvariant.Run(bank, s, actions).closed == s.closed + Total(ClosedBy, uses)
            && forall k :: 0 <= k < |uses| ==> uses[k].conn !in s.closed && uses[k].conn !in s.abandoned
    decreases |actions|
  {
    hide Inv;
    hide Apply;
    hide Uses;
    hide Total;
    hide SeatedOrClosed;
    if actions != [] {
      var t := Apply(bank, s, actions[0]);
      StepKeeps(bank, s, actions[0]);
      StepGrows(bank, s, actions[0]);
      StepUses(bank, s, actions[0]);
      RunUsesAreOpen(bank, t, actions[1..]);
      var now, later := Uses(bank, s, actions[0]), RunUses(bank, t, actions[1..]);
      TotalConcat(ClosedBy, now, later);
      assert t.closed + Total(ClosedBy, later) == s.closed + Total(ClosedBy, now + later);
      forall k | 0 <= k < |now| ensures now[k].conn !in s.closed && now[k].conn !in s.abandoned {
        UsedAreOpen(bank, s, actions[0], k);
      }
      forall i | 0 <= i < |now| && now[i].closes ensures now[i].conn in t.closed {
        TotalOfOne(ClosedBy, now, i);
      }
    } else {
      EmptyTotal<Use, Conn>(ClosedBy, []);
    }
  }

  // In every run of the server, no thread sends to, receives from or closes a connection after it was
  // closed, and the connections closed are exactly those on which a room called close.
  lemma NothingAfterClose(bank: seq<UnitValue>, workers: nat, rooms: nat, actions: seq<Action>)
    requires bank != []
    ensures Inv(bank, Start(bank, workers, rooms))
    ensures var uses := RunUses(bank, Start(bank, workers, rooms), actions);
            && NoUseAfterClose(uses)
            && Reached(bank, workers, rooms, actions).closed == Total(ClosedBy, uses)
  {
    hide Inv;
    StartIsGood(bank, workers, rooms);
    RunUsesAreOpen(bank, Start(bank, workers, rooms), actions);
  }
}
