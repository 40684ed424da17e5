/**
 What every pass keeps: the arrays and the round number agree with each seat's automaton, and
 the cursor stands where the steps taken so far have brought it.
 */
module RoomInvariant {
  import opened Wrappers
  import opened CStrings
  import opened UnitText
  import opened Protocol
  import opened SeatTrace
  import opened RoomSpec
  import RingWalk

  /** The round before the given one: the one whose answers were collected last. */
  function LastRound(quest: nat): nat
  {
    if quest == 0 then LAST_QUEST else quest - 1
  }

  /** The state of a seat that answered every round up to this one. */
  function StillIn(round: nat): SeatState
  {
    if round == 0 then Lobby(false) else Survived(round)
  }

  predicate IsOut(s: SeatState)
  {
    s == Gone || s == Lobby(true)
  }

  predicate BetweenRounds(quest: nat, score: int, s: SeatState)
  {
    || (score == PLR_DISCONNECT && IsOut(s))
    || (score == PLR_LOST && LastRound(quest) >= 1 && s == Lost(LastRound(quest)))
    || (score == LastRound(quest) && s == StillIn(LastRound(quest)))
  }

  /** A seat's score and its automaton agree, given where the game stands. */
  predicate Agrees(phase: Phase, quest: nat, score: int, s: SeatState)
  {
    match phase
    case Wait => (score == 0 && s == Lobby(false)) || (score == PLR_DISCONNECT && s == Lobby(true))
    case Fin => (score == 0 || score == PLR_DISCONNECT) && s.Lobby?
    case Game => BetweenRounds(quest, score, s)
    case GameOver =>
      if quest == 0 then BetweenRounds(quest, score, s)
      else (score == PLR_DISCONNECT && IsOut(s)) || (score == quest - 1 && s == Pending(quest))
    case _ => false
  }

  /** The number of players whose score is above PLR_LOST. */
  function InGame(score: seq<int>): nat
  {
    if score == [] then 0
    else InGame(score[..|score| - 1]) + if score[|score| - 1] > PLR_LOST then 1 else 0
  }

  /** A seat nobody sits in: untouched, or closed after its game. */
  predicate IsDone(room: Room, id: nat)
  {
    || Project(room.log, id) == []
    || (room.seats == [] && Run(Project(room.log, id)) == Shut)
  }

  /** Every seat's score and automaton agree for the given phase; empty seats are done. */
  ghost predicate SeatsAgree(room: Room, phase: Phase)
    requires |room.score| == |room.seats|
  {
    && (forall id: nat :: |room.seats| <= id ==> IsDone(room, id))
    && (forall id: nat :: id < |room.seats| ==>
          Agrees(phase, room.quest, room.score[id], Run(Project(room.log, id))))
  }

  ghost predicate Inv(n: nat, room: Room)
  {
    && n > 0
    && RingWalk.Steps(room.walk) && room.cursor == RingWalk.Position(n, room.walk, |room.walk|)
    && Bounded(room) && room.quest <= LAST_QUEST
    && SeatsAgree(room, room.phase)
    && match room.phase
       case Init => room.seats == []
       case Exit => room.seats == []
       case Wait => 1 <= |room.seats| < room.size && ClientSize(room.size) && room.quest == 1
       case Game => |room.seats| == room.size && ClientSize(room.size)
       case GameOver =>
         && |room.seats| == room.size && ClientSize(room.size)
         && (room.quest != 0 ==> InGame(room.score) <= 1)
       case Fin => true
  }

  // ----- the events of one pass, seat by seat -----

  lemma {:induction false} WaitEventsOf(seats: seq<Player>, size: nat, sendOk: seq<bool>, k: nat, id: nat)
    requires k <= |sendOk|
    ensures Project(WaitEvents(seats, size, sendOk, k), id)
         == if id < k then [Waited(id, WaitPacketFor(seats, size, id), sendOk[id])] else []
  {
    hide Project;
    hide WaitPacketFor;
    if k == 0 {
      ProjectSnoc([], Closed(0), id);
    } else {
      WaitEventsOf(seats, size, sendOk, k - 1, id);
      ProjectSnoc(WaitEvents(seats, size, sendOk, k - 1),
                  Waited(k - 1, WaitPacketFor(seats, size, k - 1), sendOk[k - 1]), id);
    }
  }

  lemma {:induction false} AskEventsOf(score: seq<int>, sendOk: seq<bool>, packet: Packet, k: nat, id: nat)
    requires k <= |score| <= |sendOk|
    ensures Project(AskEvents(score, sendOk, packet, k), id)
         == if id < k && score[id] >= PLR_LOST then [Asked(id, packet, sendOk[id])] else []
  {
    hide Project;
    if k == 0 {
      ProjectSnoc([], Closed(0), id);
    } else {
      AskEventsOf(score, sendOk, packet, k - 1, id);
      var prefix := AskEvents(score, sendOk, packet, k - 1);
      ProjectSnoc(prefix, Asked(k - 1, packet, sendOk[k - 1]), id);
      assert prefix + [] == prefix;
    }
  }

  lemma {:induction false} AnswerEventsOf(score: seq<int>, answers: seq<Option<Byte>>, rans: Byte, k: nat, id: nat)
    requires k <= |score| <= |answers|
    ensures Project(AnswerEvents(score, answers, rans, k), id)
         == if id < k && score[id] > PLR_LOST then [Answered(id, answers[id], rans)] else []
  {
    hide Project;
    if k == 0 {
      ProjectSnoc([], Closed(0), id);
    } else {
      AnswerEventsOf(score, answers, rans, k - 1, id);
      var prefix := AnswerEvents(score, answers, rans, k - 1);
      ProjectSnoc(prefix, Answered(k - 1, answers[k - 1], rans), id);
      assert prefix + [] == prefix;
    }
  }

  lemma {:induction false} CloseEventsOf(k: nat, id: nat)
    ensures Project(CloseEvents(k), id) == if id < k then [Closed(id)] else []
  {
    hide Project;
    ProjectSnoc(if k == 0 then [] else CloseEvents(k - 1), Closed(if k == 0 then 0 else k - 1), id);
    if k > 0 {
      CloseEventsOf(k - 1, id);
    }
  }

  // Appending at most one event of a seat moves its automaton by at most one step.
  lemma TraceGrows(log: seq<Event>, events: seq<Event>, id: nat)
    ensures Project(log + events, id) == Project(log, id) + Project(events, id)
    ensures Project(events, id) == [] ==> Run(Project(log + events, id)) == Run(Project(log, id))
    ensures |Project(events, id)| == 1 ==>
              Run(Project(log + events, id)) == SeatStep(Run(Project(log, id)), Project(events, id)[0])
  {
    ProjectConcat(log, events, id);
    if Project(events, id) == [] {
      assert Project(log, id) + [] == Project(log, id);
    }
    if |Project(events, id)| == 1 {
      assert Project(events, id) == [Project(events, id)[0]];
      RunSnoc(Project(log, id), Project(events, id)[0]);
    }
  }

  // ----- each phase keeps the invariant -----

  lemma StartIsGood(bank: seq<UnitValue>)
    requires bank != []
    ensures Inv(|bank|, Start(bank))
  {
    var room := Start(bank);
    assert RingWalk.Sum(room.walk[..0]) == 0;
  }

  lemma FirstWait(e: Event)
    requires e.Waited? && e.packet.WaitPacket? && e.packet.id == e.id
    ensures Run([e]) == Lobby(!e.ok)
  {
    RunOfNothing();
    RunSnoc([], e);
    assert [] + [e] == [e];
  }

  lemma InitKeeps(n: nat, room: Room, input: Input)
    requires Inv(n, room) && room.phase == Init && ValidInput(input)
    ensures Inv(n, InitStep(room, input))
  {
    hide Project;
    hide Run;
    var next := InitStep(room, input);
    forall id: nat
      ensures |next.seats| <= id ==> Project(next.log, id) == []
      ensures id < |next.seats| ==> Agrees(next.phase, next.quest, next.score[id], Run(Project(next.log, id)))
    {
      ProjectSnoc([], Closed(0), id);
      if input.message.Some? {
        var e := Waited(0, WaitPacketFor(next.seats, next.size, 0), input.sendOk[0]);
        WaitEventsOf(next.seats, next.size, input.sendOk, 1, id);
        FirstWait(e);
      }
    }
  }

  // What one seating adds to the trace of one seat.
  lemma WaitTrace(room: Room, input: Input, id: nat)
    requires room.phase == Wait && Bounded(room) && ValidInput(input) && input.message.Some?
    ensures var next := WaitStep(room, input);
            Project(next.log, id) ==
              if id < SendsTried(input.sendOk, |next.seats|) then
                Project(room.log, id) + [Waited(id, WaitPacketFor(next.seats, room.size, id), input.sendOk[id])]
              else Project(room.log, id)
  {
    hide Project;
    hide Run;
    var seats := room.seats + [input.message.value.player];
    var events := WaitEvents(seats, room.size, input.sendOk, SendsTried(input.sendOk, |seats|));
    WaitEventsOf(seats, room.size, input.sendOk, SendsTried(input.sendOk, |seats|), id);
    ProjectConcat(room.log, events, id);
    assert Project(room.log, id) + [] == Project(room.log, id);
    assert WaitStep(room, input).log == room.log + events;
  }

  lemma WaitKeepsSeat(n: nat, room: Room, input: Input, id: nat)
    requires Inv(n, room) && room.phase == Wait && ValidInput(input) && input.message.Some?
    ensures var next := WaitStep(room, input);
            if id < |next.seats| then Agrees(next.phase, next.quest, next.score[id], Run(Project(next.log, id)))
            else IsDone(next, id)
  {
    hide Project;
    hide Run;
    WaitTrace(room, input, id);
    var next := WaitStep(room, input);
    var e := Waited(id, WaitPacketFor(next.seats, room.size, id),
                    if id < |input.sendOk| then input.sendOk[id] else false);
    RunSnoc(Project(room.log, id), e);
    RunOfNothing();
    if id >= |room.seats| {
      assert IsDone(room, id);
    }
  }

  lemma WaitKeeps(n: nat, room: Room, input: Input)
    requires Inv(n, room) && room.phase == Wait && ValidInput(input)
    ensures Inv(n, WaitStep(room, input))
  {
    var next := WaitStep(room, input);
    if input.message.Some? {
      forall id: nat
        ensures |next.seats| <= id ==> IsDone(next, id)
        ensures id < |next.seats| ==> Agrees(next.phase, next.quest, next.score[id], Run(Project(next.log, id)))
      {
        WaitKeepsSeat(n, room, input, id);
      }
    } else {
      forall id: nat | |next.seats| <= id ensures IsDone(next, id) {
        assert IsDone(room, id);
      }
    }
  }

  // Players still in the game after the question went out are among those it reached.
  lemma {:induction false} InGameWereReached(score: seq<int>, sendOk: seq<bool>, k: nat)
    requires k <= |score| <= |sendOk|
    ensures InGame(AskScores(score, sendOk)[..k]) <= AliveCount(score, sendOk, k)
  {
    if k > 0 {
      InGameWereReached(score, sendOk, k - 1);
      var asked := AskScores(score, sendOk);
      assert asked[..k][..k - 1] == asked[..k - 1];
    }
  }

  // What sending a question adds to the trace of one seat.
  lemma AskTrace(bank: seq<UnitValue>, room: Room, input: Input, id: nat)
    requires bank != [] && Bounded(room) && ValidInput(input)
    ensures var next := AskPhase(bank, room, input);
            Project(next.log, id) ==
              if id < |room.score| && room.score[id] >= PLR_LOST then
                Project(room.log, id)
                + [Asked(id, GamePacketFor(room.score, room.quest, bank[next.cursor]), input.sendOk[id])]
              else Project(room.log, id)
  {
    hide Project;
    hide Run;
    var packet := GamePacketFor(room.score, room.quest, bank[(room.cursor + input.step) % |bank|]);
    AskEventsOf(room.score, input.sendOk, packet, |room.score|, id);
    ProjectConcat(room.log, AskEvents(room.score, input.sendOk, packet, |room.score|), id);
    assert Project(room.log, id) + [] == Project(room.log, id);
  }

  // What collecting the answers adds to the trace of one seat.
  lemma AnswerTrace(room: Room, rans: Byte, input: Input, id: nat)
    requires Bounded(room) && ValidInput(input)
    ensures Project(AnswerPhase(room, rans, input).log, id) ==
              if id < |room.score| && room.score[id] > PLR_LOST then
                Project(room.log, id) + [Answered(id, input.answers[id], rans)]
              else Project(room.log, id)
  {
    hide Project;
    hide Run;
    AnswerEventsOf(room.score, input.answers, rans, |room.score|, id);
    ProjectConcat(room.log, AnswerEvents(room.score, input.answers, rans, |room.score|), id);
    assert Project(room.log, id) + [] == Project(room.log, id);
  }

  // Sending the question of a round leaves every seat as a game over in that round would find it.
  lemma AskKeeps(bank: seq<UnitValue>, room: Room, input: Input)
    requires bank != [] && Bounded(room) && ValidInput(input)
    requires 1 <= room.quest <= LAST_QUEST && SeatsAgree(room, Game)
    ensures SeatsAgree(AskPhase(bank, room, input), GameOver)
  {
    hide Project;
    hide Run;
    var next := AskPhase(bank, room, input);
    forall id: nat
      ensures |next.seats| <= id ==> IsDone(next, id)
      ensures id < |next.seats| ==> Agrees(GameOver, next.quest, next.score[id], Run(Project(next.log, id)))
    {
      AskTrace(bank, room, input, id);
      if id < |room.seats| {
        ByteRoundTrip(room.score[id]);
        RunSnoc(Project(room.log, id),
                Asked(id, GamePacketFor(room.score, room.quest, bank[next.cursor]), input.sendOk[id]));
      } else {
        assert IsDone(room, id);
      }
    }
  }

  // Collecting the answers of a round leaves every seat as the next round expects it.
  lemma AnswerKeeps(room: Room, rans: Byte, input: Input)
    requires Bounded(room) && ValidInput(input)
    requires 1 <= room.quest <= LAST_QUEST && SeatsAgree(room, GameOver)
    ensures SeatsAgree(AnswerPhase(room, rans, input), Game)
  {
    hide Project;
    hide Run;
    var next := AnswerPhase(room, rans, input);
    forall id: nat
      ensures |next.seats| <= id ==> IsDone(next, id)
      ensures id < |next.seats| ==> Agrees(Game, next.quest, next.score[id], Run(Project(next.log, id)))
    {
      AnswerTrace(room, rans, input, id);
      if id < |room.seats| {
        RunSnoc(Project(room.log, id), Answered(id, input.answers[id], rans));
      } else {
        assert IsDone(room, id);
      }
    }
  }

  // The agreement does not look at the room's phase.
  lemma SameSeats(room: Room, other: Room, phase: Phase)
    requires |room.score| == |room.seats| && SeatsAgree(room, phase)
    requires other == room.(phase := other.phase)
    ensures SeatsAgree(other, phase)
  {
    forall id: nat | |room.seats| <= id ensures IsDone(other, id) {
      assert IsDone(room, id);
    }
  }

  lemma GameKeeps(bank: seq<UnitValue>, room: Room, input: Input)
    requires bank != [] && Inv(|bank|, room) && room.phase == Game && ValidInput(input)
    ensures Inv(|bank|, GameStep(bank, room, input))
  {
    hide Project;
    hide Run;
    hide RingWalk.Sum;
    if room.quest != 0 {
      var asked := AskPhase(bank, room, input);
      AskKeeps(bank, room, input);
      AnswerKeeps(asked, bank[asked.cursor].rans, input);
      RingWalk.PositionAdvances(|bank|, room.walk, input.step);
      InGameWereReached(room.score, input.sendOk, |room.score|);
      assert asked.score[..|room.score|] == asked.score;
      if AliveCount(room.score, input.sendOk, |room.score|) <= 1 {
        SameSeats(asked, asked.(phase := GameOver), GameOver);
      }
    } else {
      SameSeats(room, room.(phase := GameOver), GameOver);
    }
  }

  lemma CloseKeeps(n: nat, room: Room, next: Phase)
    requires Inv(n, room) && (room.phase == GameOver || room.phase == Fin) && (next == Init || next == Exit)
    ensures Inv(n, CloseStep(room, next))
  {
    hide Project;
    hide Run;
    var closed := CloseStep(room, next);
    forall id: nat ensures IsDone(closed, id) {
      CloseEventsOf(|room.seats|, id);
      TraceGrows(room.log, CloseEvents(|room.seats|), id);
      if id >= |room.seats| {
        assert IsDone(room, id);
      }
    }
  }

  lemma StepKeeps(bank: seq<UnitValue>, room: Room, input: Input)
    requires bank != [] && Inv(|bank|, room) && ValidInput(input)
    ensures Inv(|bank|, RoomStep(bank, room, input))
  {
    match room.phase
    case Init => InitKeeps(|bank|, room, input);
    case Wait => WaitKeeps(|bank|, room, input);
    case Game => GameKeeps(bank, room, input);
    case GameOver => CloseKeeps(|bank|, room, Init);
    case Fin => CloseKeeps(|bank|, room, Exit);
    case Exit =>
  }
}
