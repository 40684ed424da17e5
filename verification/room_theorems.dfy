/**
 What holds of a room over whole runs: any number of passes from its start, whatever the
 environment answers.
 */
module RoomTheorems {
  import opened Wrappers
  import opened CStrings
  import opened UnitText
  import opened Protocol
  import opened SeatTrace
  import opened RoomSpec
  import opened RoomInvariant
  import RingWalk

  /** The state after one pass per input. */
  ghost function RunRoom(bank: seq<UnitValue>, room: Room, inputs: seq<Input>): (last: Room)
    requires bank != [] && Inv(|bank|, room)
    requires forall i :: 0 <= i < |inputs| ==> ValidInput(inputs[i])
    ensures Inv(|bank|, last)
    decreases |inputs|
  {
    if inputs == [] then room
    else
      StepKeeps(bank, room, inputs[0]);
      RunRoom(bank, RoomStep(bank, room, inputs[0]), inputs[1..])
  }

  /** The state after the given passes of a room that starts from scratch. */
  ghost function Reached(bank: seq<UnitValue>, inputs: seq<Input>): (room: Room)
    requires bank != []
    requires forall i :: 0 <= i < |inputs| ==> ValidInput(inputs[i])
    ensures Inv(|bank|, room)
  {
    StartIsGood(bank);
    RunRoom(bank, Start(bank), inputs)
  }

  lemma {:induction false} RunSplits(bank: seq<UnitValue>, room: Room, inputs: seq<Input>, k: nat)
    requires bank != [] && Inv(|bank|, room) && k <= |inputs|
    requires forall i :: 0 <= i < |inputs| ==> ValidInput(inputs[i])
    ensures RunRoom(bank, room, inputs) == RunRoom(bank, RunRoom(bank, room, inputs[..k]), inputs[k..])
    decreases |inputs|
  {
    hide SeatsAgree;
    hide RoomStep;
    if k > 0 {
      StepKeeps(bank, room, inputs[0]);
      RunSplits(bank, RoomStep(bank, room, inputs[0]), inputs[1..], k - 1);
      assert inputs[..k][1..] == inputs[1..][..k - 1];
      assert inputs[1..][k - 1..] == inputs[k..];
    } else {
      assert inputs[..0] == [] && inputs[0..] == inputs;
    }
  }

  predicate AllValid(inputs: seq<Input>)
  {
    forall i :: 0 <= i < |inputs| ==> ValidInput(inputs[i])
  }

  /** The inputs bring a room from its start to this state. */
  ghost predicate RunsTo(bank: seq<UnitValue>, inputs: seq<Input>, room: Room)
    requires bank != []
  {
    AllValid(inputs) && Reached(bank, inputs) == room
  }

  // One more pass on top of a run is a run.
  lemma ReachedSnoc(bank: seq<UnitValue>, inputs: seq<Input>, input: Input)
    requires bank != [] && AllValid(inputs) && ValidInput(input)
    ensures AllValid(inputs + [input])
    ensures RunsTo(bank, inputs + [input], RoomStep(bank, Reached(bank, inputs), input))
  {
    hide SeatsAgree;
    hide RoomStep;
    StartIsGood(bank);
    RunSplits(bank, Start(bank), inputs + [input], |inputs|);
    assert (inputs + [input])[..|inputs|] == inputs && (inputs + [input])[|inputs|..] == [input];
    var room := Reached(bank, inputs);
    StepKeeps(bank, room, input);
    assert [input][1..] == [];
    assert RunRoom(bank, RoomStep(bank, room, input), []) == RoomStep(bank, room, input);
  }

  lemma {:induction false} ExitStays(bank: seq<UnitValue>, room: Room, inputs: seq<Input>)
    requires bank != [] && Inv(|bank|, room) && room.phase == Exit
    requires forall i :: 0 <= i < |inputs| ==> ValidInput(inputs[i])
    ensures RunRoom(bank, room, inputs) == room
    decreases |inputs|
  {
    if inputs != [] {
      ExitStays(bank, room, inputs[1..]);
    }
  }

  // ----- scores -----

  lemma ScoresOfSeats(n: nat, room: Room, i: nat)
    requires Inv(n, room) && i < |room.seats|
    ensures PLR_DISCONNECT <= room.score[i] <= LAST_QUEST
    ensures room.phase == Game || (room.phase == GameOver && room.quest == 0) ==>
              room.score[i] in {LastRound(room.quest), PLR_LOST, PLR_DISCONNECT}
    ensures room.phase == GameOver && room.quest != 0 ==> room.score[i] in {room.quest - 1, PLR_DISCONNECT}
    ensures room.phase == Game && room.quest == 1 ==> room.score[i] != PLR_LOST
  {
    hide Run;
    hide Project;
    assert Agrees(room.phase, room.quest, room.score[i], Run(Project(room.log, i)));
  }

  // In every reachable state all players still in the game have the same score, the number of rounds
  // played, and after the last round that is LAST_QUEST. No score ever leaves the range of a signed char.
  lemma SurvivorsAreTied(bank: seq<UnitValue>, inputs: seq<Input>, i: nat, j: nat)
    requires bank != [] && AllValid(inputs)
    requires i < |Reached(bank, inputs).seats| && j < |Reached(bank, inputs).seats|
    ensures var room := Reached(bank, inputs);
            && PLR_DISCONNECT <= room.score[i] <= LAST_QUEST
            && (room.phase == Game || (room.phase == GameOver && room.quest == 0) ==>
                  room.score[i] in {LastRound(room.quest), PLR_LOST, PLR_DISCONNECT})
            && (room.phase == GameOver && room.quest != 0 ==> room.score[i] in {room.quest - 1, PLR_DISCONNECT})
            && (room.phase in {Game, GameOver} && room.score[i] > PLR_LOST && room.score[j] > PLR_LOST ==>
                  room.score[i] == room.score[j])
  {
    hide SeatsAgree;
    ScoresOfSeats(|bank|, Reached(bank, inputs), i);
    ScoresOfSeats(|bank|, Reached(bank, inputs), j);
  }

  /** The last pass opened the room for a player who could not be reached. */
  ghost predicate FirstSendFailed(bank: seq<UnitValue>, inputs: seq<Input>)
    requires bank != [] && AllValid(inputs)
  {
    && inputs != []
    && var input := inputs[|inputs| - 1];
       Reached(bank, inputs[..|inputs| - 1]).phase == Init && input.message.Some? && !input.sendOk[0]
  }

  lemma LastPass(bank: seq<UnitValue>, inputs: seq<Input>)
    requires bank != [] && AllValid(inputs) && inputs != []
    ensures AllValid(inputs[..|inputs| - 1]) && ValidInput(inputs[|inputs| - 1])
    ensures Reached(bank, inputs)
         == RoomStep(bank, Reached(bank, inputs[..|inputs| - 1]), inputs[|inputs| - 1])
  {
    hide SeatsAgree;
    hide RoomStep;
    var before, input := inputs[..|inputs| - 1], inputs[|inputs| - 1];
    ReachedSnoc(bank, before, input);
    assert before + [input] == inputs;
  }

  lemma FailedOpening(n: nat, room: Room, input: Input)
    requires Inv(n, room) && room.phase == Init && ValidInput(input) && input.message.Some? && !input.sendOk[0]
    ensures var next := InitStep(room, input);
            next.phase == Fin && next.score == [0] && ClosedForm(Project(next.log, 0)) == PLR_DISCONNECT
  {
    hide Project;
    var next := InitStep(room, input);
    var e := Waited(0, WaitPacketFor(next.seats, next.size, 0), false);
    WaitEventsOf(next.seats, next.size, input.sendOk, 1, 0);
    FirstWait(e);
    ScoreIsClosedForm([e]);
  }

  lemma AgreesIsClosedForm(phase: Phase, quest: nat, score: int, trace: seq<Event>)
    requires phase in {Wait, Game, GameOver} && Agrees(phase, quest, score, Run(trace))
    ensures score == ClosedForm(trace)
  {
    hide Run;
    ScoreIsClosedForm(trace);
  }

  // In every reachable state the score kept in place by the loops is the closed form of what happened
  // to the seat, unless the room has just failed to reach the player who opened it: then the score is
  // still 0, although the seat is lost.
  lemma ScoreFollowsTraceIff(bank: seq<UnitValue>, inputs: seq<Input>, i: nat)
    requires bank != [] && AllValid(inputs) && i < |Reached(bank, inputs).seats|
    ensures var room := Reached(bank, inputs);
            && (room.score[i] == ClosedForm(Project(room.log, i)) <==> !FirstSendFailed(bank, inputs))
            && (FirstSendFailed(bank, inputs) ==>
                  room.score == [0] && ClosedForm(Project(room.log, i)) == PLR_DISCONNECT)
  {
    hide Run;
    hide Project;
    hide ClosedForm;
    var room := Reached(bank, inputs);
    if inputs != [] {
      LastPass(bank, inputs);
      var before, input := Reached(bank, inputs[..|inputs| - 1]), inputs[|inputs| - 1];
      if FirstSendFailed(bank, inputs) {
        FailedOpening(|bank|, before, input);
      } else if room.phase == Fin {
        assert before.phase == Wait && room == before.(phase := Fin);
        AgreesIsClosedForm(Wait, before.quest, before.score[i], Project(before.log, i));
      } else {
        AgreesIsClosedForm(room.phase, room.quest, room.score[i], Project(room.log, i));
      }
    }
  }

  // ----- events -----

  lemma TraceIsLegal(n: nat, room: Room, id: nat)
    requires Inv(n, room)
    ensures Run(Project(room.log, id)) != Bad
  {
    hide Run;
    hide Project;
    RunOfNothing();
    if id >= |room.seats| {
      assert IsDone(room, id);
    }
  }

  // In every reachable state the events of every seat have the prescribed shape.
  lemma EveryTraceIsWellShaped(bank: seq<UnitValue>, inputs: seq<Input>, id: nat)
    requires bank != [] && AllValid(inputs)
    ensures var trace := Project(Reached(bank, inputs).log, id); Run(trace) != Bad && WellShaped(trace)
  {
    hide SeatsAgree;
    hide Run;
    hide Project;
    TraceIsLegal(|bank|, Reached(bank, inputs), id);
    LegalIsWellShaped(Project(Reached(bank, inputs).log, id));
  }

  // No question packet carries a number outside 1 to LAST_QUEST; in particular none carries 0.
  lemma NoPacketAnnouncesTheEnd(bank: seq<UnitValue>, inputs: seq<Input>, e: Event)
    requires bank != [] && AllValid(inputs)
    requires e in Reached(bank, inputs).log && e.Asked?
    ensures e.packet.GamePacket? && 1 <= e.packet.questNum <= LAST_QUEST
  {
    hide SeatsAgree;
    hide Run;
    hide Project;
    var room := Reached(bank, inputs);
    TraceIsLegal(|bank|, room, e.id);
    ProjectKeepsAll(room.log, e);
    var trace := Project(room.log, e.id);
    var i: nat :| i < |trace| && trace[i] == e;
    QuestionsAreNumbered(trace, i);
  }

  // When a game is over and the room is back in INIT, every seat that saw anything was closed once,
  // last of all, and a player who had answered wrongly saw one more packet, with the loss on it.
  lemma FinishedGame(bank: seq<UnitValue>, inputs: seq<Input>, id: nat, i: nat)
    requires bank != [] && AllValid(inputs) && Reached(bank, inputs).phase in {Init, Exit}
    requires i < |Project(Reached(bank, inputs).log, id)|
    ensures var trace := Project(Reached(bank, inputs).log, id);
            && (trace[i].Closed? <==> i == |trace| - 1)
            && (WrongAnswer(trace[i]) ==>
                  && i > 0 && trace[i - 1].Asked? && trace[i - 1].packet.GamePacket?
                  && if trace[i - 1].packet.questNum == LAST_QUEST then |trace| == i + 2
                     else
                       && |trace| == i + 3 && trace[i + 1].Asked?
                       && Shows(trace[i + 1].packet, trace[i + 1].id, PLR_LOST))
  {
    hide Project;
    hide Run;
    var room := Reached(bank, inputs);
    var trace := Project(room.log, id);
    assert IsDone(room, id);
    LegalIsWellShaped(trace);
    assert ShapedAt(trace, i);
    StateShowsLastEvents(trace);
    if WrongAnswer(trace[i]) {
      WrongAnswerGetsOneMorePacket(trace, i);
    }
  }

  // ----- the end of a game -----

  /** The questions that went out. */
  function SentCount(events: seq<Event>): nat
  {
    if events == [] then 0
    else
      var e := events[|events| - 1];
      SentCount(events[..|events| - 1]) + if e.Asked? && e.ok then 1 else 0
  }

  lemma {:induction false} SentCountOfAsks(score: seq<int>, sendOk: seq<bool>, packet: Packet, k: nat)
    requires k <= |score| <= |sendOk|
    ensures SentCount(AskEvents(score, sendOk, packet, k)) == AliveCount(score, sendOk, k)
  {
    if k > 0 {
      SentCountOfAsks(score, sendOk, packet, k - 1);
      var prefix, e := AskEvents(score, sendOk, packet, k - 1), Asked(k - 1, packet, sendOk[k - 1]);
      assert (prefix + [e])[..|prefix|] == prefix;
      assert prefix + [] == prefix;
    }
  }

  lemma {:induction false} AsksAreAsked(score: seq<int>, sendOk: seq<bool>, packet: Packet, k: nat)
    requires k <= |score| <= |sendOk|
    ensures forall e :: e in AskEvents(score, sendOk, packet, k) ==> e.Asked?
  {
    if k > 0 {
      AsksAreAsked(score, sendOk, packet, k - 1);
    }
  }

  // A round ends the game exactly when its question reached at most one player; otherwise its
  // answers are collected, so whenever they are, at least two players got the question.
  lemma RoundEndsGameIff(bank: seq<UnitValue>, room: Room, input: Input)
    requires bank != [] && Inv(|bank|, room) && room.phase == Game && room.quest != 0 && ValidInput(input)
    ensures var asks := AskPhase(bank, room, input).log[|room.log|..];
            var next := GameStep(bank, room, input);
            && (forall e :: e in asks ==> e.Asked?)
            && (next.phase == GameOver <==> SentCount(asks) <= 1)
            && (SentCount(asks) <= 1 ==> next.log == room.log + asks)
            && (SentCount(asks) >= 2 ==>
                  room.log + asks <= next.log && next.phase == Game && next.quest == NextQuest(room.quest))
  {
    hide SeatsAgree;
    hide AskScores;
    hide AnswerScores;
    hide AnswerEvents;
    hide GamePacketFor;
    hide SentCount;
    hide AskEvents;
    hide AliveCount;
    var packet := GamePacketFor(room.score, room.quest, bank[(room.cursor + input.step) % |bank|]);
    var asks := AskEvents(room.score, input.sendOk, packet, |room.score|);
    assert AskPhase(bank, room, input).log == room.log + asks;
    assert (room.log + asks)[|room.log|..] == asks;
    SentCountOfAsks(room.score, input.sendOk, packet, |room.score|);
    AsksAreAsked(room.score, input.sendOk, packet, |room.score|);
  }

  lemma {:induction false} CountsOne(score: seq<int>, i: nat)
    requires i < |score| && score[i] > PLR_LOST
    ensures InGame(score) >= 1
  {
    if i < |score| - 1 {
      CountsOne(score[..|score| - 1], i);
    }
  }

  // How a finished game stands in every run: cut short, at most one player is left, and whoever is
  // has just been sent the last question; after the last round, all who are left have LAST_QUEST points.
  lemma GameOverStandings(bank: seq<UnitValue>, inputs: seq<Input>, i: nat)
    requires bank != [] && AllValid(inputs) && Reached(bank, inputs).phase == GameOver
    requires i < |Reached(bank, inputs).seats| && Reached(bank, inputs).score[i] > PLR_LOST
    ensures var room := Reached(bank, inputs);
            var trace := Project(room.log, i);
            if room.quest == 0 then room.score[i] == LAST_QUEST
            else
              && InGame(room.score) == 1 && room.score[i] == room.quest - 1
              && trace != [] && trace[|trace| - 1].Asked? && trace[|trace| - 1].ok
              && trace[|trace| - 1].packet.GamePacket? && trace[|trace| - 1].packet.questNum == room.quest
  {
    hide Project;
    var room := Reached(bank, inputs);
    var trace := Project(room.log, i);
    assert Agrees(room.phase, room.quest, room.score[i], Run(trace));
    CountsOne(room.score, i);
  }

  /** The passes through GAME that a game can still take. */
  function VisitsLeft(quest: nat): nat
    requires quest <= LAST_QUEST
  {
    if quest == 0 then 1 else LAST_QUEST + 2 - quest
  }

  // A pass through GAME ends the game or brings the next round.
  lemma RoundGoesOn(bank: seq<UnitValue>, room: Room, input: Input)
    requires bank != [] && Bounded(room) && room.phase == Game && ValidInput(input)
    ensures var next := GameStep(bank, room, input);
            next.phase == GameOver || (next.phase == Game && room.quest != 0 && next.quest == NextQuest(room.quest))
  {
  }

  // Whatever happens, a game that enters a round is over after a bounded number of passes; from the
  // first round that is 16.
  lemma {:induction false} GameEnds(bank: seq<UnitValue>, room: Room, inputs: seq<Input>) returns (k: nat)
    requires bank != [] && Inv(|bank|, room) && room.phase == Game
    requires forall i :: 0 <= i < |inputs| ==> ValidInput(inputs[i])
    requires |inputs| >= VisitsLeft(room.quest)
    ensures 1 <= k <= VisitsLeft(room.quest)
    ensures RunRoom(bank, room, inputs[..k]).phase == GameOver
    ensures forall j :: 0 <= j < k ==> RunRoom(bank, room, inputs[..j]).phase == Game
    decreases VisitsLeft(room.quest)
  {
    hide SeatsAgree;
    hide GameStep;
    var next := RoomStep(bank, room, inputs[0]);
    RoundGoesOn(bank, room, inputs[0]);
    StepKeeps(bank, room, inputs[0]);
    assert inputs[..1] == [inputs[0]] && inputs[..1][1..] == [] && inputs[..0] == [];
    if next.phase == GameOver {
      k := 1;
    } else {
      var m := GameEnds(bank, next, inputs[1..]);
      k := m + 1;
      assert inputs[..k][1..] == inputs[1..][..m];
      forall j | 0 <= j < k ensures RunRoom(bank, room, inputs[..j]).phase == Game {
        if j > 0 {
          assert inputs[..j][1..] == inputs[1..][..j - 1];
        }
      }
    }
  }

  /** The players who get this round's question, or only learn from it that they have lost. */
  function Listening(score: seq<int>): nat
  {
    if score == [] then 0
    else Listening(score[..|score| - 1]) + if score[|score| - 1] >= PLR_LOST then 1 else 0
  }

  lemma {:induction false} ReachedAreListening(score: seq<int>, sendOk: seq<bool>, k: nat)
    requires k <= |score| <= |sendOk|
    ensures AliveCount(score, sendOk, k) <= Listening(score[..k])
  {
    if k > 0 {
      ReachedAreListening(score, sendOk, k - 1);
      assert score[..k][..k - 1] == score[..k - 1];
    }
  }

  // A player who has lost is not listening once the next question has gone out.
  lemma {:induction false} ListeningAfterRound(score: seq<int>, sendOk: seq<bool>, answers: seq<Option<Byte>>,
                                               rans: Byte, k: nat)
    requires k <= |score| <= |sendOk| && |score| <= |answers|
    ensures Listening(AnswerScores(AskScores(score, sendOk), answers, rans)[..k]) <= InGame(score[..k])
  {
    if k > 0 {
      ListeningAfterRound(score, sendOk, answers, rans, k - 1);
      var after := AnswerScores(AskScores(score, sendOk), answers, rans);
      assert after[..k][..k - 1] == after[..k - 1] && score[..k][..k - 1] == score[..k - 1];
    }
  }

  // Once at most one player is in the game it is over within two passes, although those who have
  // just lost are counted once more.
  lemma OverWithinTwoVisits(bank: seq<UnitValue>, room: Room, first: Input, second: Input)
    requires bank != [] && Inv(|bank|, room) && room.phase == Game && InGame(room.score) <= 1
    requires ValidInput(first) && ValidInput(second)
    ensures var next := GameStep(bank, room, first);
            || next.phase == GameOver
            || (next.phase == Game && Bounded(next) && GameStep(bank, next, second).phase == GameOver)
  {
    hide Project;
    hide Run;
    var next := GameStep(bank, room, first);
    StepKeeps(bank, room, first);
    if next.phase != GameOver {
      var rans := bank[AskPhase(bank, room, first).cursor].rans;
      ListeningAfterRound(room.score, first.sendOk, first.answers, rans, |room.score|);
      assert room.score[..|room.score|] == room.score;
      assert next.score[..|next.score|] == next.score
          == AnswerScores(AskScores(room.score, first.sendOk), first.answers, rans);
      ReachedAreListening(next.score, second.sendOk, |next.score|);
    }
  }

  lemma {:induction false} TwoReached(score: seq<int>, sendOk: seq<bool>, i: nat, j: nat, k: nat)
    requires i < j < |score| <= |sendOk| && k <= |score|
    requires score[i] >= PLR_LOST && sendOk[i] && score[j] >= PLR_LOST && sendOk[j]
    ensures AliveCount(score, sendOk, k) >= (if k > i then 1 else 0) + (if k > j then 1 else 0)
  {
    if k > 0 {
      TwoReached(score, sendOk, i, j, k - 1);
    }
  }

  /** Somebody who has just lost is still there to get the packet that says so. */
  predicate JustLostReachable(score: seq<int>, sendOk: seq<bool>)
    requires |score| <= |sendOk|
  {
    exists l :: 0 <= l < |score| && score[l] == PLR_LOST && sendOk[l]
  }

  /** w is the only player left in the game. */
  predicate LastLeft(score: seq<int>, w: nat)
  {
    w < |score| && score[w] > PLR_LOST && forall l :: 0 <= l < |score| && l != w ==> score[l] <= PLR_LOST
  }

  lemma {:induction false} OnlyOneReached(score: seq<int>, sendOk: seq<bool>, w: nat, k: nat)
    requires k <= |score| <= |sendOk| && LastLeft(score, w) && !JustLostReachable(score, sendOk)
    ensures AliveCount(score, sendOk, k) == if w < k && sendOk[w] then 1 else 0
  {
    if k > 0 {
      OnlyOneReached(score, sendOk, w, k - 1);
    }
  }

  /** Seat id gets the question of this pass and answers it rightly. */
  predicate RightAnswer(bank: seq<UnitValue>, room: Room, input: Input, id: nat)
    requires bank != [] && ValidInput(input)
  {
    id < USER_COUNT && input.sendOk[id]
    && input.answers[id] == Some(bank[(room.cursor + input.step) % |bank|].rans)
  }

  // Staying last is not winning yet. The last player left is asked and judged once more exactly when
  // both they and somebody who has just lost can be reached; the game ends with them still in exactly
  // when all rounds are over, or they can be reached and nobody who has just lost can.
  lemma LastPlayerIsAskedAgainIff(bank: seq<UnitValue>, room: Room, input: Input, w: nat)
    requires bank != [] && Inv(|bank|, room) && room.phase == Game && ValidInput(input)
    requires LastLeft(room.score, w)
    ensures var next := GameStep(bank, room, input);
            var again := room.quest != 0 && input.sendOk[w] && JustLostReachable(room.score, input.sendOk);
            var before, after := Project(room.log, w), Project(next.log, w);
            && (again <==> |after| == |before| + 2 && after[|before|].Asked? && after[|before| + 1].Answered?)
            && (again ==>
                  && next.phase == Game
                  && next.score[w] == AnswerScore(room.score[w], input.answers[w], bank[next.cursor].rans))
            && (next.phase == GameOver && next.score[w] > PLR_LOST <==>
                  room.quest == 0 || (input.sendOk[w] && !JustLostReachable(room.score, input.sendOk)))
  {
    hide Project;
    hide SeatsAgree;
    hide AskEvents;
    hide AnswerEvents;
    hide GamePacketFor;
    if room.quest != 0 {
      if JustLostReachable(room.score, input.sendOk) {
        var l: nat :| l < |room.score| && room.score[l] == PLR_LOST && input.sendOk[l];
        if input.sendOk[w] {
          TwoReached(room.score, input.sendOk, if w < l then w else l, if w < l then l else w, |room.score|);
        }
      } else {
        OnlyOneReached(room.score, input.sendOk, w, |room.score|);
      }
      AskTrace(bank, room, input, w);
      var asked := AskPhase(bank, room, input);
      assert asked.score[w] == AskScore(room.score[w], input.sendOk[w]);
      AnswerTrace(asked, bank[asked.cursor].rans, input, w);
    }
  }

  lemma {:induction false} OnlyOneInGame(score: seq<int>, w: nat, k: nat)
    requires LastLeft(score, w) && k <= |score|
    ensures InGame(score[..k]) == if w < k then 1 else 0
  {
    if k > 0 {
      OnlyOneInGame(score, w, k - 1);
      assert score[..k][..k - 1] == score[..k - 1];
    }
  }

  lemma OutStaysOut(bank: seq<UnitValue>, room: Room, input: Input, w: nat)
    requires bank != [] && Bounded(room) && ValidInput(input) && w < |room.score|
    ensures var next := GameStep(bank, room, input);
            |next.score| == |room.score| && (room.score[w] <= PLR_LOST ==> next.score[w] <= PLR_LOST)
  {
  }

  // After a round that goes on, everybody but the last player left is out for good.
  lemma RoundWithLastPlayer(bank: seq<UnitValue>, room: Room, input: Input, w: nat)
    requires bank != [] && Inv(|bank|, room) && room.phase == Game && ValidInput(input)
    requires LastLeft(room.score, w) && GameStep(bank, room, input).phase == Game
    ensures var one := GameStep(bank, room, input);
            && room.quest != 0 && one.quest == NextQuest(room.quest)
            && |one.score| == |room.score| && Bounded(one)
            && (forall l :: 0 <= l < |one.score| && l != w ==> one.score[l] == PLR_DISCONNECT)
            && (one.score[w] > PLR_LOST <==> RightAnswer(bank, room, input, w))
  {
    hide Project;
    hide Run;
    forall l | 0 <= l < |room.score| ensures room.score[l] >= PLR_DISCONNECT {
      ScoresOfSeats(|bank|, room, l);
    }
  }

  /** The state at the end of a game that takes one or two more passes. */
  function WithinTwo(bank: seq<UnitValue>, room: Room, first: Input, second: Input): Room
    requires bank != [] && ValidInput(first) && ValidInput(second) && Bounded(room) && room.phase == Game
  {
    var one := GameStep(bank, room, first);
    if one.phase == GameOver then one else GameStep(bank, one, second)
  }

  // Whether staying last is winning, for the game as a whole. It ends within two passes, and the last
  // player left ends it still in exactly when no round was left; or the question reached them and
  // nobody who had just lost; or they answered it rightly, and it was the last or the next question
  // reached them too.
  lemma LastPlayerWinsIff(bank: seq<UnitValue>, room: Room, first: Input, second: Input, w: nat)
    requires bank != [] && Inv(|bank|, room) && room.phase == Game && ValidInput(first) && ValidInput(second)
    requires LastLeft(room.score, w)
    ensures var end := WithinTwo(bank, room, first, second);
            && end.phase == GameOver && |end.score| == |room.score|
            && (end.score[w] > PLR_LOST <==>
                  || room.quest == 0
                  || (first.sendOk[w] && !JustLostReachable(room.score, first.sendOk))
                  || (RightAnswer(bank, room, first, w) && (room.quest == LAST_QUEST || second.sendOk[w])))
  {
    hide SeatsAgree;
    hide GameStep;
    hide Project;
    OnlyOneInGame(room.score, w, |room.score|);
    assert room.score[..|room.score|] == room.score;
    OverWithinTwoVisits(bank, room, first, second);
    OutStaysOut(bank, room, first, w);
    LastPlayerIsAskedAgainIff(bank, room, first, w);
    StepKeeps(bank, room, first);
    var one := GameStep(bank, room, first);
    if one.phase == Game {
      RoundWithLastPlayer(bank, room, first, w);
      StepKeeps(bank, one, second);
      OutStaysOut(bank, one, second, w);
      if one.score[w] > PLR_LOST {
        LastPlayerIsAskedAgainIff(bank, one, second, w);
      }
    }
  }

  /** Seat id gets every question and answers it rightly, in each of the passes. */
  ghost predicate AlwaysRight(bank: seq<UnitValue>, room: Room, inputs: seq<Input>, id: nat)
    requires bank != [] && Inv(|bank|, room)
    requires forall i :: 0 <= i < |inputs| ==> ValidInput(inputs[i])
    decreases |inputs|
  {
    if inputs == [] then true
    else
      StepKeeps(bank, room, inputs[0]);
      RightAnswer(bank, room, inputs[0], id) && AlwaysRight(bank, RoomStep(bank, room, inputs[0]), inputs[1..], id)
  }

  // One round of two players who get the question and answer it rightly, whatever the others do.
  lemma RightAnswersCount(bank: seq<UnitValue>, room: Room, input: Input, i: nat, j: nat)
    requires bank != [] && Inv(|bank|, room) && room.phase == Game && room.quest != 0 && ValidInput(input)
    requires i < j < |room.seats| && room.score[i] > PLR_LOST && room.score[j] > PLR_LOST
    requires RightAnswer(bank, room, input, i) && RightAnswer(bank, room, input, j)
    ensures var next := GameStep(bank, room, input);
            && next.phase == Game && next.quest == NextQuest(room.quest) && |next.seats| == |room.seats|
            && next.score[i] == room.score[i] + 1 && next.score[j] == room.score[j] + 1
  {
    hide SeatsAgree;
    TwoReached(room.score, input.sendOk, i, j, |room.score|);
  }

  // Two players who always answer rightly play all rounds: after as many passes as there are rounds
  // left they stand at LAST_QUEST points with the game at its end.
  lemma {:induction false} AlwaysRightFinish(bank: seq<UnitValue>, room: Room, inputs: seq<Input>, i: nat, j: nat)
    requires bank != [] && Inv(|bank|, room) && room.phase == Game
    requires i < j < |room.seats| && room.score[i] > PLR_LOST && room.score[j] > PLR_LOST
    requires forall k :: 0 <= k < |inputs| ==> ValidInput(inputs[k])
    requires |inputs| == VisitsLeft(room.quest) - 1
    requires AlwaysRight(bank, room, inputs, i) && AlwaysRight(bank, room, inputs, j)
    ensures var last := RunRoom(bank, room, inputs);
            && last.phase == Game && last.quest == 0 && |last.seats| == |room.seats|
            && last.score[i] == last.score[j] == LAST_QUEST
    decreases |inputs|
  {
    hide SeatsAgree;
    hide GameStep;
    if inputs != [] {
      RightAnswersCount(bank, room, inputs[0], i, j);
      StepKeeps(bank, room, inputs[0]);
      AlwaysRightFinish(bank, RoomStep(bank, room, inputs[0]), inputs[1..], i, j);
    } else {
      ScoresOfSeats(|bank|, room, i);
      ScoresOfSeats(|bank|, room, j);
    }
  }

  // ----- the lobby -----

  /** The wait packets of seat id, for occupancies id + 1 to k, none of them lost. */
  function ExpectedWaits(seats: seq<Player>, size: nat, id: nat, k: nat): seq<Event>
    requires k <= |seats|
  {
    if k <= id then []
    else ExpectedWaits(seats, size, id, k - 1) + [Waited(id, WaitPacketFor(seats[..k], size, id), true)]
  }

  lemma {:induction false} ExpectedWaitsPrefix(seats: seq<Player>, more: seq<Player>, size: nat, id: nat, k: nat)
    requires k <= |seats|
    ensures ExpectedWaits(seats + more, size, id, k) == ExpectedWaits(seats, size, id, k)
  {
    if k > id {
      ExpectedWaitsPrefix(seats, more, size, id, k - 1);
      assert (seats + more)[..k] == seats[..k];
    }
  }

  predicate InLobby(room: Room)
  {
    room.phase == Wait || (room.phase == Game && room.quest == 1)
  }

  /** As long as no wait packet was lost, each seat got exactly the packets it should. */
  ghost predicate LobbyServed(room: Room)
  {
    InLobby(room) && |room.score| == |room.seats| && (forall i :: 0 <= i < |room.score| ==> room.score[i] == 0) ==>
      forall id: nat :: id < |room.seats| ==>
        Project(room.log, id) == ExpectedWaits(room.seats, room.size, id, |room.seats|)
  }

  // A wait packet that fails leaves its mark in the scores.
  lemma FailureShowsInScore(room: Room, input: Input)
    requires room.phase == Wait && Bounded(room) && ValidInput(input) && input.message.Some?
    ensures var next := WaitStep(room, input);
            var f := FirstFailure(input.sendOk, |next.seats|);
            if f < |next.seats| then next.score[f] == PLR_DISCONNECT else next.score == room.score + [0]
  {
  }

  lemma StepServesLobby(bank: seq<UnitValue>, room: Room, input: Input)
    requires bank != [] && Inv(|bank|, room) && LobbyServed(room) && ValidInput(input)
    ensures LobbyServed(RoomStep(bank, room, input))
  {
    hide Project;
    hide Run;
    var next := RoomStep(bank, room, input);
    var noneLost := forall i :: 0 <= i < |next.score| ==> next.score[i] == 0;
    if room.phase == Wait && input.message.Some? && InLobby(next) && noneLost {
      var n := |next.seats|;
      FailureShowsInScore(room, input);
      assert forall i :: 0 <= i < |room.score| ==> room.score[i] == next.score[i];
      forall id: nat | id < n
        ensures Project(next.log, id) == ExpectedWaits(next.seats, next.size, id, n)
      {
        WaitTrace(room, input, id);
        ExpectedWaitsPrefix(room.seats, [input.message.value.player], room.size, id, n - 1);
        assert next.seats[..n] == next.seats;
        if id == n - 1 {
          assert IsDone(room, id);
        }
      }
    } else if room.phase == Init && input.message.Some? {
      WaitEventsOf(next.seats, next.size, input.sendOk, 1, 0);
      if input.sendOk[0] {
        var e := Waited(0, WaitPacketFor(next.seats, next.size, 0), true);
        assert next.seats[..1] == next.seats;
        assert ExpectedWaits(next.seats, next.size, 0, 0) == [];
        assert ExpectedWaits(next.seats, next.size, 0, 1) == [] + [e];
        assert Project(next.log, 0) == [e];
      }
    }
  }

  lemma {:induction false} RunServesLobby(bank: seq<UnitValue>, room: Room, inputs: seq<Input>)
    requires bank != [] && Inv(|bank|, room) && LobbyServed(room)
    requires forall i :: 0 <= i < |inputs| ==> ValidInput(inputs[i])
    ensures LobbyServed(RunRoom(bank, room, inputs))
    decreases |inputs|
  {
    hide SeatsAgree;
    hide LobbyServed;
    hide RoomStep;
    if inputs != [] {
      StepKeeps(bank, room, inputs[0]);
      StepServesLobby(bank, room, inputs[0]);
      RunServesLobby(bank, RoomStep(bank, room, inputs[0]), inputs[1..]);
    }
  }

  // In every reachable room whose game has not asked its first question, if no wait packet was lost,
  // every seat saw the occupancies from its own up to the present one, in order, each once.
  lemma LobbyPackets(bank: seq<UnitValue>, inputs: seq<Input>, id: nat)
    requires bank != []
    requires forall i :: 0 <= i < |inputs| ==> ValidInput(inputs[i])
    requires InLobby(Reached(bank, inputs)) && id < |Reached(bank, inputs).seats|
    requires forall i :: 0 <= i < |Reached(bank, inputs).score| ==> Reached(bank, inputs).score[i] == 0
    ensures var room := Reached(bank, inputs);
            Project(room.log, id) == ExpectedWaits(room.seats, room.size, id, |room.seats|)
  {
    StartIsGood(bank);
    RunServesLobby(bank, Start(bank), inputs);
  }

  // The packet that starts the game reaches a seat exactly when no send up to it failed: one
  // failure leaves all later seats without it.
  lemma StartPacketIff(n: nat, room: Room, input: Input, id: nat)
    requires Inv(n, room) && room.phase == Wait && ValidInput(input) && input.message.Some?
    requires |room.seats| + 1 == room.size && id < room.size
    ensures var next := WaitStep(room, input);
            && next.phase == Game
            && (Project(next.log, id)
                == Project(room.log, id) + [Waited(id, WaitPacketFor(next.seats, room.size, id), true)]
                <==> forall j :: 0 <= j <= id ==> input.sendOk[j])
  {
    hide Project;
    hide Run;
    WaitTrace(room, input, id);
    var next := WaitStep(room, input);
    var f := FirstFailure(input.sendOk, |next.seats|);
    var e := Waited(id, WaitPacketFor(next.seats, room.size, id), true);
    if f <= id {
      assert !input.sendOk[f];
    }
    assert |Project(room.log, id) + [e]| == |Project(room.log, id)| + 1;
    assert (Project(room.log, id) + [e])[|Project(room.log, id)|] == e;
  }

  // ----- questions -----

  lemma {:induction false} WalkOnlyGrows(bank: seq<UnitValue>, room: Room, inputs: seq<Input>)
    requires bank != [] && Inv(|bank|, room)
    requires forall i :: 0 <= i < |inputs| ==> ValidInput(inputs[i])
    ensures room.walk <= RunRoom(bank, room, inputs).walk
    decreases |inputs|
  {
    hide SeatsAgree;
    if inputs != [] {
      StepKeeps(bank, room, inputs[0]);
      WalkOnlyGrows(bank, RoomStep(bank, room, inputs[0]), inputs[1..]);
    }
  }

  // The cursor is where the steps of all games so far have brought it, counted from the last question.
  lemma CursorIsModular(bank: seq<UnitValue>, inputs: seq<Input>)
    requires bank != []
    requires forall i :: 0 <= i < |inputs| ==> ValidInput(inputs[i])
    ensures var room := Reached(bank, inputs);
            room.cursor == (|bank| - 1 + RingWalk.Sum(room.walk)) % |bank|
  {
    var room := Reached(bank, inputs);
    assert room.walk[..|room.walk|] == room.walk;
  }

  // Two states of one run with rounds in between stand on different questions when the ring is
  // larger than the steps can lead round.
  lemma QuestionsDiffer(bank: seq<UnitValue>, inputs: seq<Input>, k: nat)
    requires bank != [] && k <= |inputs|
    requires forall i :: 0 <= i < |inputs| ==> ValidInput(inputs[i])
    ensures var early, late := Reached(bank, inputs[..k]), Reached(bank, inputs);
            && early.walk <= late.walk
            && (early.walk < late.walk && |bank| > RingWalk.MAX_STEP * (|late.walk| - |early.walk|) ==>
                  early.cursor != late.cursor)
  {
    StartIsGood(bank);
    RunSplits(bank, Start(bank), inputs, k);
    var early, late := Reached(bank, inputs[..k]), Reached(bank, inputs);
    WalkOnlyGrows(bank, early, inputs[k..]);
    if early.walk < late.walk && |bank| > RingWalk.MAX_STEP * (|late.walk| - |early.walk|) {
      assert late.walk[..|early.walk|] == early.walk[..|early.walk|];
      RingWalk.NoRepeatedQuestion(|bank|, late.walk, |early.walk|, |late.walk|);
    }
  }
}
