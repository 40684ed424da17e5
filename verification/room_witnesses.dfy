/**
 Runs from the start of a room that lead to the states in which the code departs from its
 documents, so that those departures are not claims about states nobody can reach; and one that
 goes on to a second game.
 */
module RoomWitnesses {
  import opened Wrappers
  import opened CStrings
  import opened UnitText
  import opened Protocol
  import opened SeatTrace
  import opened RoomSpec
  import opened RoomInvariant
  import opened RoomTheorems
  import opened RoomLaws
  import Client

  /** A message arrives, and the first seat can be reached or not. */
  function Seating(create: bool, player: Player, firstOk: bool): (input: Input)
    ensures ValidInput(input)
  {
    Input(Some(JoinInfo(create, 2, player)), [firstOk, true, true, true], 1, [None, None, None, None])
  }

  /** A round in which everybody is reached and the first two seats give these answers. */
  function Round(first: Byte, second: Byte): (input: Input)
    ensures ValidInput(input)
  {
    Input(None, [true, true, true, true], 1, [Some(first), Some(second), None, None])
  }

  lemma NothingReached(bank: seq<UnitValue>)
    requires bank != []
    ensures RunsTo(bank, [], Start(bank))
  {
    StartIsGood(bank);
  }

  // A room waiting for two players, with the opener seated.
  lemma OpenedRun(bank: seq<UnitValue>, opener: Player) returns (inputs: seq<Input>)
    requires bank != []
    ensures AllValid(inputs)
    ensures var room := Reached(bank, inputs);
            room.phase == Wait && room.size == 2 && room.seats == [opener] && room.score == [0] && room.quest == 1
            && room.walk == []
  {
    hide SeatsAgree;
    NothingReached(bank);
    inputs := [] + [Seating(true, opener, true)];
    ReachedSnoc(bank, [], Seating(true, opener, true));
  }

  // A full room before its first question, both players in the game.
  lemma FullRun(bank: seq<UnitValue>, opener: Player, joiner: Player) returns (inputs: seq<Input>)
    requires bank != []
    ensures AllValid(inputs)
    ensures var room := Reached(bank, inputs);
            room.phase == Game && room.quest == 1 && room.seats == [opener, joiner] && room.score == [0, 0]
            && room.walk == []
  {
    hide SeatsAgree;
    var waiting := OpenedRun(bank, opener);
    var input := Seating(false, joiner, true);
    ReachedSnoc(bank, waiting, input);
    inputs := waiting + [input];
    var room := Reached(bank, waiting);
    assert FirstFailure(input.sendOk, 2) == 2;
    assert WaitStep(room, input).score == [0, 0];
  }

  // In some run two players are in the game, and the question about to be sent makes both clients
  // take it for over.
  lemma BothLookLost(bank: seq<UnitValue>, opener: Player, joiner: Player) returns (inputs: seq<Input>)
    requires bank != []
    ensures AllValid(inputs)
    ensures var room := Reached(bank, inputs);
            && room.phase == Game && room.quest == 1 && room.score == [0, 0]
            && forall question: UnitValue, id: nat :: id < 2 ==>
                 Client.UnitCode(GamePacketFor(room.score, room.quest, question), id) == Client.GAME_OVER
  {
    hide SeatsAgree;
    inputs := FullRun(bank, opener, joiner);
    var room := Reached(bank, inputs);
    forall question: UnitValue, id: nat | id < 2
      ensures Client.UnitCode(GamePacketFor(room.score, room.quest, question), id) == Client.GAME_OVER
    {
      Client.FirstQuestionLooksLost(|bank|, room, question, id);
    }
  }

  // A byte that is not the key.
  function OtherThan(key: Byte): Byte
  {
    if key == 0 then 1 else 0
  }

  // In some run one player is left and the other has just lost and can be reached.
  lemma OneLeftRun(bank: seq<UnitValue>, opener: Player, joiner: Player) returns (inputs: seq<Input>)
    requires bank != []
    ensures AllValid(inputs)
    ensures var room := Reached(bank, inputs);
            && room.phase == Game && room.quest == 2 && room.seats == [opener, joiner] && room.score == [1, PLR_LOST]
            && LastLeft(room.score, 0)
  {
    hide SeatsAgree;
    var full := FullRun(bank, opener, joiner);
    var room := Reached(bank, full);
    var key := bank[(room.cursor + 1) % |bank|].rans;
    var input := Round(key, OtherThan(key));
    ReachedSnoc(bank, full, input);
    inputs := full + [input];
    TwoReached(room.score, input.sendOk, 0, 1, 2);
    assert AskScores(room.score, input.sendOk) == [0, 0];
    assert AnswerScores([0, 0], input.answers, key) == [1, PLR_LOST];
  }

  lemma {:induction false} NobodyInGame(score: seq<int>)
    requires forall i :: 0 <= i < |score| ==> score[i] <= PLR_LOST
    ensures InGame(score) == 0
  {
    if score != [] {
      NobodyInGame(score[..|score| - 1]);
    }
  }

  // In some run the player who was last in the game loses it in the round after.
  lemma LastPlayerLoses(bank: seq<UnitValue>, opener: Player, joiner: Player) returns (before: seq<Input>, input: Input)
    requires bank != []
    ensures AllValid(before) && ValidInput(input) && AllValid(before + [input])
    ensures LastLeft(Reached(bank, before).score, 0) && Reached(bank, before).phase == Game
    ensures var room := Reached(bank, before + [input]);
            room.phase == Game && room.score == [PLR_LOST, PLR_DISCONNECT] && InGame(room.score) == 0
  {
    hide SeatsAgree;
    before := OneLeftRun(bank, opener, joiner);
    var room := Reached(bank, before);
    var key := bank[(room.cursor + 1) % |bank|].rans;
    input := Round(OtherThan(key), key);
    ReachedSnoc(bank, before, input);
    TwoReached(room.score, input.sendOk, 0, 1, 2);
    assert AskScores(room.score, input.sendOk) == [1, PLR_DISCONNECT];
    assert AnswerScores([1, PLR_DISCONNECT], input.answers, key) == [PLR_LOST, PLR_DISCONNECT];
    NobodyInGame([PLR_LOST, PLR_DISCONNECT]);
  }

  // In some run the game starts and the second player was never sent anything at all, because the
  // send to the first one failed.
  lemma StartPacketNeverSent(bank: seq<UnitValue>, opener: Player, joiner: Player) returns (inputs: seq<Input>)
    requires bank != []
    ensures AllValid(inputs)
    ensures var room := Reached(bank, inputs);
            && room.phase == Game && room.seats == [opener, joiner] && room.score == [PLR_DISCONNECT, 0]
            && Project(room.log, 1) == []
  {
    hide Project;
    hide Run;
    var waiting := OpenedRun(bank, opener);
    var room := Reached(bank, waiting);
    var input := Seating(false, joiner, false);
    ReachedSnoc(bank, waiting, input);
    inputs := waiting + [input];
    assert FirstFailure(input.sendOk, 2) == 0;
    WaitTrace(room, input, 1);
    assert IsDone(room, 1);
  }

  // In some run the room could not reach the player who opened it, and still keeps 0 for them.
  lemma OpenerNotReached(bank: seq<UnitValue>, opener: Player) returns (inputs: seq<Input>)
    requires bank != []
    ensures AllValid(inputs) && FirstSendFailed(bank, inputs)
    ensures var room := Reached(bank, inputs);
            && room.phase == Fin && room.seats == [opener] && room.score == [0]
            && ClosedForm(Project(room.log, 0)) == PLR_DISCONNECT
  {
    hide SeatsAgree;
    NothingReached(bank);
    var input := Seating(true, opener, false);
    inputs := [] + [input];
    ReachedSnoc(bank, [], input);
    assert inputs[..|inputs| - 1] == [];
    ScoreFollowsTraceIff(bank, inputs, 0);
  }

  // In some run a game ends with the opener left, and the room goes on: it seats the opener of a
  // second game, with the cursor where the first game left it.
  lemma SecondGameRun(bank: seq<UnitValue>, opener: Player, joiner: Player, third: Player)
    returns (ended: seq<Input>, inputs: seq<Input>)
    requires bank != []
    ensures AllValid(ended) && AllValid(inputs)
    ensures var over := Reached(bank, ended);
            over.phase == GameOver && over.seats == [opener, joiner] && over.score == [0, -2] && |over.walk| == 1
    ensures ended < inputs
    ensures var over, room := Reached(bank, ended), Reached(bank, inputs);
            && room.phase == Wait && room.seats == [third] && room.score == [0] && room.quest == 1
            && room.cursor == over.cursor && room.walk == over.walk
  {
    hide SeatsAgree;
    hide RoomStep;
    var full := FullRun(bank, opener, joiner);
    var room := Reached(bank, full);
    var round := Input(None, [true, false, true, true], 3, [None, None, None, None]);
    ReachedSnoc(bank, full, round);
    RoundStateLaw(bank, room, round);
    ended := full + [round];
    var over := Reached(bank, ended);
    assert over.score == [0, -2];

    var pass := Round(0, 0);
    ReachedSnoc(bank, ended, pass);
    QuietPassLaw(bank, over, pass);
    PhaseLaw(bank, ended, pass);
    var again := Seating(true, third, true);
    ReachedSnoc(bank, ended + [pass], again);
    InitPassLaw(bank, Reached(bank, ended + [pass]), again);
    inputs := ended + [pass] + [again];
  }
}
