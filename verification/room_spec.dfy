/**
 What one pass through the room's state loop does, as a function of the room's state and of
 what the environment answers. The class in room.dfy is proved to compute this function, and
 the transition system in server.dfy takes its room steps from it.
 */
module RoomSpec {
  import opened Wrappers
  import opened CStrings
  import opened UnitText
  import opened Protocol
  import opened SeatTrace
  import opened MessageQueue
  import RingWalk

  datatype Phase = Init | Wait | Game | GameOver | Fin | Exit

  /**
   The state between two passes. The seats are the players of the current game, none before the
   first is seated and none after they are closed. The walk lists the steps of all rounds so far,
   the log the events since the last INIT.
   */
  datatype Room = Room(
    phase: Phase,
    size: nat,
    seats: seq<Player>,
    score: seq<int>,
    quest: nat,
    cursor: nat,
    walk: seq<nat>,
    log: seq<Event>)

  /**
   What the environment answers during one pass: the received message (none when msgrcv fails),
   whether a send to each seat succeeds, the value of rand() % MAX_STEP + 1, and the answer byte
   received from each seat (none when recv fails). A pass reads only what its phase asks for.
   */
  datatype Input = Input(message: Option<JoinInfo>, sendOk: seq<bool>, step: nat, answers: seq<Option<Byte>>)

  predicate ValidInput(input: Input)
  {
    && |input.sendOk| == USER_COUNT == |input.answers|
    && 1 <= input.step <= RingWalk.MAX_STEP
    && (input.message.Some? ==> ClientSize(input.message.value.roomSize))
  }

  function Start(bank: seq<UnitValue>): Room
    requires bank != []
  {
    Room(Init, 0, [], [], 1, |bank| - 1, [], [])
  }

  // ----- receiving -----

  predicate Receives(room: Room)
  {
    room.phase == Init || room.phase == Wait
  }

  /** The selector of the room's msgrcv. */
  function Selector(room: Room): int
  {
    if room.phase == Init then MSG_ROOM else MSG_JOIN
  }

  /** The room's pass does not block on the queue. */
  predicate CanPass(room: Room, queue: seq<Message>, queueOk: bool)
  {
    Receives(room) && queueOk ==> Select(queue, Selector(room)).Some?
  }

  /** What the room's msgrcv delivers from the queue. */
  function Delivery(room: Room, queue: seq<Message>, queueOk: bool): Option<JoinInfo>
    requires CanPass(room, queue, queueOk)
  {
    if Receives(room) && queueOk then
      WhatReceiversGet(queue);
      Some(queue[Select(queue, Selector(room)).value].info)
    else None
  }

  /** The queue after the room's msgrcv. */
  function Remaining(room: Room, queue: seq<Message>, queueOk: bool): seq<Message>
    requires CanPass(room, queue, queueOk)
  {
    if Receives(room) && queueOk then Without(queue, Select(queue, Selector(room)).value) else queue
  }

  /** The pass closes the players' connections. */
  predicate Closes(room: Room)
  {
    room.phase == GameOver || room.phase == Fin
  }

  // ----- seating -----

  /** The name table of a wait packet: the seated names, then empty slots. */
  function NameTable(seats: seq<Player>): (names: seq<Text>)
    ensures |names| == USER_COUNT
  {
    seq(USER_COUNT, i requires 0 <= i < USER_COUNT => if i < |seats| then seats[i].username else [])
  }

  function WaitPacketFor(seats: seq<Player>, size: nat, id: nat): Packet
  {
    WaitPacket(|seats|, size, id, NameTable(seats))
  }

  /** The first of the seats 0..n whose send fails, or n. */
  function FirstFailure(sendOk: seq<bool>, n: nat): (f: nat)
    requires n <= |sendOk|
    ensures f <= n && (f < n ==> !sendOk[f])
    ensures forall i :: 0 <= i < f ==> sendOk[i]
  {
    if n == 0 then 0
    else
      var f := FirstFailure(sendOk, n - 1);
      if f < n - 1 then f else if sendOk[n - 1] then n else n - 1
  }

  function WaitEvents(seats: seq<Player>, size: nat, sendOk: seq<bool>, k: nat): seq<Event>
    requires k <= |sendOk|
  {
    if k == 0 then []
    else WaitEvents(seats, size, sendOk, k - 1) + [Waited(k - 1, WaitPacketFor(seats, size, k - 1), sendOk[k - 1])]
  }

  function InitStep(room: Room, input: Input): Room
    requires ValidInput(input)
  {
    match input.message
    case None => room.(phase := Fin, size := 0, seats := [], score := [], quest := 1, log := [])
    case Some(info) =>
      var seats := [info.player];
      room.(
        phase := if input.sendOk[0] then Wait else Fin,
        size := info.roomSize,
        seats := seats,
        score := [0],
        quest := 1,
        log := WaitEvents(seats, info.roomSize, input.sendOk, 1))
  }

  /** The sends attempted: up to the first failure and including it. */
  function SendsTried(sendOk: seq<bool>, n: nat): (k: nat)
    requires n <= |sendOk|
    ensures k <= n
  {
    var f := FirstFailure(sendOk, n);
    if f < n then f + 1 else n
  }

  // The packets go out in seat order and stop at the first that fails.
  function WaitStep(room: Room, input: Input): Room
    requires ValidInput(input) && |room.seats| < USER_COUNT && |room.score| == |room.seats|
  {
    match input.message
    case None => room.(phase := Fin)
    case Some(info) =>
      var seats := room.seats + [info.player];
      var score := room.score + [0];
      var n := |seats|;
      var f := FirstFailure(input.sendOk, n);
      room.(
        phase := if n == room.size then Game else Wait,
        seats := seats,
        score := if f < n then score[f := PLR_DISCONNECT] else score,
        log := room.log + WaitEvents(seats, room.size, input.sendOk, SendsTried(input.sendOk, n)))
  }

  // ----- one round -----

  function GamePacketFor(score: seq<int>, quest: nat, question: UnitValue): Packet
  {
    GamePacket(ToBytes(score), quest, question.quest, question.ans)
  }

  /** A seat's score after the question was sent to those who still get one. */
  function AskScore(score: int, ok: bool): int
  {
    if score < PLR_LOST then score
    else if ok && score != PLR_LOST then score
    else PLR_DISCONNECT
  }

  function AskScores(score: seq<int>, sendOk: seq<bool>): (asked: seq<int>)
    requires |score| <= |sendOk|
    ensures |asked| == |score|
  {
    seq(|score|, i requires 0 <= i < |score| => AskScore(score[i], sendOk[i]))
  }

  function AskEvents(score: seq<int>, sendOk: seq<bool>, packet: Packet, k: nat): seq<Event>
    requires k <= |score| <= |sendOk|
  {
    if k == 0 then []
    else
      AskEvents(score, sendOk, packet, k - 1)
      + if score[k - 1] >= PLR_LOST then [Asked(k - 1, packet, sendOk[k - 1])] else []
  }

  /** The packets that went out, those to players who just lost included. */
  function AliveCount(score: seq<int>, sendOk: seq<bool>, k: nat): nat
    requires k <= |score| <= |sendOk|
  {
    if k == 0 then 0
    else AliveCount(score, sendOk, k - 1) + if score[k - 1] >= PLR_LOST && sendOk[k - 1] then 1 else 0
  }

  function AnswerScore(score: int, answer: Option<Byte>, rans: Byte): int
  {
    if score <= PLR_LOST then score
    else if answer == None then PLR_DISCONNECT
    else if answer == Some(rans) then score + 1
    else PLR_LOST
  }

  function AnswerScores(score: seq<int>, answers: seq<Option<Byte>>, rans: Byte): (next: seq<int>)
    requires |score| <= |answers|
    ensures |next| == |score|
  {
    seq(|score|, i requires 0 <= i < |score| => AnswerScore(score[i], answers[i], rans))
  }

  function AnswerEvents(score: seq<int>, answers: seq<Option<Byte>>, rans: Byte, k: nat): seq<Event>
    requires k <= |score| <= |answers|
  {
    if k == 0 then []
    else
      AnswerEvents(score, answers, rans, k - 1)
      + if score[k - 1] > PLR_LOST then [Answered(k - 1, answers[k - 1], rans)] else []
  }

  /** The round after the given one; 0 stands for the end of the game. */
  function NextQuest(quest: nat): nat
  {
    if quest == LAST_QUEST then 0 else quest + 1
  }

  // Walks to the next question and sends it; players who just lost get this one packet and no more.
  function AskPhase(bank: seq<UnitValue>, room: Room, input: Input): Room
    requires bank != [] && ValidInput(input) && |room.score| <= USER_COUNT
  {
    var cursor := (room.cursor + input.step) % |bank|;
    var packet := GamePacketFor(room.score, room.quest, bank[cursor]);
    room.(
      cursor := cursor,
      walk := room.walk + [input.step],
      score := AskScores(room.score, input.sendOk),
      log := room.log + AskEvents(room.score, input.sendOk, packet, |room.score|))
  }

  function AnswerPhase(room: Room, rans: Byte, input: Input): Room
    requires ValidInput(input) && |room.score| <= USER_COUNT
  {
    room.(
      score := AnswerScores(room.score, input.answers, rans),
      quest := NextQuest(room.quest),
      log := room.log + AnswerEvents(room.score, input.answers, rans, |room.score|))
  }

  function GameStep(bank: seq<UnitValue>, room: Room, input: Input): Room
    requires bank != [] && ValidInput(input) && |room.score| <= USER_COUNT
  {
    if room.quest == 0 then room.(phase := GameOver)
    else
      var asked := AskPhase(bank, room, input);
      if AliveCount(room.score, input.sendOk, |room.score|) <= 1 then asked.(phase := GameOver)
      else AnswerPhase(asked, bank[asked.cursor].rans, input)
  }

  // ----- the end -----

  function CloseEvents(k: nat): seq<Event>
  {
    if k == 0 then [] else CloseEvents(k - 1) + [Closed(k - 1)]
  }

  function CloseStep(room: Room, next: Phase): Room
  {
    room.(phase := next, seats := [], score := [], log := room.log + CloseEvents(|room.seats|))
  }

  /** The arrays are large enough for the next pass. */
  predicate Bounded(room: Room)
  {
    && |room.score| == |room.seats| <= USER_COUNT
    && (room.phase == Wait ==> |room.seats| < USER_COUNT)
  }

  /** One pass through the loop. */
  function RoomStep(bank: seq<UnitValue>, room: Room, input: Input): Room
    requires bank != [] && ValidInput(input) && Bounded(room)
  {
    match room.phase
    case Init => InitStep(room, input)
    case Wait => WaitStep(room, input)
    case Game => GameStep(bank, room, input)
    case GameOver => CloseStep(room, Init)
    case Fin => CloseStep(room, Exit)
    case Exit => room
  }
}
