/**
 What each pass of the room does, said without the functions that compute it: which phase follows,
 which message is taken, and every field of every packet that goes out. The numbers are written as
 the source has them.
 */
module RoomLaws {
  import opened Wrappers
  import opened CStrings
  import opened UnitText
  import opened Protocol
  import opened MessageQueue
  import opened SeatTrace
  import opened RoomSpec
  import opened RoomInvariant
  import opened RoomTheorems
  import RingWalk

  // ----- receiving -----

  predicate IsJoin(m: Message)
  {
    m.Request? && !m.info.create
  }

  // When a room blocks: in INIT while no request at all is queued, in WAIT while no join is.
  lemma RoomBlocksIff(room: Room, queue: seq<Message>, queueOk: bool)
    ensures !CanPass(room, queue, queueOk) <==>
              && queueOk
              && ((room.phase == Init && forall i :: 0 <= i < |queue| ==> !queue[i].Request?)
                  || (room.phase == Wait && forall i :: 0 <= i < |queue| ==> !IsJoin(queue[i])))
  {
  }

  lemma FirstOfAll(queue: seq<Message>, selector: int, i: nat)
    requires selector != 0 && i < |queue| && MustDeliver(queue, selector, i)
    ensures forall j :: 0 <= j < i && Matches(queue[j], selector) ==> TypeOf(queue[j]) > TypeOf(queue[i])
    ensures forall j :: 0 <= j < |queue| && Matches(queue[j], selector) ==> TypeOf(queue[i]) <= TypeOf(queue[j])
    ensures Matches(queue[i], selector)
  {
  }

  // What a room takes: in WAIT the oldest join; in INIT the oldest join if there is one, else the
  // oldest request to create. In other phases, and when the queue fails, it takes nothing.
  lemma RoomTakes(room: Room, queue: seq<Message>, queueOk: bool) returns (i: nat)
    requires CanPass(room, queue, queueOk)
    ensures queueOk && room.phase in {Init, Wait} ==>
              && i < |queue| && Delivery(room, queue, queueOk).Some?
              && queue[i] == Request(Delivery(room, queue, queueOk).value)
              && Remaining(room, queue, queueOk) == queue[..i] + queue[i + 1..]
              && if room.phase == Init && forall j :: 0 <= j < |queue| ==> !IsJoin(queue[j]) then
                   forall j :: 0 <= j < i ==> !queue[j].Request?
                 else
                   IsJoin(queue[i]) && forall j :: 0 <= j < i ==> !IsJoin(queue[j])
    ensures !(queueOk && room.phase in {Init, Wait}) ==>
              Delivery(room, queue, queueOk) == None && Remaining(room, queue, queueOk) == queue
  {
    hide MustDeliver;
    WhatReceiversGet(queue);
    i := 0;
    if queueOk && room.phase in {Init, Wait} {
      i := Select(queue, Selector(room)).value;
      assert MustDeliver(queue, Selector(room), i);
      FirstOfAll(queue, Selector(room), i);
    }
  }

  // ----- wait packets -----

  /** The packet tells seat id of a room of this size that the given players are in it. */
  predicate TellsSeated(packet: Packet, id: nat, size: nat, players: seq<Player>)
  {
    && packet.WaitPacket? && packet.id == id && packet.roomSize == size && packet.occupancy == |players|
    && |packet.usernames| == 4
    && forall j :: 0 <= j < 4 ==> packet.usernames[j] == if j < |players| then players[j].username else []
  }

  lemma NamesOf(seats: seq<Player>)
    ensures forall j :: 0 <= j < 4 ==> NameTable(seats)[j] == if j < |seats| then seats[j].username else []
  {
  }

  lemma {:induction false} WaitEventsAt(seats: seq<Player>, size: nat, sendOk: seq<bool>, k: nat)
    requires k <= |sendOk|
    ensures var events := WaitEvents(seats, size, sendOk, k);
            && |events| == k
            && forall i :: 0 <= i < k ==>
                 events[i].Waited? && events[i].id == i && events[i].ok == sendOk[i]
                 && TellsSeated(events[i].packet, i, size, seats)
  {
    hide NameTable;
    NamesOf(seats);
    if k > 0 {
      WaitEventsAt(seats, size, sendOk, k - 1);
    }
  }

  // A pass through INIT: one player seated and told, or nobody.
  lemma InitPassLaw(bank: seq<UnitValue>, room: Room, input: Input)
    requires bank != [] && Inv(|bank|, room) && room.phase == Init && ValidInput(input)
    ensures var next := RoomStep(bank, room, input);
            && next.cursor == room.cursor && next.walk == room.walk && next.quest == 1
            && match input.message {
                 case None => next.phase == Fin && next.seats == [] && next.log == []
                 case Some(info) =>
                   && next.phase == (if input.sendOk[0] then Wait else Fin)
                   && next.seats == [info.player] && next.size == info.roomSize && next.score == [0]
                   && |next.log| == 1 && next.log[0].Waited? && next.log[0].id == 0
                   && next.log[0].ok == input.sendOk[0]
                   && TellsSeated(next.log[0].packet, 0, info.roomSize, [info.player])
               }
  {
    hide SeatsAgree;
    if input.message.Some? {
      WaitEventsAt([input.message.value.player], input.message.value.roomSize, input.sendOk, 1);
    }
  }

  // A pass through WAIT: the next player seated, and everybody told in seat order up to the first
  // who cannot be reached and is marked; or the end of the room.
  lemma WaitPassLaw(bank: seq<UnitValue>, room: Room, input: Input) returns (sent: nat)
    requires bank != [] && Inv(|bank|, room) && room.phase == Wait && ValidInput(input)
    ensures input.message == None ==> RoomStep(bank, room, input) == room.(phase := Fin)
    ensures input.message.Some? ==>
              var next, n := RoomStep(bank, room, input), |room.seats| + 1;
              && next.seats == room.seats + [input.message.value.player] && next.size == room.size
              && next.phase == (if n == room.size then Game else Wait)
              && next.quest == room.quest && next.cursor == room.cursor && next.walk == room.walk
              && 1 <= sent <= n && (forall k :: 0 <= k < sent - 1 ==> input.sendOk[k])
              && (sent < n ==> !input.sendOk[sent - 1])
              && room.log <= next.log && |next.log| == |room.log| + sent
              && (forall k :: |room.log| <= k < |next.log| ==>
                    && next.log[k].Waited? && next.log[k].id == k - |room.log|
                    && next.log[k].ok == input.sendOk[k - |room.log|]
                    && TellsSeated(next.log[k].packet, k - |room.log|, room.size, next.seats))
              && |next.score| == n
              && forall k :: 0 <= k < n ==>
                   next.score[k] == if k == sent - 1 && !input.sendOk[k] then -2
                                    else if k == n - 1 then 0 else room.score[k]
  {
    hide SeatsAgree;
    hide WaitEvents;
    hide TellsSeated;
    sent := 0;
    if input.message.Some? {
      var seats := room.seats + [input.message.value.player];
      sent := SendsTried(input.sendOk, |seats|);
      WaitEventsAt(seats, room.size, input.sendOk, sent);
    }
  }

  /** All wait packets of the log are of these players' game. */
  predicate WaitsTell(log: seq<Event>, size: nat, players: seq<Player>)
  {
    forall e :: e in log && e.Waited? ==>
      && e.packet.WaitPacket? && e.id < e.packet.occupancy <= |players|
      && TellsSeated(e.packet, e.id, size, players[..e.packet.occupancy])
  }

  lemma OccupancyTold(packet: Packet, id: nat, size: nat, players: seq<Player>)
    requires TellsSeated(packet, id, size, players)
    ensures packet.WaitPacket? && packet.occupancy == |players|
  {
  }

  lemma WaitsTellOn(bank: seq<UnitValue>, room: Room, input: Input)
    requires bank != [] && Inv(|bank|, room) && room.phase == Wait && ValidInput(input) && input.message.Some?
    requires WaitsTell(room.log, room.size, room.seats)
    ensures var next := RoomStep(bank, room, input); WaitsTell(next.log, next.size, next.seats)
  {
    hide SeatsAgree;
    hide TellsSeated;
    hide RoomStep;
    var sent := WaitPassLaw(bank, room, input);
    var next, n := RoomStep(bank, room, input), |room.seats| + 1;
    forall e | e in next.log && e.Waited?
      ensures e.packet.WaitPacket? && e.id < e.packet.occupancy <= n
      ensures TellsSeated(e.packet, e.id, next.size, next.seats[..e.packet.occupancy])
    {
      if e in room.log {
        assert next.seats[..e.packet.occupancy] == room.seats[..e.packet.occupancy];
      } else {
        var i: nat :| i < |next.log| && next.log[i] == e;
        OccupancyTold(e.packet, i - |room.log|, room.size, next.seats);
        assert next.seats[..n] == next.seats;
      }
    }
  }

  /** The log's wait packets are of the game that is on, or of the one that was closed last. */
  ghost predicate WaitsAreTold(room: Room)
  {
    exists players :: (room.seats == [] || room.seats == players) && WaitsTell(room.log, room.size, players)
  }

  // ----- a round -----

  /** One event a seat, from the first seat on. */
  predicate InOrder(events: seq<Event>, k: nat)
  {
    && (forall a :: 0 <= a < |events| ==> events[a].id < k)
    && forall a, b :: 0 <= a < b < |events| ==> events[a].id < events[b].id
  }

  lemma NoneInOrder(k: nat)
    ensures InOrder([], k)
  {
  }

  lemma OneMoreInOrder(before: seq<Event>, k: nat, last: seq<Event>)
    requires InOrder(before, k) && |last| <= 1 && (last != [] ==> last[0].id == k)
    ensures InOrder(before + last, k + 1)
  {
  }

  // The questions of a round go out in seat order, one to each seat not yet given up.
  lemma {:induction false} AsksOfSeats(score: seq<int>, sendOk: seq<bool>, packet: Packet, k: nat)
    requires k <= |score| <= |sendOk|
    ensures var events := AskEvents(score, sendOk, packet, k);
            && (forall e :: e in events ==> e.id < k && score[e.id] >= -1 && e == Asked(e.id, packet, sendOk[e.id]))
            && (forall i :: 0 <= i < k && score[i] >= -1 ==> Asked(i, packet, sendOk[i]) in events)
  {
    if k > 0 {
      AsksOfSeats(score, sendOk, packet, k - 1);
    }
  }

  lemma {:induction false} AsksInOrder(score: seq<int>, sendOk: seq<bool>, packet: Packet, k: nat)
    requires k <= |score| <= |sendOk|
    ensures InOrder(AskEvents(score, sendOk, packet, k), k)
  {
    if k > 0 {
      AsksInOrder(score, sendOk, packet, k - 1);
      OneMoreInOrder(AskEvents(score, sendOk, packet, k - 1), k - 1,
                     if score[k - 1] >= -1 then [Asked(k - 1, packet, sendOk[k - 1])] else []);
    }
  }

  // The answers are taken in seat order, one from each seat still in.
  lemma {:induction false} AnswersOfSeats(score: seq<int>, answers: seq<Option<Byte>>, rans: Byte, k: nat)
    requires k <= |score| <= |answers|
    ensures var events := AnswerEvents(score, answers, rans, k);
            && (forall e :: e in events ==> e.id < k && score[e.id] > -1 && e == Answered(e.id, answers[e.id], rans))
            && (forall i :: 0 <= i < k && score[i] > -1 ==> Answered(i, answers[i], rans) in events)
  {
    if k > 0 {
      AnswersOfSeats(score, answers, rans, k - 1);
    }
  }

  lemma {:induction false} AnswersInOrder(score: seq<int>, answers: seq<Option<Byte>>, rans: Byte, k: nat)
    requires k <= |score| <= |answers|
    ensures InOrder(AnswerEvents(score, answers, rans, k), k)
  {
    if k > 0 {
      AnswersInOrder(score, answers, rans, k - 1);
      OneMoreInOrder(AnswerEvents(score, answers, rans, k - 1), k - 1,
                     if score[k - 1] > -1 then [Answered(k - 1, answers[k - 1], rans)] else []);
    }
  }

  /** Two different seats get this round's packet. */
  predicate TwoGetIt(score: seq<int>, sendOk: seq<bool>)
    requires |score| <= |sendOk|
  {
    exists i, j :: 0 <= i < j < |score| && score[i] >= -1 && sendOk[i] && score[j] >= -1 && sendOk[j]
  }

  lemma {:induction false} AliveSeat(score: seq<int>, sendOk: seq<bool>, k: nat) returns (i: nat)
    requires k <= |score| <= |sendOk| && AliveCount(score, sendOk, k) >= 1
    ensures i < k && score[i] >= -1 && sendOk[i]
    ensures AliveCount(score, sendOk, i) == AliveCount(score, sendOk, k) - 1
  {
    if score[k - 1] >= -1 && sendOk[k - 1] {
      i := k - 1;
    } else {
      i := AliveSeat(score, sendOk, k - 1);
    }
  }

  lemma AliveMeansTwo(score: seq<int>, sendOk: seq<bool>)
    requires |score| <= |sendOk|
    ensures AliveCount(score, sendOk, |score|) >= 2 <==> TwoGetIt(score, sendOk)
  {
    if AliveCount(score, sendOk, |score|) >= 2 {
      var j := AliveSeat(score, sendOk, |score|);
      var i := AliveSeat(score, sendOk, j);
    }
    if TwoGetIt(score, sendOk) {
      var i: nat, j: nat :| i < j < |score| && score[i] >= -1 && sendOk[i] && score[j] >= -1 && sendOk[j];
      TwoReached(score, sendOk, i, j, |score|);
    }
  }

  /** The packet carries the question, the round and the scores of all seats. */
  predicate Carries(packet: Packet, question: UnitValue, round: nat, score: seq<int>)
  {
    && packet.GamePacket? && packet.questNum == round
    && packet.quest == question.quest
    && |packet.ans| == |question.ans| && (forall i :: 0 <= i < |question.ans| ==> packet.ans[i] == question.ans[i])
    && |packet.score| == |score| && forall j :: 0 <= j < |score| ==> FromByte(packet.score[j]) == score[j]
  }

  lemma GamePacketCarries(n: nat, room: Room, question: UnitValue)
    requires Inv(n, room) && room.phase == Game
    ensures Carries(GamePacketFor(room.score, room.quest, question), question, room.quest, room.score)
  {
    hide SeatsAgree;
    forall j | 0 <= j < |room.score|
      ensures FromByte(GamePacketFor(room.score, room.quest, question).score[j]) == room.score[j]
    {
      ScoresOfSeats(n, room, j);
      ByteRoundTrip(room.score[j]);
    }
  }

  // What goes over the wire in a round: first the same packet, with the question the walk leads to,
  // to every seat not given up; then, when at least two got it, an answer from everybody still in.
  lemma RoundEventsLaw(bank: seq<UnitValue>, room: Room, input: Input)
    returns (packet: Packet, asks: seq<Event>, answers: seq<Event>)
    requires bank != [] && Inv(|bank|, room) && room.phase == Game && room.quest != 0 && ValidInput(input)
    ensures var next := RoomStep(bank, room, input);
            var question := bank[(room.cursor + input.step) % |bank|];
            && next.log == room.log + asks + answers
            && Carries(packet, question, room.quest, room.score)
            && (forall e :: e in asks ==>
                  e.id < |room.score| && room.score[e.id] >= -1 && e == Asked(e.id, packet, input.sendOk[e.id]))
            && (forall i :: 0 <= i < |room.score| && room.score[i] >= -1 ==> Asked(i, packet, input.sendOk[i]) in asks)
            && InOrder(asks, |room.score|)
            && (!TwoGetIt(room.score, input.sendOk) ==> answers == [])
            && (forall e :: e in answers ==>
                  && e.id < |room.score| && room.score[e.id] > -1 && input.sendOk[e.id]
                  && e == Answered(e.id, input.answers[e.id], question.rans))
            && (TwoGetIt(room.score, input.sendOk) ==>
                  forall i :: 0 <= i < |room.score| && room.score[i] > -1 && input.sendOk[i] ==>
                    Answered(i, input.answers[i], question.rans) in answers)
            && InOrder(answers, |room.score|)
  {
    hide SeatsAgree;
    hide GamePacketFor;
    hide Carries;
    hide TwoGetIt;
    hide InOrder;
    hide AskEvents;
    hide AnswerEvents;
    hide AliveCount;
    var question := bank[(room.cursor + input.step) % |bank|];
    packet := GamePacketFor(room.score, room.quest, question);
    asks := AskEvents(room.score, input.sendOk, packet, |room.score|);
    var asked := AskScores(room.score, input.sendOk);
    answers := if AliveCount(room.score, input.sendOk, |room.score|) <= 1 then []
               else AnswerEvents(asked, input.answers, question.rans, |asked|);
    GamePacketCarries(|bank|, room, question);
    AsksOfSeats(room.score, input.sendOk, packet, |room.score|);
    AsksInOrder(room.score, input.sendOk, packet, |room.score|);
    AnswersOfSeats(asked, input.answers, question.rans, |asked|);
    AnswersInOrder(asked, input.answers, question.rans, |asked|);
    AliveMeansTwo(room.score, input.sendOk);
    NoneInOrder(|room.score|);
    assert room.log + asks + [] == room.log + asks;
  }

  // What a round leaves behind: the walk one step on, every seat's score, and where the game stands.
  lemma RoundStateLaw(bank: seq<UnitValue>, room: Room, input: Input)
    requires bank != [] && Inv(|bank|, room) && room.phase == Game && room.quest != 0 && ValidInput(input)
    ensures var next, c := RoomStep(bank, room, input), (room.cursor + input.step) % |bank|;
            var goesOn := TwoGetIt(room.score, input.sendOk);
            && next.cursor == c && next.walk == room.walk + [input.step]
            && next.seats == room.seats && next.size == room.size
            && next.phase == (if goesOn then Game else GameOver)
            && next.quest == (if !goesOn then room.quest else if room.quest == 15 then 0 else room.quest + 1)
            && |next.score| == |room.score|
            && forall i :: 0 <= i < |room.score| ==>
                 next.score[i] ==
                   if room.score[i] < 0 || !input.sendOk[i] then -2
                   else if !goesOn then room.score[i]
                   else if input.answers[i] == None then -2
                   else if input.answers[i].value == bank[c].rans then room.score[i] + 1
                   else -1
  {
    hide SeatsAgree;
    hide TwoGetIt;
    hide AskEvents;
    hide AnswerEvents;
    hide GamePacketFor;
    AliveMeansTwo(room.score, input.sendOk);
    forall i | 0 <= i < |room.score| ensures room.score[i] >= -2 {
      ScoresOfSeats(|bank|, room, i);
    }
  }

  lemma {:induction false} ClosesAt(n: nat)
    ensures |CloseEvents(n)| == n && forall i :: 0 <= i < n ==> CloseEvents(n)[i] == Closed(i)
  {
    if n > 0 {
      ClosesAt(n - 1);
    }
  }

  // The other passes: the last round played, the two that close, and none after the end.
  lemma QuietPassLaw(bank: seq<UnitValue>, room: Room, input: Input)
    requires bank != [] && Inv(|bank|, room) && ValidInput(input)
    ensures var next := RoomStep(bank, room, input);
            && (room.phase == Game && room.quest == 0 ==> next == room.(phase := GameOver))
            && (room.phase == Exit ==> next == room)
            && (room.phase in {GameOver, Fin} ==>
                  && next.seats == [] && next.score == [] && next.size == room.size
                  && next.cursor == room.cursor && next.walk == room.walk && next.quest == room.quest
                  && room.log <= next.log && |next.log| == |room.log| + |room.seats|
                  && forall k :: |room.log| <= k < |next.log| ==> next.log[k] == Closed(k - |room.log|))
  {
    hide SeatsAgree;
    ClosesAt(|room.seats|);
  }

  // ----- over runs -----

  // Which phase follows which, in every run: what each phase is entered from, and when.
  lemma PhaseLaw(bank: seq<UnitValue>, inputs: seq<Input>, input: Input)
    requires bank != [] && AllValid(inputs) && ValidInput(input)
    ensures AllValid(inputs + [input])
    ensures var room, next := Reached(bank, inputs), Reached(bank, inputs + [input]);
            var failed := input.message == None;
            var full := |room.seats| + 1 == room.size;
            && (next.phase == Init <==> room.phase == GameOver)
            && (next.phase == Wait <==>
                  !failed && ((room.phase == Init && input.sendOk[0]) || (room.phase == Wait && !full)))
            && (next.phase == Game <==>
                  || (room.phase == Wait && !failed && full)
                  || (room.phase == Game && room.quest != 0 && TwoGetIt(room.score, input.sendOk)))
            && (next.phase == GameOver <==>
                  room.phase == Game && (room.quest == 0 || !TwoGetIt(room.score, input.sendOk)))
            && (next.phase == Fin <==>
                  (room.phase == Init && (failed || !input.sendOk[0])) || (room.phase == Wait && failed))
            && (next.phase == Exit <==> room.phase in {Fin, Exit})
  {
    hide SeatsAgree;
    hide TwoGetIt;
    ReachedSnoc(bank, inputs, input);
    AliveMeansTwo(Reached(bank, inputs).score, input.sendOk);
  }

  // Every question packet of every run: the pass that sends it takes the walk on, and the packet
  // carries the question there, its answers, the round, and the scores before it.
  lemma EveryQuestionPacket(bank: seq<UnitValue>, inputs: seq<Input>, input: Input, k: nat)
    requires bank != [] && AllValid(inputs) && ValidInput(input) && AllValid(inputs + [input])
    requires var room, next := Reached(bank, inputs), Reached(bank, inputs + [input]);
             |room.log| <= k < |next.log| && next.log[k].Asked?
    ensures var room, next := Reached(bank, inputs), Reached(bank, inputs + [input]);
            var c := (|bank| - 1 + RingWalk.Sum(next.walk)) % |bank|;
            && room.phase == Game && next.walk == room.walk + [input.step]
            && next.log[k].id < |room.seats| && room.score[next.log[k].id] >= -1
            && next.log[k].ok == input.sendOk[next.log[k].id]
            && Carries(next.log[k].packet, bank[c], room.quest, room.score)
  {
    hide SeatsAgree;
    hide RoomStep;
    hide Carries;
    hide TwoGetIt;
    ReachedSnoc(bank, inputs, input);
    var room, next := Reached(bank, inputs), Reached(bank, inputs + [input]);
    if room.phase == Init {
      InitPassLaw(bank, room, input);
      assert false;
    } else if room.phase == Wait {
      var _ := WaitPassLaw(bank, room, input);
      assert false;
    } else if room.phase == Game && room.quest != 0 {
      var packet, asks, answers := RoundEventsLaw(bank, room, input);
      RoundStateLaw(bank, room, input);
      CursorIsModular(bank, inputs + [input]);
      assert next.log[k] == (asks + answers)[k - |room.log|];
      assert next.log[k] in asks;
    } else {
      QuietPassLaw(bank, room, input);
      assert false;
    }
  }

  lemma StepTellsWaits(bank: seq<UnitValue>, room: Room, input: Input)
    requires bank != [] && Inv(|bank|, room) && WaitsAreTold(room) && ValidInput(input)
    ensures WaitsAreTold(RoomStep(bank, room, input))
  {
    hide SeatsAgree;
    hide RoomStep;
    var next := RoomStep(bank, room, input);
    var players :| (room.seats == [] || room.seats == players) && WaitsTell(room.log, room.size, players);
    if room.phase == Init {
      InitPassLaw(bank, room, input);
      assert next.seats[..|next.seats|] == next.seats;
      assert WaitsTell(next.log, next.size, next.seats);
    } else if room.phase == Wait {
      if input.message.Some? {
        WaitsTellOn(bank, room, input);
      } else {
        var _ := WaitPassLaw(bank, room, input);
      }
    } else if room.phase == Game && room.quest != 0 {
      var packet, asks, answers := RoundEventsLaw(bank, room, input);
      RoundStateLaw(bank, room, input);
      assert WaitsTell(next.log, next.size, players);
    } else {
      QuietPassLaw(bank, room, input);
      assert forall e :: e in next.log && e.Waited? ==> e in room.log;
      assert WaitsTell(next.log, next.size, players);
    }
  }

  lemma {:induction false} RunTellsWaits(bank: seq<UnitValue>, room: Room, inputs: seq<Input>)
    requires bank != [] && Inv(|bank|, room) && WaitsAreTold(room) && AllValid(inputs)
    ensures WaitsAreTold(RunRoom(bank, room, inputs))
    decreases |inputs|
  {
    hide SeatsAgree;
    hide WaitsAreTold;
    hide RoomStep;
    if inputs != [] {
      StepKeeps(bank, room, inputs[0]);
      StepTellsWaits(bank, room, inputs[0]);
      RunTellsWaits(bank, RoomStep(bank, room, inputs[0]), inputs[1..]);
    }
  }

  // Every wait packet of every run, lost or not: for some number of the seated players it gives that
  // number, the size of the room, the seat's own id, and their names in order with the rest empty.
  lemma EveryWaitPacket(bank: seq<UnitValue>, inputs: seq<Input>) returns (players: seq<Player>)
    requires bank != [] && AllValid(inputs)
    ensures var room := Reached(bank, inputs);
            && (room.seats == [] || room.seats == players)
            && WaitsTell(room.log, room.size, players)
  {
    hide SeatsAgree;
    StartIsGood(bank);
    var start := Start(bank);
    assert WaitsTell(start.log, start.size, []);
    RunTellsWaits(bank, start, inputs);
    var room := Reached(bank, inputs);
    players :| (room.seats == [] || room.seats == players) && WaitsTell(room.log, room.size, players);
  }
}
