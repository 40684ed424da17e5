/**
 The room's state loop as it runs: arrays updated in place, a reused packet buffer, a cursor on
 the heap ring. Each pass is proved to compute RoomSpec.RoomStep on the room's abstract state.
 */
module Room {
  import opened Wrappers
  import opened CStrings
  import opened UnitText
  import opened UnitRing
  import opened Protocol
  import opened SeatTrace
  import opened RoomSpec
  import opened MessageQueue
  import RoomInvariant
  import RoomTheorems
  import Modular

  /** The ring holds the questions, and the unit is the one at the cursor. */
  ghost predicate OnRing(ring: seq<Unit>, bank: seq<UnitValue>, unit: Unit, cursor: nat)
    reads ring
  {
    && IsRing(ring) && HoldAll(ring, bank)
    && (forall u :: u in bank ==> Writable(u))
    && cursor < |ring| && unit == ring[cursor]
  }

  // Seating one more player fills the next slot of the name table.
  lemma NameTableGrows(seats: seq<Player>, player: Player)
    requires |seats| < USER_COUNT
    ensures NameTable(seats + [player]) == NameTable(seats)[|seats| := player.username]
    ensures NameTable([]) == seq(USER_COUNT, i => [])
  {
  }

  lemma DeliveredSize(room: RoomSpec.Room, queue: seq<Message>, queueOk: bool)
    requires CanPass(room, queue, queueOk)
    requires forall m :: m in queue && m.Request? ==> ClientSize(m.info.roomSize)
    ensures Delivery(room, queue, queueOk).Some? ==> ClientSize(Delivery(room, queue, queueOk).value.roomSize)
  {
    WhatReceiversGet(queue);
    assert Delivery(room, queue, queueOk).Some? ==> queue[Select(queue, Selector(room)).value] in queue;
  }

  class RoomFsm {
    ghost const ring: seq<Unit>
    ghost const bank: seq<UnitValue>

    var state: Phase
    const score: array<int>
    const players: array<Player>
    var roomSize: nat
    var lastPlrId: nat
    var questNum: nat
    var userAliveCounter: nat
    var curUnit: Unit
    var spack: Packet

    ghost var cursor: nat
    ghost var walk: seq<nat>
    ghost var log: seq<Event>

    ghost predicate Valid()
      reads this, score, players, ring
    {
      && score.Length == USER_COUNT && players.Length == USER_COUNT
      && OnRing(ring, bank, curUnit, cursor)
      && lastPlrId <= USER_COUNT
      && (state == Wait ==>
            && 1 <= lastPlrId < roomSize <= USER_COUNT
            && spack.WaitPacket? && spack.usernames == NameTable(players[..lastPlrId]))
      && (state == Game || state == GameOver ==> lastPlrId == roomSize)
    }

    /** The players of the current game. */
    ghost function Seats(): seq<Player>
      requires players.Length == USER_COUNT && lastPlrId <= USER_COUNT
      reads this, players
    {
      if state == Init || state == Exit then [] else players[..lastPlrId]
    }

    ghost function View(): RoomSpec.Room
      requires Valid()
      reads this, score, players, ring
    {
      RoomSpec.Room(
        state, roomSize, Seats(), if state == Init || state == Exit then [] else score[..lastPlrId],
        questNum, cursor, walk, log)
    }

    constructor (units: Unit, ghost ring: seq<Unit>, ghost bank: seq<UnitValue>)
      requires IsRing(ring) && HoldAll(ring, bank) && units == ring[|ring| - 1]
      requires forall u :: u in bank ==> Writable(u)
      ensures Valid() && View() == Start(bank)
      ensures this.ring == ring && this.bank == bank && fresh(score) && fresh(players)
    {
      this.ring, this.bank := ring, bank;
      state := Init;
      score := new int[USER_COUNT];
      players := new Player[USER_COUNT](i => Player(0, []));
      roomSize, lastPlrId, questNum, userAliveCounter := 0, 0, 1, 0;
      curUnit := units;
      spack := WaitPacket(0, 0, 0, []);
      cursor, walk, log := |ring| - 1, [], [];
    }

    // Seats the first player, who is told at once.
    method SeatFirst(msg: JoinInfo, ok: bool)
      requires Valid() && state == Init && lastPlrId == 0 && log == []
      requires spack == WaitPacket(0, 0, 0, NameTable([])) && ClientSize(msg.roomSize)
      modifies this, score, players
      ensures Valid() && lastPlrId == 1
      ensures View() == old(View()).(
                phase := if ok then Wait else Fin, size := msg.roomSize, seats := [msg.player], score := [0],
                log := [Waited(0, WaitPacketFor([msg.player], msg.roomSize, 0), ok)])
    {
      hide OnRing;
      hide NameTable;
      NameTableGrows([], msg.player);
      assert [] + [msg.player] == [msg.player];

      roomSize := msg.roomSize;
      players[0] := msg.player;
      score[0] := 0;
      assert players[..1] == [msg.player];
      assert score[..1] == [0];
      spack := WaitPacket(1, roomSize, 0, spack.usernames[0 := players[0].username]);
      assert spack == WaitPacketFor([msg.player], roomSize, 0);
      log := log + [Waited(0, spack, ok)];
      state := if ok then Wait else Fin;
      lastPlrId := lastPlrId + 1;
    }

    method InitPass(input: Input)
      requires Valid() && state == Init && ValidInput(input)
      modifies this, score, players
      ensures Valid() && View() == InitStep(old(View()), input)
    {
      hide OnRing;
      hide NameTable;
      NameTableGrows([], Player(0, []));
      roomSize := 0;
      lastPlrId := 0;
      questNum := 1;
      spack := WaitPacket(0, 0, 0, seq(USER_COUNT, i => []));
      log := [];

      if input.message == None {
        state := Fin;
        return;
      }
      SeatFirst(input.message.value, input.sendOk[0]);
      assert WaitEvents([input.message.value.player], roomSize, input.sendOk, 0) == [];
    }

    // Tells every seated player, in seat order, until a send fails.
    method SendWaits(input: Input)
      requires Valid() && ValidInput(input) && lastPlrId <= |input.sendOk|
      requires spack == WaitPacketFor(players[..lastPlrId], roomSize, 0)
      modifies this`spack, this`log, score
      ensures spack.WaitPacket? && spack == WaitPacketFor(players[..lastPlrId], roomSize, spack.id)
      ensures var f := FirstFailure(input.sendOk, lastPlrId);
              score[..lastPlrId]
                == if f < lastPlrId then old(score[..lastPlrId])[f := PLR_DISCONNECT] else old(score[..lastPlrId])
      ensures log == old(log)
                     + WaitEvents(players[..lastPlrId], roomSize, input.sendOk, SendsTried(input.sendOk, lastPlrId))
    {
      hide OnRing;
      hide NameTable;
      ghost var seats, scores := players[..lastPlrId], score[..lastPlrId];
      var id := 0;
      while id < lastPlrId
        invariant id <= lastPlrId == |seats|
        invariant forall j :: 0 <= j < id ==> input.sendOk[j]
        invariant spack.WaitPacket? && spack == WaitPacketFor(seats, roomSize, spack.id)
        invariant log == old(log) + WaitEvents(seats, roomSize, input.sendOk, id)
        invariant score[..lastPlrId] == scores
      {
        spack := spack.(id := id);
        log := log + [Waited(id, spack, input.sendOk[id])];
        if !input.sendOk[id] {
          score[id] := PLR_DISCONNECT;
          assert score[..lastPlrId] == scores[id := PLR_DISCONNECT];
          break;
        }
        id := id + 1;
      }
      assert FirstFailure(input.sendOk, |seats|) == id;
    }

    // Seats one more player.
    method SeatNext(msg: JoinInfo)
      requires Valid() && state == Wait
      modifies this, score, players
      ensures Valid() && lastPlrId == old(lastPlrId) + 1 && lastPlrId <= roomSize
      ensures spack == WaitPacketFor(players[..lastPlrId], roomSize, 0)
      ensures View() == old(View()).(
                phase := if lastPlrId == roomSize then Game else Wait,
                seats := old(View()).seats + [msg.player], score := old(View()).score + [0])
    {
      hide OnRing;
      hide NameTable;
      ghost var seats, scores := players[..lastPlrId], score[..lastPlrId];
      NameTableGrows(seats, msg.player);
      players[lastPlrId] := msg.player;
      score[lastPlrId] := 0;
      spack := WaitPacket(lastPlrId + 1, roomSize, 0, spack.usernames[lastPlrId := players[lastPlrId].username]);
      if lastPlrId + 1 == roomSize {
        state := Game;
      }
      lastPlrId := lastPlrId + 1;
      assert players[..lastPlrId] == seats + [msg.player] && score[..lastPlrId] == scores + [0];
    }

    method WaitPass(input: Input)
      requires Valid() && state == Wait && ValidInput(input)
      modifies this, score, players
      ensures Valid() && View() == WaitStep(old(View()), input)
    {
      hide OnRing;
      hide NameTable;
      hide WaitEvents;
      hide FirstFailure;
      hide SendsTried;
      if input.message == None {
        state := Fin;
        return;
      }
      SeatNext(input.message.value);
      SendWaits(input);
    }

    // The walk: one next link per step.
    method WalkOn(step: nat)
      requires Valid()
      modifies this`curUnit, this`cursor, this`walk
      ensures OnRing(ring, bank, curUnit, cursor)
      ensures cursor == (old(cursor) + step) % |bank| && walk == old(walk) + [step]
    {
      Modular.Small(cursor, |bank|);
      for it := 0 to step
        invariant cursor == old(cursor) && walk == old(walk)
        invariant curUnit == ring[(cursor + it) % |ring|]
      {
        Modular.Successor(old(cursor) + it, |ring|);
        UnitRing.NextAndPrevAreInverse(ring, curUnit);
        curUnit := curUnit.next;
      }
      cursor := (cursor + step) % |bank|;
      walk := walk + [step];
    }

    // The round's packet, filled field by field from the cursor's node and the scores.
    method FillGamePacket()
      requires Valid() && roomSize == lastPlrId
      modifies this`spack
      ensures spack == GamePacketFor(score[..lastPlrId], questNum, bank[cursor])
      ensures spack.quest == bank[cursor].quest && spack.ans == bank[cursor].ans && spack.questNum == questNum
      ensures |spack.score| == lastPlrId
      ensures forall j :: 0 <= j < lastPlrId && -128 <= score[j] < 128 ==> FromByte(spack.score[j]) == score[j]
    {
      HeldTextReadsBack(curUnit, bank[cursor]);
      var quest := CString(curUnit.quest);
      var ans: seq<Text> := [];
      for it := 0 to ANS_COUNT
        invariant ans == bank[cursor].ans[..it]
      {
        ans := ans + [CString(curUnit.ans[it])];
      }
      var bytes: seq<Byte> := [];
      for i := 0 to roomSize
        invariant |bytes| == i && forall j :: 0 <= j < i ==> bytes[j] == ToByte(score[j])
      {
        bytes := bytes + [ToByte(score[i])];
      }
      spack := GamePacket(bytes, questNum, quest, ans);
      assert bytes == ToBytes(score[..lastPlrId]);
    }

    method AskAll(input: Input)
      requires Valid() && roomSize == lastPlrId && ValidInput(input)
      modifies this`userAliveCounter, this`log, score
      ensures Valid()
      ensures score[..lastPlrId] == AskScores(old(score[..lastPlrId]), input.sendOk)
      ensures userAliveCounter == AliveCount(old(score[..lastPlrId]), input.sendOk, lastPlrId)
      ensures log == old(log) + AskEvents(old(score[..lastPlrId]), input.sendOk, spack, lastPlrId)
    {
      ghost var before := score[..lastPlrId];
      userAliveCounter := 0;
      for id := 0 to roomSize
        invariant forall j :: 0 <= j < id ==> score[j] == AskScore(before[j], input.sendOk[j])
        invariant forall j :: id <= j < roomSize ==> score[j] == before[j]
        invariant userAliveCounter == AliveCount(before, input.sendOk, id)
        invariant log == old(log) + AskEvents(before, input.sendOk, spack, id)
      {
        if score[id] >= PLR_LOST {
          log := log + [Asked(id, spack, input.sendOk[id])];
          if !input.sendOk[id] {
            score[id] := PLR_DISCONNECT;
          } else {
            userAliveCounter := userAliveCounter + 1;
          }
        }
        if score[id] == PLR_LOST {
          score[id] := PLR_DISCONNECT;
        }
      }
    }

    method CollectAnswers(input: Input)
      requires Valid() && roomSize == lastPlrId && ValidInput(input)
      modifies this`log, score
      ensures Valid()
      ensures score[..lastPlrId] == AnswerScores(old(score[..lastPlrId]), input.answers, bank[cursor].rans)
      ensures log == old(log) + AnswerEvents(old(score[..lastPlrId]), input.answers, bank[cursor].rans, lastPlrId)
    {
      ghost var before := score[..lastPlrId];
      ghost var rans := bank[cursor].rans;
      for id := 0 to roomSize
        invariant forall j :: 0 <= j < id ==> score[j] == AnswerScore(before[j], input.answers[j], rans)
        invariant forall j :: id <= j < roomSize ==> score[j] == before[j]
        invariant log == old(log) + AnswerEvents(before, input.answers, rans, id)
      {
        if score[id] > PLR_LOST {
          log := log + [Answered(id, input.answers[id], rans)];
          if input.answers[id] == None {
            score[id] := PLR_DISCONNECT;
          } else if input.answers[id].value == curUnit.rans {
            score[id] := score[id] + 1;
          } else {
            score[id] := PLR_LOST;
          }
        }
      }
    }

    // The first half of a round: walk on and send the question.
    method AskRound(input: Input)
      requires Valid() && state == Game && ValidInput(input)
      modifies this, score
      ensures Valid() && state == Game && bank != []
      ensures View() == AskPhase(bank, old(View()), input)
      ensures userAliveCounter == AliveCount(old(View()).score, input.sendOk, lastPlrId) && lastPlrId == old(lastPlrId)
    {
      hide NameTable;
      hide ToBytes;
      hide AskScores;
      hide AskEvents;
      hide AliveCount;
      hide GamePacketFor;
      ghost var room := View();
      assert bank != [];
      WalkOn(input.step);
      FillGamePacket();
      assert score[..lastPlrId] == room.score && log == room.log;
      AskAll(input);
      assert View().log == AskPhase(bank, room, input).log;
      assert View().score == AskPhase(bank, room, input).score;
    }

    method GamePass(input: Input)
      requires Valid() && state == Game && ValidInput(input)
      modifies this, score
      ensures Valid() && View() == GameStep(bank, old(View()), input)
    {
      hide NameTable;
      hide AskPhase;
      hide AliveCount;
      hide AnswerScores;
      hide AnswerEvents;
      hide OnRing;
      if questNum == 0 {
        state := GameOver;
        return;
      }
      AskRound(input);
      if userAliveCounter <= 1 {
        state := GameOver;
        return;
      }
      CollectAnswers(input);
      if questNum == LAST_QUEST {
        questNum := 0;
      } else {
        questNum := questNum + 1;
      }
    }

    method CloseAll(count: nat)
      modifies this`log
      ensures log == old(log) + CloseEvents(count)
    {
      for id := 0 to count
        invariant log == old(log) + CloseEvents(id)
      {
        log := log + [Closed(id)];
      }
    }

    method GameOverPass()
      requires Valid() && state == GameOver
      modifies this
      ensures Valid() && View() == CloseStep(old(View()), Init)
    {
      CloseAll(roomSize);
      state := Init;
    }

    method FinPass()
      requires Valid() && state == Fin
      modifies this
      ensures Valid() && View() == CloseStep(old(View()), Exit)
    {
      CloseAll(lastPlrId);
      state := Exit;
    }

    // One pass through the switch.
    method Pass(input: Input)
      requires Valid() && ValidInput(input)
      modifies this, score, players
      ensures Valid() && View() == RoomStep(bank, old(View()), input)
    {
      match state {
        case Init => InitPass(input);
        case Wait => WaitPass(input);
        case Game => GamePass(input);
        case GameOver => GameOverPass();
        case Fin => FinPass();
        case Exit =>
      }
    }

    // The msgrcv of INIT and WAIT; queueOk tells whether the queue works, and it blocks until there
    // is a message to deliver.
    method Receive(queue: Queue, queueOk: bool) returns (message: Option<JoinInfo>)
      requires Valid() && queue.Valid() && CanPass(View(), queue.items, queueOk)
      modifies queue
      ensures queue.Valid() && queue.sent == old(queue.sent)
      ensures message == Delivery(View(), old(queue.items), queueOk)
      ensures queue.items == Remaining(View(), old(queue.items), queueOk)
      ensures queue.received == old(queue.received) + if message.Some? then [Request(message.value)] else []
    {
      hide OnRing;
      hide MustDeliver;
      WhatReceiversGet(queue.items);
      message := None;
      if queueOk {
        if state == Init {
          var msg := queue.MsgRcv(MSG_ROOM);
          message := Some(msg.info);
        } else if state == Wait {
          var msg := queue.MsgRcv(MSG_JOIN);
          message := Some(msg.info);
        }
      }
    }

    // One pass on the shared queue: the message of the input is the one the queue delivers.
    method PassOnQueue(queue: Queue, queueOk: bool, input: Input)
      requires Valid() && queue.Valid() && CanPass(View(), queue.items, queueOk)
      requires ValidInput(input.(message := None))
      requires forall m :: m in queue.items && m.Request? ==> ClientSize(m.info.roomSize)
      modifies this, score, players, queue
      ensures Valid() && queue.Valid() && queue.sent == old(queue.sent)
      ensures queue.items == Remaining(old(View()), old(queue.items), queueOk)
      ensures var message := Delivery(old(View()), old(queue.items), queueOk);
              && ValidInput(input.(message := message))
              && View() == RoomStep(bank, old(View()), input.(message := message))
              && queue.received == old(queue.received) + if message.Some? then [Request(message.value)] else []
    {
      hide OnRing;
      hide RoomStep;
      hide MustDeliver;
      DeliveredSize(View(), queue.items, queueOk);
      var message := Receive(queue, queueOk);
      Pass(input.(message := message));
    }

    // The loop, for as long as the environment answers.
    method Run(inputs: seq<Input>)
      requires Valid() && RoomInvariant.Inv(|bank|, View())
      requires forall i :: 0 <= i < |inputs| ==> ValidInput(inputs[i])
      modifies this, score, players
      ensures Valid() && RoomInvariant.Inv(|bank|, View())
      ensures View() == RoomTheorems.RunRoom(bank, old(View()), inputs)
    {
      hide RoomInvariant.SeatsAgree;
      var k := 0;
      while state != Exit && k < |inputs|
        invariant k <= |inputs|
        invariant Valid() && RoomInvariant.Inv(|bank|, View())
        invariant RoomTheorems.RunRoom(bank, View(), inputs[k..]) == RoomTheorems.RunRoom(bank, old(View()), inputs)
        decreases |inputs| - k
      {
        RoomInvariant.StepKeeps(bank, View(), inputs[k]);
        assert inputs[k..][1..] == inputs[k + 1..];
        Pass(inputs[k]);
        k := k + 1;
      }
      if state == Exit {
        RoomTheorems.ExitStays(bank, View(), inputs[k..]);
      }
    }
  }

  // Server start-up, as far as the questions go: load them, and hand the ring to a room.
  method OpenRoom(heap: Heap, files: seq<Text>) returns (room: RoomFsm)
    requires LoadFiles(files) != []
    modifies heap
    ensures room.Valid() && room.bank == LoadFiles(files) && room.View() == Start(LoadFiles(files))
    ensures RoomInvariant.Inv(|room.bank|, room.View())
  {
    LoadedAreWritable(files);
    var last, ring := UnitDequeInit(heap, files);
    room := new RoomFsm(last, ring, LoadFiles(files));
    RoomInvariant.StartIsGood(LoadFiles(files));
  }
}
