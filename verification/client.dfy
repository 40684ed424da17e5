/**
 The receiving side: what a client makes of the room's packets, and where its view agrees with
 the room's.
 */
module Client {
  import opened Wrappers
  import opened CStrings
  import opened UnitText
  import opened Protocol
  import opened SeatTrace
  import opened RoomSpec
  import opened RoomInvariant
  import opened RoomTheorems

  const CODE_FAILURE := -1
  const START_GAME := 0
  const WAIT_MORE := 1
  const GAME_OVER := 0
  const GAME_CONT := 1

  /** The client's picture of its room. */
  class RoomInfo {
    var occupancy: nat
    var roomSize: nat
    var id: nat
    const usernames: array<Text>
    const score: array<int>

    ghost predicate Valid()
      reads this
    {
      usernames.Length == USER_COUNT && score.Length == USER_COUNT
    }

    constructor ()
      ensures Valid() && fresh(usernames) && fresh(score)
    {
      occupancy, roomSize, id := 0, 0, 0;
      usernames := new Text[USER_COUNT](i => []);
      score := new int[USER_COUNT](i => 0);
    }
  }

  /** The question shown to the player. */
  class Question {
    var quest: Text
    var ans: seq<Text>

    constructor ()
    {
      quest, ans := [], [];
    }
  }

  /** 1 for a player whose score is not positive, else 0. */
  function IsLoser(score: seq<int>, id: nat): int
    requires id < |score|
  {
    if score[id] > 0 then 0 else 1
  }

  /** What a wait packet tells the client to do. */
  function WaitCode(packet: Packet): int
    requires packet.WaitPacket?
  {
    if packet.occupancy < packet.roomSize then WAIT_MORE else START_GAME
  }

  function FromBytes(bytes: seq<Byte>): (score: seq<int>)
    ensures |score| == |bytes|
  {
    seq(|bytes|, i requires 0 <= i < |bytes| => FromByte(bytes[i]))
  }

  /** What a game packet tells the client on the given seat to do. */
  function UnitCode(packet: Packet, id: nat): int
    requires packet.GamePacket? && id < |packet.score|
  {
    if packet.questNum == 0 || IsLoser(FromBytes(packet.score), id) == 1 then GAME_OVER else GAME_CONT
  }

  ghost function Footprint(room: RoomInfo?): set<object>
    reads room
  {
    if room == null then {} else {room, room.usernames, room.score}
  }

  method WaitForPlayers(room: RoomInfo?, received: Option<Packet>) returns (code: int)
    requires room != null ==> room.Valid()
    requires received.Some? && received.value.WaitPacket? ==> |received.value.usernames| == USER_COUNT
    modifies Footprint(room)
    ensures room != null ==> room.Valid()
    ensures room == null || received == None || !received.value.WaitPacket? ==>
              code == CODE_FAILURE && (room != null ==> unchanged(room, room.usernames, room.score))
    ensures room != null && received.Some? && received.value.WaitPacket? ==>
              var packet := received.value;
              && code == WaitCode(packet) && (if packet.occupancy < packet.roomSize then code == 1 else code == 0)
              && room.occupancy == packet.occupancy && room.roomSize == packet.roomSize && room.id == packet.id
              && room.usernames[..] == packet.usernames
              && forall i :: 0 <= i < USER_COUNT ==> room.score[i] == 0
  {
    if room == null {
      return CODE_FAILURE;
    }
    if received == None {
      return CODE_FAILURE;
    }
    var packet := received.value;
    match packet {
      case WaitPacket(occupancy, roomSize, id, usernames) =>
        room.occupancy := occupancy;
        room.roomSize := roomSize;
        room.id := id;
        for idx := 0 to USER_COUNT
          invariant room.Valid()
          invariant room.occupancy == occupancy && room.roomSize == roomSize && room.id == id
          invariant forall i :: 0 <= i < idx ==> room.usernames[i] == usernames[i] && room.score[i] == 0
        {
          room.usernames[idx] := usernames[idx];
          room.score[idx] := 0;
        }
        if room.occupancy < room.roomSize {
          return WAIT_MORE;
        } else {
          return START_GAME;
        }
      case GamePacket(_, _, _, _) =>
        return CODE_FAILURE;
    }
  }

  /** The name table of a wait packet as it lies in storage. */
  function NameBytes(usernames: seq<Text>): (bytes: seq<Byte>)
    requires |usernames| == USER_COUNT
    ensures |bytes| == USER_COUNT * USERNAME_LEN
  {
    Strncpy(usernames[0], USERNAME_LEN) + Strncpy(usernames[1], USERNAME_LEN)
    + Strncpy(usernames[2], USERNAME_LEN) + Strncpy(usernames[3], USERNAME_LEN)
  }

  /**
   A wait packet read as a game packet, the two kinds sharing their storage: its three numbers and
   the first byte of the names lie where the scores are, the second where the question number is, and
   the other names where the question is. Behind the names the room's buffer is still zero.
   */
  function AsGamePacket(packet: Packet): (read: Packet)
    requires packet.WaitPacket? && |packet.usernames| == USER_COUNT
    ensures read.GamePacket? && |read.score| == USER_COUNT && |read.ans| == ANS_COUNT
  {
    var names := NameBytes(packet.usernames);
    var zeros := seq(Q_LEN - (|names| - 2), i => NUL);
    GamePacket(
      [ToByte(packet.occupancy), ToByte(packet.roomSize), ToByte(packet.id), names[0]],
      names[1] as nat,
      CString(names[2..] + zeros),
      seq(ANS_COUNT, i => []))
  }

  /** The packet fits its structure. */
  predicate Fits(packet: Packet)
  {
    match packet
    case GamePacket(score, _, _, ans) => |score| <= USER_COUNT && |ans| == ANS_COUNT
    case WaitPacket(_, _, _, usernames) => |usernames| == USER_COUNT
  }

  /**
   What get_unit reads: it never looks at the packet's type. The slots beyond a game packet's seats
   hold whatever the room's buffer held before.
   */
  predicate ReadAs(packet: Packet, read: Packet)
    requires Fits(packet)
  {
    if packet.WaitPacket? then read == AsGamePacket(packet)
    else
      && read.GamePacket? && |read.score| == USER_COUNT && packet.score <= read.score
      && read == packet.(score := read.score)
  }

  method ReadPacket(packet: Packet) returns (read: Packet)
    requires Fits(packet)
    ensures ReadAs(packet, read)
  {
    if packet.WaitPacket? {
      read := AsGamePacket(packet);
    } else {
      var stale: Byte := *;
      var tail: seq<Byte> := seq(USER_COUNT - |packet.score|, i => stale);
      read := packet.(score := packet.score + tail);
    }
  }

  method GetUnit(unit: Question?, room: RoomInfo?, received: Option<Packet>) returns (code: int, ghost read: Packet)
    requires room != null ==> room.Valid() && room.id < USER_COUNT
    requires received.Some? ==> Fits(received.value)
    modifies unit, Footprint(room)
    ensures room != null ==> room.Valid() && room.id == old(room.id) && unchanged(room.usernames)
    ensures unit == null || room == null || received == None ==>
              code == CODE_FAILURE && (unit != null ==> unchanged(unit)) && (room != null ==> unchanged(room.score))
    ensures unit != null && room != null && received.Some? ==>
              && ReadAs(received.value, read)
              && code == UnitCode(read, room.id)
              && (read.questNum == 0 ==> unchanged(room.score))
              && (read.questNum != 0 ==> forall i :: 0 <= i < 4 ==> room.score[i] == FromByte(read.score[i]))
              && code == (if read.questNum != 0 && 1 <= read.score[room.id] <= 127 then 1 else 0)
              && (code == GAME_CONT ==> unit.quest == read.quest && unit.ans == read.ans)
              && (code == GAME_OVER ==> unchanged(unit))
  {
    read := GamePacket([], 0, [], []);
    if unit == null || room == null {
      return CODE_FAILURE, read;
    }
    if received == None {
      return CODE_FAILURE, read;
    }
    var packet := ReadPacket(received.value);
    read := packet;
    if packet.questNum == 0 {
      return GAME_OVER, read;
    }
    for idx := 0 to USER_COUNT
      invariant room.Valid() && room.id == old(room.id) && unchanged(unit) && unchanged(room.usernames)
      invariant forall i :: 0 <= i < idx ==> room.score[i] == FromByte(packet.score[i])
    {
      room.score[idx] := FromByte(packet.score[idx]);
    }
    assert room.score[..] == FromBytes(packet.score);
    if IsLoser(room.score[..], room.id) == 1 {
      return GAME_OVER, read;
    }
    unit.quest := packet.quest;
    var ans: seq<Text> := [];
    for it := 0 to ANS_COUNT
      invariant ans == packet.ans[..it]
    {
      ans := ans + [packet.ans[it]];
    }
    unit.ans := ans;
    return GAME_CONT, read;
  }

  // A seat in use sees its own score whatever the rest of the buffer holds.
  lemma OwnSlotIsRead(packet: Packet, read: Packet, id: nat)
    requires packet.GamePacket? && Fits(packet) && ReadAs(packet, read) && id < |packet.score|
    ensures UnitCode(read, id) == UnitCode(packet, id)
  {
    assert read.score[id] == packet.score[id];
  }

  // A wait packet read as a question shows what is left of the first name; with a first name of fewer
  // than two bytes the game is over.
  lemma WaitPacketOverlay(packet: Packet)
    requires packet.WaitPacket? && Fits(packet) && NUL !in packet.usernames[0] && |packet.usernames[0]| < 40
    ensures var read, name := AsGamePacket(packet), packet.usernames[0];
            && read.score[0] as int == packet.occupancy % 256 && read.score[1] as int == packet.roomSize % 256
            && read.score[2] as int == packet.id % 256
            && read.score[3] == (if |name| > 0 then name[0] else 0)
            && read.questNum == (if |name| > 1 then name[1] as nat else 0)
            && (|name| > 1 ==> read.quest == name[2..])
            && read.ans == [[], [], [], []]
  {
    var name := packet.usernames[0];
    var names := NameBytes(packet.usernames);
    assert StrLen(name) == |name|;
    assert forall i :: 0 <= i < 40 ==> names[i] == if i < |name| then name[i] else 0;
    if |name| > 1 {
      var text := names[2..] + seq(Q_LEN - (|names| - 2), i => NUL);
      assert forall i :: 0 <= i < |name| - 2 ==> text[i] == name[i + 2];
      assert text[|name| - 2] == NUL;
      assert StrLen(text) == |name| - 2;
    }
  }

  // ----- agreement with the room -----

  lemma {:induction false} ExpectedWaitsAt(seats: seq<Player>, size: nat, id: nat, k: nat, j: nat)
    requires id <= k <= |seats| && j < k - id
    ensures var waits := ExpectedWaits(seats, size, id, k);
            |waits| == k - id && waits[j] == Waited(id, WaitPacketFor(seats[..id + 1 + j], size, id), true)
  {
    if j < k - 1 - id {
      ExpectedWaitsAt(seats, size, id, k - 1, j);
    } else if k - 1 > id {
      ExpectedWaitsAt(seats, size, id, k - 1, 0);
    }
  }

  // When no wait packet is lost, the client on seat id gets one packet for itself and one for every
  // later player, waits on all but the one that fills the room, starts on that one, and then shows
  // exactly the names of the players seated so far.
  lemma LobbyAgrees(bank: seq<UnitValue>, inputs: seq<Input>, id: nat, j: nat)
    requires bank != []
    requires AllValid(inputs)
    requires InLobby(Reached(bank, inputs))
    requires id < |Reached(bank, inputs).seats|
    requires forall i :: 0 <= i < |Reached(bank, inputs).score| ==> Reached(bank, inputs).score[i] == 0
    requires j < |Reached(bank, inputs).seats| - id
    ensures var room := Reached(bank, inputs);
            var trace := Project(room.log, id);
            && |trace| == |room.seats| - id
            && trace[j].Waited? && trace[j].ok && trace[j].packet.WaitPacket?
            && trace[j].packet.id == id && trace[j].packet.occupancy == id + 1 + j
            && trace[j].packet.roomSize == room.size
            && |trace[j].packet.usernames| == USER_COUNT
            && (forall i :: 0 <= i < USER_COUNT ==>
                  trace[j].packet.usernames[i] == if i < id + 1 + j then room.seats[i].username else [])
            && (WaitCode(trace[j].packet) == START_GAME <==> room.phase == Game && j == |trace| - 1)
  {
    hide SeatsAgree;
    hide Project;
    LobbyPackets(bank, inputs, id);
    var room := Reached(bank, inputs);
    ExpectedWaitsAt(room.seats, room.size, id, |room.seats|, j);
  }

  // What a client shows of a round is the room's: every player's score, the question and its answers.
  lemma RoundAgrees(n: nat, room: Room, question: UnitValue, read: Packet)
    requires Inv(n, room) && room.phase == Game && |question.ans| == ANS_COUNT
    requires ReadAs(GamePacketFor(room.score, room.quest, question), read)
    ensures read.questNum == room.quest && read.quest == question.quest && read.ans == question.ans
    ensures forall j :: 0 <= j < |room.seats| ==> FromByte(read.score[j]) == room.score[j]
  {
    hide SeatsAgree;
    forall j | 0 <= j < |room.seats| ensures FromByte(read.score[j]) == room.score[j] {
      ScoresOfSeats(n, room, j);
      ByteRoundTrip(room.score[j]);
      assert read.score[j] == ToBytes(room.score)[j];
    }
  }

  // Told of its own score in a round, an addressed client takes itself for lost exactly when the
  // room does, in every round but the first.
  lemma VerdictIsExactIff(n: nat, room: Room, question: UnitValue, id: nat)
    requires Inv(n, room) && room.phase == Game && room.quest != 0
    requires id < |room.seats| && room.score[id] >= PLR_LOST
    ensures var packet := GamePacketFor(room.score, room.quest, question);
            (UnitCode(packet, id) == GAME_CONT <==> room.score[id] > PLR_LOST) <==> room.quest != 1
  {
    hide Run;
    hide Project;
    ByteRoundTrip(room.score[id]);
  }

  // In the first round every client that gets the question takes the game for over: a score of 0
  // counts as lost.
  lemma FirstQuestionLooksLost(n: nat, room: Room, question: UnitValue, id: nat)
    requires Inv(n, room) && room.phase == Game && room.quest == 1
    requires id < |room.seats| && room.score[id] >= PLR_LOST
    ensures room.score[id] == 0
    ensures UnitCode(GamePacketFor(room.score, room.quest, question), id) == GAME_OVER
  {
    hide Run;
    hide Project;
    ByteRoundTrip(room.score[id]);
  }
}
