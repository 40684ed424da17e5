/**
 What travels between the server and a client, and the constants both sides agree on.
 */
module Protocol {
  import opened CStrings

  const USER_COUNT := 4
  const LAST_QUEST := 15
  const PLR_DISCONNECT := -2
  const PLR_LOST := -1

  /** The identity of an accepted connection. Descriptor numbers are reused, identities are not. */
  type Conn = nat

  const USERNAME_LEN := 40

  /** A user name is a C string that fits its buffer of USERNAME_LEN bytes. */
  datatype Player = Player(socket: Conn, username: Text)

  /** A worker's message to the rooms: a request to join any room, or to open one of a given size. */
  datatype JoinInfo = JoinInfo(create: bool, roomSize: nat, player: Player)

  /** The sizes that clients ask for: USER_COUNT when joining, 2 to USER_COUNT when creating. */
  predicate ClientSize(size: nat)
  {
    2 <= size <= USER_COUNT
  }

  /** The server's packet. The score slots are those of the seats in use. */
  datatype Packet =
    | WaitPacket(occupancy: nat, roomSize: nat, id: nat, usernames: seq<Text>)
    | GamePacket(score: seq<Byte>, questNum: nat, quest: Text, ans: seq<Text>)

  /** A signed char stored in an unsigned one. */
  function ToByte(score: int): Byte
  {
    (score % 256) as Byte
  }

  /** An unsigned char read back as a signed one. */
  function FromByte(b: Byte): int
  {
    if b < 128 then b as int else b as int - 256
  }

  lemma ByteRoundTrip(score: int)
    requires -128 <= score < 128
    ensures FromByte(ToByte(score)) == score
  {
  }

  function ToBytes(score: seq<int>): (bytes: seq<Byte>)
    ensures |bytes| == |score|
  {
    seq(|score|, i requires 0 <= i < |score| => ToByte(score[i]))
  }
}
