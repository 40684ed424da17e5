# Intellect-Battle game server: a verified model

Intellect-Battle is a quiz for groups of two to four players. A server accepts connections, worker
threads read each client's request and pass it on through one message queue, and room threads seat the
players and put up to fifteen questions to them. This project models that core and proves what it keeps,
for every input, every run and every interleaving.

`dafny verify dfyconfig.toml` checks the whole project.

## How it is built

- **Question ring** (`unit_text.dfy`, `unit_ring.dfy`, `ring_walk.dfy`, `modular.dfy`, `cstrings.dfy`).
  `UnitText` says, over plain byte sequences, which questions a file holds and how a list of questions is
  written; line reading follows fgets (section 7.19.7.2 of ISO/IEC 9899:1999), copying follows strncpy
  (section 7.21.2.4 of the same). `UnitRing` is the loader and the destructor on real heap nodes; the
  class `Heap` records every free and refuses each access to a freed node. `RingWalk` is the arithmetic
  of the room's walk.
- **Room** (`protocol.dfy`, `seat_trace.dfy`, `room_spec.dfy`, `room_invariant.dfy`, `room_theorems.dfy`,
  `room_laws.dfy`, `room_witnesses.dfy`, `room.dfy`). `RoomSpec.RoomStep` is one pass through the state
  loop as a function of the state and of what the environment answers; the class `Room.RoomFsm`, with its
  arrays, reused packet and pointer into the ring, is proved to compute it. `SeatTrace` is independent of
  both: an automaton over the events of one seat. `RoomInvariant` ties the room's arrays to that
  automaton, `RoomTheorems` draws the conclusions for whole runs, `RoomLaws` says of each pass, without
  the functions that compute it, what happens to every field and what every packet carries, and
  `RoomWitnesses` gives runs to the states in which the code departs from its documents.
- **Hand-over** (`message_queue.dfy`, `worker.dfy`, `totals.dfy`, `server.dfy`, `server_invariant.dfy`,
  `server_history.dfy`, `server_packets.dfy`, `server_uses.dfy`, `server_program.dfy`,
  `server_witnesses.dfy`). The queue follows msgrcv() in section 3 of the System Interfaces volume of
  IEEE Std 1003.1-2017. `Server` is the transition system of acceptor, workers and rooms. Connections are
  numbered as accepted, because descriptor numbers are reused after a close. One action is one pass
  through one thread's loop: each pass touches the queue, the only thing shared, at most once. No thread
  looks at the outcome of a msgsnd, so a connection whose message was not taken is known to nobody; it
  counts as abandoned, like one dropped on a disconnect or after a failed receive. `ServerPackets` traces
  queue and seats back to the packets the clients sent. `ServerUses` lists every call that a run makes on
  a connection. `ServerProgram` is the server as it runs: the queue, worker and room objects together,
  each of whose passes is proved to be the matching action, so what holds of every reached state holds of
  the objects.
- **Client** (`client.dfy`). The two functions that receive the room's packets, and where their view
  agrees with the room's.

What the environment does (failures of msgrcv and msgsnd, failed sends and receives, requests, answers,
the random step) is an input everywhere. The one assumption on it is that requests carry a room size from
2 to 4, as clients send them (src/client_logic.c:58-66); neither the worker nor the room looks at it.

## Where the code and its documents differ

- include/packet.h:69-70 says that question number 0 announces the end of the game. No such packet is
  ever sent: in every run every question packet carries a number from 1 to 15
  (`NoPacketAnnouncesTheEnd`). The room goes to GAMEOVER and closes the connections (src/room.c:140-143).
- README.md:9 says that whoever stays last has won. The last one left is asked and judged once more
  exactly when a round is left and both they and somebody who has just lost can be reached
  (`LastPlayerIsAskedAgainIff`, about one pass). The game then ends within two passes, and the last one
  left ends it still in exactly when no round was left; or the question reached them and nobody who had
  just lost; or they answered it rightly, and it was the last or the next one reached them too
  (`LastPlayerWinsIff`, about the whole game). A run in which the last player loses: `LastPlayerLoses`.
- include/client_logic.h:124-128 promises that `is_loser` tells whether the client lost. It agrees with
  the room in every round but the first: a score of 0 counts as lost, so the first question makes every
  client take the game for over (`VerdictIsExactIff`, `FirstQuestionLooksLost`; a run to that question:
  `BothLookLost`).
- One failed wait packet leaves all later seats without the packet that starts their game
  (`StartPacketIff`; a run in which a player is in the game and was never sent anything:
  `StartPacketNeverSent`).
- A failed wait packet marks its seat as disconnected in WAIT (src/room.c:119), but not in INIT
  (src/room.c:70-74): there the score stays 0. This is the only reachable state in which a score is not
  what happened to its seat says (`ScoreFollowsTraceIff`; a run to it: `OpenerNotReached`). The room
  closes the seat next, so nobody is told.

## Model

| member | source | states |
|---|---|---|
| UnitText.FgetsLength | src/unit.c:58-80 | a chunk ends behind its only newline, at the end of the file, or when the buffer is full; it is empty only at the end |
| UnitText.RoundTrip | src/unit.c:54-101 | writing any list of writable questions, with or without a final newline, and loading the file gives the list back |
| UnitText.LoadedAreWritable | src/unit.c:54-101 | whatever the files hold, a loaded question has at most 200 bytes, four answers of at most 80, no newline or NUL, and a key from 1 to 4 |
| UnitText.LoadableIffWritable | src/unit.c:54-101 | a list of questions can come out of a load exactly when every question in it is writable |
| UnitText.ChunksIff | src/unit.c:54-80 | the chunks are the one way to cut the file into pieces of 1 to 403 bytes, each but the last ended by its only newline or a full buffer |
| UnitText.RecordLaw | src/unit.c:55-99 | six chunks are taken exactly when the question line has at most 201 bytes, each answer line 81, the key line 2, and the key is a digit from 1 to 4; then question and answers are the lines without their last byte and the key is the digit |
| UnitText.RecordsSplit | src/unit.c:54-101 | each group of six chunks is judged by itself, so a bad one does not disturb those after it; fewer than six at the end are dropped |
| UnitRing.TextFile.Fgets | src/unit.c:58 | delivers the chunks of the file in order; fails exactly at the end, and says nothing of the buffer then |
| UnitRing.ReadAnswers | src/unit.c:68-78 | reads four lines into the answer buffers; flags an error exactly when a line is missing or longer than 81 bytes |
| UnitRing.ReadUnit | src/unit.c:55-90 | accepts exactly the valid six-chunk records; then every byte of the node's buffers is the record's text and zeros, whatever the node held before; links untouched |
| UnitRing.LoadUnit | src/unit.c:55-100 | one record moves from the file to the chain when good, else the same node is filled again; nothing already linked changes |
| UnitRing.UnitDequeInit | src/unit.c:13-123 | the result is the last node of a ring of fresh nodes that hold exactly the accepted records of all files in order; only the placeholder is freed |
| UnitRing.UnitDequeFree | src/unit.c:125-152 | on a ring, from any node, frees every node once, in ring order, ending with that node, and touches no freed node; the codes for null and for a single unit |
| UnitRing.FreeUpTo | src/unit.c:144-149 | the loop frees the nodes of a cut ring one by one, reading each link before its node is freed |
| UnitRing.FromVisitsEachOnce | src/unit.c:140-149 | the order in which the destructor frees is a permutation of the ring without repetition |
| UnitRing.AfterIsModular | src/room.c:131-133 | following next k times from position i ends at position (i + k) mod n |
| UnitRing.RingReturnsAfterItsSize | src/unit.c:116-117 | k steps return to the start exactly when n divides k, so there is one cycle of all n nodes |
| UnitRing.NextAndPrevAreInverse | src/unit.c:97-98 | next and prev undo each other on every node, and stay on the ring |
| UnitRing.RingIsConnected | src/unit.c:116-117 | every node is reached from every other |
| UnitRing.NothingElseIsReached | src/unit.c:111-117 | a node outside the ring, such as the freed placeholder, is reached by no number of next links, nor by prev from there |
| UnitRing.HeldTextReadsBack | src/room.c:135-139 | the strings read from a node are those the file gave, with zeros behind them |
| RingWalk.PositionAdvances | src/room.c:129-133 | one round moves the cursor by its step, modulo the ring |
| RingWalk.SameQuestionIff | src/room.c:129-133 | two rounds share a question exactly when n divides the steps between them |
| RingWalk.NoRepeatedQuestion | src/room.c:129-133 | rounds i < j use different questions when n > 5 (j - i) |
| RingWalk.RepeatOnSmallRing | src/room.c:129-133 | for every n up to 5 d some walk repeats a question after d rounds |
| RingWalk.NeverRepeatsIff | include/room.h:11-14 | no walk repeats a question after d rounds if and only if n > 5 d |
| RingWalk.GameQuestionsDiffer | include/room.h:11-14 | with more than 70 questions the 15 rounds of a game ask 15 different ones |
| SeatTrace.LegalIsWellShaped | src/room.c:112-223 | a trace the automaton accepts is waits, then questions each answered before the next, then one close; after a failed send or receive only the close follows |
| SeatTrace.WrongAnswerGetsOneMorePacket | src/room.c:157-197 | in a finished trace a wrong answer before round 15 is followed by exactly one packet, of the next round and with -1 in the seat's own slot, and the close; in round 15 by the close alone |
| SeatTrace.CutSeatIsNeverAsked | src/room.c:115-121 | a seat that missed a wait packet is never asked anything |
| SeatTrace.QuestionsAreNumbered | src/room.c:145-149 | in a trace the automaton accepts every question packet is a game packet numbered from 1 to 15 |
| SeatTrace.ScoreIsClosedForm | src/room.c:157-197 | the score is the number of right answers while nothing went wrong, -1 right after a wrong answer that was the first trouble, -2 in all other cases |
| RoomInvariant.InitKeeps | src/room.c:39-82 | INIT keeps the invariant, with a failed receive, a failed send and a success |
| RoomInvariant.WaitTrace | src/room.c:112-122 | a seating adds one wait packet to a seat's trace exactly when no seat before it failed |
| RoomInvariant.WaitKeeps | src/room.c:84-123 | WAIT keeps the invariant |
| RoomInvariant.InGameWereReached | src/room.c:157-173 | players still in the game after the question went out are among those counted as alive |
| RoomInvariant.AskKeeps | src/room.c:145-173 | sending the question moves every seat's score and automaton together: still in and asked, or out |
| RoomInvariant.AnswerKeeps | src/room.c:183-203 | collecting the answers moves every seat's score and automaton together to the next round |
| RoomInvariant.GameKeeps | src/room.c:125-204 | GAME keeps the invariant: scores are the last round's number, -1 or -2, the cursor is where the walk leads, and a game cut short leaves at most one player in |
| RoomInvariant.CloseKeeps | src/room.c:206-224 | GAMEOVER and FIN finish the trace of every seat |
| RoomInvariant.StepKeeps | src/room.c:37-226 | every pass of the loop keeps the invariant, whatever the environment answers |
| RoomTheorems.Reached | src/room.c:37-226 | every state that a room reaches from its start, over any inputs, satisfies the invariant |
| RoomTheorems.ReachedSnoc | src/room.c:37-226 | a run followed by one more pass of the loop is a run |
| RoomTheorems.SurvivorsAreTied | src/room.c:145-204 | in every reachable state before a round or at the end a score is the number of rounds played, -1 or -2, so any two still in are tied; no score ever leaves -2..15 |
| RoomTheorems.ScoreFollowsTraceIff | src/room.c:61-197 | in every reachable state, of any phase, the score kept by the loops is the closed form of the seat's events if and only if the last pass was not an INIT whose send failed; after such a pass it is 0 and the closed form -2 |
| RoomTheorems.EveryTraceIsWellShaped | src/room.c:112-223 | in every reachable state every seat's events have the prescribed shape |
| RoomTheorems.NoPacketAnnouncesTheEnd | src/room.c:140-149 | every question packet of every run is a game packet with a number from 1 to 15, so none carries 0 |
| RoomTheorems.FinishedGame | src/room.c:206-224 | whenever a run is back in INIT or at its end, each seat was closed exactly once and last, and every wrong answer got its one more packet |
| RoomTheorems.RoundEndsGameIff | src/room.c:155-178 | a round ends the game exactly when at most one of its question packets went out; else answers are collected and at least two went out |
| RoomTheorems.GameOverStandings | src/room.c:140-178 | in every reachable GAMEOVER: cut short, whoever is above -1 is the only one, has a point for each round before, and was last sent the question of this round; after the last round everyone above -1 has 15 |
| RoomTheorems.GameEnds | src/room.c:125-204 | every game is over after at most 16 passes through GAME, and stays in GAME until then |
| RoomTheorems.OverWithinTwoVisits | src/room.c:155-178 | once at most one player is in the game it is over within two passes |
| RoomTheorems.LastPlayerIsAskedAgainIff | src/room.c:140-204 | for one pass through GAME: the last player left is asked and judged once more in it exactly when a round is left and both they and somebody who has just lost can be reached; the pass ends the game with them still in exactly when no round is left, or they can be reached and nobody who has just lost can |
| RoomTheorems.LastPlayerWinsIff | src/room.c:125-204 | for the game as a whole: it is over within two passes, and the last player left ends it still in exactly when no round was left, or the question reached them and nobody who had just lost, or they answered it rightly and it was the last or the next reached them too |
| RoomTheorems.AlwaysRightFinish | src/room.c:125-204 | two players who get and rightly answer every question play all rounds and stand at 15, whatever the others do |
| RoomTheorems.LobbyPackets | src/room.c:64-122 | in every reachable lobby without a lost wait packet, seat i saw exactly the packets with occupancies from i + 1 to the present, in order |
| RoomTheorems.StartPacketIff | src/room.c:107-122 | the packet that starts the game reaches a seat exactly when no send up to that seat failed |
| RoomTheorems.CursorIsModular | src/room.c:22-133 | over any games the cursor is at (n - 1 + sum of all steps) mod n |
| RoomTheorems.QuestionsDiffer | src/room.c:128-133 | two states of one run with k rounds in between stand on different questions when n > 5 k |
| RoomLaws.PhaseLaw | src/room.c:37-226 | which phase follows which in every run: GAMEOVER and only it leads to INIT, FIN and only it to EXIT; FIN is entered exactly by a failed receive in INIT or WAIT or a failed first send; a game goes on exactly while two seats get the question |
| RoomLaws.RoomBlocksIff | src/room.c:48-88 | a room blocks exactly in INIT with no request queued and in WAIT with no join queued |
| RoomLaws.RoomTakes | src/room.c:48-88 | WAIT takes the oldest join; INIT the oldest join if there is one, else the oldest create; with a failed queue or in another phase nothing is taken |
| RoomLaws.InitPassLaw | src/room.c:39-82 | every field of the room and of its one wait packet after INIT |
| RoomLaws.WaitPassLaw | src/room.c:84-123 | every field of the room after WAIT; wait packets go to the seats in order up to the first failed send, which alone is marked, each with occupancy, size, own id and names |
| RoomLaws.EveryWaitPacket | src/room.c:64-115 | every wait packet of every run, lost or not, gives some number of the seated players, the size of the room, the id of its seat, and their names in order with the rest empty |
| RoomLaws.RoundEventsLaw | src/room.c:135-197 | in a round the same packet goes in seat order to exactly the seats at -1 or above; then, if at least two got it, answers are taken in seat order from exactly those still in, against the key of this question |
| RoomLaws.RoundStateLaw | src/room.c:128-204 | after a round: the walk one step on, and every score, the round number and the phase by cases of what happened to each seat |
| RoomLaws.EveryQuestionPacket | src/room.c:128-163 | every question packet of every run carries the text and the answers of the question the walk has led to, the round, and the scores of all seats before it |
| RoomLaws.QuietPassLaw | src/room.c:140-224 | the pass after the last round and the closing passes: what is closed, in which order, and that nothing else changes |
| RoomWitnesses.OneLeftRun | src/room.c:155-197 | there is a run to a state in which one player is left and the other has just lost |
| RoomWitnesses.LastPlayerLoses | src/room.c:155-197 | there is a run in which the last player left is asked again and loses, so that nobody is left |
| RoomWitnesses.FullRun | src/room.c:39-123 | there is a run that seats two players and stands before the first question with both at 0 |
| RoomWitnesses.BothLookLost | src/client_logic.c:141-179 | there is a run in which two players are in the game and the first question makes both clients take it for over |
| RoomWitnesses.StartPacketNeverSent | src/room.c:112-122 | there is a run that starts the game with a player in it who was never sent anything |
| RoomWitnesses.OpenerNotReached | src/room.c:70-74 | there is a run in which the opener could not be reached and the room keeps score 0 for them |
| RoomWitnesses.SecondGameRun | src/room.c:206-214 | there is a run in which a room finishes a game and seats the opener of a second one, with the cursor where the first game left it |
| Room.RoomFsm.InitPass | src/room.c:39-82 | the pass on arrays and packet buffer computes the specification of INIT |
| Room.RoomFsm.SendWaits | src/room.c:112-122 | the loop sends to the seats in order up to the first failure, which it marks in the scores |
| Room.RoomFsm.WaitPass | src/room.c:84-123 | the pass computes the specification of WAIT; the reused name table holds exactly the seated names |
| Room.RoomFsm.WalkOn | src/room.c:129-133 | following next once per step brings the pointer to the node at the position sum modulo n |
| Room.RoomFsm.FillGamePacket | src/room.c:135-149 | the packet carries the text and answers at the cursor, the round, and bytes that read back as all the scores |
| Room.RoomFsm.AskAll | src/room.c:155-173 | scores in place, alive counter and events are those of the specification |
| Room.RoomFsm.CollectAnswers | src/room.c:183-197 | scores in place and events are those of the specification |
| Room.RoomFsm.GamePass | src/room.c:125-204 | the pass computes the specification of GAME |
| Room.RoomFsm.GameOverPass | src/room.c:206-214 | closes every seat in order and returns to INIT |
| Room.RoomFsm.FinPass | src/room.c:216-224 | closes the players seated so far and ends the loop |
| Room.RoomFsm.Receive | src/room.c:48-98 | takes from the shared queue what the selector of the state must deliver; leaves it alone when the queue fails or the state does not receive |
| Room.RoomFsm.PassOnQueue | src/room.c:37-226 | one pass through the switch on the shared queue changes room and queue exactly as the specification says for the delivered message |
| Room.RoomFsm.Run | src/room.c:37-226 | the loop reaches the state that the specification gives for its inputs |
| Room.OpenRoom | src/server.c:77-126 | a room opened on the loaded ring starts with exactly the questions of the files and satisfies the invariant |
| MessageQueue.Select | src/room.c:48 | the position taken is the one that msgrcv must deliver; none exactly when no message matches |
| MessageQueue.DeliveryIsUnique | include/msg_struct.h:16-19 | at most one position satisfies what msgrcv promises |
| MessageQueue.WhatReceiversGet | include/msg_struct.h:16-19 | workers get connections, WAIT gets joins, INIT gets a create exactly when no join is queued, and never a connection |
| MessageQueue.TakeFromMiddle | src/worker.c:39 | taking the delivered message out of the middle takes the first of its type and leaves all other types alone |
| MessageQueue.Queue.MsgSnd | src/worker.c:89-99 | appends one message and keeps delivery first in, first out per type; a failed send changes nothing |
| MessageQueue.Queue.MsgRcv | src/room.c:48-88 | the search takes out exactly the message to be delivered and keeps delivery first in, first out per type |
| Worker.WorkerFsm.WaitPass | src/worker.c:36-51 | takes the connection that the queue must deliver, or ends when the queue fails |
| Worker.WorkerFsm.RecvPass | src/worker.c:53-67 | keeps the request, or notes the error |
| Worker.WorkerFsm.ProcPass | src/worker.c:68-110 | a request with a name and type 0 or 1 is enqueued as a join or a create with its own size, name and connection, or lost when the send fails; a nameless or disconnect request leads to WAIT, an unknown type leaves the worker in PROC, and neither enqueues |
| Worker.WorkerFsm.ErrorPass | src/worker.c:112-115 | returns to WAIT |
| Worker.WorkerFsm.Pass | src/worker.c:34-117 | one pass through the switch changes the worker and the shared queue exactly as its phase and the outcome of msgrcv or msgsnd say |
| Worker.WorkerPhases | src/worker.c:34-117 | what each phase is entered from and when, and what happens to socket, request and noted error |
| Worker.ForwardIsAsAsked | src/worker.c:69-108 | exactly the named requests of type 0 or 1 are passed on, and as the packet asked |
| ServerInvariant.AcceptKeeps | src/server.c:172-184 | accepting a connection keeps the server's invariant, whether the queue takes it or not |
| ServerInvariant.HeldOnce | src/worker.c:34-117 | a connection in one worker's hand is in no other |
| ServerInvariant.SamePlaces | src/room.c:46-110 | when what leaves some places is what comes into others, the account of all places is unchanged |
| ServerInvariant.WorkerTakes | src/worker.c:36-51 | a worker taking a connection keeps the server's invariant |
| ServerInvariant.WorkerForwards | src/worker.c:82-101 | a worker whose request the queue takes keeps the server's invariant |
| ServerInvariant.WorkerGoesOn | src/worker.c:53-115 | every other worker step keeps the server's invariant; a connection dropped on a disconnect, after a failed receive or by a failed send is counted as abandoned |
| ServerInvariant.RoomMovesConns | src/room.c:46-223 | a seating moves exactly one connection into the room, a close moves all of them out, nothing else moves any |
| ServerInvariant.SeatingRemembers | src/room.c:46-110 | a room's pass keeps the first seat the opener's with the size asked for, and the others joiners' |
| ServerInvariant.RoomKeeps | src/room.c:37-226 | every room step keeps the server's invariant |
| ServerInvariant.StepKeeps | src/server.c:172-184 | every action of any thread keeps the server's invariant, with every outcome of msgrcv and msgsnd |
| ServerInvariant.Reached | src/server.c:114-127 | every state reached by any interleaving, with any number of workers and rooms, satisfies the invariant |
| ServerInvariant.ThreadsBlockIff | src/room.c:48-88 | a thread that has not ended is held up exactly by an empty queue: a worker in WAIT with no connection, a room in INIT with no request or in WAIT with no join |
| ServerInvariant.RoomsTakeInOrder | src/room.c:48-98 | a room takes a create only in INIT and with no join queued, never a connection, and always the oldest of its type |
| ServerInvariant.ExactlyOnePlace | src/worker.c:34-117 | in every reachable state each accepted connection is in exactly one place: queued, in a hand, on a seat, closed or abandoned; no other connection is anywhere |
| ServerInvariant.NobodySitsTwice | src/room.c:46-110 | in every reachable state two seats, of one room or of two, never hold the same connection, and no seated player was closed or abandoned |
| ServerInvariant.CreatorsSitFirst | src/room.c:46-99 | a player whose request was passed on as a create sits only on seat 0; the size passed on for seat 0 is the room's; every later seat holds a joiner |
| ServerPackets.QueuedAsAsked | src/worker.c:69-108 | every queued request is what the packet received on its connection asked |
| ServerPackets.SeatedAsAsked | src/room.c:46-99 | by the packets the clients sent: seat 0 holds somebody who asked to create or join with the room's size, every later seat somebody who asked to join, all under the name they sent |
| ServerInvariant.DeliveryIsFifo | src/worker.c:87-99 | per type, all messages ever sent are those received followed by those still queued, in order |
| ServerHistory.StepGrows | src/worker.c:34-117 | no action takes anything back: closed, abandoned, seated-or-closed, sent and received only grow, and no request is replaced |
| ServerHistory.HistoryGrows | src/worker.c:34-117 | the same between any two states of one run |
| ServerHistory.GoneForGood | src/room.c:206-223 | a connection closed or abandoned at some point of a run is never again queued, in a hand or on a seat |
| ServerHistory.SeatedUntilClosed | src/room.c:61-223 | who was seated at some point of a run is ever after on exactly one seat or closed exactly once, never queued, in a hand or abandoned |
| ServerHistory.RoomsAreReached | src/server.c:114-127 | every room of a reached server was brought there by passes of its own, so what holds of all runs of one room holds of it |
| ServerWitnesses.CreatorIsSeated | src/worker.c:93-101 | there is a run of the server in which a client's create request goes from accept through worker and queue to the first seat of a waiting room |
| ServerUses.SeatedEvents | src/room.c:70-197 | while players are seated, a room sends to and receives from nobody else, and has closed none of them |
| ServerUses.ClosingPass | src/room.c:206-224 | GAMEOVER and FIN close every seat once, in order, and do nothing else |
| ServerUses.UsedAreOpen | src/room.c:37-226 | whoever a pass of any thread sends to, receives from or closes was neither closed nor abandoned before |
| ServerUses.StepUses | src/room.c:206-224 | within one pass nothing follows a close on the same connection, and exactly the connections closed by a call count as closed |
| ServerUses.NothingAfterClose | src/room.c:206-224 | in every run no thread sends to, receives from or closes a connection after its close, and the closed connections are exactly those on which close was called |
| ServerProgram.ServerFsm.constructor | src/server.c:82-127 | workers and rooms around one queue, all rooms on one ring, are in the start state |
| ServerProgram.ServerFsm.AcceptPass | src/server.c:172-184 | the acceptor's pass on the queue object is the Accept action |
| ServerProgram.ServerFsm.WorkerPass | src/worker.c:34-117 | a pass of a worker object on the shared queue object is the worker's action, and touches no other object |
| ServerProgram.ServerFsm.RoomPass | src/room.c:37-226 | a pass of a room object on the shared queue object is the room's action, and touches no other object |
| ServerProgram.ServerFsm.Serve | src/server.c:111-184 | any order of passes that the threads can take brings the objects to the state that the transition system gives |
| ServerProgram.ServeFrom | src/server.c:74-184 | from loading the question files on, the objects are always in a state reached by the same actions |
| ServerProgram.PlayersSitOnce | src/room.c:46-110 | no connection is on two seats of the running room objects, and none of the seated is closed |
| Client.WaitForPlayers | src/client_logic.c:77-122 | copies the wait packet with its name table, zeroes the scores, and returns the code; on any failure changes nothing |
| Client.GetUnit | src/client_logic.c:125-155 | reads any packet as a game packet, a wait packet by the bytes that overlay it; copies the scores and, if the game goes on for this client, the question; the code for every case |
| Client.OwnSlotIsRead | src/client_logic.c:141-147 | a seat in use gets the verdict on its own score, whatever the rest of the buffer holds |
| Client.WaitPacketOverlay | src/client_logic.c:137-152 | what a wait packet read as a question shows: its numbers as scores, the rest of the first name as the question, and the end of the game when that name is shorter than two bytes |
| Client.LobbyAgrees | src/client_logic.c:88-104 | with no wait packet lost, a client waits on all packets but the last, starts on the one that fills the room, and shows exactly the room's size and the seated names |
| Client.RoundAgrees | src/client_logic.c:137-152 | what a client reads of a round is the room's: every seat's score, the round, the question and its answers |
| Client.VerdictIsExactIff | src/client_logic.c:141-179 | an addressed client takes itself for lost exactly when the room does, if and only if the round is not the first |
| Client.FirstQuestionLooksLost | src/client_logic.c:173-179 | in the first round every addressed client takes the game for over |

## Left out

- The ncurses interface and mouse handling (src/client.c, include/client_ui.h): calls into another library.
- Server start-up, signals, thread creation and shutdown (src/server.c), except accepting a connection and loading the ring.
- Byte transport: a send or receive fails or carries a whole packet. Partial transfers, buffer sizes and structure layout are not modelled, except that the server's two kinds of packet overlay each other; a receive at end of file, which leaves the old packet in place, is an arbitrary packet.
- src/client_logic.c:19 gives recv the size of a pointer, so on common machines a client reads only the first eight bytes of a packet per call. The `Client` results are about the packet as the room sends it, read whole.
- Client.GetUnit: does not model which old bytes of the room's buffer stand in the score slots beyond the seats in use; they are arbitrary here.
- UnitRing.TextFile.Fgets: does not model what a failed call leaves in the caller's buffer, because the source reads it only for a record it rejects; the write before the start of the buffer for a line that begins with NUL is outside the model.
- UnitRing.UnitDequeInit: does not model a load without any valid record, because the source then uses an unset pointer, nor a failed allocation. The files come as a list of contents; directory listing and path building are left out.
- The buffers inside a node are values of fixed size, as they are embedded in the structure and have no identity of their own; user names are the C strings in their 40-byte buffers.
- Room sizes outside 2 to 4: no client sends them, and the room would write beyond its arrays.
- The distribution of the random step: it is any number from 1 to 5.
- Whether clicks are right: clients send answers from 0 to 3 (src/client_logic.c:160) and the room compares with keys from 1 to 4 (src/room.c:191); an answer is an arbitrary byte here.
- Progress: blocked queue and socket calls may block for ever, and a worker stays in PROC on a request of unknown type.
- The client's connection, nickname and send functions, logging, time stamps and the sync flags: they would add only easy members.
