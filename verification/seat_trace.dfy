/**
 What one seat of a room may see during one game, told as an automaton over the events of that
 seat alone. It knows nothing of the room's arrays and loops; the room is proved to stay inside
 it, and the room's score for the seat turns out to be a function of the seat's trace.
 */
module SeatTrace {
  import opened Wrappers
  import opened CStrings
  import opened Protocol

  /** One send, receive or close on the connection of the seat id; ok tells whether a send went out. */
  datatype Event =
    | Waited(id: nat, packet: Packet, ok: bool)
    | Asked(id: nat, packet: Packet, ok: bool)
    | Answered(id: nat, answer: Option<Byte>, rans: Byte)
    | Closed(id: nat)

  /** The events of one seat. */
  function Project(log: seq<Event>, id: nat): seq<Event>
  {
    if log == [] then []
    else
      Project(log[..|log| - 1], id) + if log[|log| - 1].id == id then [log[|log| - 1]] else []
  }

  lemma ProjectSnoc(log: seq<Event>, e: Event, id: nat)
    ensures Project(log + [e], id) == Project(log, id) + if e.id == id then [e] else []
    ensures Project([], id) == []
  {
    assert (log + [e])[..|log|] == log;
  }

  lemma {:induction false} ProjectConcat(a: seq<Event>, b: seq<Event>, id: nat)
    ensures Project(a + b, id) == Project(a, id) + Project(b, id)
  {
    if b == [] {
      assert a + b == a;
    } else {
      assert (a + b)[..|a + b| - 1] == a + b[..|b| - 1];
      ProjectConcat(a, b[..|b| - 1], id);
    }
  }

  datatype SeatState =
    | Lobby(cut: bool)       // before the first question; cut once a wait packet failed
    | Pending(round: nat)    // sent the question of this round, answer outstanding
    | Survived(round: nat)   // answered every round up to this one
    | Lost(round: nat)       // answered this round wrongly, the last packet still to come
    | Gone                   // nothing more may be sent
    | Shut
    | Bad

  /** The packet shows the seat the given score. */
  predicate Shows(packet: Packet, id: nat, score: int)
  {
    packet.GamePacket? && id < |packet.score| && FromByte(packet.score[id]) == score
  }

  function SeatStep(s: SeatState, e: Event): SeatState
  {
    match e
    case Waited(id, packet, ok) =>
      if s.Lobby? && packet.WaitPacket? && packet.id == id then Lobby(s.cut || !ok) else Bad
    case Asked(id, packet, ok) =>
      if s.Survived? || s == Lobby(false) then
        var round := if s.Survived? then s.round else 0;
        if round < LAST_QUEST && Shows(packet, id, round) && packet.questNum == round + 1 then
          if ok then Pending(round + 1) else Gone
        else Bad
      else if s.Lost? && s.round < LAST_QUEST && Shows(packet, id, PLR_LOST) && packet.questNum == s.round + 1 then
        Gone
      else Bad
    case Answered(id, answer, rans) =>
      if !s.Pending? then Bad
      else if answer == None then Gone
      else if answer == Some(rans) then Survived(s.round)
      else Lost(s.round)
    case Closed(_) =>
      if s.Lobby? || s.Pending? || s.Gone? || ((s.Survived? || s.Lost?) && s.round == LAST_QUEST) then Shut
      else Bad
  }

  function Run(trace: seq<Event>): SeatState
  {
    if trace == [] then Lobby(false) else SeatStep(Run(trace[..|trace| - 1]), trace[|trace| - 1])
  }

  lemma RunOfNothing()
    ensures Run([]) == Lobby(false)
  {
  }

  lemma RunSnoc(trace: seq<Event>, e: Event)
    ensures Run(trace + [e]) == SeatStep(Run(trace), e)
  {
    assert (trace + [e])[..|trace|] == trace;
  }

  // ----- what the automaton allows, said without it -----

  lemma {:induction false} PrefixesAreLegal(trace: seq<Event>, i: nat)
    requires Run(trace) != Bad && i <= |trace|
    ensures Run(trace[..i]) != Bad
    ensures i < |trace| ==> Run(trace[..i + 1]) == SeatStep(Run(trace[..i]), trace[i])
    decreases |trace|
  {
    if i < |trace| {
      assert trace[..i + 1][..i] == trace[..i];
    }
    if i == |trace| {
      assert trace[..i] == trace;
    } else if i == |trace| - 1 {
      assert trace[..i + 1] == trace;
    } else {
      var init := trace[..|trace| - 1];
      PrefixesAreLegal(init, i);
      assert init[..i] == trace[..i] && init[..i + 1] == trace[..i + 1];
    }
  }

  predicate WrongAnswer(e: Event)
  {
    e.Answered? && e.answer.Some? && e.answer != Some(e.rans)
  }

  /** The event went as the player would wish. */
  predicate Good(e: Event)
  {
    match e
    case Waited(_, _, ok) => ok
    case Asked(_, _, ok) => ok
    case Answered(_, answer, rans) => answer == Some(rans)
    case Closed(_) => false
  }

  /** The event after which nothing more may be sent. */
  predicate Failure(e: Event)
  {
    match e
    case Asked(_, _, ok) => !ok
    case Answered(_, answer, _) => answer == None
    case _ => false
  }

  /** How an event fits behind those before it. */
  predicate ShapedAt(trace: seq<Event>, i: nat)
    requires i < |trace|
  {
    && (trace[i].Closed? ==> i == |trace| - 1)
    && (trace[i].Answered? ==> i > 0 && trace[i - 1].Asked? && trace[i - 1].ok)
    && (i > 0 && trace[i].Asked? ==> trace[i - 1].Waited? || trace[i - 1].Answered?)
    && (i > 0 && trace[i].Waited? ==> trace[i - 1].Waited?)
    && (i > 0 && Failure(trace[i - 1]) ==> trace[i].Closed?)
    && (i > 1 && WrongAnswer(trace[i - 2]) ==> trace[i].Closed?)
  }

  /** Waits, then alternating questions and answers, then one close; failures and losses end the game. */
  predicate WellShaped(trace: seq<Event>)
  {
    forall i :: 0 <= i < |trace| ==> ShapedAt(trace, i)
  }

  // The state tells what the last events were.
  lemma StateShowsLastEvents(trace: seq<Event>)
    requires trace != [] && Run(trace) != Bad
    ensures var init, e := trace[..|trace| - 1], trace[|trace| - 1];
            && Run(init) != Bad && Run(init) != Shut
            && match Run(trace) {
                 case Lobby(_) => e.Waited?
                 case Pending(_) => e.Asked? && e.ok
                 case Survived(_) => e.Answered? && Good(e)
                 case Lost(_) => WrongAnswer(e)
                 case Gone => Failure(e) || (e.Asked? && init != [] && WrongAnswer(init[|init| - 1]))
                 case Shut => e.Closed?
                 case Bad => false
               }
  {
    var init, e := trace[..|trace| - 1], trace[|trace| - 1];
    assert Run(trace) == SeatStep(Run(init), e);
    if Run(init).Lost? {
      assert Run(init) == SeatStep(Run(init[..|init| - 1]), init[|init| - 1]);
    }
  }

  lemma {:induction false} LegalIsWellShaped(trace: seq<Event>)
    requires Run(trace) != Bad
    ensures WellShaped(trace)
  {
    if trace != [] {
      var init, i := trace[..|trace| - 1], |trace| - 1;
      StateShowsLastEvents(trace);
      LegalIsWellShaped(init);
      if init != [] {
        StateShowsLastEvents(init);
      }
      assert ShapedAt(trace, i);
      forall k | 0 <= k < |init| ensures ShapedAt(trace, k) {
        assert ShapedAt(init, k);
        assert init[k] == trace[k];
      }
    }
  }

  // Every question in a legal trace is numbered from 1 to LAST_QUEST.
  lemma QuestionsAreNumbered(trace: seq<Event>, i: nat)
    requires Run(trace) != Bad && i < |trace| && trace[i].Asked?
    ensures trace[i].packet.GamePacket? && 1 <= trace[i].packet.questNum <= LAST_QUEST
  {
    PrefixesAreLegal(trace, i);
    PrefixesAreLegal(trace, i + 1);
  }

  // No event of a log is lost by looking at it seat by seat.
  lemma {:induction false} ProjectKeepsAll(log: seq<Event>, e: Event)
    requires e in log
    ensures e in Project(log, e.id)
  {
    var init, last := log[..|log| - 1], log[|log| - 1];
    if e in init {
      ProjectKeepsAll(init, e);
    } else {
      assert log == init + [last];
    }
  }

  // A wrong answer before the last round is followed, in a finished trace, by exactly one packet
  // that shows the seat its own loss, and by the close.
  lemma WrongAnswerGetsOneMorePacket(trace: seq<Event>, i: nat)
    requires Run(trace) == Shut && i < |trace| && WrongAnswer(trace[i])
    ensures i > 0 && trace[i - 1].Asked? && trace[i - 1].packet.GamePacket?
    ensures var round := trace[i - 1].packet.questNum;
            if round == LAST_QUEST then
              |trace| == i + 2 && trace[i + 1].Closed?
            else
              && |trace| == i + 3 && trace[i + 2].Closed? && trace[i + 1].Asked?
              && Shows(trace[i + 1].packet, trace[i + 1].id, PLR_LOST)
              && trace[i + 1].packet.questNum == round + 1
  {
    LegalIsWellShaped(trace);
    assert ShapedAt(trace, i);
    PrefixesAreLegal(trace, i - 1);
    PrefixesAreLegal(trace, i);
    PrefixesAreLegal(trace, i + 1);
    assert trace[..|trace|] == trace;
    if i + 1 < |trace| {
      PrefixesAreLegal(trace, i + 2);
    }
    if i + 2 < |trace| {
      assert ShapedAt(trace, i + 2);
    }
  }

  // A seat that missed a wait packet is never asked anything.
  lemma {:induction false} CutSeatIsNeverAsked(trace: seq<Event>, i: nat, j: nat)
    requires Run(trace) != Bad && i < j < |trace|
    requires trace[i].Waited? && !trace[i].ok
    ensures !trace[j].Asked? && Run(trace[..j]) == Lobby(true)
  {
    hide Run;
    PrefixesAreLegal(trace, i);
    PrefixesAreLegal(trace, j);
    PrefixesAreLegal(trace, j + 1);
    if j == i + 1 {
    } else {
      CutSeatIsNeverAsked(trace, i, j - 1);
      PrefixesAreLegal(trace, j - 1);
    }
  }

  // ----- the score of a seat -----

  /** The score the room keeps for a seat in this state. */
  function ScoreOf(s: SeatState): int
  {
    match s
    case Lobby(cut) => if cut then PLR_DISCONNECT else 0
    case Pending(round) => round - 1
    case Survived(round) => round
    case Lost(_) => PLR_LOST
    case _ => PLR_DISCONNECT
  }

  predicate AllGood(trace: seq<Event>)
  {
    forall e :: e in trace ==> Good(e)
  }

  function RightAnswers(trace: seq<Event>): nat
  {
    if trace == [] then 0
    else
      RightAnswers(trace[..|trace| - 1])
      + if trace[|trace| - 1].Answered? && Good(trace[|trace| - 1]) then 1 else 0
  }

  /**
   The score in closed form: the number of right answers while nothing went wrong, PLR_LOST right
   after the first thing to go wrong is a wrong answer, PLR_DISCONNECT in every other case.
   */
  function ClosedForm(trace: seq<Event>): int
  {
    if AllGood(trace) then RightAnswers(trace)
    else if WrongAnswer(trace[|trace| - 1]) && AllGood(trace[..|trace| - 1]) then PLR_LOST
    else PLR_DISCONNECT
  }

  lemma {:induction false} ScoreIsClosedForm(trace: seq<Event>)
    requires Run(trace) != Bad && Run(trace) != Shut
    ensures ScoreOf(Run(trace)) == ClosedForm(trace)
    ensures AllGood(trace) <==> Run(trace) == Lobby(false) || Run(trace).Pending? || Run(trace).Survived?
    ensures Run(trace).Lost? ==> WrongAnswer(trace[|trace| - 1]) && AllGood(trace[..|trace| - 1])
    ensures Run(trace).Pending? || Run(trace).Survived? ==> Run(trace).round > 0
  {
    hide Run;
    RunOfNothing();
    if trace != [] {
      var init, e := trace[..|trace| - 1], trace[|trace| - 1];
      assert trace == init + [e];
      RunSnoc(init, e);
      ScoreIsClosedForm(init);
      assert AllGood(trace) <==> AllGood(init) && Good(e);
    }
  }
}
