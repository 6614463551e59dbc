/** One bounded negotiation between two lanes (`acp/negotiation.py`,
    `acp/performatives.py`, `core/models/message.py`).

    The responder is adversarial: it is any function from the number of the call to a
    reply. The transcripts the driver can produce are characterised exactly. */
module Negotiation {
  import opened Wrappers

  datatype Performative = Propose | Counter | Accept | Reject | Inform | Withdraw

  /** What may legally answer each performative. */
  function Replies(p: Performative): set<Performative> {
    match p
    case Propose => {Accept, Reject, Counter, Withdraw}
    case Counter => {Accept, Reject, Counter, Withdraw}
    case Accept => {Inform}
    case Reject => {Propose, Inform}
    case Inform => {Propose, Counter, Inform}
    case Withdraw => {Propose, Inform}
  }

  datatype Lane = LaneA | LaneB

  function Other(l: Lane): Lane {
    if l.LaneA? then LaneB else LaneA
  }

  datatype Reply = Reply(engaged: bool, performative: Performative, summary: string)

  datatype Move = Move(lane: Lane, performative: Performative, summary: string)

  /** A delivered message; a blocking one stops its receiver until it is answered. */
  datatype Message = Message(sender: Lane, recipient: Lane, intent: Performative, blocking: bool)

  function MessageFor(lane: Lane, p: Performative): Message {
    Message(lane, Other(lane), p, p == Propose || p == Counter)
  }

  function Messages(moves: seq<Move>): (ms: seq<Message>)
    ensures |ms| == |moves|
    ensures forall i | 0 <= i < |moves| :: ms[i] == MessageFor(moves[i].lane, moves[i].performative)
  {
    seq(|moves|, i requires 0 <= i < |moves| => MessageFor(moves[i].lane, moves[i].performative))
  }

  lemma MessagesSnoc(moves: seq<Move>, m: Move)
    ensures Messages(moves + [m]) == Messages(moves) + [MessageFor(m.lane, m.performative)]
  {
  }

  datatype Limits = Limits(maxExchanges: nat, escalateAfter: nat, escalateToHumans: bool)

  function Max(a: int, b: int): int { if a > b then a else b }

  function Min(a: int, b: int): int { if a < b then a else b }

  /** The driver's constructor clamps what it is given. */
  function Clamp(maxExchanges: int, escalateAfter: int, humans: bool): (l: Limits)
    ensures 1 <= l.escalateAfter <= l.maxExchanges
    ensures 1 <= escalateAfter <= maxExchanges ==> l == Limits(maxExchanges, escalateAfter, humans)
    ensures maxExchanges < 1 ==> l.maxExchanges == 1
    ensures maxExchanges >= 1 ==> l.maxExchanges == maxExchanges
    ensures escalateAfter < 1 ==> l.escalateAfter == 1
    ensures escalateAfter > l.maxExchanges ==> l.escalateAfter == l.maxExchanges
    ensures l.escalateToHumans == humans
  {
    var cap := Max(1, maxExchanges);
    Limits(cap, Max(1, Min(escalateAfter, cap)), humans)
  }

  predicate SameMove(a: Move, b: Move) {
    a.performative == b.performative && a.summary == b.summary
  }

  /** The last two moves say what the two before them said. */
  predicate IsStuck(moves: seq<Move>) {
    var n := |moves|;
    n >= 4 && SameMove(moves[n - 2], moves[n - 4]) && SameMove(moves[n - 1], moves[n - 3])
  }

  datatype Reason = Declined | Illegal | RejectedLate | Stuck | CapReached

  datatype Ending = Agreed | Abandoned | Escalated(reason: Reason)

  // ---------------------------------------------------------------------
  // The exchange record
  // ---------------------------------------------------------------------

  datatype Outcome = Pending | OutcomeAgreed | OutcomeRejected | OutcomeEscalated | OutcomeAbandoned

  class Exchange {
    const maxExchanges: nat
    var moves: seq<Move>
    var outcome: Outcome
    var resolvedBy: Option<Lane>
    var collisionAvoided: bool

    constructor (maxExchanges: nat)
      ensures this.maxExchanges == maxExchanges && moves == []
      ensures outcome == Pending && resolvedBy == None && !collisionAvoided
    {
      this.maxExchanges := maxExchanges;
      moves, outcome, resolvedBy, collisionAvoided := [], Pending, None, false;
    }

    method Resolve(o: Outcome, who: Lane, avoided: bool)
      modifies this
      ensures outcome == o && resolvedBy == Some(who) && collisionAvoided == avoided
      ensures moves == old(moves)
    {
      outcome, resolvedBy, collisionAvoided := o, Some(who), avoided;
    }

    /** Recording a move resolves the exchange on an acceptance, and on a rejection
        that reaches the cap. */
    method AddMove(move: Move)
      modifies this
      ensures moves == old(moves) + [move]
      ensures move.performative == Accept ==>
                outcome == OutcomeAgreed && resolvedBy == Some(move.lane) && !collisionAvoided
      ensures move.performative == Reject && |moves| >= maxExchanges ==>
                outcome == OutcomeRejected && resolvedBy == Some(move.lane) && !collisionAvoided
      ensures move.performative != Accept && !(move.performative == Reject && |moves| >= maxExchanges) ==>
                outcome == old(outcome) && resolvedBy == old(resolvedBy)
                && collisionAvoided == old(collisionAvoided)
    {
      moves := moves + [move];
      if move.performative == Accept {
        Resolve(OutcomeAgreed, move.lane, false);
      } else if move.performative == Reject && |moves| >= maxExchanges {
        Resolve(OutcomeRejected, move.lane, false);
      }
    }

    method Escalate()
      modifies this`outcome
      ensures outcome == OutcomeEscalated
    {
      outcome := OutcomeEscalated;
    }
  }

  // ---------------------------------------------------------------------
  // The driver
  // ---------------------------------------------------------------------

  function Speaker(turn: nat): Lane {
    if turn == 0 then LaneA else Other(Speaker(turn - 1))
  }

  lemma NextSpeaker(turn: nat)
    ensures Speaker(turn + 1) == Other(Speaker(turn)) && Other(Other(Speaker(turn))) == Speaker(turn)
  {
  }

  /** Strict alternation: lane A has the even turns. */
  lemma {:induction false} SpeakerByParity(turn: nat)
    ensures Speaker(turn).LaneA? <==> turn % 2 == 0
  {
    if turn > 0 {
      SpeakerByParity(turn - 1);
    }
  }

  /** Where the driver stops after recording the last of these moves, if it does. */
  function EndsAt(lim: Limits, moves: seq<Move>): Option<Ending>
    requires moves != []
  {
    var p := moves[|moves| - 1].performative;
    if p == Accept then Some(Agreed)
    else if p == Withdraw then Some(Abandoned)
    else if p == Reject && |moves| >= lim.escalateAfter then Some(Escalated(RejectedLate))
    else if |moves| >= lim.escalateAfter && IsStuck(moves) then Some(Escalated(Stuck))
    else None
  }

  predicate Recorded(moves: seq<Move>, reply: Reply)
    requires moves != []
  {
    reply.engaged && reply.performative in Replies(moves[|moves| - 1].performative)
  }

  /** The moves after one reply; a reply that is not a legal move is not recorded. */
  function After(moves: seq<Move>, reply: Reply): seq<Move>
    requires moves != []
  {
    if Recorded(moves, reply) then moves + [Move(Speaker(|moves|), reply.performative, reply.summary)]
    else moves
  }

  /** How one reply ends the run, if it does. */
  function Verdict(lim: Limits, moves: seq<Move>, reply: Reply): Option<Ending>
    requires moves != []
  {
    if !reply.engaged then Some(Escalated(Declined))
    else if !Recorded(moves, reply) then Some(Escalated(Illegal))
    else EndsAt(lim, After(moves, reply))
  }

  /** The rest of a run, from the moves made so far: call number `n` asks for move
      `n + 1`. */
  function Drive(lim: Limits, respond: nat -> Reply, moves: seq<Move>): (seq<Move>, Ending)
    requires moves != []
    decreases lim.maxExchanges - |moves|
  {
    if |moves| >= lim.maxExchanges then (moves, Escalated(CapReached))
    else
      var reply := respond(|moves| - 1);
      match Verdict(lim, moves, reply)
      case Some(e) => (After(moves, reply), e)
      case None => Drive(lim, respond, After(moves, reply))
  }

  lemma DriveStep(lim: Limits, respond: nat -> Reply, moves: seq<Move>)
    requires 0 < |moves| < lim.maxExchanges
    ensures var reply := respond(|moves| - 1);
            match Verdict(lim, moves, reply)
            case Some(e) => Drive(lim, respond, moves) == (After(moves, reply), e)
            case None => Drive(lim, respond, moves) == Drive(lim, respond, After(moves, reply))
  {
  }

  function Opening(summary: string): seq<Move> {
    [Move(LaneA, Propose, summary)]
  }

  /** What a run reports; `ending` carries the reason that an escalation appends to the
      record's description. */
  datatype Result = Result(
    moves: seq<Move>, delivered: seq<Message>, ending: Ending, outcome: Outcome, agreed: bool,
    escalated: bool, broadcasts: nat, collisionAvoided: bool, resolvedBy: Option<Lane>)

  function OutcomeOf(e: Ending): Outcome {
    match e
    case Agreed => OutcomeAgreed
    case Abandoned => OutcomeAbandoned
    case Escalated(_) => OutcomeEscalated
  }

  /** Who the record says resolved the exchange: a rejection at the cap leaves its
      lane's name there although the exchange is escalated. */
  function ResolverOf(lim: Limits, moves: seq<Move>, e: Ending): Option<Lane>
    requires moves != []
  {
    var last := moves[|moves| - 1];
    if e.Agreed? || e.Abandoned? || (last.performative == Reject && |moves| >= lim.maxExchanges)
    then Some(last.lane)
    else None
  }

  /** What a run with this transcript and ending reports. */
  function ResultOf(lim: Limits, moves: seq<Move>, e: Ending, hasEscalator: bool): Result
    requires moves != []
  {
    Result(moves, Messages(moves), e, OutcomeOf(e), e.Agreed?, e.Escalated?,
           if e.Escalated? && hasEscalator then 1 else 0, e.Agreed?, ResolverOf(lim, moves, e))
  }

  /** The result is that of a run that goes on from these moves. */
  ghost predicate Concludes(r: Result, lim: Limits, respond: nat -> Reply, moves: seq<Move>, hasEscalator: bool)
    requires moves != []
  {
    && r.moves != []
    && Drive(lim, respond, moves) == (r.moves, r.ending)
    && r == ResultOf(lim, r.moves, r.ending, hasEscalator)
  }

  /** Going on from `later` is going on from `moves`. */
  ghost predicate LeadsTo(lim: Limits, respond: nat -> Reply, moves: seq<Move>, later: seq<Move>) {
    moves != [] && later != [] && Drive(lim, respond, moves) == Drive(lim, respond, later)
  }

  lemma LeadsOn(lim: Limits, respond: nat -> Reply, a: seq<Move>, b: seq<Move>, c: seq<Move>)
    requires LeadsTo(lim, respond, a, b) && LeadsTo(lim, respond, b, c)
    ensures LeadsTo(lim, respond, a, c)
  {
  }

  lemma ConcludesEarlier(r: Result, lim: Limits, respond: nat -> Reply, a: seq<Move>, b: seq<Move>, hasEscalator: bool)
    requires LeadsTo(lim, respond, a, b) && Concludes(r, lim, respond, b, hasEscalator)
    ensures Concludes(r, lim, respond, a, hasEscalator)
  {
  }

  /** The exchange between two turns of the driver, and what the driver remembers. */
  ghost predicate Midway(lim: Limits, exchange: Exchange, delivered: seq<Message>, previous: Performative, current: Lane)
    reads exchange
  {
    && 0 < |exchange.moves| <= lim.maxExchanges == exchange.maxExchanges
    && previous == exchange.moves[|exchange.moves| - 1].performative
    && current == Speaker(|exchange.moves|) && delivered == Messages(exchange.moves)
    && exchange.resolvedBy == None && !exchange.collisionAvoided
  }

  method Run(lim: Limits, opening: string, respond: nat -> Reply, hasEscalator: bool) returns (r: Result)
    requires 1 <= lim.escalateAfter <= lim.maxExchanges
    ensures Concludes(r, lim, respond, Opening(opening), hasEscalator)
  {
    var exchange, delivered := Open(lim, opening);
    var previous, current, turns := Propose, LaneB, 1;
    while turns < lim.maxExchanges
      invariant fresh(exchange) && turns == |exchange.moves|
      invariant Midway(lim, exchange, delivered, previous, current)
      invariant previous == Reject ==> turns < lim.escalateAfter
      invariant LeadsTo(lim, respond, Opening(opening), exchange.moves)
    {
      ghost var before := exchange.moves;
      var stop, sent := Turn(lim, respond, exchange, delivered, previous, current, hasEscalator);
      if stop.Some? {
        ConcludesEarlier(stop.value, lim, respond, Opening(opening), before, hasEscalator);
        return stop.value;
      }
      LeadsOn(lim, respond, Opening(opening), before, exchange.moves);
      delivered := sent;
      previous := exchange.moves[turns].performative;
      turns := turns + 1;
      current := Other(current);
    }
    r := CapRun(lim, respond, exchange, delivered, hasEscalator);
    ConcludesEarlier(r, lim, respond, Opening(opening), exchange.moves, hasEscalator);
  }

  /** The opening proposal. */
  method Open(lim: Limits, opening: string) returns (exchange: Exchange, delivered: seq<Message>)
    ensures fresh(exchange) && exchange.maxExchanges == lim.maxExchanges
    ensures exchange.moves == Opening(opening) && delivered == Messages(exchange.moves)
    ensures exchange.resolvedBy == None && !exchange.collisionAvoided
  {
    NextSpeaker(0);
    exchange := new Exchange(lim.maxExchanges);
    delivered := [MessageFor(LaneA, Propose)];
    exchange.AddMove(Move(LaneA, Propose, opening));
  }

  /** What follows the loop. */
  method CapRun(lim: Limits, ghost respond: nat -> Reply, exchange: Exchange, delivered: seq<Message>,
                hasEscalator: bool)
    returns (r: Result)
    requires |exchange.moves| == lim.maxExchanges > 0 && delivered == Messages(exchange.moves)
    requires !exchange.collisionAvoided && exchange.resolvedBy == None
    requires exchange.moves[|exchange.moves| - 1].performative != Reject
    modifies exchange`outcome
    ensures Concludes(r, lim, respond, exchange.moves, hasEscalator)
  {
    r := EscalateAndFinish(lim, exchange, delivered, hasEscalator, CapReached);
  }

  /** One turn of the exchange loop: the reply it asks for, and what it makes of it. */
  method Turn(lim: Limits, respond: nat -> Reply, exchange: Exchange, delivered: seq<Message>,
              previous: Performative, current: Lane, hasEscalator: bool)
    returns (r: Option<Result>, sent: seq<Message>)
    requires Midway(lim, exchange, delivered, previous, current)
    requires |exchange.moves| < lim.maxExchanges && lim.escalateAfter <= lim.maxExchanges
    modifies exchange
    ensures r.Some? ==> Concludes(r.value, lim, respond, old(exchange.moves), hasEscalator)
    ensures r.None? ==> |exchange.moves| == |old(exchange.moves)| + 1
    ensures r.None? ==>
              Midway(lim, exchange, sent, exchange.moves[|exchange.moves| - 1].performative, Other(current))
    ensures r.None? ==> LeadsTo(lim, respond, old(exchange.moves), exchange.moves)
    ensures r.None? ==> exchange.moves[|exchange.moves| - 1].performative == Reject ==> |exchange.moves| < lim.escalateAfter
  {
    NextSpeaker(|exchange.moves|);
    var reply := respond(|exchange.moves| - 1);
    DriveStep(lim, respond, exchange.moves);
    r := TakeReply(lim, exchange, delivered, previous, current, reply, hasEscalator);
    sent := delivered + [MessageFor(current, reply.performative)];
  }

  /** The tests on a reply, and the recording of one that passes them. */
  method TakeReply(lim: Limits, exchange: Exchange, delivered: seq<Message>, previous: Performative,
                   current: Lane, reply: Reply, hasEscalator: bool)
    returns (r: Option<Result>)
    requires Midway(lim, exchange, delivered, previous, current)
    requires |exchange.moves| < lim.maxExchanges && lim.escalateAfter <= lim.maxExchanges
    modifies exchange
    ensures exchange.moves == After(old(exchange.moves), reply)
    ensures r.Some? <==> Verdict(lim, old(exchange.moves), reply).Some?
    ensures r.Some? ==>
              r.value == ResultOf(lim, exchange.moves, Verdict(lim, old(exchange.moves), reply).value, hasEscalator)
    ensures r.None? ==> exchange.resolvedBy == None && !exchange.collisionAvoided
    ensures r.None? ==> Messages(exchange.moves) == delivered + [MessageFor(current, reply.performative)]
  {
    if !reply.engaged {
      var done := EscalateAndFinish(lim, exchange, delivered, hasEscalator, Declined);
      return Some(done);
    }
    if reply.performative !in Replies(previous) {
      var done := EscalateAndFinish(lim, exchange, delivered, hasEscalator, Illegal);
      return Some(done);
    }
    var move := Move(current, reply.performative, reply.summary);
    MessagesSnoc(exchange.moves, move);
    exchange.AddMove(move);
    r := Conclude(lim, exchange, delivered + [MessageFor(current, reply.performative)], move,
                  |exchange.moves|, hasEscalator);
  }

  /** The driver's tests after a recorded move, in order: an acceptance, a withdrawal,
      a late rejection, a repeated round. */
  method Conclude(lim: Limits, exchange: Exchange, delivered: seq<Message>, move: Move, turns: nat,
                  hasEscalator: bool)
    returns (r: Option<Result>)
    requires turns == |exchange.moves| > 0 && move == exchange.moves[turns - 1]
    requires delivered == Messages(exchange.moves)
    requires !exchange.collisionAvoided && turns <= lim.maxExchanges && lim.escalateAfter <= lim.maxExchanges
    requires move.performative != Accept ==>
               exchange.resolvedBy == if move.performative == Reject && turns >= lim.maxExchanges
                                      then Some(move.lane) else None
    modifies exchange
    ensures exchange.moves == old(exchange.moves)
    ensures r.Some? <==> EndsAt(lim, exchange.moves).Some?
    ensures r.Some? ==>
              r.value == ResultOf(lim, exchange.moves, EndsAt(lim, exchange.moves).value, hasEscalator)
    ensures r.None? ==> exchange.resolvedBy == old(exchange.resolvedBy) && !exchange.collisionAvoided
  {
    if move.performative == Accept {
      exchange.Resolve(OutcomeAgreed, move.lane, true);
      var done := Finish(lim, exchange, delivered, Agreed, 0);
      return Some(done);
    }
    if move.performative == Withdraw {
      exchange.Resolve(OutcomeAbandoned, move.lane, false);
      var done := Finish(lim, exchange, delivered, Abandoned, 0);
      return Some(done);
    }
    r := ConcludeOpen(lim, exchange, delivered, move, turns, hasEscalator);
  }

  /** The last two of those tests. */
  method ConcludeOpen(lim: Limits, exchange: Exchange, delivered: seq<Message>, move: Move, turns: nat,
                      hasEscalator: bool)
    returns (r: Option<Result>)
    requires turns == |exchange.moves| > 0 && move == exchange.moves[turns - 1]
    requires delivered == Messages(exchange.moves)
    requires !exchange.collisionAvoided && turns <= lim.maxExchanges && lim.escalateAfter <= lim.maxExchanges
    requires move.performative != Accept && move.performative != Withdraw
    requires exchange.resolvedBy == ResolverOf(lim, exchange.moves, Escalated(Stuck))
    modifies exchange`outcome
    ensures r.Some? <==> EndsAt(lim, exchange.moves).Some?
    ensures r.Some? ==>
              r.value == ResultOf(lim, exchange.moves, EndsAt(lim, exchange.moves).value, hasEscalator)
  {
    if move.performative == Reject && turns >= lim.escalateAfter {
      var done := EscalateAndFinish(lim, exchange, delivered, hasEscalator, RejectedLate);
      return Some(done);
    }
    if turns >= lim.escalateAfter && IsStuck(exchange.moves) {
      var done := EscalateAndFinish(lim, exchange, delivered, hasEscalator, Stuck);
      return Some(done);
    }
    return None;
  }

  method EscalateAndFinish(lim: Limits, exchange: Exchange, delivered: seq<Message>,
                           hasEscalator: bool, reason: Reason)
    returns (r: Result)
    requires exchange.moves != [] && delivered == Messages(exchange.moves)
    requires !exchange.collisionAvoided
    requires exchange.resolvedBy == ResolverOf(lim, exchange.moves, Escalated(reason))
    modifies exchange`outcome
    ensures r == ResultOf(lim, exchange.moves, Escalated(reason), hasEscalator)
  {
    exchange.Escalate();
    var broadcasts := 0;
    if hasEscalator {
      broadcasts := broadcasts + 1;
    }
    r := Finish(lim, exchange, delivered, Escalated(reason), broadcasts);
  }

  method Finish(lim: Limits, exchange: Exchange, delivered: seq<Message>, ending: Ending, broadcasts: nat)
    returns (r: Result)
    modifies exchange`outcome
    ensures exchange.outcome == (if ending.Escalated? && lim.escalateToHumans then OutcomeEscalated else old(exchange.outcome))
    ensures r == Result(exchange.moves, delivered, ending, exchange.outcome, ending.Agreed?,
                        ending.Escalated?, broadcasts, exchange.collisionAvoided, exchange.resolvedBy)
  {
    if ending.Escalated? && lim.escalateToHumans {
      exchange.outcome := OutcomeEscalated;
    }
    r := Result(exchange.moves, delivered, ending, exchange.outcome, ending.Agreed?,
                ending.Escalated?, broadcasts, exchange.collisionAvoided, exchange.resolvedBy);
  }

  /** Whether humans are to be escalated to changes nothing that a run reports. */
  lemma {:induction false} HumansChangeNothing(lim: Limits, respond: nat -> Reply, moves: seq<Move>, humans: bool,
                                               hasEscalator: bool)
    requires moves != []
    ensures var other := lim.(escalateToHumans := humans);
            var (all, e) := Drive(lim, respond, moves);
            && Drive(other, respond, moves) == (all, e)
            && (all != [] ==> ResultOf(other, all, e, hasEscalator) == ResultOf(lim, all, e, hasEscalator))
    decreases lim.maxExchanges - |moves|
  {
    if |moves| < lim.maxExchanges {
      var reply := respond(|moves| - 1);
      if Verdict(lim, moves, reply).None? {
        HumansChangeNothing(lim, respond, After(moves, reply), humans, hasEscalator);
      }
    }
  }

  // ---------------------------------------------------------------------
  // Which transcripts are possible
  // ---------------------------------------------------------------------

  /** Every move is the turn of its lane and a legal answer to the one before it. */
  predicate WellFormed(moves: seq<Move>) {
    && moves != []
    && moves[0].performative == Propose
    && (forall i | 0 <= i < |moves| :: moves[i].lane == Speaker(i))
    && (forall i | 0 < i < |moves| :: moves[i].performative in Replies(moves[i - 1].performative))
  }

  /** No move gave the driver a reason to stop. */
  predicate StillOpen(lim: Limits, moves: seq<Move>)
    requires moves != []
  {
    var p := moves[|moves| - 1].performative;
    && p != Accept && p != Withdraw
    && (|moves| >= lim.escalateAfter ==> p != Reject)
    && (|moves| >= Max(4, lim.escalateAfter) ==> !IsStuck(moves))
  }

  /** The ending fits the last move and the length. */
  predicate Justified(lim: Limits, moves: seq<Move>, e: Ending)
    requires moves != []
  {
    var p, n := moves[|moves| - 1].performative, |moves|;
    match e
    case Agreed => p == Accept
    case Abandoned => p == Withdraw
    case Escalated(RejectedLate) => p == Reject && n >= lim.escalateAfter
    case Escalated(Stuck) => p != Accept && p != Withdraw && p != Reject && n >= lim.escalateAfter && IsStuck(moves)
    case Escalated(CapReached) => StillOpen(lim, moves) && n == lim.maxExchanges
    case Escalated(_) => StillOpen(lim, moves) && n < lim.maxExchanges
  }

  predicate Possible(lim: Limits, moves: seq<Move>, e: Ending) {
    && WellFormed(moves)
    && |moves| <= lim.maxExchanges
    && (forall n | 0 < n < |moves| :: StillOpen(lim, moves[..n]))
    && Justified(lim, moves, e)
  }

  lemma StillOpenIsNoEnd(lim: Limits, moves: seq<Move>)
    requires moves != []
    ensures StillOpen(lim, moves) <==> EndsAt(lim, moves).None?
  {
  }

  predicate OpenSoFar(lim: Limits, moves: seq<Move>) {
    && WellFormed(moves)
    && |moves| <= lim.maxExchanges
    && forall n | 0 < n <= |moves| :: StillOpen(lim, moves[..n])
  }

  /** Soundness: whatever the responder does, the transcript is possible. */
  lemma {:induction false} DriveIsPossible(lim: Limits, respond: nat -> Reply, moves: seq<Move>)
    requires OpenSoFar(lim, moves)
    ensures Possible(lim, Drive(lim, respond, moves).0, Drive(lim, respond, moves).1)
    ensures moves <= Drive(lim, respond, moves).0
    decreases lim.maxExchanges - |moves|
  {
    assert moves[..|moves|] == moves;
    if |moves| < lim.maxExchanges {
      var reply := respond(|moves| - 1);
      DriveStep(lim, respond, moves);
      if Recorded(moves, reply) {
        RecordedKeeps(lim, moves, reply);
        if EndsAt(lim, After(moves, reply)).None? {
          DriveIsPossible(lim, respond, After(moves, reply));
        }
      }
    }
  }

  lemma WellFormedSnoc(moves: seq<Move>, m: Move)
    requires WellFormed(moves) && m.lane == Speaker(|moves|)
    requires m.performative in Replies(moves[|moves| - 1].performative)
    ensures WellFormed(moves + [m])
  {
  }

  lemma OpenPrefixes(lim: Limits, moves: seq<Move>, m: Move)
    requires moves != [] && forall n | 0 < n <= |moves| :: StillOpen(lim, moves[..n])
    ensures forall n | 0 < n < |moves + [m]| :: StillOpen(lim, (moves + [m])[..n])
  {
    forall n | 0 < n < |moves + [m]| ensures StillOpen(lim, (moves + [m])[..n]) {
      assert (moves + [m])[..n] == moves[..n];
    }
  }

  lemma RecordedKeeps(lim: Limits, moves: seq<Move>, reply: Reply)
    requires OpenSoFar(lim, moves) && |moves| < lim.maxExchanges && Recorded(moves, reply)
    ensures moves <= After(moves, reply)
    ensures match EndsAt(lim, After(moves, reply))
            case Some(e) => Possible(lim, After(moves, reply), e)
            case None => OpenSoFar(lim, After(moves, reply))
  {
    var next := After(moves, reply);
    WellFormedSnoc(moves, next[|moves|]);
    OpenPrefixes(lim, moves, next[|moves|]);
    StillOpenIsNoEnd(lim, next);
    assert next[..|next|] == next;
  }

  /** A responder that plays a given transcript and then does not engage or answers
      illegally, as the ending asks. */
  function Script(moves: seq<Move>, e: Ending): nat -> Reply {
    (n: nat) =>
      if n + 1 < |moves| then Reply(true, moves[n + 1].performative, moves[n + 1].summary)
      else Reply(e != Escalated(Declined), if moves != [] then NotAReply(moves[|moves| - 1].performative) else Inform, "")
  }

  function NotAReply(p: Performative): (q: Performative)
    ensures q !in Replies(p)
  {
    match p
    case Propose => Inform
    case Counter => Inform
    case _ => Accept
  }

  lemma {:induction false} ScriptPlays(lim: Limits, moves: seq<Move>, e: Ending, n: nat)
    requires Possible(lim, moves, e) && 0 < n <= |moves|
    requires n < |moves| || EndsAt(lim, moves).None?
    ensures Drive(lim, Script(moves, e), moves[..n]) == (moves, e)
    decreases |moves| - n
  {
    if n == |moves| {
      assert moves[..n] == moves;
      StillOpenIsNoEnd(lim, moves);
    } else {
      var next := moves[..n + 1];
      assert next == moves[..n] + [moves[n]];
      assert moves[n].performative in Replies(moves[n - 1].performative);
      StillOpenIsNoEnd(lim, next);
      if n + 1 < |moves| {
        ScriptPlays(lim, moves, e, n + 1);
      } else {
        assert next == moves;
        if EndsAt(lim, moves).None? {
          ScriptPlays(lim, moves, e, n + 1);
        }
      }
    }
  }

  /** Exactly the possible transcripts occur: an ending with a transcript is produced
      by some responder if and only if it is possible. */
  lemma TranscriptsExactly(lim: Limits, opening: string, moves: seq<Move>, e: Ending)
    requires 1 <= lim.escalateAfter <= lim.maxExchanges
    ensures (exists respond: nat -> Reply :: Drive(lim, respond, Opening(opening)) == (moves, e))
       <==> Possible(lim, moves, e) && moves[0].summary == opening
  {
    forall respond: nat -> Reply | Drive(lim, respond, Opening(opening)) == (moves, e)
      ensures Possible(lim, moves, e) && moves[0].summary == opening
    {
      assert Opening(opening)[..1] == Opening(opening);
      DriveIsPossible(lim, respond, Opening(opening));
    }
    if Possible(lim, moves, e) && moves[0].summary == opening {
      assert moves[..1] == Opening(opening);
      StillOpenIsNoEnd(lim, moves);
      ScriptPlays(lim, moves, e, 1);
    }
  }

  /** Every run ends in exactly one way, told apart by its last move: agreed iff it is
      an acceptance, abandoned iff it is a withdrawal; those two occur nowhere else,
      and an acceptance always answers the other lane's proposal or counter. */
  lemma HowItEnds(lim: Limits, opening: string, respond: nat -> Reply)
    requires 1 <= lim.escalateAfter <= lim.maxExchanges
    ensures var (moves, e) := Drive(lim, respond, Opening(opening));
            var last := |moves| - 1;
            && 1 <= |moves| <= lim.maxExchanges
            && (e.Agreed? <==> moves[last].performative == Accept)
            && (e.Abandoned? <==> moves[last].performative == Withdraw)
            && (forall i | 0 <= i < last :: moves[i].performative != Accept && moves[i].performative != Withdraw)
            && (e.Agreed? ==> last > 0 && moves[last - 1].lane == Other(moves[last].lane)
                              && moves[last - 1].performative in {Propose, Counter})
  {
    assert Opening(opening)[..1] == Opening(opening);
    DriveIsPossible(lim, respond, Opening(opening));
    var (moves, e) := Drive(lim, respond, Opening(opening));
    forall i | 0 <= i < |moves| - 1
      ensures moves[i].performative != Accept && moves[i].performative != Withdraw
    {
      assert StillOpen(lim, moves[..i + 1]);
    }
  }

  /** The detectors fire in time: past the escalation point the driver never goes on
      from a repeated round or from a rejection. */
  lemma NoRepetition(lim: Limits, opening: string, respond: nat -> Reply, n: nat)
    requires 1 <= lim.escalateAfter <= lim.maxExchanges
    ensures var moves := Drive(lim, respond, Opening(opening)).0;
            Max(4, lim.escalateAfter) <= n < |moves| ==>
              && moves[n - 1].performative != Reject
              && !(moves[n - 1].performative == moves[n - 3].performative && moves[n - 1].summary == moves[n - 3].summary
                   && moves[n - 2].performative == moves[n - 4].performative && moves[n - 2].summary == moves[n - 4].summary)
  {
    assert Opening(opening)[..1] == Opening(opening);
    DriveIsPossible(lim, respond, Opening(opening));
    var moves := Drive(lim, respond, Opening(opening)).0;
    if Max(4, lim.escalateAfter) <= n < |moves| {
      assert StillOpen(lim, moves[..n]);
    }
  }

  // ---------------------------------------------------------------------
  // How many refusals an escalation takes
  // ---------------------------------------------------------------------

  function Refusals(moves: seq<Move>): nat {
    if moves == [] then 0
    else Refusals(moves[..|moves| - 1]) + (if moves[|moves| - 1].performative == Reject then 1 else 0)
  }

  /** A proposal, counters, and one refusal in the last of `n` moves. */
  function OneRefusal(opening: string, n: nat): (moves: seq<Move>)
    requires n >= 2
    ensures |moves| == n && moves[0] == Move(LaneA, Propose, opening)
    ensures forall i | 0 < i < n - 1 :: moves[i] == Move(Speaker(i), Counter, "")
    ensures moves[n - 1] == Move(Speaker(n - 1), Reject, "")
  {
    seq(n, i requires 0 <= i < n =>
      if i == 0 then Move(LaneA, Propose, opening) else Move(Speaker(i), if i == n - 1 then Reject else Counter, ""))
  }

  lemma {:induction false} NoRefusal(moves: seq<Move>)
    requires forall i | 0 <= i < |moves| :: moves[i].performative != Reject
    ensures Refusals(moves) == 0
  {
    if moves != [] {
      NoRefusal(moves[..|moves| - 1]);
    }
  }

  lemma OneRefusalCounts(opening: string, n: nat)
    requires n >= 2
    ensures Refusals(OneRefusal(opening, n)) == 1
  {
    NoRefusal(OneRefusal(opening, n)[..n - 1]);
  }

  lemma OneRefusalIsPossible(lim: Limits, opening: string, n: nat)
    requires n == Max(2, lim.escalateAfter) && n <= lim.maxExchanges
    ensures Possible(lim, OneRefusal(opening, n), Escalated(RejectedLate))
  {
    var moves := OneRefusal(opening, n);
    forall i | 0 < i < n ensures moves[i].performative in Replies(moves[i - 1].performative) {
      assert i == 1 ==> moves[i - 1].performative == Propose;
    }
    assert Speaker(0) == LaneA;
    forall k | 0 < k < n ensures StillOpen(lim, moves[..k]) {
      assert moves[..k][k - 1] == moves[k - 1];
    }
  }

  /** An escalation for a late refusal had two refusals. */
  ghost predicate TookTwoRefusals(lim: Limits, opening: string, respond: nat -> Reply) {
    var run := Drive(lim, respond, Opening(opening));
    run.1 == Escalated(RejectedLate) ==> Refusals(run.0) >= 2
  }

  /** A late refusal takes two refusals, whatever the responder does, exactly when the cap
      leaves room for no reply at all: otherwise one refusal at the threshold is enough. */
  lemma TwoRefusalsExactly(lim: Limits, opening: string)
    requires 1 <= lim.escalateAfter <= lim.maxExchanges
    ensures (forall respond :: TookTwoRefusals(lim, opening, respond)) <==> lim.maxExchanges == 1
  {
    if lim.maxExchanges == 1 {
      forall respond ensures TookTwoRefusals(lim, opening, respond) {
        assert Drive(lim, respond, Opening(opening)) == (Opening(opening), Escalated(CapReached));
      }
    } else {
      var n := Max(2, lim.escalateAfter);
      var moves := OneRefusal(opening, n);
      OneRefusalIsPossible(lim, opening, n);
      OneRefusalCounts(opening, n);
      TranscriptsExactly(lim, opening, moves, Escalated(RejectedLate));
      var respond: nat -> Reply :| Drive(lim, respond, Opening(opening)) == (moves, Escalated(RejectedLate));
      assert !TookTwoRefusals(lim, opening, respond);
    }
  }
}
