/** A run of the negotiation driver, read off its responder (`acp/negotiation.py`).

    The rules are written out here as the protocol has them, without the functions that
    the driver is built from: which performative answers which, when a round repeats the
    one before it, and what each ending asks for. A transcript and an ending are those of
    the driver exactly when they obey these rules. */
module NegotiationRuns {
  import opened Wrappers
  import opened Negotiation

  /** `p` may be answered with `q`. */
  predicate Answers(p: Performative, q: Performative) {
    || ((p == Propose || p == Counter) && (q == Accept || q == Reject || q == Counter || q == Withdraw))
    || (p == Accept && q == Inform)
    || ((p == Reject || p == Withdraw) && (q == Propose || q == Inform))
    || (p == Inform && (q == Propose || q == Counter || q == Inform))
  }

  /** The last two moves say the same, in the same words, as the two before them. */
  predicate Repeats(moves: seq<Move>) {
    var n := |moves|;
    && n >= 4
    && moves[n - 1].performative == moves[n - 3].performative && moves[n - 1].summary == moves[n - 3].summary
    && moves[n - 2].performative == moves[n - 4].performative && moves[n - 2].summary == moves[n - 4].summary
  }

  /** Nothing in `moves` stops the driver. */
  predicate GoesOn(lim: Limits, moves: seq<Move>) {
    && moves != []
    && moves[|moves| - 1].performative !in {Accept, Withdraw}
    && (|moves| >= lim.escalateAfter ==> moves[|moves| - 1].performative != Reject && !Repeats(moves))
  }

  /** Move `n` is what the responder said when it was asked for it. */
  predicate IsMove(respond: nat -> Reply, moves: seq<Move>, n: nat)
    requires 0 < n < |moves|
  {
    var reply := respond(n - 1);
    && reply.engaged && Answers(moves[n - 1].performative, reply.performative)
    && moves[n] == Move(if n % 2 == 0 then LaneA else LaneB, reply.performative, reply.summary)
  }

  predicate EndsWith(lim: Limits, respond: nat -> Reply, moves: seq<Move>, e: Ending)
    requires moves != []
  {
    var n := |moves|;
    var last, late := moves[n - 1].performative, n >= lim.escalateAfter;
    match e
    case Agreed => last == Accept
    case Abandoned => last == Withdraw
    case Escalated(RejectedLate) => last == Reject && late
    case Escalated(Stuck) => last !in {Accept, Withdraw, Reject} && late && Repeats(moves)
    case Escalated(CapReached) => GoesOn(lim, moves) && n == lim.maxExchanges
    case Escalated(Declined) => GoesOn(lim, moves) && n < lim.maxExchanges && !respond(n - 1).engaged
    case Escalated(Illegal) =>
      GoesOn(lim, moves) && n < lim.maxExchanges && respond(n - 1).engaged && !Answers(last, respond(n - 1).performative)
  }

  ghost predicate SoFar(lim: Limits, opening: string, respond: nat -> Reply, moves: seq<Move>, n: nat)
    requires n <= |moves|
  {
    && moves != [] && moves[0] == Move(LaneA, Propose, opening)
    && (forall i | 0 < i < |moves| :: IsMove(respond, moves, i))
    && (forall i | 0 < i < n :: GoesOn(lim, moves[..i]))
  }

  ghost predicate IsRun(lim: Limits, opening: string, respond: nat -> Reply, moves: seq<Move>, e: Ending) {
    && SoFar(lim, opening, respond, moves, |moves|)
    && |moves| <= lim.maxExchanges
    && EndsWith(lim, respond, moves, e)
  }

  lemma AnswersAreReplies(p: Performative, q: Performative)
    ensures Answers(p, q) <==> q in Replies(p)
  {
  }

  lemma GoesOnOrEnds(lim: Limits, respond: nat -> Reply, moves: seq<Move>)
    requires moves != []
    ensures GoesOn(lim, moves) <==> EndsAt(lim, moves).None?
    ensures EndsAt(lim, moves).Some? ==> EndsWith(lim, respond, moves, EndsAt(lim, moves).value)
    ensures forall e | EndsWith(lim, respond, moves, e) && !GoesOn(lim, moves) :: EndsAt(lim, moves) == Some(e)
  {
  }

  /** One more move. */
  lemma SoFarSnoc(lim: Limits, opening: string, respond: nat -> Reply, moves: seq<Move>, m: Move)
    requires SoFar(lim, opening, respond, moves, |moves|) && GoesOn(lim, moves)
    requires IsMove(respond, moves + [m], |moves|)
    ensures SoFar(lim, opening, respond, moves + [m], |moves + [m]|)
  {
    var more := moves + [m];
    forall i | 0 < i < |more| ensures IsMove(respond, more, i) {
      if i < |moves| {
        assert IsMove(respond, moves, i);
      }
    }
    forall i | 0 < i < |more| ensures GoesOn(lim, more[..i]) {
      if i < |moves| {
        assert more[..i] == moves[..i];
      } else {
        assert more[..i] == moves;
      }
    }
  }

  lemma RecordedIsMove(respond: nat -> Reply, moves: seq<Move>)
    requires moves != []
    ensures var reply := respond(|moves| - 1);
            && (Recorded(moves, reply) <==> reply.engaged && Answers(moves[|moves| - 1].performative, reply.performative))
            && (Recorded(moves, reply) ==>
                  |Negotiation.After(moves, reply)| == |moves| + 1
                  && IsMove(respond, Negotiation.After(moves, reply), |moves|))
  {
    AnswersAreReplies(moves[|moves| - 1].performative, respond(|moves| - 1).performative);
    SpeakerByParity(|moves|);
  }

  lemma {:induction false} DriveIsRun(lim: Limits, opening: string, respond: nat -> Reply, moves: seq<Move>)
    requires SoFar(lim, opening, respond, moves, |moves|) && GoesOn(lim, moves) && |moves| <= lim.maxExchanges
    ensures IsRun(lim, opening, respond, Drive(lim, respond, moves).0, Drive(lim, respond, moves).1)
    decreases lim.maxExchanges - |moves|
  {
    if |moves| == lim.maxExchanges {
      return;
    }
    var reply := respond(|moves| - 1);
    var next := Negotiation.After(moves, reply);
    RecordedIsMove(respond, moves);
    DriveStep(lim, respond, moves);
    if Recorded(moves, reply) {
      SoFarSnoc(lim, opening, respond, moves, next[|moves|]);
      GoesOnOrEnds(lim, respond, next);
      if EndsAt(lim, next).None? {
        DriveIsRun(lim, opening, respond, next);
      }
    }
  }

  lemma {:induction false} RunIsDriven(lim: Limits, opening: string, respond: nat -> Reply, moves: seq<Move>, e: Ending, n: nat)
    requires IsRun(lim, opening, respond, moves, e) && 0 < n <= |moves|
    requires n < |moves| || GoesOn(lim, moves)
    ensures Drive(lim, respond, moves[..n]) == (moves, e)
    decreases |moves| - n
  {
    if n == |moves| {
      assert moves[..n] == moves;
      LastTurn(lim, respond, moves, e);
      return;
    }
    assert IsMove(respond, moves, n);
    DriveNext(lim, respond, moves, n);
    if n + 1 < |moves| {
      assert GoesOn(lim, moves[..n + 1]);
      RunIsDriven(lim, opening, respond, moves, e, n + 1);
    } else {
      assert moves[..n + 1] == moves;
      if GoesOn(lim, moves) {
        LastTurn(lim, respond, moves, e);
      } else {
        GoesOnOrEnds(lim, respond, moves);
      }
    }
  }

  lemma DriveNext(lim: Limits, respond: nat -> Reply, moves: seq<Move>, n: nat)
    requires 0 < n < |moves| <= lim.maxExchanges && IsMove(respond, moves, n)
    ensures var next := moves[..n + 1];
            match EndsAt(lim, next)
            case Some(e) => Drive(lim, respond, moves[..n]) == (next, e)
            case None => GoesOn(lim, next) && Drive(lim, respond, moves[..n]) == Drive(lim, respond, next)
  {
    NextPrefix(respond, moves, n);
    DriveStep(lim, respond, moves[..n]);
    GoesOnOrEnds(lim, respond, moves[..n + 1]);
  }

  lemma NextPrefix(respond: nat -> Reply, moves: seq<Move>, n: nat)
    requires 0 < n < |moves| && IsMove(respond, moves, n)
    ensures Recorded(moves[..n], respond(n - 1)) && Negotiation.After(moves[..n], respond(n - 1)) == moves[..n + 1]
  {
    var sofar := moves[..n];
    assert sofar[n - 1] == moves[n - 1];
    AnswersAreReplies(moves[n - 1].performative, respond(n - 1).performative);
    SpeakerByParity(n);
    assert moves[..n + 1] == sofar + [moves[n]];
  }

  lemma LastTurn(lim: Limits, respond: nat -> Reply, moves: seq<Move>, e: Ending)
    requires GoesOn(lim, moves) && |moves| <= lim.maxExchanges && EndsWith(lim, respond, moves, e)
    ensures Drive(lim, respond, moves) == (moves, e)
  {
    AnswersAreReplies(moves[|moves| - 1].performative, respond(|moves| - 1).performative);
    if |moves| < lim.maxExchanges {
      DriveStep(lim, respond, moves);
    }
  }

  /** The driver's transcript and ending are the ones that obey the rules. */
  lemma RunsExactly(lim: Limits, opening: string, respond: nat -> Reply, moves: seq<Move>, e: Ending)
    requires 1 <= lim.escalateAfter <= lim.maxExchanges
    ensures Drive(lim, respond, Opening(opening)) == (moves, e) <==> IsRun(lim, opening, respond, moves, e)
  {
    var first := Opening(opening);
    assert GoesOn(lim, first) && SoFar(lim, opening, respond, first, 1);
    DriveIsRun(lim, opening, respond, first);
    if IsRun(lim, opening, respond, moves, e) {
      assert moves[..1] == first;
      RunIsDriven(lim, opening, respond, moves, e, 1);
    }
  }

  /** What the report of a run says, told from the transcript. */
  ghost predicate Reports(r: Result, lim: Limits, hasEscalator: bool) {
    && r.moves != []
    && |r.delivered| == |r.moves|
    && (forall i | 0 <= i < |r.moves| ::
          var p := r.moves[i].performative;
          r.delivered[i] == (if i % 2 == 0 then Message(LaneA, LaneB, p, p == Propose || p == Counter)
                             else Message(LaneB, LaneA, p, p == Propose || p == Counter)))
    && (var last := r.moves[|r.moves| - 1];
        var agreed, gone := last.performative == Accept, last.performative == Withdraw;
        && (r.agreed <==> agreed) && (r.escalated <==> !agreed && !gone) && (r.collisionAvoided <==> agreed)
        && r.outcome == (if agreed then OutcomeAgreed else if gone then OutcomeAbandoned else OutcomeEscalated)
        && r.broadcasts == (if hasEscalator && !agreed && !gone then 1 else 0)
        && r.resolvedBy == (if agreed || gone || (last.performative == Reject && |r.moves| >= lim.maxExchanges)
                            then Some(last.lane) else None))
  }

  lemma LanesAlternate(lim: Limits, opening: string, respond: nat -> Reply, moves: seq<Move>, e: Ending, i: nat)
    requires IsRun(lim, opening, respond, moves, e) && i < |moves|
    ensures moves[i].lane == if i % 2 == 0 then LaneA else LaneB
  {
    if i > 0 {
      assert IsMove(respond, moves, i);
    }
  }

  /** For every responder, what `Run` reports obeys the rules: the transcript, the ending, the
      messages delivered and the report's fields. */
  lemma ReportsExactly(r: Result, lim: Limits, opening: string, respond: nat -> Reply, hasEscalator: bool)
    requires 1 <= lim.escalateAfter <= lim.maxExchanges
    requires Concludes(r, lim, respond, Opening(opening), hasEscalator)
    ensures IsRun(lim, opening, respond, r.moves, r.ending) && Reports(r, lim, hasEscalator)
  {
    RunsExactly(lim, opening, respond, r.moves, r.ending);
    forall i | 0 <= i < |r.moves| ensures r.moves[i].lane == if i % 2 == 0 then LaneA else LaneB {
      LanesAlternate(lim, opening, respond, r.moves, r.ending, i);
    }
    ReportOf(r, lim, respond, hasEscalator);
  }

  lemma ReportOf(r: Result, lim: Limits, respond: nat -> Reply, hasEscalator: bool)
    requires r.moves != [] && EndsWith(lim, respond, r.moves, r.ending)
    requires r == ResultOf(lim, r.moves, r.ending, hasEscalator)
    requires forall i | 0 <= i < |r.moves| :: r.moves[i].lane == if i % 2 == 0 then LaneA else LaneB
    ensures Reports(r, lim, hasEscalator)
  {
  }

  /** A run is called stuck exactly when its last two moves repeat the two before them, in
      performative and in words, at or past the threshold. */
  lemma StuckExactly(lim: Limits, opening: string, respond: nat -> Reply)
    requires 1 <= lim.escalateAfter <= lim.maxExchanges
    ensures var (moves, e) := Drive(lim, respond, Opening(opening));
            e == Escalated(Stuck)
            <==> |moves| >= lim.escalateAfter && Repeats(moves)
                 && moves[|moves| - 1].performative !in {Accept, Withdraw, Reject}
  {
    var (moves, e) := Drive(lim, respond, Opening(opening));
    RunsExactly(lim, opening, respond, moves, e);
  }
}
