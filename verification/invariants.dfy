/** What the round controller keeps true across every handler: nobody wins
    twice, no prize is given out beyond its count, and a pending round always
    fits what is left. The handlers that add data keep it only for data that
    is new (fresh ids, a rule not yet registered), which is what the
    generated ids promise and what the rule list does not check. */
module Invariants {
  import opened Collections
  import opened Lottery
  import opened DrawEngine
  import opened RoundController

  /** Identities are unique: participant ids, prize ids (never empty), and
      registered rules. */
  ghost predicate WellFormed(s: State)
  {
    && DistinctKeys(s.participants, ParticipantId)
    && DistinctKeys(s.prizes, PrizeId)
    && (forall p :: p in s.prizes ==> p.id != "")
    && DistinctKeys(s.rules, RuleItself)
  }

  /** No participant id appears in two winner records. */
  ghost predicate NoDoubleWin(s: State)
  {
    DistinctKeys(s.winners, WinnerParticipantId)
  }

  /** No prize has more winner records than its count. */
  ghost predicate StockRespected(s: State)
  {
    forall p :: p in s.prizes ==> |WinsFor(s.winners, p.id)| <= p.count
  }

  /** A pending round has no repeated participant, nobody who already won,
      at most ten entries, and no more than the current prize has left. */
  ghost predicate PendingFits(s: State, round: seq<Participant>)
  {
    && DistinctKeys(round, ParticipantId)
    && (forall i :: 0 <= i < |round| ==> round[i].id !in Keys(s.winners, WinnerParticipantId))
    && |round| <= MaxPerRound
    && (CurrentPrize(s).Some? ==> |round| <= RemainingCount(s))
  }

  ghost predicate RoundConsistent(s: State)
  {
    && (s.isRunning ==> s.roundWinners.None?)
    && (s.isRunning && CurrentPrize(s).Some? ==> RemainingCount(s) > 0)
    && (s.roundWinners.Some? ==> PendingFits(s, s.roundWinners.value))
  }

  ghost predicate Inv(s: State)
  {
    WellFormed(s) && NoDoubleWin(s) && StockRespected(s) && RoundConsistent(s)
  }

  /** A prize id that is not in use anywhere: what `crypto.randomUUID`
      supplies for a new prize. */
  ghost predicate FreshPrize(s: State, p: Prize)
  {
    && p.id != ""
    && p.id !in Keys(s.prizes, PrizeId)
    && s.currentPrizeId != Some(p.id)
    && p.id !in Keys(s.winners, WinnerPrizeId)
    && 0 <= p.count
  }

  lemma InitialInv()
    ensures Inv(Initial())
  {
  }

  /** With unique prize ids, the current prize depends only on which prizes
      carry the current id. */
  lemma SameCurrentPrize(s: State, r: State)
    requires DistinctKeys(s.prizes, PrizeId) && DistinctKeys(r.prizes, PrizeId)
    requires r.currentPrizeId == s.currentPrizeId
    requires s.currentPrizeId.Some? ==>
               forall q :: q in r.prizes && q.id == s.currentPrizeId.value
                       <==> q in s.prizes && q.id == s.currentPrizeId.value
    ensures CurrentPrize(r) == CurrentPrize(s)
  {
    if s.currentPrizeId.Some? {
      var id := s.currentPrizeId.value;
      if CurrentPrize(s).Some? {
        FindPrizeUnique(s.prizes, id, CurrentPrize(s).value);
        FindPrizeUnique(r.prizes, id, CurrentPrize(s).value);
      } else if CurrentPrize(r).Some? {
        FindPrizeUnique(r.prizes, id, CurrentPrize(r).value);
        FindPrizeUnique(s.prizes, id, CurrentPrize(r).value);
      }
    }
  }

  /** The remaining count depends only on the current prize and the history. */
  lemma SameRemaining(s: State, r: State)
    requires CurrentPrize(r) == CurrentPrize(s)
    requires r.currentPrizeId == s.currentPrizeId && r.winners == s.winners
    ensures RemainingCount(r) == RemainingCount(s)
  {
  }

  /** Stopping stores a pending round that fits; starting stores none. */
  lemma HandleDrawKeepsInv(s: State, choices: seq<nat>)
    requires Inv(s)
    ensures Inv(HandleDraw(s, choices))
  {
    var r := HandleDraw(s, choices);
    SameCurrentPrize(s, r);
    SameRemaining(s, r);
    if CurrentPrize(s).Some? && s.isRunning {
      var round := r.roundWinners.value;
      FilterDistinctKeys(s.participants, ParticipantId, HasNotWon(s.winners));
      DrawIsDistinct(CurrentPrize(s).value, RemainingCount(s), AvailableParticipants(s), s.rules, choices);
      forall i | 0 <= i < |round|
        ensures round[i].id !in Keys(r.winners, WinnerParticipantId)
      {
        assert round[i] in AvailableParticipants(s);
        var k :| 0 <= k < |AvailableParticipants(s)| && AvailableParticipants(s)[k] == round[i];
      }
      assert PendingFits(r, round);
    }
  }

  /** The records a commit adds carry the pending participants, so the
      history keeps distinct participant ids. */
  lemma CommitKeepsNoDoubleWin(s: State, round: seq<Participant>, records: seq<Winner>)
    requires NoDoubleWin(s)
    requires DistinctKeys(round, ParticipantId)
    requires forall i :: 0 <= i < |round| ==> round[i].id !in Keys(s.winners, WinnerParticipantId)
    requires |records| == |round|
    requires forall i :: 0 <= i < |records| ==> records[i].participant == round[i]
    ensures DistinctKeys(s.winners + records, WinnerParticipantId)
  {
  }

  /** After a commit of at most the remaining count, every prize is still
      within its count. */
  lemma CommitKeepsStock(s: State, prize: Prize, records: seq<Winner>)
    requires WellFormed(s) && StockRespected(s)
    requires prize in s.prizes
    requires forall i :: 0 <= i < |records| ==> records[i].prizeId == prize.id
    requires |WinsFor(s.winners, prize.id)| + |records| <= prize.count
    ensures forall q :: q in s.prizes ==> |WinsFor(s.winners + records, q.id)| <= q.count
  {
    forall q | q in s.prizes
      ensures |WinsFor(s.winners + records, q.id)| <= q.count
    {
      FilterAppend(s.winners, records, OfPrize(q.id));
      if q.id == prize.id {
        var i :| 0 <= i < |s.prizes| && s.prizes[i] == q;
        var j :| 0 <= j < |s.prizes| && s.prizes[j] == prize;
        assert q == prize;
        FilterAll(records, OfPrize(q.id));
      } else {
        FilterNone(records, OfPrize(q.id));
      }
    }
  }

  /** Committing appends the pending round within every bound. */
  lemma HandleRoundCompleteKeepsInv(s: State, uuid: nat -> string, clock: nat -> int)
    requires Inv(s)
    ensures Inv(HandleRoundComplete(s, uuid, clock))
  {
    var r := HandleRoundComplete(s, uuid, clock);
    if CurrentPrize(s).Some? && s.roundWinners.Some? {
      var prize := CurrentPrize(s).value;
      var round := s.roundWinners.value;
      var records := NewRecords(round, prize.id, uuid, clock);
      assert r.winners == s.winners + records;
      CommitKeepsNoDoubleWin(s, round, records);
      assert CurrentPrizeWinners(s) == WinsFor(s.winners, prize.id);
      CommitKeepsStock(s, prize, records);
    }
  }

  lemma SelectPrizeKeepsInv(s: State, prizeId: string)
    requires Inv(s)
    ensures Inv(SelectPrize(s, prizeId))
  {
  }

  lemma GoBackKeepsInv(s: State)
    requires Inv(s)
    ensures Inv(GoBack(s))
  {
  }

  /** A rule that is not yet registered can be added. */
  lemma AddRuleKeepsInv(s: State, rule: Rule)
    requires Inv(s)
    requires rule !in s.rules
    ensures Inv(AddRule(s, rule))
  {
  }

  lemma RemoveRuleKeepsInv(s: State, prizeId: string, participantId: string)
    requires Inv(s)
    ensures Inv(RemoveRule(s, prizeId, participantId))
  {
    var r := RemoveRule(s, prizeId, participantId);
    FilterDistinctKeys(s.rules, RuleItself, NotPair(prizeId, participantId));
    SameCurrentPrize(s, r);
    SameRemaining(s, r);
  }

  /** A full reset gives a consistent state whatever came before. */
  lemma ResetRestoresInv(s: State)
    ensures Inv(Reset(s))
  {
  }

  /** Participants with new, distinct ids can be imported. */
  lemma ImportParticipantsKeepsInv(s: State, data: seq<Participant>)
    requires Inv(s)
    requires DistinctKeys(s.participants + data, ParticipantId)
    ensures Inv(ImportParticipants(s, data))
  {
  }

  /** A prize with a fresh id can be added. */
  lemma AddPrizeKeepsInv(s: State, p: Prize)
    requires Inv(s)
    requires FreshPrize(s, p)
    ensures Inv(AddPrize(s, p))
  {
    var r := AddPrize(s, p);
    assert r.prizes == s.prizes + [p];
    forall i, j | 0 <= i < |s.prizes| && 0 <= j < 1
      ensures s.prizes[i].id != [p][j].id
    {
      assert Keys(s.prizes, PrizeId)[i] == s.prizes[i].id;
    }
    AppendDistinctKeys(s.prizes, [p], PrizeId);
    forall i | 0 <= i < |s.winners|
      ensures !OfPrize(p.id)(s.winners[i])
    {
      assert Keys(s.winners, WinnerPrizeId)[i] == s.winners[i].prizeId;
    }
    FilterNone(s.winners, OfPrize(p.id));
    SameCurrentPrize(s, r);
    SameRemaining(s, r);
  }

  /** Deleting a prize keeps everything consistent; a pending round for it
      can no longer be committed, since the prize is gone. */
  lemma DeletePrizeKeepsInv(s: State, id: string)
    requires Inv(s)
    ensures Inv(DeletePrize(s, id))
  {
    var r := DeletePrize(s, id);
    assert r.prizes == Filter(s.prizes, (q: Prize) => q.id != id);
    FilterDistinctKeys(s.prizes, PrizeId, (q: Prize) => q.id != id);
    if s.currentPrizeId == Some(id) {
      assert CurrentPrize(r).None?;
    } else {
      SameCurrentPrize(s, r);
      SameRemaining(s, r);
    }
  }
}
