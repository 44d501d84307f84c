/** The round controller of `App`: the selected prize, the running flag and
    the pending (uncommitted) result, over the four stored collections. Every
    handler is a function from the state before to the state after; the
    random shuffle, the generated record ids and the clock are parameters. */
module RoundController {
  import opened Collections
  import opened Lottery
  import opened DrawEngine

  datatype State = State(
    participants: seq<Participant>,
    prizes: seq<Prize>,
    rules: seq<Rule>,
    winners: seq<Winner>,
    currentPrizeId: Option<string>,
    isRunning: bool,
    roundWinners: Option<seq<Participant>>)

  /** A session that starts with nothing stored. */
  function Initial(): State
  {
    State([], [], [], [], None, false, None)
  }

  /** `currentPrizeId` is falsy: unset, or the empty string. */
  predicate NoPrizeSelected(s: State)
  {
    s.currentPrizeId.None? || s.currentPrizeId.value == ""
  }

  /** `currentPrize`: the first prize carrying the selected id. */
  function CurrentPrize(s: State): (r: Option<Prize>)
    ensures r.Some? ==> s.currentPrizeId.Some? && r.value in s.prizes && r.value.id == s.currentPrizeId.value
  {
    match s.currentPrizeId
    case None => None
    case Some(id) => FindPrize(s.prizes, id)
  }

  /** `availableParticipants`. */
  function AvailableParticipants(s: State): seq<Participant>
  {
    Available(s.participants, s.winners)
  }

  /** `currentPrizeWinners`. */
  function CurrentPrizeWinners(s: State): seq<Winner>
  {
    if NoPrizeSelected(s) then [] else WinsFor(s.winners, s.currentPrizeId.value)
  }

  /** `remainingCount`. */
  function RemainingCount(s: State): int
  {
    match CurrentPrize(s)
    case None => 0
    case Some(p) => p.count - |CurrentPrizeWinners(s)|
  }

  /** The remaining stock is the prize's count less the number of times the
      prize's id occurs in the winner history (an empty id, which JavaScript
      reads as "no prize selected", counts no winners at all). */
  lemma RemainingCountIsStockLeft(s: State)
    ensures CurrentPrize(s).None? ==> RemainingCount(s) == 0
    ensures CurrentPrize(s).Some? && CurrentPrize(s).value.id != "" ==>
              RemainingCount(s) == CurrentPrize(s).value.count
                                   - multiset(Keys(s.winners, WinnerPrizeId))[CurrentPrize(s).value.id]
    ensures CurrentPrize(s).Some? && CurrentPrize(s).value.id == "" ==>
              RemainingCount(s) == CurrentPrize(s).value.count
  {
    if CurrentPrize(s).Some? {
      WinsForCount(s.winners, CurrentPrize(s).value.id);
    }
  }

  /** `handleDraw`: with no current prize, nothing; while running, stop and
      store the engine's result as the pending round; otherwise start, unless
      the prize is used up or nobody is available. */
  function HandleDraw(s: State, choices: seq<nat>): (r: State)
    ensures r.participants == s.participants && r.prizes == s.prizes && r.rules == s.rules
    ensures r.winners == s.winners && r.currentPrizeId == s.currentPrizeId
    ensures CurrentPrize(s).None? ==> r == s
    // stop: the pending round is what the engine draws for the remaining stock
    ensures CurrentPrize(s).Some? && s.isRunning ==>
              && !r.isRunning
              && r.roundWinners
                 == Some(DetermineWinners(CurrentPrize(s).value, RemainingCount(s), AvailableParticipants(s),
                                          s.rules, choices))
              && (forall i :: 0 <= i < |r.roundWinners.value| ==> r.roundWinners.value[i] in AvailableParticipants(s))
              && (0 <= RemainingCount(s) ==> |r.roundWinners.value| <= Min(RemainingCount(s), MaxPerRound))
    // start: refused exactly when the stock is used up or nobody is available
    ensures CurrentPrize(s).Some? && !s.isRunning ==>
              if RemainingCount(s) <= 0 || |AvailableParticipants(s)| == 0 then r == s
              else r.isRunning && r.roundWinners.None?
  {
    match CurrentPrize(s)
    case None => s
    case Some(prize) =>
      if s.isRunning then
        s.(isRunning := false,
           roundWinners := Some(DetermineWinners(prize, RemainingCount(s), AvailableParticipants(s), s.rules, choices)))
      else if RemainingCount(s) <= 0 || |AvailableParticipants(s)| == 0 then s
      else s.(roundWinners := None, isRunning := true)
  }

  /** One winner record per pending participant, in order, with the `i`-th
      generated id and clock reading. */
  function NewRecords(round: seq<Participant>, prizeId: string, uuid: nat -> string, clock: nat -> int)
    : (r: seq<Winner>)
    ensures |r| == |round|
    ensures forall i :: 0 <= i < |r| ==> r[i] == Winner(uuid(i), round[i], prizeId, clock(i))
  {
    seq(|round|, i requires 0 <= i < |round| => Winner(uuid(i), round[i], prizeId, clock(i)))
  }

  function WinnerId(w: Winner): string { w.id }

  /** Distinct generated ids give the committed records distinct ids. */
  lemma NewRecordIdsDistinct(round: seq<Participant>, prizeId: string, uuid: nat -> string, clock: nat -> int)
    requires forall i, j :: 0 <= i < j ==> uuid(i) != uuid(j)
    ensures DistinctKeys(NewRecords(round, prizeId, uuid, clock), WinnerId)
  {
    var records := NewRecords(round, prizeId, uuid, clock);
    forall i, j | 0 <= i < j < |records|
      ensures WinnerId(records[i]) != WinnerId(records[j])
    {
      assert records[i].id == uuid(i) && records[j].id == uuid(j);
    }
  }

  /** `handleRoundComplete`: commit the pending round to the history. */
  function HandleRoundComplete(s: State, uuid: nat -> string, clock: nat -> int): (r: State)
    ensures CurrentPrize(s).None? || s.roundWinners.None? ==> r == s
    ensures r.participants == s.participants && r.prizes == s.prizes && r.rules == s.rules
    ensures r.currentPrizeId == s.currentPrizeId && r.isRunning == s.isRunning
    ensures CurrentPrize(s).Some? && s.roundWinners.Some? ==>
              var round := s.roundWinners.value;
              && r.roundWinners.None?
              && |r.winners| == |s.winners| + |round|
              && r.winners[..|s.winners|] == s.winners
              && (forall i :: 0 <= i < |round| ==>
                    && r.winners[|s.winners| + i].participant == round[i]
                    && r.winners[|s.winners| + i].prizeId == CurrentPrize(s).value.id
                    && r.winners[|s.winners| + i].id == uuid(i)
                    && r.winners[|s.winners| + i].timestamp == clock(i))
  {
    match (CurrentPrize(s), s.roundWinners)
    case (Some(prize), Some(round)) =>
      var records := NewRecords(round, prize.id, uuid, clock);
      assert (s.winners + records)[..|s.winners|] == s.winners;
      s.(winners := s.winners + records, roundWinners := None)
    case _ => s
  }

  /** A prize card's click: only offered while no prize is current, and
      disabled once the prize's winners reach its count. */
  function SelectPrize(s: State, prizeId: string): (r: State)
    ensures r.participants == s.participants && r.prizes == s.prizes && r.rules == s.rules
    ensures r.winners == s.winners && r.isRunning == s.isRunning
    ensures CurrentPrize(s).Some? ==> r == s
    ensures CurrentPrize(s).None? && FindPrize(s.prizes, prizeId).Some?
            && |WinsFor(s.winners, prizeId)| < FindPrize(s.prizes, prizeId).value.count
            ==> r.currentPrizeId == Some(prizeId) && r.roundWinners.None?
    ensures r != s ==> r.currentPrizeId == Some(prizeId) && r.roundWinners.None? && RemainingCount(r) > 0
  {
    if CurrentPrize(s).Some? then s
    else
      match FindPrize(s.prizes, prizeId)
      case None => s
      case Some(p) =>
        if |WinsFor(s.winners, p.id)| >= p.count then s
        else
          var r := s.(currentPrizeId := Some(p.id), roundWinners := None);
          assert CurrentPrize(r) == Some(p);
          r
  }

  /** The back button: ignored while a spin is running. */
  function GoBack(s: State): (r: State)
    ensures s.isRunning ==> r == s
    ensures !s.isRunning ==> r.currentPrizeId.None? && r.roundWinners.None? && CurrentPrize(r).None?
    ensures r.participants == s.participants && r.prizes == s.prizes && r.rules == s.rules
    ensures r.winners == s.winners && r.isRunning == s.isRunning
  {
    if s.isRunning then s else s.(currentPrizeId := None, roundWinners := None)
  }

  /** `onAddRule`: the new rule is the last one registered for its prize,
      and no other prize's rules change. */
  function AddRule(s: State, rule: Rule): (r: State)
    ensures RulesFor(r.rules, rule.prizeId) == RulesFor(s.rules, rule.prizeId) + [rule]
    ensures forall id :: id != rule.prizeId ==> RulesFor(r.rules, id) == RulesFor(s.rules, id)
    ensures r.participants == s.participants && r.prizes == s.prizes && r.winners == s.winners
    ensures r.currentPrizeId == s.currentPrizeId && r.isRunning == s.isRunning && r.roundWinners == s.roundWinners
  {
    var r := s.(rules := s.rules + [rule]);
    FilterAppend(s.rules, [rule], ForPrize(rule.prizeId));
    FilterCons(rule, [], ForPrize(rule.prizeId));
    assert [rule] + [] == [rule];
    forall id | id != rule.prizeId
      ensures RulesFor(r.rules, id) == RulesFor(s.rules, id)
    {
      FilterAppend(s.rules, [rule], ForPrize(id));
      FilterCons(rule, [], ForPrize(id));
      assert [rule] + [] == [rule];
    }
    r
  }

  function NotPair(prizeId: string, participantId: string): Rule -> bool
  {
    (r: Rule) => !(r.prizeId == prizeId && r.participantId == participantId)
  }

  /** `onRemoveRule`: every rule for that (prize, participant) pair goes, every
      other rule stays, as often as it was there. */
  function RemoveRule(s: State, prizeId: string, participantId: string): (r: State)
    ensures Rule(prizeId, participantId) !in r.rules
    ensures forall x :: x != Rule(prizeId, participantId) ==> multiset(r.rules)[x] == multiset(s.rules)[x]
    ensures r.participants == s.participants && r.prizes == s.prizes && r.winners == s.winners
    ensures r.currentPrizeId == s.currentPrizeId && r.isRunning == s.isRunning && r.roundWinners == s.roundWinners
  {
    var kept := Filter(s.rules, NotPair(prizeId, participantId));
    assert !NotPair(prizeId, participantId)(Rule(prizeId, participantId));
    forall x | x != Rule(prizeId, participantId)
      ensures multiset(kept)[x] == multiset(s.rules)[x]
    {
      FilterMultiset(s.rules, NotPair(prizeId, participantId), x);
    }
    s.(rules := kept)
  }

  /** Removing a rule keeps the other rules in their order: any selection of
      rules that excludes the removed pair reads the same before and after. */
  lemma RemoveRuleKeepsOrder(s: State, prizeId: string, participantId: string, keep: Rule -> bool)
    requires forall x :: keep(x) ==> x != Rule(prizeId, participantId)
    ensures Filter(RemoveRule(s, prizeId, participantId).rules, keep) == Filter(s.rules, keep)
  {
    var gone := NotPair(prizeId, participantId);
    FilterCommute(s.rules, gone, keep);
    var selected := Filter(s.rules, keep);
    forall i | 0 <= i < |selected|
      ensures gone(selected[i])
    {
      assert keep(selected[i]);
    }
    FilterAll(selected, gone);
  }

  /** In particular the rules of every other prize are untouched. */
  lemma RemoveRuleKeepsOtherPrizes(s: State, prizeId: string, participantId: string, id: string)
    requires id != prizeId
    ensures RulesFor(RemoveRule(s, prizeId, participantId).rules, id) == RulesFor(s.rules, id)
  {
    RemoveRuleKeepsOrder(s, prizeId, participantId, ForPrize(id));
  }

  /** `onReset`: the four collections and the pending round are cleared
      together; the selected prize id and the running flag are left as they
      were. */
  function Reset(s: State): (r: State)
    ensures r.participants == [] && r.prizes == [] && r.rules == [] && r.winners == []
    ensures r.roundWinners.None? && CurrentPrize(r).None? && RemainingCount(r) == 0
    ensures r.currentPrizeId == s.currentPrizeId && r.isRunning == s.isRunning
  {
    s.(winners := [], roundWinners := None, participants := [], prizes := [], rules := [])
  }

  /** `onImportParticipants`: the imported list is appended. */
  function ImportParticipants(s: State, data: seq<Participant>): (r: State)
    ensures |r.participants| == |s.participants| + |data|
    ensures r.participants[..|s.participants|] == s.participants && r.participants[|s.participants|..] == data
    ensures r.prizes == s.prizes && r.rules == s.rules && r.winners == s.winners
    ensures r.currentPrizeId == s.currentPrizeId && r.isRunning == s.isRunning && r.roundWinners == s.roundWinners
  {
    assert (s.participants + data)[..|s.participants|] == s.participants;
    assert (s.participants + data)[|s.participants|..] == data;
    s.(participants := s.participants + data)
  }

  /** `onAddPrize`: the new prize is appended. */
  function AddPrize(s: State, p: Prize): (r: State)
    ensures |r.prizes| == |s.prizes| + 1
    ensures r.prizes[..|s.prizes|] == s.prizes && r.prizes[|s.prizes|..] == [p]
    ensures r.participants == s.participants && r.rules == s.rules && r.winners == s.winners
    ensures r.currentPrizeId == s.currentPrizeId && r.isRunning == s.isRunning && r.roundWinners == s.roundWinners
  {
    assert (s.prizes + [p])[..|s.prizes|] == s.prizes;
    assert (s.prizes + [p])[|s.prizes|..] == [p];
    s.(prizes := s.prizes + [p])
  }

  function NotId(id: string): Prize -> bool
  {
    (q: Prize) => q.id != id
  }

  /** `onDeletePrize`: every prize with that id goes, every other prize stays,
      as often as it was there; winners are kept. */
  function DeletePrize(s: State, id: string): (r: State)
    ensures forall q :: q in r.prizes <==> q in s.prizes && q.id != id
    ensures forall q: Prize :: q.id != id ==> multiset(r.prizes)[q] == multiset(s.prizes)[q]
    ensures r.participants == s.participants && r.rules == s.rules && r.winners == s.winners
    ensures r.currentPrizeId == s.currentPrizeId && r.isRunning == s.isRunning && r.roundWinners == s.roundWinners
  {
    var kept := Filter(s.prizes, NotId(id));
    forall q: Prize | q.id != id
      ensures multiset(kept)[q] == multiset(s.prizes)[q]
    {
      FilterMultiset(s.prizes, NotId(id), q);
    }
    s.(prizes := kept)
  }

  /** The prizes left after a delete keep their relative order: any selection
      that excludes the deleted id reads the same before and after. */
  lemma DeletePrizeKeepsOrder(s: State, id: string, keep: Prize -> bool)
    requires forall q :: keep(q) ==> q.id != id
    ensures Filter(DeletePrize(s, id).prizes, keep) == Filter(s.prizes, keep)
  {
    var gone := NotId(id);
    FilterCommute(s.prizes, gone, keep);
    var selected := Filter(s.prizes, keep);
    forall i | 0 <= i < |selected|
      ensures gone(selected[i])
    {
      assert keep(selected[i]);
    }
    FilterAll(selected, gone);
  }
}
