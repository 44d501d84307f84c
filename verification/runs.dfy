/** A session as a sequence of user actions, each applied by its handler.
    The random choices, generated ids and clock readings travel with the
    action that consumes them. */
module Session {
  import opened Collections
  import opened Lottery
  import opened DrawEngine
  import opened RoundController
  import opened Invariants

  datatype Action =
    | DrawClicked(choices: seq<nat>)
    | RoundCompleted(uuid: nat -> string, clock: nat -> int)
    | PrizeClicked(prizeId: string)
    | BackClicked
    | RuleAdded(rule: Rule)
    | RuleRemoved(prizeId: string, participantId: string)
    | ResetAll
    | ParticipantsImported(data: seq<Participant>)
    | PrizeAdded(prize: Prize)
    | PrizeDeleted(id: string)

  function Step(s: State, a: Action): State
  {
    match a
    case DrawClicked(choices) => HandleDraw(s, choices)
    case RoundCompleted(uuid, clock) => HandleRoundComplete(s, uuid, clock)
    case PrizeClicked(prizeId) => SelectPrize(s, prizeId)
    case BackClicked => GoBack(s)
    case RuleAdded(rule) => AddRule(s, rule)
    case RuleRemoved(prizeId, participantId) => RemoveRule(s, prizeId, participantId)
    case ResetAll => Reset(s)
    case ParticipantsImported(data) => ImportParticipants(s, data)
    case PrizeAdded(prize) => AddPrize(s, prize)
    case PrizeDeleted(id) => DeletePrize(s, id)
  }

  /** What the data entered through the admin panel is expected to carry:
      a rule not yet registered, imported ids not yet in use, a freshly
      generated prize id. */
  ghost predicate Admissible(s: State, a: Action)
  {
    match a
    case RuleAdded(rule) => rule !in s.rules
    case ParticipantsImported(data) => DistinctKeys(s.participants + data, ParticipantId)
    case PrizeAdded(prize) => FreshPrize(s, prize)
    case _ => true
  }

  function Run(s: State, actions: seq<Action>): State
    decreases |actions|
  {
    if |actions| == 0 then s else Run(Step(s, actions[0]), actions[1..])
  }

  ghost predicate AdmissibleRun(s: State, actions: seq<Action>)
    decreases |actions|
  {
    |actions| == 0 || (Admissible(s, actions[0]) && AdmissibleRun(Step(s, actions[0]), actions[1..]))
  }

  lemma StepKeepsInv(s: State, a: Action)
    requires Inv(s) && Admissible(s, a)
    ensures Inv(Step(s, a))
  {
    match a
    case DrawClicked(choices) => HandleDrawKeepsInv(s, choices);
    case RoundCompleted(uuid, clock) => HandleRoundCompleteKeepsInv(s, uuid, clock);
    case PrizeClicked(prizeId) => SelectPrizeKeepsInv(s, prizeId);
    case BackClicked => GoBackKeepsInv(s);
    case RuleAdded(rule) => AddRuleKeepsInv(s, rule);
    case RuleRemoved(prizeId, participantId) => RemoveRuleKeepsInv(s, prizeId, participantId);
    case ResetAll => ResetRestoresInv(s);
    case ParticipantsImported(data) => ImportParticipantsKeepsInv(s, data);
    case PrizeAdded(prize) => AddPrizeKeepsInv(s, prize);
    case PrizeDeleted(id) => DeletePrizeKeepsInv(s, id);
  }

  lemma {:induction false} RunKeepsInv(s: State, actions: seq<Action>)
    requires Inv(s) && AdmissibleRun(s, actions)
    ensures Inv(Run(s, actions))
    decreases |actions|
  {
    if |actions| > 0 {
      StepKeepsInv(s, actions[0]);
      RunKeepsInv(Step(s, actions[0]), actions[1..]);
    }
  }

  /** From an empty start, however the session goes, nobody holds two winner
      records and no prize has more winners than its count. */
  lemma SessionSafety(actions: seq<Action>)
    requires AdmissibleRun(Initial(), actions)
    ensures DistinctKeys(Run(Initial(), actions).winners, WinnerParticipantId)
    ensures forall p :: p in Run(Initial(), actions).prizes ==>
              |WinsFor(Run(Initial(), actions).winners, p.id)| <= p.count
  {
    InitialInv();
    RunKeepsInv(Initial(), actions);
  }

  function IsReset(a: Action): bool { a.ResetAll? }
  function IsCommitOrReset(a: Action): bool { a.RoundCompleted? || a.ResetAll? }

  /** Only a commit or a reset touches the winner history; a commit only
      appends to it. */
  lemma StepHistory(s: State, a: Action)
    ensures !a.ResetAll? ==> s.winners <= Step(s, a).winners
    ensures !IsCommitOrReset(a) ==> Step(s, a).winners == s.winners
  {
    if a.RoundCompleted? {
      var r := Step(s, a);
      assert r.winners == r.winners[..|s.winners|] + r.winners[|s.winners|..];
    }
  }

  /** Without a reset, the winner history only grows: the history before the
      session is a prefix of the history after it. */
  lemma {:induction false} HistoryAppendOnly(s: State, actions: seq<Action>)
    requires forall i :: 0 <= i < |actions| ==> !IsReset(actions[i])
    ensures s.winners <= Run(s, actions).winners
    decreases |actions|
  {
    if |actions| > 0 {
      StepHistory(s, actions[0]);
      HistoryAppendOnly(Step(s, actions[0]), actions[1..]);
    }
  }

  /** Without a commit or a reset, the winner history does not change at
      all: starting, stopping, navigating and editing data record no one. */
  lemma {:induction false} HistoryUnchangedWithoutCommit(s: State, actions: seq<Action>)
    requires forall i :: 0 <= i < |actions| ==> !IsCommitOrReset(actions[i])
    ensures Run(s, actions).winners == s.winners
    decreases |actions|
  {
    if |actions| > 0 {
      StepHistory(s, actions[0]);
      HistoryUnchangedWithoutCommit(Step(s, actions[0]), actions[1..]);
    }
  }

  lemma RunCons(s: State, a: Action, rest: seq<Action>)
    ensures Run(s, [a] + rest) == Run(Step(s, a), rest)
  {
    assert ([a] + rest)[0] == a && ([a] + rest)[1..] == rest;
  }

  /** The session of `RepeatedRuleWinsTwice`: import one participant, add a
      prize, register the same rule twice, select the prize, start, stop and
      commit. */
  function RepeatedRuleSession(a: Participant, p: Prize, uuid: nat -> string, clock: nat -> int): seq<Action>
  {
    var rule := Rule(p.id, a.id);
    [ParticipantsImported([a]), PrizeAdded(p), RuleAdded(rule), RuleAdded(rule),
     PrizeClicked(p.id), DrawClicked([]), DrawClicked([]), RoundCompleted(uuid, clock)]
  }

  lemma RepeatedRuleSessionShape(a: Participant, p: Prize, uuid: nat -> string, clock: nat -> int)
    ensures var rule := Rule(p.id, a.id);
            RepeatedRuleSession(a, p, uuid, clock)
            == [ParticipantsImported([a])] + ([PrizeAdded(p)] + ([RuleAdded(rule)] + ([RuleAdded(rule)]
               + ([PrizeClicked(p.id)] + ([DrawClicked([])] + ([DrawClicked([])] + [RoundCompleted(uuid, clock)]))))))
  {
  }

  /** The state a session reaches after importing `a`, adding `p`, registering
      the rule for them twice and selecting `p`. */
  function RepeatedRuleSelected(a: Participant, p: Prize): State
  {
    var rule := Rule(p.id, a.id);
    SelectPrize(AddRule(AddRule(AddPrize(ImportParticipants(Initial(), [a]), p), rule), rule), p.id)
  }

  lemma RepeatedRuleSetup(a: Participant, p: Prize)
    requires 1 <= p.count
    ensures var s := RepeatedRuleSelected(a, p);
            s == State([a], [p], [Rule(p.id, a.id), Rule(p.id, a.id)], [], Some(p.id), false, None)
  {
    var s1 := AddPrize(ImportParticipants(Initial(), [a]), p);
    assert s1.prizes == [p];
    assert FindPrize(s1.prizes, p.id) == Some(p);
    assert WinsFor(s1.winners, p.id) == [];
  }

  /** Starting and stopping from that state: the pending round names `a`
      twice. */
  function RepeatedRuleRound(a: Participant, p: Prize): State
  {
    HandleDraw(HandleDraw(RepeatedRuleSelected(a, p), []), [])
  }

  lemma RepeatedRuleStarts(a: Participant, p: Prize)
    requires 2 <= p.count
    ensures HandleDraw(RepeatedRuleSelected(a, p), [])
            == State([a], [p], [Rule(p.id, a.id), Rule(p.id, a.id)], [], Some(p.id), true, None)
  {
    var s3 := RepeatedRuleSelected(a, p);
    RepeatedRuleSetup(a, p);
    assert CurrentPrize(s3) == Some(p);
    assert RemainingCount(s3) == p.count;
    assert AvailableParticipants(s3) == [a];
  }

  /** With `a` the only available participant, the doubled rule gives a
      round of `a` twice and nothing else: the random pool is empty. */
  lemma RepeatedRuleAlone(p: Prize, a: Participant, choices: seq<nat>)
    requires 2 <= p.count
    ensures DetermineWinners(p, p.count, [a], [Rule(p.id, a.id), Rule(p.id, a.id)], choices) == [a, a]
  {
    var rule := Rule(p.id, a.id);
    assert FindFirst([a], IdIs(a.id)) == Some(a) by {
      assert IdIs(a.id)([a][0]);
    }
    assert ForcedHead(rule, [a]) == [a];
    FilterAll([rule, rule], ForPrize(p.id));
    ForcedWinnersCons(rule, [rule], [a]);
    ForcedWinnersCons(rule, [], [a]);
    assert [rule] + [] == [rule];
    var forced := Forced(p, [a], [rule, rule]);
    assert forced == [a, a];
    assert !NotAmong(forced)(a) by { assert Keys(forced, ParticipantId)[0] == a.id; }
    FilterNone([a], NotAmong(forced));
    DrawWhenForcedFit(p, p.count, [a], [rule, rule], choices);
  }

  lemma RepeatedRuleStops(a: Participant, p: Prize)
    requires a.id != "" && p.id != "" && 2 <= p.count
    ensures var s := HandleDraw(State([a], [p], [Rule(p.id, a.id), Rule(p.id, a.id)], [], Some(p.id), true, None), []);
            s == State([a], [p], [Rule(p.id, a.id), Rule(p.id, a.id)], [], Some(p.id), false, Some([a, a]))
  {
    var rule := Rule(p.id, a.id);
    var s4 := State([a], [p], [rule, rule], [], Some(p.id), true, None);
    assert FindPrize(s4.prizes, p.id) == Some(p);
    assert CurrentPrize(s4) == Some(p);
    assert RemainingCount(s4) == p.count;
    assert AvailableParticipants(s4) == [a];
    RepeatedRuleAlone(p, a, []);
  }

  lemma RepeatedRuleRoundTwice(a: Participant, p: Prize)
    requires a.id != "" && p.id != "" && 2 <= p.count
    ensures RepeatedRuleRound(a, p)
            == State([a], [p], [Rule(p.id, a.id), Rule(p.id, a.id)], [], Some(p.id), false, Some([a, a]))
  {
    RepeatedRuleStarts(a, p);
    RepeatedRuleStops(a, p);
  }

  /** The session runs through the states above, ending in a commit. */
  lemma RepeatedRuleRunUnfolds(a: Participant, p: Prize, uuid: nat -> string, clock: nat -> int)
    ensures Run(Initial(), RepeatedRuleSession(a, p, uuid, clock))
            == HandleRoundComplete(RepeatedRuleRound(a, p), uuid, clock)
  {
    var rule := Rule(p.id, a.id);
    RepeatedRuleSessionShape(a, p, uuid, clock);
    var t4 := [PrizeClicked(p.id)] + ([DrawClicked([])] + ([DrawClicked([])] + [RoundCompleted(uuid, clock)]));
    RunSetup(Initial(), [a], p, rule, t4);
    RunPlay(AddRule(AddRule(AddPrize(ImportParticipants(Initial(), [a]), p), rule), rule), p.id, uuid, clock);
  }

  lemma RunSetup(s: State, data: seq<Participant>, p: Prize, rule: Rule, rest: seq<Action>)
    ensures Run(s, [ParticipantsImported(data)] + ([PrizeAdded(p)] + ([RuleAdded(rule)] + ([RuleAdded(rule)] + rest))))
            == Run(AddRule(AddRule(AddPrize(ImportParticipants(s, data), p), rule), rule), rest)
  {
    var s1 := ImportParticipants(s, data);
    var s2 := AddPrize(s1, p);
    var s3 := AddRule(s2, rule);
    RunCons(s, ParticipantsImported(data), [PrizeAdded(p)] + ([RuleAdded(rule)] + ([RuleAdded(rule)] + rest)));
    assert Step(s, ParticipantsImported(data)) == s1;
    RunCons(s1, PrizeAdded(p), [RuleAdded(rule)] + ([RuleAdded(rule)] + rest));
    assert Step(s1, PrizeAdded(p)) == s2;
    RunCons(s2, RuleAdded(rule), [RuleAdded(rule)] + rest);
    assert Step(s2, RuleAdded(rule)) == s3;
    RunCons(s3, RuleAdded(rule), rest);
    assert Step(s3, RuleAdded(rule)) == AddRule(s3, rule);
  }

  lemma RunPlay(s: State, id: string, uuid: nat -> string, clock: nat -> int)
    ensures Run(s, [PrizeClicked(id)] + ([DrawClicked([])] + ([DrawClicked([])] + [RoundCompleted(uuid, clock)])))
            == HandleRoundComplete(HandleDraw(HandleDraw(SelectPrize(s, id), []), []), uuid, clock)
  {
    RunCons(s, PrizeClicked(id), [DrawClicked([])] + ([DrawClicked([])] + [RoundCompleted(uuid, clock)]));
    RunCons(SelectPrize(s, id), DrawClicked([]), [DrawClicked([])] + [RoundCompleted(uuid, clock)]);
    RunCons(HandleDraw(SelectPrize(s, id), []), DrawClicked([]), [RoundCompleted(uuid, clock)]);
    var s5 := HandleDraw(HandleDraw(SelectPrize(s, id), []), []);
    RunCons(s5, RoundCompleted(uuid, clock), []);
    assert [RoundCompleted(uuid, clock)] + [] == [RoundCompleted(uuid, clock)];
  }

  /** Registering the same rule twice is enough to break the no-double-win
      guarantee: a participant forced twice in one round is committed twice.
      This is why `RuleAdded` is admissible only for a rule not yet present. */
  lemma RepeatedRuleWinsTwice(a: Participant, p: Prize, uuid: nat -> string, clock: nat -> int)
    requires a.id != "" && p.id != "" && 2 <= p.count
    ensures var s := Run(Initial(), RepeatedRuleSession(a, p, uuid, clock));
            |s.winners| == 2 && s.winners[0].participant == a && s.winners[1].participant == a
  {
    RepeatedRuleRunUnfolds(a, p, uuid, clock);
    RepeatedRuleRoundTwice(a, p);
    var s5 := RepeatedRuleRound(a, p);
    assert FindPrize(s5.prizes, p.id) == Some(p);
  }
}
