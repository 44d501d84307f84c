/** The draw engine, `determineWinners`: who wins one round of one prize.
    Forced winners named by rules come first, in rule order; the round is
    capped at ten; what the forced winners leave open is filled from a
    shuffle of the remaining eligible participants. The shuffle is the
    `choices` oracle of `Shuffling`. */
module DrawEngine {
  import opened Collections
  import opened Shuffling
  import opened Lottery

  /** Hard cap on the winners of one round (`Math.min(slots, 10)`). */
  const MaxPerRound: int := 10

  function ForPrize(prizeId: string): Rule -> bool
  {
    (r: Rule) => r.prizeId == prizeId
  }

  function IdIs(id: string): Participant -> bool
  {
    (p: Participant) => p.id == id
  }

  function NotAmong(chosen: seq<Participant>): Participant -> bool
  {
    (p: Participant) => p.id !in Keys(chosen, ParticipantId)
  }

  function NamesOneOf(pool: seq<Participant>): Rule -> bool
  {
    (r: Rule) => r.participantId in Keys(pool, ParticipantId)
  }

  /** `riggedRules.filter(r => r.prizeId === prizeId)`. */
  function RulesFor(rules: seq<Rule>, prizeId: string): seq<Rule>
  {
    Filter(rules, ForPrize(prizeId))
  }

  /** The participant one rule forces, if they are available: the first
      available participant carrying the rule's participant id. */
  function ForcedHead(rule: Rule, available: seq<Participant>): (r: seq<Participant>)
    ensures r == [] || (|r| == 1 && r[0] in available && r[0].id == rule.participantId)
  {
    match FindFirst(available, IdIs(rule.participantId))
    case Some(p) => [p]
    case None => []
  }

  function ForcedBy(available: seq<Participant>): Rule -> seq<Participant>
  {
    (rule: Rule) => ForcedHead(rule, available)
  }

  /** For each rule in order, the first available participant with the
      rule's participant id, when there is one. Repeated rules give repeated
      entries: nothing here removes duplicates. */
  function ForcedWinners(rules: seq<Rule>, available: seq<Participant>): seq<Participant>
  {
    FlatMap(rules, ForcedBy(available))
  }

  lemma ForcedWinnersCons(rule: Rule, rest: seq<Rule>, available: seq<Participant>)
    ensures ForcedWinners([rule] + rest, available) == ForcedHead(rule, available) + ForcedWinners(rest, available)
  {
    FlatMapCons(rule, rest, ForcedBy(available));
  }

  /** Every forced winner is available. */
  lemma {:induction false} ForcedWinnersAvailable(rules: seq<Rule>, available: seq<Participant>)
    ensures forall x :: x in ForcedWinners(rules, available) ==> x in available
    decreases |rules|
  {
    if |rules| > 0 {
      ForcedWinnersAvailable(rules[1..], available);
      var head := ForcedHead(rules[0], available);
      var tail := ForcedWinners(rules[1..], available);
      assert ForcedWinners(rules, available) == head + tail;
      forall x | x in head + tail
        ensures x in available
      {
        assert x in head || x in tail;
      }
    }
  }

  /** The forced winners of consecutive rule lists are consecutive: rules are
      honoured in registration order. */
  lemma ForcedWinnersAppend(a: seq<Rule>, b: seq<Rule>, available: seq<Participant>)
    ensures ForcedWinners(a + b, available) == ForcedWinners(a, available) + ForcedWinners(b, available)
  {
    FlatMapAppend(a, b, ForcedBy(available));
  }

  /** The ids of the forced winners are, in order, the participant ids of
      exactly those rules that name an available participant: none is
      missing, none is extra, none is reordered. */
  lemma {:induction false} ForcedWinnerIds(rules: seq<Rule>, available: seq<Participant>)
    ensures Keys(ForcedWinners(rules, available), ParticipantId)
         == Keys(Filter(rules, NamesOneOf(available)), RuleParticipantId)
    decreases |rules|
  {
    if |rules| > 0 {
      var id := rules[0].participantId;
      var found := FindFirst(available, IdIs(id));
      var head := ForcedHead(rules[0], available);
      var named: seq<Rule> := if NamesOneOf(available)(rules[0]) then [rules[0]] else [];
      assert ForcedWinners(rules, available) == head + ForcedWinners(rules[1..], available);
      assert Filter(rules, NamesOneOf(available)) == named + Filter(rules[1..], NamesOneOf(available)) by {
        assert rules == [rules[0]] + rules[1..];
        FilterCons(rules[0], rules[1..], NamesOneOf(available));
      }
      ForcedWinnerIds(rules[1..], available);
      KeysAppend(head, ForcedWinners(rules[1..], available), ParticipantId);
      KeysAppend(named, Filter(rules[1..], NamesOneOf(available)), RuleParticipantId);
      assert Keys(head, ParticipantId) == Keys(named, RuleParticipantId) by {
        KeysMembership(available, ParticipantId, id);
        assert found.Some? <==> NamesOneOf(available)(rules[0]);
      }
    }
  }

  /** When every rule names an available participant, the forced winners are
      those participants, one per rule, in rule order. */
  lemma AllForcedWinnersPresent(rules: seq<Rule>, available: seq<Participant>)
    requires forall i :: 0 <= i < |rules| ==> rules[i].participantId in Keys(available, ParticipantId)
    ensures Keys(ForcedWinners(rules, available), ParticipantId) == Keys(rules, RuleParticipantId)
  {
    ForcedWinnerIds(rules, available);
    FilterAll(rules, NamesOneOf(available));
  }

  /** Rules that name distinct participants give forced winners with
      distinct ids. */
  lemma ForcedWinnersDistinct(rules: seq<Rule>, available: seq<Participant>)
    requires DistinctKeys(rules, RuleParticipantId)
    ensures DistinctKeys(ForcedWinners(rules, available), ParticipantId)
  {
    var f := ForcedWinners(rules, available);
    var named := Filter(rules, NamesOneOf(available));
    ForcedWinnerIds(rules, available);
    FilterDistinctKeys(rules, RuleParticipantId, NamesOneOf(available));
    forall i, j | 0 <= i < j < |f|
      ensures f[i].id != f[j].id
    {
      assert Keys(f, ParticipantId)[i] == named[i].participantId;
      assert Keys(f, ParticipantId)[j] == named[j].participantId;
    }
  }

  /** A prize's rules never register the same participant twice when no rule
      is registered twice. */
  lemma RulesForDistinct(rules: seq<Rule>, prizeId: string)
    requires DistinctKeys(rules, RuleItself)
    ensures DistinctKeys(RulesFor(rules, prizeId), RuleParticipantId)
  {
    var rs := RulesFor(rules, prizeId);
    FilterDistinctKeys(rules, RuleItself, ForPrize(prizeId));
    forall i, j | 0 <= i < j < |rs|
      ensures rs[i].participantId != rs[j].participantId
    {
      assert ForPrize(prizeId)(rs[i]) && ForPrize(prizeId)(rs[j]);
      assert rs[i] != rs[j];
    }
  }

  /** The forced winners of a round of `prize`. */
  function Forced(prize: Prize, available: seq<Participant>, rules: seq<Rule>): (r: seq<Participant>)
    ensures forall x :: x in r ==> x in available
  {
    ForcedWinnersAvailable(RulesFor(rules, prize.id), available);
    ForcedWinners(RulesFor(rules, prize.id), available)
  }

  /** The participants a random pick may choose: available and not forced. */
  function RandomPool(available: seq<Participant>, forced: seq<Participant>): (r: seq<Participant>)
    ensures forall x :: x in r ==> x in available && x.id !in Keys(forced, ParticipantId)
  {
    Filter(available, NotAmong(forced))
  }

  /** `determineWinners(prize, slots)`, with the rule list, the available
      participants and the shuffle passed in. */
  function DetermineWinners(prize: Prize, slots: int, available: seq<Participant>, rules: seq<Rule>,
                            choices: seq<nat>): (r: seq<Participant>)
    // never more than the cap when the caller asks for a non-negative count
    ensures 0 <= slots ==> |r| <= Min(slots, MaxPerRound)
    // everyone drawn is available
    ensures forall i :: 0 <= i < |r| ==> r[i] in available
    // the forced winners fit: they come first, then as many distinct random
    // picks from the rest of the pool as the cap leaves open and the pool allows
    ensures var forced := Forced(prize, available, rules);
            var pool := RandomPool(available, forced);
            |forced| <= Min(slots, MaxPerRound) ==>
              && |r| == |forced| + Min(Min(slots, MaxPerRound) - |forced|, |pool|)
              && r[..|forced|] == forced
              && multiset(r[|forced|..]) <= multiset(pool)
              && forall i :: |forced| <= i < |r| ==> r[i].id !in Keys(forced, ParticipantId)
    // too many forced winners: the first ones up to the cap, nobody random
    ensures var forced := Forced(prize, available, rules);
            0 <= Min(slots, MaxPerRound) < |forced| ==> r == forced[..Min(slots, MaxPerRound)]
    // a negative count reaches `slice(0, slots)` and counts back from the end
    ensures var forced := Forced(prize, available, rules);
            slots < 0 ==> r == forced[..Max(|forced| + slots, 0)]
  {
    var forced := Forced(prize, available, rules);
    var slotsNeeded := Min(slots, MaxPerRound);
    if |forced| > slotsNeeded then
      SliceTo(forced, slotsNeeded)
    else
      FillRound(forced, RandomPool(available, forced), choices, slotsNeeded - |forced|)
  }

  /** `[...result, ...shuffled.slice(0, n)]`: the forced winners, then the
      first `n` of the shuffled pool. The forced winners stay in front, at
      most `n` picks follow, all from the pool and none more often than the
      pool holds it. */
  function FillRound<T>(forced: seq<T>, pool: seq<T>, choices: seq<nat>, n: nat): (r: seq<T>)
    ensures |r| == |forced| + Min(n, |pool|)
    ensures r[..|forced|] == forced
    ensures multiset(r[|forced|..]) <= multiset(pool)
    ensures forall i :: |forced| <= i < |r| ==> r[i] in pool
  {
    var picks := Take(Shuffle(pool, choices), n);
    TakeMultiset(Shuffle(pool, choices), n);
    SubMultisetElements(picks, pool);
    AppendHalves(forced, picks);
    forced + picks
  }

  /** With distinct participant ids in the pool and no rule registered twice,
      nobody is drawn twice in one round. */
  lemma DrawIsDistinct(prize: Prize, slots: int, available: seq<Participant>, rules: seq<Rule>,
                       choices: seq<nat>)
    requires DistinctKeys(available, ParticipantId)
    requires DistinctKeys(rules, RuleItself)
    ensures DistinctKeys(DetermineWinners(prize, slots, available, rules, choices), ParticipantId)
  {
    var forced := Forced(prize, available, rules);
    var slotsNeeded := Min(slots, MaxPerRound);
    RulesForDistinct(rules, prize.id);
    ForcedWinnersDistinct(RulesFor(rules, prize.id), available);
    if |forced| > slotsNeeded {
      PrefixDistinctKeys(forced, DetermineWinners(prize, slots, available, rules, choices), ParticipantId);
    } else {
      var pool := RandomPool(available, forced);
      FilterDistinctKeys(available, ParticipantId, NotAmong(forced));
      FillDistinct(forced, pool, choices, slotsNeeded - |forced|, ParticipantId);
    }
  }

  /** Filling from a pool with distinct keys, none shared with the forced
      entries, keeps the keys distinct. */
  lemma FillDistinct<T, K>(forced: seq<T>, pool: seq<T>, choices: seq<nat>, n: nat, key: T -> K)
    requires DistinctKeys(forced, key) && DistinctKeys(pool, key)
    requires forall x :: x in pool ==> key(x) !in Keys(forced, key)
    ensures DistinctKeys(FillRound(forced, pool, choices, n), key)
  {
    var shuffled := Shuffle(pool, choices);
    var picks := Take(shuffled, n);
    ShuffleDistinctKeys(pool, choices, key);
    PrefixDistinctKeys(shuffled, picks, key);
    TakeMultiset(shuffled, n);
    SubMultisetElements(picks, pool);
    forall i, j | 0 <= i < |forced| && 0 <= j < |picks|
      ensures key(forced[i]) != key(picks[j])
    {
      assert Keys(forced, key)[i] == key(forced[i]);
    }
    AppendDistinctKeys(forced, picks, key);
  }

  /** When the forced winners fit, the draw is the forced winners followed by
      the first picks of the shuffled pool. */
  lemma DrawWhenForcedFit(prize: Prize, slots: int, available: seq<Participant>, rules: seq<Rule>,
                          choices: seq<nat>)
    requires |Forced(prize, available, rules)| <= Min(slots, MaxPerRound)
    ensures var forced := Forced(prize, available, rules);
            DetermineWinners(prize, slots, available, rules, choices)
              == forced + Take(Shuffle(RandomPool(available, forced), choices), Min(slots, MaxPerRound) - |forced|)
  {
    var forced := Forced(prize, available, rules);
    var slotsNeeded := Min(slots, MaxPerRound);
    assert !(|forced| > slotsNeeded);
    FillRoundPicks(forced, RandomPool(available, forced), choices, slotsNeeded - |forced|);
  }

  /** The fill is the forced entries followed by the first `n` of the shuffle. */
  lemma FillRoundPicks<T>(forced: seq<T>, pool: seq<T>, choices: seq<nat>, n: nat)
    ensures FillRound(forced, pool, choices, n) == forced + Take(Shuffle(pool, choices), n)
  {
  }

  /** Every eligible participant who is not forced can be drawn whenever the
      forced winners leave a slot open: some outcome of the shuffle picks
      them. */
  lemma EveryEligibleCanWin(prize: Prize, slots: int, available: seq<Participant>, rules: seq<Rule>,
                            x: Participant)
      returns (choices: seq<nat>)
    requires |Forced(prize, available, rules)| < Min(slots, MaxPerRound)
    requires x in RandomPool(available, Forced(prize, available, rules))
    ensures x in DetermineWinners(prize, slots, available, rules, choices)
  {
    var forced := Forced(prize, available, rules);
    var n := Min(slots, MaxPerRound) - |forced|;
    choices := PickFirst(RandomPool(available, forced), x, n);
    DrawWhenForcedFit(prize, slots, available, rules, choices);
    assert x in forced + Take(Shuffle(RandomPool(available, forced), choices), n);
  }

  /** Some shuffle puts a chosen pool element first, so that it is among the
      first `n` picks for any positive `n`. */
  lemma PickFirst<T>(pool: seq<T>, x: T, n: nat) returns (choices: seq<nat>)
    requires x in pool && 0 < n
    ensures x in Take(Shuffle(pool, choices), n)
  {
    var k :| 0 <= k < |pool| && pool[k] == x;
    choices := [k];
    var shuffled := Shuffle(pool, choices);
    assert shuffled[0] == x by {
      assert [k] + [] == choices;
      ShuffleStep(pool, k, []);
    }
    var picks := Take(shuffled, n);
    assert 0 < |picks| && picks[0] == shuffled[0];
  }

  /** A rule registered twice forces its participant twice: the draw for two
      or more slots names the same participant in its first two places. */
  lemma RepeatedRuleRepeatsWinner(prize: Prize, slots: int, available: seq<Participant>, rule: Rule,
                                  choices: seq<nat>)
    requires rule.prizeId == prize.id
    requires rule.participantId in Keys(available, ParticipantId)
    requires 2 <= slots
    ensures var r := DetermineWinners(prize, slots, available, [rule, rule], choices);
            2 <= |r| && r[0] == r[1] && r[0].id == rule.participantId
  {
    var rules := [rule, rule];
    FilterAll(rules, ForPrize(prize.id));
    assert RulesFor(rules, prize.id) == rules;
    AllForcedWinnersPresent(rules, available);
    var forced := Forced(prize, available, rules);
    assert Keys(forced, ParticipantId) == [rule.participantId, rule.participantId];
    assert ForcedWinners(rules, available) == ForcedWinners([rule], available) + ForcedWinners([rule], available) by {
      ForcedWinnersAppend([rule], [rule], available);
      assert [rule] + [rule] == rules;
    }
    assert forced[0] == forced[1];
  }

  /** With no rule for the prize, a round is the first `min(slots, 10)` of a
      shuffle of everyone available. */
  lemma NoRulesDrawsFromPool(prize: Prize, slots: int, available: seq<Participant>, rules: seq<Rule>,
                             choices: seq<nat>)
    requires 0 <= slots
    requires forall i :: 0 <= i < |rules| ==> rules[i].prizeId != prize.id
    ensures DetermineWinners(prize, slots, available, rules, choices)
         == Take(Shuffle(available, choices), Min(slots, MaxPerRound))
  {
    var forced := Forced(prize, available, rules);
    assert forced == [] by {
      FilterNone(rules, ForPrize(prize.id));
      assert RulesFor(rules, prize.id) == [];
    }
    assert RandomPool(available, forced) == available by {
      assert Keys(forced, ParticipantId) == [];
      FilterAll(available, NotAmong(forced));
    }
    DrawWhenForcedFit(prize, slots, available, rules, choices);
    assert forced + Take(Shuffle(available, choices), Min(slots, MaxPerRound))
        == Take(Shuffle(available, choices), Min(slots, MaxPerRound));
  }

  /** A participant listed twice (imported twice) can fill two slots of one
      round with no rule at all: every shuffle of the two copies is the two
      copies. */
  lemma RepeatedParticipantRepeatsWinner(prize: Prize, slots: int, a: Participant, choices: seq<nat>)
    requires 2 <= slots
    ensures DetermineWinners(prize, slots, [a, a], [], choices) == [a, a]
  {
    NoRulesDrawsFromPool(prize, slots, [a, a], [], choices);
    ShuffleTwins(a, choices);
  }
}
