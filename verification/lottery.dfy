/** The records the lottery works on, and the two derived views of them that
    both the draw and the history use: the winners of one prize, and the
    participants who have not won yet. */
module Lottery {
  import opened Collections

  datatype Participant = Participant(id: string, name: string, department: Option<string>)

  /** `level` orders prizes for display only; `count` is the prize's stock. */
  datatype Prize = Prize(id: string, name: string, image: string, level: int, count: int)

  /** A forced winner: `participantId` must win `prizeId`. */
  datatype Rule = Rule(prizeId: string, participantId: string)

  datatype Winner = Winner(id: string, participant: Participant, prizeId: string, timestamp: int)

  function ParticipantId(p: Participant): string { p.id }
  function PrizeId(p: Prize): string { p.id }
  function RuleParticipantId(r: Rule): string { r.participantId }
  function RuleItself(r: Rule): Rule { r }
  function WinnerParticipantId(w: Winner): string { w.participant.id }
  function WinnerPrizeId(w: Winner): string { w.prizeId }

  function IsPrize(id: string): Prize -> bool
  {
    (p: Prize) => p.id == id
  }

  function OfPrize(prizeId: string): Winner -> bool
  {
    (w: Winner) => w.prizeId == prizeId
  }

  function HasNotWon(winners: seq<Winner>): Participant -> bool
  {
    (p: Participant) => p.id !in Keys(winners, WinnerParticipantId)
  }

  /** `prizes.find(p => p.id === id)`. */
  function FindPrize(prizes: seq<Prize>, id: string): Option<Prize>
  {
    FindFirst(prizes, IsPrize(id))
  }

  /** With distinct prize ids, the prize found for an id is the one prize in
      the list carrying it. */
  lemma FindPrizeUnique(prizes: seq<Prize>, id: string, p: Prize)
    requires DistinctKeys(prizes, PrizeId)
    ensures FindPrize(prizes, id) == Some(p) <==> p in prizes && p.id == id
  {
  }

  /** `winners.filter(w => w.prizeId === prizeId)`. */
  function WinsFor(winners: seq<Winner>, prizeId: string): seq<Winner>
  {
    Filter(winners, OfPrize(prizeId))
  }

  /** The winners of a prize are as many as the times its id occurs in the
      history. */
  lemma {:induction false} WinsForCount(winners: seq<Winner>, prizeId: string)
    ensures |WinsFor(winners, prizeId)| == multiset(Keys(winners, WinnerPrizeId))[prizeId]
    decreases |winners|
  {
    if |winners| > 0 {
      WinsForCount(winners[1..], prizeId);
      assert Keys(winners, WinnerPrizeId) == [winners[0].prizeId] + Keys(winners[1..], WinnerPrizeId);
    }
  }

  /** `participants.filter(p => !winnerIds.has(p.id))`: those not in the
      winner history. */
  function Available(participants: seq<Participant>, winners: seq<Winner>): (r: seq<Participant>)
    ensures forall i :: 0 <= i < |r| ==> r[i] in participants && r[i].id !in Keys(winners, WinnerParticipantId)
    ensures forall i :: 0 <= i < |participants| && participants[i].id !in Keys(winners, WinnerParticipantId)
                        ==> participants[i] in r
  {
    Filter(participants, HasNotWon(winners))
  }
}
