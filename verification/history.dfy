/** The winner history view: `historyData`, the winners grouped by prize with
    the prizes in ascending level and each group's winners newest first, and
    the rows `handleExport` hands to the spreadsheet writer. */
module WinnersHistory {
  import opened Collections
  import opened Sorting
  import opened Lottery

  datatype Group = Group(prize: Prize, winners: seq<Winner>)

  function Level(p: Prize): int { p.level }
  function NegTimestamp(w: Winner): int { -w.timestamp }

  /** The records stamped `t`. */
  function TimestampIs(t: int): Winner -> bool
  {
    KeyIs(NegTimestamp, -t)
  }
  function GroupPrize(g: Group): Prize { g.prize }

  /** The group of one prize: its winners, sorted by timestamp descending. */
  function GroupOf(winners: seq<Winner>): Prize -> Group
  {
    (p: Prize) => Group(p, SortBy(WinsFor(winners, p.id), NegTimestamp))
  }

  function HasWinners(g: Group): bool { |g.winners| > 0 }

  /** The prizes that some winner record names. */
  function WonIn(winners: seq<Winner>): Prize -> bool
  {
    (p: Prize) => |WinsFor(winners, p.id)| > 0
  }

  /** `historyData`. */
  function HistoryData(winners: seq<Winner>, prizes: seq<Prize>): seq<Group>
  {
    Filter(Keys(SortBy(prizes, Level), GroupOf(winners)), HasWinners)
  }

  /** A prize's group is empty exactly when the prize has no winner. */
  lemma GroupSize(winners: seq<Winner>, p: Prize)
    ensures |GroupOf(winners)(p).winners| == |WinsFor(winners, p.id)|
    ensures HasWinners(GroupOf(winners)(p)) == WonIn(winners)(p)
  {
    var ws := GroupOf(winners)(p).winners;
    assert |ws| == |multiset(ws)| == |multiset(WinsFor(winners, p.id))|;
  }

  /** Grouping and then dropping empty groups gives one group per prize that
      has a winner, in the order of the prize list. */
  lemma GroupPrizes(ps: seq<Prize>, winners: seq<Winner>)
    ensures Keys(Filter(Keys(ps, GroupOf(winners)), HasWinners), GroupPrize) == Filter(ps, WonIn(winners))
  {
    forall p: Prize
      ensures GroupPrize(GroupOf(winners)(p)) == p
      ensures HasWinners(GroupOf(winners)(p)) == WonIn(winners)(p)
    {
      GroupSize(winners, p);
    }
    FilterThroughMap(ps, GroupOf(winners), GroupPrize, HasWinners, WonIn(winners));
  }

  /** The prizes of the groups, in order, are the prizes that have winners,
      sorted by level: each such prize has exactly one group per occurrence
      in the prize list, and no other prize has a group. */
  lemma HistoryPrizes(winners: seq<Winner>, prizes: seq<Prize>)
    ensures var ps := Keys(HistoryData(winners, prizes), GroupPrize);
            && ps == Filter(SortBy(prizes, Level), WonIn(winners))
            && multiset(ps) == multiset(Filter(prizes, WonIn(winners)))
  {
    GroupPrizes(SortBy(prizes, Level), winners);
    FilterPermutation(SortBy(prizes, Level), prizes, WonIn(winners));
  }

  /** Groups come in ascending prize level. */
  lemma HistoryLevelsAscend(winners: seq<Winner>, prizes: seq<Prize>)
    ensures var h := HistoryData(winners, prizes);
            forall i, j :: 0 <= i < j < |h| ==> h[i].prize.level <= h[j].prize.level
  {
    var h := HistoryData(winners, prizes);
    var ps := Keys(h, GroupPrize);
    HistoryPrizes(winners, prizes);
    FilterSorted(SortBy(prizes, Level), Level, WonIn(winners));
    forall i, j | 0 <= i < j < |h|
      ensures h[i].prize.level <= h[j].prize.level
    {
      assert ps[i] == h[i].prize && ps[j] == h[j].prize;
    }
  }

  /** Prizes of the same level keep the order of the prize list: the copy is
      sorted stably. */
  lemma HistoryTiesKeepPrizeOrder(winners: seq<Winner>, prizes: seq<Prize>, level: int)
    ensures Filter(Keys(HistoryData(winners, prizes), GroupPrize), KeyIs(Level, level))
         == Filter(Filter(prizes, KeyIs(Level, level)), WonIn(winners))
  {
    HistoryPrizes(winners, prizes);
    var sorted := SortBy(prizes, Level);
    FilterCommute(sorted, WonIn(winners), KeyIs(Level, level));
    SortByStable(prizes, Level, level);
  }

  /** Every group is the non-empty group of one listed prize: it holds
      exactly the winners of that prize (a permutation of them, none missing,
      none foreign), newest first. */
  lemma HistoryGroups(winners: seq<Winner>, prizes: seq<Prize>)
    ensures forall g :: g in HistoryData(winners, prizes) ==>
              && g.prize in prizes
              && |g.winners| > 0
              && multiset(g.winners) == multiset(WinsFor(winners, g.prize.id))
              && (forall w :: w in g.winners <==> w in winners && w.prizeId == g.prize.id)
              && (forall i, j :: 0 <= i < j < |g.winners| ==> g.winners[i].timestamp >= g.winners[j].timestamp)
              && (forall t :: Filter(g.winners, TimestampIs(t)) == Filter(WinsFor(winners, g.prize.id), TimestampIs(t)))
  {
    var sorted := SortBy(prizes, Level);
    var groups := Keys(sorted, GroupOf(winners));
    forall g | g in HistoryData(winners, prizes)
      ensures g.prize in prizes
      ensures |g.winners| > 0
      ensures multiset(g.winners) == multiset(WinsFor(winners, g.prize.id))
      ensures forall w :: w in g.winners <==> w in winners && w.prizeId == g.prize.id
      ensures forall i, j :: 0 <= i < j < |g.winners| ==> g.winners[i].timestamp >= g.winners[j].timestamp
      ensures forall t :: Filter(g.winners, TimestampIs(t)) == Filter(WinsFor(winners, g.prize.id), TimestampIs(t))
    {
      var k :| 0 <= k < |HistoryData(winners, prizes)| && HistoryData(winners, prizes)[k] == g;
      assert g in groups;
      var m :| 0 <= m < |groups| && groups[m] == g;
      assert g == GroupOf(winners)(sorted[m]);
      assert sorted[m] in multiset(prizes);
      GroupWinners(winners, g.prize);
    }
  }

  /** The winners of one prize's group: that prize's records, newest first,
      and records with the same timestamp in history order (the sort is
      stable, and one commit stamps all its records alike). */
  lemma GroupWinners(winners: seq<Winner>, p: Prize)
    ensures var ws := GroupOf(winners)(p).winners;
            && multiset(ws) == multiset(WinsFor(winners, p.id))
            && (forall w :: w in ws <==> w in winners && w.prizeId == p.id)
            && (forall i, j :: 0 <= i < j < |ws| ==> ws[i].timestamp >= ws[j].timestamp)
            && (forall t :: Filter(ws, TimestampIs(t)) == Filter(WinsFor(winners, p.id), TimestampIs(t)))
  {
    var ws := GroupOf(winners)(p).winners;
    forall t
      ensures Filter(ws, TimestampIs(t)) == Filter(WinsFor(winners, p.id), TimestampIs(t))
    {
      GroupTies(winners, p, t);
    }
    GroupMembers(winners, p);
  }

  /** Within a group, the records stamped `t` keep their history order. */
  lemma GroupTies(winners: seq<Winner>, p: Prize, t: int)
    ensures Filter(GroupOf(winners)(p).winners, TimestampIs(t)) == Filter(WinsFor(winners, p.id), TimestampIs(t))
  {
    var mine := WinsFor(winners, p.id);
    assert GroupOf(winners)(p).winners == SortBy(mine, NegTimestamp);
    SortByStableFor(mine, NegTimestamp, -t, TimestampIs(t));
  }

  /** The records of one prize's group, as a multiset and by membership, in
      timestamp order. */
  lemma GroupMembers(winners: seq<Winner>, p: Prize)
    ensures var ws := GroupOf(winners)(p).winners;
            && multiset(ws) == multiset(WinsFor(winners, p.id))
            && (forall w :: w in ws <==> w in winners && w.prizeId == p.id)
            && (forall i, j :: 0 <= i < j < |ws| ==> ws[i].timestamp >= ws[j].timestamp)
  {
    var ws := GroupOf(winners)(p).winners;
    var mine := WinsFor(winners, p.id);
    forall w
      ensures w in ws <==> w in winners && w.prizeId == p.id
    {
      assert w in ws <==> w in multiset(ws);
      assert w in mine <==> w in multiset(mine);
      if w in winners && w.prizeId == p.id {
        var i :| 0 <= i < |winners| && winners[i] == w;
        assert OfPrize(p.id)(winners[i]);
      }
      if w in mine {
        var i :| 0 <= i < |mine| && mine[i] == w;
      }
    }
    forall i, j | 0 <= i < j < |ws|
      ensures ws[i].timestamp >= ws[j].timestamp
    {
      assert NegTimestamp(ws[i]) <= NegTimestamp(ws[j]);
    }
  }

  /** One exported row: the prize's name and level, the participant's id,
      name and department, and the raw timestamp (its formatting as a local
      date string is not part of this model). */
  datatype ExportRow = ExportRow(
    prizeName: string,
    level: int,
    participantId: string,
    participantName: string,
    department: Option<string>,
    time: int)

  /** `prize?.name || 'Unknown'` and `prize?.level || 0` for the first prize
      carrying the winner's prize id; an empty name is falsy too, and a level
      of 0 gives 0 either way. */
  function RowOf(prizes: seq<Prize>, w: Winner): (r: ExportRow)
    ensures r.participantId == w.participant.id && r.participantName == w.participant.name
    ensures r.department == w.participant.department && r.time == w.timestamp
    ensures FindPrize(prizes, w.prizeId).None? ==> r.prizeName == "Unknown" && r.level == 0
    ensures FindPrize(prizes, w.prizeId).Some? ==>
              var p := FindPrize(prizes, w.prizeId).value;
              && p in prizes && p.id == w.prizeId
              && r.level == p.level
              && r.prizeName == (if p.name == "" then "Unknown" else p.name)
  {
    var found := FindPrize(prizes, w.prizeId);
    match found
    case None => ExportRow("Unknown", 0, w.participant.id, w.participant.name, w.participant.department, w.timestamp)
    case Some(p) =>
      ExportRow(if p.name == "" then "Unknown" else p.name, p.level,
                w.participant.id, w.participant.name, w.participant.department, w.timestamp)
  }

  function RowFor(prizes: seq<Prize>): Winner -> ExportRow
  {
    (w: Winner) => RowOf(prizes, w)
  }

  /** `handleExport`'s rows: one per winner record, in history order. */
  function ExportRows(winners: seq<Winner>, prizes: seq<Prize>): (r: seq<ExportRow>)
    ensures |r| == |winners|
    ensures Keys(r, (row: ExportRow) => row.participantId) == Keys(winners, WinnerParticipantId)
    ensures forall i :: 0 <= i < |r| ==> r[i] == RowOf(prizes, winners[i])
  {
    Keys(winners, RowFor(prizes))
  }

  /** The `i`-th row describes the `i`-th record: its participant and time,
      and, with distinct prize ids, the name and level of the prize it won
      when that prize is listed, or 'Unknown' and level 0 once the prize was
      deleted. */
  lemma ExportNamesTheWonPrize(winners: seq<Winner>, prizes: seq<Prize>, i: nat)
    requires DistinctKeys(prizes, PrizeId)
    requires i < |winners|
    ensures var row := ExportRows(winners, prizes)[i];
            && row.participantId == winners[i].participant.id
            && row.participantName == winners[i].participant.name
            && row.department == winners[i].participant.department
            && row.time == winners[i].timestamp
            && (forall p :: p in prizes && p.id == winners[i].prizeId && p.name != "" ==>
                  row.prizeName == p.name && row.level == p.level)
            && ((forall p :: p in prizes ==> p.id != winners[i].prizeId) ==>
                  row.prizeName == "Unknown" && row.level == 0)
  {
    forall p | p in prizes && p.id == winners[i].prizeId
      ensures FindPrize(prizes, winners[i].prizeId) == Some(p)
    {
      FindPrizeUnique(prizes, winners[i].prizeId, p);
    }
  }
}
