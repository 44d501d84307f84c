# Lottery draw engine, round controller and winner history

A Dafny model of the core of a live prize-drawing app. The app has a pool
of participants and a list of prizes; each prize has a display level and a
stock count. Its core has three parts:

- **The draw engine, `determineWinners`.** Rules ("rigged rules") that name
  a participant for a prize are honoured first, in registration order. The
  round is capped at ten winners. If the forced winners overflow the cap,
  they are truncated. Otherwise the open slots are filled from a shuffle of
  the remaining eligible participants.
- **The round controller in `App`.** It tracks the selected prize, the
  running flag and the pending result of a stopped spin. Its handlers cover:
  - start and stop (`handleDraw`);
  - commit (`handleRoundComplete`);
  - prize selection and going back;
  - the reducers the admin panel calls: import participants, add or delete
    a prize, add or remove a rule, reset everything.
- **The winner history, `historyData` and `handleExport`.** Winners are
  grouped by prize, prizes in ascending level and each group newest first.
  Export produces one spreadsheet row per winner record.

Modules, one per file:

| file | module | contents |
|---|---|---|
| `collections.dfy` | `Collections` | `Option`; the array operations the source uses (`filter`, `find`, `map`, `slice`); `FlatMap`, the model's form of the `forEach`/`find`/`push` loop that collects the forced winners (App.tsx:93-96); and their algebra |
| `sorting.dfy` | `Sorting` | the stable sort behind `Array.prototype.sort` with a key comparator |
| `shuffle.dfy` | `Shuffling` | the random shuffle as an oracle of choices |
| `lottery.dfy` | `Lottery` | the records `Participant`, `Prize`, `Rule` (a rigged rule) and `Winner`, plus the derived views "winners of a prize" and "participants who have not won" |
| `engine.dfy` | `DrawEngine` | `determineWinners` |
| `controller.dfy` | `RoundController` | the state of `App` and every handler, as functions from state to state |
| `invariants.dfy` | `Invariants` | the invariant every handler keeps: nobody wins twice, no prize beyond its stock, a pending round always fits |
| `runs.dfy` | `Session` | sessions as sequences of user actions, and what holds over a whole session |
| `history.dfy` | `WinnersHistory` | the history grouping and the export rows |

Randomness, generated ids and time are parameters:

- `Math.random` in the shuffle comparator becomes a sequence of choices.
  Each choice picks, modulo what is left, the next element to place, as in
  a Fisher–Yates draw. Every choice sequence yields a permutation of the
  pool (`Shuffling.Shuffle`). Every permutation is yielded by some choice
  sequence (`Shuffling.EveryOrderReachable`). So a property proved for all
  choice sequences holds for whatever order the comparator produces.
- `crypto.randomUUID()` and `Date.now()` become functions from the record's
  index in the committed round to an id and a timestamp.

Behaviours of the code worth noting:

- **A participant can be forced more than once.** For each rule of the
  prize, the code pushes the participant the rule names, once per rule
  (App.tsx:93-96). Two identical rules therefore force the same participant
  twice. The rule form does not refuse a rule that is already registered
  (components/AdminPanel.tsx:87-94).
  - `DrawEngine.RepeatedRuleRepeatsWinner` shows a doubled rule filling two
    slots with the same participant.
  - `Session.RepeatedRuleWinsTwice` shows a concrete eight-click session
    that commits the same participant twice.
- **A participant imported twice can win twice.** An import is appended
  without any check of the ids already present (App.tsx:293). The
  available list then holds both copies, and the random pool takes both
  (App.tsx:105). `DrawEngine.RepeatedParticipantRepeatsWinner` shows a
  round with no rules at all that draws the same participant twice.
- **Nothing checks a new prize.** A new prize gets a `crypto.randomUUID()`
  id (components/AdminPanel.tsx:75). Its count is `Number(...)` of the form
  field, unchecked (components/AdminPanel.tsx:276). The input's `min={1}`
  does not stop a typed negative value.
- **Reset leaves two fields alone.** It clears the four collections and the
  pending round. It leaves the selected prize id and the running flag as
  they were (App.tsx:298).
- **JavaScript truthiness.**
  - The empty string counts as "no prize selected" for
    `currentPrizeWinners` (App.tsx:63).
  - An empty prize name exports as 'Unknown' (components/WinnersHistory.tsx:30).
- **Negative slot count.** A negative count reaches `slice(0, n)`, which
  counts back from the end (App.tsx:102). Only `handleDraw` calls the
  draw (App.tsx:79), and it cannot pass a negative count while the
  invariant holds: `RoundConsistent` keeps the remaining count positive
  while a draw is running.

So the no-double-win and stock invariants are proved for sessions whose
admin-panel data is admissible (`Session.Admissible`). Each of its three
hypotheses is needed:
- **An added rule is not yet registered.** Otherwise a doubled rule
  forces a participant twice.
- **Imported ids are new and distinct.** Otherwise a duplicated
  participant can be drawn twice.
- **A new prize has a fresh, non-empty id and a non-negative count.**
  Otherwise:
  - a reused id inherits the winner records of a deleted prize, and can
    start above its count;
  - an empty id counts no winners for stock (App.tsx:63);
  - a negative count is exceeded from the start.

## Model

| member | source | states |
|---|---|---|
| Collections.FindFirst | App.tsx:94 | `find` returns nothing exactly when no element qualifies; otherwise it returns an element that qualifies and that no earlier element precedes in qualifying |
| Collections.SliceTo | App.tsx:102 | `slice(0, end)` is a prefix: `min(end, length)` long for a non-negative end, and `length + end` (not below 0) for a negative one |
| Shuffling.Shuffle | App.tsx:106 | the shuffle is a permutation of the pool: same length, same elements with the same multiplicities |
| Shuffling.ShuffleElements | App.tsx:106 | every shuffled element comes from the pool |
| Shuffling.EveryOrderReachable | App.tsx:106 | every permutation of the pool is the outcome of some choice sequence, so no order is out of the shuffle's reach |
| Shuffling.ShuffleDistinctKeys | App.tsx:106 | shuffling a pool of distinct ids gives distinct ids |
| Sorting.SortBy | components/WinnersHistory.tsx:19 | the sort returns a permutation of its input with keys ascending |
| Sorting.SortByStable | components/WinnersHistory.tsx:19 | the sort is stable: for every key, the elements carrying it come out in input order |
| Lottery.FindPrizeUnique | App.tsx:55 | with distinct prize ids, `find` by id returns p exactly when p is a listed prize with that id |
| Lottery.WinsForCount | App.tsx:62-65 | the winners of a prize are as many as the occurrences of its id in the history |
| Lottery.Available | App.tsx:57-60 | the available participants are exactly the listed participants whose id is not in the history |
| DrawEngine.ForcedHead | App.tsx:94-95 | one rule forces nothing, or exactly one available participant carrying the rule's participant id |
| DrawEngine.ForcedWinnersAvailable | App.tsx:93-96 | every forced winner is available |
| DrawEngine.ForcedWinnersAppend | App.tsx:93-96 | rules are honoured in registration order: concatenated rule lists force concatenated winner lists |
| DrawEngine.ForcedWinnerIds | App.tsx:93-96 | the forced winners' ids are, in order, the participant ids of exactly the rules that name an available participant |
| DrawEngine.AllForcedWinnersPresent | App.tsx:93-96 | when every rule names an available participant, there is one forced winner per rule, in rule order |
| DrawEngine.ForcedWinnersDistinct | App.tsx:93-96 | rules naming distinct participants force distinct participants |
| DrawEngine.RulesForDistinct | App.tsx:90 | with no rule registered twice, a prize's rules name each participant at most once |
| DrawEngine.RepeatedRuleRepeatsWinner | App.tsx:93-96 | a rule registered twice forces its participant into the first two places of a round of two or more |
| DrawEngine.NoRulesDrawsFromPool | App.tsx:89-110 | when no rule in the list is for the prize (rules for other prizes allowed), a round is the first `min(slots, 10)` of a shuffle of everyone available |
| DrawEngine.RepeatedParticipantRepeatsWinner | App.tsx:104-107 | a participant listed twice in the available list, with no rules, fills a round of two or more slots twice over |
| DrawEngine.Forced | App.tsx:90-96 | the forced winners of a prize are drawn from the available participants |
| DrawEngine.RandomPool | App.tsx:105 | the random pool holds only available participants whose id is not forced |
| DrawEngine.DetermineWinners | App.tsx:89-110 | at most `min(slots, 10)` winners, all available; if the forced fit, they come first, followed by `min(open slots, pool size)` picks from the pool that are disjoint by id from the forced (under-filled, never padded); if they overflow, exactly the first `min(slots, 10)` forced and no random pick |
| DrawEngine.FillRound | App.tsx:104-107 | the fill keeps the forced prefix and adds at most the needed number of picks, each from the pool and none more often than the pool holds it |
| DrawEngine.DrawIsDistinct | App.tsx:89-110 | with distinct participant ids and no duplicate rule, nobody is drawn twice in one round |
| DrawEngine.FillDistinct | App.tsx:104-107 | filling from a distinct pool that shares no id with the forced keeps ids distinct |
| DrawEngine.EveryEligibleCanWin | App.tsx:104-107 | when a slot is open, every eligible participant who is not forced is drawn by some shuffle |
| DrawEngine.PickFirst | App.tsx:106-107 | some shuffle places a chosen pool element among the first n picks (the `slice(0, slotsNeeded - forced.length)` of the shuffled pool), for any positive n |
| RoundController.CurrentPrize | App.tsx:55 | the current prize, when there is one, is a listed prize carrying the selected id |
| RoundController.RemainingCountIsStockLeft | App.tsx:62-67 | the remaining count is 0 with no current prize, and otherwise the prize's count less the occurrences of its id in the history (no occurrences are counted for an empty id) |
| RoundController.HandleDraw | App.tsx:75-87 | with no current prize nothing changes; stop clears the running flag and stores the engine's round, all available and at most `min(remaining, 10)`; start is refused exactly when nothing remains or nobody is available, and otherwise sets the flag and clears the pending round; no collection changes |
| RoundController.NewRecordIdsDistinct | App.tsx:114-115 | distinct generated ids give the committed records distinct ids |
| RoundController.HandleRoundComplete | App.tsx:112-123 | with no current prize or no pending round nothing changes; otherwise the earlier history is kept as a prefix, one record per pending participant is appended in order with the current prize's id, and the pending round is cleared |
| RoundController.SelectPrize | App.tsx:197-204 | nothing changes while a prize is current or for a used-up prize; a prize with stock left becomes current with no pending round and a positive remaining count |
| RoundController.GoBack | App.tsx:226-229 | ignored while running; otherwise clears the selected prize and the pending round, and nothing else |
| RoundController.AddRule | App.tsx:296 | the new rule becomes the last rule of its prize; every other prize's rules are unchanged; nothing else changes |
| RoundController.RemoveRule | App.tsx:297 | no rule for the pair is left, and every other rule keeps its multiplicity |
| RoundController.RemoveRuleKeepsOrder | App.tsx:297 | any selection of rules that excludes the removed pair reads the same, in the same order, before and after |
| RoundController.RemoveRuleKeepsOtherPrizes | App.tsx:297 | the rules of every other prize are untouched |
| RoundController.Reset | App.tsx:298 | the four collections and the pending round are emptied; no prize is current and nothing remains; the selected id and running flag are kept |
| RoundController.ImportParticipants | App.tsx:293 | the imported list follows the old participants unchanged; nothing else changes |
| RoundController.AddPrize | App.tsx:294 | the new prize follows the old prizes unchanged; nothing else changes |
| RoundController.DeletePrize | App.tsx:295 | the prizes left are exactly the old ones with a different id, each as often as before; winners and the rest are kept |
| RoundController.DeletePrizeKeepsOrder | App.tsx:295 | any selection of prizes that excludes the deleted id reads the same, in the same order, before and after |
| Invariants.SameCurrentPrize | App.tsx:55 | with distinct prize ids, the current prize depends only on which prizes carry the selected id |
| Invariants.HandleDrawKeepsInv | App.tsx:75-87 | start and stop keep the invariant; a stopped round has distinct ids, nobody who already won, at most ten entries and no more than the prize has left |
| Invariants.CommitKeepsNoDoubleWin | App.tsx:114-120 | appending records for a pending round of new, distinct participants keeps participant ids in the history distinct |
| Invariants.CommitKeepsStock | App.tsx:114-120 | appending at most the remaining count of records for one prize keeps every prize within its count |
| Invariants.HandleRoundCompleteKeepsInv | App.tsx:112-123 | committing keeps the invariant |
| Invariants.SelectPrizeKeepsInv | App.tsx:197-204 | selecting a prize keeps the invariant |
| Invariants.GoBackKeepsInv | App.tsx:226-229 | going back keeps the invariant |
| Invariants.AddRuleKeepsInv | App.tsx:296 | adding a rule that is not yet registered keeps the invariant |
| Invariants.RemoveRuleKeepsInv | App.tsx:297 | removing rules keeps the invariant |
| Invariants.ResetRestoresInv | App.tsx:298 | a reset yields a state satisfying the invariant, whatever came before |
| Invariants.ImportParticipantsKeepsInv | App.tsx:293 | importing participants with new, distinct ids keeps the invariant |
| Invariants.AddPrizeKeepsInv | App.tsx:294 | adding a prize with a fresh id keeps the invariant |
| Invariants.DeletePrizeKeepsInv | App.tsx:295 | deleting a prize keeps the invariant |
| Session.StepKeepsInv | App.tsx:75-123 | every admissible user action keeps the invariant |
| Session.RunKeepsInv | App.tsx:75-123 | every admissible session keeps the invariant |
| Session.SessionSafety | App.tsx:112-123 | from an empty start, after any admissible session, nobody holds two winner records and no prize has more winners than its count |
| Session.StepHistory | App.tsx:120 | only a commit or a reset touches the history, and a commit only appends |
| Session.HistoryAppendOnly | App.tsx:120 | without a reset, the history before a session is a prefix of the history after it |
| Session.HistoryUnchangedWithoutCommit | App.tsx:75-87 | without a commit or a reset the history does not change |
| Session.RepeatedRuleAlone | App.tsx:93-108 | a doubled rule for the only available participant draws that participant twice and nobody else |
| Session.RepeatedRuleWinsTwice | App.tsx:93-123 | importing one participant, adding a prize of count two or more, registering the same rule twice, selecting, starting, stopping and committing leaves two records for the same participant |
| WinnersHistory.GroupSize | components/WinnersHistory.tsx:22-23 | a prize's group is as large as the prize's winner list, and empty exactly when the prize has no winner |
| WinnersHistory.GroupPrizes | components/WinnersHistory.tsx:20-23 | grouping and then dropping empty groups gives, in order, one group per listed prize that has a winner |
| WinnersHistory.HistoryPrizes | components/WinnersHistory.tsx:19-23 | the groups' prizes are the level-sorted prizes that have winners, and, as a multiset, exactly the listed prizes that have winners: prizes with no winners produce no group |
| WinnersHistory.HistoryLevelsAscend | components/WinnersHistory.tsx:19 | groups come in ascending prize level |
| WinnersHistory.HistoryTiesKeepPrizeOrder | components/WinnersHistory.tsx:19 | prizes of equal level keep the order of the prize list |
| WinnersHistory.HistoryGroups | components/WinnersHistory.tsx:20-23 | every group belongs to a listed prize, is non-empty, holds exactly that prize's winners (none missing, none foreign, as a permutation) and lists them newest first, with records of equal timestamp in history order |
| WinnersHistory.GroupWinners | components/WinnersHistory.tsx:22 | a prize's group holds exactly the records with its id, newest first; the stable sort keeps records of equal timestamp (one commit's records share one clock reading) in history order |
| WinnersHistory.ExportRows | components/WinnersHistory.tsx:27-37 | one row per winner record, in history order |
| WinnersHistory.ExportNamesTheWonPrize | components/WinnersHistory.tsx:27-36 | the i-th row carries the i-th record's participant id, name, department and time; with distinct prize ids, a winner of a listed, named prize gets that prize's name and level, and a winner of a deleted prize gets 'Unknown' and 0 |

## Left out

- Persistence (App.tsx:16-52): loading and saving the collections through `localStorage`, and `localStorage.clear()` on reset, are I/O. The model starts a session from empty collections (`RoundController.Initial`).
- Confetti, the spinning animation of the slot machine, fullscreen, the language toggle and translations (App.tsx:71-73, 125-133): these are presentation only. The slot machine's end-of-animation callback is modelled as the `RoundCompleted` action.
- The in-place display sort `prizes.sort(...)` at App.tsx:197 reorders the stored prize array as a side effect of rendering. Rendering is not modelled. The prize list keeps the order the reducers give it. Properties that depend on prize order (first match by id, ties in history order) hold for whatever order the list has.
- The quality of `Math.random` (App.tsx:106): a comparator that returns random signs does not give a uniform permutation. The model covers which outcomes are possible, not how likely they are.
- Whether `crypto.randomUUID` values are unique and whether clock readings increase: they are parameters. `RoundController.NewRecordIdsDistinct` states what unique ids give.
- Date formatting with `toLocaleString` and the spreadsheet write (components/WinnersHistory.tsx:35, 38-41): foreign library calls. An export row carries the raw timestamp.
- The admin panel's forms (components/AdminPanel.tsx): only the reducers it calls in App.tsx:293-298 are modelled. What their inputs must carry for the invariants to hold is the `Session.Admissible` hypothesis, described above.
- Prize counts are modelled as integers. In the source a count is a JavaScript number taken unchecked from a form field (components/AdminPanel.tsx:276), so it can be fractional. The model does not cover these two fractional-count behaviours:
  - A count of 2.5 draws two winners through `slice(0, 2.5)`. The remaining count then stays at 0.5, so the prize never completes.
  - A count of 0.5 cuts every forced winner away, since `slice(0, 0.5)` returns `[]` (App.tsx:101-102).
- That the prizes passed to the history view are not reordered (components/WinnersHistory.tsx:19): this holds by construction, since every function of the model is pure.
- DrawEngine.DetermineWinners: the upper bound `min(slots, 10)` on the length is stated only for a non-negative slot count. For a negative count the contract gives the exact JavaScript `slice` result instead.
- Session.SessionSafety: proved for admissible sessions only. A repeated rule, a re-imported participant id, or a prize added with a used, empty or negative-count id can each break it (see above).
