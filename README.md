# Bank reconciliation engine — a Dafny model

This project models the core of a bank-reconciliation web application. The
application imports a bank statement and a general-ledger (GL) export and
pairs their transactions into *match groups*. It then lets the user confirm,
edit or reject the groups, and reports statistics on the result.

The model covers four parts:

- **The matching engine** (`src/utils/matchingEngine.ts`):
  - the exact matcher: amount buckets, then a 1:1 pass, then a 1:N pass;
  - the fuzzy matcher: 1% amount tolerance, 5-day date preference, a description-search ranking;
  - the projection of groups onto the two transaction lists;
  - the statistics.
- **The store** (`src/store/reconciliationStore.ts`): one object holding the
  project summary, the two transaction lists and the groups, with one method
  per user action.
- **The column mapper** (`src/components/ColumnMapper.tsx`):
  - header auto-detection;
  - the required-column check on submit;
  - loading a saved mapping.
- **The records** (`src/types/index.ts`).

Modules, one per file:

| file | module | flavour |
|---|---|---|
| `Types.dfy` | `Types` | records, filters, sums, the match rate |
| `ExactMatcher.dfy` | `ExactMatcher` | the fold that specifies the exact matcher; methods with loops over a bucket map and claimed-id sets, proved equal to it |
| `FuzzyMatcher.dfy` | `FuzzyMatcher` | the per-entry choice as functions; the scan and the best-hit search as methods with loops, proved equal to them |
| `MatchApplier.dfy` | `MatchApplier` | applying groups: a method over id-keyed maps, proved equal to a pointwise function |
| `Stats.dfy` | `Stats` | the statistics, a pure function |
| `Store.dfy` | `Store` | class `ReconciliationStore` with `seq` fields and one `modifies this` method per action |
| `ColumnMapper.dfy` | `ColumnMapper` | pure recursive functions |

Encodings:

- Amounts are integer cents. The engine's `toFixed(2)` bucket key is equality of cents.
- A `< 0.01` balance test is `Balanced`, i.e. the two amounts are equal in cents.
- The fuzzy tolerance `|b - g| / |b| < 0.01` is `100·|b - g| < |b|`. So a zero bank amount never matches, as the division by zero does in the code.
- Dates are day numbers. Percentages are exact rationals (`real`).
- Fresh ids and timestamps are parameters:
  - `now` is the timestamp;
  - `newId(k)` is the id of the k-th group a matcher emits in one call, or a single `newId` for a manual group.
- The Fuse.js description search is an oracle, `search: (description, unmatched GL list) -> hits`. Each hit is the index of a GL entry plus an optional score.
  - The ranking keeps the code's sort key `score || 1`, so a perfect score of 0 ranks like 1.
  - The stable sort followed by `[0]` is the first hit with the smallest key (`FuzzyMatcher.Best`).

Behaviours of the code that the model keeps, each stated and proved:

- **Two equal amounts do not pair 1:1.** One might expect two bank entries of
  150.00 against two GL entries of 150.00 to pair one-to-one. The code builds
  one unbalanced 1:2 group and leaves the second bank entry ungrouped
  (`ExactMatcher.TwoEqualAmountsGiveOneGroup`).
- **GL entries are not consumed by the fuzzy matcher.** Two bank entries can
  both be proposed against the same GL entry: `FuzzyMatcher.SameGLEntryProposedTwice`.
- **Duplicate ids collapse when groups are applied.** `applyMatchGroups` rebuilds
  each list from a `Map` keyed by id. Duplicate ids collapse to one entry, at the
  first position, holding the last value (`MatchApplier.Dedup`).
- **Confirming uses a different count.** `confirmMatchGroup` counts only
  `matched` bank entries for the project rate. Every other action counts
  `matched` or `potential`.
- **Reset keeps the project summary.** `resetReconciliation` clears the lists
  and groups but leaves the project summary, counts included.
- **An empty first hit stops a name.** In `findBestMatch`, a name whose first
  matching header is the empty string is skipped, because `''` is falsy. This
  holds even when a later header also matches (`ColumnMapper.EmptyNameMissesLaterHeader`).

## Model

| member | source | states |
|---|---|---|
| Types.WithStatusMembers | src/utils/matchingEngine.ts:242-247 | the filter by review state holds exactly the entries of the list in that state |
| Types.NoneWithStatus | src/utils/matchingEngine.ts:119-122 | the filter by state is empty iff no entry is in that state |
| Types.WithStatusUnique | src/utils/matchingEngine.ts:119-120 | filtering keeps ids distinct |
| Types.FindTxn | src/store/reconciliationStore.ts:387 | `findIndex`: -1 iff no entry has the id, otherwise the first position holding it |
| Types.Ids | src/utils/matchingEngine.ts:87 | the ids in order, one per entry |
| Types.Balanced | src/utils/matchingEngine.ts:99 | the one-cent balance test, as equality of cents; `ExactMatcher.BalancedMultiple` and `FuzzyMatcher.ToleranceFacts` state what it means for the groups |
| Types.Rate | src/utils/matchingEngine.ts:252-254 | a count as a percentage of a length, 0 for an empty list; `Types.RateRange` states its range |
| Types.RateRange | src/utils/matchingEngine.ts:252-254 | the percentage lies in [0, 100]; it is 0 iff nothing is counted or the list is empty, and 100 iff the list is non-empty and every entry is counted |
| ExactMatcher.BucketMembers | src/utils/matchingEngine.ts:21-30 | the amount bucket holds exactly the unmatched GL entries with that amount |
| ExactMatcher.AvailableMembers | src/utils/matchingEngine.ts:81-83 | the available entries of a bucket are exactly the unmatched ones not yet claimed in this call |
| ExactMatcher.StepA | src/utils/matchingEngine.ts:37-67 | one bank entry of the 1:1 pass: a group when its bucket holds one unclaimed entry; `ExactMatcher.ExactGroupsWellFormed` states the groups it emits |
| ExactMatcher.StepB | src/utils/matchingEngine.ts:70-106 | one bank entry of the 1:N pass: a group with every unclaimed entry of its bucket; `ExactMatcher.PassBCovers` states what the pass covers |
| ExactMatcher.ExactMatches | src/utils/matchingEngine.ts:14-109 | the 1:1 fold followed by the 1:N fold; `ExactMatcher.ExactGroupsWellFormed`, `ExactGroupsDisjoint`, `ExactGroupsTakeWholeBuckets` and `ExactMatchesComplete` state its result |
| ExactMatcher.BucketByAmount | src/utils/matchingEngine.ts:19-30 | the dictionary built by the loop maps every amount to its bucket, and absent amounts have empty buckets |
| ExactMatcher.RunPassA | src/utils/matchingEngine.ts:33-67 | the 1:1 pass over the bank list yields the groups and claimed id sets of the pass-A fold |
| ExactMatcher.RunPassB | src/utils/matchingEngine.ts:70-106 | the 1:N pass yields the groups of the pass-B fold |
| ExactMatcher.FindExactMatches | src/utils/matchingEngine.ts:14-109 | the procedure returns exactly `ExactMatches`, the two folds in sequence |
| ExactMatcher.ExactGroupsWellFormed | src/utils/matchingEngine.ts:39-99 | every group is `auto` with one bank id. That id belongs to an unmatched bank entry whose amount is `bankTotal`. Every GL id is from that amount's bucket of unmatched entries. `glTotal` is the count times the amount, and `isBalanced` is the one-cent test |
| ExactMatcher.ExactGroupsDisjoint | src/utils/matchingEngine.ts:34-35 | within one call no GL id is in two groups, and with distinct bank ids no bank id is in two groups |
| ExactMatcher.ExactGroupsTakeWholeBuckets | src/utils/matchingEngine.ts:44-99 | with distinct GL ids, a group's GL ids are its whole bucket and no two groups share an amount. A group is balanced iff its bucket holds one entry (the 1:1 case) or the amount is zero |
| ExactMatcher.BalancedMultiple | src/utils/matchingEngine.ts:99 | n entries of one amount balance one entry of that amount iff n = 1 or the amount is 0 |
| ExactMatcher.ExactMatchesComplete | src/utils/matchingEngine.ts:70-85 | with distinct ids, every unmatched bank entry whose bucket is non-empty ends up with a group for its amount |
| ExactMatcher.PassBKeepsStart | src/utils/matchingEngine.ts:70-106 | pass B only appends: the pass-A groups stay at the front, unchanged |
| ExactMatcher.PassBCovers | src/utils/matchingEngine.ts:70-106 | pass B leaves no unmatched bank entry with a non-empty bucket without a group for its amount |
| ExactMatcher.TwoEqualAmountsGiveOneGroup | src/utils/matchingEngine.ts:44-105 | two bank 150.00 against two GL 150.00 give exactly one 1:2 group: GL total 300.00, not balanced |
| ExactMatcher.SingleBucketPairsOneToOne | src/utils/matchingEngine.ts:44-66 | a bucket of one entry gives a balanced 1:1 group; a bank amount with no bucket gets no group |
| FuzzyMatcher.SimilarAmount | src/utils/matchingEngine.ts:138-141 | every entry kept is within 1% of the bank amount |
| FuzzyMatcher.SimilarAmountMembers | src/utils/matchingEngine.ts:138-141 | an entry is kept iff it is in the list and within 1% of the bank amount |
| FuzzyMatcher.DateMatched | src/utils/matchingEngine.ts:146-150 | every entry kept is within 5 days of the bank date |
| FuzzyMatcher.DateMatchedMembers | src/utils/matchingEngine.ts:146-150 | an entry is kept iff it is within 5 days |
| FuzzyMatcher.CandidateHits | src/utils/matchingEngine.ts:159-161 | every hit kept names an unmatched GL entry whose id is among the candidates |
| FuzzyMatcher.CandidateHitsMembers | src/utils/matchingEngine.ts:159-161 | a hit is kept iff it names an entry whose id is a candidate |
| FuzzyMatcher.Best | src/utils/matchingEngine.ts:163-168 | the chosen hit has the smallest key (the score, with 0 and a missing score read as 1), and no earlier hit has that key (stable sort, then the first element) |
| FuzzyMatcher.PickBest | src/utils/matchingEngine.ts:165-168 | the scan returns `Best` |
| FuzzyMatcher.ChooseFor | src/utils/matchingEngine.ts:138-168 | the per-entry procedure returns `Choice` |
| FuzzyMatcher.Choice | src/utils/matchingEngine.ts:136-168 | the GL entry chosen for one bank entry, if any; `FuzzyMatcher.ChoiceExists`, `ChoiceIsCandidate` and `ChoiceIsBestRanked` state which |
| FuzzyMatcher.FuzzyGroup | src/utils/matchingEngine.ts:171-181 | the `auto` 1:1 group of a bank entry and its choice; `FuzzyMatcher.PotentialGroupsShape` states its fields |
| FuzzyMatcher.PotentialMatches | src/utils/matchingEngine.ts:114-188 | one group per unmatched bank entry with a choice, in list order; `FuzzyMatcher.PotentialGroupsShape`, `PotentialOnePerBankEntry` and `PotentialMatchesEmpty` state its result |
| FuzzyMatcher.FindPotentialMatches | src/utils/matchingEngine.ts:114-188 | the procedure returns exactly `PotentialMatches` |
| FuzzyMatcher.ChoiceExists | src/utils/matchingEngine.ts:143-163 | a GL entry is chosen iff the search returns a hit that names a candidate |
| FuzzyMatcher.ChoiceIsCandidate | src/utils/matchingEngine.ts:138-161 | the chosen entry is a candidate, unmatched and within 1%. When any entry within 1% is also within 5 days, the chosen one is within 5 days |
| FuzzyMatcher.ChoiceIsBestRanked | src/utils/matchingEngine.ts:156-168 | the chosen entry is named by a candidate hit whose key is minimal among the candidate hits |
| FuzzyMatcher.Proposed | src/utils/matchingEngine.ts:136-184 | the positions that get a group are increasing and are exactly those with a choice |
| FuzzyMatcher.ProposalsIndexed | src/utils/matchingEngine.ts:171-183 | the k-th group pairs the k-th proposing bank entry with its choice, under id `newId(k)` |
| FuzzyMatcher.PotentialGroupsShape | src/utils/matchingEngine.ts:119-181 | every group is `auto` and 1:1, pairing an unmatched bank entry with an unmatched GL entry within 1%. The bank amount is non-zero, and `isBalanced` holds iff the amounts are equal |
| FuzzyMatcher.PotentialOnePerBankEntry | src/utils/matchingEngine.ts:136-184 | no two groups share a bank entry, and every unmatched bank entry with a choice has a group |
| FuzzyMatcher.PotentialMatchesEmpty | src/utils/matchingEngine.ts:122 | with no unmatched bank entry or no unmatched GL entry, nothing is proposed |
| FuzzyMatcher.SameGLEntryProposedTwice | src/utils/matchingEngine.ts:136-184 | two bank entries near one GL entry both get a group with it; GL entries are not consumed |
| FuzzyMatcher.SoleEntryChosen | src/utils/matchingEngine.ts:138-168 | a sole GL entry within 1% that the search returns is chosen |
| FuzzyMatcher.PerfectScoreRanksAsOne | src/utils/matchingEngine.ts:165 | a score of 0 ranks below a score of 0.5 in either order, because a zero score is read as 1 |
| MatchApplier.StatusFor | src/utils/matchingEngine.ts:204 | a group never leaves a member `unmatched`; it leaves it `matched` iff the group is confirmed (a rejected group still gives `potential`) |
| MatchApplier.LastNaming | src/utils/matchingEngine.ts:203-222 | -1 or the position of the last group naming the id, with no later group naming it |
| MatchApplier.StampIsLastGroup | src/utils/matchingEngine.ts:203-222 | a transaction takes the state and group id of the LAST group naming it; with none it is unchanged |
| MatchApplier.Stamp | src/utils/matchingEngine.ts:203-222 | one transaction after every group is applied in turn; `MatchApplier.StampIsLastGroup` states its result |
| MatchApplier.Dedup | src/utils/matchingEngine.ts:199-200 | the values of the id-keyed `Map`, in key order; `MatchApplier.DedupUniqueIds`, `DedupFromInput`, `DedupKeepsIds` and `DedupOfUniqueIds` state its result |
| MatchApplier.Applied | src/utils/matchingEngine.ts:193-229 | each side of `applyMatchGroups`: the deduplicated list with every entry stamped; `MatchApplier.AppliedPointwise` states its result |
| MatchApplier.DedupUniqueIds | src/utils/matchingEngine.ts:199-200 | the id-keyed map never holds two entries with one id |
| MatchApplier.DedupFromInput | src/utils/matchingEngine.ts:199-200 | every entry read back was one of the inputs, and there are no more of them |
| MatchApplier.DedupKeepsIds | src/utils/matchingEngine.ts:199-200 | every input id is read back |
| MatchApplier.DedupOfUniqueIds | src/utils/matchingEngine.ts:199-200 | a list with distinct ids is read back unchanged |
| MatchApplier.AppliedPointwise | src/utils/matchingEngine.ts:199-228 | with distinct ids the output has the same length, order and ids. Each entry has the match fields of the last group naming it, or is unchanged; ids no entry carries are ignored |
| MatchApplier.AppliedOneGroup | src/utils/matchingEngine.ts:203-222 | applying one group marks exactly its members and keeps every other entry |
| MatchApplier.StampOfNamed | src/utils/matchingEngine.ts:207-221 | a named transaction ends linked to a group and not `unmatched` |
| MatchApplier.AppliedUniqueIds | src/utils/matchingEngine.ts:225-228 | the output ids are distinct and follow the map's insertion order |
| MatchApplier.AppliedIdempotent | src/utils/matchingEngine.ts:193-229 | applying the same groups twice equals applying them once |
| MatchApplier.IndexById | src/utils/matchingEngine.ts:199-200 | the map and its key order are the deduplicated list, each key at its first position |
| MatchApplier.MarkNamed | src/utils/matchingEngine.ts:207-221 | exactly the present entries named by the group are marked; the key set is unchanged |
| MatchApplier.ApplyMatchGroups | src/utils/matchingEngine.ts:193-229 | the procedure returns `Applied` on each side |
| Stats.CountsPartition | src/utils/matchingEngine.ts:242-247 | the unmatched, potential and matched counts sum to the list length |
| Stats.SumsPartition | src/utils/matchingEngine.ts:239-250 | the three filtered totals sum to the list total |
| Stats.AllWithStatus | src/utils/matchingEngine.ts:252-254 | a filter keeps the whole list iff every entry is in that state |
| Stats.GetReconciliationStats | src/utils/matchingEngine.ts:234-273 | each side's total is the sum of its amounts and `difference` is bank total minus GL total. Each per-state count is the length of that state's filter, each unmatched total is the sum of the unmatched filter, and the three state counts on each side sum to that side's count. The unmatched total is the total less the potential and matched totals, and each side's unmatched count is 0 iff no entry on it is unmatched. The group count is the number of groups, and the rate is that of the matched bank count over the bank count |
| Stats.MatchedRateMeaning | src/utils/matchingEngine.ts:252-254 | the reported rate is in [0, 100]: 0 iff no bank entry is matched, 100 iff there are bank entries and all are matched |
| Stats.StatsDependOnlyOnFigures | src/utils/matchingEngine.ts:234-273 | lists that agree on amounts and states give identical statistics |
| Store.GroupIndex | src/store/reconciliationStore.ts:203-204 | `findIndex` on groups: -1 iff no group has the id, otherwise the first one that does |
| Store.TotalOf | src/store/reconciliationStore.ts:144-152 | the `reduce` over looked-up amounts; `Store.TotalOfIds` and `Store.TotalOfUnknown` state its value |
| Store.ManualGroup | src/store/reconciliationStore.ts:155-165 | the manual group `createMatchGroup` builds; `Store.ManualGroupOutcome` states its effect on a list |
| Store.Reassigned | src/store/reconciliationStore.ts:218-227 | the group `updateMatchGroup` makes, keeping id and creation time; `Store.ReassignOutcome` states its effect on a list |
| Store.ResetMembers | src/store/reconciliationStore.ts:230-242 | the `map` that unlinks the old members; `Store.ResetUndoesApply` and `Store.ReassignOutcome` state its effect |
| Store.Recounted | src/store/reconciliationStore.ts:174-195 | the project summary with a new matched count, rate and activity time, or none without a project; the store methods state where it is used |
| Store.TotalOfIds | src/store/reconciliationStore.ts:144-152 | with distinct ids, totalling every id of a list gives the list's sum |
| Store.TotalOfUnknown | src/store/reconciliationStore.ts:144-147 | ids absent from the list contribute 0 |
| Store.RemoveGroupMembers | src/store/reconciliationStore.ts:356 | the remaining groups are exactly those without the id; an absent id removes nothing |
| Store.RemoveGroupCount | src/store/reconciliationStore.ts:356 | each group without the id is kept as many times as it occurs, and a group with the id not at all |
| Store.RemoveGroupKeepsOrder | src/store/reconciliationStore.ts:356 | the kept groups stay in their order: removing from a prefix of the list gives a prefix of the result |
| Store.Reviewed | src/store/reconciliationStore.ts:113-115 | every entry counted is matched or potential, and there are at most as many as entries |
| Store.ReviewedCount | src/store/reconciliationStore.ts:113-115 | the count of matched-or-potential entries is the length less the unmatched entries |
| Store.ResetUndoesApply | src/store/reconciliationStore.ts:341-353 | unlinking the members of a just-applied group whose members were unmatched and ungrouped restores the list |
| Store.ManualGroupOutcome | src/store/reconciliationStore.ts:155-173 | applying a new manual group to a list with distinct ids makes exactly the entries it names `potential` members of that group and keeps every other entry |
| Store.ConfirmOutcome | src/store/reconciliationStore.ts:280-300 | applying the confirmed group to a list with distinct ids makes exactly the entries it names `matched` members of it and keeps every other entry |
| Store.ReassignOutcome | src/store/reconciliationStore.ts:230-249 | after reassignment, new members join the group, old members not re-listed become unmatched with no group, and others are kept |
| Store.NamedNotUnmatched | src/utils/matchingEngine.ts:203-222 | after the groups are applied, no entry carrying a named id is unmatched |
| Store.AutomaticPhasesDisjoint | src/store/reconciliationStore.ts:93-110 | with distinct ids, no fuzzy group of a run shares a bank or GL id with an exact group of the same run |
| Store.ReconciliationStore.constructor | src/store/reconciliationStore.ts:46-54 | no project, empty lists and groups, not loading, on the upload view |
| Store.ReconciliationStore.SetCurrentProject | src/store/reconciliationStore.ts:57 | sets the project; nothing else changes |
| Store.ReconciliationStore.SetActiveView | src/store/reconciliationStore.ts:409 | sets the view; nothing else changes |
| Store.ReconciliationStore.AddBankTransactions | src/store/reconciliationStore.ts:59-72 | appends after the existing entries. A project then records the new length and one more bank file, and its bank count equals the list length |
| Store.ReconciliationStore.AddGLTransactions | src/store/reconciliationStore.ts:74-87 | the same on the GL side |
| Store.ReconciliationStore.RunAutomaticMatching | src/store/reconciliationStore.ts:89-138 | the groups become the exact groups followed by the fuzzy groups, the fuzzy ones found on the lists after the exact groups are applied. Both lists end with both batches applied; loading ends false. The project gets the matched-or-potential count and rate and goes `in_progress` |
| Store.ReconciliationStore.CreateMatchGroup | src/store/reconciliationStore.ts:140-197 | appends one manual group whose totals come from the listed ids; earlier groups are unchanged. The lists become the new group applied to them; `Store.ManualGroupOutcome` spells that out entry by entry. The project is recounted |
| Store.ReconciliationStore.UpdateMatchGroup | src/store/reconciliationStore.ts:199-278 | unknown id: nothing changes. Otherwise the group keeps its id and position and becomes manual with the new ids and totals. The lists become the old members unlinked, then the new group applied to them; `Store.ReassignOutcome` spells that out entry by entry |
| Store.ReconciliationStore.ConfirmMatchGroup | src/store/reconciliationStore.ts:280-328 | unknown id: nothing changes. Otherwise only the group's status (now `confirmed`) and update time change, in place. The lists become the confirmed group applied to them; `Store.ConfirmOutcome` spells that out entry by entry. The rate counts `matched` only |
| Store.ReconciliationStore.RejectMatchGroup | src/store/reconciliationStore.ts:330-381 | unknown id: nothing changes. Otherwise the group list becomes `Store.RemoveGroup` of it, so no group carries the id any more, the group's members are unlinked, and the project is recounted |
| Store.ReconciliationStore.AddTransactionNote | src/store/reconciliationStore.ts:383-407 | sets the note on the first bank entry with the id, else on the first GL entry with it, else changes nothing. Amounts and states never change, so statistics are unaffected |
| Store.ReconciliationStore.ResetReconciliation | src/store/reconciliationStore.ts:411-416 | empties the lists and the groups and returns to the upload view; the project is kept |
| ColumnMapper.Lower | src/components/ColumnMapper.tsx:88 | lower-casing keeps the length and maps each character |
| ColumnMapper.FirstHit | src/components/ColumnMapper.tsx:87-89 | `find`: None iff no header passes; otherwise the first header that passes |
| ColumnMapper.Selects | src/components/ColumnMapper.tsx:87-98 | a name selects its first hit unless that is the empty header; `ColumnMapper.SelectsPartialIff` and `PhaseIsEarliestName` state when |
| ColumnMapper.Phase | src/components/ColumnMapper.tsx:86-99 | a phase returns a non-empty header that matches one of the names, and returns nothing iff no name selects a non-empty first hit |
| ColumnMapper.FindBestMatch | src/components/ColumnMapper.tsx:84-102 | the result is `''` or one of the headers |
| ColumnMapper.PhaseIsEarliestName | src/components/ColumnMapper.tsx:86-91 | the earliest name with a non-empty first hit decides the phase |
| ColumnMapper.ExactMatchWins | src/components/ColumnMapper.tsx:86-91 | an exact case-insensitive match is returned before any substring match. The earliest name wins, and for that name the earliest header |
| ColumnMapper.PartialOnlyWithoutExact | src/components/ColumnMapper.tsx:94-99 | with no exact match the result comes from the substring phase, and a non-empty result contains one of the names |
| ColumnMapper.EmptyIffNoHeaderContainsAName | src/components/ColumnMapper.tsx:84-101 | with non-empty names, the result is `''` iff no header contains any name, ignoring case |
| ColumnMapper.ExactHitIsPartialHit | src/components/ColumnMapper.tsx:88-96 | an equal header also contains the name |
| ColumnMapper.EmptyNameMissesLaterHeader | src/components/ColumnMapper.tsx:90 | an empty name whose first hit is the empty header returns `''`, though a later header contains it |
| ColumnMapper.AdditionalFields | src/components/ColumnMapper.tsx:31-41 | the optional fields of a bank file and of a GL file; `ColumnMapper.MappingKeys` states their use |
| ColumnMapper.CandidateNames | src/components/ColumnMapper.tsx:46-75 | the header names tried for each field, in order; `ColumnMapper.Suggestions` states their use |
| ColumnMapper.Field | src/components/ColumnMapper.tsx:113 | a mapping entry, with an absent key read as `''`; `ColumnMapper.Submit` states the required-column test built on it |
| ColumnMapper.SourceTypeName | src/components/ColumnMapper.tsx:119-123 | the `sourceType` string stored in a submitted mapping; `ColumnMapper.Submit` states where it appears |
| ColumnMapper.Suggestions | src/components/ColumnMapper.tsx:44-81 | the suggestions cover the three required fields and this kind of file's optional ones, each a header or `''` |
| ColumnMapper.MappingKeys | src/components/ColumnMapper.tsx:30-41 | the keys include the three required fields and every optional field of this kind of file |
| ColumnMapper.Submit | src/components/ColumnMapper.tsx:111-126 | refused iff the date, amount or description column is empty. Otherwise the result carries every mapping entry, plus the file name and source type unless the mapping overrides them |
| ColumnMapper.LoadSavedMapping | src/components/ColumnMapper.tsx:142-155 | the required and this kind of file's optional fields, each the saved value or `''`; other saved entries are dropped |
| ColumnMapper.LoadThenSubmit | src/components/ColumnMapper.tsx:111-155 | a loaded mapping submits iff the saved one names all three required columns, and the result carries the saved columns |

## Left out

- The Fuse.js description search (`src/utils/matchingEngine.ts:127-133, 156`) is an oracle parameter. Its scoring and its threshold are not modelled.
- FuzzyMatcher.Choice: a hit whose index is outside the unmatched GL list is dropped. Fuse.js never returns one.
- Floating-point arithmetic:
  - Amounts are exact integer cents, so the `toFixed(2)` rounding of fractional cents is not modelled.
  - Types.RateRange: the rate is an exact rational, not a double.
- `uuidv4()` and `new Date().toISOString()` are supplied values (`newId`, `now`).
- Date parsing with `parseISO`/`differenceInDays` is replaced by integer day numbers.
- The store's Zustand `set`/`get` plumbing and reactivity are not modelled. Each action is one method that runs to completion. The two `set` calls of `runAutomaticMatching` become a write of `isLoading` at the start and one at the end.
- Object aliasing: the code's `applyMatchGroups` writes into the very objects the store holds. The model produces updated lists instead, which is what the store then stores.
- The store's `importTemplates` field is not modelled, because no modelled action reads or writes it.
- Invariants the code does not enforce are not assumed:
  - a transaction in at most one group;
  - non-empty id lists;
  - distinct ids across imports.

  Properties that need distinct ids say so in their preconditions.
- Store.ReconciliationStore.RunAutomaticMatching: its contract states the resulting state. The disjointness of the two batches is proved separately in `Store.AutomaticPhasesDisjoint` and is not repeated in the method's contract.
- ColumnMapper.Lower: lower-cases ASCII letters only, not the full Unicode mapping of `toLowerCase`.
- ColumnMapper.LoadSavedMapping: a saved mapping lacking a required key reads as `''` rather than `undefined`. Every consumer tests both as falsy.
- The column mapper's React state, `handleSelectChange`, `handleSaveMapping` (which only logs) and the rendering are not modelled. Neither are the spreadsheet parser (`src/utils/fileParser.ts`) and the pages, layouts, middleware and display components. None of these are part of this model.
