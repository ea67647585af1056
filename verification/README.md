# Verified model of the dashboard pipeline's deterministic core

The pipeline lets a language model choose and fill dashboard cards. What surrounds the model is
deterministic: pools and permits that must be conserved, allocations that must not collide, rewrites of JSON
payloads that must not invent data, caches, retries and a migration ledger that must survive crashes. This
project states that code in Dafny and proves what its comments, tests and documentation promise of it.
Everything outside it (the wire, psycopg2, psql, the clock, the model server, regular expressions, policy rows)
is an oracle or a parameter that may answer anything.

| files | what they model |
|---|---|
| `Json`, `JsonPaths`, `JsonHeap` | the JSON payload tree as a value, the places in it, and the container objects that in-place code writes |
| `Scrub`, `ScrubRoles`, `ScrubInPlace` | the three build-time scrubs, as one walk over a rule, what they decide at every path, and in place |
| `DisplayDash`, `DisplaySlots`, `DashInPlace` | the honest-dash policy at the serve boundary, its effect at every path, and in place |
| `LeafPaths`, `PathsInPlace`, `DeepMerge` | dotted-path addressing as a lens, its cursor loops and in-place write on container objects; the recursive dictionary merge |
| `SwapSettle`, `ComparandTokens`, `CompareOverlay`, `CompareCards`, `CompareLossless` | who gets which swap target; short labels for comparands; N cards per render id merged into one |
| `PoolProtocol`, `ConnectionPool` | both connection pools, as a state machine over any interleaving and as one thread's calls |
| `LlmCall`, `Admission` | the attempt loop of one model call and the transport retry around it; the process-wide admission semaphore |
| `TtlCache`, `ResponseCache` | the expiring dictionary and the two-tier reply cache on top of it |
| `ExecFanout`, `ParallelFill` | the per-card executor fan-out under a wall-clock budget; the parallel multi-asset fill |
| `CardRun` | one card's emit, gate, swap and degrade run against adversarial oracles |
| `ConnectRetry`, `Windows`, `WindowBackfill`, `Migrations` | jittered connect retry; window bounds, calendar starts and the default backfill; the migration ledger |

Run `dafny verify dfyconfig.toml` in this directory.

## How to read it

Concurrent protocols are a `State`, a `Step` datatype, `Enabled` and `Apply`; a theorem about a run is a lemma
over a sequence of states, so it covers every interleaving. Code that works in place is a class or a method with
a loop, tied by its `ensures` to a function; the laws are lemmas about that function.

Some promises turned out to hold only under a condition. The condition is then proved to be exact, or the
failing family is exhibited:

- Settled cards are pairwise distinct exactly when every slot id lies on the page or in its template
  (`SwapSettle.DistinctExactly`): a keep slot reserves its id only after all swaps, although the comment at
  grounding/swap_settle.py:91 reads as if it did so before.
- A points merge keeps every value exactly when no point of any comparand has a key that the first comparand's
  first point lacks, and the last point of each label repeats the values of the comparand's earlier points of that
  label (`CompareOverlay.LosslessExactly`); two points of one label lose the first one's value
  (`CompareOverlay.RepeatedLabelLoses`). Two comparands share a column exactly when one token, after `@@`, ends the
  other (`CompareOverlay.CollisionsExactly`). A series key or order name still resolves after the rewrite exactly
  when it was a base key (`CompareOverlay.SeriesResolve`, `CompareOverlay.OrderResolves`).
- The docstring of `unique_comparand_tokens` says the first holder of a token keeps it. It does exactly when no
  earlier comparand was widened or suffixed onto it (`ComparandTokens.KeepsBareExactly`), so whenever no earlier
  name has it as a wider variant or as its bare token with a suffix (`ComparandTokens.FirstHolderKeeps`); each of
  those two can rob it in some lane order (`ComparandTokens.DriftsExactly`), as in
  `ComparandTokens.FirstHolderMayLoseToken`.
- `merge_all` is documented to pass untagged cards through. The result depends on an untagged card exactly when it
  is the first of its render id and no two cards of that id are tagged; it then stands in the result unchanged
  (`CompareLossless.UntaggedReadExactly`, `CompareLossless.UntaggedPassesExactly`). None is dropped exactly when
  this holds of each of them (`CompareLossless.NoneDroppedExactly`), without any tokens when no two different cards
  share a render id (`CompareLossless.AllPassExactly`).
- A connection whose session preparation raises (data/neuract_pool.py:55-64) is opened and then neither pooled nor
  closed: `_new` returns None and only the interpreter can reclaim it (`PoolProtocol.PreparationLeaks`). Every
  other connection is in one idle slot, in one hand, or closed, and these are exactly the others
  (`PoolProtocol.PlacedExactly`, `PoolProtocol.ClosedExactly`).
- Sibling rehydrate is documented to need the same keyset; the code asks for all but two of the default's keys,
  and the model follows the code. The honest dash is idempotent, where no sibling is rebuilt, exactly for the
  vocabularies `DisplayDash.Tame` describes (`DisplayDash.IdempotentExactly`).
- The catalog door documents its one retry for a stale pooled connection; the failed connection is closed before
  its `closed` attribute is read (data/db_client.py:163-164), so every exception on a pooled connection is
  retried, a plain SQL error included (`ConnectionPool.Pool.Query`).
- A parsed lookback can be zero ("0 days"); every caller treats that as nothing parsed, so no window ever uses
  it (`WindowBackfill.LookbackPositiveExactly`, `WindowBackfill.RangeDeltaPositive`).
- `ensure_nonzero_span` leaves a bare date paired with a zoned instant alone, even when it is reversed
  (`Windows.MixedBoundsUntouched`, `Windows.ForwardExactly`).
- A typed write keeps every container except through a write to one of its ancestors
  (`LeafPaths.TypedWriteKeepsContainer`, `LeafPaths.AncestorWriteLosesList`).
- Deep merge is associative exactly when, wherever the middle tree has a non-dictionary between dictionaries of the
  other two, the last one has every key the first has there, at every depth where both hold dictionaries
  (`DeepMerge.MergeAssociativeExactly`).
- A value that reaches its future between the sweep's check and its cancel is still reported as budget exceeded;
  what the sweep saw settled never is (`ExecFanout.SeenSettledNeverDiscarded`,
  `ExecFanout.CompletionAfterTheCheckIsLost`).

## Model

| member | source | states |
|---|---|---|
| Scrub.WalkOnlyScrubs | grounding/role_scrub.py:227-247 | a scrub changes only string leaves, to the placeholder, and event-parent lists, to the empty list; lookup dictionaries stay identical and nothing changes shape |
| Scrub.WalkKeepsNumbers | grounding/measured_annotation_scrub.py:81-99 | no scrub adds or removes a numeric sibling, the evidence the annotation scrub reads |
| Scrub.WalksCommute | grounding/default_assemble.py:188-200 | any two of the three scrubs commute on every tree |
| Scrub.WalkIdempotent | grounding/role_scrub.py:170-251 | each scrub is idempotent on every tree, for any placeholder |
| Scrub.PipelineIsCanonical | grounding/default_assemble.py:188-200 | any sequence of scrubs equals applying each one that occurs once, in a fixed order |
| Scrub.ScrubOrderIrrelevant | grounding/default_assemble.py:188-200 | two sequences naming the same scrubs leave the same tree |
| Scrub.PipelineOnlyScrubs | grounding/event_skeleton_scrub.py:25-51 | whatever scrubs run, only strings are blanked and only event lists emptied |
| Scrub.SettledExactly | grounding/role_scrub.py:190-247 | a scrub leaves a tree as it is exactly when no entry it reaches still asserts anything |
| Scrub.PipelineLeavesNothing | grounding/default_assemble.py:188-200 | after any sequence of scrubs nothing is left for any of them: each would-be blanked text is the placeholder, each event list empty |
| ScrubRoles.RoleScrubExactly | grounding/role_scrub.py:190-247 | a text becomes the placeholder under the role scrub if and only if its path and the vocabularies say it asserts something: meter pointer, global key, tone outside reference lines, event attribute, worded metric, derived pick, roster fact but never roster identity, state verdict outside rosters; never inside a lookup dictionary |
| ScrubRoles.AssertsExactly | grounding/role_scrub.py:190-224 | the decision taken on the ancestor chain is the one the path's roles say |
| ScrubRoles.EventScrubExactly | grounding/event_skeleton_scrub.py:32-46 | a list becomes empty if and only if it stands at an event-parent key outside lookup dictionaries; anything not below such a list keeps its kind, and every leaf its value |
| ScrubRoles.MeasuredScrubExactly | grounding/measured_annotation_scrub.py:81-99 | a text becomes the placeholder under the annotation scrub if and only if it embeds a measurement at an annotation key beside a number, outside lookup dictionaries and design chrome |
| ScrubRoles.SealedUntouched | grounding/role_scrub.py:233-238 | below a lookup-dictionary key the role and annotation scrubs change nothing at all |
| ScrubRoles.KindsStay | grounding/role_scrub.py:227-247 | neither of these two changes the kind of any value or any leaf that is no text |
| ScrubRoles.PipelineTexts | grounding/default_assemble.py:188-200 | after any sequence of scrubs each text is gone, the placeholder, or unchanged, exactly as the scrubs that ran say of its path |
| ScrubInPlace.WalkInPlace | grounding/role_scrub.py:227-251 | the recursive in-place walk over container objects leaves exactly the scrubbed tree, in any dictionary order |
| ScrubInPlace.WalkDict | grounding/event_skeleton_scrub.py:32-48 | the dictionary half of the walk, the numeric sibling read before any entry is written |
| ScrubInPlace.VisitEntries | grounding/measured_annotation_scrub.py:81-99 | the loop over a dictionary's entries reaches the scrubbed dictionary whatever order it takes them in |
| ScrubInPlace.WalkList | grounding/role_scrub.py:243-246 | the list half of the walk keeps the list and scrubs its containers |
| DisplayDash.Provenance | host/display_dash.py:210-234 | every number, text and boolean served is the one that was there, the dash over a null whose default is a scalar, the default's own number at a blank digit slot, or the configured fallback over a text |
| DisplayDash.MeasurementsKept | host/display_dash.py:195-234 | every number and boolean of the payload is served unchanged |
| DisplayDash.ApplyIsConservative | host/display_dash.py:128-139 | the served payload keeps all measurements, turns a null into text only as the dash over a scalar default and into a number only as the default's digit count; a disabled policy changes nothing |
| DisplayDash.DisplaySlotsFilled | host/display_dash.py:195-227 | the three slot rules for the entries of one walked dictionary |
| DisplaySlots.WalkedAt | host/display_dash.py:210-234 | every container of the payload below no digit key, in lists too, is walked against the default at its own path: the element of the same position, else the first |
| DisplaySlots.DashedExactly | host/display_dash.py:217-227 | wherever a dictionary of the payload stands, a null of it is served as the dash if and only if it is a unit-suffixed value key with a numeric default, or beside a unit label has a scalar default and is no unit label itself |
| DisplaySlots.DigitsExactly | host/display_dash.py:195-208 | wherever a dictionary stands, a null or dash at a digit key is served as the default's number, entry by entry in the dictionary form, and nothing else there changes |
| DisplaySlots.TextsExactly | host/display_dash.py:214-216 | wherever a dictionary stands, a text is replaced exactly when a fallback is configured for its key |
| DisplaySlots.RebuildHappens | host/display_dash.py:178-192 | a null object slot with a twin (same length, same first four characters, all but two of the default's keys) is served rebuilt, with exactly the default's keys |
| DisplaySlots.RebuiltOnlyBesideTwin | host/display_dash.py:178-192 | no other null object slot is rebuilt |
| DisplaySlots.BlankShapeExactly | host/display_dash.py:160-166 | the rebuilt shape has the default's dictionaries with their keys, its lists emptied and every scalar null |
| DisplayDash.WalkTwice | host/display_dash.py:178-234 | under tame vocabularies and with no sibling to rebuild, a second pass changes nothing |
| DisplayDash.IdempotentExactly | host/display_dash.py:74-121 | two passes equal one on all such payloads if and only if the vocabularies are tame |
| DisplayDash.SharedSuffixBreaks | host/display_dash.py:146-157 | a key both unit-like and a unit-suffixed value key makes the second pass dash more |
| DisplayDash.DigitFallbackBreaks | host/display_dash.py:113-121 | a dash fallback at a digit key is overwritten by the default number on the second pass |
| DisplayDash.FallbackBreaks | host/display_dash.py:214-217 | a fallback other than the dash replaces a dash on the second pass |
| DashInPlace.ApplyInPlace | host/display_dash.py:128-139 | the valve, the type guards and the in-place walk leave exactly the payload the policy specifies |
| DashInPlace.WalkInPlace | host/display_dash.py:210-234 | the recursive in-place walk over container objects leaves exactly the specified tree, rebuilt siblings included, and writes nothing but the payload's own and new containers |
| DashInPlace.FixDigitChrome | host/display_dash.py:195-208 | the digit-chrome loop restores blank digit slots, scalar and dictionary form, to the default's numbers |
| DashInPlace.RehydrateSiblings | host/display_dash.py:178-192 | the rehydrate loop in dictionary order, a rebuilt slot counting as a sibling for later keys |
| DashInPlace.FindSiblingSlot | host/display_dash.py:187-192 | the inner loop finds a matching sibling exactly when one exists |
| DashInPlace.NewBlank | host/display_dash.py:160-166 | a fresh tree in the default's shape, every scalar null and every list empty |
| DashInPlace.PrepareInPlace | host/display_dash.py:212-216 | digit chrome, rehydrate and fallbacks, in that order |
| DashInPlace.VisitEntries | host/display_dash.py:217-227 | the final loop dashes, descends or passes by, its unit evidence taken before any dash |
| LeafPaths.LeafAt | lib/leaf_paths.py:24-32 | the cursor loop returns the value at the path, None where any step raises |
| LeafPaths.HasPath | lib/leaf_paths.py:54-65 | true exactly for a non-empty path that resolves |
| LeafPaths.UnsettableIsNoOp | lib/leaf_paths.py:35-51 | a write whose path does not resolve, or whose last assignment is illegal, changes nothing |
| LeafPaths.GetAfterSet | lib/leaf_paths.py:24-51 | reading a written path gives the written value, exactly when the write was possible |
| LeafPaths.SetAfterGet | lib/leaf_paths.py:24-51 | writing back what was read changes nothing |
| LeafPaths.SetAfterSet | lib/leaf_paths.py:35-51 | of two writes to one path the second decides |
| LeafPaths.NonInterference | lib/leaf_paths.py:24-51 | a write leaves every diverging path as it was |
| LeafPaths.ReadBelowWrite | lib/leaf_paths.py:24-51 | reading below a written path reads inside the written value |
| LeafPaths.ReadAboveWrite | lib/leaf_paths.py:24-51 | reading above a written path sees the subtree with the write in it |
| LeafPaths.TypedWriteKeepsContainer | lib/leaf_paths.py:84-96 | a typed write keeps a list leaf a list and a dictionary leaf a dictionary, exactly unless it replaces an ancestor of that leaf |
| LeafPaths.TypedWritesKeepContainers | lib/leaf_paths.py:84-96 | so does any sequence of typed writes that replaces no ancestor |
| LeafPaths.AncestorWriteLosesList | lib/leaf_paths.py:84-96 | the concrete write of a dictionary over a dictionary that loses a list below it |
| PathsInPlace.LeafAtInPlace | lib/leaf_paths.py:24-32 | the cursor loop over container objects reads what the tree reads |
| PathsInPlace.Descend | lib/leaf_paths.py:35-46 | the cursor reaches the container to assign in, or stops, exactly when no write is possible |
| PathsInPlace.SetPathInPlace | lib/leaf_paths.py:35-51 | writing one slot of one container object leaves exactly the written tree, all other containers intact, or changes nothing |
| PathsInPlace.SetLeafTypedInPlace | lib/leaf_paths.py:84-96 | the typed write in place, refusing to put anything but a list over a list or a dictionary over a dictionary |
| DeepMerge.DeepMerge | lib/dict_merge.py:21-31 | the loop building a fresh dictionary per level computes the merge and touches neither input |
| DeepMerge.MergeIdentity | lib/dict_merge.py:21-31 | the empty dictionary, or None, on either side is the identity |
| DeepMerge.MergeIdempotent | lib/dict_merge.py:21-31 | merging a dictionary with itself gives it back |
| DeepMerge.MergeByPath | lib/dict_merge.py:21-31 | at every path the merge holds what override and base hold there, path by path |
| DeepMerge.OverrideLeafWins | lib/dict_merge.py:21-31 | every leaf of the override is kept |
| DeepMerge.CoversExactly | lib/dict_merge.py:21-31 | merging gives exactly the override when and only when the override has every key of the base, at every depth where both hold dictionaries |
| DeepMerge.UnchangedExactly | lib/dict_merge.py:21-31 | merging changes nothing exactly when the base already holds all of the override |
| DeepMerge.MergeAssociativeExactly | lib/dict_merge.py:21-31 | the merge of three is associative if and only if, wherever the middle one has a non-dictionary between dictionaries of the other two, the last has every key of the first there |
| DeepMerge.SameShapeAssociates | lib/dict_merge.py:21-31 | trees that agree at each path on dictionary or not associate |
| DeepMerge.ScalarBetweenDictionaries | lib/dict_merge.py:21-31 | a scalar between two dictionaries breaks associativity |
| SwapSettle.Page.Settle | grounding/swap_settle.py:63-105 | the whole settle rewrites the page's outputs, and reports reverts and swaps, as the specified run does |
| SwapSettle.Page.SettleInOrder | grounding/swap_settle.py:88-104 | the settle loop over the sorted slots |
| SwapSettle.SettleIgnoresDictOrder | grounding/swap_settle.py:82-88 | the result does not depend on the order of the outputs dictionary |
| SwapSettle.SettleMeetsSpec | grounding/swap_settle.py:63-105 | with every slot id on the page or in its template, each free target goes to its claimant of highest confidence, ties to the lowest id, and every other swap reverts |
| SwapSettle.WinsExactly | grounding/swap_settle.py:82-86 | winning spelled out: a free target, and every other claimant less confident, or as confident with a higher id |
| SwapSettle.SettleReports | grounding/swap_settle.py:88-105 | the swaps reported are exactly the winners with their targets, the reverts exactly the losers with theirs, reverted decisions keep their confidence, and taken in the end are the reserved cards and the card each slot shows |
| SwapSettle.ReportedOnce | grounding/swap_settle.py:88-105 | no slot is reported twice |
| SwapSettle.WinnersAlwaysSound | grounding/swap_settle.py:88-104 | with or without that condition, winning targets are distinct and outside page and template |
| SwapSettle.SettleIdempotent | grounding/swap_settle.py:63-105 | settling again changes nothing |
| SwapSettle.ReservedSlotsDistinct | grounding/swap_settle.py:63-105 | under the condition the final cards are pairwise distinct |
| SwapSettle.UnreservedSlotCollides | grounding/swap_settle.py:88-104 | an unreserved slot lets another swap onto its own card |
| SwapSettle.DistinctExactly | grounding/swap_settle.py:63-105 | distinctness for all decisions holds exactly under the condition, or for at most one slot |
| ComparandTokens.StreamEnumerates | host/compare_overlay.py:42-50 | the suffix stream yields every non-empty string over b..z exactly once, in nondecreasing length |
| ComparandTokens.FreeSuffix | host/compare_overlay.py:62-73 | the search terminates with the first suffix that makes a token free |
| ComparandTokens.ChooseToken | host/compare_overlay.py:62-73 | the bare token when free, else the first free wider variant, else the first free suffix |
| ComparandTokens.UniqueComparandTokens | host/compare_overlay.py:53-73 | the allocator loop ends with pairwise distinct tokens for any list of names, identical names included |
| ComparandTokens.TokensByIdInjective | host/compare_overlay.py:53-73 | distinct ids never share a token |
| ComparandTokens.KeepsBareExactly | host/compare_overlay.py:57-73 | a comparand keeps the token its name suggests exactly when no earlier one holds it bare and none was widened or suffixed onto it |
| ComparandTokens.FirstHolderKeeps | host/compare_overlay.py:57-73 | checked on the names alone: the first holder keeps its token when no earlier name has it as a wider variant or as its bare token with a suffix |
| ComparandTokens.DriftsExactly | host/compare_overlay.py:29-73 | and these are the only ways: in some lane order a comparand is moved onto a token it does not suggest exactly when that is one of its wider variants or a suffixed bare token |
| ComparandTokens.FirstHolderMayLoseToken | host/compare_overlay.py:53-73 | a concrete list in which the first comparand with a bare token does not get it |
| CompareOverlay.UnionIsTotal | host/compare_overlay.py:100-110 | the union tile of a numeric KPI is the sum over the comparands, and exists exactly for numeric KPIs |
| CompareOverlay.StatsLossless | host/compare_overlay.py:100-110 | each comparand's stats stand whole under its token |
| CompareOverlay.StatsKeepBase | host/compare_overlay.py:100-110 | an entry that is numeric for no comparand stays as the base card has it |
| CompareOverlay.PanelsLossless | host/compare_overlay.py:113-121 | a comparand's section of the merged panels holds its dictionary panels in order, each with every field it had, the section set to the token and the id prefixed with it; no other section holds anything |
| CompareOverlay.PanelsAllTagged | host/compare_overlay.py:113-121 | every merged panel is in the section of some comparand |
| CompareOverlay.SectionColumnExactly | host/compare_overlay.py:124-133 | the section column is stamped exactly where an event order without a section and a column with short names stand, and nothing else of the presentation changes |
| CompareOverlay.CollisionsExactly | host/compare_overlay.py:153-162 | two comparands share a `key@@token` column exactly when one token's suffix ends the other's |
| CompareOverlay.PlainTokensApart | host/compare_overlay.py:153-162 | tokens free of '@' never do |
| CompareOverlay.ReadColumn | host/compare_overlay.py:153-162 | reading `key@@token` at a label gives that comparand's own value there, None where it has no such label |
| CompareOverlay.MissingColumn | host/compare_overlay.py:153-162 | a key that is no base key has no column |
| CompareOverlay.ColumnsExactly | host/compare_overlay.py:148-158 | a merged point has its label and, for every comparand, one column for each key beside the label of the first comparand's first point, and no other key |
| CompareOverlay.PointReadsBack | host/compare_overlay.py:136-162 | for a comparand with unique labels, the merged point of each of its points' labels holds that point's own value of every base key under `key@@token`, None where it has none |
| CompareOverlay.LosslessExactly | host/compare_overlay.py:143-162 | every value of every point stands in its column at its label exactly when all keys are among the first comparand's first point's and the last point of each label repeats the earlier ones' values |
| CompareOverlay.KeptExactly | host/compare_overlay.py:150-162 | one value is kept exactly when its key is a base key and the last point of its label has the same value |
| CompareOverlay.RepeatedLabelLoses | host/compare_overlay.py:152 | of two points of one comparand with one label and different values the first one's value is nowhere in the merged points |
| CompareOverlay.SeriesResolve | host/compare_overlay.py:163-173 | each entry of a series list has, in its place in the rewritten list, one entry per comparand with every other field, labelled with the comparand; its key names in every merged point that comparand's values of the old key if that was a base key, and names nothing otherwise |
| CompareOverlay.OrderResolves | host/compare_overlay.py:174-177 | the same of every name in the rewritten stacking and line orders |
| CompareOverlay.MergePanelsFrame | host/compare_overlay.py:113-133 | the panels merge writes the panels, the section column and the list of comparands, and nothing else |
| CompareOverlay.MergePointsFrame | host/compare_overlay.py:162-179 | the points merge writes the points, the series and orders, the split and legend flags and the list of comparands, and nothing else |
| CompareCards.OverlayKeepsComparand | host/compare_overlay.py:192-215 | under distinct tokens the merged card holds each comparand's stats under its token and its panels, field by field, under its section, or its whole payload side by side; the first card alone decides which shapes merge, and a shape it lacks stays as it has it |
| CompareCards.OverlayKeepsPoints | host/compare_overlay.py:192-215 | where the first card has points and tokens cannot collide, every comparand with unique labels reads back its own value of every base key at each of its points in the merged card |
| CompareCards.OverlayKeepsRest | host/compare_overlay.py:192-215 | the merged card is the first comparand's without its asset tag: inline only its one subtree differs, side by side nothing of it, with the comparands in order |
| CompareCards.OverlayTotals | host/compare_overlay.py:100-110 | in the merged card a KPI numeric for some comparand is the sum over them, any other entry of the stats the first comparand's |
| CompareCards.MergeSubFrame | host/compare_overlay.py:203-212 | entries of the subtree that no merge writes are the first comparand's |
| CompareCards.SubtreeExactly | host/compare_overlay.py:91-97 | the subtree is the first entry that is a dictionary and neither widgets, variant nor AI summary |
| CompareCards.MergeSubShapes | host/compare_overlay.py:203-212 | each inline merge happens exactly where the first comparand has the shape, and none disturbs another |
| CompareCards.GroupCards | host/compare_overlay.py:218-226 | the grouping loop collects each render id's cards in order, ids in first-seen order |
| CompareCards.MergeAllCards | host/compare_overlay.py:218-238 | the whole loop yields one merged card per group |
| CompareCards.OneCardPerRenderId | host/compare_overlay.py:218-238 | exactly one card per render id, in first-seen order |
| CompareCards.UnionLabels | host/compare_overlay.py:143-149 | the label loops give the union of labels in first-seen order |
| CompareCards.BuildPoints | host/compare_overlay.py:143-162 | the nested point loops compute the merged points |
| CompareLossless.UntaggedPassesExactly | host/compare_overlay.py:227-232 | an untagged card is in the result exactly when fewer than two cards of its render id are tagged and it equals the first of them, or it happens to equal the overlay of the tagged ones |
| CompareLossless.UntaggedReadExactly | host/compare_overlay.py:227-238 | the result depends on an untagged card exactly when it is the first of its render id and no two cards of that id are tagged; any other could be swapped for any untagged card |
| CompareLossless.NoneDroppedExactly | host/compare_overlay.py:218-238 | no untagged card is dropped exactly when each is the first of its render id and no two cards of that id are tagged, read off the list |
| CompareLossless.AllPassExactly | host/compare_overlay.py:218-232 | without tokens every card passes through exactly when no two different cards share a render id |
| CompareLossless.UntaggedCardsDropped | host/compare_overlay.py:227-232 | two untagged cards of one render id merge into the first alone |
| CompareLossless.TaggedGroupMergesWhole | host/compare_overlay.py:227-238 | a fully tagged group with one card per asset merges over all its cards, each under its own token |
| CompareLossless.MergeAllLossless | host/compare_overlay.py:218-238 | end to end: with every card tagged, one card per asset and render id, and distinct tokens free of '@', the one card of each render id is the card itself if alone, and otherwise shows each comparand's stats, panels, points or whole payload under its own token |
| PoolProtocol.StepSafe | data/neuract_pool.py:67-117 | every step of either pool keeps each opened connection in exactly one place (an idle slot, a hand, closed, abandoned), idle lists within the cap, failed connections on their way out |
| PoolProtocol.EveryRunSafe | data/neuract_pool.py:67-140 | so in every state of every interleaving of any number of threads |
| PoolProtocol.FailedNeverHandedOut | data/neuract_pool.py:134-136 | once a read failed on a connection no thread reads on it and no idle list offers it again |
| PoolProtocol.OneReaderPerConnection | data/db_client.py:61-88 | a connection in use is held by one thread and was never let go |
| PoolProtocol.TakeConserves | data/neuract_pool.py:70-77 | a checkout moves one idle connection into the thread's hand and lets go only of those dropped as dead |
| PoolProtocol.CheckoutTakes | data/neuract_pool.py:67-77 | a checkout takes the last idle connection still open, dropping exactly the shut ones after it, and connects only when none is left; the catalog door takes the last without looking |
| PoolProtocol.NewConserves | data/neuract_pool.py:50-64 | a fresh connection appears in the thread's hand, or is abandoned when preparing its session raises |
| PoolProtocol.PlacedExactly | data/neuract_pool.py:50-117 | over every run each opened connection is in one idle slot, one hand, or closed by the pool, exactly when preparing its session did not raise |
| PoolProtocol.ClosedExactly | data/neuract_pool.py:80-117 | outside slots and hands a connection has its closed attribute set exactly when preparing its session did not raise, unless the attribute turns up set by itself |
| PoolProtocol.AbandonedStaysOpen | data/neuract_pool.py:50-64 | no step of either pool ever closes an abandoned connection |
| PoolProtocol.PreparationLeaks | data/neuract_pool.py:50-64 | from an empty pool, a checkout whose session preparation raises leaves an open connection in no slot and no hand |
| ConnectionPool.Pool.CheckoutLive | data/neuract_pool.py:67-77 | takes the last live idle connection, dropping the dead ones after it, else connects |
| ConnectionPool.Pool.Checkin | data/neuract_pool.py:80-93 | a live connection is filed under the cap, else closed; a dead one is let go |
| ConnectionPool.Pool.Drop | data/neuract_pool.py:110-117 | empties exactly the key's idle list and closes what was in it |
| ConnectionPool.Pool.RunRead | data/neuract_pool.py:120-140 | rows or NeuractReadError; the connection of a failed read is closed and offered nowhere, of a good one back in the pool or closed; a connection opened on the way ends up pooled or closed exactly unless preparing it raised |
| ConnectionPool.Pool.CheckoutAny | data/db_client.py:61-68 | pops without looking, and says whether the connection is fresh |
| ConnectionPool.Pool.Query | data/db_client.py:150-194 | at most two connections run the statement, the second exactly after a pooled one raised; each is checked in or discarded once; every failure leaves as RuntimeError |
| LlmCall.AttemptLoop | llm/client.py:227-287 | the attempt loop computes the specified trace and releases every permit it acquired, on every exit |
| LlmCall.TakeTurn | llm/client.py:228-279 | one turn: nothing sent over budget, the slot held across the wire call only and released on every outcome, and what the reply amounts to |
| LlmCall.CallRaw | llm/client.py:173-287 | the same with the response-cache lookup in front |
| LlmCall.CallKeepsProtocol | llm/client.py:227-287 | at most parse_retry + 1 sends, none over budget, no transport failure or no-retry kind re-sent; success and store only from the last untruncated parsed reply; a failure carries the last kind |
| LlmCall.CallOnTheWire | llm/client.py:227-287 | the same read off the wire alone: prompts fit the budget at four characters a token, another follows exactly a reply of no use whose kind may be retried while attempts are left and the correction fits, and the last reply decides; one cut at the token ceiling fails as truncated even when it parses |
| LlmCall.TruncatedNeverServed | llm/client.py:265-287 | what is stored, or in raise mode returned after sending, is the object of a reply that came whole; after a cut one another prompt is sent only if truncated may be retried |
| LlmCall.FailureExplained | llm/client.py:227-287 | a failed call reports the fault of its last reply, or, when nothing was sent, the size of the prompt over budget; a cache hit sends nothing and stores nothing |
| LlmCall.AttemptsKeepProtocol | llm/client.py:228-287 | the inductive form, for a loop joined at any attempt |
| LlmCall.RetryTransient | llm/transient_retry.py:35-45 | re-calls only transient failures, at most transport_retry times, and returns the last reply |
| LlmCall.RetryTransientResult | llm/transient_retry.py:48-55 | the marker is stripped, and failed says exactly whether the model was never heard |
| LlmCall.SendsMultiply | llm/transient_retry.py:35-45 | any number of re-calls sends at most that number times (parse_retry + 1) prompts |
| LlmCall.RetriedCall | llm/transient_retry.py:35-45 | the transport retry run over whole calls returns the last reply, re-calls only after transient failures, and sends at most (transport_retry + 1) * (parse_retry + 1) prompts |
| LlmCall.NoRetryKindsStopBothLoops | llm/transient_retry.py:12-45 | a failed call, of the wire, the parse or the budget, is re-called by the outer loop exactly when its kind is not a no-retry kind |
| Admission.StepSafe | llm/client.py:137-146 | free slots plus holders always make the size |
| Admission.EveryRunSafe | llm/client.py:133-146 | so in every state of every run |
| Admission.HoldersWithinSize | llm/client.py:244-263 | holders never exceed the size and a release never overflows the bounded semaphore |
| Admission.SizedForever | llm/client.py:125-146 | once sized the semaphore is never resized or replaced, whatever the knob reads |
| Admission.WaitingCanAlwaysSend | llm/client.py:244-248 | a waiting thread can always give up and send, leaving the slots as they were |
| Admission.CapIsReached | llm/client.py:244-263 | for every size a run from the start ends with exactly that many calls sending under slots and none free |
| Admission.AcquiredMinusReleased | llm/client.py:244-263 | along every run acquisitions equal releases plus the slots still held |
| TtlCache.Cache.Contains | lib/ttl_cache.py:44-48 | true exactly when the last write of the key is younger than the TTL |
| TtlCache.Cache.Get | lib/ttl_cache.py:50-53 | answers like the dictionary of last writes filtered by age |
| TtlCache.Cache.Set | lib/ttl_cache.py:55-63 | records the write and keeps exactly the entries younger than the TTL |
| TtlCache.Cache.Purge | lib/ttl_cache.py:65-76 | the purge loop drops exactly the expired entries |
| TtlCache.PurgeNeverObservable | lib/ttl_cache.py:44-76 | under a nondecreasing clock every load answers as if nothing were purged, whatever the TTL |
| TtlCache.BackwardClockObservable | lib/ttl_cache.py:44-76 | a clock stepping back makes the purge visible |
| TtlCache.OnlyLiveEntriesLeft | lib/ttl_cache.py:65-76 | right after a write every entry left is younger than the TTL |
| ResponseCache.TwoTier.Lookup | llm/response_cache.py:76-93 | a hit exactly when memory or the reachable table has a live entry, memory first; clean, stored for that very key less than the table's TTL plus 3600 s ago, and a fresh object |
| ResponseCache.TwoTier.FromTable | llm/response_cache.py:85-91 | a table hit re-primes memory and still hands out a copy |
| ResponseCache.TwoTier.Store | llm/response_cache.py:96-104 | refuses empty and error-marked objects; otherwise keeps a copy in memory and upserts the reachable table |
| ResponseCache.AgesAdd | llm/response_cache.py:36-93 | an entry young when it entered memory stays below the sum of both TTLs while memory serves it |
| ResponseCache.RowsStayBacked | llm/response_cache.py:134-148 | the upsert keeps every row backed by an accepted store |
| ExecFanout.StepSafe | host/exec_cards.py:244-290 | every worker or main-thread step keeps verdicts true to their futures |
| ExecFanout.OneStatusPerTask | host/exec_cards.py:258-290 | for every completion order and timeout moment each task ends with one status, and a payload exactly for the ok cards |
| ExecFanout.StatusFinal | host/exec_cards.py:270-273 | a status, once given, is never overwritten |
| ExecFanout.SeenSettledNeverDiscarded | host/exec_cards.py:274-286 | a future the main thread sees settled gets its own result or error, never budget exceeded |
| ExecFanout.BudgetExceededMeansUnsettled | host/exec_cards.py:274-289 | budget exceeded is said only of a card unsettled at its check |
| ExecFanout.CompletionAfterTheCheckIsLost | host/exec_cards.py:278-289 | a value arriving between the check and the cancel is discarded |
| ExecFanout.SweepNeverWaits | host/exec_cards.py:269-290 | after the budget the main thread always has a step of its own and needs boundedly many |
| ExecFanout.CollectYields | host/exec_cards.py:258-267 | the collecting loop judges each yielded future by its outcome |
| ExecFanout.Sweep | host/exec_cards.py:269-289 | the sweep loop judges exactly the cards without a status, by what it saw |
| ExecFanout.RunCards | host/exec_cards.py:244-290 | both loops together give every task one verdict |
| ParallelFill.WorkerNamesInjective | host/multi_asset.py:69-90 | two fills never share a worker name, and none is the mode thunk's |
| ParallelFill.PairsOfDistinct | host/multi_asset.py:76-77 | the group and asset enumeration never repeats a pair |
| ParallelFill.PairsInOrder | host/multi_asset.py:76-77 | the enumeration is group after group, asset after asset, each pair with its own asset |
| ParallelFill.LanesApart | host/multi_asset.py:100-106 | two lanes of one asset have different tag ids, and names, exactly when their sections differ |
| ParallelFill.ScheduleIrrelevant | lib/parallel.py:15-36 | every schedule of the pool gives the same dictionary of results and exceptions, within the worker cap |
| ParallelFill.PoolNeverStuck | lib/parallel.py:28-36 | the pool always has a step until everything is collected |
| ParallelFill.RunParallel | lib/parallel.py:15-36 | the pool, driven by any scheduler under its worker cap, terminates with each thunk's own result or exception by name |
| ParallelFill.FillParallel | host/multi_asset.py:78-90 | all fills and the mode thunk, by worker name, under any schedule |
| ParallelFill.BuildMulti | host/multi_asset.py:69-118 | threaded under any schedule or not, cards, names, mode and the exception raised are those of the sequential loop |
| ParallelFill.FirstInOrder | host/multi_asset.py:92-99 | the exception raised is the first in group and asset order |
| ParallelFill.SequentialExactly | host/multi_asset.py:92-118 | the loop raises what its first raising fill raised, else the mode thunk's exception where there are several assets, else returns all lanes with the mode |
| ParallelFill.CardsInOrder | host/multi_asset.py:92-110 | each fill's cards stand in order at their place, payload intact, tagged with their own asset |
| CardRun.CardRunSound | layer2/build.py:366-507 | for any oracles: at most four emits, for the card or one target; the output's card is the target exactly when the final decision swaps to another card; with the knob on a non-conforming output failed in the emit stage |
| CardRun.SkeletonExactly | layer2/build.py:366-381 | with the knob on a raised run becomes the original card, kept and conforming, unless the skeleton cannot be built or fails outside the llm stage; every other run is passed on as it is |
| CardRun.RunCard | layer2/build.py:366-393 | the wrapper with the skeleton step, in place, is the specified one |
| CardRun.InnerExactly | layer2/build.py:395-416 | a known-unrenderable card with a replacement ships the forced target, and every other card is authored; what raises is exactly what was consulted and raised |
| CardRun.AuthorExactly | layer2/build.py:418-453 | the decision is the gate's, and after the corrective re-emit the second gate's with its reason dropped |
| CardRun.SettleExactly | layer2/build.py:455-480 | an unforced move stands whatever its target emits, a forced dataless one exactly when its target's emission has data; emits, raises and the shipped decision are exact |
| CardRun.FinalizeExactly | layer2/build.py:483-507 | the finalizer raises exactly when an oracle it needs does, keeps card and decision, and ships the corrected verdict if that conforms, else the first or its skeleton |
| CardRun.FinalizeFacts | layer2/build.py:483-507 | the gate retry adds at most one emit and keeps decision and card together |
| CardRun.SettleFacts | layer2/build.py:455-480 | the target re-emit and the dataless revert keep decision and card together |
| CardRun.KeepsWhicheverConforms | layer2/build.py:492-507 | the corrective re-emit happens exactly when due, and the output conforms exactly when the first or the corrected result does or an llm-stage failure became the skeleton |
| CardRun.DatalessSwapReverts | layer2/build.py:462-479 | a forced dataless swap keeps the original card exactly when the target's own emission is dataless too |
| CardRun.UnrenderableNeverEmitted | layer2/build.py:406-416 | a known-unrenderable card with a replacement is never emitted for |
| CardRun.FourEmitsHappen | layer2/build.py:395-507 | the bound of four is reached |
| CardRun.CardOutput.Degrade | layer2/emit_failed.py:26-51 | rewrites an llm-stage failure in place into the conforming skeleton and leaves everything else untouched |
| CardRun.RunCardInner | layer2/build.py:395-480 | the stepwise run, early exits included, is the specified one |
| Migrations.CrashSafe | db/apply.py:82-124 | any number of crashed runs followed by a completed one leaves the database and ledger of one clean run, when each file absorbs its own partial application |
| Migrations.CrashSafeExactly | db/apply.py:70-124 | that requirement on a file is exact |
| Migrations.PendingIsSuffix | db/apply.py:91-94 | after a crash the pending list is a suffix of the original one |
| Migrations.RerunIsNoOp | db/apply.py:107-109 | a further run finds nothing pending and changes nothing |
| Migrations.Catalog.Apply | db/apply.py:117-124 | the apply-and-record loop, dying at any statement or before any record, leaves a clean or a crashed run's state |
| Migrations.Catalog.ApplyOne | db/apply.py:70-79 | a file's statements commit one by one |
| ConnectRetry.Local.WithRetry | data/connect_retry.py:32-60 | fewer than B/2 + 3.25 connects, out within B + 2.5 s plus the last connect, the last outcome passed on, no retry after a non-outage, the flag up during every connect and restored on every exit, nested calls passed through |
| ConnectRetry.PausedClosed | data/connect_retry.py:51-52 | the capped exponential pauses add up to 2k - 2.5 seconds |
| Windows.GuardMeetsSpec | config/windows.py:67-91 | a forward span is untouched; otherwise the end is exactly max(1, min_span_days) days after the start, in the start's spelling |
| Windows.GuardIdempotent | config/windows.py:67-91 | guarding twice is guarding once |
| Windows.ForwardExactly | config/windows.py:67-91 | the guarded span is forward exactly when the start parses and the end is missing, unparsed or comparable |
| Windows.MixedBoundsUntouched | config/windows.py:67-91 | a reversed span of a bare date and a zoned instant is left alone |
| Windows.FirstOfMonth | layer2/window_backfill.py:115-116 | stepping back to the first day stays in the same month |
| Windows.CivilCounts | layer2/window_backfill.py:110-116 | the calendar those dates are read in counts on day by day from 1 January of year 1 with the Gregorian month lengths |
| WindowBackfill.LookbackPositiveExactly | layer2/window_backfill.py:7-17 | a parsed lookback is positive exactly when it names more than half a microsecond |
| WindowBackfill.ZeroDaysParses | layer2/window_backfill.py:7-17 | "0 days" parses to a zero duration |
| WindowBackfill.LookbackExactly | layer2/window_backfill.py:7-17 | a lookback is the amount times its unit to the nearest microsecond, halves to even, and exists exactly when the text matches |
| WindowBackfill.RangeDeltaPositive | layer2/window_backfill.py:20-45 | every delta a range token resolves to is positive |
| WindowBackfill.CalendarStartBounds | layer2/window_backfill.py:96-118 | a calendar start is a site midnight at or before its anchor, less than 1, 7 or 31 days back, on the Monday or the 1st of the anchor's own period |
| WindowBackfill.RawStartBefore | layer2/window_backfill.py:160-173 | before the guard the start is at or before the anchor, at it only as the anchor's own calendar midnight |
| WindowBackfill.DefaultWindowForward | layer2/window_backfill.py:160-181 | every default or declared backfill starts strictly before it ends, at the anchor unless the period begins exactly there |
| WindowBackfill.RollingSpanExact | layer2/window_backfill.py:160-176 | without a calendar token the span is exactly the resolved delta |
| WindowBackfill.AuthoredBoundsHonoured | layer2/window_backfill.py:140-159 | the AI's own forward bounds are kept or promoted untouched, and a start is never moved |
| WindowBackfill.BackfillStable | layer2/window_backfill.py:138-181 | a backfilled window is left alone by every later backfill |
| WindowBackfill.Instructions.Backfill | layer2/window_backfill.py:121-181 | the in-place backfill writes exactly the specified window |

## Left out

- HTTP servers, handlers, the React side, prompt text, prompt building and fuzzy ranking: I/O or heuristics without an invariant.
- Regular expressions and Unicode tables: the clock, measurement, meter-pointer, lookback and token patterns are uninterpreted functions, `comparand_token` and `_wider_tokens` give any strings, and a path arrives as tokens (the exotic digit characters that `isdigit` accepts and `int` refuses are not modelled).
- Aliasing inside a payload: the in-place walks and writes assume that no container is reached twice, that the default is not part of the payload, and that a written value is a separate tree.
- Ill-typed compare payloads: where a text or number stands for the dictionary or list a merge expects, the code raises and the model reads nothing there.
- Envelope internals: a deep copy of a reply is one fresh object holding the whole value; nested sharing is not modelled, and a row read back from JSON is the value that was written.
- `TTLCache` methods inherited from `dict` and interleavings between the two statements of a write; a TTL that changes between calls.
- The `psql` engine, COPY or plain execution, SQL tracing and the exception texts of the database doors; connection keyword arguments stay fixed while a connection is out, and closing a connection sets its `closed` attribute.
- `BaseException` (interrupts) everywhere, overflow of datetimes and durations, zones with daylight saving (the site offset is fixed), and NaN.
- The oracles of a card run: emit, the swap gates, the forced-renderable gate, input building and the finalizer's checks answer anything; of a finalized card only the failure stage and detail are read.
- Stage lines, spans, failure records, tints and titles: telemetry or cosmetics.
- Worker count and real time in the fan-out: the budget may be spent at any moment, so the bound on wall-clock time itself is not stated.
- Side effects of fills that run after a failing one: the parallel fill has computed them, the sequential loop has not, and only the response is compared.
- Token maps of `merge_all` may be any dictionary; that they come from the allocator is used only where a lemma asks for injectivity.
- `.py` seeders and the `--status` and `--dry-run` reports of the migration tool: they change nothing.
