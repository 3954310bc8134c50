# Quest planner requirement resolver, in Dafny

The quest planner takes a catalog of Old School RuneScape quests and works out everything one quest truly requires. Each quest carries:

- a skill -> level map;
- a list of prerequisite quest names;
- an "other" task -> value map.

The resolver does three depth-first searches over the prerequisite edges:

- the skill search keeps the highest level seen for every skill;
- the prerequisite search unions the names of all required quests;
- the other search keeps the highest value seen for every task.

Each search carries a `checked` set, so it stops on cycles and on quests reached twice. Prerequisite names that are not in the catalog are skipped. `quest_point_cape` builds a synthetic query that requires every catalog quest. `get_quest_requirements` assembles the report for a query.

The model has these parts:

- `quest.dfy` (`Quests`): the quest record. It is a value, because its fields are set once and then only read.
- `merge.dfy` (`Merge`): the max-fold that merges one map into another. The imperative loop over a map's items is proved equal to it.
- `catalog.dfy` (`Catalog`):
  - the catalog, a map from name to quest;
  - its prerequisite graph, which the searches only read;
  - its store of one facet's maps (skills or other), which the searches update.
- `resolver.dfy` (`Resolver`): the searches as functions. They define what each search computes, including the `checked` set it returns and the store it leaves behind. It also holds the one-step lemmas that both method variants use: a prerequisite that is skipped, and one that is explored.
- `quest_requirements.dfy` (`QuestRequirements`):
  - the searches as imperative methods with `for` loops, proved to compute exactly what the `Resolver` functions define;
  - `QuestPointCape` and `GetQuestRequirements`.
- `parse_json.dfy` (`ParseJson`): the earlier search variant without the missing-entry guard. A failed lookup becomes the outcome `Missing(name)`. A name is dangling when it is not a catalog key and the query requires it, or a quest requires it that the guarded search from the same state explores. A failure names a dangling name, and an absent direct prerequisite always fails. With every quest stored under its own name, the search succeeds exactly when nothing is dangling.
- `reachability.dfy` (`Reachability`): the set of catalog quests reachable from a start set, defined as a least fixpoint. It is independent of the searches and serves as their reference.
- `resolver_properties.dfy` and `report_properties.dfy`: what the searches compute, proved against that reference. Results cover the whole-catalog query and quests on a cycle.

Modelling choices:

- `checked` holds quest names.
- `checked` is passed in and returned by every search method. Each top-level use in `get_quest_requirements` starts from the empty set, which is what the default argument gives on a fresh call.
- A value accumulated during a search is the visited quest's own dictionary, because the code aliases it. So after a max-folding search returns, every quest it explored holds its merged map. The methods return the updated catalog to model this.

The model follows the code in these places, where one might expect otherwise:

- The catalog is not read-only. Every quest a max-folding search explores has its own skill or other map raised to its merged map. `Catalog.WriteBack` models this. `ResolverProperties.MaxSearchClosure` states which maps change and how.
- Quests on a cycle can include themselves. A quest `A` with `A -> B -> A` does have "A" among its recursive prerequisites. See `ReportProperties.CycleIncludesItself` and `ReportProperties.TwoQuestCycle`.
- Zero values from prerequisites are dropped. A key that a prerequisite declares with value 0, and that the accumulator lacks, is not added; only positive values add keys. This follows from the `FromEither` clause of `Merge.MaxFold`.
- The report lists only direct prerequisites. Its "quests" entry is the query's direct prerequisite list, not the recursive set.
- `get_quest_requirements` searches the module-level `quest_list`, not its own parameter. The model takes one catalog argument.
- The whole-catalog query's result:
  - its quest set is every catalog name, plus the names catalog quests require;
  - each merged map is the pointwise maximum over all catalog quests.

  `ReportProperties.PointCapeMaxRequirements` and `ReportProperties.PointCapeQuestRequirements` state this.

## Model

| member | source | states |
|---|---|---|
| Quests.NewQuest | quest.py:19-24 | the built quest stores the name, the f2p flag and the three requirement parts exactly as given |
| Quests.InfoRoundTrip | quest.py:39-49 | the getters return exactly what was given at construction, so the entry read back from a quest equals the entry it was built from |
| Merge.MaxFold | quest_requirements.py:63-65 | folding keeps every key and value of the accumulator or raises it, every value of the merged-in map is at most the result's (missing keys count as 0), and every value comes from one of the two maps, a new key only with a positive value |
| Merge.MaxFoldUnique | quest_requirements.py:63-65 | those three properties determine the fold's result |
| Merge.MaxFoldGet0 | quest_requirements.py:64 | for every key, the merged value (missing read as 0) is the larger of the two inputs' values |
| Merge.MaxFoldIdempotent | quest_requirements.py:63-65 | folding the same map in a second time changes nothing |
| Merge.MaxFoldCommutes | quest_requirements.py:63-65 | the order in which two maps are folded in does not matter |
| Merge.MaxFoldInto | quest_requirements.py:63-65 | the loop over the merged-in map's items, in any order, computes the fold |
| Catalog.WriteBackReads | quest_requirements.py:56 | writing merged maps back into quests changes neither the prerequisite graph nor the other facet, and the catalog then holds exactly the written maps |
| Catalog.WriteBackTwice | quest_requirements.py:56 | a later write-back of the same facet overrides an earlier one |
| Catalog.PendingShrinks | quest_requirements.py:55-62 | exploring an unchecked catalog quest leaves fewer catalog quests unchecked than when the search began, which bounds the recursion |
| Resolver.MaxVisit | quest_requirements.py:55-66 | a max-folding search adds the query's name to `checked` before anything else, only grows `checked`, and only adds catalog names to it |
| Resolver.QuestVisit | quest_requirements.py:75-84 | the prerequisite search returns a superset of the query's direct prerequisites and only grows `checked` |
| ResolverProperties.QuestSearchClosure | quest_requirements.py:69-84 | the search checks exactly the query and the catalog quests reachable from it without entering the starting `checked` set. It returns exactly the query's direct prerequisites plus every name a reached quest directly requires, including names not in the catalog |
| ResolverProperties.MaxSearchClosure | quest_requirements.py:49-66 | the search checks the query and exactly the reachable quests. The result keeps the query's own keys and values or raises them, bounds every reached quest's original map, and takes each value from the query or from one reached quest. Only reached quests' stored maps change: each keeps its own values or raises them, and none exceeds the result |
| ResolverProperties.MaxLoopChecked | quest_requirements.py:57-62 | a max-folding search checks the same quests as the prerequisite search from the same state |
| ResolverProperties.MaxLoopFrame | quest_requirements.py:56-66 | a max-folding search changes only the stored maps of the quests it newly checks |
| QuestRequirements.FindRecursiveMaxReqs | quest_requirements.py:49-66 | the loop method returns the merged map and the grown `checked` set that `Resolver.MaxVisit` defines, and the catalog with the merged maps written back |
| QuestRequirements.CheckMaxPrereq | quest_requirements.py:57-65 | one loop pass: an absent or checked prerequisite changes nothing. Otherwise the prerequisite is searched from its own map, its result is folded in and stored as its map, and the search continues as the reference loop does |
| QuestRequirements.FindRecursiveSkillReqs | quest_requirements.py:49-66 | the skill search computes `Resolver.MaxVisit` on the skill maps |
| QuestRequirements.FindRecursiveOtherReqs | quest_requirements.py:87-104 | the other search computes `Resolver.MaxVisit` on the other maps |
| Resolver.MaxSkip | quest_requirements.py:58-60 | a prerequisite that is absent from the catalog or already checked is skipped without error and leaves the search's result unchanged |
| Resolver.QuestSkip | quest_requirements.py:78-80 | the same holds for the prerequisite search |
| QuestRequirements.FindRecursiveQuestReqs | quest_requirements.py:69-84 | the returned list has no repetitions and holds exactly the names of `Resolver.QuestVisit`, and `checked` grows as it defines |
| QuestRequirements.CollectQuestReqs | quest_requirements.py:75-83 | the set grown in the loop, seeded with the direct prerequisites, is the set `Resolver.QuestVisit` defines |
| QuestRequirements.CheckQuestPrereq | quest_requirements.py:77-83 | one loop pass: an absent or checked prerequisite changes nothing, and otherwise its recursive result is added to the set |
| QuestRequirements.ListOf | quest_requirements.py:84 | `list(set)` holds each element of the set exactly once |
| QuestRequirements.QuestPointCape | quest_requirements.py:28-38 | the synthetic quest is named "Quest Point Cape", is members-only, has empty skill and other maps, and lists every catalog key exactly once |
| QuestRequirements.GetQuestRequirements | quest_requirements.py:9-25 | the report has one entry, under the query's name. It holds the query's f2p flag, the skill and other maxima of searches started with nothing checked, and the query's direct prerequisite list. The other search sees the other maps unchanged by the skill search |
| ReportProperties.PointCapeReachesAll | quest_requirements.py:34 | a query that directly requires every catalog key reaches the whole catalog |
| ReportProperties.PointCapeMaxRequirements | quest_requirements.py:28-38 | for the whole-catalog query, both merged maps are the pointwise maximum over all catalog quests: each quest's map is bounded by the result, and each result value is positive and declared by some catalog quest |
| ReportProperties.PointCapeQuestRequirements | quest_requirements.py:28-38 | for the whole-catalog query, the prerequisite search returns every catalog key and every name a catalog quest requires |
| ReportProperties.CycleIncludesItself | quest_requirements.py:75-83 | a quest A that requires B, where B requires A, finds "A" among its own recursive prerequisites |
| ReportProperties.TwoQuestCycle | quest_requirements.py:75-83 | on the two-quest catalog A -> B -> A, resolving A returns exactly {"A", "B"} |
| ParseJson.FindRecursiveSkillReqs | parse_json.py:16-33 | without the guard, a successful skill search returns what the guarded search returns. A failed one names a prerequisite that is not in the catalog, required by the query or by a quest that the guarded search from the same state explores. A query with an absent direct prerequisite always fails. When every catalog quest is stored under its own name, the search succeeds exactly when no such dangling name exists. On a catalog where every prerequisite is present, it always succeeds |
| ParseJson.SkillLoop | parse_json.py:24-33 | the unguarded skill loop: a success computes what the guarded loop computes and saw every listed prerequisite present, and with names as keys no quest it explored has an absent prerequisite. A failure names a dangling prerequisite of the list or of a quest that the guarded loop from the same state explores |
| ParseJson.CheckSkillPrereq | parse_json.py:24-32 | one unguarded loop pass: an absent prerequisite fails, a failure below an explored prerequisite is passed up, and a success takes the same step as the guarded loop |
| ParseJson.FindRecursiveQuestReqs | parse_json.py:36-51 | the same guarantees for the prerequisite search, whose successful result is the set of `Resolver.QuestVisit` |
| ParseJson.QuestLoopOf | parse_json.py:43-51 | the unguarded prerequisite loop, with the same guarantees as the skill loop |
| ParseJson.CheckQuestPrereq | parse_json.py:44-50 | one unguarded pass of the prerequisite loop: an absent prerequisite fails, and otherwise it behaves as the skill loop's pass |
| ParseJson.OutcomeFacts | parse_json.py:24-29 | from a loop's guarantees: with names as keys, success holds exactly when no name is dangling. An absent direct prerequisite means failure, and a catalog with every prerequisite present means success |

## Left out

- Reading quests.json (`parse_quests_json`) and the `__main__` blocks: file I/O and printing.
- `Quest.__str__`: display formatting through `json.dumps`.
- The `checked=set()` default persisting across separate top-level calls. The model passes `checked` explicitly, and the report starts each search from the empty set, which is what a first call sees.
- The skill searches pass no `checked` down (quest_requirements.py:61-62, parse_json.py:28-29), so the recursive calls use the function's shared default set. The model threads the caller's set instead. The two agree when the top-level call also used the default, as `get_quest_requirements` does. They differ when a caller passes its own set.
- `checked` holds quest objects compared by identity, while the model compares by name. The two differ only for a query object that shares its name with a different catalog object.
- QuestRequirements.FindRecursiveMaxReqs, QuestRequirements.FindRecursiveSkillReqs, QuestRequirements.FindRecursiveOtherReqs, QuestRequirements.GetQuestRequirements, ParseJson.FindRecursiveSkillReqs: the query's own map becomes the merged result too, because the result is that very dictionary. When the query is itself a catalog entry, as in the `__main__` block of parse_json.py (line 58), the model returns the result but does not write it into that entry. This also holds for the `catalog'` that `GetQuestRequirements` returns. The model holds quests as values and cannot tell which catalog entry, if any, is the same object as the query, so it leaves that write-back out.
- ParseJson.FindRecursiveSkillReqs: on success, the query's own catalog entry keeps its original map (see the write-back line above). After a failure, the catalog and `checked` state the code leaves behind (some maps already raised) is not stated. The exact success condition is proved only when every catalog quest is stored under its own name; otherwise the other guarantees of its contract still hold.
- ParseJson.FindRecursiveQuestReqs: the exact success condition is likewise proved only when every catalog quest is stored under its own name.
- ParseJson.FindRecursiveSkillReqs, ParseJson.FindRecursiveQuestReqs: a failure's dangling name is placed among the quests the guarded search from the same state explores. The model does not show that the failing call reached that quest before it stopped.
- QuestRequirements.ListOf: the order of `list(set)` and the key order of `quest_list.keys()` are not modelled; the lists are stated as sets without repetitions.
- Levels and values are modelled as natural numbers. Booleans in "other" are 1. Negative, fractional or non-numeric values are not modelled.
- Catalog entries are assumed to have `f2p` and all three requirement parts. The `None` that `dict.get` returns for a missing field is not modelled.
