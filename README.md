# Release-branch planner: the rules under the views

The application is a browser prototype for planning release branches. A
user writes an issue name and picks (level, feature, component) cells. The
application then picks a "most stable" version tag, derives branch names,
keeps the stories in an in-memory store, and queues builds behind a level
gate. Finished builds go to a history log that is persisted to storage.

This project models the deterministic rules beneath the views, one module
per source file:

- `NewStory` (src/pages/NewStory.tsx). The form's own tag resolver orders
  tags by highest major, then lowest minor, then lowest patch. The module
  also has the selection toggle, and the submit validation with its
  unique-branch loop; alerts become `SubmitError` results.
- `Tags` and `ContextTag` (src/context/StoryContext.tsx). `ParseTag` is the
  anchored `parseTag`. `ContextTag` is the store's resolver: it groups tags
  by major with a `reduce`, then sorts the top group by patch and ignores
  minor.
- `StoryContext` (src/context/StoryContext.tsx). The branch-name generator,
  and the `StoryStore` class, whose `stories` field is rewritten by
  `addStory`, the five per-branch edits and `removeStory`.
- `StoryView` (src/pages/StoryView.tsx). The expansion of selections with
  filler cards for lower levels, the level gate, the two name helpers, and
  the `BuildQueue` class. That class covers enqueue with the built-levels
  set, and the completion step as an explicit method.
- `HistoryLog` (src/context/BuildHistoryContext.tsx). The
  `BuildHistoryStore` class holds the history and its stored copy.
- `HistoryPage` (src/pages/BuildHistory.tsx) and `StoryList`
  (src/components/StoryList.tsx) hold the read-side filters.
- `StableTagHook` (src/hooks/useStableTag.ts). A tag array sorted in place
  on every call.
- `Auth` (src/context/AuthContext.tsx). The current user and the
  team-space flag.
- Shared modules: `Strings` (ASCII `split`, decimal rendering, `toLowerCase`,
  `includes`, `\s`), `Sorting` (JavaScript's stable comparator sort, both as
  the function `SortSeq` and as the in-place `InsertionSort`), `Filtering`
  (`Array.prototype.filter`), `Naming` (the "first unused `name`, `name_1`,
  `name_2`, ..." loop), `Types` (src/types.ts) and `Wrappers`.

The three tag resolvers disagree, and each is modelled as written:

- `NewStory.MostStableTag` prefers the lowest minor.
- `ContextTag.MostStableTag` ignores minor.
- `StableTagHook` ignores minor, and it reorders its array.

## Model

| member | source | states |
|---|---|---|
| `NewStory.MostStableTag` | src/pages/NewStory.tsx:21-43 | the result is null exactly when the tag list is empty |
| `NewStory.MostStableTagBest` | src/pages/NewStory.tsx:24-42 | for well-formed tags, the result is an input tag with the greatest major; within that major it has the least minor, then the least patch |
| `NewStory.UniqueBest` | src/pages/NewStory.tsx:36-42 | a tag strictly preferred to every other input is the one returned |
| `NewStory.MainStableTag` | src/pages/NewStory.tsx:16-19 | on `main` the form picks `v2.0.0` |
| `NewStory.DevStableTag` | src/pages/NewStory.tsx:16-19 | on `dev` the form picks `v0.1.0` (lowest minor wins) |
| `NewStory.BuiltinTagsWellFormed` | src/pages/NewStory.tsx:16-19 | every tag of the built-in table is well-formed |
| `NewStory.IndexOf` | src/pages/NewStory.tsx:52-54 | `findIndex` gives -1 iff the triple is absent, else the index of its first occurrence |
| `NewStory.ToggleAbsent` | src/pages/NewStory.tsx:58-59 | toggling an absent triple appends it at the end |
| `NewStory.TogglePresent` | src/pages/NewStory.tsx:56-57 | toggling a present triple removes only its first occurrence and keeps the order of the rest |
| `NewStory.ToggleTwice` | src/pages/NewStory.tsx:51-61 | toggling an absent triple twice restores the list |
| `NewStory.ToggleKeepsDistinct` | src/pages/NewStory.tsx:51-61 | toggling keeps the list free of duplicate triples |
| `NewStory.ToggleFlipsSelected` | src/pages/NewStory.tsx:51-67 | toggling flips `isSelected` of the clicked triple |
| `NewStory.ToggleKeepsOthers` | src/pages/NewStory.tsx:51-67 | toggling leaves `isSelected` of every other triple unchanged |
| `NewStory.Toggled` | src/pages/NewStory.tsx:51-61 | one copy of the clicked triple leaves the list when present and joins it when absent; the multiset of the others is unchanged |
| `NewStory.NewStoryForm.Toggle` | src/pages/NewStory.tsx:51-61 | the selections state becomes the toggled list; the topic is unchanged; without duplicates, `isSelected` flips for the clicked triple; it stays the same for every other triple |
| `NewStory.NewStoryForm.IsSelected` | src/pages/NewStory.tsx:63-67 | the field-by-field `some` holds iff the triple is in the selection list |
| `NewStory.TopicShapeIff` | src/pages/NewStory.tsx:72-78 | the pattern `^[^_]+_[^_]+$` holds iff `split('_')` gives exactly two non-empty pieces |
| `NewStory.Sides` | src/pages/NewStory.tsx:77 | a well-shaped topic is `newBranch + "_" + baseBranch`, both sides non-empty and without `_` |
| `NewStory.TakenBranches` | src/pages/NewStory.tsx:95 | one name per story, each the part of its topic before the first `_` |
| `NewStory.RetriesAtMostOnce` | src/pages/NewStory.tsx:93-98 | taken names have no `_` and retried names do, so the loop runs at most once |
| `NewStory.NewStoryForm.Submit` | src/pages/NewStory.tsx:72-101 | a bad topic, no selections, an unknown base branch or an empty tag list are each rejected with their own error; otherwise the topic is the least unused `newBranch`, `newBranch_1`, ... joined to the base branch, and the logged branch is that name joined to the stable tag |
| `Naming.FirstUnused` | src/context/StoryContext.tsx:36-44 | the loop ends after at most as many retries as there are taken names, and returns the least unused candidate |
| `Naming.UnusedExists` | src/context/StoryContext.tsx:40-42 | among the first n+1 candidates one is not among n taken names, so the loop terminates |
| `Naming.CandidateInjective` | src/context/StoryContext.tsx:41 | distinct counters give distinct candidates |
| `Tags.ParseTagComplete` | src/context/StoryContext.tsx:9-18 | every `v<digits>.<digits>.<digits>` parses to its three numbers |
| `Tags.ParseTagSound` | src/context/StoryContext.tsx:9-18 | only strings that fully match the pattern parse, and they parse to their digit values |
| `Tags.ParseFormat` | src/context/StoryContext.tsx:9-18 | rendering a version and parsing it back gives the version |
| `ContextTag.ParseValid` | src/context/StoryContext.tsx:21 | the parsed records are exactly those of the well-formed input tags |
| `ContextTag.GroupByMajor` | src/context/StoryContext.tsx:22-26 | the `reduce` builds one group per major present, each in input order |
| `ContextTag.ChoiceBest` | src/context/StoryContext.tsx:20-31 | the choice is a well-formed input tag of the highest major, with the least patch in that major; invalid tags are ignored and minor is not consulted |
| `ContextTag.SortedTopGroup` | src/context/StoryContext.tsx:29 | sorting the top group by patch puts the choice first (stable sort: earliest of the least patch) |
| `ContextTag.MostStableTag` | src/context/StoryContext.tsx:20-31 | given a well-formed tag, returns the chosen tag through grouping, max and in-place sort |
| `ContextTag.BuiltinChoice` | src/context/StoryContext.tsx:7 | with the store's built-in list the result is `v3.0.0` |
| `StoryContext.Slug` | src/context/StoryContext.tsx:47 | the slug has no whitespace and no upper-case letter |
| `StoryContext.SlugIdempotent` | src/context/StoryContext.tsx:47 | slugging twice is slugging once |
| `StoryContext.BranchName` | src/context/StoryContext.tsx:46-48 | the first `_`-segment of a branch name is the level; with a `_`-free component, the name splits into level, component, `feature<n>` and the slug's pieces |
| `StoryContext.StoryStore.UniqueTopicName` | src/context/StoryContext.tsx:36-44 | the name is no existing topic; it is `topic` or the first free `topic_k` |
| `StoryContext.StoryStore.AddStory` | src/context/StoryContext.tsx:50-75 | appends exactly one story, keeps the earlier ones, and gives the new one a fresh least-suffix topic, the caller's id and time, and one created status per selection with tag `v3.0.0` and the issue name's first `_`-segment as base branch |
| `StoryContext.AppendKeepsValid` | src/context/StoryContext.tsx:50-75 | appending a story with a fresh topic keeps topics distinct and one status per selection |
| `StoryContext.EditStories` | src/context/StoryContext.tsx:78-88 | the `map` keeps the number of stories |
| `StoryContext.EditOnlyTarget` | src/context/StoryContext.tsx:77-152 | an edit changes only stories with that id, and in them only the entry at the index; count and order are unchanged |
| `StoryContext.EditKeepsValid` | src/context/StoryContext.tsx:77-152 | every edit keeps the store's invariant |
| `StoryContext.SetCreatedEntry` | src/context/StoryContext.tsx:77-89 | `updateBranchStatus` changes only `created` |
| `StoryContext.SetTagEntry` | src/context/StoryContext.tsx:91-109 | `updateBranchTag` sets the tag and regenerates the name from topic and selection |
| `StoryContext.TagOverridesName` | src/context/StoryContext.tsx:91-123 | renaming and then re-tagging equals re-tagging alone |
| `StoryContext.DeleteEntry` | src/context/StoryContext.tsx:139-152 | `deleteBranch` clears `created` and the base branch and keeps tag and name |
| `StoryContext.StoryStore.UpdateBranchStatus` | src/context/StoryContext.tsx:77-89 | the stories become the status edit of the old ones |
| `StoryContext.StoryStore.UpdateBranchTag` | src/context/StoryContext.tsx:91-109 | the stories become the tag edit of the old ones |
| `StoryContext.StoryStore.UpdateBranchName` | src/context/StoryContext.tsx:111-123 | the stories become the name edit of the old ones |
| `StoryContext.StoryStore.UpdateBaseBranch` | src/context/StoryContext.tsx:125-137 | the stories become the base-branch edit of the old ones |
| `StoryContext.StoryStore.DeleteBranch` | src/context/StoryContext.tsx:139-152 | the stories become the delete edit of the old ones |
| `StoryContext.Remove` | src/context/StoryContext.tsx:153-155 | `removeStory` drops every story with the id and keeps the others in order |
| `StoryContext.RemoveKeepsValid` | src/context/StoryContext.tsx:153-155 | removal keeps topics distinct |
| `StoryContext.StoryStore.RemoveStory` | src/context/StoryContext.tsx:153-155 | the stories become the filtered old stories |
| `StoryView.FullSelections` | src/pages/StoryView.tsx:58-81 | after the sort by level, the cards rise strictly in level; fillers sit at levels no selection has; each picked card is the first selection at its level; every selection level has a card |
| `StoryView.FullSelectionsLevels` | src/pages/StoryView.tsx:65-80 | when every level is at least 1, the card levels are exactly 1 up to the highest selection level: no card without selections, and no selection above the last card |
| `StoryView.HighestLevel` | src/pages/StoryView.tsx:58-62 | the last level of the level sort is 0 for no selections, else the level of some selection that no selection exceeds |
| `StoryView.PushFillers` | src/pages/StoryView.tsx:65-76 | the inner loop pushes one filler for each unseen level below the selection's, in order |
| `StoryView.ExpandSorted` | src/pages/StoryView.tsx:64-81 | the `forEach` over level-sorted selections yields the promised expansion |
| `StoryView.FormattedBranchName` | src/pages/StoryView.tsx:23-26 | the formatted name splits into `feature<n>` and the topic's first `_`-segment |
| `StoryView.BaseBranch` | src/pages/StoryView.tsx:28-31 | the base branch is never empty and has no `/` |
| `StoryView.BaseBranchNoSlash` | src/pages/StoryView.tsx:28-31 | a topic without `/` has base branch `main` |
| `StoryView.BaseBranchSecond` | src/pages/StoryView.tsx:28-31 | the base branch is the second `/`-segment, or `main` when that segment is empty |
| `StoryView.GateClosed` | src/pages/StoryView.tsx:118-119 | a level other than 1 whose lower level is not built is closed |
| `StoryView.BuildQueue.CanBuildLevel` | src/pages/StoryView.tsx:118-119 | a level is open iff it is 1 or some queued item sits at the level below it |
| `StoryView.BuildQueue.IsInQueue` | src/pages/StoryView.tsx:120-122 | `isInQueue` holds iff some queued item has the level and component, and then the level is built and the level above is open |
| `StoryView.EnqueueUnlocks` | src/pages/StoryView.tsx:40-42 | adding a level to the built set opens the level above and closes none |
| `StoryView.FirstSlot` | src/pages/StoryView.tsx:47-49 | -1 iff `isInQueue` is false, else the first matching index |
| `StoryView.CompleteFirst` | src/pages/StoryView.tsx:45-54 | completion keeps the length, sets "Completed" on only the first item matching (level, component), and changes nothing when none matches |
| `StoryView.CompleteFirstKeepsSlots` | src/pages/StoryView.tsx:45-54 | completion leaves `isInQueue` unchanged for every pair |
| `StoryView.BuildQueue.Enqueue` | src/pages/StoryView.tsx:40-42 | `handleBuildQueueAdd` given an item: appends it, duplicates included, and adds its level to the built levels, so the level above opens |
| `StoryView.BuildQueue.FindSlot` | src/pages/StoryView.tsx:47-49 | the loop finds the first item with the level and component, or -1 |
| `StoryView.BuildQueue.Complete` | src/pages/StoryView.tsx:44-55 | the queue becomes the completion of the old queue; built levels are unchanged |
| `HistoryLog.StatusNameInjective` | src/context/BuildHistoryContext.tsx:9 | the three statuses have distinct names, none of them "All" |
| `HistoryLog.BuildHistoryStore.constructor` | src/context/BuildHistoryContext.tsx:21-24 | the initial history is the stored list when present, else empty |
| `HistoryLog.BuildHistoryStore.Mount` | src/context/BuildHistoryContext.tsx:34-37 | after mount the stored copy equals the history |
| `HistoryLog.BuildHistoryStore.Add` | src/context/BuildHistoryContext.tsx:26-31 | the history becomes old + [entry], earlier entries untouched, and the stored copy equals it |
| `HistoryLog.AppendAllExtends` | src/context/BuildHistoryContext.tsx:26-32 | appending entries one at a time yields the old history followed by the entries |
| `HistoryLog.Session` | src/context/BuildHistoryContext.tsx:21-37 | load, mount and any number of appends leave the initial history plus the entries, stored copy in sync |
| `HistoryPage.FilteredHistory` | src/pages/BuildHistory.tsx:11-18 | the view keeps exactly the entries that match the search and the status, as an order-preserving subsequence |
| `HistoryPage.EmptySearchShowsAll` | src/pages/BuildHistory.tsx:12-16 | an empty search with "All" returns the whole history |
| `HistoryPage.UntaggedMatch` | src/pages/BuildHistory.tsx:15 | an entry without a tag matches only through component or branch |
| `HistoryPage.FilteredHistoryIdempotent` | src/pages/BuildHistory.tsx:11-18 | filtering the result again changes nothing |
| `HistoryPage.StatusFilterExact` | src/pages/BuildHistory.tsx:16 | with a status filter, every shown entry has that status |
| `StoryList.FilteredStories` | src/components/StoryList.tsx:11-13 | keeps exactly the stories whose lowercased topic contains the lowercased query, in order |
| `StoryList.EmptyQueryShowsAll` | src/components/StoryList.tsx:12 | an empty query lists every story |
| `StoryList.FilteredStoriesIdempotent` | src/components/StoryList.tsx:11-13 | filtering the result again changes nothing |
| `StoryList.QueryCaseInsensitive` | src/components/StoryList.tsx:12 | the query's case does not matter |
| `StableTagHook.AfterIsOrder` | src/hooks/useStableTag.ts:8 | the comparator is a consistent ordering, so the sort is well defined |
| `StableTagHook.SortFrontBest` | src/hooks/useStableTag.ts:6-10 | the front is an input tag with the highest major and the least patch in that major |
| `StableTagHook.SameTagsSameKey` | src/hooks/useStableTag.ts:5-11 | any two arrangements of the same tags give fronts with the same major and patch |
| `StableTagHook.SecondCallSameTag` | src/hooks/useStableTag.ts:5-11 | sorting the sorted array again returns the same front |
| `StableTagHook.BuiltinFront` | src/hooks/useStableTag.ts:3-10 | every arrangement of the built-in list yields `v3.0.0` |
| `StableTagHook.StableTagSource.GetMostStableTag` | src/hooks/useStableTag.ts:5-11 | sorts the array in place into a permutation of itself and returns its new first element, `v3.0.0` |
| `Auth.Switched` | src/context/AuthContext.tsx:40-44 | the next user is a mock user with a different id |
| `Auth.SwitchTwice` | src/context/AuthContext.tsx:40-44 | switching twice from a mock user restores it |
| `Auth.AuthState.constructor` | src/context/AuthContext.tsx:19-34 | the initial state is user123/Jeeva/Maintainer in the team space |
| `Auth.AuthState.ToggleSpace` | src/context/AuthContext.tsx:37 | negates the team-space flag, keeps the user |
| `Auth.AuthState.SwitchUser` | src/context/AuthContext.tsx:40-44 | user123 goes to user456 and anyone else to user123; the flag is unchanged and the user stays a mock user |
| `Auth.ToggleSpaceTwice` | src/context/AuthContext.tsx:37 | two toggles restore the state |
| `Auth.SwitchUserTwice` | src/context/AuthContext.tsx:40-44 | two switches restore the state |

## Left out

- Rendering, styling and routing: the JSX of every page, and all of
  src/App.tsx, Dashboard, Header, StoryCard and StoryLevel.
- src/components/BuildCard.tsx is not part of this model. It is
  presentation, plus an asynchronous clipboard write.
- The page as wired. BuildCard.tsx:64 binds `onClick={onBuild}`, so
  `handleBuildQueueAdd` receives the click event, not a build item. The
  event has no `level` and no `component`. As a result:
  - the queue gains event objects;
  - `builtLevels` only ever gains `undefined`, so `canBuild` stays false
    for every level above 1;
  - `isInQueue` never becomes true for a card;
  - the completion step marks the first queued event, since `undefined`
    matches `undefined`.
  `BuildQueue.Enqueue`, `EnqueueUnlocks`, `CanBuildLevel` and `IsInQueue`
  describe the handler when it is given an item. The model assumes that
  item carries the card's level, feature and component with no status.
  The running page never passes such an item.
- The 5-second timer in front of the completion step. `Complete` is an
  explicit step with no time. The source has no progress ticking, no
  cancel, no retry and no Failed transition, so none is modelled.
- Storage and JSON. The stored copy is the field `stored`, and JSON is
  taken to round-trip exactly. An empty stored string counts as an absent
  key.
- `crypto.randomUUID()` and `new Date()`. `AddStory` takes the id and the
  creation time as parameters.
- `alert` and `console.log`. `Submit` returns error results, and the
  logged branch is a field of the success result.
- The form calls `addStory` without `issueName`. `AddStory` takes the
  declared input type, which has `issueName`, so `Submit` returns the story
  fields rather than calling the store.
- Malformed tags, whose behaviour depends on NaN and `undefined`. The form
  resolver and the hook require well-formed tags. The store resolver
  requires at least one well-formed tag. `StableTagHook.Key` maps any other
  string to 0.0.0, which no reachable input uses.
- `toLowerCase` and `\s` are modelled on ASCII only.
- Out-of-range `selectionIndex` values. The edits require the index to be
  in range. In the source, `updateBranchTag` then throws a `TypeError`,
  because it reads `story.selections[selectionIndex].level`. The other four
  edits, given an index at or past the end, lengthen the array; an index
  past the end also leaves holes before the new entry. Given a negative
  index, they set a property that is not an array index, and the array
  keeps its length.
- StoryView sorts `story.selections` in place, which reorders the array
  held by the stored story. `FullSelections` sorts a fresh copy of the
  selections instead, so that aliasing is not captured.
- React context and provider plumbing, and the hooks that throw outside a
  provider.
- Behaviour the code does not have, and the model therefore does not
  either:
  - enqueue does not deduplicate;
  - a level unlocks when it is enqueued, not when it completes;
  - branch names have no issue-keyword classification;
  - the three resolvers break ties differently.
- NewStory.NewStoryForm.Submit: the table lookup is modelled as own keys
  only. A base branch that names an inherited `Object.prototype` member is
  not modelled. In the source, `toString`, `valueOf` and `toLocaleString`
  lead to the "Unable to determine the most stable tag" alert.
  `constructor`, `hasOwnProperty`, `isPrototypeOf` and
  `propertyIsEnumerable` crash with a `TypeError`. The names with
  underscores already fail the topic pattern.
- NewStory.MostStableTagBest: numbers are unbounded naturals. The source
  compares JavaScript doubles, so the contract matches it only for numbers
  below 2^53. Larger numbers lose precision, and very long digit runs parse
  to `Infinity`.
- ContextTag.ChoiceBest: the same limit to numbers below 2^53.
- StableTagHook.SortFrontBest: the same limit to numbers below 2^53.
- StoryContext.StoryStore.UniqueTopicName: the source reads the `stories`
  value of the last render. Distinct topics therefore assume that no two
  `addStory` calls happen before a re-render. The model reads the current
  field.
