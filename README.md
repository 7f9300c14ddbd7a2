# Sentry: projects store, guide anchors and generic grouping strategies

This project models three parts of Sentry in Dafny and proves properties of
the models.

- **`Projects`** (`projects_store.dfy`) models the web front end's projects store.
  - The store is a JavaScript object `itemsById` that maps keys to project records.
  - Its key order is kept explicitly, because `Object.values` visits keys in that order and `getAll`, `getById`, `getBySlug` and `getAllGroupedByOrganization` depend on it.
  - It is written as a class whose action handlers reassign the object and return the notification they would `trigger`.
  - That notification is a set of ids, or nothing, or the `TypeError` that `updateSuccess` raises on an unknown id.
- **`Assistant`** (`guide_anchor.dfy`) models the guide anchor component of the onboarding assistant.
  - Each anchor has a target and a type.
  - It becomes active when the current guide step names its target, unless it is invisible.
  - It asks to be scrolled into view when it changes from inactive to active.
  - Anchors register while mounted, and a guide-store update is delivered to every registered anchor.
- **`GenericStrategies`** (`generic_strategies.dfy`) models the generic grouping strategies for exceptions and stacktraces.
  - It covers which frames of a stacktrace are hashed (in-app frames only, and the 10% rule).
  - It covers which values each frame contributes to the grouping hasher, and in which order: module or base file name, stripped source line, then symbol or function, but only after something else was contributed.
  - It covers how the exception strategy delegates to nested strategies.
  - The hasher is a class that records its contributions.

`wrappers.dfy` holds the `Option` datatype.

Most stateful operations are methods proved against pure functions: `Put`,
`Values`, `FindIndex`, `FromItems`, `GroupAll`, `IsActive`,
`FrameContributions`, `FramesContributions` and `StacktraceContributions`.
The lemmas state what the source promises about those functions.

`onUpdateSuccess` for an id the store does not hold calls
`Object.assign(undefined, data)`, which throws a `TypeError` before `trigger`
runs. The model returns `TypeError` and leaves the store unchanged.

## Model

| member | source | states |
|---|---|---|
| Projects.Put | src/sentry/static/sentry/app/stores/projectsStore.jsx:50 | assigning a key keeps the object's key order a duplicate-free list of its keys; a new key goes last, an existing key keeps its place, and the entry is overwritten |
| Projects.Values | src/sentry/static/sentry/app/stores/projectsStore.jsx:71-73 | `Object.values` lists one record per key, the record at each position being the entry of the key at that position |
| Projects.ValuesSnoc | src/sentry/static/sentry/app/stores/projectsStore.jsx:71-73 | `Object.values` of an object with one more key at the end lists that key's record last, after the others in their order |
| Projects.ValuesOfUnlisted | src/sentry/static/sentry/app/stores/projectsStore.jsx:71-73 | storing under a key that is not listed leaves `Object.values` unchanged |
| Projects.ValuesOfListed | src/sentry/static/sentry/app/stores/projectsStore.jsx:71-73 | storing under the key at one position of a duplicate-free key list changes the value at that position and no other |
| Projects.ValuesOfPutNew | src/sentry/static/sentry/app/stores/projectsStore.jsx:50 | after assigning a key the object did not have, the values are the old values followed by the new record |
| Projects.ValuesOfPutExisting | src/sentry/static/sentry/app/stores/projectsStore.jsx:64 | after assigning an existing key, the values are the old values with that key's position replaced |
| Projects.Assign | src/sentry/static/sentry/app/stores/projectsStore.jsx:56 | `Object.assign(project, data)`: the record takes the update's id and each field the update carries, its stats included; the fields the update does not carry are kept |
| Projects.FindIndex | src/sentry/static/sentry/app/stores/projectsStore.jsx:90-96 | `Array.find`: the answer is the first position whose key matches; none exactly when no element matches |
| Projects.FindIndexInPrefix | src/sentry/static/sentry/app/stores/projectsStore.jsx:90-96 | a match found in a prefix is the one found in any extension of it |
| Projects.FirstMatchAt | src/sentry/static/sentry/app/stores/projectsStore.jsx:90-96 | a match with none before it is the one `Array.find` answers |
| Projects.FindIndexAppended | src/sentry/static/sentry/app/stores/projectsStore.jsx:90-96 | appending a record leaves every first match alone, except for an unmatched id that the record carries |
| Projects.FindIndexReplacedOther | src/sentry/static/sentry/app/stores/projectsStore.jsx:90-96 | replacing a record that is not an id's first match, by one without that id, leaves that id's first match alone |
| Projects.FindIndexSameIds | src/sentry/static/sentry/app/stores/projectsStore.jsx:90-92 | two lists with the same id at every position answer `getById` alike |
| Projects.FirstMatchReplaced | src/sentry/static/sentry/app/stores/projectsStore.jsx:90-92 | a record put at a position that no earlier record's id matches becomes the first with its id |
| Projects.FirstMatchAppended | src/sentry/static/sentry/app/stores/projectsStore.jsx:90-92 | a record appended after records that all lack its id becomes the first with its id |
| Projects.FirstMatchReplacedSameId | src/sentry/static/sentry/app/stores/projectsStore.jsx:54-58 | a record put in place of an id's first match, keeping the id, is that id's first match |
| Projects.FindByIdIsLookup | src/sentry/static/sentry/app/stores/projectsStore.jsx:90-92 | while every record sits under its own id, `getById` finds a record exactly when the id is a key, and finds the one under that key |
| Projects.FromItems | src/sentry/static/sentry/app/stores/projectsStore.jsx:20-23 | the reduce builds a well-formed object |
| Projects.FromItemsKeys | src/sentry/static/sentry/app/stores/projectsStore.jsx:19-24 | the keys of the object built by `loadInitialData` are exactly the items' ids, each holding a record with that id |
| Projects.FromItemsLastWins | src/sentry/static/sentry/app/stores/projectsStore.jsx:20-23 | among items with the same id, the last one is the one stored |
| Projects.Members | src/sentry/static/sentry/app/stores/projectsStore.jsx:76-79 | the records of one organization hold exactly the occurrences of the records with that organization slug |
| Projects.GroupStep | src/sentry/static/sentry/app/stores/projectsStore.jsx:77-86 | one step of the reduce: the record joins the group of its organization slug, or opens it with its organization when the slug is new; what a step adds is stated by GroupStepPermutation |
| Projects.GroupAll | src/sentry/static/sentry/app/stores/projectsStore.jsx:75-88 | the reduce over `getAll()` from `{}`; what it builds is stated by GroupAllKeys, GroupAllMembers, GroupAllOrganization, GroupAllPermutation and GroupAllFirstMetOrder |
| Projects.GroupAllKeys | src/sentry/static/sentry/app/stores/projectsStore.jsx:75-88 | grouping opens exactly one group per organization slug met, and lists each slug once |
| Projects.GroupAllMembers | src/sentry/static/sentry/app/stores/projectsStore.jsx:78-79 | each group holds exactly the records of its organization, in `getAll()` order |
| Projects.GroupAllOrganization | src/sentry/static/sentry/app/stores/projectsStore.jsx:80-85 | a group's organization object is that of the first record met with its slug |
| Projects.FirstMetOrderExtend | src/sentry/static/sentry/app/stores/projectsStore.jsx:76-79 | a record met later keeps every slug's first record where it was, so the order of first encounter is kept, and that record comes after all of them |
| Projects.FirstMetOrderExtendNew | src/sentry/static/sentry/app/stores/projectsStore.jsx:80-85 | a record whose slug has not been met before puts its slug last, and the slugs stay in the order of first encounter |
| Projects.GroupAllFirstMetOrder | src/sentry/static/sentry/app/stores/projectsStore.jsx:75-88 | every group's slug is that of some record in `getAll()`, and the groups are listed in the order their slugs are first met there |
| Projects.GroupStepPermutation | src/sentry/static/sentry/app/stores/projectsStore.jsx:76-87 | one step of the reduce adds exactly the record stepped over to the union of the groups |
| Projects.GroupAllPermutation | src/sentry/static/sentry/app/stores/projectsStore.jsx:75-88 | the union of the groups, in first-met order, is a permutation of `getAll()` |
| Projects.CreateThenGetById | src/sentry/static/sentry/app/stores/projectsStore.jsx:49-52 | after `createSuccess(p)`, `getById(p.id)` answers `p`, on every store where each id's first record sits under that id: after loading, and after any run of creates, updates, stats loads and slug changes to a slug that is not yet a key |
| Projects.UpdateThenGetById | src/sentry/static/sentry/app/stores/projectsStore.jsx:54-58 | on every store that holds a record with the id, after `updateSuccess(d)` `getById(d.id)` answers the first such record merged with `d`, at the place that record held |
| Projects.ChangeSlugLeavesOldRecordFirst | src/sentry/static/sentry/app/stores/projectsStore.jsx:27-47 | a slug change to a new key appends the copy and keeps the old entry: `getBySlug` of the old slug still answers the old record, and `getById` answers what it did before |
| Projects.KeysMatchIdsFirstUnderOwnId | src/sentry/static/sentry/app/stores/projectsStore.jsx:19-25 | a store whose records all sit under their own ids, as loading leaves it, has each id's first record under that id |
| Projects.NoEarlierWithOwnId | src/sentry/static/sentry/app/stores/projectsStore.jsx:90-92 | on such a store, no record before the key `id` carries `id` |
| Projects.NoneWithoutOwnKey | src/sentry/static/sentry/app/stores/projectsStore.jsx:90-92 | on such a store, an id that is no key is carried by no record |
| Projects.FirstUnderAppended | src/sentry/static/sentry/app/stores/projectsStore.jsx:35-50 | appending a record under its own id, or under any key when an earlier record already has its id, keeps each id's first record under that id |
| Projects.FirstUnderReplacedOwnKey | src/sentry/static/sentry/app/stores/projectsStore.jsx:50 | replacing the record under key `p.id` by `p` keeps each id's first record under that id |
| Projects.FirstUnderSameIds | src/sentry/static/sentry/app/stores/projectsStore.jsx:56-64 | records changed without changing any id keep each id's first record under that id |
| Projects.FirstUnderReplacedSameId | src/sentry/static/sentry/app/stores/projectsStore.jsx:56 | replacing one record by one with the same id keeps each id's first record under that id |
| Projects.CreateKeepsFirstUnderOwnId | src/sentry/static/sentry/app/stores/projectsStore.jsx:49-52 | `createSuccess` keeps each id's first record under that id |
| Projects.UpdateKeepsFirstUnderOwnId | src/sentry/static/sentry/app/stores/projectsStore.jsx:54-58 | `updateSuccess` keeps each id's first record under that id |
| Projects.StatsKeepFirstUnderOwnId | src/sentry/static/sentry/app/stores/projectsStore.jsx:60-69 | a change that moves no key and changes no record's id, as `statsLoadSuccess` makes, keeps each id's first record under that id |
| Projects.ValuesKeepIds | src/sentry/static/sentry/app/stores/projectsStore.jsx:60-69 | records changed under the same keys without changing any id list the same ids in the same order |
| Projects.ChangeSlugKeepsFirstUnderOwnId | src/sentry/static/sentry/app/stores/projectsStore.jsx:27-47 | a slug change to a slug that is not yet a key keeps each id's first record under that id, because the copy comes after the record it copies |
| Projects.ProjectsStore.constructor | src/sentry/static/sentry/app/stores/projectsStore.jsx:7-8 | a new store is empty |
| Projects.ProjectsStore.Reset | src/sentry/static/sentry/app/stores/projectsStore.jsx:15-17 | `reset` empties the store |
| Projects.ProjectsStore.GetAll | src/sentry/static/sentry/app/stores/projectsStore.jsx:71-73 | the records, one per key, in key order |
| Projects.ProjectsStore.GetById | src/sentry/static/sentry/app/stores/projectsStore.jsx:90-92 | the first record of `getAll()` with the id; not found exactly when none has it |
| Projects.ProjectsStore.GetBySlug | src/sentry/static/sentry/app/stores/projectsStore.jsx:94-96 | the first record of `getAll()` with the slug; not found exactly when none has it |
| Projects.ProjectsStore.GetAllGroupedByOrganization | src/sentry/static/sentry/app/stores/projectsStore.jsx:75-88 | one group per organization slug of the records; each group has exactly the records of its organization in order; together they are a permutation of `getAll()`; the groups are listed in the order their slugs are first met in `getAll()` |
| Projects.ProjectsStore.LoadInitialData | src/sentry/static/sentry/app/stores/projectsStore.jsx:19-25 | the store becomes the object built from the items whatever it held before, so loading twice gives the same store; every record sits under its id; the notification names exactly the items' ids; each id's first record sits under that id |
| Projects.ProjectsStore.OnChangeSlug | src/sentry/static/sentry/app/stores/projectsStore.jsx:27-47 | an unknown old slug changes nothing and notifies nothing; otherwise a copy with the new slug is stored under the new slug as key, nothing is removed, and the record's id is notified; a change to a slug that is not yet a key keeps each id's first record under that id |
| Projects.ProjectsStore.OnCreateSuccess | src/sentry/static/sentry/app/stores/projectsStore.jsx:49-52 | the record is stored under its id, replacing any record there; every record still sits under its id; the id is notified; each id's first record stays under that id if it was |
| Projects.ProjectsStore.OnUpdateSuccess | src/sentry/static/sentry/app/stores/projectsStore.jsx:54-58 | an unknown id raises a TypeError and changes nothing; otherwise the first record with the id is merged with the update in place, no key is added, and the id is notified; each id's first record stays under that id if it was |
| Projects.ProjectsStore.OnStatsLoadSuccess | src/sentry/static/sentry/app/stores/projectsStore.jsx:60-69 | no key is added or removed; exactly the listed records the store holds get their stats; the notification is the intersection of the listed ids and the store's ids, and empty when there is no data |
| Assistant.StepReadable | src/sentry/static/sentry/app/components/assistant/guideAnchor.jsx:52 | the step the handler reads exists: with a guide present and a positive step, the step is at most the number of the guide's steps |
| Assistant.IsActive | src/sentry/static/sentry/app/components/assistant/guideAnchor.jsx:49-55 | the activation rule: a guide is present, the step is positive, that step's target is the anchor's target, and the anchor is not invisible; OnGuideStateChange and InvisibleNeverActive state what it means for the anchor |
| Assistant.ScrollRequested | src/sentry/static/sentry/app/components/assistant/guideAnchor.jsx:37 | the edge rule: inactive before, active now, and not invisible; ComponentDidUpdate and ScrollsAtRisingEdges state what it means for the anchor |
| Assistant.InvisibleNeverActive | src/sentry/static/sentry/app/components/assistant/guideAnchor.jsx:53-55 | an invisible anchor is never active |
| Assistant.Scrolls | src/sentry/static/sentry/app/components/assistant/guideAnchor.jsx:36-42 | one scroll decision per update delivered |
| Assistant.FinalActive | src/sentry/static/sentry/app/components/assistant/guideAnchor.jsx:48-61 | after a run of updates the flag depends on the last update alone |
| Assistant.ScrollsAtRisingEdges | src/sentry/static/sentry/app/components/assistant/guideAnchor.jsx:36-42 | over any run of updates an anchor asks for a scroll exactly at the updates that make it active when it was not active before |
| Assistant.NoScrollOnRepeatOrInvisible | src/sentry/static/sentry/app/components/assistant/guideAnchor.jsx:37 | a repeated update never asks for a second scroll, and an invisible anchor never asks for one |
| Assistant.GuideAnchor.constructor | src/sentry/static/sentry/app/components/assistant/guideAnchor.jsx:26-30 | an anchor starts inactive |
| Assistant.GuideAnchor.OnGuideStateChange | src/sentry/static/sentry/app/components/assistant/guideAnchor.jsx:48-61 | active exactly when a guide is present, the step is positive, the step's target is the anchor's target and the anchor is not invisible |
| Assistant.GuideAnchor.ComponentDidUpdate | src/sentry/static/sentry/app/components/assistant/guideAnchor.jsx:36-42 | scroll exactly on a change from inactive to active of a visible anchor |
| Assistant.GuideAnchor.Receive | src/sentry/static/sentry/app/components/assistant/guideAnchor.jsx:36-61 | one update: the new flag follows the activation rule, and the scroll follows the edge rule applied to the flag from before |
| Assistant.GuideAnchor.ComponentDidMount | src/sentry/static/sentry/app/components/assistant/guideAnchor.jsx:32-34 | an unmounted anchor becomes mounted and is added to the registered anchors; the registry still holds exactly its mounted anchors |
| Assistant.GuideAnchor.ComponentWillUnmount | src/sentry/static/sentry/app/components/assistant/guideAnchor.jsx:44-46 | a registered anchor becomes unmounted and is removed from the registered anchors; the registry still holds exactly its mounted anchors |
| Assistant.AnchorRegistry.Register | src/sentry/static/sentry/app/components/assistant/guideAnchor.jsx:32-34 | `registerAnchor`: the anchor is marked mounted and added; of the anchors the registry has seen, it holds exactly the mounted ones |
| Assistant.AnchorRegistry.Unregister | src/sentry/static/sentry/app/components/assistant/guideAnchor.jsx:44-46 | `unregisterAnchor`: the anchor is marked unmounted and removed; of the anchors the registry has seen, it still holds exactly the mounted ones |
| Assistant.AnchorRegistry.Broadcast | src/sentry/static/sentry/app/components/assistant/guideAnchor.jsx:24 | every registered anchor follows the activation rule; anchors with the same target and type end equally active; the scrolling anchors are exactly those with a rising edge; the registered anchors stay the same |
| GenericStrategies.JsonTruthy | src/sentry/grouping/strategies/generic.py:33-35 | Python's `bool` of a JSON value: false exactly for null, `false`, zero and the empty string, list and object |
| GenericStrategies.Truthy | src/sentry/grouping/strategies/generic.py:122 | a frame attribute is truthy exactly when present and non-empty |
| GenericStrategies.StracktraceStrategyId | src/sentry/grouping/strategies/generic.py:25-29 | the in-app exception strategy delegates to the in-app stacktrace strategy and every other one to the complete stacktrace strategy |
| GenericStrategies.ExceptionDelegatesToSameMode | src/sentry/grouping/strategies/generic.py:25-29 | the stacktrace strategy delegated to is in-app exactly when the exception strategy is the in-app one |
| GenericStrategies.ExceptionIsApplicable | src/sentry/grouping/strategies/generic.py:31-35 | applicable exactly when the event has the exception interface and its `values` is present and truthy |
| GenericStrategies.StacktraceIsApplicable | src/sentry/grouping/strategies/generic.py:85-87 | applicable exactly when the event has the stacktrace interface |
| GenericStrategies.InAppOnly | src/sentry/grouping/strategies/generic.py:89-90 | every stacktrace strategy except the complete one works on in-app frames |
| GenericStrategies.EffectivePlatform | src/sentry/grouping/strategies/generic.py:149 | a frame's own truthy platform overrides the event's |
| GenericStrategies.InAppFrames | src/sentry/grouping/strategies/generic.py:98 | the in-app frames, in order: a subsequence holding every in-app frame as often as the input does, and no other |
| GenericStrategies.InAppFramesOfInApp | src/sentry/grouping/strategies/generic.py:98 | when every frame is in-app, the filter keeps them all |
| GenericStrategies.InAppFramesAreInApp | src/sentry/grouping/strategies/generic.py:98 | every frame the filter keeps is in-app |
| GenericStrategies.GetRelevantFrames | src/sentry/grouping/strategies/generic.py:92-105 | no frames give none; the complete strategy keeps every frame; in in-app mode the kept frames are the in-app ones, or all when none is in-app, and they are discarded exactly when they are fewer than a tenth of the stacktrace |
| GenericStrategies.GetRelevantFramesIdempotent | src/sentry/grouping/strategies/generic.py:92-105 | selecting the relevant frames of the relevant frames changes nothing |
| GenericStrategies.IsSpace | src/sentry/grouping/strategies/generic.py:129 | the characters Python 2.7's `unicode.isspace` accepts: the ASCII controls 9-13 and 28-32, U+0085, U+00A0, U+1680, U+180E, U+2000-U+200A, U+2028, U+2029, U+202F, U+205F and U+3000 |
| GenericStrategies.LeadingSpace | src/sentry/grouping/strategies/generic.py:129 | the length of the longest whitespace prefix |
| GenericStrategies.TrailingSpace | src/sentry/grouping/strategies/generic.py:129 | the length of the longest whitespace suffix |
| GenericStrategies.TrailingSpaceOfSuffix | src/sentry/grouping/strategies/generic.py:129 | the trailing whitespace of a suffix, read in the whole string: those characters are whitespace and the one before them, if inside the suffix, is not |
| GenericStrategies.Strip | src/sentry/grouping/strategies/generic.py:129 | `str.strip()`: a slice of the input with whitespace only outside it and no whitespace at either of its ends |
| GenericStrategies.StripIsSlice | src/sentry/grouping/strategies/generic.py:129 | removing the leading whitespace and then the trailing whitespace of the rest leaves a slice with whitespace only outside it and none at its ends |
| GenericStrategies.StripIdempotent | src/sentry/grouping/strategies/generic.py:129 | stripping twice is stripping once |
| GenericStrategies.CanUseContextLine | src/sentry/grouping/strategies/generic.py:107-114 | a context line is usable only when present and at most 120 characters long, and then exactly when the strategy's own `function` attribute is truthy |
| GenericStrategies.RemoveFilenameOutliers | src/sentry/grouping/strategies/generic.py:116-117 | `posixpath.basename`: the longest suffix without `/` |
| GenericStrategies.RemoveFilenameOutliersOfBaseName | src/sentry/grouping/strategies/generic.py:116-117 | a name without `/` is its own base name |
| GenericStrategies.RemoveFilenameOutliersIdempotent | src/sentry/grouping/strategies/generic.py:116-117 | taking the base name twice is taking it once |
| GenericStrategies.Hasher.constructor | src/sentry/grouping/strategies/generic.py:131 | a fresh hasher has received nothing |
| GenericStrategies.Hasher.DidContribute | src/sentry/grouping/strategies/generic.py:131 | the hasher has been contributed to exactly when it has received a contribution |
| GenericStrategies.Hasher.ContributeValue | src/sentry/grouping/strategies/generic.py:123 | `contribute_value` appends exactly one value contribution with that name and value |
| GenericStrategies.Hasher.ContributeNested | src/sentry/grouping/strategies/generic.py:51-57 | `contribute_nested` appends exactly one nested contribution with that identifier, preferred version and interface |
| GenericStrategies.LocationContributions | src/sentry/grouping/strategies/generic.py:122-126 | at most one contribution; there is one exactly when the module or the filename is truthy, and it is a module value exactly when the module is truthy |
| GenericStrategies.SourceContributions | src/sentry/grouping/strategies/generic.py:128-129 | at most one contribution; there is one exactly when the context line may be used, and it is a `sourcecode` value no longer than the line |
| GenericStrategies.NameContributions | src/sentry/grouping/strategies/generic.py:131-136 | at most one contribution; there is one exactly when the hasher was contributed to and the symbol or the function is truthy, and it is a `function` value |
| GenericStrategies.FrameContributions | src/sentry/grouping/strategies/generic.py:119-136 | the location, source and name parts in that order, the name part told whether anything was contributed before or by this frame; ModuleBeforeFilename, NameNeedsEarlierContribution and SymbolBeforeFunction state what that means |
| GenericStrategies.ModuleBeforeFilename | src/sentry/grouping/strategies/generic.py:122-126 | a frame with a module contributes the module first and never a filename |
| GenericStrategies.NameNeedsEarlierContribution | src/sentry/grouping/strategies/generic.py:131-132 | on a fresh hasher, a frame with no module, no filename and no usable source line contributes nothing, not even its function |
| GenericStrategies.SymbolBeforeFunction | src/sentry/grouping/strategies/generic.py:133-136 | once something was contributed, the frame's last contribution is its symbol, else its function |
| GenericStrategies.FoldFrames | src/sentry/grouping/strategies/generic.py:162-163 | hashing frames one after another with one per-frame step, each step told whether anything was contributed before it; FoldFramesStep and FoldFramesNothing state what that means |
| GenericStrategies.FoldFramesStep | src/sentry/grouping/strategies/generic.py:162-163 | the run over one more frame is the run so far followed by that frame's step, told whether the run so far or the hasher before it contributed |
| GenericStrategies.FoldFramesNothing | src/sentry/grouping/strategies/generic.py:162-163 | for any per-frame hashing step, a run of frames from a fresh hasher contributes nothing exactly when no frame alone would |
| GenericStrategies.FramesContributions | src/sentry/grouping/strategies/generic.py:162-163 | the run of `hash_frame` over the frames; FramesContributionsStep and FramesContributeNothing state what that means |
| GenericStrategies.FramesContributionsStep | src/sentry/grouping/strategies/generic.py:162-163 | hashing one more frame appends that frame's contributions, told whether anything was contributed before it |
| GenericStrategies.FramesContributeNothing | src/sentry/grouping/strategies/generic.py:162-163 | on a fresh hasher, hashing the frames contributes nothing exactly when no frame would contribute anything on its own |
| GenericStrategies.StackInvalid | src/sentry/grouping/strategies/generic.py:146-152 | `stack_invalid`: a single frame whose effective platform is `javascript`, with a truthy function, and whose `is_url()` holds |
| GenericStrategies.StacktraceContributions | src/sentry/grouping/strategies/generic.py:138-163 | an empty stacktrace, and a single JavaScript frame with a function and a URL, contribute nothing |
| GenericStrategies.HashFrame | src/sentry/grouping/strategies/generic.py:119-136 | the hasher receives exactly the frame's contributions after what it held |
| GenericStrategies.HashLocation | src/sentry/grouping/strategies/generic.py:122-126 | the module, else the base name of the file, else nothing |
| GenericStrategies.HashSourceLine | src/sentry/grouping/strategies/generic.py:128-129 | the stripped context line when it may be used, else nothing |
| GenericStrategies.HashName | src/sentry/grouping/strategies/generic.py:131-136 | nothing unless the hasher was contributed to; then the symbol, else the function |
| GenericStrategies.HashFramesStep | src/sentry/grouping/strategies/generic.py:162-163 | one turn of the loop over the frames keeps the hasher at what it held plus the contributions of the frames hashed so far |
| GenericStrategies.HashFrames | src/sentry/grouping/strategies/generic.py:162-163 | the frames are hashed one after another, in order |
| GenericStrategies.HashStacktrace | src/sentry/grouping/strategies/generic.py:138-163 | the hasher receives exactly the contributions of the relevant frames, or nothing in the two short-circuit cases |
| GenericStrategies.HashException | src/sentry/grouping/strategies/generic.py:37-66 | a list of exceptions gives one nested contribution per exception, in order, under the strategy's identifier and version; a single exception gives one nested stacktrace contribution under the delegated strategy with version `latest`; an empty list fails before contributing anything |

## Left out

- Reflux stores, actions, `listenTo` and the delivery of `trigger` to subscribers are left out. Each store handler returns its notification instead.
- The model carries the record fields the store reads or writes (id, slug, organization and stats) and `name`, one field the store only copies along. Any other field of a record or of an update is not carried.
- Projects.Assign: `Object.assign` copies a field the update holds as `undefined`, which then reads as `undefined` in the record. The model has no `undefined` field value and treats such a field as absent, so the record keeps its old value.
- The store's records are modelled as values. The source shares record objects with its callers, so a caller's later change to a passed-in object is not modelled. Neither is the in-place `stats` write and `Object.assign` being visible through other references.
- JavaScript objects are modelled as dictionaries without a prototype. Keys that name members of `Object.prototype` behave differently in the source, and the model does not capture that:
  - In `getAllGroupedByOrganization`, an organization slug such as `constructor` makes `acc[orgSlug]` truthy before any group exists (projectsStore.jsx:78), so line 79 throws a `TypeError`. The model opens a group.
  - In `onStatsLoadSuccess`, a stats key such as `constructor` passes the `in` test of line 63. The source writes a `stats` field on the inherited object and notifies that key; the model does neither.
  - In `onChangeSlug`, the new slug `__proto__` replaces the object's prototype at line 35 instead of adding a key. The copy is then missing from `Object.values` and from the spread at lines 40-42. The model adds a key.
- Projects.ProjectsStore.OnStatsLoadSuccess: its contract does not itself say that each id's first record stays under that id. It states the new entries, and from those `StatsKeepFirstUnderOwnId` proves it as a separate lemma.
- Projects.CreateThenGetById: not promised after a slug change onto a slug that is already a key. That change can put a copy under a key ahead of the record under its id, and then `getById` answers the copy.
- JavaScript puts integer-like keys first, in ascending order, when it iterates an object. The model appends every new key and ignores that rule.
- `onStatsLoadSuccess` with an array instead of an object is left out; the model takes a map or nothing. The order of `_.each` is not modelled, because the result does not depend on it.
- Projects.ProjectsStore.OnChangeSlug: this does not model the object copy `{...this.itemsById}`, because without aliasing it only renews the object's identity.
- Assistant: an anchor's target and type are fixed at construction. Props that a parent changes between renders are not modelled; the activation rule reads the anchor's fixed target and type.
- Assistant: `setState` is modelled as taking effect at once. React's batching and asynchronous state are left out.
- Assistant: `render`, the styled ping and the `scrollIntoView` call are left out. A scroll is the boolean the model returns. The source's comment says only one of several anchors with the same target is scrolled to; that is an effect of the browser running successive scroll calls. The model reports every anchor that asks to scroll.
- Assistant: the guide store, and `registerAnchor` and `unregisterAnchor` of the guide action creators, are not part of this model. They are modelled as adding an anchor to, and removing it from, a set of registered anchors. The same calls set the anchor's `mounted` flag, which stands for React's mount state.
- Assistant: a current step past the end of the guide's steps makes the source fail on `.target`. The model requires the step to exist (`StepReadable`) rather than modelling that failure.
- GenericStrategies: `register_strategy`, the strategy registry, priorities and flavours are left out. The strategy is given as its identifier, its version and whether its own `function` attribute is truthy.
- GenericStrategies: `explain_grouping` text and the hashing inside the hasher are left out. The hasher records the sequence of contributions.
- GenericStrategies: the nested strategies run by `contribute_nested` are not modelled. A nested contribution records its identifier, preferred version and interface.
- GenericStrategies: the interfaces are passed to the hash methods directly. The `KeyError` of a missing interface key and the `isinstance` dispatch are replaced by the type of the argument.
- GenericStrategies: `is_url()` of a frame is a field of the frame, because its definition is not part of this model.
- GenericStrategies.GetRelevantFrames: the float test `len(frames) / float(total_frames) < 0.10` is written as `10 * kept < total`. That is exact for stacktraces of any realistic length, but the double rounding is not modelled.
- GenericStrategies.Strip: the whitespace set is that of `unicode.isspace` in Python 2.7 (Unicode 5.2, so U+180E counts). Python 2 byte strings strip only ASCII whitespace, and that difference is not modelled.
- GenericStrategies.HashFrame: the source computes the frame's effective platform (generic.py:120) and passes it to `remove_filename_outliers` and `can_use_context_line`, which ignore it in this strategy. The model leaves that parameter out of both.
- GenericStrategies.HashException: the branch that takes `values[0]` is reached only with an empty list, where it always raises `IndexError`. The model reports this as `ok == false` with nothing contributed. The spelling `stracktrace_strategy_id` is the source's own.
