# huebridge: verified models

huebridge shows a set of Home Assistant lights to Hue apps as if it were a Hue bridge. It keeps
Hue-side state (a state cache, schedules, the light registry, scenes, versions, an identity) in
step with Home Assistant and with files on disk. This Dafny project models those parts and proves
what they keep through interleaved requests, failed or interrupted saves and restarts. Where the
code gives less than its comments say, the exact condition is proved, with runs showing that it is
needed.

How the model is laid out:

- `Options`, `Decimal`, `Text`, `Json`, `Clock`: the parts of Go's library the code leans on
  (Itoa/Atoi, Split/Trim, decoded JSON, the time layouts).
- `LightState`, `HomeAssistant`, `CacheBackend`, `CacheProtocol`: the cache's merge, the service
  Home Assistant is called with, the cache as an object used by one caller, and the same cache
  split at its locks with any number of callers and the event feed.
- `JsonStore`: one JSON file replaced by write-temporary-then-rename, on a disk where any step can
  fail and the process can die at any step.
- `LocalTime`, `LightCommands`, `Schedules`, `ScheduleRuns`, `ScheduleFirings`, `ScheduleOrigins`,
  `Lights`: the schedule store and ticker, whole runs of them, and what a fired schedule sends.
- `Registry`, `RegistryRuns`, `Groups`: the registry over shared member slices, whole runs of it,
  and the rendering of and writing to groups.
- `Scenes`, `SceneRuns`: the scene handlers, and their steps interleaved.
- `Versions`, `BridgeIdentity`: the reported version pair, and everything derived from the MAC.

Objects with fields are classes whose methods are proved equal to functions of the old state; the
run modules iterate the same functions. Requests, times, random ids, JSON decoding results and the
outcome of each save or network call are parameters, so a statement for all runs covers every
combination of failures. The stores see a save as one that succeeds (the file then holds the state)
or fails (the file is as before); `JsonStore.OutcomeTellsWhetherCommitted` is what entitles them to.
A process that dies during a save is, for the run modules, a save with either outcome followed by a
restart. Ids and counters are unbounded integers.

Assumed of the outside: rename is atomic; JSON decoding inverts encoding; Home Assistant's turn_on
sets on and the supplied attributes and turn_off sets off only; it emits one event per change, in
order, on the subscription; it removes no entity (`CacheProtocol.RemovalLeavesAGhost` is what that
would do); random scene ids are fresh.

Where code and comments differ, the model follows the code:

- the retry delay of the cache feed settles at 32 s, not at its 30 s cap (`CacheBackend.BackoffSettlesAt32`);
- `validateLocalTime` accepts a one-digit hour that the ticker can never match
  (`LocalTime.AcceptedMatchesItsMinuteIffTwoDigitHour`);
- an id that the registry shows although its save failed can be reused after a restart, for lights and
  groups (`RegistryRuns.LightIdReusedIffUncounted`, `RegistryRuns.GroupIdReusedIffUncounted`);
- a failed save in `SceneStore.Create` leaves a scene with no Home Assistant counterpart
  (`SceneRuns.UnsavedCreateLeavesAnOrphan`);
- a schedule deleted while a tick has its due record still to write back can come back, and only then
  (`ScheduleRuns.DeletedReturnsIffWriteBackAhead`).

## Model

| member | source | states |
|---|---|---|
| LightState.WritesFoldToLastWriters | internal/backend/cache/cache.go:112-126 | any finite sequence of optimistic writes to an entity is one merge of the last writer of each field and the last colour mode |
| LightState.LastSomeIsLast | internal/backend/cache/cache.go:112-126 | "last writer" means a present entry with nothing present after it, and none only if there is none at all |
| LightState.RequestsFormAMonoid | internal/backend/cache/cache.go:112-126 | composing requests is associative, with the empty request as unit up to normal form |
| LightState.MergeIsAnAction | internal/backend/cache/cache.go:112-126 | merging one request after another is merging their composition, and the empty request changes nothing |
| LightState.LastWritersCompose | internal/backend/cache/cache.go:112-126 | folding sequences of requests respects composition, the empty sequence giving the empty request |
| LightState.NormalFormIsCanonical | internal/backend/cache/cache.go:118-125 | two requests act alike on every state iff their normal forms (ct alone when both colours are present) are equal |
| LightState.FieldWiseFailsOnCtThenXy | internal/backend/cache/cache.go:118-125 | combining requests field by field is wrong exactly for a colour temperature followed by xy alone |
| LightState.OneColourModeAfterAColourWrite | internal/backend/cache/cache.go:118-125 | once any request carried a colour, exactly one of xy and ct is left |
| HomeAssistant.ReportedReads | internal/backend/homeassistant/homeassistant.go:69-103 | what each reported value reads as: on, reachable, a brightness in 0..255, a colour pair, a colour temperature; and that other kinds of value read as none |
| HomeAssistant.WriteIsObserved | internal/backend/homeassistant/homeassistant.go:69-103 | what a raw Home Assistant record reads as after a write is a function of what it read as before, for both service calls and the no-op |
| HomeAssistant.OnAlwaysAgrees | internal/backend/homeassistant/homeassistant.go:151-196 | On is kept when the request leaves it nil and otherwise becomes the request's, in Home Assistant and in the merged snapshot |
| HomeAssistant.MergeAgreesExactlyWhenFaithful | internal/backend/homeassistant/homeassistant.go:151-208 | the merged snapshot equals what Home Assistant reports after the write iff a condition on snapshot and request holds |
| HomeAssistant.CacheStoresAttributesNeverSent | internal/backend/cache/cache.go:101-128 | brightness sent to a light that is off, or together with off, is kept by the cache and never sent |
| HomeAssistant.AttributeWriteCanUndoAnOff | internal/backend/homeassistant/homeassistant.go:164-183 | a write that leaves On nil keeps it, whatever happened between its read and its call, unless it has attributes, read the light as on and finds it not on; then it switches it on |
| CacheBackend.Inner.Push | internal/backend/fake/fake.go:33-42 | records the state and appends it to every subscriber's queue, and nothing else |
| CacheBackend.Inner.SetState | internal/backend/fake/fake.go:54-75 | accepts exactly for a known entity that can be reached and then changes only it |
| CacheBackend.FakeAppliesWhatIsMergedIffOneColourMode | internal/backend/fake/fake.go:54-75 | the in-memory backend ends as the cache merges iff the request leaves no colour of the other mode behind |
| CacheBackend.Cache.GetState | internal/backend/cache/cache.go:39-96 | a known entity is answered from the snapshot, backend reachable or not, and nothing changes; an unknown one is answered iff the backend knows it and can be reached, with its state, which is kept; no later answer changes |
| CacheBackend.Cache.SetState | internal/backend/cache/cache.go:98-128 | changes nothing unless the backend accepts; then a cached entity gets the merge and an unknown one stays unknown |
| CacheBackend.Cache.Run | internal/backend/cache/cache.go:52-81 | over any script of refused and closing subscriptions the snapshot ends with every event put in order, and the waits follow the backoff |
| CacheBackend.EventsOfTurns | internal/backend/cache/cache.go:52-81 | the events of a script are those of its turns, in order |
| CacheBackend.PutAllKeepsTheLatest | internal/backend/cache/cache.go:62-66 | of each entity the snapshot keeps the latest event, and without one what it had |
| CacheBackend.Cache.FollowChanges | internal/backend/fake/fake.go:33-83 | what the backend pushes after Subscribe is queued for the subscriber whole and in order, and Run over it brings the snapshot level with the backend on every entity that changed |
| CacheBackend.BackoffSettlesAt32 | internal/backend/cache/cache.go:23-26 | the waits since a reset are 1, 2, 4, 8, 16 and then always 32 s; the 30 s cap is exceeded exactly from the sixth on |
| CacheBackend.SinceOpenedCounts | internal/backend/cache/cache.go:70-80 | a reset is the start or an opened subscription, and nothing else |
| CacheBackend.WritesFoldPerEntity | internal/backend/cache/cache.go:98-128 | however writes to several entities are mixed, each cached one that accepts them ends as one merge of its own last writers |
| CacheProtocol.GetStateIsTheseSteps | internal/backend/cache/cache.go:83-96 | lookup, inner read and put run back to back answer and leave what an undivided GetState does |
| CacheProtocol.SetStateIsTheseSteps | internal/backend/cache/cache.go:98-128 | inner set and merge run back to back leave what an undivided SetState leaves |
| CacheProtocol.CacheNeverInventsState | internal/backend/cache/cache.go:39-128 | under every interleaving, closes and resubscriptions included, a cached value has its own key and is a state the backend held with acknowledged writes merged over it |
| CacheProtocol.CacheAgreesWithBackend | internal/backend/cache/cache.go:52-128 | entity by entity, whatever happens to the others and however often the subscription closes and reopens: along a run that never disturbs it, a cached entity with no event queued equals the backend's |
| CacheProtocol.NewestIsLastQueued | internal/backend/cache/cache.go:62-66 | the event those statements speak of is the last one queued for the entity |
| CacheProtocol.StepKeepsStepUnlessDisturbing | internal/backend/cache/cache.go:62-128 | a step puts an in-step entity out of step iff it delivers its last event past a request that would write something else, changes it unheard, or merges over a write no event follows |
| CacheProtocol.CanSettleStaleIffUnsafe | internal/backend/cache/cache.go:62-128 | from any sound state an entity can end stale without a further change iff its queue does not end at the present state, its entry is wrong with nothing queued, or an open request would write something else |
| CacheProtocol.ReachedStatesAreSound | internal/backend/cache/cache.go:39-128 | every state any run reaches is sound: names fit and only known entities are spoken of |
| CacheProtocol.DisturbanceCanLeaveStale | internal/backend/cache/cache.go:62-128 | conversely every disturbing step can be followed by a stale entry with nothing queued for it |
| CacheProtocol.OvertakenRequestLeavesStale | internal/backend/cache/cache.go:90-126 | a disturbing delivery followed by the put or merge it overtook leaves the entity stale at once, from every in-step state |
| CacheProtocol.HeardChangeRepairs | internal/backend/cache/cache.go:62-66 | the next change that is heard puts an entity back in step, whatever went wrong |
| CacheProtocol.OwnEchoIsHarmless | internal/backend/cache/cache.go:101-126 | the echo of faithful writes may arrive before their merges |
| CacheProtocol.FaithfulWritesDisturbNothing | internal/backend/homeassistant/homeassistant.go:151-208 | a write that HomeAssistant characterises as faithful disturbs no entity and its merge spoils nothing |
| CacheProtocol.EventBetweenReadAndPutLeavesStale | internal/backend/cache/cache.go:90-94 | such a delivery between a miss's read and its put is reached from the start, for any entity and any two different states |
| CacheProtocol.EventBetweenSetAndMergeLeavesStale | internal/backend/cache/cache.go:101-126 | and one between an inner set and its merge, whenever the merge is visible |
| CacheProtocol.ChangeInTheGapLeavesStale | internal/backend/cache/cache.go:52-80 | from any state, a change to a cached entity while the subscription is down leaves it stale, and resubscribing does not help |
| CacheProtocol.SilentWriteLeavesStale | internal/backend/cache/cache.go:101-126 | from any agreeing state, an acknowledged write without effect emits nothing and its merge stays |
| CacheProtocol.RemovalLeavesAGhost | internal/backend/homeassistant/websocket.go:79-82 | outside the protocol: the stateless event of a removed entity leaves a reachable light that is off in the cache, which the backend lacks and need never have held |
| JsonStore.JsonFile.Save | internal/store/jsonfile.go:46-66 | stopped at any step, the file holds its old bytes or the whole new value, the new one iff the rename was reached, and no other file changes |
| JsonStore.JsonFile.Load | internal/store/jsonfile.go:23-44 | a missing file yields the default, an undecodable or unreadable one an error |
| JsonStore.LoadAfterAnySaves | internal/store/jsonfile.go:23-66 | after any sequence of saves, each failing or dying anywhere, Load answers the last committed value or what it answered before them |
| JsonStore.OutcomeTellsWhetherCommitted | internal/store/jsonfile.go:46-66 | success means the value is in place, an error that it is not, and a crash leaves one of the two |
| JsonStore.StaleTmpIsNeverObserved | internal/store/jsonfile.go:61-65 | disks that differ only in the temporary file load alike after the same saves |
| Clock.ParseFormatted | internal/hue/schedules.go:93 | parsing "15:04:05" gives back what Format wrote, with or without a fraction |
| Clock.FractionIsDropped | internal/hue/schedules.go:93 | any digits after a point or comma are accepted and dropped |
| Clock.StampInjective | internal/hue/schedules.go:192 | the tick's stamp is equal for two times iff date, hour and minute are |
| Decimal.AtoiReads | internal/hue/lights.go:80-84 | what besides plain decimals counts as a light or group number: padding and a sign; all else is refused |
| LocalTime.MatchesOneMinute | internal/hue/schedules.go:175-187 | whatever matches a pattern once matches it in that minute of the day and no other |
| LocalTime.AcceptedMatchesItsMinuteIffTwoDigitHour | internal/hue/schedules.go:82-97 | an accepted localtime matches exactly the minute it names iff its hour has two digits, and otherwise never |
| LocalTime.AcceptedIffNamed | internal/hue/schedules.go:82-97 | exactly which texts are accepted, and that they are read as written |
| LocalTime.EveryMinuteIsSchedulable | internal/hue/schedules.go:78-97 | every minute's own text is accepted and matches it |
| LocalTime.OneDigitHourIsAcceptedAndNeverFires | internal/hue/schedules.go:82-97 | W127/T7:00:00 is accepted and matches no time |
| LightCommands.WritesAskWhatStandsInTheBody | internal/hue/lights.go:97-114 | PUT asks for the on, bri, xy and ct that stand in its body and a schedule for the on and bri that stand in its own; values of another kind ask for nothing |
| LightCommands.TickWritesWhatPutWritesUnlessColoured | internal/hue/lights.go:97-114 | a recorded body becomes the same write in Tick and in PUT iff it carries no colour; otherwise only the colour is lost |
| LightCommands.AddressResolvesToItsLight | internal/hue/schedules.go:231-243 | prefix + /lights/n/state resolves to light n under every prefix with no lights segment |
| LightCommands.AddressesResolveIffPrefixHasNoLights | internal/hue/schedules.go:231-243 | and that condition on the prefix is exact |
| Text.TrimCutsTheEnds | internal/hue/schedules.go:232 | trimming an address cuts slashes off both ends, all of them and nothing else |
| Schedules.HealedCounterIsFree | internal/hue/schedules.go:49-68 | whatever the file says, the healed counter is positive and no key is its text or a later number's |
| Schedules.HealIsLeast | internal/hue/schedules.go:49-68 | and no further than that: the least such number not below the loaded one |
| Schedules.FireAllMeans | internal/hue/schedules.go:191-228 | a tick leaves under each id the last due record of that id, whatever key it was filed under, changed in its stamp alone, and otherwise what was there |
| Schedules.FireAllStampsTheDue | internal/hue/schedules.go:191-228 | so, filed as the bridge files them, exactly the due schedules are stamped whatever order the map is walked in, and none is added or dropped |
| Schedules.ScheduleStore.constructor | internal/hue/schedules.go:42-71 | loads and heals; an unreadable file counts as an empty one with counter 0 |
| Schedules.ScheduleStore.Create | internal/hue/schedules.go:99-119 | refuses without effect exactly for bad bodies and localtimes; else takes the next id in memory, and in the file iff the save succeeds |
| Schedules.ScheduleStore.Delete | internal/hue/schedules.go:128-133 | removes the key in memory, and in the file iff the save succeeds |
| Schedules.FileKeepsAllButStamps | internal/hue/schedules.go:18-34 | a save keeps every record under its key in all but the stamp |
| Schedules.ScheduleStore.All | internal/hue/schedules.go:135-143 | every record exactly once, in some order |
| Schedules.ScheduleStore.HandleDelete | internal/hue/schedules.go:304-314 | reports success for a known id even when the save failed |
| Schedules.Ticker.Tick | internal/hue/schedules.go:189-229 | an undisturbed tick leaves the store FireAll describes and sends exactly the due schedules' writes, through the cache |
| ScheduleRuns.Perform | internal/hue/schedules.go:42-133 | each create, delete or restart step of the runs below does what the store's call, or a new store over the file, does |
| ScheduleRuns.IdsAreNeverReissued | internal/hue/schedules.go:42-133 | from any file, over any run of creates, deletes, failed saves, restarts and interleaved ticks, no id is answered twice |
| ScheduleRuns.CounterPassesKeysWithoutTicks | internal/hue/schedules.go:49-133 | without ticks the counter is above every numeric key and the next id is no key, from any file |
| ScheduleRuns.CounterPassesKeysIffRecordsFit | internal/hue/schedules.go:42-228 | with ticks the counter stays above every numeric key in every run iff no record of the file that can fire has an own id not below the healed counter |
| ScheduleRuns.NextIdIsNoKeyIffRecordsFit | internal/hue/schedules.go:42-228 | and the next id is never a key iff no such record's id is the very text of a number still to come |
| ScheduleRuns.UnreadableFileStartsOverFromOne | internal/hue/schedules.go:44-47 | after a restart whose load error is ignored the next create answers id 1 (again, if it had been) and its save replaces everything stored |
| ScheduleRuns.UnreadableFileReissuesEveryId | internal/hue/schedules.go:44-47 | after any run and such a restart, every id ever answered can be answered again |
| ScheduleRuns.DeletedReturnsIffWriteBackAhead | internal/hue/schedules.go:128-228 | a saved delete of an existing schedule can be undone, in memory or on disk, by some continuation iff a tick has snapshotted its record, which is due, and has not yet reached it |
| ScheduleRuns.UnsavedDeleteSticksIffSavedInTime | internal/hue/schedules.go:128-133 | a delete whose save failed is undone by the next restart iff the file had the schedule and nothing was saved before; after any save it is gone for good |
| ScheduleRuns.TickStartPutsWriteBackAhead | internal/hue/schedules.go:135-143 | one create and the start of one tick put such a write-back ahead |
| ScheduleFirings.TickFiresIffNotLastToday | internal/hue/schedules.go:191-228 | at any point of any run, restarts included and whatever the clock does, an undisturbed tick fires an enabled matching schedule iff its latest firing since the last restart, if any, was on another date |
| ScheduleFirings.TwiceOnADateMeansAnotherBetween | internal/hue/schedules.go:191-228 | in one process, whatever the clock does and with ticks interleaved at their locks, a schedule fires twice on a date only if it fired on another date in between |
| ScheduleFirings.AtMostOneFiringPerDate | internal/hue/schedules.go:191-228 | hence while dates do not go back no schedule fires twice on a date |
| ScheduleFirings.MatchingSchedulesFireInTheirMinute | internal/hue/schedules.go:191-228 | after an undisturbed tick, at any point of any run, every enabled matching schedule has fired in that minute |
| ScheduleFirings.UndisturbedTickIsFireAll | internal/hue/schedules.go:191-228 | the split tick run through is the whole tick |
| ScheduleOrigins.RecordsStayWhatWasAsked | internal/hue/schedules.go:99-228 | over any run every record in memory, in a snapshot or in the file carries the id, name, address, method, body and localtime of the accepted create that made it, enabled, or those it came with in the first file |
| ScheduleOrigins.TicksSendWhatWasAsked | internal/hue/schedules.go:204-222 | from an empty store every write a tick sends goes where some accepted create of the run says, at its time, with the on and bri that stand in its body |
| ScheduleFirings.RestartInTheMinuteFiresAgain | internal/hue/schedules.go:26-28 | the stamp is not persisted, so a restart within the minute fires twice |
| ScheduleFirings.DateSteppingBackFiresAgain | internal/hue/schedules.go:192-199 | if the date goes back and forth a schedule fires twice on it |
| ScheduleFirings.ForeignKeyFiresAtEveryTick | internal/hue/schedules.go:224-227 | a record filed under another key is never stamped and fires at every tick of its minute |
| Lights.HandlePutLightState | internal/hue/lights.go:78-132 | sends exactly the body's write to the light of that id, and reports each error case |
| Lights.PutAsksForItsBody | internal/hue/lights.go:78-116 | a PUT on a light's own number asks that light for what stands in the body |
| Lights.ScheduleFiresLikePut | internal/hue/schedules.go:204-222 | a due schedule on a light's address sends what PUT there would send iff the light is unknown or the body has no colour |
| Lights.OnBriScheduleSendsItsBody | internal/hue/schedules.go:204-222 | for a body of on and a bri in 0..255 both send that very on and bri to the light |
| Registry.ByEntityFinds | internal/registry/registry.go:139-148 | the search finds an entry of that entity and fails only if there is none |
| Registry.EntriesWithoutKeeps | internal/registry/registry.go:98-108 | filtering removes exactly the entity, and an unchanged length means nothing changed |
| Registry.MembersWithoutKeeps | internal/registry/registry.go:113-123 | the same for a member list |
| Registry.MembersWithoutPieces | internal/registry/registry.go:114-119 | filtering keeps order and multiplicity: it works piece by piece, dropping a lone member iff it is the entity |
| Registry.EntriesWithoutPieces | internal/registry/registry.go:98-103 | the same for entries |
| Registry.GroupByHueFinds | internal/registry/registry.go:184-192 | the search finds a group with that id and fails only if there is none |
| Registry.TheFirstIsFound | internal/registry/registry.go:128-192 | where an entity or id occurs twice all three searches answer the first |
| Registry.HealIsLeast | internal/registry/registry.go:47-69 | healing moves each counter to the least number past every id in use and not below the loaded one |
| Registry.Registry.constructor | internal/registry/registry.go:40-72 | loads and heals both counters |
| Registry.Registry.Add | internal/registry/registry.go:74-92 | answers a known entity without a save; gives a new one the next id in memory, and in the file iff the save succeeds |
| Registry.Registry.Remove | internal/registry/registry.go:94-126 | removes the entry and the memberships, saves only if something changed, and writes no member list in place |
| Registry.Registry.AddGroup | internal/registry/registry.go:158-174 | appends a group with the next group id, keeping the caller's slice |
| Registry.Registry.ByHueID | internal/registry/registry.go:128-137 | the first entry with that id |
| Registry.Registry.FindEntity | internal/registry/registry.go:139-148 | the first entry of that entity |
| Registry.Registry.GroupByHueID | internal/registry/registry.go:184-192 | the first group with that id |
| Registry.Registry.AllGroups | internal/registry/registry.go:176-182 | a fresh slice with the same groups |
| Registry.Registry.SnapshotThenRemove | internal/registry/registry.go:94-182 | snapshots from All and AllGroups read the same after a later Remove although they share member slices |
| RegistryRuns.Perform | internal/registry/registry.go:40-174 | each step of the runs below does to memory and file what the call, or a new registry over the file, does |
| RegistryRuns.RegistryStaysInOrder | internal/registry/registry.go:74-174 | from an empty start, whatever saves fail, entries and groups stay strictly increasing in id and below their counters, and entity ids unique |
| RegistryRuns.HealedCountersAreFree | internal/registry/registry.go:47-69 | from any file both counters start past every id in it |
| RegistryRuns.LightIdReusedIffUncounted | internal/registry/registry.go:74-92 | after any run, the id under which memory shows an entity can come to show another one iff the file does not count past it |
| RegistryRuns.GroupIdReusedIffUncounted | internal/registry/registry.go:158-174 | the same for the id of a group, told apart by its name and room |
| RegistryRuns.IdsAreNeverReused | internal/registry/registry.go:1-4 | so if saves succeeded up to some point, no light or group id shown then is ever reused, through removes, reloads and later failures |
| RegistryRuns.AnswerIsGivenAgainIffUncounted | internal/registry/registry.go:74-92 | an id Add answered can be answered for another entity iff the file does not count past it; never for a new entry, but possibly for the early return |
| RegistryRuns.FailedSaveGivesOneIdTwice | internal/registry/registry.go:78-90 | failed save (answered, if retried), restart: two entities are light 1 |
| RegistryRuns.FailedSaveGivesOneGroupIdTwice | internal/registry/registry.go:158-174 | failed save, restart: two groups are group 1 |
| RegistryRuns.GroupMembersStayRegistered | internal/registry/registry.go:94-174 | groups created from registered entities only ever name registered entities, in memory and on disk |
| RegistryRuns.AddGroupKeepsMembersIffRegistered | internal/registry/registry.go:158-174 | that guard is exact: a new group keeps this iff all its members are registered, which AddGroup does not check |
| RegistryRuns.FoundAgainByItsId | internal/registry/registry.go:128-148 | a registered entity is found again under its own id |
| Groups.ToGroup | internal/hue/groups.go:13-53 | all_on iff nonempty with every member readable and on, any_on iff some member is, action from any_on and the first readable brightness; rendering changes no later read |
| Groups.FoldsMean | internal/hue/groups.go:18-38 | what the loop's running variables mean for all members |
| Groups.AllOnImpliesAnyOn | internal/hue/groups.go:39-51 | all_on implies any_on, action.on and that every member is readable |
| Groups.LightIdsLeadBackToMembers | internal/hue/groups.go:23-25 | with registered members one light id per member, in order, each leading back to it |
| Groups.LightIdsOfPieces | internal/hue/groups.go:23-25 | members without an entry are passed over and the others keep their places |
| Groups.GroupsListExactlyTheirMembers | internal/hue/groups.go:13-25 | so for every group of every run of the registry |
| Groups.FanOutSwitchesAcceptingMembers | internal/hue/groups.go:108-110 | after the fan-out accepting members read as switched, cached or not, and all others as before |
| Groups.BackendsSetOn | internal/backend/fake/fake.go:61-63 | both backends' accepted writes set On to the request's |
| Groups.HandlePutGroupAction | internal/hue/groups.go:83-110 | every member of the addressed group is asked in order for the on and bri that stand in the body, errors stopping none of the others |
| Groups.UniformReadsRenderUniformly | internal/hue/groups.go:39-51 | members that all read as b render as all_on = any_on = action.on = b |
| Groups.PutThenRender | internal/hue/groups.go:13-121 | PUT of on = b on a group whose members accept writes (and which has some, if b) makes its next rendering report b throughout, whatever other groups are like |
| Scenes.ToSceneLightStates | internal/hue/scenes.go:86-97 | the Hue rendering of a scene says of each light what its mirror says |
| Scenes.MirrorReproducesWhatWasRead | internal/backend/homeassistant/homeassistant.go:214-232 | a mirrored scene asks for exactly the state each readable member was read in |
| Scenes.SceneMirror.MirrorScene | internal/backend/homeassistant/homeassistant.go:210-243 | stores the scene's payload iff the call takes effect |
| Scenes.SceneMirror.DeleteMirroredScene | internal/backend/homeassistant/homeassistant.go:245-255 | removes it iff the call takes effect |
| Scenes.SceneStore.Create | internal/hue/scenes.go:44-60 | stores in memory whatever the save does |
| Scenes.SceneStore.Delete | internal/hue/scenes.go:69-74 | removes in memory whatever the save does |
| Scenes.HandlePostScene | internal/hue/scenes.go:138-188 | what store, file and Home Assistant hold after each ending: stored and mirrored alike; rolled back as if it never ran; or in memory only after a failed save |
| Scenes.PostSceneOfGroup | internal/hue/scenes.go:138-223 | POST for group text Itoa(id), or for text that is no number and id 0, fails iff no group has that id; the scene then lists that group's members and holds what each readable one read as |
| Scenes.GroupNumberIsRead | internal/hue/scenes.go:217-223 | text that is a number stands for it and all other text for 0 |
| Scenes.StoreAndMirror | internal/hue/scenes.go:165-186 | the transaction alone, including the Home Assistant scene that a mirror call reported as failed can leave behind |
| Scenes.HandleDeleteScene | internal/hue/scenes.go:190-215 | a known scene always leaves the store |
| SceneRuns.QuiescentScenesAreMirrored | internal/hue/scenes.go:138-215 | in every quiescent state of any interleaving, restarts included, a stored scene is in Home Assistant, with the same content, iff no step of the run exposed it |
| SceneRuns.StepBacksUnlessExposing | internal/hue/scenes.go:138-215 | a step takes a stored scene's backing (a mirror, or a request that will see to it) iff it is its create with a failed save or a restart that reads back what Home Assistant lacks |
| SceneRuns.RestartExposesTheUnfinished | internal/hue/scenes.go:165-215 | a restart exposes a backed scene iff Home Assistant lacks it and either a POST or DELETE of it was under way or the file still lists it after its removal |
| SceneRuns.FileAheadIffRemovedUnsaved | internal/hue/scenes.go:69-74 | after a step the file lists a scene the store has let go iff the step is its rollback or delete with a failed save, or that was so before and the step saved nothing |
| SceneRuns.EveryStoredSceneIsMirrored | internal/hue/scenes.go:138-215 | with successful saves and restarts between requests that never happens |
| SceneRuns.FailedPostLeavesNothing | internal/hue/scenes.go:175-184 | whatever came since the failed mirror call, the rollback takes the scene out for good and touches no other, through restarts too if it was saved |
| SceneRuns.UndisturbedPostIsTheHandler | internal/hue/scenes.go:138-188 | the steps run back to back are the handler, in every ending |
| SceneRuns.UndisturbedDeleteIsTheHandler | internal/hue/scenes.go:190-215 | and so for DELETE |
| SceneRuns.UnsavedCreateLeavesAnOrphan | internal/hue/scenes.go:165-169 | a failed save in Create leaves an unmirrored scene in memory |
| SceneRuns.CrashBeforeMirrorLeavesAnOrphan | internal/hue/scenes.go:165-176 | a crash between Create and the mirror call leaves one after the restart |
| SceneRuns.UnsavedDeleteLeavesAnOrphan | internal/hue/scenes.go:190-215 | a DELETE carried out by Home Assistant whose save failed leaves one after the restart |
| Versions.SlicesAreLeadingDigits | internal/hue/version_updater.go:92-95 | the slices are in bounds and equal v/10^(n-1) and (v/10^(n-4)) mod 100 |
| Versions.ApiIsMajorMinor | internal/hue/version_updater.go:87-95 | the reported api version is that major, and that minor in two digits |
| Versions.PaddedWidth | internal/hue/version_updater.go:93 | n is the number of digits of the version, at least five |
| Versions.MinorIsMonotone | internal/hue/version_updater.go:87-95 | among versions of one length with the same first two digits the minor never falls |
| Versions.LatestListed | internal/hue/version_updater.go:66-78 | the highest listed version, an error iff none is listed |
| Versions.VersionVars.SetVersionOverrides | internal/hue/config.go:42-61 | non-empty arguments replace and pin their field |
| Versions.VersionVars.SetDiscoveredVersion | internal/hue/config.go:63-74 | replaces unpinned fields only |
| Versions.VersionUpdater.Refresh | internal/hue/version_updater.go:120-139 | applies the highest version's pair and stamps the fetch, or changes nothing |
| Versions.VersionUpdater.RefreshIfExpired | internal/hue/version_updater.go:141-154 | does nothing within a day of the last success |
| Versions.DefaultPairIsDerived | internal/hue/config.go:30-32 | the compiled-in pair is what its own digits give |
| Versions.ReportedVersions | internal/hue/config.go:42-93 | over any run a pinned field shows its last override and an unpinned one the last fetch or the default |
| Versions.UnpinnedPairIsConsistent | internal/hue/version_updater.go:97-139 | while nothing is pinned apiversion is derived from swversion |
| BridgeIdentity.IdentityAgreesEverywhere | cmd/huebridge/description.go:36-45 | serialNumber(BridgeID(mac)) is the MAC's lower-case hex, and SSDP name, description and config agree with it |
| BridgeIdentity.OtherIdsAreLowered | cmd/huebridge/description.go:39-45 | an id that is not of 16 characters is only lowered |
| BridgeIdentity.BridgeIDInjective | internal/tls/cert.go:28-31 | different MACs have different bridge ids |
| BridgeIdentity.SerialValue | internal/tls/cert.go:48-51 | the certificate serial is oui*2^40 + 0xFFFE*2^24 + nic |
| BridgeIdentity.SerialConforms | internal/tls/cert.go:41-54 | it is positive and takes 6 to 9 of the 20 octets section 4.1.2.2 of RFC 5280 allows |
| BridgeIdentity.DerOctetsSuffice | internal/tls/cert.go:41-54 | the octet count used there is the least that leaves a bit for the sign |
| BridgeIdentity.MacStringShape | internal/hue/config.go:131 | the mac field is two digits per octet with a colon between any two |

## Left out

- HTTP routing, authentication, response bodies, JSON syntax: handlers take decoded values; a success item list is not modelled.
- WebSocket, SSDP and mDNS sessions, TLS keys and PEM files, the Supervisor, the setup wizard, pairing and the admin pages.
- Atoi: accepts numbers beyond 64 bits, which Go rejects; ids and counters are unbounded, so a counter passing the largest int is not modelled.
- Json.ToByte: float-to-uint8 conversion outside 0..255 is left to the implementation by Go; the model wraps around, and no result depends on it.
- ParseHex: reads hexadecimal digits only, not the sign that big.Int would also accept; bridge ids have none.
- HomeAssistant.Execute: leaves the other colour mode's attribute alone, as the in-memory backend does; a Home Assistant that switches colour mode would widen the agreement condition.
- The part of a service URL taken from the entity id's domain, and HTTP status handling beyond "the call failed".
- Cache.Run: timers and cancellation are the script's turns and its end; the channel's capacity is not modelled.
- toLight's texts and ListEntities: they only copy fields.
- Fair scheduling: nothing is claimed about when queued events are delivered.
- ScheduleRuns.DeletedReturnsIffWriteBackAhead: asks that records that can fire are filed under their own id, as the bridge files all of them; the same holds for the firing bounds, and `ScheduleFirings.ForeignKeyFiresAtEveryTick` shows a hand-edited file for which they fail.
- Registry.Registry.AddGroup: a caller that writes into the slice it passed would change the group; no caller does.
