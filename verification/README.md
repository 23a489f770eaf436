# Stork core, modelled and proved in Dafny

Stork monitors DNS and DHCP servers. This project models the self-contained parts of its Go back end and proves what
they promise, over all inputs, all runs and all interleavings.

- **Zones.** Names in DNS order (`Names.dfy`, `ReversedNames.dfy`), linear and binary search (`ZoneSearch.dfy`), views
  and filters (`ZoneViews.dfy`), paging (`ZonePaging.dfy`), the memory and disk storages (`ZoneStorage.dfy`), and the
  inventory as a state machine of concurrent background tasks (`ZoneInventory.dfy`).
- **Configuration.** Locks and contexts of the configuration manager, as methods and as a state machine over the
  steps of concurrent calls (`ConfigManager.dfy`); the merge of Kea configurations (`KeaMerge.dfy`); the expansion of
  include statements (`IncludeExpansion.dfy`).
- **Codecs and arithmetic.** IP prefixes as bit strings and as text (`IpPrefixes.dfy`, `IpText.dfy`), domain names and
  their wire form (`Fqdn.dfy`), DHCP option fields and whole options as comma separated text (`OptionFields.dfy`,
  `Options.dfy`) and as hexadecimal digits (`HexOptions.dfy`), the counter with two representations
  (`BigCounters.dfy`), and cumulative histograms (`Histograms.dfy`).

Code that changes state step by step is a method, in a class where it updates an object, proved against a
specification function; properties over several functions or whole runs are lemmas about those functions. Concurrency
is a step relation in which one step is what one hold of a mutex, or one action without it, does. Map iteration picks
any remaining key, so that what is proved holds for every order. How a single address or a floating point number is
read and written as text is a parameter.

## Where the promise is narrower than it sounds

Several promises hold only under a condition. Each is proved with its exact condition, and with a concrete
counterexample where that helps.

- Linear and binary search differ when a listed name and the query differ in a final dot: only one of each pair
  compares literally.
- Paging one zone at a time never ends if the first zone that was loaded late enough has the empty name, because an
  empty lower bound counts as none.
- Saving to disk stops at the first view that cannot be written and still reports success, since the error is
  overwritten by the outcome of saving the metadata (`zoneinventory.go:301-311`). "Replacing the entire inventory"
  replaces only the given views; directories of others stay.
- Loading crashes on a location where nothing was ever saved.
- A disk read that fails in the counting pass of a receive leaves the inventory busy for ever. So does, on every storage,
  a receiver that gives up while a zone is offered to it.
- A call of `Lock` that fails on a daemon it has just locked itself, because the daemon is repeated, leaves locks behind.
- A stored context can be replaced by one of another user, although `RememberContext` refuses that: it checks under one
  hold of the mutex and stores under another.
- A lock can be held without any stored context that carries it, when its context is replaced by one with another key.
- Merging: an explicit null does not remove an object, a value that is no object does not replace one, contrary to the
  comment (`keaconfig.go:529-533`), and nulls deep inside a newly added object stay.
- The size of a delegated range is not the number of canonical prefixes that are written with the delegated length and
  accepted when that length is 0 or 128. For 0 nothing is ever accepted; for 128 only prefixes that are written with
  length 0, which parsing turns into 128.
- An IPv6 prefix in an option does not survive printing and parsing if it has bits behind its length, which are cut off,
  or length 128, which makes it an address.
- Sorting by reversed names is not sorting in DNS order when a hyphen decides (`62_zones.go:14-15`).
- A round trip time histogram has an open-ended bucket only if there is an open-ended statistic, although the comment
  says that the count is identical to it (`prombind9exporter.go:423-424`).

## Model

| member | source | states |
|---|---|---|
| Names.CompareNames | stork/backend/util/fqdn.go:22-54 | walking two names label by label from the right and then comparing their lengths decides the lexicographic order of the label hierarchies |
| Names.NameOrderIsTotal | stork/backend/util/fqdn.go:12-54 | name comparison is antisymmetric, transitive and total, and yields 0 exactly for names that differ in nothing but a final dot |
| Names.SubtreeIsContiguous | stork/backend/util/fqdn.go:12-54 | in any list sorted by it, the names at or below any zone are exactly one contiguous block, which starts with the zone itself if the zone is listed |
| Names.AncestorFirst | stork/backend/util/fqdn.go:45-52 | an ancestor is never ordered after a descendant |
| Names.TextOrderMeaning | stork/backend/util/fqdn.go:38-44 | texts are ordered by the first character in which they differ, and a text comes before those that it begins |
| Names.NameOrderMeaning | stork/backend/util/fqdn.go:22-54 | in terms of the text of names: the last labels decide if they differ, a name comes before names below it, and below the same name what comes before it decides |
| Names.SubtreeIsSuffix | stork/backend/util/fqdn.go:12-54 | a name lies at or below a zone if and only if the zone is the root, is the name, or is what the name ends with behind a dot, final dots aside |
| ReversedNames.ReverseInPlace | stork/backend/util/fqdn.go:60 | swapping from both ends reverses the labels in place |
| ReversedNames.ConvertNameToRname | stork/backend/util/fqdn.go:56-62 | the converted name lists the hierarchy from the top-level domain down |
| ReversedNames.RnameMeaning | stork/backend/util/fqdn.go:56-62 | a reversed name is the last label, a dot and the reversal of the rest |
| ReversedNames.RnameOrder | stork/backend/server/database/migrations/62_zones.go:12-15 | for any two names, sorting by reversed names agrees with DNS order if and only if, at the first label where the names differ, neither label begins the other, is followed by a further label, and meets a character below the dot in the longer one; this is the exact extent to which the comment in the migration holds |
| ReversedNames.PlainNamesSort | stork/backend/server/database/migrations/62_zones.go:12-15 | names without characters below the dot are sorted in DNS order |
| ReversedNames.HyphenComesBetween | stork/backend/server/database/migrations/62_zones.go:12-15 | counterexample: `x.a` comes before `a-b` in DNS order, and after it when sorted by reversed name |
| ZoneSearch.LinearSearchZone | stork/backend/appdata/bind9stats/zone.go:104-111 | the leftmost literal match or -1 |
| ZoneSearch.LinearSearchZoneLowerBound | stork/backend/appdata/bind9stats/zone.go:147-163 | the first position not ordered before the name, with equality in DNS order; -1 when there is none |
| ZoneSearch.LowerBoundMeaning | stork/backend/appdata/bind9stats/zone.go:127-163 | everything before the lower bound is ordered before the name, and what is at it is not |
| ZoneSearch.Bisect | stork/backend/appdata/bind9stats/zone.go:167-194 | on a sorted list, bisection finds that same lower bound |
| ZoneSearch.BinarySearchZone | stork/backend/appdata/bind9stats/zone.go:167-174 | the lower bound if the zone there equals the name in DNS order, else -1 |
| ZoneSearch.BinarySearchZoneLowerBound | stork/backend/appdata/bind9stats/zone.go:182-194 | the lower bound, with literal equality of the name there |
| ZoneSearch.SearchZone | stork/backend/appdata/bind9stats/zone.go:113-125 | exact search below and above the threshold of 3000 zones |
| ZoneSearch.SearchZoneLowerBound | stork/backend/appdata/bind9stats/zone.go:127-139 | lower-bound search below and above the threshold |
| ZoneSearch.SearchesAgree | stork/backend/appdata/bind9stats/zone.go:104-194 | on every sorted list, linear and binary exact search agree, and linear and binary lower-bound search agree, if and only if the first listed name that equals the query up to a final dot is spelled like it |
| ZoneSearch.ThresholdUnobservable | stork/backend/appdata/bind9stats/zone.go:113-139 | with one spelling per name the size threshold cannot be observed in any answer |
| ZoneSearch.FinalDotTellsSearchesApart | stork/backend/appdata/bind9stats/zone.go:104-194 | counterexample: `example` listed, `example.` asked for |
| ZoneViews.ApplyZoneLowerBoundFilter | stork/backend/appdata/bind9stats/filter.go:24-38 | for any non-empty bound, listed or not: what remains holds every zone ordered after the bound and none before it; a zone equal to the bound in DNS order is dropped exactly if it is the first such zone and the linear search runs or it is spelled like the bound; an empty bound keeps everything |
| ZoneViews.BehindIsKept | stork/backend/appdata/bind9stats/filter.go:24-38 | over sorted names the position of a zone is behind the start exactly under that condition on its name and the bound |
| ZoneViews.SelectedZones | stork/backend/appdata/bind9stats/view.go:64-85 | what an iteration yields: the zones behind the bound in that sense and loaded after the given time, cut off at the limit, each position once and in order |
| ZoneViews.IterateZones | stork/backend/appdata/bind9stats/view.go:64-85 | the loop with its mutable count yields the zones behind the lower bound that were loaded late enough, cut off at the limit |
| ZoneViews.View.constructor | stork/backend/appdata/bind9stats/view.go:30-36 | a new view holds exactly the given zones, in DNS order |
| ZoneViews.View.SetZones | stork/backend/appdata/bind9stats/view.go:88-91 | replaced zones are kept as they are, in DNS order |
| ZoneViews.View.GetZone | stork/backend/appdata/bind9stats/zone.go:96-101 | a zone that is found is listed and has the requested name up to a final dot; a miss means no zone has that name |
| ZoneViews.View.GetZoneIterator | stork/backend/appdata/bind9stats/view.go:64-85 | a view in memory yields exactly what the filter selects of its sorted zones |
| ZoneViews.SelectedLength | stork/backend/appdata/bind9stats/view.go:64-85 | no filter adds zones, and one without lower bound, limit and time holds none back |
| ZoneViews.SortedZonesHaveSortedNames | stork/backend/appdata/bind9stats/zone.go:76-80 | zones are sorted exactly when their names are |
| ZonePaging.StartAfterListed | stork/backend/appdata/bind9stats/filter.go:24-38 | asking for zones after a listed one starts with the next, whichever of the two searches runs |
| ZonePaging.PagesDependOnRest | stork/backend/appdata/bind9stats/filter.go:18-38 | pages behind a bound depend on nothing but the zones behind it, whatever comes before it and whether or not the bound is listed |
| ZonePaging.RemovedZoneLosesNothing | stork/backend/appdata/bind9stats/filter.go:18-38 | if the zone that ended a page is removed before the next request, the pages that follow are those of the unchanged list: nothing is lost and nothing comes again |
| ZonePaging.FullPage | stork/backend/appdata/bind9stats/view.go:64-85 | a full page ends at a listed zone, and what is still to come is exactly what is behind that zone |
| ZonePaging.PagingIsExactlyOnce | stork/backend/appdata/bind9stats/filter.go:18-38 | over zones strictly in DNS order, asking again after the last zone received until a page is short delivers every zone loaded late enough, once and in order; it comes to an end if and only if the limit is not 1 or the first such zone does not have the empty name |
| ZonePaging.EmptyNameIsFetchedForever | stork/backend/appdata/bind9stats/filter.go:24-38 | counterexample: one zone with the empty name and pages of one zone |
| ZoneStorage.ReadDir | stork/backend/agent/zoneinventory.go:253 | a directory listing is the strictly sorted list of its names, in whatever order they were found |
| ZoneStorage.MemoryStorage.SaveViews | stork/backend/agent/zoneinventory.go:414-419 | views in memory are replaced |
| ZoneStorage.MemoryStorage.StreamViews | stork/backend/agent/zoneinventory.go:375-389 | the views that the filter names and no others, in the order of the views and each once, each with the zones that the filter lets through |
| ZoneStorage.StreamedFromMemory | stork/backend/agent/zoneinventory.go:375-389 | the stream consists, item by item, of those views for which the filter has no view name or the name of the view |
| ZoneViews.KeptMeaning | stork/backend/agent/zoneinventory.go:379-383 | skipping keeps exactly the positions that pass, once each and in order |
| ZoneStorage.DiskStorage.CreateView | stork/backend/agent/zoneinventory.go:924-957 | writes zone files up to the first that cannot be created |
| ZoneStorage.FilesUntilRefused | stork/backend/agent/zoneinventory.go:924-957 | files are written for exactly the zones in front of the first whose name is empty, `.`, `..` or has a slash in it; other files stay |
| ZoneStorage.DiskStorage.SaveViews | stork/backend/agent/zoneinventory.go:296-312 | replaces the directories of the given views, stops behind the first incomplete one, and reports no error for it |
| ZoneStorage.DirsBehindStay | stork/backend/agent/zoneinventory.go:296-312 | behind a view with such a zone nothing is saved: directories of later views are as they were |
| ZoneStorage.DiskStorage.StreamFiles | stork/backend/agent/zoneinventory.go:856-905 | streams the zone files of a directory in DNS order of their names |
| ZoneStorage.DiskStorage.StreamViews | stork/backend/agent/zoneinventory.go:251-270 | streams the view directories that the filter names and no others, in the order of a directory listing |
| ZoneStorage.StreamedFromDisk | stork/backend/agent/zoneinventory.go:251-270 | the stream consists, item by item, of those directories for which the filter has no view name or the name of the directory, sorted by name |
| ZoneStorage.DiskStorage.LoadViews | stork/backend/agent/zoneinventory.go:283-293 | the time of the last saving is read, and the call crashes if and only if nothing was ever saved at the location |
| ZoneStorage.MemoryDiskStorage.SaveViews | stork/backend/agent/zoneinventory.go:202-209 | saves to disk and then to memory |
| ZoneStorage.MemoryDiskStorage.LoadViews | stork/backend/agent/zoneinventory.go:161-198 | replaces the views in memory by those on disk if and only if views were ever saved there; otherwise it crashes and replaces nothing |
| ZoneStorage.DiskStreamsLikeMemory | stork/backend/agent/zoneinventory.go:251-312 | for every filter, streaming from disk equals streaming what would be loaded into memory |
| ZoneStorage.SavedViewsAreLoaded | stork/backend/agent/zoneinventory.go:163-198 | saved views are loaded back unchanged if and only if every zone name can name a file in its directory and no directory of another view is left over |
| ZoneStorage.StoragesAgree | stork/backend/agent/zoneinventory.go:251-419 | for views with distinct names, sorted, and zones distinct in DNS order, the disk and the memory storage stream the same views, zones and order for every filter if and only if that same condition holds |
| ZoneStorage.RootZoneIsLost | stork/backend/agent/zoneinventory.go:960-973 | counterexample: a view with the root zone `.` does not survive on disk, although saving reports success |
| ZoneInventory.Inventory.TransitionUnsafe | stork/backend/agent/zoneinventory.go:626-634 | a long-lasting state is refused while one is recorded, without any change; every other transition is recorded; this is the transition that the runs take |
| ZoneInventory.Inventory.BeginPopulate | stork/backend/agent/zoneinventory.go:669-674 | populating begins unless the inventory is busy, as in the runs |
| ZoneInventory.Inventory.BeginLoad | stork/backend/agent/zoneinventory.go:715-725 | loading begins unless there is no storage on disk or the inventory is busy, as in the runs |
| ZoneInventory.Inventory.BeginReceive | stork/backend/agent/zoneinventory.go:754-768 | zones are received if and only if the last recorded state is loaded, populated or received; before anything was loaded or populated, or after that failed, the error says so, and a busy inventory refuses; refusal changes nothing; as in the runs |
| ZoneInventory.ReceiveIsAdmitted | stork/backend/agent/zoneinventory.go:754-768 | in every run, a request to receive is admitted if and only if nothing is active, the last populate or load that came to a result had succeeded, and no counting pass has failed; so none is admitted between a failed populate or load and the next successful one |
| ZoneInventory.SavedAreFetched | stork/backend/agent/zoneinventory.go:669-712 | in every run on a storage with views in memory, what a populate saves is what that populate fetched |
| ZoneInventory.StoredLast | stork/backend/agent/zoneinventory.go:669-750 | in every run, what is stored are the views that were saved or read last, those of a save that failed half way included |
| ZoneInventory.SelectedViewsMeaning | stork/backend/agent/zoneinventory.go:769-777 | the views that are counted are those that the filter asks for, each once and in order |
| ZoneInventory.DeliveredItems | stork/backend/agent/zoneinventory.go:780-808 | an item is delivered if and only if it is a selected zone of a view that is asked for, under the name of that view |
| ZoneInventory.NextKeepsInv | stork/backend/agent/zoneinventory.go:669-814 | every step of populate, load and receive, in any interleaving, keeps the invariant; the record is left busy without a task only by a failed counting pass |
| ZoneInventory.AtMostOneOperation | stork/backend/agent/zoneinventory.go:626-814 | in every run at most one operation is active, the record names it, and the record is long-lasting if and only if one is active - on every storage if and only if no counting pass failed, and always on storages that iterate over memory |
| ZoneInventory.ClosingIsNeverRefused | stork/backend/agent/zoneinventory.go:669-814 | in every run, the transition that closes populate, load or receive takes effect |
| ZoneInventory.WedgedForever | stork/backend/agent/zoneinventory.go:769-777 | after a failed counting pass no run ever changes the inventory again |
| ZoneInventory.UnreadableDirectoryWedges | stork/backend/agent/zoneinventory.go:769-777 | a run, for any views, that ends with a failed counting pass |
| ZoneInventory.BlockedForever | stork/backend/agent/zoneinventory.go:780-812 | once a receive offers a zone to a receiver that has given up, no run ever changes the inventory again |
| ZoneInventory.AbandonedReceiveBlocks | stork/backend/agent/agent.go:596-602 | a run to that point, for every storage |
| ZoneInventory.ReceiveCanEnd | stork/backend/agent/zoneinventory.go:780-812 | in every run, an admitted receive can still close if and only if it is not blocked on a zone that its receiver will not take; and without its context being cancelled, which the caller never does, if and only if its receiver takes all zones that are left |
| ZoneInventory.DeliveryLength | stork/backend/agent/zoneinventory.go:769-808 | the announced zone count is never less than what is delivered, and equals it if and only if the filter holds back no zone of a selected view |
| ZoneInventory.CompletedReceive | stork/backend/agent/zoneinventory.go:754-814 | in every run, a receive that was not cancelled has delivered, in order and completely, what the storage held when it was admitted; without lower bound, limit and time that is exactly the announced number of zones |
| ZoneInventory.ReceiveIsUndisturbed | stork/backend/agent/zoneinventory.go:754-814 | in every run no views are saved or loaded between the admission of a receive and its last zone, and what was sent is a prefix of the delivery |
| ZoneInventory.CountZones | stork/backend/agent/zoneinventory.go:769-777 | the counting pass adds up the zones of the selected views |
| ZoneInventory.SendView | stork/backend/agent/zoneinventory.go:790-808 | zones of one view are sent until the context is done, which loses none of those before |
| ZoneInventory.SendZones | stork/backend/agent/zoneinventory.go:780-812 | the nested sending loops deliver the whole stream, or its prefix up to the cancellation |
| ConfigManager.Manager.LockDaemon | stork/backend/server/apps/manager.go:108-129 | a free daemon is locked under the key and user of the context; otherwise nothing changes |
| ConfigManager.Manager.UnlockDaemon | stork/backend/server/apps/manager.go:132-147 | a daemon is released only under the key it is locked with |
| ConfigManager.Manager.Rollback | stork/backend/server/apps/manager.go:294-304 | the rollback gives back what the failed call acquired before the first occurrence of the daemon that failed |
| ConfigManager.Manager.LockDrawn | stork/backend/server/apps/manager.go:288-308 | outcome, returned context and new locks of a call that holds the mutex; this is the step that the runs take |
| ConfigManager.Manager.Lock | stork/backend/server/apps/manager.go:288-308 | the same with a fresh key |
| ConfigManager.Manager.Unlock | stork/backend/server/apps/manager.go:312-316 | releases the daemons of the context as far as they are locked under its key, as in the runs |
| ConfigManager.Manager.Done | stork/backend/server/apps/manager.go:320-332 | additionally forgets the context stored under the identifier, as in the runs |
| ConfigManager.Manager.RememberContext | stork/backend/server/apps/manager.go:216-267 | without an identifier, without a user, or with a context of another user stored under the identifier, the call fails and all contexts are unchanged; otherwise the context is stored and nothing else changes; the two steps of the runs come to the same when no other step is between them |
| ConfigManager.Manager.RecoverContext | stork/backend/server/apps/manager.go:271-282 | gives a stored context to its own user only |
| ConfigManager.UserChangesByStoring | stork/backend/server/apps/manager.go:233-253 | in one step the user stored under an identifier changes if and only if the step stores a context of another user that passed its check before |
| ConfigManager.UserChangesOnlyInBetween | stork/backend/server/apps/manager.go:233-253 | in every run such a context passed its check while nothing of another user was stored under the identifier, since checking and storing are two holds of the mutex |
| ConfigManager.SecondUserReplacesFirst | stork/backend/server/apps/manager.go:233-253 | counterexample run: two users with the same identifier check before either stores, and the second replaces the context of the first |
| ConfigManager.LockSucceeds | stork/backend/server/apps/manager.go:284-308 | locking succeeds if and only if there is a user and the daemons are distinct and free; then each is held under the new key and user, all other locks are as before, and releasing the returned context restores all |
| ConfigManager.LockFails | stork/backend/server/apps/manager.go:294-304 | a failed call leaves the locks exactly as they were if and only if there is no user or the daemon that failed was locked before the call |
| ConfigManager.RepeatedDaemonStaysLocked | stork/backend/server/apps/manager.go:294-304 | counterexample: a call for the same free daemon twice fails and leaves it locked |
| ConfigManager.DistinctDaemonsAllOrNothing | stork/backend/server/apps/manager.go:284-308 | for distinct daemons a failure at any position restores the locks |
| ConfigManager.NextKeepsInv | stork/backend/server/apps/manager.go:203-332 | every step of any interleaving keeps the invariant on keys, locks, contexts and calls under way |
| ConfigManager.LocksChangeByTheirKey | stork/backend/server/apps/manager.go:132-157 | no step takes or releases a lock except under the key of the lock itself |
| ConfigManager.WhatReleases | stork/backend/server/apps/manager.go:312-332 | a step releases a lock if and only if it is Unlock or Done of a context with the key of the lock and the daemon among its daemons |
| ConfigManager.WhatLocks | stork/backend/server/apps/manager.go:288-308 | for distinct daemons, a step takes a lock if and only if it is a call with a user for daemons that are all free |
| ConfigManager.WhatForgets | stork/backend/server/apps/manager.go:216-332 | a step forgets a stored context if and only if it is Done with its identifier, and stores one if and only if that context passed its check |
| ConfigManager.KeysBelongToCalls | stork/backend/server/apps/manager.go:68-129 | in every reachable state no key exceeds the counter, and all daemons locked under one key were asked for by the one call that drew it, by the user who holds them |
| ConfigManager.CallsAreForever | stork/backend/server/apps/manager.go:68-71 | in every run a key is never drawn twice |
| ConfigManager.HeldUntilReleased | stork/backend/server/apps/manager.go:132-157 | in every run a lock stays until Unlock or Done is given a context with its key, which is then a context of its user; stale and foreign contexts never release it |
| ConfigManager.CarriedUnlessDisplaced | stork/backend/server/apps/manager.go:216-332 | a held lock that the context stored under some identifier carries is no longer carried by it after a step if and only if the step replaces or forgets that context for one with another key |
| ConfigManager.HeldLocksStayCarried | stork/backend/server/apps/manager.go:216-332 | in every run, as long as it is held, such a lock stays carried unless in between its context was displaced in that way |
| ConfigManager.SecondLockOrphansFirst | stork/backend/server/apps/manager.go:216-308 | counterexample run: a user locks two daemons one after another in the same context and remembers it each time; no stored context carries the first lock any more |
| KeaMerge.Merge | stork/backend/appcfg/kea/keaconfig.go:534-568 | merging key by key, in whatever order the keys come, gives the recursively specified tree |
| KeaMerge.MergedKeys | stork/backend/appcfg/kea/keaconfig.go:529-568 | what becomes of each key: silent keys are unchanged, a null removes anything but an object, an object survives a value that is none, two objects are merged in turn, every other value replaces, and nulls directly in touched objects are dropped |
| KeaMerge.MergedNullFree | stork/backend/appcfg/kea/keaconfig.go:554-562 | the merge into a null-free tree is null-free if and only if every null of the source meets an object of the destination or the newly added value itself |
| KeaMerge.SelfMerge | stork/backend/appcfg/kea/keaconfig.go:534-568 | merging a tree with itself is the identity if and only if it is null-free |
| KeaMerge.MergedTwice | stork/backend/appcfg/kea/keaconfig.go:534-568 | at any depth, a second merge of the same source changes nothing under that same condition and no other |
| KeaMerge.MergeIsCleanAndIdempotent | stork/backend/appcfg/kea/keaconfig.go:529-568 | for a null-free destination, the result is null-free, and merging again changes nothing, each if and only if the nulls of the source meet it |
| KeaMerge.NullFreeMeets | stork/backend/appcfg/kea/keaconfig.go:534-568 | a null-free source satisfies that condition for every destination |
| KeaMerge.DeepNullSurvives | stork/backend/appcfg/kea/keaconfig.go:554-562 | counterexample: a null two levels inside a new object stays |
| IncludeExpansion.Deeper | stork/backend/util/util.go:341-370 | each nested call has fewer files that are not above it, except for one last call for a missing file |
| IncludeExpansion.ReadFileWithIncludes | stork/backend/util/util.go:307-388 | replacing statements by index from the last to the first gives the left-to-right recursive expansion; on an error there is none, and the error names a missing file that is reached, or a reached file and a file it includes that is above the expansion or comes back to itself |
| IncludeExpansion.FilledWithStatements | stork/backend/util/util.go:341-385 | putting the statements themselves in their places gives back the text of the file, so nothing else is replaced, moved or left out |
| IncludeExpansion.ExpansionIsFilled | stork/backend/util/util.go:341-385 | an expansion is the text of the file with the expansion of the named file in place of each statement |
| IncludeExpansion.ChainsAreSound | stork/backend/util/util.go:307-388 | after success no chain of includes ends at a missing file or comes back to itself |
| IncludeExpansion.UnsoundChain | stork/backend/util/util.go:307-388 | every failure has a chain of includes that does |
| IncludeExpansion.SucceedsWithoutCycles | stork/backend/util/util.go:301-388 | reading succeeds if and only if every file reached exists and none is reached from itself; files reached on several ways are no obstacle |
| IpPrefixes.ParseIP | stork/backend/util/cidr.go:57-109 | the step-by-step filling of the parsed structure, with its rewriting of full and zero lengths |
| IpText.ParseText | stork/backend/util/cidr.go:57-109 | an address, or an address and a length of digits that fits it behind one slash, is parsed; everything else is refused |
| IpText.ParsedIsPlain | stork/backend/util/cidr.go:57-109 | nothing is parsed that has commas or outer white space |
| IpText.ReadPrefix | stork/backend/util/cidr.go:57-109 | a text with a length behind it is read as a prefix exactly if the text is an address that the length fits |
| IpPrefixes.GetNetworkPrefixAsBinary | stork/backend/util/cidr.go:241-267 | joining sixteen bytes digit by digit and cutting gives the leading bits of the network prefix |
| IpPrefixes.BinaryIsBlock | stork/backend/util/cidr.go:57-109 | the binary string is that of the block of addresses written if and only if the length is at least one and the notation is no shortened IPv6 prefix of mapped IPv4 addresses |
| IpPrefixes.CoverIsPrefix | stork/backend/util/cidr.go:241-267 | for such notations of either family, one block covers another if and only if its string begins the string of the other |
| IpPrefixes.BinaryIsInjective | stork/backend/util/cidr.go:241-267 | for such notations, equal strings mean equal blocks and the reverse |
| IpPrefixes.MappedPrefixCollides | stork/backend/util/cidr.go:241-267 | counterexample family: short prefixes of mapped addresses share their string with another block |
| IpPrefixes.DelegatedParts | stork/backend/util/cidr.go:191-211 | membership in a delegated range means sharing the leading bits of the pool and having no bits behind the delegated length |
| IpPrefixes.DelegatedSize | stork/backend/util/cidr.go:191-235 | the number of canonical IPv6 prefixes of the delegated length that are accepted equals the calculated size if and only if the delegated length is below the pool length or between 1 and 127 |
| IpPrefixes.AcceptedNotations | stork/backend/util/cidr.go:191-211 | for all notations, what belongs to a range: prefixes shorter than an address whose length after parsing is the delegated one and that share the leading bits |
| IpPrefixes.AcceptedAtFullLength | stork/backend/util/cidr.go:78-106 | at the delegated length 128 exactly IPv6 notations with length zero are accepted, none that is written with 128 |
| IpPrefixes.AllBitsSize | stork/backend/util/cidr.go:223-235 | there are 2^n bit strings of length n |
| IpPrefixes.NotAfterIsNumeric | stork/backend/util/cidr.go:173-187 | comparing addresses byte by byte compares the numbers they denote |
| IpPrefixes.RangeSize | stork/backend/util/cidr.go:173-220 | the number of addresses that are in a range equals its calculated size if and only if the lower bound is at most one above the upper bound |
| Fqdn.ParseFqdn | stork/backend/util/fqdn.go:105-156 | accepts a text exactly when an acceptable name has that text once trimmed, and returns that name |
| Fqdn.NameRules | stork/backend/util/fqdn.go:105-147 | which names are acceptable: one or more labels, or with a final dot three or more, of which the last follows its own rule |
| Fqdn.LabelRule | stork/backend/util/fqdn.go:125-147 | which labels are: letters, digits and hyphens without a hyphen at either end; the last of a full name two or more letters |
| Fqdn.CheckTopLabel | stork/backend/util/fqdn.go:125-134 | the last label of a full name |
| Fqdn.CheckLabel | stork/backend/util/fqdn.go:135-147 | every other label |
| Fqdn.TextIsInjective | stork/backend/util/fqdn.go:103-156 | no two acceptable names have the same text |
| Fqdn.ToBytes | stork/backend/util/fqdn.go:81-101 | each label behind its length, which is cut off to a byte, and the root for full names |
| Fqdn.WireRoundTrip | stork/backend/util/fqdn.go:79-101 | the wire form of section 3.1 of RFC 1035 decodes to the same labels and flag if and only if no label is longer than 255 octets |
| Fqdn.AcceptedRoundTrip | stork/backend/util/fqdn.go:79-156 | every accepted name within the 63 octets of section 2.3.4 of RFC 1035 is decoded to itself |
| OptionFields.ConvertField | stork/backend/appcfg/kea/optionfield.go:354-621 | a field is printed exactly when its values fit its type, as the text of its type |
| OptionFields.NumberPrinted | stork/backend/appcfg/kea/optionfield.go:427-485 | for each of the six integer types, a number is printed if and only if its text is valid for the type; numbers from 2^63 on are judged by what they wrap around to |
| OptionFields.TextPrinted | stork/backend/appcfg/kea/optionfield.go:361-621 | an address or a name is printed if and only if it is valid for the type when parsed, except that an IPv6 prefix is printed as an address too |
| OptionFields.PairPrinted | stork/backend/appcfg/kea/optionfield.go:538-597 | a port set identifier is printed if and only if its text is valid and no part is zero; a prefix if and only if its address can be printed and the length is between 1 and 128 |
| OptionFields.ParseDHCPOptionField | stork/backend/appcfg/kea/optionfield.go:169-352 | a text is parsed exactly when it is valid for the type, to the values of its type |
| OptionFields.SignedNumbers | stork/backend/appcfg/kea/optionfield.go:275-326 | which numbers a text of digits denotes with and without a sign, and that unsigned fields take no sign |
| OptionFields.ParsePrinted | stork/backend/appcfg/kea/optionfield.go:275-326 | printed integers are parsed back exactly within the range of the width |
| OptionFields.IntRoundTrip | stork/backend/appcfg/kea/optionfield.go:427-485 | for each of the six widths, parsing a printed number gives it back if and only if it is in range |
| OptionFields.PrintedPsid | stork/backend/appcfg/kea/optionfield.go:338-352 | a printed port set identifier and its length are parsed back if and only if they fit 16 and 8 bits |
| OptionFields.PrefixRoundTrip | stork/backend/appcfg/kea/optionfield.go:538-562 | a printed IPv6 prefix is parsed back if and only if its address is the usual text of an unmapped address without bits behind the length, and the length is between 1 and 127 |
| OptionFields.FieldRoundTrip | stork/backend/appcfg/kea/optionfield.go:169-621 | for every type, a field is printed, free of separators, and parsed back to the same values if and only if a condition holds that a caller can check of its type and values |
| OptionFields.InferDHCPOptionField | stork/backend/appcfg/kea/optionfield.go:82-164 | a text of unknown type is taken for the first of eight types that it fits, in a fixed order |
| OptionFields.InferredTypes | stork/backend/appcfg/kea/optionfield.go:82-164 | for each of the eight types, exactly which texts are taken for it: those valid for it and for no type tried before, and of the names only those with a final dot |
| OptionFields.TruthNumbers | stork/backend/appcfg/kea/optionfield.go:266-272 | of the numbers, 0 and 1 are taken for truth values, and no others |
| OptionFields.InferredIsParsed | stork/backend/appcfg/kea/optionfield.go:82-164 | for every text, parsing it for the inferred type gives the inferred values |
| OptionFields.InferredIsConvertible | stork/backend/appcfg/kea/optionfield.go:82-164 | for every text, the inferred field can be printed if and only if the text is not empty and was not taken for a port set identifier with a zero part |
| Options.DefinedTypes | stork/backend/appcfg/kea/optiondef.go:94-120 | which type a definition has at each position: records in sequence, arrays over and over again, nothing behind the end |
| Options.CreateSingleOptionData | stork/backend/appcfg/kea/option.go:23-84 | the option is printed exactly when every field can be, as comma separated values |
| Options.CreateDHCPOption | stork/backend/appcfg/kea/option.go:98-158 | with a definition, values are trimmed and parsed in turn, each for the type at its position, until a position without a type, and one invalid value makes the whole option an error; without one, the type of every value is inferred |
| Options.ParsedFields | stork/backend/appcfg/kea/option.go:132-158 | fields are parsed from values if and only if they have, position by position, the type of the definition and the values of the trimmed text, and end only where the values or the types end |
| Options.ParsedUntrimmed | stork/backend/appcfg/kea/option.go:109-133 | trimming the whole data does not change what is parsed |
| Options.CommaIsLost | stork/backend/appcfg/kea/option.go:132-158 | a field printed with a comma in it is never parsed back |
| Options.OptionRoundTrip | stork/backend/appcfg/kea/option.go:23-158 | printing the fields of an option with a definition and parsing the data gives the same fields if and only if every field satisfies its condition and the definition has the types of the fields position by position; for empty, scalar, array, record and array of record definitions |
| HexOptions.BytesToHex | stork/backend/util/util.go:256-263 | two upper-case digits for each byte |
| HexOptions.HexToBytesRoundTrip | stork/backend/util/util.go:256-271 | for all bytes, decoding the digits gives the bytes back |
| HexOptions.BigEndianValue | stork/backend/appcfg/kea/optionfield.go:427-485 | the bytes of a number denote it if and only if it fits their count |
| HexOptions.ByteAt | stork/backend/appcfg/kea/optionfield.go:491-531 | each byte of an address is the number that its eight bits denote |
| HexOptions.AddressBytes | stork/backend/appcfg/kea/optionfield.go:491-531 | an address has four bytes for IPv4 and sixteen for IPv6 |
| HexOptions.AddressBytesOfText | stork/backend/appcfg/kea/optionfield.go:491-531 | dotted notation, and notation with colons that stands for no IPv4 address, has the bytes of the bits that it denotes |
| HexOptions.FixedWidth | stork/backend/appcfg/kea/optionfield.go:427-485 | printing a number that fits with leading zeros gives the digits of its big-endian bytes, for every width |
| HexOptions.IntWireRoundTrip | stork/backend/appcfg/kea/optionfield.go:427-485 | for each of the six integer types, reading the two's complement bytes gives the number back if and only if it is in range |
| HexOptions.ConvertFieldToHex | stork/backend/appcfg/kea/optionfield.go:354-621 | a field is printed as digits exactly when it can be printed as text |
| HexOptions.HexTextIsWire | stork/backend/appcfg/kea/optionfield.go:354-621 | for every field type, the digits decode to the bytes that the field stands for in a message |
| HexOptions.CreateSingleOptionData | stork/backend/appcfg/kea/option.go:23-84 | without a definition the option is printed exactly when every field can be, as the digits of all fields |
| HexOptions.CreateDHCPOption | stork/backend/appcfg/kea/option.go:109-171 | blank data have no fields; all other data are one binary field without separators and outer white space; digits come back as they are |
| HexOptions.HexDataIsWire | stork/backend/appcfg/kea/option.go:73-83 | the printed data decode to the bytes of all fields one after another |
| HexOptions.HexFormIsStable | stork/backend/appcfg/kea/option.go:23-171 | whatever is parsed from printed data is at most one field of the same bytes, and is printed as the same data again, so that any number of trips keeps the bytes |
| BigCounters.BigCounter.InitExtended | stork/backend/util/bigcounter.go:45-51 | the value moves to the extended form and the base is saturated |
| BigCounters.BigCounter.Add | stork/backend/util/bigcounter.go:53-67 | the value grows by that of the other counter, which may be the same one, and the form stays that of the value |
| BigCounters.BigCounter.AddUint64 | stork/backend/util/bigcounter.go:69-83 | the value grows by the number |
| BigCounters.BigCounter.AddBigInt | stork/backend/util/bigcounter.go:85-101 | the value grows by a number that is not negative; negative numbers are refused and change nothing |
| BigCounters.BigCounter.ToInt64 | stork/backend/util/bigcounter.go:127-134 | exact, or the greatest signed number |
| BigCounters.BigCounter.ToUint64 | stork/backend/util/bigcounter.go:146-162 | the value clamped to the range, and whether that is exact |
| BigCounters.BigCounter.ToBigInt | stork/backend/util/bigcounter.go:164-170 | always exact |
| BigCounters.NewBigCounterFromInt64 | stork/backend/util/bigcounter.go:190-197 | a counter of that value unless it is negative |
| BigCounters.NewBigCounterFromBigInt | stork/backend/util/bigcounter.go:199-214 | a counter of that value, in the form of its size, unless it is negative |
| BigCounters.Perform | stork/backend/util/bigcounter.go:53-101 | one addition to one of many counters leaves the others alone |
| BigCounters.Accumulate | stork/backend/util/bigcounter.go:53-101 | after any sequence of additions to any number of counters, counters added to themselves included, each holds the mathematical sum in the form of its size |
| BigCounters.LinearCombination | stork/backend/util/bigcounter.go:53-101 | after any additions, each counter holds the linear combination of what all counters held and of the inputs, in which everything counts once for each chain of additions that brings it there |
| BigCounters.SelfAdditionsDouble | stork/backend/util/bigcounter.go:53-67 | a counter added to itself n times counts 2^n times |
| BigCounters.FormIsCanonical | stork/backend/util/bigcounter.go:45-51 | the value alone decides the form: extended if and only if it exceeds 2^64 - 1 |
| Histograms.QryRTTHistogram | stork/backend/agent/prombind9exporter.go:425-485 | fails exactly for a malformed round trip time; otherwise the cumulative histogram of the statistics in the order they were visited |
| Histograms.TimeStat | stork/backend/agent/prombind9exporter.go:428-469 | the bucket of `QryRTT` and a time is a thousandth of what the time denotes; a time that denotes nothing is malformed; other names say nothing |
| Histograms.TimeBuckets | stork/backend/agent/prombind9exporter.go:425-485 | each bucket of the histogram is the sum of all statistics of round trips up to its time, in terms of names |
| Histograms.TrafficSizesHistogram | stork/backend/agent/prombind9exporter.go:493-536 | the same for sizes, starting with an empty open-ended bucket; a size range counts up to its second part |
| Histograms.RangeStat | stork/backend/agent/prombind9exporter.go:500-523 | for a name of two parts with one dash between them, the second part is the bucket, or the name is malformed |
| Histograms.OpenEndedStat | stork/backend/agent/prombind9exporter.go:500-509 | a name that ends with a plus sign stands for the open-ended bucket, in both histograms |
| Histograms.OtherStat | stork/backend/agent/prombind9exporter.go:509-513 | any other name changes nothing |
| Histograms.SizeBuckets | stork/backend/agent/prombind9exporter.go:493-536 | each bucket of the histogram is the sum of all statistics of packets up to its size, in terms of names, and the open-ended one is the count |
| Histograms.Accumulate | stork/backend/agent/prombind9exporter.go:472-484 | sorting the bounds and replacing counts by running sums makes each bucket the sum, modulo 2^64, of all counts up to its bound, and the count the sum of all |
| Histograms.CountIsInfiniteBucket | stork/backend/agent/prombind9exporter.go:487-492 | the open-ended bucket exists and equals the count if and only if it is there from the start, as for traffic sizes, or there is an open-ended statistic |
| Histograms.GrowsUnlessWrapped | stork/backend/agent/prombind9exporter.go:420-421 | buckets never decrease from bound to bound if and only if the total fits 64 bits, and then each is the exact sum |
| Histograms.CumulativeDetermines | stork/backend/agent/prombind9exporter.go:472-484 | running sums determine the counts they were made from |
| Histograms.OrderMattersUnlessUnambiguous | stork/backend/agent/prombind9exporter.go:428-469 | the histogram is the same for all orders of visiting the statistics if and only if statistics of the same bucket have the same count |
| Histograms.SumByName | stork/backend/agent/prombind9exporter.go:428-484 | with distinct buckets, sums over buckets are sums over the statistics that name them |
| Histograms.BucketsAreSums | stork/backend/agent/prombind9exporter.go:428-485 | with distinct buckets and no overflow, each bucket is the sum of all statistics up to its bound, buckets never decrease, and the count is the total, for every order of visit |

## Left out

- Network and process plumbing: gRPC, HTTP, certificates, rndc and nsd-control, Prometheus registration, the database,
  hooks and the web interface.
- Names with escaped dots: names split at every dot, as they do without escapes.
- Strings compare by code point, which is the byte order of valid UTF-8; the reversed names are compared that way too,
  where a database may be set up with another collation.
- Sorting algorithms: sorting is insertion sort as a function. Where elements are distinct in the order the result is
  the same for every algorithm (`Orders.StrictlySortedUnique`); among zones equal in DNS order the order is not modelled.
- ZoneStorage.DiskStorage.SaveViews: view names that cannot be directories of their own are excluded, and a zone name
  with a slash counts as one that cannot be created, because paths outside the directory are not part of the model;
  neither are permissions, full disks and limits on file names.
- ZoneStorage.MemoryDiskStorage.SaveViews: excludes the same view names, since it saves to disk first.
- Encoding a zone as JSON and back is the identity. Files that cannot be read or decoded are not modelled, other than
  the failing directory listing in the counting pass.
- `getZoneInView`, and the offset of a filter. That loading from a location without metadata crashes is modelled for the
  storages; in the runs of the inventory a crash is the end of a run.
- Clocks: the time at which a state is entered, and at which a zone was loaded, is a parameter.
- Notification channels and wait groups.
- ConfigManager.Manager.GenerateKey: the key is drawn without the mutex; it is one atomic step, as if the increment
  could not be interrupted.
- ConfigManager.Manager.Done: timers and cancel functions are not modelled; a timer is a call of Done at any later time
  with any context that was ever known.
- Commit, Schedule and what is carried out under the locks.
- KeaMerge.Merge: works on values. That the result shares objects with the source, and the change in place that a
  later merge would make to the source through it, is not modelled. Arrays are indivisible values, as they are for the
  code.
- Include statements are given by their positions and resolved targets; finding them by regular expression and cleaning
  paths is left out. A root path that is spelled differently from the resolved targets counts as a different file.
- How a single IP address is read and written, apart from the prefix length; IPv4 range bounds of four bytes; and ranges
  written as text. Addresses are bit sequences, compared in their 128 bit form.
- HexOptions.ConvertFieldToHex: how text is encoded in UTF-8 is a parameter.
- The encapsulated option space.
- OptionFields.ConvertField: Go's separate integer types are one type of whole numbers of up to 64 bits.
- BigCounters.BigCounter.ToBigInt: returns the number. In the code an extended counter hands out its own big integer,
  which a caller could change.
- Division and floating point readings of counters.
- Floating point: bucket bounds are real numbers or infinite, without NaN and rounding, and counts are whole numbers.
- hideSensitiveData and the accessors of all structures, which would only add easy members.
