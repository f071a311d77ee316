# Notification Junction: a verified model

Notification Junction is a hub between applications and notification providers (NPs).
Applications register with providers; requests travel as small strings of `key::val`
pairs. The hub keeps two registries, each written twice: as a circular linked list and
as an intrusive hash table; a reader-writer lock guards them.

This project models, in Dafny, and proves properties of

* **the intrusive hash table** (`Elements`, `Buckets`, `Expand`, `Bloom`, `Bits`, `HashTable`,
  `Fsck`, `TableRuns`, `TableLaws`): elements that are on the application-order list and on a bucket chain at
  once, bucket doubling with its adaptive thresholds, the optional Bloom filter, and the
  integrity check `HASH_FSCK`. The hash function is an arbitrary function of the key.
  `TableRuns.RunTable` takes any history of puts, drops, look-ups and sorts through a table of its own
  and is proved to give what the same history on a sequence of pairs gives; `TableLaws` says what
  that is, call by call and against a finite map;
* **its in-place merge sort** (`MergeSort`, `ListSort`), which is proved to compute the one
  stable sorting of the list for every total preorder;
* **the registries of applications** (`Sequences`, `Trailing`, `Circular`, `Registry`, `RegistryLaws`, `Entries`,
  `AppHash`, `AppList`, `Simulation`): records with trailing provider lists, kept in the hash table and in the
  circular list, and an exact account of when the two agree over whole runs;
* **the registries of providers and the hub itself** (`NpHash`, `NpList`, `Hub`, `Accounting`, `CallLaws`,
  `Losses`, `Departures`, `Junction`, `Commands`, `CommandLaws`): registration and unregistration of both
  kinds, what every call answers and changes, cross-table consistency, the counts and how far they are off
  after any run, and the calls as they arrive, as strings;
* **the reader-writer lock** (`RdwrLock`, `LockCode`): a transition system over any number of
  threads with spurious wake-ups and barging, and the lock functions as code that these threads run;
* **concurrent use of the registries** (`Linearize`, `Realize`, `Concurrent`, `TwoHolds`): threads that look up and act as
  separate steps under that very lock, linearizable for the hash tables, which hold it throughout, and not for
  the list, which gives it back in between;
* **the argument language** (`Strings`, `ArgList`, `Convert`, `Request`): `strtok` and `strstr`,
  extraction, comparison, the merge with defaults, look-up of a value, and the request envelope
  from the application to the provider.

Classes stand for the structures that the code updates in place, and their methods are proved
against functions on sequences; the lemmas are about these functions. Ghost fields and parameters
carry the sequences. `dafny verify dfyconfig.toml` checks everything.

## Where the code departs from its comments

The model follows the code. Where that differs from what the comments say, the difference is
stated and its exact extent proved:

* `del_app_ref` drops a trailing node that is alone whatever its name, and `del_app_ref_hash` takes
  an empty name to mean the whole application and reads the head of an empty list. The two
  implementations take the same step exactly on the calls described by `Registry.Common`
  (`Registry.SameStep`, `Simulation.Simulation`).
* `add_app_ref` leaves `np_count` at 0 for an application that comes with its first provider; the hash
  form counts it. `Entries.CountsOk` says what the field is in each.
* `add_np` replaces a provider that is already there, `add_np_to_hash` refuses it
  (`NpList.SameRegistration`, `NpList.ReplacedExample`).
* `unregister_np` never resets its flag between applications, stops at the first application if that
  does not hold the provider, drops the single provider of a later application whatever its name,
  and otherwise follows a null pointer. `Accounting.UnregisterNpAsIntended` and
  `Accounting.UnregisterNpBreaks` give both conditions, `Departures` a run for each case.
* `unregister_app` never decrements a provider's count, although the comments on `del_app_ref` ask for
  it. `Accounting.UnregisterAppSlack` says by how much the count is off after a call,
  `Losses.CodeRunSlack` after a whole run, and `Accounting.IntendedRunBalanced` what holds with the decrements in place.
* `register_app` hands an empty string, not a null pointer, to the registry if no provider is named,
  so that a placeholder with the empty name is registered.
* `extract_key_val` writes behind its array if the string has a token but no `::` at all, and copies from a
  null pointer if it has no token (`ArgList.ExtractKeyVal`, `ArgList.ExtractsSafely`); `register_np` lets a
  string of the first kind pass (`Commands.RegisterNpBreaks`).
* `compare_array` frees a key that it never extracted if one of the lists is empty (`Convert.CompareArray`).
* `add_app_ref` looks the application up under one hold of the lock and inserts it under another
  (`TwoHolds.ListRace`, `TwoHolds.FreedExample`, `TwoHolds.ListSafe`).
* A lock function called without a matching hold can let a writer in beside a reader
  (`RdwrLock.UnmatchedBreaksExclusion`).

A step that would follow a null or unset pointer is the outcome `Fault`, `Crash`, `Broken` or `Breaks`, and
ends a run.

## Model

| member | source | states |
|---|---|---|
| Bits.MaskIsMod | uthash.h:207-210 | masking a hash value with the number of buckets less one is reduction modulo that number |
| Bits.IdealLength | uthash.h:671-690 | shift and mask give the rounded-up quotient of items by buckets, so it is positive while there is an item |
| Bits.CeilDivIs | uthash.h:661-673 | that quotient is n/b, plus one if there is a remainder |
| Bits.DoublingSplits | uthash.h:693-697 | an element of bucket i goes to bucket i or i plus the old size |
| Bloom.Index | uthash.h:117-140 | every bit that is set or tested lies within the allocated bytes |
| Bloom.Add | uthash.h:136-140 | afterwards exactly the values that tested positive before, or share the new bit, test positive |
| Bloom.ClearTestsNone | uthash.h:117-148 | a filter without bits lets no hash value through |
| Buckets.ChainsDisjoint | uthash.h:622-646 | no element is on two chains |
| Buckets.PushFront | uthash.h:622-629 | the element becomes the head of its chain, with all links and the count right, and no other bucket changes |
| Buckets.Unlink | uthash.h:636-646 | the element leaves its chain, with all links and the count right, and no other bucket changes |
| Expand.Rebucket | uthash.h:697-709 | one turn of the redistribution keeps the links, the multipliers and the count of excess items exact |
| Expand.Drain | uthash.h:694-711 | draining one old chain moves all of it, and only it, to its two new chains |
| Expand.Redistribute | uthash.h:692-712 | the new array holds every element of the old one on the chain of its hash, and the tuning numbers are those of the chains |
| Expand.NonidealPush | uthash.h:699-703 | the running count of excess items is the sum over the chains of what exceeds the ideal length |
| Expand.NonidealCounts | uthash.h:699-703 | that sum is the number of elements that stand further back on their chain than the ideal length |
| Expand.MultIs | uthash.h:697-703 | the multiplier says how often the ideal length goes into a chain that is longer, and is 0 for any other |
| HashTable.MovedIsDoubled | uthash.h:692-712 | every new chain b is the part of old chain b mod n that hashes to it, reversed |
| HashTable.PickedAll | uthash.h:692-712 | such a part has exactly the members of the old chain that hash to the new bucket |
| HashTable.Table.constructor | uthash.h:916-947 | an empty table is valid |
| HashTable.Table.Find | uthash.h:103-114 | returns the element with the key if there is one and null if there is none, with or without the Bloom filter |
| HashTable.Table.FindCovers | uthash.h:103-148 | an element with the key is on the chain searched, and the filter lets its hash value through |
| HashTable.FindInBkt | uthash.h:608-619 | the walk along a chain finds the element with the key if the chain has one |
| HashTable.Table.ToBkt | uthash.h:207-210 | the mask selects the bucket of the hash value modulo the number of buckets |
| HashTable.Table.DoubleBuckets | uthash.h:677-715 | the array is replaced by one twice as long, relinked, with the ideal length, the excess and the multipliers as specified |
| HashTable.Table.ExpandBuckets | uthash.h:677-723 | two expansions in a row that leave more than half of the items in excess switch expansion off |
| HashTable.Table.AddToBkt | uthash.h:622-633 | the buckets are doubled exactly if expansion is on and the chain, with the element, has (expand_mult+1)*10 members or more; if not, array, sizes and multipliers are as they were and the element is first on its chain |
| HashTable.Table.MakeTable | uthash.h:150-166 | a new table has 32 empty buckets with multiplier 0, no tuning yet, and a filter that lets nothing through |
| HashTable.Table.Add | uthash.h:182-205 | a new element is last in application order and all else stays; the first makes a table of 32 buckets; a later one doubles them exactly at the threshold, with the new tuning numbers, and changes no size otherwise; the filter lets exactly what shares its bit through in addition |
| HashTable.Table.Delete | uthash.h:224-257 | the element is gone, the order of the rest and every multiplier stays, the whole invariant is kept; the last element takes the table with it |
| HashTable.Table.Sort | uthash.h:730-815 | the order becomes the merge sort of the old order, and no chain, and so no look-up, changes |
| HashTable.Table.Shape | uthash.h:622-723 | 32 buckets times 2 for every expansion; each element on exactly the chain of its hash; no chain above (expand_mult+1) times max(10, ideal) while expansion is on |
| HashTable.Table.CrowdNeedsTen | uthash.h:622-633 | no element doubles the buckets of a table that holds, with it, fewer than ten |
| Fsck.WalkChain | uthash.h:296-309 | the walk counts the chain and reports exactly whether every back link is right |
| Fsck.CheckChains | uthash.h:294-317 | counts all elements, and reports exactly the chains with a wrong link or count |
| Fsck.Check | uthash.h:287-337 | passes exactly the tables whose back links, bucket counts, item count and order agree |
| Fsck.TotalIsItems | uthash.h:294-321 | no element is counted twice over the chains |
| Fsck.ValidIsSound | uthash.h:282-337 | the invariant that all operations keep passes the check |
| MergeSort.MergeSorted | uthash.h:756-800 | merging two sorted runs gives a sorted run |
| MergeSort.MergeStable | uthash.h:771-788 | merging keeps the order of elements that compare equal, the left run's first |
| MergeSort.PassSorted | uthash.h:739-812 | a pass doubles the length of the sorted runs |
| MergeSort.SortFromCorrect | uthash.h:736-814 | from sorted runs of any length on, the passes end in a sorted and stable result |
| MergeSort.SortCorrect | uthash.h:730-815 | for every total preorder the result is sorted and stable |
| MergeSort.StableSortUnique | uthash.h:730-815 | a sorted and stable result is unique, so there is nothing else to know about it |
| MergeSort.SortMembers | uthash.h:730-815 | for any comparison function the result is a permutation |
| ListSort.MergeStep | uthash.h:756-800 | taking one element in place continues the merge of the two runs, with the emitted part doubly linked |
| ListSort.MergeRuns | uthash.h:755-801 | the inner loop emits exactly the merge of the two runs |
| ListSort.Advance | uthash.h:746-754 | steps over one run, or to the end |
| ListSort.SortPass | uthash.h:740-810 | one pass in place is one pass on the sequence, and tells whether it merged more than once |
| ListSort.SortList | uthash.h:730-815 | the loop ends and leaves the sorted sequence doubly linked, with head and tail |
| TableRuns.SortMatches | uthash.h:730-815 | sorting elements by key is sorting the pairs they stand for |
| TableRuns.DoPut | uthash.h:182-205 | look-up and add act as the put on pairs |
| TableRuns.DoDrop | uthash.h:224-257 | look-up and delete act as the drop on pairs, which TableLaws.AfterDrop describes |
| TableRuns.DoArrange | uthash.h:730-815 | sorting acts as the sort on pairs |
| TableRuns.Contents | uthash.h:878-886 | iteration gives the pairs in order |
| TableRuns.RunTable | uthash.h:103-257 | any history on a real table, for every hash function, with or without a filter, answers and leaves what it does on a sequence of pairs; there are at least 32 buckets, doubled at most once for each put that left ten pairs or more, and exactly 32 if there never were ten |
| TableRuns.NeverCrowded | uthash.h:622-633 | a history in which there never were ten pairs has no put that counts for a doubling |
| TableLaws.RunKeys | uthash.h:182-257 | after any history no key is there twice |
| TableLaws.AfterPut | uthash.h:182-205 | after any history: a put of a new key makes its pair the last, changes nothing else, and a look-up finds the value; it is refused exactly if the key is there, and changes nothing |
| TableLaws.AfterDrop | uthash.h:224-257 | after any history: a drop filters out the pairs of its key, a look-up then misses it, and it is refused exactly if the key is not there |
| TableLaws.AfterLook | uthash.h:103-114 | after any history: a look-up changes nothing, finds exactly the value that stands with the key, and misses exactly a key that is not there |
| TableLaws.AfterArrange | uthash.h:730-815 | after any history: sorting keeps every pair and, by a total preorder of the keys, leaves them sorted and equal ones as they stood |
| TableLaws.RunIsMap | uthash.h:103-257 | the answers of any history are those of a finite map, so no sorting ever changes one, and the contents are the map's |
| Trailing.Entry.Search | app_dcll.c:790-800 | finds a node of the name if and only if there is one |
| Trailing.Entry.LastUnless | app_dcll.c:338-357 | ends at the last node unless the name is there |
| Trailing.Entry.AddNp | app_dcll.c:604-633 | appends a new name and counts it, refuses a name that is there |
| Trailing.Entry.UnlinkAfterHead | app_dcll.c:682-699 | removes the first node of the name behind the head, or nothing |
| Trailing.Entry.DelChecked | app_dcll.c:670-706 | removes exactly the first node of the name, keeping the order of the rest, or refuses |
| Trailing.Entry.DelLone | app_dcll.c:449-502 | the same, but a node that is alone goes whatever its name |
| Trailing.Entry.Trace | nj.c:1565-1576 | finds the node and its predecessor, if the name is there |
| Trailing.Entry.SweepTurn | nj.c:1565-1600 | what one turn of unregister_np does to a list, by the flag, the count and what the search left behind |
| Circular.List.Search | app_dcll.c:141-175 | at most count steps around the ring find the name if it is there |
| Circular.List.InsertLast | app_dcll.c:304-323 | insertion before the head, in its three cases, keeps the ring and appends to the order |
| Circular.List.Remove | app_dcll.c:382-402 | unlinking, in its three cases, keeps the ring and removes that node only |
| Registry.KeepsProper | app_dcll.c:257-745 | application names stay distinct, and so do the providers of each, whatever is called on either implementation |
| Registry.SameStep | app_dcll.c:372-745 | the implementations take the same step exactly on the common calls |
| Registry.LoneNodeExample | app_dcll.c:455-461 | a call that unregisters a provider it was not asked about |
| RegistryLaws.AddMeans | app_dcll.c:257-363 | a registration is answered 0 exactly if it is new, is there afterwards in any case, and no other changes |
| RegistryLaws.AddIsLast | app_dcll.c:257-363 | it goes to the end of its application's list, and a new application to the end |
| RegistryLaws.RemoveMeans | app_dcll.c:372-745 | both registries remove a whole application alike: it is filtered out, and the answer is 0 exactly if it was there |
| RegistryLaws.DelHashMeans | app_dcll.c:642-745 | the hash registry takes a registration back exactly if it is there, answering 0, and takes no other |
| RegistryLaws.DelListMeans | app_dcll.c:372-531 | the list registry does the same, except that a provider that is alone goes whatever was asked for |
| RegistryLaws.QueryMeans | app_dcll.c:219-248 | a query changes nothing and is answered 1 exactly if an application of the name holds the provider |
| Entries.OneChanged | app_dcll.c:569-633 | a change to one record leaves all others as they were |
| Entries.AddTo | app_dcll.c:604-633 | registering with a known application appends to its list and to no other |
| Entries.CutFrom | app_dcll.c:664-706 | the hash registry's removal takes one provider from one application |
| Entries.CutLone | app_dcll.c:442-502 | the list registry's removal does the same, but for a node that is alone |
| Entries.SweepFrom | nj.c:1563-1602 | a turn of the sweep changes one application |
| AppHash.HashStructApp.FindStr | app_dcll.c:569-570 | the element found is at the application's position in the abstract registry |
| AppHash.HashStructApp.AddAppRef | app_dcll.c:541-634 | add_app_ref_hash is Add on the abstract registry |
| AppHash.HashStructApp.DelAppRef | app_dcll.c:642-745 | del_app_ref_hash is DelHash on the abstract registry |
| AppHash.HashStructApp.GetReg | app_dcll.c:775-806 | get_reg_hash finds a registration if and only if it exists |
| AppHash.HashStructApp.SweepAll | nj.c:1563-1602 | the sweep over the hash table is the sweep over the abstract registry |
| AppHash.HashStructApp.Contents | app_dcll.c:748-770 | iteration gives the abstract registry |
| AppList.AppDcll.SearchApp | app_dcll.c:141-175 | search_app finds the application's position in the abstract registry |
| AppList.AppDcll.AddAppRef | app_dcll.c:257-363 | add_app_ref, its two holds uninterrupted, is Add on the abstract registry |
| AppList.AppDcll.DelAppRef | app_dcll.c:372-531 | del_app_ref of what search_app found is DelList on the abstract registry |
| AppList.AppDcll.GetReg | app_dcll.c:219-248 | get_reg_list finds a registration if and only if it exists |
| AppList.AppDcll.Contents | app_dcll.c:42-93 | walking the ring gives the abstract registry |
| Simulation.LogsProper | app_dcll.c:257-745 | after every run of either registry the names are distinct |
| Simulation.Simulation | app_dcll.c:257-745 | the two registries give the same answers and hold the same all along a run if and only if every call of it is common |
| Simulation.RunHash | app_dcll.c:541-806 | a run on the real hash structure is the run of the specification |
| Simulation.RunList | app_dcll.c:219-531 | a run on the real list is the run of the specification |
| Simulation.RunBoth | nj.h:61-63 | common calls on both real structures give the same answers and contents |
| NpHash.HashStructNp.AddNp | np_dcll.c:391-428 | add_np_to_hash appends a new provider with count 0 and refuses one that is there |
| NpHash.HashStructNp.DelNp | np_dcll.c:431-468 | del_np_from_hash removes exactly the named provider, or refuses |
| NpHash.HashStructNp.BumpAppCnt | np_dcll.c:482-495 | changes the count of the named provider and nothing else |
| NpHash.HashStructNp.GetAppCnt | np_dcll.c:498-509 | the recorded count, or -1 |
| NpList.NpDcll.SearchNp | np_dcll.c:192-228 | search_np finds the provider's position |
| NpList.NpDcll.AddNp | np_dcll.c:46-148 | add_np replaces an old entry by a new one at the end, with count 0 |
| NpList.NpDcll.DelNpNode | np_dcll.c:231-275 | del_np_node removes exactly that node |
| NpList.NpDcll.BumpAppCnt | np_dcll.c:353-386 | changes the count of the named provider and nothing else |
| NpList.SameRegistration | np_dcll.c:46-428 | the two registries of providers take a registration alike exactly if the provider is new, or already is the last entry with that very content |
| NpList.ReplacedMeans | np_dcll.c:46-148 | after add_np whatever had the name is gone, the rest is as it was, and the new registration is last |
| NpList.ReplacedExample | np_dcll.c:46-428 | a second registration that one refuses and that wipes the count in the other |
| Junction.Nj.DoRegisterApp | nj.c:1349-1384 | register_app on the real tables is RegisterApp, which CallLaws describes |
| Junction.Nj.DoUnregisterApp | nj.c:1386-1424 | unregister_app on the real tables is UnregisterApp, which CallLaws describes |
| Junction.Nj.DoRegisterNp | nj.c:1427-1489 | register_np on the real tables is RegisterNp |
| Junction.Nj.DoUnregisterNp | nj.c:1550-1610 | unregister_np on the real tables is UnregisterNp |
| Junction.Nj.DecList | nj.c:929-936 | the walk driven by np_count never leaves the trailing list and decrements the count of each of its providers |
| Junction.Nj.DecAllNpCounts | nj.c:921-946 | dec_all_np_counts_hash decrements the counts of the application's providers and no other |
| Accounting.SweepAll | nj.c:1563-1602 | the sweep removes the provider from every application, and nothing else, exactly if all of them hold it |
| Accounting.UnregisterNpAsIntended | nj.c:1550-1610 | unregister_np does what is meant exactly if every application holds the provider; for an unknown one, exactly if there is an application |
| Accounting.UnregisterNpBreaks | nj.c:1563-1602 | it follows a null pointer exactly if the first application holds the provider and some application neither holds it nor has exactly one |
| Accounting.UnregisterAppBreaks | app_dcll.c:664-676 | unregister_app breaks exactly on a known provider and an application whose list has run empty |
| Accounting.UnregisterNpMeans | nj.c:1561-1604 | as meant, the provider is filtered out of the table and out of every list, and order, other providers with their pairs and counts, and applications are as they were |
| Accounting.KeepsConsistent | nj.c:1349-1610 | names stay distinct and every non-empty name in a trailing list is a registered provider, after every call that does not break; as prescribed no call breaks |
| Accounting.RegisterAppSlack | nj.c:1349-1384 | registration keeps every count in step with the number of applications that hold the provider |
| Accounting.UnregisterAppSlack | nj.c:1386-1424 | unregister_app leaves the count of each provider it takes one too high, and no other |
| Accounting.UnregisterAppAsIntended | app_dcll.h:117-118 | it does what is prescribed exactly if the application is unknown, or all of it goes and it has no known provider, or the provider is unknown or missing from its list and that is not empty |
| Accounting.UnregisterIntendedSlack | app_dcll.h:117-118 | with the prescribed decrements every count stays in step |
| Accounting.HeldReal | np_dcll.c:482-495 | a duplicate-free list of known providers is counted once by each of them |
| Accounting.ByApplication | np_dcll.h:42-42 | counting registrations by provider and by application gives the same |
| Accounting.IntendedRunBalanced | app_dcll.h:117-118 | as prescribed, after every run each count is the number of applications that hold the provider, and the counts add up to the registrations |
| Accounting.CodeRunConsistent | nj.c:1349-1610 | after every run of the code the tables are consistent and no count is below the number of holders |
| CallLaws.RegisterAppAnswer | nj.c:1349-1384 | the answer of register_app is 1 exactly if the registration is there now and was not before, which takes a known provider or none; otherwise it is -1 and nothing has changed |
| CallLaws.RegisterAppDoes | nj.c:1349-1384 | a successful one adds that registration and no other, at the end, and one to the count of its provider and no other |
| CallLaws.UnregisterAppAnswer | nj.c:1386-1424 | the answer of unregister_app with a provider is 1 exactly if the registration was there; it is gone then and no other, and otherwise the answer is -1 and nothing has changed |
| CallLaws.UnregisterAppDoes | nj.c:1386-1424 | the provider is filtered out of the list of that application, and all else stays where it is |
| CallLaws.UnregisterAllAnswer | nj.c:1386-1424 | without a provider the application is filtered out, and the answer is 1 exactly if it was there |
| CallLaws.UnregisterAppMeans | app_dcll.h:117-118 | as prescribed, the same registrations go, and the count of exactly the providers that were taken goes down by one |
| CallLaws.RegisterUnregister | nj.c:1349-1424 | to unregister what has just been registered is answered 1 and gives the applications back as they were, except that a new one stays with an empty list |
| CallLaws.RegisterNpAnswer | nj.c:1427-1489 | the answer of register_np is 1 exactly if the provider was not known; it is last then, with its pairs and count 0, and otherwise the answer is -1 and nothing has changed |
| CallLaws.UnregisterNpAnswer | nj.c:1550-1610 | the answer of unregister_np is -1, and nothing has changed, exactly if the first application does not hold the provider |
| CallLaws.UnregisterNpDoes | nj.c:1550-1610 | after an answer of 1 the provider is gone from the table and from every list that held it, and an application that did not had one other and has none now |
| Losses.SweptHolders | nj.c:1563-1602 | a sweep for another provider takes a provider from exactly the applications that hold nothing else |
| Losses.CodeRunSlack | nj.c:1349-1610 | after every run of the code the count of a provider exceeds the number of applications that hold it by exactly the registrations that unregister_app, or a sweep for another provider, has ended since it was registered itself |
| Departures.LeakExample | nj.c:1386-1424 | a run that ends with a count of 1 for a provider nobody holds |
| Departures.EmptyListExample | app_dcll.c:668-676 | one more unregistration in that run breaks |
| Departures.AbandonedExample | nj.c:1577-1581 | a run in which unregister_np gives up at an application without the provider |
| Departures.LoneProviderExample | nj.c:1582-1586 | a run in which it takes from a later application a provider that it was not asked about |
| Departures.BrokenSweepExample | nj.c:1596-1600 | a run in which it follows a null pointer |
| Commands.ParsedIsNamed | nj.c:1349-1558 | the names that strtok takes from a call are not empty |
| Commands.SplitNp | nj.c:1427-1475 | the strtok calls of register_np take from a string the name and the pairs, or turn it down, as CommandLaws.NpParsed and CommandLaws.NpRefused say |
| Commands.RegisterNpBreaks | nj.c:1427-1475 | it breaks exactly on such a string without any "::" |
| Commands.SingleColonBreaks | nj.c:1427-1475 | "npname:x" is one |
| Commands.CommandsConsistent | nj.c:1349-1610 | whatever strings arrive, the tables are consistent as long as nothing breaks |
| Commands.RunHub | nj.c:1349-1610 | any sequence of such strings on a hub of its own answers and leaves what the specification says, which CommandLaws describes call by call |
| CommandLaws.TwoNames | nj.c:1349-1424 | any string of two names, with any runs of colons around them and whatever names behind, is that application and that provider for register_app and unregister_app, and the first name for unregister_np |
| CommandLaws.OneName | nj.c:1349-1424 | any string of one name is that application and no provider, or that provider |
| CommandLaws.NamelessBreaks | nj.c:1349-1558 | the three calls break exactly on strings of nothing but colons, and turn none down |
| CommandLaws.NpParsed | nj.c:1427-1475 | any tokens with any runs of '#' around them, of which the first is "npname" and a name with any runs of colons around them, register that name with as many tokens as there are "::", and break if there is none |
| CommandLaws.NpPairsParsed | nj.c:1427-1475 | "npname::", a name, and pairs register that name with exactly these pairs |
| CommandLaws.NpRefused | nj.c:1427-1464 | register_np turns a string down exactly if it is nothing but '#', or its first token does not begin with "npname", a colon and a name |
| CommandLaws.RegisterByString | nj.c:1349-1384 | after any commands, a string of two names adds that registration and no other, and is answered 1 exactly if the provider is known and the registration new |
| CommandLaws.UnregisterByString | nj.c:1386-1424 | after any commands, a string of two names takes that registration and no other, is answered 1 exactly if it was there, and breaks exactly on a known provider and an empty list |
| CommandLaws.ThereAndBack | nj.c:1349-1424 | after any commands, to register two names and to unregister them is answered 1 and gives the applications back, but for a new one that stays with an empty list |
| CommandLaws.RefusedByString | nj.c:1436-1464 | after any commands, a string that register_np turns down is answered -1 and changes nothing |
| CommandLaws.ProvideByString | nj.c:1427-1489 | after any commands, a name and pairs register that provider last, with these pairs and count 0, exactly if it is not known, and are answered -1 otherwise |
| CommandLaws.WithdrawByString | nj.c:1550-1610 | after any commands, a name is answered -1, and nothing changes, exactly if the first application does not hold that provider; otherwise it breaks exactly at an application with several others or none, or is answered 1 and no table or list has the provider |
| RdwrLock.KeepsMutex | rdwr_lock.c:14-68 | the owner of the mutex is the one thread inside a critical section |
| RdwrLock.KeepsCounts | rdwr_lock.c:14-68 | the counters are the numbers of holds, at most one writer, never beside a reader |
| RdwrLock.KeepsReaders | rdwr_lock.c:18-20 | a reader sleeps only while a writer writes or is about to broadcast, so one signal by the last reader is enough |
| RdwrLock.KeepsWakeups | rdwr_lock.c:14-68 | if the lock is free and somebody sleeps, somebody else will yet look at it |
| RdwrLock.RunOk | rdwr_lock.c:3-68 | the invariant holds after every run of any number of threads with matched calls |
| RdwrLock.Exclusion | rdwr_lock.c:14-68 | over every such run readers_reading is the number of read holds, there is at most one writer, and never both |
| RdwrLock.NoLostWakeup | rdwr_lock.c:14-68 | once all is quiet nobody sleeps at a free lock, and readers sleep only behind a writer |
| RdwrLock.NeverStuck | rdwr_lock.c:14-68 | some event of the lock's own can happen exactly unless all threads are outside or asleep |
| RdwrLock.RUnlockBooks | rdwr_lock.c:40-53 | a read unlock keeps counters and holds in step exactly if the thread holds a read lock or nobody is counted |
| RdwrLock.WUnlockBooks | rdwr_lock.c:55-68 | the same for a write unlock |
| RdwrLock.UnmatchedBreaksExclusion | rdwr_lock.c:40-53 | a run with one unmatched unlock that ends with a reader and a writer inside |
| RdwrLock.AnswerIs | rdwr_lock.c:14-68 | a lock function returns -1 exactly from an unlock that finds its counter at 0, and else 0; a thread stays with the function it has called |
| RdwrLock.AnswersZero | rdwr_lock.c:14-68 | in every run of matched calls every lock function returns 0 |
| RdwrLock.ReadersShare | rdwr_lock.c:14-25 | any set of threads can hold the lock for reading together |
| RdwrLock.SpuriousHarmless | rdwr_lock.c:18-20 | a sleeper may wake for no reason; if it still has to wait it sleeps again, and nothing has changed |
| RdwrLock.Overtaken | rdwr_lock.c:14-38 | a thread that has just come may get the lock before one that has been woken for it |
| LockCode.PthreadRdwr.RLockTurn | rdwr_lock.c:14-25 | a read hold is granted exactly if nobody holds the lock for writing, and the counters stay the numbers of holds |
| LockCode.PthreadRdwr.WLockTurn | rdwr_lock.c:27-38 | a write hold is granted exactly if nobody holds the lock, and the counters stay the numbers of holds |
| LockCode.PthreadRdwr.RUnlockTurn | rdwr_lock.c:40-53 | a reader gives back one hold and signals exactly if nobody holds the lock then; the counters stay right exactly if the caller holds the lock or nobody reads |
| LockCode.PthreadRdwr.WUnlockTurn | rdwr_lock.c:55-68 | a write hold ends and is broadcast, after a writer at a free lock; the counters stay right exactly if the caller holds the lock or nobody writes |
| LockCode.Threads.Section | rdwr_lock.c:14-68 | with right counters and a matched call, the code of a critical section has the effect of the transition system, waits included |
| LockCode.RunThreads | rdwr_lock.c:3-68 | any legal schedule of any number of threads through the code leaves counters that are the numbers of holds, at most one writer, and never a writer beside a reader |
| Linearize.InnerAgrees | rdwr_lock.c:14-68 | a thread that has come back from a lock function holds the lock it asked for, whatever the others do |
| Linearize.Alone | rdwr_lock.c:27-38 | while one thread writes, no other is between its look-up and its end |
| Linearize.KeepsPointers | app_dcll.c:569-633 | no pointer found under a hold goes stale before it is used |
| Linearize.InTurn | app_dcll.c:569-744 | a thread's own events come in turn: begin, look, act, end |
| Linearize.ActsWithin | app_dcll.c:569-744 | every operation that has ended acted exactly once between its begin and its end |
| Linearize.PlaceHolds | app_dcll.c:569-744 | every act has a place of its own in the log |
| Linearize.OrderKept | app_dcll.c:569-744 | an operation that has ended before another begins comes before it in the log |
| Linearize.Linearizable | app_dcll.c:569-745 | in every interleaving of any number of threads the log has one record for each act, in the order of the acts; the guarded state and the answers are those of the sequential run of the log, and each thread takes away the answer of its own last act |
| Realize.Realizable | app_dcll.c:569-745 | conversely, every sequential run that does not break, by whichever threads, is an interleaving that acts in that order and comes to rest |
| Concurrent.AppsStayProper | app_dcll.c:569-806 | in every interleaving of the hash registry of applications names stay distinct, and the run is one of the sequential specification |
| Concurrent.AppsRealizable | app_dcll.c:569-806 | every run of the hash registry of applications that does not break is an interleaving of whichever threads |
| Concurrent.QueriesOverlap | app_dcll.c:775-806 | two threads can be in the middle of their queries at the same time |
| Concurrent.NpsStayProper | np_dcll.c:415-465 | in every interleaving of the hash table of providers names stay distinct, and the run is one of the sequential specification |
| Concurrent.NpStepMeans | np_dcll.c:391-468 | an addition is answered 0 exactly if the provider is new, and makes it the last; a deletion exactly if it is there, and filters it out |
| TwoHolds.ListRace | app_dcll.c:282-333 | a run of two threads, each taking and giving back the lock twice, that ends with two applications of one name |
| TwoHolds.ListSafe | app_dcll.c:282-363 | the late insertion is right exactly if the pointer is what a look-up would still return, or that and another live node both hold the provider; a pointer to a node that is gone never is |
| TwoHolds.FreedExample | app_dcll.c:282-363 | a run that leaves a thread about to use a node that another has removed |
| TwoHolds.FreshRun | app_dcll.c:257-531 | as long as no act meets a stale pointer, an interleaving of the list registry is one sequential run of it, and names stay distinct |
| TwoHolds.ActOnFresh | app_dcll.c:257-531 | acting on a fresh pointer is the sequential step |
| Strings.TokensOfWeave | nj.c:1512-1525 | strtok finds the tokens of any string that puts runs of the delimiter between, before and behind them |
| Strings.WeaveOfTokens | nj.c:1512-1525 | every string is such a string, so the tokens are its maximal runs without the delimiter |
| Strings.Strtok.Next | nj.c:1512-1525 | the scan of strtok returns the next token and leaves the rest |
| Strings.StrstrIs | nj.c:1538-1547 | strstr finds the first occurrence, and none only if there is none |
| ArgList.CountArgs | nj.c:1538-1547 | count_args counts the occurrences, overlapping ones separately |
| ArgList.OccurrencesArePlaces | nj.c:1538-1547 | the count is the number of places at which the text occurs |
| ArgList.CountTokens | nj.c:1500-1501 | the occurrences of "::" in a string are those in its tokens |
| ArgList.ExtractKeyVal | nj.c:1493-1535 | for every string: a null pointer is copied from exactly if there is no token, the null pointer is written behind the array exactly if there are tokens and no "::", and otherwise the slots hold the tokens, as many as there are "::", and end in it |
| ArgList.ExtractsSafely | nj.c:1493-1535 | the function stays within its memory exactly on strings with a "::" |
| ArgList.ExtractsAll | nj.c:1493-1535 | it does so and loses no token exactly if there is a token and there are no more tokens than "::" |
| ArgList.PastEndExample | nj.c:1503-1533 | "npname:x" has one token and one slot, and the null pointer goes behind it |
| ArgList.NoTokenExample | nj.c:1512-1514 | "###" and the empty string have no token |
| ArgList.ExtractedIsTokens | nj.c:1493-1535 | no token is lost if each has its "::" once |
| ArgList.ExtractedOfWeave | nj.c:1493-1535 | extraction recovers the pairs from any runs of '#' around them |
| ArgList.ExtractedOfJoin | nj.c:1493-1535 | extraction inverts joining with "##" |
| ArgList.JoinIsWeave | nj.c:1121-1131 | joining puts exactly "##" between the pairs and nothing around them |
| ArgList.ExtractKey | nj.c:1032-1046 | extract_key returns the text before the first colon that follows it |
| ArgList.ExtractVal | nj.c:1049-1070 | extract_val returns what follows two characters behind the key |
| ArgList.SplitsBack | nj.c:1032-1070 | key, "::" and value make up the pair again exactly if its first colon begins a "::" |
| Convert.CompareArray | nj.c:1073-1102 | compare_array returns 0 exactly if every key of the request is one of the provider's, and -1 if not; with an empty list it frees a key that it has not got |
| Convert.ForwardConvert | nj.c:1105-1135 | the buffer holds the merged pairs joined by "##", the terminator, and a '#' behind it |
| Convert.MergedFacts | nj.c:1105-1131 | the merge has one pair for each key of the provider, in its order |
| Convert.MergedFrom | nj.c:1105-1131 | each is the request's first pair with that key, or the default if it has none |
| Convert.Reparsed | nj.c:1105-1135 | parsing the text that forward_convert wrote gives the merged pairs |
| Convert.Idempotent | nj.c:1105-1131 | merging again changes nothing exactly if no key has two different defaults that are left to it |
| Convert.Lossless | nj.c:1073-1131 | every pair of the request comes through exactly if compare_array accepts it and no two of its pairs differ under one key |
| Convert.GetValFromArgs | nj.c:1138-1157 | get_val_from_args returns what stands from the first occurrence of the key to the next '#' or the terminator |
| Convert.FetchedIs | nj.c:1132-1157 | on that buffer, for every key, this is the look-up pair by pair; the last pair is no exception |
| Convert.WholePair | nj.c:1132-1157 | the scan for a key of the provider stays in the buffer, and the right pair comes back exactly if it is what the first pair that has "key::" anywhere holds from there on, as it is if no pair before it has it |
| Convert.HiddenExample | nj.c:1142-1148 | on a buffer of well-formed pairs, a key that ends in another key hides that key's pair |
| Convert.HarmlessExample | nj.c:1142-1148 | an earlier occurrence from which the right pair comes back all the same |
| Request.AtoiOfPrint | nj_nonblocklib.c:112-113 | a printed process number reads back, and has no '#' |
| Request.PrintedShort | nj_nonblocklib.c:112-113 | a printed number has no leading zero, and a sign only in front of a negative one |
| Request.AtoiReads | nj.c:655-659 | atoi skips white space, takes one sign, and reads the digits up to the first character that is none |
| Request.AppGetnotify | nj_nonblocklib.c:112-125 | the request that is built decodes, for every well-formed argument string and choice, to the process, the provider, the choice, and the pairs with the choice; for any other choice it is the process and the arguments |
| Request.NpGetnotify | nj.c:639-670 | choice, process, provider and pairs as the hub takes them from a request |
| Request.TokensAppend | nj.c:639-655 | the tokens of two texts, the second beginning with a delimiter, are those of the one and then those of the other |
| Request.RequestText | nj_nonblocklib.c:112-125 | the request for some pairs is the process, the pairs and the choice with exactly "##" between them |
| Request.RoundTrip | nj.c:565-670 | for every process, well-formed argument string and choice the hub decodes exactly the process, the provider, the choice, and the pairs with the choice as one more |
| Request.Delivered | nj.c:639-734 | from application to provider: one pair for each of the provider's keys arrives, and every pair of the request and the choice are among them exactly if compare_array accepts it and no two of its pairs differ under one key |

## Left out

* Sockets, threads' creation, signals, `dlopen`, log and pid files, statistics, the user interfaces and the demo programs: input and output only.
* `inotify.c` and `tcpdump.c`: calls into the kernel and libpcap.
* Failure of `malloc`, `free`, the fixed sizes of C buffers and `errno`: strings are sequences and allocation succeeds. The layout of the text, its terminator and the `#` behind it is modelled where `get_val_from_args` depends on it.
* The wrap-around of `num_buckets`, `num_items` and hash values at 32 bits, and of `atoi` at the width of an `int`: integers are unbounded.
* The hash functions themselves: any function from keys to naturals.
* `HASH_SELECT`, `HASH_REPLACE` and `HASH_CLEAR`, which nothing calls, and `HASH_EMIT_KEY`, which is empty unless keys are logged.
* The size of what `get_val_from_args` allocates, which is one byte less than it copies.
* Queries of the list registry beside other threads: they take the read lock a second time while they hold it.
* The lists of key-value arrays that `np_getnotify_method` hangs onto a registration.
* `search_reg`, which walks as `get_reg_list` does.
* `del_np`, which decrements the count before it chooses its case; `del_np_node` is modelled.
* The count functions of the hash table of providers, and the look-up of a provider in `register_app` and `unregister_app`, take no lock in the code and are modelled in sequence only; concurrency is modelled for the functions that lock.
* The pointer that `get_reg_hash` returns is used after the lock is given back; what may happen to it then is not modelled.
* Fairness of the lock: the code promises none.
