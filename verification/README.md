# A verified model of pflask

pflask starts a process in Linux namespaces. This project models the algorithms and protocols that this takes, and
proves what they are for: the intrusive lists and merge sorts that hold every option, the netlink messages that make
network interfaces, the reading of multi-valued options, the order and prefixing of paths, the start-up protocol of
parent, child and console helper, the writing and reading of user maps, the mount requests, and the capability lists.

`dafny verify dfyconfig.toml` checks all of it.

## How it is built

Code that changes things in place is modelled in place: list nodes are heap objects whose `next` and `prev` are
rewritten, netlink messages and tokens are byte and character arrays, and loops are loops. Each such method is proved
against a function or predicate on values, and what matters is then proved about those.

| files | subject |
|---|---|
| `merge_spec.dfy`, `utlist_sort.dfy` | the merge sorts: what a stable sort is, the bottom-up passes and their cost, then the pointer code of all three macros |
| `utlist.dfy`, `utlist_runs.dfy` | the `DL_` operations, and whole runs of them |
| `nl.dfy`, `nl_runs.dfy`, `netif.dfy` | the attribute builder, any bracketed run of it, and the four requests made with it |
| `tokens.dfy`, `cmdline.dfy`, `optlist.dfy` | what a comma-separated value means, the tokenizer, the collector |
| `paths.dfy`, `path.dfy` | the order and prefixing of paths, and the loops that compute them |
| `places.dfy` | where a path leads, and when a path put under a root stays there |
| `sync.dfy`, `sync_fds.dfy` | the start-up protocol as steps, and the closing of its descriptors |
| `decimal.dfy`, `user_map.dfy`, `user.dfy` | numbers as text, user maps, and the loops over the list of maps |
| `util.dfy`, `validate.dfy` | cutting a value into fields in place, and the check that comes before |
| `mounts.dfy`, `mount.dfy`, `mount_requests.dfy` | what mount specs mean, the lists and requests of mounting, and what each spec and each system mount comes to |
| `capabilities.dfy` | `--caps` |
| `options.dfy`, `sequences.dfy` | a value that may be missing; laws of concatenation |

## What the code does otherwise than said

* The manual (docs/pflask.rst:234-242) says that a leading `all` asks for a full initial capability set. The code leaves
  the set as it is. `Capabilities.AllAddsNothing` says, for every list behind the `all`, exactly when the outcome is the
  promised one all the same; `Capabilities.AllOnNothing` is a case in which it is not.
* Path prefixing does not always keep the order of paths: a path that equals the root is handed back as it is.
  `Paths.PrefixReorders` is a case, `Paths.PrefixOrder` the exact condition for two absolute paths and any root.
* The manual (docs/pflask.rst:133-135) makes a destination relative to the new root. A destination that equals the new
  root is the root itself: `Paths.RootItself` is a case, `Paths.PrefixRelative` the exact condition.
* A destination may have "..", and is then mounted outside the new root: under `/r`, `bind:/a:/../b` lands on `/b`
  (`Mounts.DotsEscapeRoot`). `Mounts.TargetsInside` is the exact condition for staying inside, for every mount;
  the system mounts always meet it (`Mounts.SystemStays`), and so does every destination without ".."
  (`Places.NoParentStays`), unless the new root is the empty path, which is no root to `path_prefix_root`.
* Printing a list of values and splitting it again does not always give the list back: `Tokens.BackslashJoins` and
  `Tokens.EmptyLastLost` are cases, `Tokens.SplitPrintExactly` the exact condition.
* `--user-map` keeps the low 32 bits of an id, and takes 2^64 - 1 for any larger number: `UserMap.LargeIdWraps` and
  `UserMap.HugeNumbersSaturate` are cases, `UserMap.OptionRoundTrip` the exact condition. It also takes numbers with
  blanks and a sign in front, a minus standing for negation modulo 2^64, and a missing number for zero:
  `UserMap.MinusOne` and `UserMap.MissingNumbers` are cases, and `UserMap.OptionExactly` says which texts the parser
  takes, and for what.
* `user_get_mapped_root` takes an extent of length zero for a mapping (`UserMap.EmptyExtentMisleads`), and of several
  extents for id 0 sees only the first (`UserMap.OverlapMisleads`). `UserMap.MappedRootExactly` is the exact condition.
* The width counter of the sorts is an `int`: `MergeSpec.WidthFitsInt` says for which lengths it does not overflow.
* A process that waits on a socket pair keeps its own copy of the other end, so it never reads end-of-file: the return
  for that case is unreachable (`Sync.WaitsAreClean`). A parent whose child or helper dies before its report therefore
  waits for ever: `Sync.ChildLost` and `Sync.HelperLost` are runs in which this happens, `Sync.StuckExactly` says that
  there is no other way to come to a standstill, and `Sync.DeadChildHangsParent` and `Sync.DeadHelperHangsParent` that
  it lasts.
* `mount_add_from_spec` takes every type that begins with "bind" for a bind (`Mounts.StrayBindAccepted`), drops the
  fields behind those it needs (`Mounts.ExtraFieldDropped`), and sees no empty fields (`Mounts.EmptyFieldVanishes`).
  `Mounts.ManualFollowedExactly` is the exact condition for following the manual on a list of fields, and
  `Mounts.TextFollowedExactly` that on the text of a spec.
* `validate_optlist` is meant to refuse empty fields, but strtok gives none, so it refuses nothing. It follows a NULL
  pointer for a value that consists of colons only, and `mount_add_from_spec` does so for an empty value as well
  (`Validate.ColonsOnly`, `Validate.ValidateOptlist`, `MountList.MountAddFromSpec`). Here that is an outcome of its
  own, `NullRead`.

## Model

| member | source | states |
|---|---|---|
| MergeSpec.MergeSortIsStableSort | deps/ut/utlist.h:171-228 | merging runs of length 1, 2, 4, ... gives a sequence that is ordered, a permutation, and keeps the order of elements that compare equal, for every total preorder |
| MergeSpec.StableSortUnique | deps/ut/utlist.h:171-228 | order, permutation and stability determine the result: there is one stable sort of a sequence |
| MergeSpec.PassSorts | deps/ut/utlist.h:180-222 | a pass at width k turns a concatenation of sorted runs of length k into one of sorted runs of length 2k |
| MergeSpec.PassStable | deps/ut/utlist.h:180-222 | a pass keeps the order of elements that compare equal |
| MergeSpec.SortCost | deps/ut/utlist.h:59 | the documented O(n log n): at most n times the rounded-up binary logarithm of n comparisons |
| MergeSpec.WidthFitsInt | deps/ut/utlist.h:177-227 | the width counter ends below 2n, and stays within 32 bits exactly for up to 2^30 elements |
| UtSort.MergeRuns | deps/ut/utlist.h:197-217 | the innermost loop appends the merge of the two runs to the output, relinking nodes, and leaves the rest of the list to be gone through |
| UtSort.SortPass | deps/ut/utlist.h:181-219 | one pass over the list leaves the output chained in the order of the pass, and counts the merges so that the count is at most one exactly when a single merge sufficed |
| UtSort.PassAndClose | deps/ut/utlist.h:241-300 | after a pass the list is well-formed again, singly linked, doubly linked or a ring, although `prev` links and the last `next` were stale during the pass |
| UtSort.Sort | deps/ut/utlist.h:108-304 | all three macros leave a well-formed list of exactly the same nodes that is the stable sort of the input, in the same order for all three, within the comparison bound and without overflow up to 2^30 nodes |
| UtList.DList.Prepend | deps/ut/utlist.h:507-517 | the list stays well-formed and has the new node in front |
| UtList.DList.Append | deps/ut/utlist.h:522-534 | the list stays well-formed and has the new node at its end |
| UtList.DList.Concat | deps/ut/utlist.h:539-552 | for disjoint lists the result is well-formed and holds the nodes of the first, then those of the second |
| UtList.DList.Delete | deps/ut/utlist.h:557-573 | the list stays well-formed and lacks exactly that node |
| UtList.DList.ReplaceElem | deps/ut/utlist.h:603-627 | the list stays well-formed with the new node in the place of the old |
| UtList.DList.PrependElem | deps/ut/utlist.h:629-642 | the list stays well-formed with the new node just in front of the given one |
| UtList.DList.Elements | deps/ut/utlist.h:587-588 | DL_FOREACH visits every node once, in order, and ends |
| UtList.DList.Sort | deps/ut/utlist.h:171-228 | DL_SORT on a list head: well-formed, stable sort, comparison bound |
| UtListRuns.Perform | deps/ut/utlist.h:504-642 | each operation does to the list what its meaning does to the sequence of values |
| UtListRuns.Run | deps/ut/utlist.h:504-642 | after any sequence of append, prepend, insert-before, replace, delete and concat the list is well-formed and holds what the operations mean |
| UtListRuns.AppendUndone | deps/ut/utlist.h:522-534 | what is appended is last, and deleting the last element undoes it |
| UtListRuns.PrependUndone | deps/ut/utlist.h:507-517 | what is prepended is first, and deleting the first element undoes it |
| UtListRuns.InsertUndone | deps/ut/utlist.h:629-642 | what is inserted is at that position, and deleting there undoes it |
| UtListRuns.ReplaceUndone | deps/ut/utlist.h:603-627 | what replaces an element is in its place, and putting the element back undoes it |
| UtListRuns.DeleteUndone | deps/ut/utlist.h:557-573 | what is deleted can be put back in front of what followed it, or at the end |
| UtListRuns.ConcatAppends | deps/ut/utlist.h:539-552 | concatenation is one append for each element, in order |
| Nl.LayoutNested | src/nl.c:55-64 | open nests are strictly contained in one another: each begins behind the header of the one around it, and within the message |
| Nl.NlMsg.Append | src/nl.c:41-53 | a finished attribute of this type and payload is added to the innermost open nest; the length grows by the aligned size, and no earlier byte changes |
| Nl.NlMsg.StartNested | src/nl.c:55-60 | a nest is opened strictly inside those that are open; no earlier byte changes |
| Nl.NlMsg.EndNested | src/nl.c:62-64 | exactly the two bytes of the nest's length field change, the length fits them, and the nest becomes a finished attribute of the nest around it |
| Nl.NlMsg.Reserve | src/netif.c:299 | bumping the length reserves a structure of arbitrary bytes in front of the attributes of the innermost nest |
| Nl.DecodeEncodes | src/nl.c:41-64 | the attribute walk of RTA_OK and RTA_NEXT reads an encoded tree back, whatever the padding bytes are, with nothing left over |
| Nl.NlMsg.Decodes | src/nl.c:41-64 | a message without open nests decodes to exactly the attributes put in, and its length is their total size |
| NlRuns.TreeOfCalls | src/nl.c:41-64 | every attribute tree is spelled by a well-bracketed sequence of append, start and end calls |
| NlRuns.Perform | src/nl.c:41-64 | each call of a well-bracketed run keeps the message well-formed and in step with the brackets, no call but an end changes bytes that were there, and an end changes exactly the two bytes of the innermost nest's length |
| NlRuns.Run | src/nl.c:41-64 | any well-bracketed run that fits the buffer yields a message of aligned length that decodes to the tree the calls spell |
| Netif.Int32RoundTrip | src/netif.c:205-236 | an int stored as payload is read back, negative ones included |
| Netif.MoveAndRenameIf | src/netif.c:194-207 | the request decodes to the process id and the new name, and has the stated length |
| Netif.CreateMacvlan | src/netif.c:216-237 | the request decodes to link-info{kind "macvlan"}, master index and name, and has the stated length |
| Netif.CreateIpvlan | src/netif.c:246-267 | the same for "ipvlan", whose kind needs padding |
| Netif.CreateVethPair | src/netif.c:276-308 | for all names that fit, the request has length 80 + align(out+1) + align(in+1) and decodes to link-info{kind, data{peer{16 arbitrary bytes, name in}}} followed by name out, although the length is bumped by hand inside the peer nest |
| Netif.VlanSpelled | src/netif.c:231-266 | in the kernel's numbers and in letters: the kinds are the texts macvlan and ipvlan with a NUL, and which types the attributes have |
| Netif.VethSpelled | src/netif.c:293-307 | the same for veth: the inner name belongs to the peer, the outer name to the request |
| Netif.MoveOnTheWire | src/netif.c:205-206 | a request byte by byte: little-endian lengths, types and numbers, and padding that may be anything |
| Tokens.PrintSplit | src/cmdline.c:452-530 | printing the values of any argument gives the argument back, but for one separator at its very end |
| Tokens.SplitPrint | src/cmdline.c:452-530 | a printable list of values is recovered from its printed form |
| Tokens.SplitPrintExactly | src/cmdline.c:452-530 | exactly the lists whose values other than the last do not end in a backslash, and whose last value is not empty if there are several, are recovered |
| Tokens.BackslashJoins | src/cmdline.c:462-476 | a value that ends in a backslash swallows the comma behind it |
| Tokens.EmptyLastLost | src/cmdline.c:526-527 | an empty last value is lost |
| Cmdline.FindSeparator | src/cmdline.c:462-476 | the scan ends at the first unescaped comma, or the end, with the number of escaped commas in front of it |
| Cmdline.UnescapedLength | src/cmdline.c:478-499 | unescaping drops exactly one character for each escaped comma, so the length computed from the scan is right |
| Cmdline.GetMultipleArgToken | src/cmdline.c:452-502 | the token is the unescaped text up to the separator, NUL-terminated, in a buffer that it fills exactly |
| Cmdline.GetMultipleArgTokenNext | src/cmdline.c:504-530 | the next token starts behind the same separator, unless nothing follows it |
| OptList.Collector.AddValue | src/cmdline.c:707-770 | a value is put into a new first node of the list, and the count goes up by one |
| OptList.Collector.UpdateMultipleArgTemp | src/cmdline.c:805-845 | the splitting loop ends, and the reversed list grows by exactly the values of the argument; the count equals the list's length |
| OptList.UpdateMultipleArg | src/cmdline.c:872-931 | the collected values stand behind the earlier entries in order, and every node has been consumed; without values the default is stored only if there is nothing |
| OptList.ParseOption | src/cmdline.c:1235-1271 | over any number of occurrences the final array holds the earlier entries, then all values; for arguments that print lists of values, each value of each list stands at its place in command-line order |
| OptList.ValuesInOrder | src/cmdline.c:805-845 | the values of a command line are those of its first part, then those of the rest, wherever it is cut |
| OptList.OneOccurrence | src/cmdline.c:805-845 | one occurrence gives the values of its argument in order, and without an argument one absent value |
| OptList.PrintedInOrder | src/cmdline.c:880-915 | the j-th value of the k-th occurrence stands behind what was kept and all values before it, and nothing else is there |
| Paths.PathsOrder | src/path.c:39-80 | the comparison is antisymmetric and zero exactly for paths of the same kind with the same components |
| Paths.PathsTransitive | src/path.c:39-80 | the comparison is transitive |
| Paths.NamesLexicographic | src/path.c:63-75 | a name comes first exactly if it has the smaller byte where the two first differ, or is a beginning of the other |
| Paths.PathsLexicographic | src/path.c:39-80 | a path comes first exactly if it alone is relative, or, of two of one kind, if its list of names comes first in dictionary order |
| Path.NameCompare | src/path.c:63-75 | comparing the common length with memcmp and then the lengths is the lexicographic order of two names |
| Path.CompareRound | src/path.c:48-78 | one round of the loop decides, or leaves the same question for shorter rests |
| Path.PathCompare | src/path.c:39-80 | path_compare ends, and computes the lexicographic order on (is absolute, components) |
| Paths.PrefixAppends | src/path.c:82-114 | outside the cases that leave the path alone, prefixing gives the components of the root followed by those of the path, and the kind of the root |
| Paths.PrefixUnchanged | src/path.c:93-96 | in the other cases the components and the kind are those of the path |
| Paths.UnchangedMeans | src/path.c:93-96 | which cases these are: no root, a root without components, or a root equal to the path |
| Paths.PrefixRelative | docs/pflask.rst:133-135 | the components are those of the root followed by those of the path, as the manual says, exactly unless the root has components and the path equals it |
| Paths.RootItself | src/path.c:93-96 | under the root /srv/c, the path /srv/c is the root |
| Paths.PrefixSpelled | src/path.c:98-113 | the text of a prefixed path: root and path with one slash between them, when neither has slashes to spare |
| Paths.SlashesToSpare | src/path.c:89-109 | slashes to spare at the end of the root or at the beginning of the path make no difference |
| Paths.PrefixOrder | src/path.c:82-114 | exactly when prefixing keeps the order of two absolute paths: always without a root or under /, otherwise unless one of them is the root and the other sorts before it |
| Paths.PrefixReorders | src/path.c:93-96 | two paths whose order prefixing turns round |
| Path.PathPrefixRoot | src/path.c:82-114 | the result is a NUL-terminated string inside what was allocated for it, and equals the prefixed path |
| Places.InsideExactly | src/path.c:82-114 | an absolute path put under a root, taken from any current directory, leads to the root or below it exactly if it does not climb out of it, or comes back the same way, or equals it; under an empty root exactly if it leads into the current directory |
| Places.NoParentStays | src/path.c:82-114 | a path without ".." stays inside every root that is not empty |
| Places.NamesLead | docs/pflask.rst:133-135 | what "." , ".." and other names do to a place, also above the root |
| Sync.StepKeeps | src/pflask.c:205-336 | every step of every process, and every death, keeps the invariant on places, messages, descriptors and set-up |
| Sync.BarrierSafety | src/pflask.c:205-305 | in every run, whoever dies when, a child behind the barrier has all its cgroups, interfaces and, exactly if it was cloned into a user namespace, its user maps, and a console helper is gone |
| Sync.SetupOrder | src/pflask.c:287-301 | in every run the console comes before the cgroups, these before the interfaces, these before the user maps, and all after the child's report |
| Sync.UserNsExactly | src/pflask.c:397-413 | in every run, the child is in a user namespace exactly if one was asked for and the first clone did not meet EINVAL; its maps are written exactly then |
| Sync.InvalidForGood | src/pflask.c:404-407 | once the first clone has met EINVAL there is no user namespace, no user map and no console helper at any later moment |
| Sync.HelperExactly | src/pflask.c:289-290 | in every run, a console helper is forked exactly if there is a new root, a user namespace was asked for and not dropped, and the host has use for a helper |
| Sync.ConsoleOwned | src/dev.c:111-139 | a helper goes on only under its own two maps; one that was wanted and not killed has done its work before the child gets past the barrier |
| Sync.OwnEnds | src/pflask.c:205-305 | in every run, a parent ends itself exactly when the clones fail or the console's owner is not mapped, a child never, a helper exactly when it is done |
| Sync.GaveUp | src/dev.c:78-84 | a parent that ends itself leaves no helper and no child behind the barrier; if it was the clone that failed, no child at all |
| Sync.Descriptors | src/sync.c:108-121 | in every run, nobody keeps a descriptor behind its part of the protocol or in death, and who waits has both ends |
| Sync.WaitsAreClean | src/sync.c:52-106 | in every reachable state nobody who waits would read end-of-file or a wrong number, nobody who writes finds the pair broken, and each direction holds at most one message |
| Sync.DeadChildHangsParent | src/sync.c:52-66 | if the child dies before it reports, the parent is found waiting for it at every later moment |
| Sync.DeadHelperHangsParent | src/dev.c:111-139 | if the helper dies before it reports, the parent is found waiting for it at every later moment, and the child in front of the barrier |
| Sync.DeadParentHoldsChild | src/pflask.c:205-305 | if the parent dies before it wakes the child, the child never gets past the barrier |
| Sync.StuckExactly | src/pflask.c:205-336 | in every run, as long as the parent lives and is not done, nobody can go on exactly if the child, or the console helper, has died before its report to the waiting parent; after any other death somebody can |
| Sync.ChildLost | src/sync.c:52-66 | for all options, a run that comes to a standstill because the child dies after the clone |
| Sync.HelperLost | src/dev.c:111-139 | a run that comes to a standstill because the console helper dies after the fork |
| Sync.NoDeadlock | src/pflask.c:205-336 | without failures somebody can always go on until the parent is done |
| Sync.RunsAreBounded | src/pflask.c:205-336 | every run is finite, with a bound in the numbers of cgroups and interfaces |
| SyncFds.SyncClose | src/sync.c:108-121 | both descriptors, and no others, are closed, and both variables become -1 |
| SyncFds.SyncCloseTwice | src/sync.c:108-121 | closing again later closes nothing, even if the numbers are in use again |
| Decimal.ValuePrint | src/user.c:86-88 | a printed number consists of digits and has the value printed |
| Decimal.StrtoulDigits | src/pflask.c:136-151 | strtoul reads a number of any size in the middle of a text, saturating at 2^64 - 1, and stops behind it |
| Decimal.ValueConcat | src/user.c:86-88 | digits count by their place |
| Decimal.MinusNegates | src/pflask.c:136-151 | a minus in front of n with 0 < n < 2^64 reads as 2^64 - n; in front of larger numbers as 2^64 - 1 |
| Decimal.Blanks | src/pflask.c:136-151 | which characters may stand in front of a number |
| Decimal.StrtoulReads | src/pflask.c:136-151 | blanks, an optional sign and digits are read with their value, negated modulo 2^64 or saturated, up to what follows; nothing at all is read as zero |
| Decimal.StrtoulNumeral | src/pflask.c:136-151 | at any place of any text, what strtoul consumes is such a numeral, or nothing, with the value it returns |
| UserMap.TextRoundTrip | src/user.c:80-95 | the text made for one kind of map parses back to exactly the entries of that kind, in order, with either separator |
| UserMap.MapSpelled | src/user.c:88-90 | the map of one id, letter by letter, with a newline for /proc and a blank for newuidmap |
| UserMap.OptionRoundTrip | src/pflask.c:136-156 | every triple written canonically is accepted, with the low 32 bits of its saturated ids and its saturated count; it survives exactly if its ids fit 32 bits and its count 64 |
| UserMap.OptionExactly | src/pflask.c:136-154 | an option is taken for a triple exactly if it is three numerals with colons between them, each of which may be missing, with the low 32 bits of the first two and the value of the third |
| UserMap.MissingNumbers | src/pflask.c:136-154 | 5:: is taken for 5, 0 and 0 |
| UserMap.MinusOne | src/pflask.c:136-154 | -1:0:1 is taken for the id 2^32 - 1 |
| UserMap.LargeIdWraps | src/pflask.c:136-151 | an id of 2^32 becomes 0 |
| UserMap.HugeNumbersSaturate | src/pflask.c:136-151 | an id and a count of 2^64 become 2^32 - 1 and 2^64 - 1 |
| UserMap.MappedRootExactly | src/user.c:145-160 | for any list, the mapped root is the translation of id 0 exactly if there is no entry for id 0, or some such entry has positive length and all those that have it agree with the first entry on the host id |
| UserMap.MappedRootTranslates | src/user.c:145-160 | for extents of positive length that do not overlap, the mapped root is h exactly if the map translates id 0 to h |
| UserMap.EmptyExtentMisleads | src/user.c:145-160 | an extent of length zero is taken for a mapping of root |
| UserMap.OverlapMisleads | src/user.c:145-160 | of two extents that map id 0 only the first is seen |
| UserList.UserAddMap | src/user.c:57-68 | the list grows at its end by one new entry with the given contents |
| UserList.MapText | src/user.c:70-95 | the loop accumulates the text of the entries of one kind, in list order |
| UserList.UserGetMappedRoot | src/user.c:145-160 | the search finds the first entry of the kind for id 0, or says that there is none |
| Validate.ColonsOnly | src/pflask.c:351-372 | a value is followed into a NULL pointer exactly if it is not empty and all of it is colons |
| Validate.ValidateOptlist | src/pflask.c:351-372 | apart from that NULL pointer every value gets through: the look for empty fields never finds one |
| UserList.ParseUserMap | src/pflask.c:136-154 | the parser behind validate_optlist: three numbers with colons between them up to the end of the string, or a failure |
| UserList.ColonsNotParsed | src/pflask.c:132-154 | two colons would be three zeros to the parser, but do not get to it |
| UserList.AddUserMaps | src/pflask.c:126-156 | the list gets one entry for users and one for groups for each option, in order, up to the first option that does not get through; how that one ends the process is stated |
| UserList.OptionGoes | src/pflask.c:132-154 | an option gets through exactly if it is three numerals, each of which may be missing, with colons between them, and is not colons only |
| UserList.EntriesAt | src/pflask.c:156-157 | the entries of the k-th option are the 2k-th and the next, for users and for groups, with its three numbers |
| UserList.OptionsReachKernel | src/pflask.c:126-156 | triples given canonically as options all arrive, in order, in the text written for either kind, with what can be kept of them; they arrive unchanged exactly if all are in range |
| Util.FieldsJoin | src/util.c:37-61 | non-empty fields joined with a separator are found again |
| Util.FieldsConcat | src/util.c:37-61 | cutting a text at any separator cuts its list of fields |
| Util.DoubledNeedle | src/util.c:37-61 | two separators side by side count as one: there are no empty fields |
| Util.SpansCover | src/util.c:37-61 | the fields cover exactly the bytes that are not separators |
| Util.SpansBounded | src/util.c:37-61 | no field can be extended: a separator or an end of the string is on either side |
| Util.FieldsExist | src/util.c:37-61 | there is a field exactly if there is a byte that is not a separator |
| Util.Strtok | src/util.c:44-58 | strtok cuts off the next field in place, changes nothing before it, and leaves the rest of the string to be cut |
| Util.SplitStr | src/util.c:37-61 | the pointers are those of the fields, each a C string in the buffer; a string without fields gives one NULL |
| Mounts.SpecMeans | src/mount.c:88-136 | a spec is accepted exactly if it says one of the documented things with absolute paths, or has another type that begins with "bind", and then it means that |
| Mounts.ManualFollowedExactly | docs/pflask.rst:126-173 | just the documented lists of fields are accepted, each with its meaning, exactly unless the list at hand is accepted with a type that merely begins with "bind" or with more fields than its type has |
| Mounts.TextFollowedExactly | docs/pflask.rst:126-173 | the same for the text of a spec, where a colon too many, whose empty field vanishes, is the third and last way to depart |
| Mounts.ExtraFieldDropped | src/mount.c:99-110 | the last field of bind:/a:/b:junk is dropped |
| Mounts.EmptyFieldVanishes | src/mount.c:96 | bind::/a:/b has the fields of bind:/a:/b |
| Mounts.StrayBindAccepted | src/mount.c:99-110 | the undocumented type bindx is taken for bind |
| Mounts.SpecRoundTrip | src/mount.c:88-136 | a documented spec whose absolute paths have no colon is read back from its text |
| Mounts.SpecOrder | src/mount.c:204-235 | one more --mount option adds its own requests behind all others and changes nothing else |
| Mounts.RemountsAreReadOnlyBinds | src/mount.c:112-116 | whatever the options, each remount makes read-only what the mount call just before it has bound at the same target, and for bind-ro from the same source |
| Mounts.TargetsInside | src/mount.c:206-234 | with a new root, a mount for an entry behind the preparation leads, with "." and ".." resolved, to that root or below it exactly if the destination of the entry stays: it does not climb out of the root, or comes back the same way, or is the root |
| Mounts.SystemStays | src/mount.c:155-202 | every system mount stays inside every new root that is not empty |
| Mounts.DotsEscapeRoot | src/mount.c:99-110 | bind:/a:/../b is accepted, and under the root /r its target is /b |
| Mounts.TargetsBegin | src/mount.c:206-234 | as a list of names, unresolved, every target behind the preparation begins with those of the new root |
| MountList.MountAdd | src/mount.c:70-86 | the list grows at its end by one new mount with the given contents |
| MountList.MountAddFromSpec | src/mount.c:88-136 | the list grows by exactly what the spec means, or the spec is refused, or, if it has no field, its type is a NULL pointer |
| MountList.MountAll | src/mount.c:206-235 | the traversal issues the requests of every entry once and in order, and replaces the data of overlays in place |
| MountList.SetupMount | src/mount.c:138-236 | the requests are the preparation, then the system mounts, then the user's, in the order of their lists |
| MountRequests.BindAsks | src/mount.c:99-108 | whatever comes before it, the text bind:SRC:DST adds just two requests: a target of the kind of SRC at DST under the root, and SRC bound there |
| MountRequests.BindRoAsks | src/mount.c:99-112 | bind-ro:SRC:DST adds these, and a read-only remount of the same target |
| MountRequests.OverlayAsks | src/mount.c:273-312 | overlay:UPPER:DST:WORK adds the directory and an overlay with UPPER as upperdir, the target as lowerdir and WORK as workdir, or the branches of aufs |
| MountRequests.TmpAsks | src/mount.c:126-132 | tmp:DST adds the directory and a tmpfs on it |
| MountRequests.TextGoes | src/mount.c:88-136 | a text gets through exactly if its type is known and enough paths follow that begin with a slash; every other is refused |
| MountRequests.SpecOutcomeExactly | src/mount.c:96-99 | the type is a NULL pointer exactly if the text has nothing but colons, or nothing |
| MountRequests.ProcMounted | src/mount.c:174-175 | whatever the options, under a new root /proc is the first of the system mounts |
| MountRequests.ProcSysReadOnly | src/mount.c:177-182 | /proc/sys is bound to itself, and the very next mount makes it read-only |
| MountRequests.SysMounted | src/mount.c:184-185 | then /sys, read-only |
| MountRequests.DevMounted | src/mount.c:187-195 | then /dev, and in it /dev/pts and /dev/shm, each with its type, flags and data, at a directory made just before |
| MountRequests.RunMounted | src/mount.c:197-204 | then /run, and the cgroups in /sys, and behind them nothing but the user's mounts |
| MountRequests.RunBegins | src/mount.c:151-154 | every run begins by making / a slave, and without a new root there are no system mounts |
| MountRequests.EphemeralRoot | src/mount.c:155-171 | with --ephemeral a tmpfs is mounted, two directories are made in it, and the first is laid over the root, the second being the workdir |
| MountRequests.TargetsMade | src/mount.c:206-233 | whatever the options, just before each of these mounts its target is made, for binds of the kind of the source and for all others as a directory |
| MountList.MountsOfRun | src/pflask.c:100-103 | from the options to the requests: every spec gets through and the requests are those of all of them in order, or the first that does not ends the process in the stated way |
| Capabilities.CapabilityAdd | src/capabilities.c:47-84 | one entry is appended, or the value is refused: empty, unknown, or `all` not at the head |
| Capabilities.CapabilitiesAdd | src/pflask.c:162-165 | the list is accepted exactly if every value is, and then holds their entries in order |
| Capabilities.SignedValue | src/capabilities.c:55-81 | a value with a minus drops, any other adds; `all` goes only first, other names must be known; only one sign is taken off |
| Capabilities.AllSpelled | src/capabilities.c:71 | `all` may be spelled in any case |
| Capabilities.LastValueDecides | src/capabilities.c:47-107 | from the text to the sets: the last value that names a capability leaves it in all four sets, or in none if its sign is a minus |
| Capabilities.UnnamedStays | src/capabilities.c:47-107 | from the text to the sets: a capability that no value names keeps its state, or is gone exactly if the first value is -all in any case |
| Capabilities.ReadsAccepted | src/capabilities.c:70-74 | in an accepted list `all` is at the head or nowhere |
| Capabilities.SetupCapabilities | src/capabilities.c:86-107 | the traversal leaves the sets that the entries make of those of the process |
| Capabilities.LastMention | src/capabilities.c:91-107 | the last entry for a capability decides its state in all four sets |
| Capabilities.NoMention | src/capabilities.c:91-107 | a capability without an entry keeps its state, or is gone if the list begins with -all |
| Capabilities.AllPrefix | docs/pflask.rst:234-242 | `all,X`, in any case and with or without a plus, is accepted exactly if X is and does not begin with an `all` itself, and has the same effect as X |
| Capabilities.AllAddsNothing | docs/pflask.rst:234-242 | for every accepted list that begins with `all`, the outcome is that of a full initial set exactly if the set already is full in every capability the list does not mention |
| Capabilities.AllOnNothing | src/capabilities.c:92-96 | an empty set stays empty under `all`, and under `all,-chown` |

## Left out

- Terminal handling, epoll loops, signals and descriptor passing (src/pty.c); D-Bus (src/machine.c); logging.
- Real system calls: mounting, cloning, netlink sending and receiving, writes to /proc. What is modelled is the
  sequence of requests, or the effect on channels and descriptors.
- Device nodes, symlinks and console mounting (src/dev.c), cgroup files (src/cgroup.c), `on_path`, the environment.
- Failing allocation: it ends the process everywhere.
- src/cmdline.c besides multiple string options: help, version, the getopt switch, flags, numbers and single-valued
  options. `update_arg` is modelled for the arguments it gets for a multiple option.
- `get_multiple_arg_token` reads the byte in front of its argument; that byte is a parameter here, required not to be
  a backslash.
- The unsigned 32-bit counters of options are unbounded here.
- The other list macros of deps/ut/utlist.h (`LL_`, `CDL_` besides their sorts; searching, counting) and its
  workarounds for old compilers. A comparison callback must not look at the links, which change while it is used.
  After `DL_CONCAT` the second list head is not to be used any more.
- Places: symbolic links are not followed; ".." goes to the parent by name.
- The headers of netlink messages: the fields of `struct nlmsghdr` besides the length, and `struct ifinfomsg`, which
  are left arbitrary. Integers are little-endian. `nl_send` and `nl_recv`, `setup_netif` and `netif_add_from_spec` are
  not modelled; that names fit the buffer is required of the callers.
- Sync: a message is written and read as a whole. Everything the child does behind the barrier is one step, as is the
  parent's serving of the terminal. That the kernel kills the child with its parent is not assumed.
- The command line built for newuidmap around the text of the map.
- What a process does after following a NULL pointer: the C standard leaves it undefined; here it ends, like a refusal.
- Mount requests are those of a run in which all calls succeed; a call that fails ends the process. The directory that
  mkdir finds there already, and the look at source and target in make_bind_dest, are inside one request each.
- MountList.SetupMount: the calls of mount_add for the system mounts are one loop over the list of their arguments.
- libcap-ng: the numbers of capability names are a parameter, the sets are a field, and applying them to the process
  is left out.
