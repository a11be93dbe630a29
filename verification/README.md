# A verified model of the LuCI client library

This project models the algorithmic core of the LuCI client library as it is kept in the router's web root,
and proves what its parts promise: the UCI configuration store and its save, the firewall's zones on top of
it, the package manager's version order and dependency walk, the datatype expressions of form validation,
IP address text, the template engine of the firewall pages, a 64-bit random generator on 16-bit limbs,
network masks and subnets, form dependencies, and wireless network ids.

Code that changes things step by step is modelled by classes and by methods with loops, each proved against
a specification function; the properties are lemmas about those functions. The modules:

- `UciState`, `UciRuns`, `UciOrder`, `UciMoves`, `UciSave`, `UciReorder`, `UciStore`: the store. One section is
  an `Entry` of four tables with an invariant; every run of edits and moves refines a plain table of sections; a
  save is a replay of calls on a server; `UciStore.Uci` is the object with the methods of the source. Two promises
  are false of the code. That a save stores what the reads showed fails once a section is read as a whole, which a
  move also does, while the deletion of one of its options is pending: `UciSave.SaveTheorem` and
  `UciSave.StepLoses` give the exact condition, `UciSave.WholeReadLosesDelete` and `UciSave.MoveLosesDelete` the
  failing runs, and `UciSave.SaveRoundTrip` proves it for all other runs. That the order sent at the end of a save
  is the moved order fails when the delete calls, whose replies come first, shift the names of new sections:
  `UciReorder.SentOrderIsMoved` gives the exact condition and `UciReorder.UnsetLosesOrder` the failing
  input.
- `FirewallRows`, `Firewall`, `FirewallReconcile`: zones, references and forwardings on that store.
- `OpkgVersion`, `OpkgIndex`, `OpkgDeps`: version comparison (section 5.6.12 of the Debian Policy Manual,
  comparison rule only), provider index, dependency walk. As in the code, the constraints "<" and ">" admit
  equality.
- `DatatypeCompiler`, `CompileErrors`, `Validators`, `IpText`, `IpForms`: validation. IPv6 forms are those of section
  2.2 of RFC 4291.
- `Bits`, `Limbs`, `NameHash`, `Prng`: machine arithmetic and the zone colours. Bitwise operators are the
  source's, on 32 bits.
- `PrefixNumbers`, `Masks`, `Subnet`: prefixes, masks, networks and broadcast addresses, through their texts.
- `Templates`, `TemplateTexts`, `Depends`, `WifiNetid`: templates, form dependencies, wireless ids.
- `Common`, `Strings`: shared vocabulary.

Errors of the source (exceptions, null results) are values of result types. Random or server-chosen names
are parameters with the premises that the source's choice guarantees.

## Model

| member | source | states |
|---|---|---|
| UciState.StoreIsAssignment | rootfs/www/luci-static/resources/uci.js:20-23 | Functional update of a two-level table is the source's assignment (creating the inner table when missing) and its `delete`. |
| UciState.ReadIsShown | rootfs/www/luci-static/resources/uci.js:33-50 | The overlay lookup of any option, branch by branch, is a plain lookup in the section that the entry shows. |
| UciState.RemovedIsPlain | rootfs/www/luci-static/resources/uci.js:20-23 | Removing a section keeps the invariant of the entry and leaves nothing to read. |
| UciState.WithChangeIsPlain | rootfs/www/luci-static/resources/uci.js:54-61 | Setting a value on a loaded section keeps the invariant and is a plain map update of what is shown, with the "is it now empty" cases. |
| UciState.WithDeletionIsPlain | rootfs/www/luci-static/resources/uci.js:62-68 | Deleting an option of a loaded section keeps the invariant and is a plain map removal of what is shown. |
| UciState.WithIsPlain | rootfs/www/luci-static/resources/uci.js:50-68 | `set` with any value, null and "" included, is the plain operation on what is shown; meta data never changes. |
| UciState.MergedShowsTheSame | rootfs/www/luci-static/resources/uci.js:42-49 | A whole-section read rewrites the snapshot but changes no option read. |
| UciRuns.EditsOnlyChange | rootfs/www/luci-static/resources/uci.js:20-68 | Full frame: remove, set, unset and whole-section reads change what one section shows and nothing else. |
| UciRuns.AddOnlyChanges | rootfs/www/luci-static/resources/uci.js:19-20 | Full frame of `add`: one new section whose type, name, anonymous flag, index and creation name are as stated, without options; nothing else changes but the count of new sections. |
| UciRuns.StepRefines | rootfs/www/luci-static/resources/uci.js:19-68 | Every edit keeps the store's invariant and commutes with the same edit on a plain table of sections; an add takes a name that no live section has. |
| UciRuns.RunRefines | rootfs/www/luci-static/resources/uci.js:19-68 | Every run of edits keeps the invariant (changes and deletes disjoint per option, never empty, only on loaded sections; deleted sections without changes) and every option read gives what the plain table has after the same run. |
| UciRuns.ReadRefines | rootfs/www/luci-static/resources/uci.js:42-49 | A whole-section read, which writes into the snapshot, keeps the invariant and leaves the plain table as it is. |
| UciRuns.StepEntries | rootfs/www/luci-static/resources/uci.js:19-68 | What a step does to the four tables: the edited section changes by its own edit, all other sections and the set of packages stay. |
| UciRuns.StepInv | rootfs/www/luci-static/resources/uci.js:19-68 | Every edit keeps the invariant of the store. |
| UciMoves.DoInv | rootfs/www/luci-static/resources/uci.js:19-79 | Every edit and every move keeps the invariant of the store and loads or unloads no package. |
| UciMoves.RunRefines | rootfs/www/luci-static/resources/uci.js:19-79 | Every run of edits and moves shows exactly the plain table after the same run, in which a move only numbers the live sections of its package. |
| UciMoves.RunMarks | rootfs/www/luci-static/resources/uci.js:70-79 | The packages that a run marks for sending their order are exactly those marked before and those with a move in the run. |
| UciSave.GroupReplay | rootfs/www/luci-static/resources/uci.js:79-93 | Replaying one group of calls acts on each section by itself, so any enumeration order of the group gives the same server. |
| UciSave.OverlayAgrees | rootfs/www/luci-static/resources/uci.js:79-93 | Deleting then setting on the server equals overlaying then deleting in the store if and only if the server has no option that the store forgot. |
| UciSave.RunFollows | rootfs/www/luci-static/resources/uci.js:19-79 | Over every run of edits and moves the snapshot follows the server; when no section is read as a whole while the deletion of one of its options is pending, the snapshot still has every option of the server, so nothing is lost. |
| UciSave.StepLoses | rootfs/www/luci-static/resources/uci.js:62-68 | The exact step that loses an option: null or "" is set on an option that has a pending value, is not in the snapshot any more, and is still on the server; no other edit or move loses one. |
| UciSave.EditLoses | rootfs/www/luci-static/resources/uci.js:42-68 | What each edit does to what is lost: a new value or the removal of the section finds it again, whole-section reads and index writes change nothing. |
| UciSave.EditCovers | rootfs/www/luci-static/resources/uci.js:42-68 | The snapshot keeps every option of the server under removal, set and unset, and under whole-section reads and index writes unless an option's deletion is pending. |
| UciSave.CoveredLosesNothing | rootfs/www/luci-static/resources/uci.js:62-68 | Then no option of the package is lost. |
| UciSave.QuietIsCareful | rootfs/www/luci-static/resources/uci.js:42-79 | Runs that never unset an option meet that condition whatever they read and move; the firewall operations make only such edits. |
| UciSave.IndexedFollows | rootfs/www/luci-static/resources/uci.js:78-79 | The snapshot still follows the server after the whole-section read and the index write of a move. |
| UciSave.SavedSection | rootfs/www/luci-static/resources/uci.js:79-93 | For one section the server's result is what was shown if and only if no option of it was lost. |
| UciSave.SaveTheorem | rootfs/www/luci-static/resources/uci.js:79-97 | After all calls of a save, in any order inside the groups, the server holds exactly what the reads showed, section by section, if and only if no option was lost. |
| UciSave.ReloadedEntry | rootfs/www/luci-static/resources/uci.js:97 | After a save the touched packages are the server's answer without pending edits, all others are untouched. |
| UciSave.ReloadShowsServer | rootfs/www/luci-static/resources/uci.js:97 | Where the server holds what was shown, unloading and reloading changes no read and no section's existence. |
| UciSave.LoadIsPristine | rootfs/www/luci-static/resources/uci.js:13-18 | A package that was just loaded agrees with the server option by option, and its snapshot has every option of the server. |
| UciSave.SaveRoundTrip | rootfs/www/luci-static/resources/uci.js:79-97 | For every run of add, remove, set, unset, reads and moves that reads no section as a whole while the deletion of one of its options is pending: saving and reloading leaves every read as it was. |
| UciSave.LostByEdits | rootfs/www/luci-static/resources/uci.js:42-68 | Entry level counterexample: unset, whole-section read, set, unset leaves an option on the server that reads say is gone. |
| UciSave.WholeReadLosesDelete | rootfs/www/luci-static/resources/uci.js:42-68 | The same as a run of the store: one whole-section read while a deletion is pending, and the save promise fails. |
| UciSave.MoveLosesDelete | rootfs/www/luci-static/resources/uci.js:62-79 | The same as a run of the store with a move between unset and set, since a move reads whole sections. |
| UciReorder.SentOrderIsMoved | rootfs/www/luci-static/resources/uci.js:6-12 | After a move and after the new sections took the first replies for their names: the live sections are sent in the moved order, each by its name on the server, and no deleted section by one of these names, if and only if each new section of the package took the reply to its own call and no live section has the name of a deleted one. |
| UciReorder.OwnRepliesIff | rootfs/www/luci-static/resources/uci.js:80-97 | The first condition read off the calls, whose deletes come first and are answered by 0: there is no delete at all, or each new section of the package stands after as many creates as there are deletes and got an equal reply. |
| UciReorder.OwnRepliesNone | rootfs/www/luci-static/resources/uci.js:80-97 | When all new sections get different names: nothing is deleted, or nothing is created in the package. |
| UciReorder.NoneReusedIff | rootfs/www/luci-static/resources/uci.js:6-12 | The second condition when new sections keep the names they were given: no deleted name was created again in the package. |
| UciReorder.SentInOrder | rootfs/www/luci-static/resources/uci.js:6-12 | The same for every state in which the live sections have different indexes, whatever was edited since the last move: they are sent in the order of their indexes exactly under these two conditions. |
| UciReorder.LiveObjsInOrder | rootfs/www/luci-static/resources/uci.js:6-12 | The sections themselves, deleted ones apart, are sorted into that order in any case, recreated names included. |
| UciReorder.UnsetLosesOrder | rootfs/www/luci-static/resources/uci.js:62-97 | The failing input: unset an option of section a, add a section n, move it before a, save; the names sent are 0, a, b instead of n, a, b, although no name was created again. |
| UciOrder.SortedUnique | rootfs/www/luci-static/resources/uci.js:10 | Two duplicate-free lists of the same names sorted by an injective key are equal, so the result of a sort is determined. |
| UciOrder.ListedAgrees | rootfs/www/luci-static/resources/uci.js:24-30 | A listed option is the one that `get` reads unless its deletion is pending; then the old value is still listed. |
| UciOrder.ListedIsSection | rootfs/www/luci-static/resources/uci.js:24-30 | What is listed for a live section is a section, with the meta data that is shown. |
| UciOrder.MoveOrderIsMove | rootfs/www/luci-static/resources/uci.js:70-77 | The splice gives a permutation in which the moved section is directly before or after the other one (or last) and all others keep their order; it fails exactly when a section is missing or moved next to itself. |
| UciOrder.IndexedShows | rootfs/www/luci-static/resources/uci.js:78-79 | Writing the index into the object a read returned changes that index and no other read. |
| UciOrder.RenumberKeeps | rootfs/www/luci-static/resources/uci.js:78-79 | After the renumbering the invariant holds, live indexes are 0..n-1 in the moved order, and nothing but the index differs anywhere. |
| UciOrder.RenumberedListing | rootfs/www/luci-static/resources/uci.js:70-79 | After a move the sections are listed in exactly the moved order. |
| UciOrder.StepKeepsIndexes | rootfs/www/luci-static/resources/uci.js:19-20 | Every edit keeps all live indexes below the next new index. |
| UciOrder.MoveKeepsIndexes | rootfs/www/luci-static/resources/uci.js:78-79 | A move keeps that bound as long as there are not more live sections than the bound. |
| UciOrder.AddSortsLast | rootfs/www/luci-static/resources/uci.js:19-20 | Under that bound a section that is added is listed last. |
| UciStore.Uci.LoadPackage | rootfs/www/luci-static/resources/uci.js:13-18 | Loading puts the response beside the pending edits and keeps the invariant. |
| UciStore.Uci.AddSection | rootfs/www/luci-static/resources/uci.js:19-20 | The method's new state is the edit of the state, with the given or the chosen name. |
| UciStore.Uci.RemoveSection | rootfs/www/luci-static/resources/uci.js:20-23 | The method's new state is the edit of the state. |
| UciStore.Uci.GetOption | rootfs/www/luci-static/resources/uci.js:33-41 | The method resolves the reference and returns the overlay lookup. |
| UciStore.Uci.GetSection | rootfs/www/luci-static/resources/uci.js:42-50 | The method returns the shown section and writes the pending edits into the snapshot. |
| UciStore.Uci.SetOption | rootfs/www/luci-static/resources/uci.js:50-68 | The method resolves the reference; its new state is the edit of the state. |
| UciStore.Uci.ChangeLoaded | rootfs/www/luci-static/resources/uci.js:54-61 | The branch for values: the two pending tables are updated as the entry's change says. |
| UciStore.Uci.DeleteLoaded | rootfs/www/luci-static/resources/uci.js:62-68 | The branch for null and "": the two pending tables are updated as the entry's deletion says. |
| UciStore.Uci.ResolveSID | rootfs/www/luci-static/resources/uci.js:5-6 | A reference "@type[n]" names the n-th listed section of the type, from the end for negative n; other names stand for themselves. |
| UciOrder.RefIsRead | rootfs/www/luci-static/resources/uci.js:5-6 | The printed references "@type[n]" and "@type[-n]" are read as the type and the position, for every type name and number. |
| UciStore.ResolvedRefs | rootfs/www/luci-static/resources/uci.js:5-6 | So "@type[n]" stands for the n-th listed section from the front, "@type[-n]" for the n-th from the end, and for nothing behind either end. |
| UciStore.Uci.Sections | rootfs/www/luci-static/resources/uci.js:23-33 | The result lists each live section of the type once, sorted by index and renumbered. |
| UciStore.Uci.Move | rootfs/www/luci-static/resources/uci.js:70-79 | The result and the new state are those of the moved order of the current listing; a move that succeeds marks its package and no other for sending the order, on failure nothing changes. |
| UciStore.Uci.ReorderSections | rootfs/www/luci-static/resources/uci.js:6-12 | For each reordered package all created and all loaded sections, deleted ones included, each once and sorted by index, are sent by the names they have after the replies were taken; empty packages are left out; the marks are cleared. |
| UciStore.Uci.TakeNames | rootfs/www/luci-static/resources/uci.js:96-97 | The i-th new section is called by the i-th reply; nothing else changes. |
| UciStore.Uci.PendingCalls | rootfs/www/luci-static/resources/uci.js:79-96 | The calls are those of the three groups, each once; every package with a call or a mark for its order is among the packages to fetch again, which all have a pending table. |
| UciStore.Uci.FinishSave | rootfs/www/luci-static/resources/uci.js:96-97 | The end of a save as one: new names from the replies, the orders sent; afterwards nothing is pending in any package and no mark is left, each package that had a call or a mark holds exactly the response, all others their values. |
| UciStore.Uci.SaveAgain | rootfs/www/luci-static/resources/uci.js:79-97 | A second save right after the first sends no call and fetches no package. |
| UciStore.NothingPendingAfter | rootfs/www/luci-static/resources/uci.js:79-97 | The same of the state: no table is left after the reload, and every package that any call or mark named is the response. |
| UciStore.NothingLeftToSave | rootfs/www/luci-static/resources/uci.js:79-96 | Where no table and no mark is left, the three groups are empty and nothing is fetched. |
| UciStore.MoveIsSent | rootfs/www/luci-static/resources/uci.js:70-97 | A move makes the next save send an order for its package: all its sections sorted by index, the live ones in the moved order under their names on the server exactly under the two conditions. |
| UciStore.MoveAloneIsSent | rootfs/www/luci-static/resources/uci.js:70-97 | With no other edit pending the order that is sent is exactly the list of names in the moved order. |
| UciStore.RunIsSent | rootfs/www/luci-static/resources/uci.js:6-12 | After every run the save sends an order for exactly those moved packages that still hold a section. |
| FirewallRows.StepReady | rootfs/www/luci-static/resources/firewall.js:17-36 | Adding, removing, setting a text and reading through the store keeps a plain table of the firewall's sections in step with it, and makes no listed value stale. |
| FirewallRows.ListingIsCurrent | rootfs/www/luci-static/resources/firewall.js:25-27 | A listing of the package agrees with what is read of type, name, source and destination if and only if no pending deletion of these has its old value still in the snapshot. |
| FirewallRows.ScanReads | rootfs/www/luci-static/resources/firewall.js:25-36 | For one option and one value: a scan of the listing finds it exactly where it is read, if and only if no section has that value pending its deletion. |
| FirewallRows.ListingIsCopy | rootfs/www/luci-static/resources/firewall.js:25-27 | Without such a deletion, what the firewall code sees of a listed section are its current name, source and destination. |
| FirewallRows.ListingLists | rootfs/www/luci-static/resources/firewall.js:25-27 | A listing has each firewall section of the type exactly once. |
| Firewall.LookupZone | rootfs/www/luci-static/resources/firewall.js:8-11 | Finds the zone section of that name, else a zone with that name option; finds nothing exactly when there is none. |
| Firewall.Defaults | rootfs/www/luci-static/resources/firewall.js:39-40 | Returns a defaults section; adds an empty one if there is none and changes nothing otherwise. |
| Firewall.AddZone | rootfs/www/luci-static/resources/firewall.js:17-19 | Adds a zone exactly when the name is well formed and free: its type, its name, and input, output and forward policy from those of the defaults; otherwise nothing changes. |
| Firewall.PolicyTexts | rootfs/www/luci-static/resources/firewall.js:2-7 | A policy text is REJECT or ACCEPT exactly when it is a non-empty beginning of that word in any mixture of cases, and DROP otherwise. |
| Firewall.AddZoneKeepsIntact | rootfs/www/luci-static/resources/firewall.js:17-19 | Adding a zone keeps zone names distinct and all forwardings joining two existing zones. |
| Firewall.DeleteZone | rootfs/www/luci-static/resources/firewall.js:22-28 | Removes the zones found, and exactly those rules, redirects and forwardings whose source or destination is their name; all other sections stay as they are; reports whether there was a zone. |
| Firewall.DeleteKeepsIntact | rootfs/www/luci-static/resources/firewall.js:22-28 | After deleting a zone no rule, redirect or forwarding names it and everything else stays intact. |
| Firewall.UnnamedZoneTakesRules | rootfs/www/luci-static/resources/firewall.js:22-28 | Deleting a zone section without a name option deletes every rule that lacks a source or a destination. |
| Firewall.DeletesOnlyReferences | rootfs/www/luci-static/resources/firewall.js:22-28 | Besides the zone, deletion takes only references to it if and only if the zone has a name, or every other rule, redirect and forwarding has both ends. |
| Firewall.ScanIsReferences | rootfs/www/luci-static/resources/firewall.js:25-27 | The scan of deleteZone takes exactly the sections that are read as references if and only if no end with the zone's name is pending its deletion in a section that is otherwise no reference. |
| Firewall.UnsetEndIsListed | rootfs/www/luci-static/resources/firewall.js:25-36 | The failing state: after the destination of a rule is unset it is read as missing, but the listing that deletion and renaming scan still has it. |
| Firewall.RenameZone | rootfs/www/luci-static/resources/firewall.js:28-36 | Renames exactly when the new name is well formed and free and the old one exists: the name of zones and both ends of rules, redirects and forwardings take the new name, no other option of any section changes. |
| Firewall.RenameKeepsIntact | rootfs/www/luci-static/resources/firewall.js:28-36 | After renaming, nothing names the old zone, everything stays intact and no other option changed. |
| Firewall.GetForwardingsBy | rootfs/www/luci-static/resources/firewall.js:46-49 | Returns exactly the complete forwardings whose given end is the zone's name, each once. |
| Firewall.AddForwarding | rootfs/www/luci-static/resources/firewall.js:49-55 | Adds a forwarding exactly when the lookup finds the other zone, it is a different one and is not joined this way yet; the table then grows by that pair only. |
| Firewall.AddForwardingKeepsIntact | rootfs/www/luci-static/resources/firewall.js:49-55 | The new forwarding keeps everything intact; the joined pairs grow by exactly this one. |
| Firewall.RunKeepsIntact | rootfs/www/luci-static/resources/firewall.js:8-55 | Over every run of these operations zone names stay distinct, every forwarding joins two existing different zones, and no pair repeats. |
| Firewall.Perform | rootfs/www/luci-static/resources/firewall.js:17-55 | Each of the four operations, as it is called, makes a run of at most one action, and keeps everything intact. |
| Firewall.PerformAll | rootfs/www/luci-static/resources/firewall.js:17-55 | Any sequence of calls of the four operations makes such a run and keeps everything intact. |
| FirewallReconcile.DropUnwanted | rootfs/www/luci-static/resources/view/firewall/zones.js:29-31 | Deletes exactly the zone's forwardings in the direction whose other end was not asked for. |
| FirewallReconcile.AddWanted | rootfs/www/luci-static/resources/view/firewall/zones.js:32-35 | Joins the zone with each other zone that the lookup finds under a requested name and with no other; only forwardings are added. |
| FirewallReconcile.WritePeers | rootfs/www/luci-static/resources/view/firewall/zones.js:29-35 | After the form's write the zone is joined in the direction exactly with the other zones that the lookup finds under the requested names and with those it was joined with under a requested name before; all other joined pairs are as before; only forwardings are removed and added, all other sections stay. |
| FirewallReconcile.NamedPeers | rootfs/www/luci-static/resources/view/firewall/zones.js:29-35 | Where no requested name is the section name of a differently named zone, these are exactly the other zones that exist and whose name is in the list. |
| FirewallReconcile.WrittenPeers | rootfs/www/luci-static/resources/view/firewall/zones.js:29-35 | Dropping and then adding gives that result whatever was there before. |
| OpkgVersion.CompareTransitive | rootfs/www/luci-static/resources/view/opkg.js:129-146 | The lexicographic order of keys is transitive, strictly if one step is strict. |
| OpkgVersion.CompareZero | rootfs/www/luci-static/resources/view/opkg.js:129-146 | Two keys compare equal exactly when their canonical forms are equal. |
| OpkgVersion.VersionOrder | rootfs/www/luci-static/resources/view/opkg.js:129-146 | Version comparison is a total preorder: reflexive, sign-antisymmetric, transitive, and zero exactly for equal canonical keys. |
| OpkgVersion.TildeIsOlder | rootfs/www/luci-static/resources/view/opkg.js:129-134 | Appending a part that starts with '~' makes any version older. |
| OpkgVersion.NumberDecides | rootfs/www/luci-static/resources/view/opkg.js:139-145 | After the common digits the longer number wins, else the first difference, else the rest: this is comparison of the number values. |
| OpkgVersion.CharsInOrder | rootfs/www/luci-static/resources/view/opkg.js:129-138 | After any common prefix: '~' sorts before the end of the text, the end before letters, letters before all other characters; within each kind the character codes decide, and equal characters leave the decision to the rest. |
| OpkgVersion.DigitIsOlder | rootfs/www/luci-static/resources/view/opkg.js:129-138 | Where a number may begin, a digit sorts before every other character but '~'. |
| OpkgVersion.NumbersInOrder | rootfs/www/luci-static/resources/view/opkg.js:139-145 | After any prefix that does not end in a digit, whole numbers compare by value ("1.10" after "1.9"), leading zeros included; equal ones leave the decision to the rest. |
| OpkgVersion.CompareVersion | rootfs/www/luci-static/resources/view/opkg.js:135-146 | The two-index loop terminates and the sign of its result is the order of the keys, which the three rules about characters and numbers fix for any two texts. |
| OpkgVersion.VersionSatisfied | rootfs/www/luci-static/resources/view/opkg.js:147-149 | The method decides the constraint by that order. |
| OpkgVersion.SatisfiedIsClosed | rootfs/www/luci-static/resources/view/opkg.js:147-149 | Lower bounds are kept by newer versions, upper bounds by older ones, every constraint by equal keys. |
| OpkgVersion.OperatorLaws | rootfs/www/luci-static/resources/view/opkg.js:147-149 | "<" is "<=" and ">" is ">="; "<<" and ">>" are the negations of ">=" and "<="; "=" is both bounds at once; bounds turn around with the versions; any other operator text is never satisfied. |
| OpkgIndex.ParseList | rootfs/www/luci-static/resources/view/opkg.js:90-91 | The loop files the packages one after the other. |
| OpkgIndex.FiledNames | rootfs/www/luci-static/resources/view/opkg.js:90-91 | A name has providers exactly when some filed package has or provides it. |
| OpkgIndex.FiledProviders | rootfs/www/luci-static/resources/view/opkg.js:90-91 | Exactly who provides a name; the package of that name counts only when it came before every other provider. |
| OpkgIndex.FiledLast | rootfs/www/luci-static/resources/view/opkg.js:90-91 | One more package comes after all providers filed before, and its name leads to it. |
| OpkgIndex.FileAllWellFiled | rootfs/www/luci-static/resources/view/opkg.js:90-91 | Every provider in the index is a package that can be looked up by its name. |
| OpkgDeps.ParseDepFinds | rootfs/www/luci-static/resources/view/opkg.js:170-171 | "name (op version)" is read as the name, the operator and the version, for all seven operators. |
| OpkgDeps.PlainDep | rootfs/www/luci-static/resources/view/opkg.js:170-172 | A text without a parenthesis is all name, trimmed. |
| OpkgDeps.FindReplacement | rootfs/www/luci-static/resources/view/opkg.js:151-152 | Finds the first available provider in a fitting version, exactly when there is one. |
| OpkgDeps.PkgStatus | rootfs/www/luci-static/resources/view/opkg.js:150-157 | An installed package that fits changes nothing; otherwise there is exactly one new plan (the provider itself, or the first fitting available provider for an installed one that does not fit) or exactly one new problem (the installed version, the repository version, not available), the latter exactly when the provider is not taken care of. |
| OpkgDeps.StatusOfProviders | rootfs/www/luci-static/resources/view/opkg.js:159-163 | All providers are checked, every new plan and every new problem belongs to one of them, and exactly their dependencies are collected. |
| OpkgDeps.RenderDependencyItem | rootfs/www/luci-static/resources/view/opkg.js:158-167 | One name of the walk: progress over the finite universe, only reachable names, every new plan and problem belongs to a recorded name, all covered when no problem is reported. |
| OpkgDeps.RenderDependencies | rootfs/www/luci-static/resources/view/opkg.js:168-175 | The recursive walk terminates on cyclic graphs, records names once, and takes the constraint of a name from the first text that needs it; every new plan and problem belongs to a recorded name. |
| OpkgDeps.Walk | rootfs/www/luci-static/resources/view/opkg.js:158-175 | From an empty record: the recorded names are exactly those reachable from the roots, each is rendered once; every planned package and every problem belongs to a provider of a recorded name as for one provider, so nothing installed that fits is planned; there is no problem if and only if every provider of every name is installed fittingly or planned. |
| OpkgDeps.ProvidersResolve | rootfs/www/luci-static/resources/view/opkg.js:159 | On filed lists every provider name leads to an indexed package, the installed one before the available one, never to the stand-in. |
| OpkgDeps.InstalledIsKept | rootfs/www/luci-static/resources/view/opkg.js:150-159 | An installed package that fits is neither planned nor a problem, whatever version of it is available. |
| OpkgDeps.ProviderOrder | rootfs/www/luci-static/resources/view/opkg.js:173-175 | Each provider is named once, the installed ones before those that are only available. |
| DatatypeCompiler.CompileExpression | rootfs/www/luci-static/resources/validation.js:13-23 | The scanning loop with its position, escape flag, depth and stack computes the compiled stack or the error. |
| DatatypeCompiler.CompileUndoesPrint | rootfs/www/luci-static/resources/validation.js:13-23 | Compiling the printed, backslash-escaped form of any expression gives its stack encoding: one slot per literal, two per type. |
| DatatypeCompiler.CompileShaped | rootfs/www/luci-static/resources/validation.js:13-23 | Whatever compiles has the shape that the evaluators walk. |
| DatatypeCompiler.NumberLabels | rootfs/www/luci-static/resources/validation.js:15 | A number label has the value of its digits, each digit behind the point a tenth of the one before, turned by a minus sign. |
| CompileErrors.UnknownFails | rootfs/www/luci-static/resources/validation.js:15-18 | A label that is no number, no quoted text and no type is reported by its name, with or without an argument list. |
| CompileErrors.LiteralCalled | rootfs/www/luci-static/resources/validation.js:20-21 | An argument list behind a literal is an error. |
| CompileErrors.ArgumentFails | rootfs/www/luci-static/resources/validation.js:20-21 | An error in the arguments of a type is the error of the whole text. |
| CompileErrors.FirstFailureDecides | rootfs/www/luci-static/resources/validation.js:13-23 | The first item that fails, after any well-formed ones, decides about the text, whatever follows. |
| Validators.LiteralMatches | rootfs/www/luci-static/resources/validation.js:46-53 | A text literal matches itself only; a number matches its digits, with blanks before them and a sign, and zero the empty text. |
| Validators.Validator.Assert | rootfs/www/luci-static/resources/validation.js:2-3 | The error is null exactly when the condition holds. |
| Validators.Validator.Or | rootfs/www/luci-static/resources/validation.js:46-50 | The loop over mixed strides returns true exactly when no error is left, with the collected errors otherwise. |
| Validators.Validator.And | rootfs/www/luci-static/resources/validation.js:50-53 | The loop returns true exactly when no error is left, with the first error otherwise. |
| Validators.Validator.Apply | rootfs/www/luci-static/resources/validation.js:3-7 | The result is true exactly when the verdict on the type leaves no error. |
| Validators.Validator.Validate | rootfs/www/luci-static/resources/validation.js:7-12 | A field is valid exactly when it is empty and optional or its compiled type accepts it. |
| Validators.OrMeaning | rootfs/www/luci-static/resources/validation.js:46-50 | The verdict of `or` on an encoded list is the disjunction of the meanings of its trees. |
| Validators.AndMeaning | rootfs/www/luci-static/resources/validation.js:50-53 | The verdict of `and` on an encoded list is the conjunction of the meanings of its trees. |
| Validators.OrReports | rootfs/www/luci-static/resources/validation.js:46-50 | When `or` rejects, it reports one message for each of its items, in their order: the literal itself or what the type reports. |
| Validators.AndReports | rootfs/www/luci-static/resources/validation.js:50-53 | When `and` rejects, it reports the message of the first item that is not met. |
| Validators.TypeMeaning | rootfs/www/luci-static/resources/validation.js:46-53 | The verdict on a compiled type is the meaning of the tree it was compiled from. |
| Validators.PrintedMeaning | rootfs/www/luci-static/resources/validation.js:7-23 | From text to verdict: a printed datatype accepts a value exactly when the expression tree means so. |
| IpText.ParseIPv4Inverts | rootfs/www/luci-static/resources/validation.js:23-25 | Four bytes are read back from every dotted text of theirs, leading zeros included. |
| IpText.ParseIPv6Words | rootfs/www/luci-static/resources/validation.js:25-38 | Whatever is accepted has exactly eight words of at most 0xFFFF. |
| IpText.ParseIPv6InvertsFull | rootfs/www/luci-static/resources/validation.js:28-38 | Eight words are read back from every full printing, in any case and with leading zeros. |
| IpText.ParseIPv6InvertsCompressed | rootfs/www/luci-static/resources/validation.js:28-38 | Eight words are read back from every printing in which "::" stands for an inner run of zeros or an outer run of at least two. |
| IpText.DottedTail | rootfs/www/luci-static/resources/validation.js:25-27 | A dotted IPv4 tail means the two groups of its halves. |
| IpForms.AcceptsIPv4 | rootfs/www/luci-static/resources/validation.js:23-25 | A text is an IPv4 address exactly when it is four numbers up to 255 in one to three digits with points between them. |
| IpForms.AcceptsIPv6 | rootfs/www/luci-static/resources/validation.js:25-38 | A text without a point is an IPv6 address exactly when it is eight groups, or groups around one "::" that together leave room for it, with these words. |
| IpForms.AcceptsTail | rootfs/www/luci-static/resources/validation.js:25-38 | A text with a point is one exactly when its tail is an IPv4 address and the text with the two groups of that is an IPv6 address. |
| IpText.AppendWords | rootfs/www/luci-static/resources/validation.js:31-38 | The loop over groups appends exactly their words or rejects. |
| IpText.ParseAddress | rootfs/www/luci-static/resources/validation.js:25-38 | The method with its loops computes the parser function. |
| Strings.SplitJoin | rootfs/www/luci-static/resources/validation.js:30 | Splitting undoes joining when no part has the separator. |
| Strings.TrimTakes | rootfs/www/luci-static/resources/tools/firewall.js:6-9 | Trimming takes away exactly the white space (codes 9 to 13, 32 and 160) at both ends. |
| Bits.AndOnes | rootfs/www/luci-static/resources/tools/prng.js:1-8 | Masking with low ones keeps the low bits. |
| Bits.OrDisjoint | rootfs/www/luci-static/resources/tools/prng.js:8 | Joining runs of bits that do not overlap is addition. |
| Limbs.StepFits | rootfs/www/luci-static/resources/tools/prng.js:1 | No intermediate value of the multiplication needs more than 32 bits. |
| Limbs.Mul | rootfs/www/luci-static/resources/tools/prng.js:1-3 | Limb multiplication is multiplication modulo 2^64. |
| Limbs.MulRow | rootfs/www/luci-static/resources/tools/prng.js:1-2 | The inner loop adds one row of the product, with its carry. |
| Limbs.Add | rootfs/www/luci-static/resources/tools/prng.js:4-5 | Limb addition is addition modulo 2^64. |
| Limbs.ShiftRight | rootfs/www/luci-static/resources/tools/prng.js:6-9 | The two shifting loops are floor division by 2^n for every n. |
| Limbs.ValInjective | rootfs/www/luci-static/resources/tools/prng.js:1 | Words with the same value have the same limbs. |
| Prng.Generator.Seed | rootfs/www/luci-static/resources/tools/prng.js:10 | The state is the seed minus one modulo 2^32. |
| Prng.Generator.Int | rootfs/www/luci-static/resources/tools/prng.js:10 | One step of s -> 0x5851F42D4C957F2D * s + 1 modulo 2^64; the result is floor(s / 2^33), below 2^31. |
| Prng.Generator.Get | rootfs/www/luci-static/resources/tools/prng.js:10-11 | The result is the draw scaled to the bounds, for none, one or two of them. |
| Prng.Generator.DeriveColor | rootfs/www/luci-static/resources/tools/prng.js:11-13 | Three steps of the generator from the seed of the name give the colour, and its text. |
| Prng.StateClosed | rootfs/www/luci-static/resources/tools/prng.js:10 | After any number of calls the state is one affine function of the first state modulo 2^64. |
| Prng.ScaledInRange | rootfs/www/luci-static/resources/tools/prng.js:11 | Draws lie between the bounds when these are in order, and outside of them otherwise. |
| Prng.ScaledReaches | rootfs/www/luci-static/resources/tools/prng.js:11 | Every number of a range no wider than the generator's is drawn by some output. |
| Prng.DrawnInRange | rootfs/www/luci-static/resources/tools/prng.js:10-11 | Without bounds a draw is a fraction below one; with one bound a whole number from 1 to it, with two one between them, both ends included. |
| Prng.DrawnReaches | rootfs/www/luci-static/resources/tools/prng.js:10-11 | Each of these numbers is drawn by some output. |
| Prng.FloorOfRatio | rootfs/www/luci-static/resources/tools/prng.js:11 | The floor of the exact fraction times the width is the integer quotient. |
| Prng.InkIsColour | rootfs/www/luci-static/resources/tools/prng.js:11-13 | All channels are bytes and the sum is between 128 and 255 if and only if the first two outputs, modulo 2^31-1, are not both at least 0x7F000000; in that case the ink is 128, 128 and 0 or -1. |
| Prng.NameIsColour | rootfs/www/luci-static/resources/tools/prng.js:11-13 | The same for the two outputs that follow from the hash of a name. |
| Prng.ColourCanFail | rootfs/www/luci-static/resources/tools/prng.js:11-13 | The zone name "kmk" gives that bad case, with a channel of 256. |
| Prng.TwoHex | rootfs/www/luci-static/resources/tools/prng.js:13 | A channel prints as two digits exactly when it is a byte. |
| NameHash.HashIsEightDigits | rootfs/www/luci-static/resources/cbi.js:2-13 | The hash text has always eight hexadecimal digits, which stand for the lower 32 bits of the sum, although the last addition can carry. |
| NameHash.Hash | rootfs/www/luci-static/resources/cbi.js:4-13 | The loops over characters, blocks of four bytes and the rest compute the hash text of the name, none for the empty name. |
| NameHash.UnitBytesDecode | rootfs/www/luci-static/resources/cbi.js:5-8 | The one, two or three bytes of a code unit have the marks of UTF-8 and the bits of the unit in order. |
| NameHash.KnownHashes | rootfs/www/luci-static/resources/cbi.js:8-10 | The hash numbers of four texts, one for each number of bytes left after the blocks. |
| NameHash.Seed | rootfs/www/luci-static/resources/tools/prng.js:11 | The number that is parsed from the hash text. |
| Masks.MaskWordIsShift | rootfs/www/luci-static/resources/network.js:46 | The shifted and masked 32-bit word is b ones at the top of sixteen bits, for every b up to 16, negative ones included. |
| Masks.CollectWords | rootfs/www/luci-static/resources/network.js:46 | The loop that takes off at most sixteen bits per turn collects the words of the prefix. |
| PrefixNumbers.PrefixWordsAreOnes | rootfs/www/luci-static/resources/network.js:45-49 | The words of a prefix of n bits are, as one number, n ones followed by zeros. |
| Masks.StripsZeros | rootfs/www/luci-static/resources/network.js:48 | The suffix replacement takes away exactly the trailing zero groups, at least one group stays. |
| Masks.ShortenedReads | rootfs/www/luci-static/resources/network.js:48 | Any eight words, printed and shortened, are read back by the IPv6 parser. |
| Masks.PrefixToMask | rootfs/www/luci-static/resources/network.js:45-49 | The method prints the mask, or nothing for prefixes that are too long. |
| Masks.MaskTextReads | rootfs/www/luci-static/resources/network.js:45-49 | For IPv4 and IPv6 the printed mask parses to the words with n leading ones. |
| Masks.ShiftOnes | rootfs/www/luci-static/resources/network.js:51-52 | The inner loop leaves zero exactly for ones-then-zeros, and counts the ones. |
| Masks.MaskToPrefix | rootfs/www/luci-static/resources/network.js:50-54 | A mask is accepted exactly when each word is ones then zeros and only zeros follow a zero word; the result is its number of ones. |
| Masks.PrefixRoundTrip | rootfs/www/luci-static/resources/network.js:45-54 | maskToPrefix(prefixToMask(n)) = n through the text, for all IPv4 and IPv6 prefixes. |
| Masks.MaskRoundTrip | rootfs/www/luci-static/resources/network.js:45-54 | The mask made from n parses back to a given mask if and only if that mask is n ones and then zeros as a whole. |
| Masks.ContiguousAccepted | rootfs/www/luci-static/resources/network.js:50-54 | Every contiguous mask is accepted with the number of its ones. |
| Masks.AcceptsGaps | rootfs/www/luci-static/resources/network.js:50-54 | Acceptance is weaker than contiguity: 255.128.128.0 is taken for ten bits, whose mask is 255.192.0.0. |
| Subnet.NetByteIsSource | rootfs/www/luci-static/resources/view/network/dhcp.js:4 | The 32-bit expression for a network byte is the bitwise conjunction of the bytes. |
| Subnet.BroadByteIsSource | rootfs/www/luci-static/resources/protocol/static.js:5 | The 32-bit expression for a broadcast byte is the bitwise disjunction with the complement. |
| PrefixNumbers.NetNumber | rootfs/www/luci-static/resources/view/network/dhcp.js:4 | Clearing or filling byte by byte under a prefix is clearing or filling the low bits of the whole number. |
| Subnet.NetworkOfPrefix | rootfs/www/luci-static/resources/view/network/dhcp.js:1-4 | Through dotted text, for a prefix in digits or a contiguous mask: the network is the first address of the subnet, a - a mod 2^(32-p). |
| Subnet.BroadcastOfPrefix | rootfs/www/luci-static/resources/protocol/static.js:3-5 | The broadcast address is the last address of the subnet, a - a mod 2^(32-p) + 2^(32-p) - 1. |
| Subnet.BroadcastOfForm | rootfs/www/luci-static/resources/protocol/static.js:2-5 | The same from the form's addresses and netmask, whichever way the subnet is given. |
| Subnet.SameNetwork | rootfs/www/luci-static/resources/view/network/dhcp.js:1-4 | Two addresses have the same network text if and only if their quotients agree, and if and only if the second lies between network and broadcast of the first. |
| Subnet.WhenNoNetwork | rootfs/www/luci-static/resources/view/network/dhcp.js:1-3 | The calculation raises an error exactly for prefixes over 32, and gives null exactly when the address or the mask cannot be read otherwise. |
| Subnet.FirstWithSlashIsFirst | rootfs/www/luci-static/resources/protocol/static.js:2 | Without a mask in the form the first address that has its own mask is used, if there is one. |
| Subnet.AddressTextOnce | rootfs/www/luci-static/resources/view/network/dhcp.js:4 | Different addresses have different dotted texts. |
| Templates.ScanFits | rootfs/www/luci-static/resources/tools/firewall.js:15-20 | Every text that is rendered again, the default branch "%{name}" included, is strictly shorter than the template: the recursion terminates. |
| Templates.ScanExpression | rootfs/www/luci-static/resources/tools/firewall.js:15-19 | The inner loop with its nesting depth and escape flag finds the pieces of an expression and its end. |
| Templates.ExpandPieces | rootfs/www/luci-static/resources/tools/firewall.js:20-26 | Conditionals, loops and plain variables, with the malformed and throwing cases. |
| Templates.Format | rootfs/www/luci-static/resources/tools/firewall.js:14-32 | The outer loop computes the tokens, or the template itself, or the type error. |
| Templates.BodyInert | rootfs/www/luci-static/resources/tools/firewall.js:15-19 | Printed subexpressions are passed over by the inner scanner from any greater depth. |
| Templates.ScanBody | rootfs/www/luci-static/resources/tools/firewall.js:15-19 | The scanner finds exactly the name, the delimiters and the branches of a printed expression. |
| Templates.ExpandRenders | rootfs/www/luci-static/resources/tools/firewall.js:20-25 | Each expression renders as its tree means. |
| Templates.FmtRenders | rootfs/www/luci-static/resources/tools/firewall.js:5-32 | Every printed template (nested conditionals, loops, escaped text) renders to the denotation of its tree; what loops bind is stated on texts by the lemmas of TemplateTexts. |
| Templates.UnclosedExpression | rootfs/www/luci-static/resources/tools/firewall.js:15-20 | An expression that is never closed is a type error when it has no delimiter, otherwise the template comes back as it is. |
| Templates.InnerMalformed | rootfs/www/luci-static/resources/tools/firewall.js:20-25 | A branch that is taken and cannot be rendered is always a type error, since its text cannot be spread into the tokens. |
| TemplateTexts.LoopJoins | rootfs/www/luci-static/resources/tools/firewall.js:20-22 | "%{name#%{next?sep}%{item}}" prints the words of a list, or of a text with any white space between and around them, with the separator between them and nowhere else, for every separator. |
| TemplateTexts.LoopFirst | rootfs/www/luci-static/resources/tools/firewall.js:20-22 | "%{name#%{first?a:b}}" prints a for the first item and b for all others. |
| TemplateTexts.LoopLast | rootfs/www/luci-static/resources/tools/firewall.js:20-22 | "%{name#%{last?a:b}}" prints b for all items but the last one and a for that. |
| TemplateTexts.LoopOther | rootfs/www/luci-static/resources/tools/firewall.js:20-22 | Any other name means in a loop what it means outside of it. |
| TemplateTexts.BranchTaken | rootfs/www/luci-static/resources/tools/firewall.js:9-12 | "%{name?a:b}" prints b exactly for null, false, the empty text, the empty list and the empty object, and a otherwise. |
| TemplateTexts.PlainValue | rootfs/www/luci-static/resources/tools/firewall.js:12-13 | "%{name}" prints texts as they are, lists with commas, true by name, objects by their kind, and the five empty values not at all. |
| TemplateTexts.DottedName | rootfs/www/luci-static/resources/tools/firewall.js:6-9 | "a.b" reads the property b of the object a, or the item or the length of the list a, and null otherwise. |
| TemplateTexts.ItemNames | rootfs/www/luci-static/resources/tools/firewall.js:6-9 | A list has its items under their positions and its length under "length", and no other property. |
| TemplateTexts.WrongDelimiters | rootfs/www/luci-static/resources/tools/firewall.js:20-26 | Expressions with any other one or two delimiters, or without a name, are handed back as they are. |
| Depends.IsEqualIsEquality | rootfs/www/luci-static/resources/form.js:94-108 | The recursive comparison is equality on null, flags, texts and lists. |
| Depends.CheckEntries | rootfs/www/luci-static/resources/form.js:60-62 | The inner loop: all entries match and none is a default. |
| Depends.IsDependencySatisfied | rootfs/www/luci-static/resources/form.js:59-65 | The loops return true exactly without dependencies, with one that holds (or does not, when reversed), or with a default. |
| Depends.DependencyLaws | rootfs/www/luci-static/resources/form.js:59-65 | One dependency asks for all its values, a reversed one for not all of them, several are alternatives; without any, or with a default among them, the option is always there. |
| Depends.ContainsHolds | rootfs/www/luci-static/resources/form.js:59-115 | With the mark for containment a dependency holds exactly when the option is a text with the given text inside, or a list with an item equal to it. |
| Depends.AddDependencyPermutations | rootfs/www/luci-static/resources/view/network/wireless.js:41-45 | The loops append exactly the expansion. |
| Depends.ExpandedMeaning | rootfs/www/luci-static/resources/view/network/wireless.js:41-45 | Some dependency of the expansion holds exactly when every option has an allowed value; their number is the product of the list lengths. |
| Depends.ExpansionCount | rootfs/www/luci-static/resources/view/network/wireless.js:41-45 | The count is the product, so nothing is added exactly when a list is empty. |
| Depends.ExpansionMeaning | rootfs/www/luci-static/resources/view/network/wireless.js:41-45 | The option depends on exactly the given constraint if and only if no list is empty. |
| Depends.SeveralCalls | rootfs/www/luci-static/resources/view/network/wireless.js:41-45 | Several calls mean that the constraint of one of them holds; calls with an empty list count as no call. |
| WifiNetid.GetWifiSidByNetid | rootfs/www/luci-static/resources/network.js:16-19 | The loop finds the section that is the n-th of the radio. |
| WifiNetid.GetWifiNetidBySid | rootfs/www/luci-static/resources/network.js:23-26 | The loop counts the rank of the section among those of its radio, and the radio is returned beside the id. |
| WifiNetid.NetidTells | rootfs/www/luci-static/resources/network.js:23-26 | The id is the radio, ".network" and the number of its sections up to this one; a section without a radio has none. |
| WifiNetid.NthOnce | rootfs/www/luci-static/resources/network.js:16-26 | At most one section is the n-th of a radio. |
| WifiNetid.NetidThenSid | rootfs/www/luci-static/resources/network.js:16-26 | The id of a section leads back to it if and only if the name of its radio consists of word characters. |
| WifiNetid.SidThenNetid | rootfs/www/luci-static/resources/network.js:16-26 | A section found by an id has that id, up to leading zeros of the number; it is the same text if and only if there are none. |

## Left out

- RPC, timers, promises, the apply and confirm loops, the document and all widgets: input, output and user interface. A failing call is not modelled; replies are those of calls that succeed.
- UciRuns.StepRefines: does not cover an add under the name of a live section, which the source does not check.
- UciRuns.RunRefines: the same for runs.
- UciMoves.RunRefines: the same for runs with moves.
- UciSave.SaveTheorem: does not cover new sections without a name of their own, because the server chooses those names, nor packages that are not loaded, of which reads show nothing.
- UciSave.SaveRoundTrip: does not cover whole-section reads and moves of a section while the deletion of one of its options is pending, because the promise can then fail; `UciSave.SaveTheorem` still says exactly what is saved, and `UciSave.StepLoses` when a deletion is missed.
- UciReorder.SentOrderIsMoved: does not say what the server does with a name in the order that it does not know.
- UciStore.Uci.LoadPackage: asks that the response has no section of a name that is among the pending creates.
- UciStore.Uci.AddSection: asks that a given name is not that of a live section, which the source does not check; the name chosen by `createSID` is a parameter instead of a random loop.
- UciStore.Uci.Move: asks that no live section has a name that looks like a reference "@type[n]", because the source fetches each section again by its name.
- Option values "" in new sections are kept as they are; how the server treats them is not part of this model. Property names inherited from the object prototype are not modelled.
- FirewallRows.StepReady: does not cover edits that unset an option, which the firewall operations never make.
- FirewallRows.ListingIsCopy: asks, as part of `FirewallRows.Ready`, that no pending deletion of a name, source or destination has its old value still in the snapshot; listings show the old value then. `FirewallRows.ListingIsCurrent` proves that this is exactly when listings and reads agree.
- FirewallRows.ListingLists: the same premise.
- Firewall.DeleteZone: the same premise; `Firewall.ScanIsReferences` says exactly when the scan is right without it, `Firewall.UnsetEndIsListed` is a state in which it takes a rule whose destination was unset.
- Firewall.RenameZone: the same premise; `FirewallRows.ScanReads` says exactly when its scans are right without it, and in the same state it sets an unset destination again.
- Firewall.GetForwardingsBy: the same premise for sources and destinations.
- OpkgDeps.RenderDependencies: below the roots, which of several texts for one name is met first, and so decides about its version, is not stated beyond that it is one of the texts read.
- Firewall.LookupZone: does not say which of several equally named zones is found, nor what a name that starts with "@" finds.
- Firewall.AddForwarding: the same premise as DeleteZone, and zones with distinct names; the models of the zone operations treat names as single texts, so lists as names and the loose comparison of texts with other values are not modelled. Names that start with "@" are references, which the lookups handle but their exact results are not stated.
- FirewallReconcile.AddWanted: asks that no requested name starts with "@".
- FirewallReconcile.WritePeers: asks that no requested name starts with "@".
- OpkgIndex.ParseList: starts from the packages that the text describes; splitting the list text into packages is not modelled. In version strings, characters outside the basic plane are not modelled.
- DatatypeCompiler.CompileExpression: number labels are decimal, without hexadecimal, exponents or Infinity, and line ends are the line feed and the carriage return only.
- Validators.Validator.Apply: the plain types are any decision that leaves the value alone; validators that overwrite the value (`neg`, `list`, and those that apply another type to a part of it) are not modelled, nor are the many one-line types.
- Validators.Validator.Validate: leaves out the additional validation function and the check whether the field is in the page.
- Limbs.Add: asks that the first limb and the number added fit into 32 bits together; the source only adds one.
- NameHash.Hash: names have no characters outside the basic plane and less than 2^30 characters.
- Prng.Generator.Get: fractions are exact; the rounding of floating-point numbers is not modelled.
- Prng.Generator.DeriveColor: the same, and the names are those of the hash.
- Subnet.WhenNoNetwork: masks that convert to a number other than by plain digits (signs, points, exponents, blanks around them) are not modelled.
- Masks.PrefixRoundTrip: says nothing of negative prefixes, for which the source shifts modulo 32; `Masks.MaskText` covers them.
- Templates.FmtRenders: line ends are the line feed and the carriage return only; values are null, flags, texts, lists and objects; functions as values, document nodes and properties of the object prototype are not modelled, and white space outside Latin-1 is not trimmed.
- Templates.Format: gives the tokens; wrapping them into a document node is not modelled.
- Depends.IsEqualIsEquality: regular expressions and plain objects as dependency values are not modelled.
- Depends.IsContained: compares list items by equality; the source's loose comparison of a list or object inside a list is not modelled, nor is the search for a value that is no text inside a text.
- Depends.IsDependencySatisfied: the markers for reversal and containment are set by the value true only.
- WifiNetid.NetidThenSid: takes the listed sections as given; a pending deletion of the device option, which listings still show, is not modelled.
- `applyMask` of the routes page, the JSON configuration store and the repeated dependency check of forms: weaker or without a promise of their own.
- Per-protocol forms, translations and configuration files: no logic.
