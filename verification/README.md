# Dev Store command store, modelled in Dafny

Dev Store is a VS Code extension that keeps a list of shell commands grouped into
sections. Its logic lives in `StoreProvider`, an in-memory store holding two
ordered lists. `sections` holds `{id, label}` records. `commands` holds
`{id, label, command, parentId}` records, where `parentId` names a section. The
provider adds, edits and deletes entries. It reorders commands by drag and drop,
exports and imports the whole store, and shows a section's commands as a filtered
view.

The model is functional. A `Store` is an immutable pair of sequences, and every
operation is a pure function. `addSection`, `addCommand`, `editItem` and
`deleteItem` map a store to `Result<Store, Error>`; on an error the store is left
as it was (`After`). `importData` maps a parsed document to `Result<Store, Error>`.
`handleDrop` maps a store to a store, since a drop it cannot use is ignored
silently. `getChildren` returns the view as a `seq<Item>`. There is one `Error`
constructor per message the source throws; the import's messages, which all
come out as 'Failed to import data: …', are `ImportFailed(reason)`, one
`ImportFailure` per cause. The uuid an add operation generates is a parameter, and the
lemmas that need it to be unused say so. `label` is a reserved word in Dafny, so
the records call it `caption`.

Modules:

- `Results`: `Option` and `Result`.
- `Text`: JavaScript's `String.prototype.trim`. It strips the exact ECMAScript
  white-space and line-terminator set.
- `Seqs`: `findIndex`, `filter` and the two `splice` uses, over sequences.
- `Types`: `Section`, `Command`, `Store`, and the tree element `Item`.
- `Snapshot`: the document `JSON.parse` yields for an import, reduced to the
  properties the validation reads.
- `StoreProvider`: the operations.
- `StoreLaws`: the store invariants and the laws of add, edit and delete.
- `DropLaws`: drag and drop.
- `SnapshotLaws`: export, import, and the stores reachable from a fresh
  installation.

Three behaviours of the code worth knowing:

- The import does not check that a command's `parentId` names an imported
  section (`SnapshotLaws.ImportAcceptsDanglingParent`). It does not check that ids
  are unique either.
- A command dropped onto a section keeps its position in the command list. It
  shows up in the new section's view wherever that position puts it, not
  necessarily last (`DropLaws.DropOntoSectionView`).
- A command dropped onto itself, or onto a command whose id is not found once
  the dragged entries are taken out, moves to the very front of the command list
  (`DropLaws.DropOntoItself`, `DropLaws.DropOntoMissing`).

## Model

| member | source | states |
|---|---|---|
| Text.Trim | src/storeProvider.ts:67-73 | the result has no white space at either end and is no longer than the input |
| Text.TrimInfix | src/storeProvider.ts:73 | the trimmed text is an infix of the input with only white space around it |
| Text.TrimInfixFront | src/storeProvider.ts:73 | the infix property for a text starting with white space, from that of its tail |
| Text.TrimInfixBack | src/storeProvider.ts:73 | the infix property for a text ending, but not starting, with white space, from that of its front |
| Text.TrimEmptyIff | src/storeProvider.ts:67 | `!label.trim()` holds exactly when the label is all white space |
| Text.TrimUnique | src/storeProvider.ts:73 | white space around a text with non-space ends is exactly what trimming removes |
| Text.TrimIdempotent | src/storeProvider.ts:97-98 | a stored (trimmed) text trims to itself |
| Seqs.FirstIndex | src/storeProvider.ts:140 | `findIndex`: -1 exactly when no element matches, else the first match |
| Seqs.RemoveAt | src/storeProvider.ts:144 | `splice(i, 1)` keeps the prefix, shifts the suffix and removes one occurrence from the multiset |
| Seqs.InsertAt | src/storeProvider.ts:232 | `splice(i, 0, x)` puts `x` at `i`, keeps the prefix, shifts the suffix and adds one occurrence |
| Seqs.FilterMembers | src/storeProvider.ts:152 | `filter` keeps exactly the members satisfying the predicate |
| Seqs.FilterAppend | src/storeProvider.ts:59 | filtering distributes over concatenation |
| Seqs.FilterMultiset | src/storeProvider.ts:225 | `filter` keeps each satisfying element with its multiplicity and drops the others |
| Snapshot.Every | src/storeProvider.ts:174-175 | `every` passes exactly when every entry is a valid record; a throw means a null entry exists; a failure means an invalid record exists |
| StoreProvider.SectionIndex | src/storeProvider.ts:146 | the index of the first section with the id, or -1 exactly when there is none |
| StoreProvider.CommandIndex | src/storeProvider.ts:140 | the index of the first command with the id, or -1 exactly when there is none |
| StoreProvider.GetChildren | src/storeProvider.ts:52-64 | the root lists the sections in order; a section lists exactly the commands whose parent it is, each as often as the store holds it; a command has no children |
| StoreProvider.ChildItemsCount | src/storeProvider.ts:59 | a section's view holds each of its commands as often as the store does and no other command |
| StoreLaws.GetChildrenSplit | src/storeProvider.ts:59 | a section's children follow store order: for a list split around one entry, they are the children of the part before, that entry if it belongs to the section, then the children of the part after |
| StoreProvider.AddSection | src/storeProvider.ts:66-80 | fails exactly when the label is blank; otherwise appends one section with the fresh id and trimmed label, commands unchanged |
| StoreProvider.AddCommand | src/storeProvider.ts:82-106 | fails exactly when the label is blank, the command is blank or the section is unknown, with the errors checked in that order; otherwise appends one command with trimmed texts under that section, sections unchanged |
| StoreProvider.RelabelSection | src/storeProvider.ts:125-132 | only the first section with the id gets the trimmed label; ids, lengths and commands unchanged; unknown id is an error |
| StoreProvider.RewriteCommand | src/storeProvider.ts:113-124 | only the first command with the id gets the trimmed label and command; ids, parents, lengths and sections unchanged; unknown id is an error |
| StoreProvider.EditItem | src/storeProvider.ts:108-136 | fails exactly on a blank label, a missing or blank command for a command item, or an unknown id, with the errors in source order; otherwise it is the relabel or the rewrite |
| StoreProvider.DeleteCommand | src/storeProvider.ts:139-144 | removes exactly the first command with the id and keeps the others in order; unknown id is an error |
| StoreProvider.DeleteSection | src/storeProvider.ts:145-153 | removes the first section with the id; each command of another section survives as often as it was there, and none of the deleted section survives; unknown id is an error |
| StoreLaws.DeleteSectionSplit | src/storeProvider.ts:152 | the surviving commands keep store order: for a list split around one entry, they are the survivors of the part before, that entry unless it belonged to the section, then the survivors of the part after |
| StoreProvider.DeleteItem | src/storeProvider.ts:138-157 | dispatches on the item's kind; fails exactly when its id is unknown |
| StoreProvider.HandleDrop | src/storeProvider.ts:191-238 | no change for an empty transfer, a dragged section, no target or an unknown command; onto a section only that command's parent changes; onto a command the dragged record, with the target's parent, is in the result, which is one longer than the list without the dragged id |
| StoreProvider.DropKeepsOthers | src/storeProvider.ts:218-232 | a drop onto a command changes nothing but the entries with the dragged id: without them the lists before and after agree |
| StoreProvider.MoveKeepsOthers | src/storeProvider.ts:225-232 | the reorder (filter out the dragged id, splice the reparented command in after the target) changes nothing but the entries with the dragged id |
| StoreProvider.WithoutInsert | src/storeProvider.ts:225-232 | filtering out an id after inserting its only holder gives the list back |
| StoreProvider.SectionsOf | src/storeProvider.ts:174-179 | each imported section, exported again, is the entry it was read from, with the properties a section does not have dropped |
| StoreProvider.CommandsOf | src/storeProvider.ts:175-179 | each imported command, exported again, is exactly the entry it was read from |
| StoreProvider.ImportData | src/storeProvider.ts:163-185 | accepted exactly when both arrays exist and every entry is valid, and then the store is those entries in order; unparseable text, a null document and a missing array are refused with their own reasons |
| StoreLaws.AddSectionPreserves | src/storeProvider.ts:66-80 | with an unused id, adding a section keeps parents present and ids unique |
| StoreLaws.AddCommandPreserves | src/storeProvider.ts:90-93 | with an unused id, adding a command keeps parents present (the section lookup) and ids unique |
| StoreLaws.EditItemPreserves | src/storeProvider.ts:108-136 | editing keeps parents present and ids unique |
| StoreLaws.DeleteItemPreserves | src/storeProvider.ts:138-157 | deleting keeps parents present and ids unique; the cascade removes every orphan |
| StoreLaws.RemoveSectionParents | src/storeProvider.ts:145-153 | without a section and its commands, every command left still has its parent |
| StoreLaws.RemoveUniqueSections | src/storeProvider.ts:150 | removing a section keeps section ids unique |
| StoreLaws.UniqueFilter | src/storeProvider.ts:152 | filtering keeps ids unique |
| StoreLaws.AddSectionThenDelete | src/storeProvider.ts:145-153 | deleting a section just added with a fresh id restores the store |
| StoreLaws.AddCommandThenDelete | src/storeProvider.ts:139-144 | deleting a command just added with a fresh id restores the store |
| StoreLaws.SameIdsSameIndex | src/storeProvider.ts:118 | command lists with the same ids find an id at the same place |
| StoreLaws.SameSectionIdsSameIndex | src/storeProvider.ts:126 | section lists with the same ids find an id at the same place |
| StoreLaws.RelabelOverwrites | src/storeProvider.ts:125-132 | a second relabel of the same section overwrites the first |
| StoreLaws.RewriteOverwrites | src/storeProvider.ts:113-124 | a second rewrite of the same command overwrites the first |
| StoreLaws.EditOverwrites | src/storeProvider.ts:108-136 | a second successful edit of the same item gives what the second edit alone gives |
| StoreLaws.NormalTextNotBlank | src/storeProvider.ts:109 | a stored text passes the blank check |
| StoreLaws.RelabelWithCurrent | src/storeProvider.ts:131 | relabelling a section with its own stored label changes nothing |
| StoreLaws.RewriteWithCurrent | src/storeProvider.ts:123-124 | rewriting a command with its own stored texts changes nothing |
| StoreLaws.EditSectionWithCurrentLabel | src/storeProvider.ts:108-136 | in a store of trimmed texts, editing a section with its current label is the identity |
| StoreLaws.EditCommandWithCurrentValues | src/storeProvider.ts:108-136 | in a store of trimmed texts, editing a command with its current texts is the identity |
| StoreLaws.AddCommandView | src/storeProvider.ts:52-64 | a new command appears last in its section's view and in no other view |
| StoreLaws.CascadeView | src/storeProvider.ts:152 | after the cascade the deleted section's view is empty and every other view is unchanged |
| StoreLaws.DeleteSectionView | src/test/storeProvider.test.ts:86-99 | after deleting a section its view is empty and the other views are unchanged |
| StoreLaws.DeleteCommandView | src/storeProvider.ts:139-144 | deleting a command leaves the views of other sections unchanged |
| DropLaws.UniqueSole | src/storeProvider.ts:221 | with unique ids, the entry `find` returns is the only one with its id |
| DropLaws.WithoutUnique | src/storeProvider.ts:225 | with unique ids, filtering out the dragged id removes exactly its one entry |
| DropLaws.RemoveUnique | src/storeProvider.ts:225 | removing an entry keeps ids unique and leaves no entry with its id |
| DropLaws.InsertUnique | src/storeProvider.ts:232 | inserting an entry with an unused id keeps ids unique |
| DropLaws.DropSectionShape | src/storeProvider.ts:209-212 | a drop onto a section rewrites the dragged command's parent in place |
| DropLaws.DropCommandShape | src/storeProvider.ts:218-232 | a drop onto a command is the reorder branch applied to the command `find` returns |
| DropLaws.MoveUnique | src/storeProvider.ts:225-232 | when the dragged id is held once, the reorder takes out exactly that entry and reinserts its reparented copy after the target, within the list |
| DropLaws.DropOntoSectionPreserves | src/storeProvider.ts:209-212 | dropping onto an existing section keeps parents present and ids unique |
| DropLaws.MoveKeepsIdsUnique | src/storeProvider.ts:225-232 | the reorder keeps command ids unique |
| DropLaws.MoveKeepsParents | src/storeProvider.ts:225-232 | when the target's parent exists, the reorder leaves every command under an existing section |
| DropLaws.MovePreserves | src/storeProvider.ts:225-232 | when the target's parent exists, the reorder keeps the store consistent |
| DropLaws.DropOntoCommandPreserves | src/storeProvider.ts:218-236 | dropping onto a command whose parent exists keeps parents present and ids unique |
| DropLaws.IndexAfterInsert | src/storeProvider.ts:228-232 | inserting right after the target does not change where the target is found |
| DropLaws.FoundAfterRemove | src/storeProvider.ts:225-228 | taking out the dragged entry leaves a target with another id findable |
| DropLaws.ReinsertMultiset | src/storeProvider.ts:225-232 | taking out one entry and inserting another keeps the length and trades the one for the other in the multiset |
| DropLaws.MovePermutes | src/storeProvider.ts:225-232 | when the dragged id is held once, the reorder keeps the length and the elements, with the dragged one reparented; within one section it is a permutation |
| DropLaws.DropPermutes | src/storeProvider.ts:218-236 | a drop onto a command keeps the number of commands and their elements, only the dragged one reparented (a permutation within one section); it needs only that the dragged id is held once, which unique ids give (`DropLaws.UniqueSole`) |
| DropLaws.PlacedAfter | src/storeProvider.ts:225-232 | the reinserted command sits immediately after the first entry with the target id |
| DropLaws.MovePlacesAfter | src/storeProvider.ts:225-232 | when the dragged id is held once and the target is another entry, the reorder puts the reparented command right after the target |
| DropLaws.DropPlacesAfter | src/storeProvider.ts:218-236 | dropping a command onto a different command of the store puts it, with the target's parent, immediately after the target |
| DropLaws.DropOntoMissing | src/storeProvider.ts:224-232 | a drop onto a command whose id is not found once the dragged entries are taken out puts the dragged command, with the target's parent, first, and the other entries after it in their old order |
| DropLaws.DropOntoItself | src/storeProvider.ts:224-232 | dropping a command on itself moves it to the front of the list, with the rest in their old order |
| StoreLaws.ViewSplit | src/storeProvider.ts:59 | a section's view of a split list is the views of its parts |
| StoreLaws.RemoveView | src/storeProvider.ts:144 | removing an entry of another section leaves a section's view unchanged |
| DropLaws.MoveView | src/storeProvider.ts:209-212 | reparenting in place moves the entry between the two sections' views at its store position and leaves other views unchanged |
| DropLaws.DropOntoSectionView | src/storeProvider.ts:208-216 | after a drop onto a section the command has left its old section's view and joined the new one at its store position; other views are unchanged |
| DropLaws.ReorderScenario | src/test/storeProvider.test.ts:196-216 | dropping C1 onto C2 in [C1, C2] shows [C2, C1] |
| DropLaws.MoveScenario | src/test/storeProvider.test.ts:171-194 | a command dropped on the second section leaves the first section empty and is the second's only command |
| SnapshotLaws.EveryStopsAt | src/storeProvider.ts:174-175 | `every` stops at the first entry that is not a valid record: a null entry throws, an invalid record fails |
| SnapshotLaws.ImportRejectsSection | src/storeProvider.ts:174-176 | the first bad section entry decides the refusal: a type error for null, an invalid structure otherwise |
| SnapshotLaws.ImportRejectsCommand | src/storeProvider.ts:175-176 | with all sections valid, the first bad command entry decides the refusal |
| SnapshotLaws.ExportAcceptable | src/storeProvider.ts:159-177 | an exported store passes the import checks exactly when none of its ids, labels, commands or parents is empty |
| SnapshotLaws.RoundTrip | src/storeProvider.ts:159-185 | importing the export of such a store gives the same store |
| SnapshotLaws.ImportedFilled | src/storeProvider.ts:174-179 | an imported store has every checked field non-empty |
| SnapshotLaws.ReimportStable | src/storeProvider.ts:159-185 | exporting an imported store and importing it again gives the same result |
| SnapshotLaws.ImportAcceptsDanglingParent | src/storeProvider.ts:175 | a command whose parent is not among the sections is accepted, and the result breaks the referential invariant |
| SnapshotLaws.ImportValidScenario | src/test/storeProvider.test.ts:117-146 | the valid one-section, one-command document becomes the store verbatim |
| SnapshotLaws.ImportInvalidScenario | src/test/storeProvider.test.ts:148-161 | a section without an id is refused as an invalid structure |
| SnapshotLaws.Apply | src/storeProvider.ts:163-185 | an import replaces the store exactly when the document is acceptable, and otherwise leaves it; a section add changes the store exactly when the label is not blank |
| SnapshotLaws.AddSectionFilled | src/storeProvider.ts:66-80 | adding a section with a non-empty id keeps every field non-empty |
| SnapshotLaws.AddCommandFilled | src/storeProvider.ts:82-106 | adding a command with a non-empty id keeps every field non-empty |
| SnapshotLaws.EditFilled | src/storeProvider.ts:108-136 | editing keeps every field non-empty |
| SnapshotLaws.DeleteFilled | src/storeProvider.ts:138-157 | deleting keeps every field non-empty |
| SnapshotLaws.RemoveFilledCommands | src/storeProvider.ts:144 | removing a command keeps every other command's fields non-empty |
| SnapshotLaws.RemoveFilledSections | src/storeProvider.ts:150 | removing a section keeps every other section's fields non-empty |
| SnapshotLaws.FilterFilledCommands | src/storeProvider.ts:152 | the cascade filter keeps every field of the commands left non-empty |
| SnapshotLaws.DropOntoSectionFilled | src/storeProvider.ts:209-212 | dropping onto a section of the store keeps every field non-empty |
| SnapshotLaws.DropOntoCommandFilled | src/storeProvider.ts:218-236 | dropping onto a command of the store keeps every field non-empty |
| SnapshotLaws.MoveFilled | src/storeProvider.ts:225-232 | the reorder keeps every command field non-empty when the target's parent id is non-empty |
| SnapshotLaws.DropFilled | src/storeProvider.ts:191-238 | a drop onto a tree element keeps every field non-empty |
| SnapshotLaws.FilledWithout | src/storeProvider.ts:225 | filtering keeps every field non-empty |
| SnapshotLaws.ApplyKeepsFilled | src/storeProvider.ts:66-238 | every action the extension can issue keeps every field non-empty |
| SnapshotLaws.RunKeepsFilled | src/storeProvider.ts:66-238 | so does every admissible sequence of actions |
| SnapshotLaws.ReachableRoundTrip | src/storeProvider.ts:14-17 | every store built from the empty store of a fresh installation passes the import checks and survives export then import unchanged |

## Left out

- `getTreeItem` (src/storeProvider.ts:19-50): rendering only.
- The change event, `refresh` and `saveData`: host API. The persisted state is the state after each operation.
- The constructor's read of a previously saved store: host storage. The model starts from `EmptyStore` or from any store.
- `getAllCommands`: it returns the command list itself.
- `handleDrag` and the `DataTransfer` plumbing: a drop takes the dragged item list directly. A missing transfer is the empty list.
- The generated uuid: it is a parameter. Its freshness is a precondition of the invariant lemmas, and its non-emptiness is a precondition of the reachability lemmas.
- JSON text: `JSON.stringify` and `JSON.parse` are not modelled. The export yields the parsed document, and unparseable text is the `Malformed` document.
- Entry fields that hold a non-string value read as absent (`None`). For `type`, which the validation compares with `===`, this matches the source. For `id`, `label`, `command` and `parentId` it does not: the validation tests them for JavaScript truthiness. So the source accepts a document whose checked field holds a truthy non-string, such as `{"sections":[{"id":1,"label":"A","type":"section"}],"commands":[]}`, and stores that value, while the model refuses it with `InvalidDataStructure`. The store model has string fields only.
- A non-null array element that is not an object reads as a record with every field absent. This matches the source: reading a property of a number or string gives `undefined`.
- Properties an import does not check: `tags`, `icon`, `tagColors`, `iconMappings`, and any extra property of an entry. They are not part of the store model. An imported store holds the fields listed in `Types`.
- Error message texts: each message is an `Error` constructor.
- The async/await structure: every operation is modelled as one sequential step.
- src/extension.ts: it is not part of this model.
- `StoreLaws.AddSectionPreserves` and `StoreLaws.AddCommandPreserves`: they require the generated id to be unused. The source does not check this; it relies on uuid uniqueness.
- `SnapshotLaws.ReachableRoundTrip`: it holds for admissible runs. Generated ids must be non-empty, and drop targets must be entries of the store, as tree elements are. A drop target built by hand with an empty id would break it.
- `SnapshotLaws.ApplyKeepsFilled`: it is about non-empty fields only. Unique ids and the referential invariant are not kept by an import, which does not check them (see `SnapshotLaws.ImportAcceptsDanglingParent`).
