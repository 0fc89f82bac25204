/**
 The command store's operations, each a pure function. Adding, editing and
 deleting map the current store to either the next store or the error it
 throws; a thrown error leaves the store as it was (`After`). The import maps
 a parsed document to a store or an error. A drop maps a store to a store,
 since a drop it cannot use is ignored. The children of a tree element are a
 sequence of items. Fresh ids, which the source draws from `uuidv4()`, are
 parameters.
 */
module StoreProvider {
  import opened Results
  import opened Text
  import opened Seqs
  import opened Types
  import opened Snapshot

  /** The reasons an import is refused. */
  datatype ImportFailure =
    | SyntaxError          // `JSON.parse` rejected the text
    | TypeError            // a property of `null` was read
    | InvalidDataFormat    // `sections` or `commands` is missing or not an array
    | InvalidDataStructure // some entry failed validation

  /** The errors the store throws, one per message. */
  datatype Error =
    | SectionNameEmpty
    | CommandLabelEmpty
    | CommandEmpty
    | LabelEmpty
    | SectionNotFound
    | CommandNotFound
    | ImportFailed(reason: ImportFailure)

  /** The store after an operation: the new store, or the old one if it threw. */
  function After(s: Store, r: Result<Store, Error>): Store {
    if r.Ok? then r.value else s
  }

  // ----- lookup -----

  predicate HasSection(s: Store, id: Id) {
    exists k :: 0 <= k < |s.sections| && s.sections[k].id == id
  }

  predicate HasCommand(s: Store, id: Id) {
    exists k :: 0 <= k < |s.commands| && s.commands[k].id == id
  }

  /** `sections.findIndex(s => s.id === id)`. */
  function SectionIndex(ss: seq<Section>, id: Id): (i: int)
    ensures -1 <= i < |ss|
    ensures i >= 0 <==> exists k :: 0 <= k < |ss| && ss[k].id == id
    ensures i >= 0 ==> ss[i].id == id && forall k :: 0 <= k < i ==> ss[k].id != id
  {
    var i := FirstIndex(ss, (x: Section) => x.id == id);
    assert i == -1 ==> forall k :: 0 <= k < |ss| ==> ss[k].id != id;
    i
  }

  /** `commands.findIndex(c => c.id === id)`. */
  function CommandIndex(cs: seq<Command>, id: Id): (i: int)
    ensures -1 <= i < |cs|
    ensures i >= 0 <==> exists k :: 0 <= k < |cs| && cs[k].id == id
    ensures i >= 0 ==> cs[i].id == id && forall k :: 0 <= k < i ==> cs[k].id != id
  {
    var i := FirstIndex(cs, (c: Command) => c.id == id);
    assert i == -1 ==> forall k :: 0 <= k < |cs| ==> cs[k].id != id;
    i
  }

  /** The test `c.parentId === sectionId`. */
  function InSection(sectionId: Id): Command -> bool {
    (c: Command) => c.parentId == sectionId
  }

  /** The test `c.parentId !== sectionId`. */
  function OutsideSection(sectionId: Id): Command -> bool {
    (c: Command) => c.parentId != sectionId
  }

  /** The test `c.id !== id`. */
  function OtherId(id: Id): Command -> bool {
    (c: Command) => c.id != id
  }

  /** `commands.filter(c => c.parentId === sectionId)`: a section's commands in store order. */
  function ChildrenOf(cs: seq<Command>, sectionId: Id): seq<Command> {
    Filter(cs, InSection(sectionId))
  }

  /** `commands.filter(c => c.id !== id)`: every entry with another id. */
  function Without(cs: seq<Command>, id: Id): seq<Command> {
    Filter(cs, OtherId(id))
  }

  // ----- getChildren -----

  function AsItems(cs: seq<Command>): (r: seq<Item>)
    ensures |r| == |cs| && forall k :: 0 <= k < |r| ==> r[k] == CommandItem(cs[k])
  {
    seq(|cs|, k requires 0 <= k < |cs| => CommandItem(cs[k]))
  }

  /** Wrapping commands as tree elements keeps the count of each command. */
  lemma {:induction false} AsItemsCount(cs: seq<Command>, c: Command)
    ensures multiset(AsItems(cs))[CommandItem(c)] == multiset(cs)[c]
  {
    if cs != [] {
      var head, tail := [cs[0]], cs[1..];
      AsItemsCount(tail, c);
      assert cs == head + tail;
      AsItemsAppend(head, tail);
      assert AsItems(head) == [CommandItem(cs[0])];
      assert multiset(AsItems(cs)) == multiset(AsItems(head)) + multiset(AsItems(tail));
      assert multiset(cs) == multiset(head) + multiset(tail);
    }
  }

  /** Wrapping commands as tree elements distributes over concatenation. */
  lemma AsItemsAppend(xs: seq<Command>, ys: seq<Command>)
    ensures AsItems(xs + ys) == AsItems(xs) + AsItems(ys)
  {
    assert forall k :: 0 <= k < |xs + ys| ==> AsItems(xs + ys)[k] == (AsItems(xs) + AsItems(ys))[k];
  }

  /** A section's view holds each command of the section as often as the store does,
      and nothing else. */
  lemma ChildItemsCount(cs: seq<Command>, sectionId: Id, c: Command)
    ensures multiset(AsItems(ChildrenOf(cs, sectionId)))[CommandItem(c)]
            == if c.parentId == sectionId then multiset(cs)[c] else 0
  {
    AsItemsCount(ChildrenOf(cs, sectionId), c);
    FilterMultiset(cs, InSection(sectionId), c);
  }

  /** A section's view, as tree elements: the commands of the section, each as
      often as the list holds it. */
  lemma SectionItems(cs: seq<Command>, sectionId: Id)
    ensures
      var r := AsItems(ChildrenOf(cs, sectionId));
      && (forall k :: 0 <= k < |r| ==> r[k].CommandItem? && r[k].cmd in cs && r[k].cmd.parentId == sectionId)
      && (forall k :: 0 <= k < |cs| && cs[k].parentId == sectionId ==> CommandItem(cs[k]) in r)
      && (forall c :: multiset(r)[CommandItem(c)] == if c.parentId == sectionId then multiset(cs)[c] else 0)
  {
    var view := ChildrenOf(cs, sectionId);
    var r := AsItems(view);
    FilterMembers(cs, InSection(sectionId));
    forall k | 0 <= k < |cs| && cs[k].parentId == sectionId ensures CommandItem(cs[k]) in r {
      var j :| 0 <= j < |view| && view[j] == cs[k];
      assert r[j] == CommandItem(cs[k]);
    }
    forall c ensures multiset(r)[CommandItem(c)] == if c.parentId == sectionId then multiset(cs)[c] else 0 {
      ChildItemsCount(cs, sectionId, c);
    }
  }

  /** The tree's read view: the sections at the root, a section's commands
      below it, nothing below a command. */
  function GetChildren(s: Store, element: Option<Item>): (r: seq<Item>)
    ensures element.None? ==>
      |r| == |s.sections| && forall k :: 0 <= k < |r| ==> r[k] == SectionItem(s.sections[k])
    ensures element.Some? && element.value.CommandItem? ==> r == []
    ensures element.Some? && element.value.SectionItem? ==>
      && (forall k :: 0 <= k < |r| ==>
            r[k].CommandItem? && r[k].cmd in s.commands && r[k].cmd.parentId == element.value.Key())
      && (forall k :: 0 <= k < |s.commands| && s.commands[k].parentId == element.value.Key() ==>
            CommandItem(s.commands[k]) in r)
      && (forall c :: multiset(r)[CommandItem(c)]
                      == if c.parentId == element.value.Key() then multiset(s.commands)[c] else 0)
  {
    match element
    case None => seq(|s.sections|, k requires 0 <= k < |s.sections| => SectionItem(s.sections[k]))
    case Some(SectionItem(sec)) =>
      SectionItems(s.commands, sec.id);
      AsItems(ChildrenOf(s.commands, sec.id))
    case Some(CommandItem(_)) => []
  }

  // ----- addSection / addCommand -----

  /** `addSection(label)` with `freshId` standing for the generated uuid. */
  function AddSection(s: Store, freshId: Id, name: string): (r: Result<Store, Error>)
    ensures r.Err? <==> AllSpace(name)
    ensures r.Err? ==> r.error == SectionNameEmpty
    ensures r.Ok? ==>
      && r.value.commands == s.commands
      && |r.value.sections| == |s.sections| + 1
      && r.value.sections[..|s.sections|] == s.sections
      && r.value.sections[|s.sections|] == Section(freshId, Trim(name))
  {
    TrimEmptyIff(name);
    var trimmed := Trim(name);
    if trimmed == [] then Err(SectionNameEmpty)
    else Ok(Store(s.sections + [Section(freshId, trimmed)], s.commands))
  }

  /** `addCommand(sectionId, label, command)` with `freshId` standing for the generated uuid. */
  function AddCommand(s: Store, freshId: Id, sectionId: Id, name: string, command: string): (r: Result<Store, Error>)
    ensures r.Err? <==> AllSpace(name) || AllSpace(command) || !HasSection(s, sectionId)
    ensures r.Err? ==>
      r.error == (if AllSpace(name) then CommandLabelEmpty
                  else if AllSpace(command) then CommandEmpty
                  else SectionNotFound)
    ensures r.Ok? ==>
      && r.value.sections == s.sections
      && |r.value.commands| == |s.commands| + 1
      && r.value.commands[..|s.commands|] == s.commands
      && r.value.commands[|s.commands|] == Command(freshId, Trim(name), Trim(command), sectionId)
  {
    TrimEmptyIff(name);
    TrimEmptyIff(command);
    if Trim(name) == [] then Err(CommandLabelEmpty)
    else if Trim(command) == [] then Err(CommandEmpty)
    else if SectionIndex(s.sections, sectionId) < 0 then Err(SectionNotFound)
    else Ok(s.(commands := s.commands + [Command(freshId, Trim(name), Trim(command), sectionId)]))
  }

  // ----- editItem -----

  /** The section branch of `editItem`, once the label is known to be non-blank. */
  function RelabelSection(s: Store, id: Id, newLabel: string): (r: Result<Store, Error>)
    ensures r.Err? <==> !HasSection(s, id)
    ensures r.Err? ==> r.error == SectionNotFound
    ensures r.Ok? ==>
      && r.value.commands == s.commands
      && |r.value.sections| == |s.sections|
      && (forall k :: 0 <= k < |s.sections| ==> r.value.sections[k].id == s.sections[k].id)
      && (forall k :: 0 <= k < |s.sections| && k != SectionIndex(s.sections, id) ==>
            r.value.sections[k] == s.sections[k])
      && r.value.sections[SectionIndex(s.sections, id)].caption == Trim(newLabel)
  {
    var i := SectionIndex(s.sections, id);
    if i < 0 then Err(SectionNotFound)
    else Ok(s.(sections := s.sections[i := s.sections[i].(caption := Trim(newLabel))]))
  }

  /** The command branch of `editItem`, once both texts are known to be non-blank. */
  function RewriteCommand(s: Store, id: Id, newLabel: string, newCommand: string): (r: Result<Store, Error>)
    ensures r.Err? <==> !HasCommand(s, id)
    ensures r.Err? ==> r.error == CommandNotFound
    ensures r.Ok? ==>
      && r.value.sections == s.sections
      && |r.value.commands| == |s.commands|
      && (forall k :: 0 <= k < |s.commands| ==>
            r.value.commands[k].id == s.commands[k].id && r.value.commands[k].parentId == s.commands[k].parentId)
      && (forall k :: 0 <= k < |s.commands| && k != CommandIndex(s.commands, id) ==>
            r.value.commands[k] == s.commands[k])
      && r.value.commands[CommandIndex(s.commands, id)].caption == Trim(newLabel)
      && r.value.commands[CommandIndex(s.commands, id)].command == Trim(newCommand)
  {
    var i := CommandIndex(s.commands, id);
    if i < 0 then Err(CommandNotFound)
    else
      var c := s.commands[i];
      Ok(s.(commands := s.commands[i := c.(caption := Trim(newLabel), command := Trim(newCommand))]))
  }

  /** `editItem(item, newLabel, newCommand?)`: relabel the first entry with the
      item's id, and for a command also replace its command text. The label is
      checked first, then the command text, then the lookup. */
  function EditItem(s: Store, item: Item, newLabel: string, newCommand: Option<string>): (r: Result<Store, Error>)
    ensures r.Err? <==>
      || AllSpace(newLabel)
      || (item.CommandItem? && (newCommand.None? || AllSpace(newCommand.value) || !HasCommand(s, item.Key())))
      || (item.SectionItem? && !HasSection(s, item.Key()))
    ensures r.Err? ==>
      r.error == (if AllSpace(newLabel) then LabelEmpty
                  else if item.SectionItem? then SectionNotFound
                  else if newCommand.None? || AllSpace(newCommand.value) then CommandEmpty
                  else CommandNotFound)
    ensures !AllSpace(newLabel) && item.SectionItem? ==> r == RelabelSection(s, item.Key(), newLabel)
    ensures !AllSpace(newLabel) && item.CommandItem? && newCommand.Some? && !AllSpace(newCommand.value) ==>
      r == RewriteCommand(s, item.Key(), newLabel, newCommand.value)
  {
    TrimEmptyIff(newLabel);
    if Trim(newLabel) == [] then Err(LabelEmpty)
    else if item.CommandItem? then
      if newCommand.None? then Err(CommandEmpty)
      else
        TrimEmptyIff(newCommand.value);
        if Trim(newCommand.value) == [] then Err(CommandEmpty)
        else RewriteCommand(s, item.Key(), newLabel, newCommand.value)
    else RelabelSection(s, item.Key(), newLabel)
  }

  // ----- deleteItem -----

  /** The command branch of `deleteItem`: remove the first entry with the id. */
  function DeleteCommand(s: Store, id: Id): (r: Result<Store, Error>)
    ensures r.Err? <==> !HasCommand(s, id)
    ensures r.Err? ==> r.error == CommandNotFound
    ensures r.Ok? ==>
      var i := CommandIndex(s.commands, id);
      && r.value.sections == s.sections
      && s.commands[i].id == id
      && |r.value.commands| == |s.commands| - 1
      && multiset(r.value.commands) + multiset{s.commands[i]} == multiset(s.commands)
      && r.value.commands[..i] == s.commands[..i]
      && r.value.commands[i..] == s.commands[i + 1..]
  {
    var i := CommandIndex(s.commands, id);
    if i < 0 then Err(CommandNotFound)
    else
      RemoveAtSlices(s.commands, i);
      Ok(s.(commands := RemoveAt(s.commands, i)))
  }

  /** The section branch of `deleteItem`: remove the first entry with the id and
      every command whose parent it is. */
  function DeleteSection(s: Store, id: Id): (r: Result<Store, Error>)
    ensures r.Err? <==> !HasSection(s, id)
    ensures r.Err? ==> r.error == SectionNotFound
    ensures r.Ok? ==>
      var i := SectionIndex(s.sections, id);
      && s.sections[i].id == id
      && |r.value.sections| == |s.sections| - 1
      && multiset(r.value.sections) + multiset{s.sections[i]} == multiset(s.sections)
      && r.value.sections[..i] == s.sections[..i]
      && r.value.sections[i..] == s.sections[i + 1..]
      && (forall k :: 0 <= k < |r.value.commands| ==>
            r.value.commands[k] in s.commands && r.value.commands[k].parentId != id)
      && (forall k :: 0 <= k < |s.commands| && s.commands[k].parentId != id ==>
            s.commands[k] in r.value.commands)
      && (forall c :: multiset(r.value.commands)[c] == if c.parentId == id then 0 else multiset(s.commands)[c])
  {
    var i := SectionIndex(s.sections, id);
    if i < 0 then Err(SectionNotFound)
    else
      RemoveAtSlices(s.sections, i);
      FilterMembers(s.commands, OutsideSection(id));
      var kept := Filter(s.commands, OutsideSection(id));
      assert forall c :: multiset(kept)[c] == if c.parentId == id then 0 else multiset(s.commands)[c] by {
        forall c ensures multiset(kept)[c] == if c.parentId == id then 0 else multiset(s.commands)[c] {
          FilterMultiset(s.commands, OutsideSection(id), c);
        }
      }
      Ok(Store(RemoveAt(s.sections, i), Filter(s.commands, OutsideSection(id))))
  }

  /** `deleteItem(item)`: dispatch on the item's kind. */
  function DeleteItem(s: Store, item: Item): (r: Result<Store, Error>)
    ensures r.Err? <==> if item.CommandItem? then !HasCommand(s, item.Key()) else !HasSection(s, item.Key())
    ensures item.CommandItem? ==> r == DeleteCommand(s, item.Key())
    ensures item.SectionItem? ==> r == DeleteSection(s, item.Key())
  {
    if item.CommandItem? then DeleteCommand(s, item.Key()) else DeleteSection(s, item.Key())
  }

  // ----- handleDrop -----

  /** `handleDrop(target, transfer)` where `items` is the dragged list carried by the
      transfer (empty when there is none). Only the first dragged item counts and it
      must be a command present in the store; anything else changes nothing.
      Dropped on a section, the command takes that section as parent and keeps its
      place. Dropped on a command, every entry with the dragged id is taken out and
      the dragged entry, now with the target's parent, goes back in right after the
      first entry with the target's id (at the very front if there is none). */
  function HandleDrop(s: Store, items: seq<Item>, target: Option<Item>): (r: Store)
    ensures r.sections == s.sections
    ensures items == [] || items[0].SectionItem? || target.None? || !HasCommand(s, items[0].Key()) ==> r == s
    ensures items != [] && items[0].CommandItem? && HasCommand(s, items[0].Key())
            && target.Some? && target.value.SectionItem? ==>
      var i := CommandIndex(s.commands, items[0].Key());
      && |r.commands| == |s.commands|
      && r.commands[i] == s.commands[i].(parentId := target.value.Key())
      && forall k :: 0 <= k < |s.commands| && k != i ==> r.commands[k] == s.commands[k]
    ensures items != [] && items[0].CommandItem? && HasCommand(s, items[0].Key())
            && target.Some? && target.value.CommandItem? ==>
      && s.commands[CommandIndex(s.commands, items[0].Key())].(parentId := target.value.cmd.parentId) in r.commands
      && |r.commands| == |Without(s.commands, items[0].Key())| + 1
  {
    if items == [] || !items[0].CommandItem? || target.None? then s
    else
      var i := CommandIndex(s.commands, items[0].Key());
      if i < 0 then s
      else if target.value.SectionItem? then s.(commands := Reparent(s.commands, i, target.value.section.id))
      else s.(commands := MoveAfter(s.commands, i, target.value.cmd))
  }

  /** `cmd.parentId = target.id` on the command found at `i`. */
  function Reparent(cs: seq<Command>, i: nat, sectionId: Id): (r: seq<Command>)
    requires i < |cs|
    ensures |r| == |cs| && r[i].parentId == sectionId
  {
    cs[i := cs[i].(parentId := sectionId)]
  }

  /** The reorder branch for the command found at `i`: every entry with its id is
      filtered out, and the command, with the target's parent, is spliced in right
      after the first entry with the target's id (at the front if there is none). */
  function MoveAfter(cs: seq<Command>, i: nat, t: Command): (r: seq<Command>)
    requires i < |cs|
    ensures |r| == |Without(cs, cs[i].id)| + 1
  {
    var rest := Without(cs, cs[i].id);
    InsertAt(rest, CommandIndex(rest, t.id) + 1, cs[i].(parentId := t.parentId))
  }

  /** A drop onto a command touches nothing but the entries with the dragged id:
      once those are taken out, the list before and after the drop agree. */
  lemma DropKeepsOthers(s: Store, items: seq<Item>, t: Command)
    requires items != [] && items[0].CommandItem? && HasCommand(s, items[0].Key())
    ensures Without(HandleDrop(s, items, Some(CommandItem(t))).commands, items[0].Key())
            == Without(s.commands, items[0].Key())
  {
    var i := CommandIndex(s.commands, items[0].Key());
    assert HandleDrop(s, items, Some(CommandItem(t))).commands == MoveAfter(s.commands, i, t);
    MoveKeepsOthers(s.commands, i, t);
  }

  /** The reorder touches nothing but the entries with the moved id. */
  lemma MoveKeepsOthers(cs: seq<Command>, i: nat, t: Command)
    requires i < |cs|
    ensures Without(MoveAfter(cs, i, t), cs[i].id) == Without(cs, cs[i].id)
  {
    var id := cs[i].id;
    var rest := Without(cs, id);
    assert forall k :: 0 <= k < |rest| ==> rest[k].id != id by {
      forall k | 0 <= k < |rest| ensures rest[k].id != id {
        assert OtherId(id)(rest[k]);
      }
    }
    WithoutInsert(rest, CommandIndex(rest, t.id) + 1, cs[i].(parentId := t.parentId), id);
  }

  /** Taking out an id nobody has changes nothing. */
  lemma WithoutAbsent(xs: seq<Command>, id: Id)
    requires forall k :: 0 <= k < |xs| ==> xs[k].id != id
    ensures Without(xs, id) == xs
  {
    FilterAll(xs, OtherId(id));
  }

  /** Taking an id out of a sequence into which one entry with that id was
      inserted, where no other entry has it, gives the sequence back. */
  lemma {:induction false} WithoutInsert(rest: seq<Command>, at: nat, moved: Command, id: Id)
    requires at <= |rest| && moved.id == id
    requires forall k :: 0 <= k < |rest| ==> rest[k].id != id
    ensures Without(InsertAt(rest, at, moved), id) == rest
  {
    var front, back := rest[..at], rest[at..];
    WithoutAbsent(front, id);
    WithoutAbsent(back, id);
    WithoutSplice(front, moved, back, id);
    assert front + back == rest;
  }

  lemma WithoutSplice(front: seq<Command>, moved: Command, back: seq<Command>, id: Id)
    requires moved.id == id
    ensures Without(front + [moved] + back, id) == Without(front, id) + Without(back, id)
  {
    var p := OtherId(id);
    assert Filter([moved], p) == [] by { assert [moved][1..] == []; }
    FilterAppend(front + [moved], back, p);
    FilterAppend(front, [moved], p);
  }

  // ----- exportData / importData -----

  function SectionEntry(x: Section): Entry {
    Record(Some(x.id), Some(x.caption), None, Some("section"), None)
  }

  function CommandEntry(c: Command): Entry {
    Record(Some(c.id), Some(c.caption), Some(c.command), Some("command"), Some(c.parentId))
  }

  /** `exportData()`, as the document that parsing the exported text gives back. */
  function ExportData(s: Store): (p: Parsed)
    ensures p.Parsed? && p.doc.ObjectDocument?
    ensures p.doc.sections.Some? && |p.doc.sections.value| == |s.sections|
    ensures p.doc.commands.Some? && |p.doc.commands.value| == |s.commands|
    ensures forall k :: 0 <= k < |s.sections| ==> p.doc.sections.value[k] == SectionEntry(s.sections[k])
    ensures forall k :: 0 <= k < |s.commands| ==> p.doc.commands.value[k] == CommandEntry(s.commands[k])
  {
    Parsed(ObjectDocument(
      Some(seq(|s.sections|, k requires 0 <= k < |s.sections| => SectionEntry(s.sections[k]))),
      Some(seq(|s.commands|, k requires 0 <= k < |s.commands| => CommandEntry(s.commands[k])))))
  }

  function SectionOf(e: Entry): Section
    requires ValidSection(e)
  {
    Section(e.id.value, e.caption.value)
  }

  function CommandOf(e: Entry): Command
    requires ValidCommand(e)
  {
    Command(e.id.value, e.caption.value, e.command.value, e.parentId.value)
  }

  function SectionsOf(es: seq<Entry>): (r: seq<Section>)
    requires forall k :: 0 <= k < |es| ==> ValidSection(es[k])
    ensures |r| == |es|
    ensures forall k :: 0 <= k < |es| ==>
      es[k].Record? && SectionEntry(r[k]) == es[k].(command := None, parentId := None)
  {
    var r := seq(|es|, k requires 0 <= k < |es| => SectionOf(es[k]));
    assert forall k :: 0 <= k < |es| ==>
      es[k].Record? && SectionEntry(r[k]) == es[k].(command := None, parentId := None) by {
      forall k | 0 <= k < |es|
        ensures es[k].Record? && SectionEntry(r[k]) == es[k].(command := None, parentId := None)
      {
        assert ValidSection(es[k]);
      }
    }
    r
  }

  function CommandsOf(es: seq<Entry>): (r: seq<Command>)
    requires forall k :: 0 <= k < |es| ==> ValidCommand(es[k])
    ensures |r| == |es|
    ensures forall k :: 0 <= k < |es| ==> CommandEntry(r[k]) == es[k]
  {
    var r := seq(|es|, k requires 0 <= k < |es| => CommandOf(es[k]));
    assert forall k :: 0 <= k < |es| ==> CommandEntry(r[k]) == es[k] by {
      forall k | 0 <= k < |es| ensures CommandEntry(r[k]) == es[k] {
        assert ValidCommand(es[k]);
      }
    }
    r
  }

  /** A document the import accepts. */
  predicate Acceptable(p: Parsed) {
    && p.Parsed? && p.doc.ObjectDocument?
    && p.doc.sections.Some? && p.doc.commands.Some?
    && (forall k :: 0 <= k < |p.doc.sections.value| ==> ValidSection(p.doc.sections.value[k]))
    && (forall k :: 0 <= k < |p.doc.commands.value| ==> ValidCommand(p.doc.commands.value[k]))
  }

  /** `importData(text)`: the store the document describes, or the reason it is refused. */
  function ImportData(p: Parsed): (r: Result<Store, Error>)
    ensures r.Ok? <==> Acceptable(p)
    ensures r.Ok? ==>
      && |r.value.sections| == |p.doc.sections.value|
      && |r.value.commands| == |p.doc.commands.value|
      && (forall k :: 0 <= k < |r.value.sections| ==> r.value.sections[k] == SectionOf(p.doc.sections.value[k]))
      && (forall k :: 0 <= k < |r.value.commands| ==> r.value.commands[k] == CommandOf(p.doc.commands.value[k]))
    ensures r.Err? ==> r.error.ImportFailed?
    ensures p.Malformed? ==> r == Err(ImportFailed(SyntaxError))
    ensures p.Parsed? && p.doc.NullDocument? ==> r == Err(ImportFailed(TypeError))
    ensures p.Parsed? && (p.doc.ScalarDocument? || (p.doc.ObjectDocument? && (p.doc.sections.None? || p.doc.commands.None?)))
            ==> r == Err(ImportFailed(InvalidDataFormat))
  {
    match p
    case Malformed => Err(ImportFailed(SyntaxError))
    case Parsed(NullDocument) => Err(ImportFailed(TypeError))
    case Parsed(ScalarDocument) => Err(ImportFailed(InvalidDataFormat))
    case Parsed(ObjectDocument(ss, cs)) =>
      if ss.None? || cs.None? then Err(ImportFailed(InvalidDataFormat))
      else
        match Every(ss.value, ValidSection)
        case Threw => Err(ImportFailed(TypeError))
        case SomeFail => Err(ImportFailed(InvalidDataStructure))
        case AllPass =>
          match Every(cs.value, ValidCommand)
          case Threw => Err(ImportFailed(TypeError))
          case SomeFail => Err(ImportFailed(InvalidDataStructure))
          case AllPass => Ok(Store(SectionsOf(ss.value), CommandsOf(cs.value)))
  }
}
