/**
 Laws of export and import: which documents the import accepts and why it
 refuses the others, the export/import round trip, and the fact that every
 store the operations can build from an empty store survives that round trip.
 */
module SnapshotLaws {
  import opened Results
  import opened Text
  import opened Types
  import opened Snapshot
  import opened StoreProvider
  import opened StoreLaws
  import opened DropLaws
  import opened Seqs

  // ----- why a document is refused -----

  /** `every` stops at the first entry that is not a valid record: a null entry
      throws there, an invalid record makes the whole scan fail there. */
  lemma {:induction false} EveryStopsAt(es: seq<Entry>, valid: Entry -> bool, k: nat)
    requires k < |es| && !(es[k].Record? && valid(es[k]))
    requires forall j :: 0 <= j < k ==> es[j].Record? && valid(es[j])
    ensures Every(es, valid) == if es[k].NullEntry? then Threw else SomeFail
  {
    if k > 0 {
      EveryStopsAt(es[1..], valid, k - 1);
    }
  }

  /** The first bad section entry decides the failure: null reads as a type error,
      anything else as an invalid structure. The commands are never looked at. */
  lemma ImportRejectsSection(p: Parsed, k: nat)
    requires p.Parsed? && p.doc.ObjectDocument? && p.doc.sections.Some? && p.doc.commands.Some?
    requires k < |p.doc.sections.value| && !ValidSection(p.doc.sections.value[k])
    requires forall j :: 0 <= j < k ==> ValidSection(p.doc.sections.value[j])
    ensures ImportData(p) == Err(ImportFailed(if p.doc.sections.value[k].NullEntry? then TypeError else InvalidDataStructure))
  {
    EveryStopsAt(p.doc.sections.value, ValidSection, k);
  }

  /** Once every section entry is valid, the first bad command entry decides the failure. */
  lemma ImportRejectsCommand(p: Parsed, k: nat)
    requires p.Parsed? && p.doc.ObjectDocument? && p.doc.sections.Some? && p.doc.commands.Some?
    requires forall j :: 0 <= j < |p.doc.sections.value| ==> ValidSection(p.doc.sections.value[j])
    requires k < |p.doc.commands.value| && !ValidCommand(p.doc.commands.value[k])
    requires forall j :: 0 <= j < k ==> ValidCommand(p.doc.commands.value[j])
    ensures ImportData(p) == Err(ImportFailed(if p.doc.commands.value[k].NullEntry? then TypeError else InvalidDataStructure))
  {
    EveryStopsAt(p.doc.commands.value, ValidCommand, k);
  }

  // ----- the round trip -----

  predicate FilledSection(x: Section) {
    x.id != "" && x.caption != ""
  }

  predicate FilledCommand(c: Command) {
    c.id != "" && c.caption != "" && c.command != "" && c.parentId != ""
  }

  /** Every string field the import insists on is non-empty. */
  predicate Filled(s: Store) {
    && (forall k :: 0 <= k < |s.sections| ==> FilledSection(s.sections[k]))
    && (forall k :: 0 <= k < |s.commands| ==> FilledCommand(s.commands[k]))
  }

  /** The import accepts an exported store exactly when none of its fields is empty. */
  lemma ExportAcceptable(s: Store)
    ensures Acceptable(ExportData(s)) <==> Filled(s)
  {
    var p := ExportData(s);
    if Acceptable(p) {
      forall k | 0 <= k < |s.sections| ensures FilledSection(s.sections[k]) {
        assert ValidSection(p.doc.sections.value[k]);
      }
      forall k | 0 <= k < |s.commands| ensures FilledCommand(s.commands[k]) {
        assert ValidCommand(p.doc.commands.value[k]);
      }
    }
  }

  /** Importing what was exported gives the same store back, whenever the import accepts it. */
  lemma RoundTrip(s: Store)
    requires Filled(s)
    ensures ImportData(ExportData(s)) == Ok(s)
  {
    ExportAcceptable(s);
    var t := ImportData(ExportData(s)).value;
    assert t.sections == s.sections;
    assert t.commands == s.commands;
  }

  /** An imported store has every field the import checked non-empty. */
  lemma ImportedFilled(p: Parsed)
    requires ImportData(p).Ok?
    ensures Filled(ImportData(p).value)
  {
  }

  /** Exporting an imported store and importing it again changes nothing. */
  lemma ReimportStable(p: Parsed)
    requires ImportData(p).Ok?
    ensures ImportData(ExportData(ImportData(p).value)) == ImportData(p)
  {
    ImportedFilled(p);
    RoundTrip(ImportData(p).value);
  }

  /** The import does not check that a command's parent is one of the imported
      sections: a lone command with a dangling parent is accepted, and the store it
      produces breaks the referential invariant the other operations keep. */
  lemma ImportAcceptsDanglingParent()
    ensures
      var e := Record(Some("c1"), Some("List"), Some("ls"), Some("command"), Some("s9"));
      var r := ImportData(Parsed(ObjectDocument(Some([]), Some([e]))));
      && r == Ok(Store([], [Command("c1", "List", "ls", "s9")]))
      && !Referential(r.value)
  {
    var e := Record(Some("c1"), Some("List"), Some("ls"), Some("command"), Some("s9"));
    var r := ImportData(Parsed(ObjectDocument(Some([]), Some([e]))));
    assert ValidCommand(e);
    assert Acceptable(Parsed(ObjectDocument(Some([]), Some([e]))));
    assert r.value.commands == [Command("c1", "List", "ls", "s9")];
    assert r.value.sections == [];
    assert !HasSection(r.value, "s9");
  }

  // ----- the source's own import scenarios -----

  /** A well-formed one-section, one-command document becomes the store verbatim. */
  lemma ImportValidScenario()
    ensures
      var sec := Record(Some("123"), Some("Imported Section"), None, Some("section"), None);
      var cmd := Record(Some("456"), Some("Imported Command"), Some("echo imported"), Some("command"), Some("123"));
      ImportData(Parsed(ObjectDocument(Some([sec]), Some([cmd]))))
        == Ok(Store([Section("123", "Imported Section")], [Command("456", "Imported Command", "echo imported", "123")]))
  {
    var sec := Record(Some("123"), Some("Imported Section"), None, Some("section"), None);
    var cmd := Record(Some("456"), Some("Imported Command"), Some("echo imported"), Some("command"), Some("123"));
    var r := ImportData(Parsed(ObjectDocument(Some([sec]), Some([cmd]))));
    assert ValidSection(sec) && ValidCommand(cmd);
    assert r.value.sections == [Section("123", "Imported Section")];
    assert r.value.commands == [Command("456", "Imported Command", "echo imported", "123")];
  }

  /** A section entry without an id is refused as an invalid structure. */
  lemma ImportInvalidScenario()
    ensures
      var sec := Record(None, Some("Missing ID"), None, None, None);
      ImportData(Parsed(ObjectDocument(Some([sec]), Some([])))) == Err(ImportFailed(InvalidDataStructure))
  {
    var sec := Record(None, Some("Missing ID"), None, None, None);
    ImportRejectsSection(Parsed(ObjectDocument(Some([sec]), Some([]))), 0);
  }

  // ----- reachable stores -----

  /** One user action on the store, with the generated uuid as a parameter where there is one. */
  datatype Op =
    | AddSectionOp(freshId: Id, name: string)
    | AddCommandOp(freshId: Id, sectionId: Id, name: string, command: string)
    | EditOp(item: Item, newLabel: string, newCommand: Option<string>)
    | DeleteOp(item: Item)
    | DropOp(items: seq<Item>, target: Option<Item>)
    | ImportOp(doc: Parsed)

  /** The store after one action; a refused action leaves it as it was, and an
      import replaces it entirely or not at all. */
  function Apply(s: Store, op: Op): (r: Store)
    ensures op.ImportOp? ==> r == if Acceptable(op.doc) then ImportData(op.doc).value else s
    ensures op.AddSectionOp? ==> (r == s <==> AllSpace(op.name))
  {
    match op
    case AddSectionOp(id, name) => After(s, AddSection(s, id, name))
    case AddCommandOp(id, sid, name, command) => After(s, AddCommand(s, id, sid, name, command))
    case EditOp(item, text, command) => After(s, EditItem(s, item, text, command))
    case DeleteOp(item) => After(s, DeleteItem(s, item))
    case DropOp(items, target) => HandleDrop(s, items, target)
    case ImportOp(p) => After(s, ImportData(p))
  }

  /** What the running extension can actually ask for: generated uuids are never
      empty, and a drop target is a tree element, so it is an entry of the store. */
  predicate Admissible(s: Store, op: Op) {
    match op
    case AddSectionOp(id, _) => id != ""
    case AddCommandOp(id, _, _, _) => id != ""
    case DropOp(_, target) =>
      target.None?
      || (target.value.SectionItem? && target.value.section in s.sections)
      || (target.value.CommandItem? && target.value.cmd in s.commands)
    case _ => true
  }

  function Run(s: Store, ops: seq<Op>): Store
    decreases |ops|
  {
    if ops == [] then s else Run(Apply(s, ops[0]), ops[1..])
  }

  predicate AdmissibleRun(s: Store, ops: seq<Op>)
    decreases |ops|
  {
    ops == [] || (Admissible(s, ops[0]) && AdmissibleRun(Apply(s, ops[0]), ops[1..]))
  }

  lemma AddSectionFilled(s: Store, id: Id, name: string)
    requires Filled(s) && id != ""
    ensures Filled(After(s, AddSection(s, id, name)))
  {
    var r := AddSection(s, id, name);
    if r.Ok? {
      TrimEmptyIff(name);
      forall k | 0 <= k < |r.value.sections| ensures FilledSection(r.value.sections[k]) {
        if k < |s.sections| { assert r.value.sections[k] == r.value.sections[..|s.sections|][k]; }
      }
    }
  }

  lemma AddCommandFilled(s: Store, id: Id, sid: Id, name: string, command: string)
    requires Filled(s) && id != ""
    ensures Filled(After(s, AddCommand(s, id, sid, name, command)))
  {
    var r := AddCommand(s, id, sid, name, command);
    if r.Ok? {
      TrimEmptyIff(name);
      TrimEmptyIff(command);
      var i :| 0 <= i < |s.sections| && s.sections[i].id == sid;
      assert FilledSection(s.sections[i]);
      forall k | 0 <= k < |r.value.commands| ensures FilledCommand(r.value.commands[k]) {
        if k < |s.commands| { assert r.value.commands[k] == r.value.commands[..|s.commands|][k]; }
      }
    }
  }

  lemma EditFilled(s: Store, item: Item, text: string, command: Option<string>)
    requires Filled(s)
    ensures Filled(After(s, EditItem(s, item, text, command)))
  {
    var r := EditItem(s, item, text, command);
    if r.Ok? {
      TrimEmptyIff(text);
      if item.CommandItem? {
        TrimEmptyIff(command.value);
        var i := CommandIndex(s.commands, item.Key());
        forall k | 0 <= k < |r.value.commands| ensures FilledCommand(r.value.commands[k]) {
          if k != i { assert r.value.commands[k] == s.commands[k]; }
          else { assert FilledCommand(s.commands[k]); }
        }
      } else {
        var i := SectionIndex(s.sections, item.Key());
        forall k | 0 <= k < |r.value.sections| ensures FilledSection(r.value.sections[k]) {
          if k != i { assert r.value.sections[k] == s.sections[k]; }
          else { assert FilledSection(s.sections[k]); }
        }
      }
    }
  }

  lemma DeleteFilled(s: Store, item: Item)
    requires Filled(s)
    ensures Filled(After(s, DeleteItem(s, item)))
  {
    if DeleteItem(s, item).Ok? {
      if item.CommandItem? {
        var i := CommandIndex(s.commands, item.Key());
        assert DeleteItem(s, item).value == s.(commands := RemoveAt(s.commands, i));
        RemoveFilledCommands(s.commands, i);
      } else {
        var id := item.Key();
        var i := SectionIndex(s.sections, id);
        assert DeleteItem(s, item).value == Store(RemoveAt(s.sections, i), Filter(s.commands, OutsideSection(id)));
        RemoveFilledSections(s.sections, i);
        FilterFilledCommands(s.commands, OutsideSection(id));
      }
    }
  }

  /** Taking out a command keeps every other command filled. */
  lemma RemoveFilledCommands(cs: seq<Command>, i: nat)
    requires i < |cs| && forall k :: 0 <= k < |cs| ==> FilledCommand(cs[k])
    ensures forall k :: 0 <= k < |RemoveAt(cs, i)| ==> FilledCommand(RemoveAt(cs, i)[k])
  {
    var r := RemoveAt(cs, i);
    forall k | 0 <= k < |r| ensures FilledCommand(r[k]) {
      assert r[k] == cs[if k < i then k else k + 1];
    }
  }

  /** Taking out a section keeps every other section filled. */
  lemma RemoveFilledSections(ss: seq<Section>, i: nat)
    requires i < |ss| && forall k :: 0 <= k < |ss| ==> FilledSection(ss[k])
    ensures forall k :: 0 <= k < |RemoveAt(ss, i)| ==> FilledSection(RemoveAt(ss, i)[k])
  {
    var r := RemoveAt(ss, i);
    forall k | 0 <= k < |r| ensures FilledSection(r[k]) {
      assert r[k] == ss[if k < i then k else k + 1];
    }
  }

  /** Filtering keeps every command left filled. */
  lemma FilterFilledCommands(cs: seq<Command>, p: Command -> bool)
    requires forall k :: 0 <= k < |cs| ==> FilledCommand(cs[k])
    ensures forall k :: 0 <= k < |Filter(cs, p)| ==> FilledCommand(Filter(cs, p)[k])
  {
    FilterMembers(cs, p);
    var r := Filter(cs, p);
    forall k | 0 <= k < |r| ensures FilledCommand(r[k]) {
      var j :| 0 <= j < |cs| && cs[j] == r[k];
    }
  }

  lemma DropOntoSectionFilled(s: Store, items: seq<Item>, sec: Section)
    requires Filled(s) && sec in s.sections
    requires items != [] && items[0].CommandItem? && HasCommand(s, items[0].Key())
    ensures Filled(HandleDrop(s, items, Some(SectionItem(sec))))
  {
    var cs := s.commands;
    var i := CommandIndex(cs, items[0].Key());
    DropSectionShape(s, items, sec);
    var m :| 0 <= m < |s.sections| && s.sections[m] == sec;
    assert FilledSection(s.sections[m]);
    assert FilledCommand(cs[i]);
    var r := cs[i := cs[i].(parentId := sec.id)];
    forall k | 0 <= k < |r| ensures FilledCommand(r[k]) {
      if k != i { assert r[k] == cs[k]; }
    }
  }

  lemma DropOntoCommandFilled(s: Store, items: seq<Item>, t: Command)
    requires Filled(s) && t in s.commands
    requires items != [] && items[0].CommandItem? && HasCommand(s, items[0].Key())
    ensures Filled(HandleDrop(s, items, Some(CommandItem(t))))
  {
    DropCommandShape(s, items, t);
    var m :| 0 <= m < |s.commands| && s.commands[m] == t;
    assert FilledCommand(s.commands[m]);
    MoveFilled(s.commands, CommandIndex(s.commands, items[0].Key()), t);
  }

  /** The reorder branch keeps every command filled when the target's parent id is. */
  lemma MoveFilled(cs: seq<Command>, i: nat, t: Command)
    requires i < |cs| && t.parentId != ""
    requires forall k :: 0 <= k < |cs| ==> FilledCommand(cs[k])
    ensures forall k :: 0 <= k < |MoveAfter(cs, i, t)| ==> FilledCommand(MoveAfter(cs, i, t)[k])
  {
    var rest := Without(cs, cs[i].id);
    FilledWithout(cs, cs[i].id);
    var at := CommandIndex(rest, t.id) + 1;
    var r := InsertAt(rest, at, cs[i].(parentId := t.parentId));
    assert FilledCommand(cs[i]);
    forall k | 0 <= k < |r| ensures FilledCommand(r[k]) {
      if k < at { assert r[k] == rest[k]; }
      else if k > at { assert r[k] == rest[k - 1]; }
    }
  }

  lemma DropFilled(s: Store, items: seq<Item>, target: Option<Item>)
    requires Filled(s) && Admissible(s, DropOp(items, target))
    ensures Filled(HandleDrop(s, items, target))
  {
    if items != [] && items[0].CommandItem? && HasCommand(s, items[0].Key()) && target.Some? {
      match target.value
      case SectionItem(sec) => DropOntoSectionFilled(s, items, sec);
      case CommandItem(t) => DropOntoCommandFilled(s, items, t);
    }
  }

  /** Filtering keeps only entries that were there. */
  lemma FilledWithout(cs: seq<Command>, d: Id)
    requires forall k :: 0 <= k < |cs| ==> FilledCommand(cs[k])
    ensures forall k :: 0 <= k < |Without(cs, d)| ==> FilledCommand(Without(cs, d)[k])
  {
    FilterMembers(cs, OtherId(d));
    forall k | 0 <= k < |Without(cs, d)| ensures FilledCommand(Without(cs, d)[k]) {
      var j :| 0 <= j < |cs| && cs[j] == Without(cs, d)[k];
      assert FilledCommand(cs[j]);
    }
  }

  /** Every admissible action keeps all fields the import checks non-empty. */
  lemma ApplyKeepsFilled(s: Store, op: Op)
    requires Filled(s) && Admissible(s, op)
    ensures Filled(Apply(s, op))
  {
    match op
    case AddSectionOp(id, name) => AddSectionFilled(s, id, name);
    case AddCommandOp(id, sid, name, command) => AddCommandFilled(s, id, sid, name, command);
    case EditOp(item, text, command) => EditFilled(s, item, text, command);
    case DeleteOp(item) => DeleteFilled(s, item);
    case DropOp(items, target) => DropFilled(s, items, target);
    case ImportOp(p) => if ImportData(p).Ok? { ImportedFilled(p); }
  }

  lemma {:induction false} RunKeepsFilled(s: Store, ops: seq<Op>)
    requires Filled(s) && AdmissibleRun(s, ops)
    ensures Filled(Run(s, ops))
    decreases |ops|
  {
    if ops != [] {
      ApplyKeepsFilled(s, ops[0]);
      RunKeepsFilled(Apply(s, ops[0]), ops[1..]);
    }
  }

  /** Every store built from a fresh installation by admissible actions exports
      to a document the import accepts, and importing it gives the same store back. */
  lemma ReachableRoundTrip(ops: seq<Op>)
    requires AdmissibleRun(EmptyStore, ops)
    ensures Acceptable(ExportData(Run(EmptyStore, ops)))
    ensures ImportData(ExportData(Run(EmptyStore, ops))) == Ok(Run(EmptyStore, ops))
  {
    RunKeepsFilled(EmptyStore, ops);
    ExportAcceptable(Run(EmptyStore, ops));
    RoundTrip(Run(EmptyStore, ops));
  }
}
