/**
 Laws of the add, edit and delete operations: the store invariants they
 preserve, the ways they undo or overwrite one another, and what they do to
 the tree's read view.
 */
module StoreLaws {
  import opened Results
  import opened Text
  import opened Seqs
  import opened Types
  import opened StoreProvider

  // ----- invariants -----

  /** Every command's parent is a section of the store. */
  predicate Referential(s: Store) {
    forall k :: 0 <= k < |s.commands| ==> HasSection(s, s.commands[k].parentId)
  }

  predicate UniqueSectionIds(ss: seq<Section>) {
    forall i, j :: 0 <= i < j < |ss| ==> ss[i].id != ss[j].id
  }

  predicate UniqueCommandIds(cs: seq<Command>) {
    forall i, j :: 0 <= i < j < |cs| ==> cs[i].id != cs[j].id
  }

  /** The store invariants: parents exist and ids are unique within each kind. */
  predicate Consistent(s: Store) {
    Referential(s) && UniqueSectionIds(s.sections) && UniqueCommandIds(s.commands)
  }

  /** A store whose section list only grew at the end knows every section it knew. */
  lemma HasSectionGrown(s: Store, t: Store, id: Id)
    requires |s.sections| <= |t.sections| && t.sections[..|s.sections|] == s.sections
    requires HasSection(s, id)
    ensures HasSection(t, id)
  {
    var k :| 0 <= k < |s.sections| && s.sections[k].id == id;
    assert t.sections[..|s.sections|][k] == t.sections[k];
  }

  /** Two section lists with the same ids position by position hold the same ids. */
  lemma SameSectionIds(s: Store, t: Store, id: Id)
    requires |s.sections| == |t.sections|
    requires forall k :: 0 <= k < |s.sections| ==> t.sections[k].id == s.sections[k].id
    ensures HasSection(s, id) <==> HasSection(t, id)
  {
    if HasSection(s, id) {
      var k :| 0 <= k < |s.sections| && s.sections[k].id == id;
      assert t.sections[k].id == id;
    }
    if HasSection(t, id) {
      var k :| 0 <= k < |t.sections| && t.sections[k].id == id;
      assert s.sections[k].id == id;
    }
  }

  /** `addSection` with an unused id keeps the store consistent. */
  lemma AddSectionPreserves(s: Store, freshId: Id, name: string)
    requires Consistent(s) && !HasSection(s, freshId)
    ensures Consistent(After(s, AddSection(s, freshId, name)))
  {
    var r := AddSection(s, freshId, name);
    if r.Ok? {
      var t := r.value;
      forall k | 0 <= k < |t.commands| ensures HasSection(t, t.commands[k].parentId) {
        HasSectionGrown(s, t, t.commands[k].parentId);
      }
      forall i, j | 0 <= i < j < |t.sections| ensures t.sections[i].id != t.sections[j].id {
        assert t.sections[..|s.sections|][i] == t.sections[i];
        if j < |s.sections| {
          assert t.sections[..|s.sections|][j] == t.sections[j];
        }
      }
    }
  }

  /** `addCommand` with an unused id keeps the store consistent: the lookup of
      the section is what keeps the new command's parent present. */
  lemma AddCommandPreserves(s: Store, freshId: Id, sectionId: Id, name: string, command: string)
    requires Consistent(s) && !HasCommand(s, freshId)
    ensures Consistent(After(s, AddCommand(s, freshId, sectionId, name, command)))
  {
    var r := AddCommand(s, freshId, sectionId, name, command);
    if r.Ok? {
      var t := r.value;
      forall k | 0 <= k < |t.commands| ensures HasSection(t, t.commands[k].parentId) {
        if k < |s.commands| {
          assert t.commands[..|s.commands|][k] == t.commands[k];
        }
      }
      forall i, j | 0 <= i < j < |t.commands| ensures t.commands[i].id != t.commands[j].id {
        assert t.commands[..|s.commands|][i] == t.commands[i];
        if j < |s.commands| {
          assert t.commands[..|s.commands|][j] == t.commands[j];
        }
      }
    }
  }

  /** `editItem` keeps the store consistent: no id or parent changes. */
  lemma EditItemPreserves(s: Store, item: Item, newLabel: string, newCommand: Option<string>)
    requires Consistent(s)
    ensures Consistent(After(s, EditItem(s, item, newLabel, newCommand)))
  {
    var r := EditItem(s, item, newLabel, newCommand);
    if r.Ok? {
      var t := r.value;
      forall k | 0 <= k < |t.commands| ensures HasSection(t, t.commands[k].parentId) {
        SameSectionIds(s, t, t.commands[k].parentId);
      }
    }
  }

  /** `deleteItem` keeps the store consistent; for a section it is the cascade
      that keeps every remaining command's parent present. */
  lemma DeleteItemPreserves(s: Store, item: Item)
    requires Consistent(s)
    ensures Consistent(After(s, DeleteItem(s, item)))
  {
    if DeleteItem(s, item).Ok? {
      if item.CommandItem? {
        DeleteCommandPreserves(s, item);
      } else {
        DeleteSectionPreserves(s, item);
      }
    }
  }

  lemma DeleteCommandPreserves(s: Store, item: Item)
    requires Consistent(s) && item.CommandItem? && DeleteItem(s, item).Ok?
    ensures Consistent(DeleteItem(s, item).value)
  {
    var t := DeleteCommand(s, item.Key()).value;
    var i := CommandIndex(s.commands, item.Key());
    assert t.commands == RemoveAt(s.commands, i);
    forall k | 0 <= k < |t.commands| ensures HasSection(t, t.commands[k].parentId) {
      assert t.commands[k] == s.commands[if k < i then k else k + 1];
    }
    forall a, b | 0 <= a < b < |t.commands| ensures t.commands[a].id != t.commands[b].id {
      assert t.commands[a] == s.commands[if a < i then a else a + 1];
      assert t.commands[b] == s.commands[if b < i then b else b + 1];
    }
  }

  lemma DeleteSectionPreserves(s: Store, item: Item)
    requires Consistent(s) && item.SectionItem? && DeleteItem(s, item).Ok?
    ensures Consistent(DeleteItem(s, item).value)
  {
    var id := item.Key();
    var i := SectionIndex(s.sections, id);
    assert DeleteItem(s, item).value == Store(RemoveAt(s.sections, i), Filter(s.commands, OutsideSection(id)));
    RemoveSectionParents(s, i);
    RemoveUniqueSections(s.sections, i);
    UniqueFilter(s.commands, OutsideSection(id));
  }

  /** Without the section at `i` and its commands, every command left still has its parent. */
  lemma RemoveSectionParents(s: Store, i: nat)
    requires Referential(s) && i < |s.sections|
    ensures
      var id := s.sections[i].id;
      Referential(Store(RemoveAt(s.sections, i), Filter(s.commands, OutsideSection(id))))
  {
    var id := s.sections[i].id;
    var t := Store(RemoveAt(s.sections, i), Filter(s.commands, OutsideSection(id)));
    FilterMembers(s.commands, OutsideSection(id));
    forall k | 0 <= k < |t.commands| ensures HasSection(t, t.commands[k].parentId) {
      var p := t.commands[k].parentId;
      assert OutsideSection(id)(t.commands[k]);
      var m :| 0 <= m < |s.commands| && s.commands[m] == t.commands[k];
      var j :| 0 <= j < |s.sections| && s.sections[j].id == p;
      assert j != i;
      assert t.sections[if j < i then j else j - 1] == s.sections[j];
    }
  }

  /** Removing a section keeps section ids unique. */
  lemma RemoveUniqueSections(ss: seq<Section>, i: nat)
    requires UniqueSectionIds(ss) && i < |ss|
    ensures UniqueSectionIds(RemoveAt(ss, i))
  {
    var r := RemoveAt(ss, i);
    forall a, b | 0 <= a < b < |r| ensures r[a].id != r[b].id {
      assert r[a] == ss[if a < i then a else a + 1];
      assert r[b] == ss[if b < i then b else b + 1];
    }
  }

  /** Filtering keeps ids unique. */
  lemma {:induction false} UniqueFilter(cs: seq<Command>, p: Command -> bool)
    requires UniqueCommandIds(cs)
    ensures UniqueCommandIds(Filter(cs, p))
  {
    if cs != [] {
      UniqueFilter(cs[1..], p);
      FilterMembers(cs[1..], p);
      var t := Filter(cs[1..], p);
      forall k | 0 <= k < |t| ensures t[k].id != cs[0].id {
        var m :| 0 <= m < |cs[1..]| && cs[1..][m] == t[k];
        assert cs[m + 1] == t[k];
      }
    }
  }

  // ----- undoing and overwriting -----

  /** Deleting a section just added with a fresh id gives back the store it was added to. */
  lemma AddSectionThenDelete(s: Store, freshId: Id, name: string)
    requires Referential(s) && !HasSection(s, freshId) && !AllSpace(name)
    ensures AddSection(s, freshId, name).Ok?
    ensures DeleteSection(AddSection(s, freshId, name).value, freshId) == Ok(s)
  {
    var t := AddSection(s, freshId, name).value;
    var n := |s.sections|;
    assert t.sections[..n] == s.sections;
    var i := SectionIndex(t.sections, freshId);
    assert i == n;
    assert RemoveAt(t.sections, n) == s.sections;
    forall k | 0 <= k < |s.commands| ensures OutsideSection(freshId)(s.commands[k]) {
      assert HasSection(s, s.commands[k].parentId);
    }
    FilterAll(s.commands, OutsideSection(freshId));
  }

  /** Deleting a command just added with a fresh id gives back the store it was added to. */
  lemma AddCommandThenDelete(s: Store, freshId: Id, sectionId: Id, name: string, command: string)
    requires !HasCommand(s, freshId)
    requires AddCommand(s, freshId, sectionId, name, command).Ok?
    ensures DeleteCommand(AddCommand(s, freshId, sectionId, name, command).value, freshId) == Ok(s)
  {
    var t := AddCommand(s, freshId, sectionId, name, command).value;
    var n := |s.commands|;
    assert t.commands[..n] == s.commands;
    var i := CommandIndex(t.commands, freshId);
    assert i == n;
    assert RemoveAt(t.commands, n) == s.commands;
  }

  /** Lists with the same ids position by position find an id at the same index. */
  lemma SameIdsSameIndex(cs: seq<Command>, ds: seq<Command>, id: Id)
    requires |cs| == |ds| && forall k :: 0 <= k < |cs| ==> cs[k].id == ds[k].id
    ensures CommandIndex(cs, id) == CommandIndex(ds, id)
  {
    var i, j := CommandIndex(cs, id), CommandIndex(ds, id);
    if i >= 0 { assert ds[i].id == id; }
    if j >= 0 { assert cs[j].id == id; }
  }

  /** Section lists with the same ids position by position find an id at the same index. */
  lemma SameSectionIdsSameIndex(ss: seq<Section>, ts: seq<Section>, id: Id)
    requires |ss| == |ts| && forall k :: 0 <= k < |ss| ==> ss[k].id == ts[k].id
    ensures SectionIndex(ss, id) == SectionIndex(ts, id)
  {
    var i, j := SectionIndex(ss, id), SectionIndex(ts, id);
    if i >= 0 { assert ts[i].id == id; }
    if j >= 0 { assert ss[j].id == id; }
  }

  /** A second relabelling of a section overwrites the first. */
  lemma RelabelOverwrites(s: Store, id: Id, label1: string, label2: string)
    requires RelabelSection(s, id, label1).Ok?
    ensures RelabelSection(RelabelSection(s, id, label1).value, id, label2) == RelabelSection(s, id, label2)
  {
    var t := RelabelSection(s, id, label1).value;
    SameSectionIdsSameIndex(s.sections, t.sections, id);
    var i := SectionIndex(s.sections, id);
    var x := s.sections[i].(caption := Trim(label2));
    assert t.sections == s.sections[i := s.sections[i].(caption := Trim(label1))];
    assert t.sections[i].(caption := Trim(label2)) == x;
    assert t.sections[i := x] == s.sections[i := x];
  }

  /** A second rewrite of a command overwrites the first. */
  lemma RewriteOverwrites(s: Store, id: Id, label1: string, command1: string, label2: string, command2: string)
    requires RewriteCommand(s, id, label1, command1).Ok?
    ensures RewriteCommand(RewriteCommand(s, id, label1, command1).value, id, label2, command2)
            == RewriteCommand(s, id, label2, command2)
  {
    var t := RewriteCommand(s, id, label1, command1).value;
    SameIdsSameIndex(s.commands, t.commands, id);
    var i := CommandIndex(s.commands, id);
    var c := s.commands[i].(caption := Trim(label2), command := Trim(command2));
    assert t.commands == s.commands[i := s.commands[i].(caption := Trim(label1), command := Trim(command1))];
    assert t.commands[i].(caption := Trim(label2), command := Trim(command2)) == c;
    assert t.commands[i := c] == s.commands[i := c];
  }

  /** A second edit of the same item overwrites the first completely: the store
      ends as if only the second had been made, error or not. */
  lemma EditOverwrites(s: Store, item: Item, label1: string, command1: Option<string>,
                       label2: string, command2: Option<string>)
    requires EditItem(s, item, label1, command1).Ok?
    ensures EditItem(EditItem(s, item, label1, command1).value, item, label2, command2)
            == EditItem(s, item, label2, command2)
  {
    var t := EditItem(s, item, label1, command1).value;
    if item.CommandItem? {
      RewriteOverwrites(s, item.Key(), label1, command1.value, label2,
                        if command2.Some? then command2.value else "");
    } else {
      RelabelOverwrites(s, item.Key(), label1, label2);
    }
  }

  /** A text as the add and edit operations store it: trimmed and non-blank. */
  predicate NormalText(t: string) {
    t != [] && Trim(t) == t
  }

  predicate NormalSection(x: Section) {
    NormalText(x.caption)
  }

  predicate NormalCommand(c: Command) {
    NormalText(c.caption) && NormalText(c.command)
  }

  /** Every label and command text is stored trimmed and non-blank. */
  predicate Normalised(s: Store) {
    && (forall k :: 0 <= k < |s.sections| ==> NormalSection(s.sections[k]))
    && (forall k :: 0 <= k < |s.commands| ==> NormalCommand(s.commands[k]))
  }

  lemma UpdateSame<T>(xs: seq<T>, i: nat)
    requires i < |xs|
    ensures xs[i := xs[i]] == xs
  {
  }

  /** A stored text passes the blank check. */
  lemma NormalTextNotBlank(t: string)
    requires NormalText(t)
    ensures !AllSpace(t)
  {
    TrimEmptyIff(t);
  }

  lemma RelabelWithCurrent(s: Store, id: Id)
    requires HasSection(s, id)
    requires NormalSection(s.sections[SectionIndex(s.sections, id)])
    ensures RelabelSection(s, id, s.sections[SectionIndex(s.sections, id)].caption) == Ok(s)
  {
    var i := SectionIndex(s.sections, id);
    var x := s.sections[i];
    assert x.(caption := Trim(x.caption)) == x;
    UpdateSame(s.sections, i);
  }

  lemma RewriteWithCurrent(s: Store, id: Id)
    requires HasCommand(s, id)
    requires NormalCommand(s.commands[CommandIndex(s.commands, id)])
    ensures
      var c := s.commands[CommandIndex(s.commands, id)];
      RewriteCommand(s, id, c.caption, c.command) == Ok(s)
  {
    var i := CommandIndex(s.commands, id);
    var c := s.commands[i];
    assert c.(caption := Trim(c.caption), command := Trim(c.command)) == c;
    UpdateSame(s.commands, i);
  }

  /** Confirming the edit dialog for a section with the label it was pre-filled
      with changes nothing. */
  lemma EditSectionWithCurrentLabel(s: Store, id: Id)
    requires Normalised(s) && HasSection(s, id)
    ensures
      var x := s.sections[SectionIndex(s.sections, id)];
      EditItem(s, SectionItem(x), x.caption, None) == Ok(s)
  {
    var i := SectionIndex(s.sections, id);
    var x := s.sections[i];
    assert x.id == id;
    assert !AllSpace(x.caption) by {
      assert NormalSection(s.sections[i]);
      NormalTextNotBlank(x.caption);
    }
    assert RelabelSection(s, id, x.caption) == Ok(s) by {
      assert NormalSection(s.sections[i]);
      RelabelWithCurrent(s, id);
    }
  }

  /** Confirming the edit dialogs for a command with the label and command text
      they were pre-filled with changes nothing. */
  lemma EditCommandWithCurrentValues(s: Store, id: Id)
    requires Normalised(s) && HasCommand(s, id)
    ensures
      var c := s.commands[CommandIndex(s.commands, id)];
      EditItem(s, CommandItem(c), c.caption, Some(c.command)) == Ok(s)
  {
    var i := CommandIndex(s.commands, id);
    var c := s.commands[i];
    assert c.id == id;
    assert !AllSpace(c.caption) && !AllSpace(c.command) by {
      assert NormalCommand(s.commands[i]);
      NormalTextNotBlank(c.caption);
      NormalTextNotBlank(c.command);
    }
    assert RewriteCommand(s, id, c.caption, c.command) == Ok(s) by {
      assert NormalCommand(s.commands[i]);
      RewriteWithCurrent(s, id);
    }
  }

  // ----- the read view -----

  /** A new command shows up last under its section and nowhere else. */
  lemma AddCommandView(s: Store, freshId: Id, sectionId: Id, name: string, command: string, other: Id)
    requires AddCommand(s, freshId, sectionId, name, command).Ok?
    ensures
      var t := AddCommand(s, freshId, sectionId, name, command).value;
      && ChildrenOf(t.commands, sectionId) == ChildrenOf(s.commands, sectionId) + [t.commands[|s.commands|]]
      && (other != sectionId ==> ChildrenOf(t.commands, other) == ChildrenOf(s.commands, other))
  {
    var t := AddCommand(s, freshId, sectionId, name, command).value;
    var c := t.commands[|s.commands|];
    assert t.commands == s.commands + [c];
    FilterAppend(s.commands, [c], InSection(sectionId));
    FilterAppend(s.commands, [c], InSection(other));
    assert Filter([c], InSection(sectionId)) == [c] by { assert [c][1..] == []; }
    assert other != sectionId ==> Filter([c], InSection(other)) == [] by { assert [c][1..] == []; }
  }

  /** After the cascade, the filter for `c.parentId !== id` followed by a section's
      view is that section's view, unless the section is the deleted one. */
  lemma {:induction false} CascadeView(cs: seq<Command>, id: Id, other: Id)
    ensures ChildrenOf(Filter(cs, OutsideSection(id)), id) == []
    ensures other != id ==> ChildrenOf(Filter(cs, OutsideSection(id)), other) == ChildrenOf(cs, other)
  {
    if cs != [] {
      CascadeView(cs[1..], id, other);
      var c := cs[0];
      if c.parentId != id {
        assert Filter(cs, OutsideSection(id)) == [c] + Filter(cs[1..], OutsideSection(id));
        FilterAppend([c], Filter(cs[1..], OutsideSection(id)), InSection(id));
        FilterAppend([c], Filter(cs[1..], OutsideSection(id)), InSection(other));
        assert [c][1..] == [];
      }
    }
  }

  /** Deleting a section empties its view (the test "Delete Section Deletes Child
      Commands") and leaves every other section's view as it was. */
  lemma DeleteSectionView(s: Store, id: Id, other: Id)
    requires DeleteSection(s, id).Ok?
    ensures ChildrenOf(DeleteSection(s, id).value.commands, id) == []
    ensures other != id ==> ChildrenOf(DeleteSection(s, id).value.commands, other) == ChildrenOf(s.commands, other)
  {
    CascadeView(s.commands, id, other);
  }

  /** A section's view of a sequence with one entry singled out. */
  lemma ViewSplit(front: seq<Command>, c: Command, back: seq<Command>, x: Id)
    ensures ChildrenOf(front + [c] + back, x)
            == ChildrenOf(front, x) + (if c.parentId == x then [c] else []) + ChildrenOf(back, x)
  {
    assert [c][1..] == [];
    FilterAppend(front + [c], back, InSection(x));
    FilterAppend(front, [c], InSection(x));
  }

  /** The tree shows a section's commands in store order: for a command list with
      one entry singled out, the section's children are those of the part before it,
      then that entry if it belongs to the section, then those of the part after it. */
  lemma GetChildrenSplit(s: Store, sec: Section, front: seq<Command>, c: Command, back: seq<Command>)
    requires s.commands == front + [c] + back
    ensures GetChildren(s, Some(SectionItem(sec)))
            == AsItems(ChildrenOf(front, sec.id))
               + (if c.parentId == sec.id then [CommandItem(c)] else [])
               + AsItems(ChildrenOf(back, sec.id))
  {
    assert GetChildren(s, Some(SectionItem(sec))) == AsItems(ChildrenOf(s.commands, sec.id));
    ItemsSplit(front, c, back, sec.id);
  }

  /** `ViewSplit` for the view wrapped as tree elements. */
  lemma ItemsSplit(front: seq<Command>, c: Command, back: seq<Command>, x: Id)
    ensures AsItems(ChildrenOf(front + [c] + back, x))
            == AsItems(ChildrenOf(front, x))
               + (if c.parentId == x then [CommandItem(c)] else [])
               + AsItems(ChildrenOf(back, x))
  {
    ViewSplit(front, c, back, x);
    var a, b := ChildrenOf(front, x), ChildrenOf(back, x);
    var mid: seq<Command> := if c.parentId == x then [c] else [];
    AsItemsAppend(a, mid);
    AsItemsAppend(a + mid, b);
    assert AsItems(mid) == if c.parentId == x then [CommandItem(c)] else [];
  }

  /** The cascade keeps the surviving commands in store order: for a command list with
      one entry singled out, the survivors are those of the part before it, then that
      entry unless it belongs to the deleted section, then those of the part after it. */
  lemma DeleteSectionSplit(s: Store, id: Id, front: seq<Command>, c: Command, back: seq<Command>)
    requires HasSection(s, id) && s.commands == front + [c] + back
    ensures DeleteSection(s, id).Ok?
    ensures DeleteSection(s, id).value.commands
            == DeleteSection(s.(commands := front), id).value.commands
               + (if c.parentId == id then [] else [c])
               + DeleteSection(s.(commands := back), id).value.commands
  {
    var p := OutsideSection(id);
    assert Filter([c], p) == (if c.parentId == id then [] else [c]) by { assert [c][1..] == []; }
    FilterAppend(front + [c], back, p);
    FilterAppend(front, [c], p);
  }

  /** Removing an entry of another section leaves a section's view unchanged. */
  lemma RemoveView(cs: seq<Command>, i: nat, other: Id)
    requires i < |cs| && cs[i].parentId != other
    ensures ChildrenOf(RemoveAt(cs, i), other) == ChildrenOf(cs, other)
  {
    assert cs == cs[..i] + [cs[i]] + cs[i + 1..];
    ViewSplit(cs[..i], cs[i], cs[i + 1..], other);
    FilterAppend(cs[..i], cs[i + 1..], InSection(other));
  }

  /** Deleting a command leaves the views of the sections it did not belong to as they were. */
  lemma DeleteCommandView(s: Store, id: Id, other: Id)
    requires DeleteCommand(s, id).Ok?
    requires other != s.commands[CommandIndex(s.commands, id)].parentId
    ensures ChildrenOf(DeleteCommand(s, id).value.commands, other) == ChildrenOf(s.commands, other)
  {
    var i := CommandIndex(s.commands, id);
    assert DeleteCommand(s, id).value.commands == RemoveAt(s.commands, i);
    RemoveView(s.commands, i, other);
  }

}
