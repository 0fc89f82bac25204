/**
 Laws of drag and drop: moving a command to another section, reordering it
 after another command, and what either does to the store invariants and to
 the sections' views.
 */
module DropLaws {
  import opened Results
  import opened Seqs
  import opened Types
  import opened StoreProvider
  import opened StoreLaws

  /** No entry other than the one at `i` carries its id. */
  predicate SoleHolder(cs: seq<Command>, i: nat) {
    i < |cs| && forall k :: 0 <= k < |cs| && k != i ==> cs[k].id != cs[i].id
  }

  /** With unique ids every entry is the sole holder of its id. */
  lemma UniqueSole(cs: seq<Command>, i: nat)
    requires UniqueCommandIds(cs) && i < |cs|
    ensures SoleHolder(cs, i)
  {
    forall k | 0 <= k < |cs| && k != i ensures cs[k].id != cs[i].id {
      if k < i { assert cs[k].id != cs[i].id; } else { assert cs[i].id != cs[k].id; }
    }
  }

  /** Taking out every entry with an id held once takes out exactly the one at its index. */
  lemma WithoutUnique(cs: seq<Command>, i: nat)
    requires SoleHolder(cs, i)
    ensures Without(cs, cs[i].id) == RemoveAt(cs, i)
  {
    var id := cs[i].id;
    assert cs == cs[..i] + [cs[i]] + cs[i + 1..];
    WithoutAbsent(cs[..i], id);
    WithoutAbsent(cs[i + 1..], id);
    WithoutSplice(cs[..i], cs[i], cs[i + 1..], id);
  }

  /** For an id held once, the reorder branch takes out the entry at its index
      and reinserts its reparented copy right after the first holder of the target id. */
  lemma MoveUnique(cs: seq<Command>, i: nat, t: Command)
    requires SoleHolder(cs, i)
    ensures
      var rest := RemoveAt(cs, i);
      && CommandIndex(rest, t.id) + 1 < |cs|
      && MoveAfter(cs, i, t) == InsertAt(rest, CommandIndex(rest, t.id) + 1, cs[i].(parentId := t.parentId))
  {
    WithoutUnique(cs, i);
  }

  /** Removing an entry keeps ids unique, and no remaining entry has the removed id. */
  lemma RemoveUnique(cs: seq<Command>, i: nat)
    requires UniqueCommandIds(cs) && i < |cs|
    ensures UniqueCommandIds(RemoveAt(cs, i))
    ensures forall k :: 0 <= k < |RemoveAt(cs, i)| ==> RemoveAt(cs, i)[k].id != cs[i].id
  {
    var r := RemoveAt(cs, i);
    forall a, b | 0 <= a < b < |r| ensures r[a].id != r[b].id {
      assert r[a] == cs[if a < i then a else a + 1];
      assert r[b] == cs[if b < i then b else b + 1];
    }
    forall k | 0 <= k < |r| ensures r[k].id != cs[i].id {
      assert r[k] == cs[if k < i then k else k + 1];
    }
  }

  /** Inserting an entry whose id nobody has keeps ids unique. */
  lemma InsertUnique(rest: seq<Command>, at: nat, x: Command)
    requires UniqueCommandIds(rest) && at <= |rest|
    requires forall k :: 0 <= k < |rest| ==> rest[k].id != x.id
    ensures UniqueCommandIds(InsertAt(rest, at, x))
  {
    var r := InsertAt(rest, at, x);
    forall a, b | 0 <= a < b < |r| ensures r[a].id != r[b].id {
      if a == at {
        assert r[b] == rest[b - 1];
      } else if b == at {
        assert r[a] == rest[a];
      } else {
        assert r[a] == rest[if a < at then a else a - 1];
        assert r[b] == rest[if b < at then b else b - 1];
      }
    }
  }

  /** Dropping a command that is in the store onto a section rewrites its parent in place. */
  lemma DropSectionShape(s: Store, items: seq<Item>, sec: Section)
    requires items != [] && items[0].CommandItem? && HasCommand(s, items[0].Key())
    ensures
      var i := CommandIndex(s.commands, items[0].Key());
      HandleDrop(s, items, Some(SectionItem(sec))).commands == s.commands[i := s.commands[i].(parentId := sec.id)]
  {
  }

  /** Dropping a command that is in the store onto a command is the reorder branch. */
  lemma DropCommandShape(s: Store, items: seq<Item>, t: Command)
    requires items != [] && items[0].CommandItem? && HasCommand(s, items[0].Key())
    ensures HandleDrop(s, items, Some(CommandItem(t))).commands
            == MoveAfter(s.commands, CommandIndex(s.commands, items[0].Key()), t)
  {
  }

  /** Dropping onto a section that exists keeps the store consistent. */
  lemma DropOntoSectionPreserves(s: Store, items: seq<Item>, sec: Section)
    requires Consistent(s) && HasSection(s, sec.id)
    ensures Consistent(HandleDrop(s, items, Some(SectionItem(sec))))
  {
    var r := HandleDrop(s, items, Some(SectionItem(sec)));
    if items != [] && items[0].CommandItem? && HasCommand(s, items[0].Key()) {
      var i := CommandIndex(s.commands, items[0].Key());
      DropSectionShape(s, items, sec);
      forall a, b | 0 <= a < b < |r.commands| ensures r.commands[a].id != r.commands[b].id {
        assert r.commands[a].id == s.commands[a].id && r.commands[b].id == s.commands[b].id;
      }
      forall k | 0 <= k < |r.commands| ensures HasSection(r, r.commands[k].parentId) {
        if k != i { assert r.commands[k] == s.commands[k]; }
      }
    }
  }

  /** The reorder branch keeps command ids unique. */
  lemma MoveKeepsIdsUnique(cs: seq<Command>, i: nat, t: Command)
    requires UniqueCommandIds(cs) && i < |cs|
    ensures UniqueCommandIds(MoveAfter(cs, i, t))
  {
    UniqueSole(cs, i);
    MoveUnique(cs, i, t);
    RemoveUnique(cs, i);
    var rest := RemoveAt(cs, i);
    InsertUnique(rest, CommandIndex(rest, t.id) + 1, cs[i].(parentId := t.parentId));
  }

  /** The reorder branch leaves every command under an existing section when the
      target's parent exists. */
  lemma MoveKeepsParents(s: Store, i: nat, t: Command)
    requires Referential(s) && SoleHolder(s.commands, i) && HasSection(s, t.parentId)
    ensures Referential(s.(commands := MoveAfter(s.commands, i, t)))
  {
    var cs := s.commands;
    var rest := RemoveAt(cs, i);
    var at := CommandIndex(rest, t.id) + 1;
    MoveUnique(cs, i, t);
    var r := s.(commands := MoveAfter(cs, i, t));
    forall k | 0 <= k < |r.commands| ensures HasSection(r, r.commands[k].parentId) {
      if k < at {
        assert r.commands[k] == rest[k] == cs[if k < i then k else k + 1];
      } else if k > at {
        assert r.commands[k] == rest[k - 1] == cs[if k - 1 < i then k - 1 else k];
      }
    }
  }

  /** The reorder branch keeps the store consistent when the target's parent exists. */
  lemma MovePreserves(s: Store, i: nat, t: Command)
    requires Consistent(s) && i < |s.commands| && HasSection(s, t.parentId)
    ensures Consistent(s.(commands := MoveAfter(s.commands, i, t)))
  {
    UniqueSole(s.commands, i);
    MoveKeepsIdsUnique(s.commands, i, t);
    MoveKeepsParents(s, i, t);
  }

  /** Dropping onto a command whose parent exists keeps the store consistent:
      the reinserted command is the only one with its id. */
  lemma DropOntoCommandPreserves(s: Store, items: seq<Item>, t: Command)
    requires Consistent(s) && HasSection(s, t.parentId)
    ensures Consistent(HandleDrop(s, items, Some(CommandItem(t))))
  {
    if items != [] && items[0].CommandItem? && HasCommand(s, items[0].Key()) {
      DropCommandShape(s, items, t);
      MovePreserves(s, CommandIndex(s.commands, items[0].Key()), t);
    }
  }

  /** Inserting `x` right behind the first entry with another id leaves that
      entry first with its id, so `x` is found right behind it. */
  lemma IndexAfterInsert(rest: seq<Command>, id: Id, x: Command)
    requires CommandIndex(rest, id) >= 0 && x.id != id
    ensures
      var r := InsertAt(rest, CommandIndex(rest, id) + 1, x);
      CommandIndex(r, id) == CommandIndex(rest, id) && r[CommandIndex(r, id) + 1] == x
  {
    var j0 := CommandIndex(rest, id);
    var r := InsertAt(rest, j0 + 1, x);
    assert r[j0] == rest[j0];
  }

  /** An id held by an entry other than the one at `i` is still found once that one is removed. */
  lemma FoundAfterRemove(cs: seq<Command>, i: nat, id: Id)
    requires i < |cs| && cs[i].id != id
    requires exists m :: 0 <= m < |cs| && cs[m].id == id
    ensures CommandIndex(RemoveAt(cs, i), id) >= 0
  {
    var rest := RemoveAt(cs, i);
    var m :| 0 <= m < |cs| && cs[m].id == id;
    assert rest[if m < i then m else m - 1] == cs[m];
  }

  /** Taking out the entry at `i` and reinserting `moved` anywhere keeps the
      length and trades the old entry for `moved` in the multiset. */
  lemma ReinsertMultiset(cs: seq<Command>, i: nat, at: nat, moved: Command)
    requires i < |cs| && at < |cs|
    ensures |InsertAt(RemoveAt(cs, i), at, moved)| == |cs|
    ensures multiset(InsertAt(RemoveAt(cs, i), at, moved)) + multiset{cs[i]} == multiset(cs) + multiset{moved}
  {
  }

  /** The reorder branch keeps the length and trades the dragged entry for its
      reparented copy in the multiset. */
  lemma MovePermutes(cs: seq<Command>, i: nat, t: Command)
    requires SoleHolder(cs, i)
    ensures |MoveAfter(cs, i, t)| == |cs|
    ensures multiset(MoveAfter(cs, i, t)) + multiset{cs[i]} == multiset(cs) + multiset{cs[i].(parentId := t.parentId)}
    ensures t.parentId == cs[i].parentId ==> multiset(MoveAfter(cs, i, t)) == multiset(cs)
  {
    MoveUnique(cs, i, t);
    var rest := RemoveAt(cs, i);
    ReinsertMultiset(cs, i, CommandIndex(rest, t.id) + 1, cs[i].(parentId := t.parentId));
  }

  /** Dropping a command onto another command keeps the number of commands and
      their elements, except that the dragged command now carries the target's
      parent: within one section the result is a permutation of the old list. */
  lemma DropPermutes(s: Store, items: seq<Item>, t: Command)
    requires items != [] && items[0].CommandItem? && HasCommand(s, items[0].Key())
    requires SoleHolder(s.commands, CommandIndex(s.commands, items[0].Key()))
    ensures
      var r := HandleDrop(s, items, Some(CommandItem(t))).commands;
      var d := s.commands[CommandIndex(s.commands, items[0].Key())];
      && |r| == |s.commands|
      && multiset(r) + multiset{d} == multiset(s.commands) + multiset{d.(parentId := t.parentId)}
      && (t.parentId == d.parentId ==> multiset(r) == multiset(s.commands))
  {
    var i := CommandIndex(s.commands, items[0].Key());
    DropCommandShape(s, items, t);
    MovePermutes(s.commands, i, t);
  }

  /** Taking out the entry at `i` and reinserting `moved` behind the first entry
      with another id present in the list puts `moved` right behind that entry. */
  lemma PlacedAfter(cs: seq<Command>, i: nat, tid: Id, moved: Command)
    requires i < |cs| && cs[i].id != tid && moved.id != tid
    requires exists m :: 0 <= m < |cs| && cs[m].id == tid
    ensures
      var rest := RemoveAt(cs, i);
      var r := InsertAt(rest, CommandIndex(rest, tid) + 1, moved);
      var j := CommandIndex(r, tid);
      0 <= j < |r| - 1 && r[j + 1] == moved
  {
    FoundAfterRemove(cs, i, tid);
    IndexAfterInsert(RemoveAt(cs, i), tid, moved);
  }

  /** The reorder branch, for a target id held by another entry, puts the dragged
      command right behind the target. */
  lemma MovePlacesAfter(cs: seq<Command>, i: nat, t: Command)
    requires SoleHolder(cs, i) && t.id != cs[i].id
    requires exists m :: 0 <= m < |cs| && cs[m].id == t.id
    ensures
      var r := MoveAfter(cs, i, t);
      var j := CommandIndex(r, t.id);
      0 <= j < |r| - 1 && r[j + 1] == cs[i].(parentId := t.parentId)
  {
    MoveUnique(cs, i, t);
    PlacedAfter(cs, i, t.id, cs[i].(parentId := t.parentId));
  }

  /** Dropping a command onto a different command that is in the store puts it,
      carrying the target's parent, immediately after the target. */
  lemma DropPlacesAfter(s: Store, items: seq<Item>, t: Command)
    requires items != [] && items[0].CommandItem? && HasCommand(s, items[0].Key())
    requires SoleHolder(s.commands, CommandIndex(s.commands, items[0].Key()))
    requires t.id != items[0].Key() && HasCommand(s, t.id)
    ensures
      var r := HandleDrop(s, items, Some(CommandItem(t))).commands;
      var j := CommandIndex(r, t.id);
      && 0 <= j < |r| - 1
      && r[j + 1] == s.commands[CommandIndex(s.commands, items[0].Key())].(parentId := t.parentId)
  {
    DropCommandShape(s, items, t);
    MovePlacesAfter(s.commands, CommandIndex(s.commands, items[0].Key()), t);
  }

  /** A drop onto a command whose id is not found once the dragged entries are taken
      out puts the dragged command, with the target's parent, at the very front of
      the command list; the other entries keep their order. */
  lemma DropOntoMissing(s: Store, items: seq<Item>, t: Command)
    requires items != [] && items[0].CommandItem? && HasCommand(s, items[0].Key())
    requires CommandIndex(Without(s.commands, items[0].Key()), t.id) == -1
    ensures
      var id := items[0].Key();
      var r := HandleDrop(s, items, Some(CommandItem(t)));
      var d := s.commands[CommandIndex(s.commands, id)];
      && r.commands[0] == d.(parentId := t.parentId)
      && r.commands[1..] == Without(s.commands, id)
  {
    var id := items[0].Key();
    var rest := Without(s.commands, id);
    var r := HandleDrop(s, items, Some(CommandItem(t)));
    assert r.commands == InsertAt(rest, 0, s.commands[CommandIndex(s.commands, id)].(parentId := t.parentId));
  }

  /** Dropping a command onto itself is not a no-op: the target is no longer
      found once the dragged entries are taken out, so the command moves to the
      very front of the command list, and so to the top of its section. */
  lemma DropOntoItself(s: Store, items: seq<Item>, t: Command)
    requires items != [] && items[0].CommandItem? && HasCommand(s, items[0].Key())
    requires t.id == items[0].Key()
    ensures
      var r := HandleDrop(s, items, Some(CommandItem(t)));
      var d := s.commands[CommandIndex(s.commands, t.id)];
      && r.commands[0] == d.(parentId := t.parentId)
      && r.commands[1..] == Without(s.commands, t.id)
  {
    assert CommandIndex(Without(s.commands, t.id), t.id) == -1;
    DropOntoMissing(s, items, t);
  }

  /** Rewriting the parent of the entry at `i` to `q`, as seen by the sections' views. */
  lemma MoveView(cs: seq<Command>, i: nat, q: Id, other: Id)
    requires i < |cs|
    ensures
      var r := cs[i := cs[i].(parentId := q)];
      var p := cs[i].parentId;
      && ChildrenOf(r, q) == ChildrenOf(cs[..i], q) + [cs[i].(parentId := q)] + ChildrenOf(cs[i + 1..], q)
      && (p != q ==> ChildrenOf(r, p) == ChildrenOf(RemoveAt(cs, i), p))
      && (other != p && other != q ==> ChildrenOf(r, other) == ChildrenOf(cs, other))
  {
    var moved := cs[i].(parentId := q);
    var front, back := cs[..i], cs[i + 1..];
    assert cs[i := moved] == front + [moved] + back;
    assert cs == front + [cs[i]] + back;
    ViewSplit(front, moved, back, q);
    ViewSplit(front, moved, back, cs[i].parentId);
    ViewSplit(front, cs[i], back, other);
    ViewSplit(front, moved, back, other);
    FilterAppend(front, back, InSection(cs[i].parentId));
  }

  /** Dropping a command onto a section moves it between the sections' views
      without moving it in the store: it leaves its old section's view, and it
      joins the new section's view at the place its store position gives it
      (not necessarily at the end). Every other section's view is unchanged. */
  lemma DropOntoSectionView(s: Store, items: seq<Item>, sec: Section, other: Id)
    requires items != [] && items[0].CommandItem? && HasCommand(s, items[0].Key())
    ensures
      var r := HandleDrop(s, items, Some(SectionItem(sec)));
      var cs := s.commands;
      var i := CommandIndex(cs, items[0].Key());
      var p := cs[i].parentId;
      && ChildrenOf(r.commands, sec.id)
           == ChildrenOf(cs[..i], sec.id) + [cs[i].(parentId := sec.id)] + ChildrenOf(cs[i + 1..], sec.id)
      && (p != sec.id ==> ChildrenOf(r.commands, p) == ChildrenOf(RemoveAt(cs, i), p))
      && (other != p && other != sec.id ==> ChildrenOf(r.commands, other) == ChildrenOf(cs, other))
  {
    DropSectionShape(s, items, sec);
    MoveView(s.commands, CommandIndex(s.commands, items[0].Key()), sec.id, other);
  }

  // ----- the source's own drag-and-drop scenarios -----

  const S1 := Section("s1", "Section 1")
  const S2 := Section("s2", "Section 2")
  const C1 := Command("c1", "Command 1", "echo 1", "s1")
  const C2 := Command("c2", "Command 2", "echo 2", "s1")

  /** Two commands in one section; dropping the first onto the second puts it after it. */
  lemma ReorderScenario()
    ensures ChildrenOf(HandleDrop(Store([S1], [C1, C2]), [CommandItem(C1)], Some(CommandItem(C2))).commands, "s1")
            == [C2, C1]
  {
    ReorderScenarioStore();
    ReorderScenarioView();
  }

  lemma ReorderScenarioView()
    ensures ChildrenOf([C2, C1], "s1") == [C2, C1]
  {
    assert [C2, C1][1..] == [C1] && [C1][1..] == [];
    assert InSection("s1")(C2) && InSection("s1")(C1);
    assert ChildrenOf([C1], "s1") == [C1] + ChildrenOf([], "s1");
    assert ChildrenOf([C2, C1], "s1") == [C2] + ChildrenOf([C1], "s1");
  }

  lemma ReorderScenarioStore()
    ensures HandleDrop(Store([S1], [C1, C2]), [CommandItem(C1)], Some(CommandItem(C2))).commands == [C2, C1]
  {
    var s := Store([S1], [C1, C2]);
    ReorderScenarioLookups();
    DropCommandShape(s, [CommandItem(C1)], C2);
  }

  lemma ReorderScenarioLookups()
    ensures HasCommand(Store([S1], [C1, C2]), "c1")
    ensures CommandIndex([C1, C2], "c1") == 0
    ensures Without([C1, C2], "c1") == [C2]
    ensures CommandIndex([C2], "c2") == 0
  {
    assert C1.id != C2.id by { assert C1.id[1] != C2.id[1]; }
    assert Store([S1], [C1, C2]).commands[0].id == "c1";
    assert [C1, C2][1..] == [C2] && [C2][1..] == [];
    assert !OtherId("c1")(C1) && OtherId("c1")(C2);
    assert Filter([C2], OtherId("c1")) == [C2] + Filter([], OtherId("c1"));
  }

  /** A command of the first section dropped on the second section leaves the
      first section's view empty and becomes the second section's only command. */
  lemma MoveScenario()
    ensures
      var r := HandleDrop(Store([S1, S2], [C1]), [CommandItem(C1)], Some(SectionItem(S2)));
      && ChildrenOf(r.commands, "s1") == []
      && ChildrenOf(r.commands, "s2") == [C1.(parentId := "s2")]
  {
    var s := Store([S1, S2], [C1]);
    var r := HandleDrop(s, [CommandItem(C1)], Some(SectionItem(S2)));
    assert CommandIndex(s.commands, "c1") == 0;
    assert r.commands == [C1.(parentId := "s2")];
    assert r.commands[1..] == [];
  }
}
