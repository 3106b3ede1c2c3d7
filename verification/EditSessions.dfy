/** The objects behind the history: undo groups, the undo manager and the editing session, each method
    proved to take the step of the state machine in History that it stands for. */
module EditSessions {
  import opened Texts
  import opened Deltas
  import opened Documents
  import opened History

  /** An array of deltas on the undo or redo stack.  lastDeltas aliases the top one. */
  class DeltaGroup {
    const id: nat
    var deltas: seq<Delta>

    constructor (id: nat, x: Delta)
      ensures Value() == Group(id, [x])
    {
      this.id, deltas := id, [x];
    }

    function Value(): Group
      reads this
    {
      Group(id, deltas)
    }
  }

  function Values(gs: seq<DeltaGroup>): (vs: seq<Group>)
    reads gs
    ensures |vs| == |gs|
  {
    seq(|gs|, i requires 0 <= i < |gs| reads gs => gs[i].Value())
  }

  class UndoManager {
    var undoStack: seq<DeltaGroup>
    var redoStack: seq<DeltaGroup>
    var rev: nat
    var maxRev: nat
    var redoStackBaseRev: nat
    var lastDeltas: DeltaGroup?
    var fromUndo: bool

    constructor ()
      ensures WellFormed() && Abstract() == FRESH && !fromUndo
      ensures undoStack == [] && redoStack == []
    {
      undoStack, redoStack, rev, maxRev, redoStackBaseRev, lastDeltas, fromUndo := [], [], 0, 0, 0, null, false;
    }

    /** No group object stands on the stacks twice. */
    ghost predicate GroupsDistinct()
      reads this`undoStack, this`redoStack
    {
      && (forall i, j :: 0 <= i < j < |undoStack| ==> undoStack[i] != undoStack[j])
      && (forall i, j :: 0 <= i < |undoStack| && 0 <= j < |redoStack| ==> undoStack[i] != redoStack[j])
      && (forall i, j :: 0 <= i < j < |redoStack| ==> redoStack[i] != redoStack[j])
    }

    ghost predicate WellFormed()
      reads this
    {
      GroupsDistinct() && (lastDeltas != null ==> undoStack != [] && lastDeltas == undoStack[|undoStack| - 1])
    }

    function Abstract(): Stacks
      reads this, undoStack, redoStack
    {
      Stacks(Values(undoStack), Values(redoStack), rev, maxRev, redoStackBaseRev, lastDeltas != null)
    }

    /** add: push onto lastDeltas where that is allowed, otherwise start a new group. */
    method Add(x: Delta, allowMerge: bool)
      requires WellFormed()
      modifies this, undoStack
      ensures WellFormed() && redoStack == old(redoStack) && fromUndo == old(fromUndo)
      ensures |old(undoStack)| <= |undoStack|
      ensures forall i :: 0 <= i < |undoStack| ==> undoStack[i] in old(undoStack) || fresh(undoStack[i])
      ensures Abstract() == if old(fromUndo) then old(Abstract()) else AddDelta(old(Abstract()), x, allowMerge)
    {
      if fromUndo { return; }
      ghost var before := Abstract();
      if !allowMerge || lastDeltas == null {
        maxRev := maxRev + 1;
        rev := maxRev;
        var group := new DeltaGroup(rev, x);
        undoStack := undoStack + [group];
        lastDeltas := group;
        assert Values(undoStack) == before.undo + [Group(rev, [x])];
        assert Values(redoStack) == before.redo;
      } else {
        lastDeltas.deltas := lastDeltas.deltas + [x];
        assert Values(undoStack) == AddDelta(before, x, allowMerge).undo;
        assert Values(redoStack) == before.redo;
      }
    }

    method StartNewGroup() returns (r: nat)
      modifies this`lastDeltas
      ensures r == rev && Abstract() == old(Abstract()).(lastOpen := false)
      ensures old(WellFormed()) ==> WellFormed()
    {
      lastDeltas := null;
      return rev;
    }

    /** $syncRev */
    method SyncRevisions()
      modifies this`rev, this`redoStackBaseRev
      ensures Abstract() == SyncRev(old(Abstract()))
    {
      var id := if undoStack == [] then 0 else undoStack[|undoStack| - 1].id;
      redoStackBaseRev, rev := id, id;
    }

    /** The first half of undo: drop an unusable redo stack, pop the top group. */
    method PopUndo() returns (group: DeltaGroup)
      requires WellFormed() && lastDeltas == null && undoStack != []
      modifies this`undoStack, this`redoStack
      ensures WellFormed() && group !in undoStack && group !in redoStack
      ensures group.Value() == old(Abstract()).undo[|old(undoStack)| - 1]
      ensures Abstract() == old(Abstract()).(
        undo := old(Abstract()).undo[..|old(undoStack)| - 1],
        redo := if redoStackBaseRev != rev && old(redoStack) != [] then [] else old(Abstract()).redo)
    {
      if redoStackBaseRev != rev && redoStack != [] {
        redoStack := [];
      }
      group := undoStack[|undoStack| - 1];
      undoStack := undoStack[..|undoStack| - 1];
    }

    method PushRedo(group: DeltaGroup)
      requires WellFormed() && group !in undoStack && group !in redoStack
      modifies this`redoStack, this`rev, this`redoStackBaseRev
      ensures WellFormed()
      ensures Abstract() == SyncRev(old(Abstract()).(redo := old(Abstract()).redo + [group.Value()]))
    {
      ghost var redo := Values(redoStack);
      redoStack := redoStack + [group];
      assert Values(redoStack) == redo + [group.Value()];
      SyncRevisions();
    }

    method PopRedo() returns (group: DeltaGroup)
      requires WellFormed() && redoStack != []
      modifies this`redoStack
      ensures WellFormed() && group !in undoStack && group !in redoStack
      ensures group.Value() == old(Abstract()).redo[|old(redoStack)| - 1]
      ensures Abstract() == old(Abstract()).(redo := old(Abstract()).redo[..|old(redoStack)| - 1])
    {
      group := redoStack[|redoStack| - 1];
      redoStack := redoStack[..|redoStack| - 1];
    }

    method PushUndo(group: DeltaGroup)
      requires WellFormed() && lastDeltas == null && group !in undoStack && group !in redoStack
      modifies this`undoStack, this`rev, this`redoStackBaseRev
      ensures WellFormed()
      ensures Abstract() == SyncRev(old(Abstract()).(undo := old(Abstract()).undo + [group.Value()]))
    {
      ghost var undo := Values(undoStack);
      undoStack := undoStack + [group];
      assert Values(undoStack) == undo + [group.Value()];
      SyncRevisions();
    }

    /** undo: take the top group back through the session.  The source's test for an empty group is
        never reached with one. */
    method Undo(session: EditSession)
      requires session.manager == this && session.WellFormed()
      requires Enabled(session.Current(), Step.Undo)
      modifies this, session`fromUndo, session.doc`lines, session.doc`changes
      ensures session.WellFormed()
      ensures session.Current() == Next(old(session.Current()), Step.Undo)
    {
      hide Valid, ValidRun, Run, Inverses, Values, SyncRev, TopId, StacksOk, UndoManager.GroupsDistinct;
      lastDeltas := null;
      if undoStack == [] { return; }
      fromUndo := true;
      var group := PopUndo();
      ghost var popped := Abstract();
      session.UndoChanges(group);
      assert Abstract() == popped;
      PushRedo(group);
      fromUndo := false;
    }

    /** redo, where no edit has diverged from the redo stack. */
    method Redo(session: EditSession)
      requires session.manager == this && session.WellFormed()
      requires Enabled(session.Current(), Step.Redo)
      modifies this, session`fromUndo, session.doc`lines, session.doc`changes
      ensures session.WellFormed()
      ensures session.Current() == Next(old(session.Current()), Step.Redo)
    {
      hide Valid, ValidRun, Run, Inverses, Values, SyncRev, TopId, StacksOk, UndoManager.GroupsDistinct;
      lastDeltas := null;
      fromUndo := true;
      if redoStackBaseRev != rev {
        redoStackBaseRev := rev;
      }
      if redoStack != [] {
        var group := PopRedo();
        ghost var popped := Abstract();
        session.RedoChanges(group);
        assert Abstract() == popped;
        PushUndo(group);
      }
      fromUndo := false;
    }
  }

  class EditSession {
    const doc: Document
    const manager: UndoManager
    var fromUndo: bool
    var mergeUndoDeltas: bool

    constructor (doc: Document, manager: UndoManager)
      requires manager.WellFormed() && manager.Abstract() == FRESH && !manager.fromUndo
      ensures this.doc == doc && this.manager == manager && !mergeUndoDeltas
      ensures WellFormed() && Current() == State(doc.lines, FRESH)
    {
      this.doc, this.manager, fromUndo, mergeUndoDeltas := doc, manager, false, false;
    }

    ghost predicate WellFormed()
      reads this, manager
    {
      manager.WellFormed() && !fromUndo && !manager.fromUndo
    }

    function Current(): State
      reads this, doc, manager, manager.undoStack, manager.redoStack
    {
      State(doc.lines, manager.Abstract())
    }

    /** A user edit: the document changes, and every event it signals reaches the undo manager. */
    method Edit(x: Delta)
      requires WellFormed() && Valid(doc.lines, x)
      modifies this`mergeUndoDeltas, doc`lines, doc`changes, manager, manager.undoStack
      ensures WellFormed() && old(doc.changes) <= doc.changes
      ensures var events := doc.ChangesSince(|old(doc.changes)|);
              var steps := EditSteps(events, old(mergeUndoDeltas));
              && Records(old(doc.lines), x, events)
              && AllEnabled(old(Current()), steps) && Current() == Exec(old(Current()), steps)
    {
      hide Valid, ValidRun, Run, AllEnabled, Exec, EditSteps, AddAll, AddDelta, Values, UndoManager.GroupsDistinct;
      ghost var before, merge := Current(), mergeUndoDeltas;
      var n := |doc.changes|;
      doc.ApplyDelta(x);
      ghost var changes, lines := doc.changes, doc.lines;
      ghost var events := changes[n..];
      AddNothing(before.stacks, merge);
      assert events[..0] == [];
      var i := n;
      while i < |doc.changes|
        invariant n <= i <= |doc.changes|
        invariant WellFormed() && doc.changes == changes && doc.lines == lines
        invariant forall j :: 0 <= j < |manager.undoStack| ==>
          manager.undoStack[j] in old(manager.undoStack) || fresh(manager.undoStack[j])
        invariant manager.Abstract() == AddAll(before.stacks, events[..i - n], merge)
        invariant mergeUndoDeltas == if i == n then merge else true
      {
        AddAllLast(before.stacks, events[..i - n], doc.changes[i], merge);
        assert events[..i - n] + [doc.changes[i]] == events[..i + 1 - n];
        OnChange(doc.changes[i]);
        i := i + 1;
      }
      assert events[..i - n] == events;
      ExecEditSteps(before, events, merge);
    }

    /** onChange, as far as the undo manager is concerned. */
    method OnChange(x: Delta)
      requires WellFormed()
      modifies this`mergeUndoDeltas, manager, manager.undoStack
      ensures WellFormed() && mergeUndoDeltas
      ensures forall i :: 0 <= i < |manager.undoStack| ==>
        manager.undoStack[i] in old(manager.undoStack) || fresh(manager.undoStack[i])
      ensures manager.Abstract() == AddDelta(old(manager.Abstract()), x, old(mergeUndoDeltas))
    {
      if !fromUndo {
        manager.Add(x, mergeUndoDeltas);
        mergeUndoDeltas := true;
      }
    }

    /** Revert a group, last delta first. */
    method UndoChanges(group: DeltaGroup)
      requires ValidRun(doc.lines, Inverses(group.deltas))
      modifies this`fromUndo, doc`lines, doc`changes
      ensures doc.lines == Run(old(doc.lines), Inverses(group.deltas)) && !fromUndo
      ensures old(doc.changes) <= doc.changes && doc.LedFrom(old(doc.lines), |old(doc.changes)|)
    {
      hide Valid, Apply, ValidRun, Run, Records;
      fromUndo := true;
      var deltas, n := group.deltas, |group.deltas| - 1;
      assert deltas[..n + 1] == deltas && deltas[n + 1..] == [];
      RunNothing(doc.lines);
      assert doc.changes[|doc.changes|..] == [] && Inverses([]) == [];
      while n != -1
        invariant -1 <= n < |deltas|
        invariant ValidRun(old(doc.lines), Inverses(deltas[n + 1..]))
        invariant doc.lines == Run(old(doc.lines), Inverses(deltas[n + 1..]))
        invariant old(doc.changes) <= doc.changes && doc.LedFrom(old(doc.lines), |old(doc.changes)|)
        decreases n + 1
      {
        UndoneStep(old(doc.lines), deltas, n);
        ghost var before, mid := doc.changes, doc.lines;
        doc.RevertDelta(deltas[n]);
        MoreEvents(old(doc.lines), mid, Invert(deltas[n]), |old(doc.changes)|, before, doc.changes);
        n := n - 1;
      }
      assert deltas[n + 1..] == deltas;
      fromUndo := false;
    }

    /** Apply a group again, in order. */
    method RedoChanges(group: DeltaGroup)
      requires ValidRun(doc.lines, group.deltas)
      modifies this`fromUndo, doc`lines, doc`changes
      ensures doc.lines == Run(old(doc.lines), group.deltas) && !fromUndo
      ensures old(doc.changes) <= doc.changes && doc.LedFrom(old(doc.lines), |old(doc.changes)|)
    {
      hide Valid, Apply, ValidRun, Run, Records;
      fromUndo := true;
      var deltas, n := group.deltas, 0;
      RunNothing(doc.lines);
      assert doc.changes[|doc.changes|..] == [] && deltas[..0] == [];
      while n < |deltas|
        invariant n <= |deltas|
        invariant ValidRun(old(doc.lines), deltas[..n]) && doc.lines == Run(old(doc.lines), deltas[..n])
        invariant old(doc.changes) <= doc.changes && doc.LedFrom(old(doc.lines), |old(doc.changes)|)
      {
        RedoneStep(old(doc.lines), deltas, n);
        ghost var before, mid := doc.changes, doc.lines;
        doc.ApplyDelta(deltas[n]);
        MoreEvents(old(doc.lines), mid, deltas[n], |old(doc.changes)|, before, doc.changes);
        n := n + 1;
      }
      assert deltas[..n] == deltas;
      fromUndo := false;
    }
  }

  /** The events of one more edit lead on. */
  lemma MoreEvents(d: Text, mid: Text, x: Delta, k: nat, before: seq<Delta>, after: seq<Delta>)
    requires k <= |before| && before <= after && ValidRun(d, before[k..]) && Run(d, before[k..]) == mid
    requires Records(mid, x, after[|before|..])
    ensures Valid(mid, x) && ValidRun(d, after[k..]) && Run(d, after[k..]) == Apply(mid, x)
  {
    RecordsReplay(mid, x, after[|before|..]);
    hide Valid, Apply, ValidRun, Run, Records;
    SuffixGrows(k, before, after);
    RunAppend(d, before[k..], after[|before|..]);
  }

  lemma SuffixGrows(k: nat, before: seq<Delta>, after: seq<Delta>)
    requires k <= |before| && before <= after
    ensures after[k..] == before[k..] + after[|before|..]
  {
  }

  lemma UndoneStep(d: Text, deltas: seq<Delta>, n: nat)
    requires n < |deltas| && ValidRun(d, Inverses(deltas))
    requires ValidRun(d, Inverses(deltas[n + 1..]))
    ensures var now := Run(d, Inverses(deltas[n + 1..])); var x := Invert(deltas[n]);
            Valid(now, x) && ValidRun(d, Inverses(deltas[n..])) && Apply(now, x) == Run(d, Inverses(deltas[n..]))
  {
    hide Valid, Apply, ValidRun, Run;
    var done, x := Inverses(deltas[n + 1..]), Invert(deltas[n]);
    assert deltas == deltas[..n] + deltas[n..];
    InversesAppend(deltas[..n], deltas[n..]);
    InversesHead(deltas, n);
    hide Inverses;
    RunPrefix(d, Inverses(deltas[n..]), Inverses(deltas[..n]));
    RunAppend(d, done, [x]);
    RunOne(Run(d, done), x);
  }

  lemma InversesHead(deltas: seq<Delta>, n: nat)
    requires n < |deltas|
    ensures Inverses(deltas[n..]) == Inverses(deltas[n + 1..]) + [Invert(deltas[n])]
  {
    assert deltas[n..][1..] == deltas[n + 1..];
  }

  lemma RedoneStep(d: Text, deltas: seq<Delta>, n: nat)
    requires n < |deltas| && ValidRun(d, deltas) && ValidRun(d, deltas[..n])
    ensures var now := Run(d, deltas[..n]);
            Valid(now, deltas[n]) && ValidRun(d, deltas[..n + 1]) && Apply(now, deltas[n]) == Run(d, deltas[..n + 1])
  {
    hide Valid, Apply, ValidRun, Run;
    var x := deltas[n];
    assert deltas == deltas[..n + 1] + deltas[n + 1..] && deltas[..n + 1] == deltas[..n] + [x];
    RunPrefix(d, deltas[..n + 1], deltas[n + 1..]);
    RunAppend(d, deltas[..n], [x]);
    RunOne(Run(d, deltas[..n]), x);
  }
}
