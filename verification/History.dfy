/** The undo history as a state machine over values: what ace/undomanager and the session do on an
    edit, an undo, a redo and the start of a new group. */
module History {
  import opened Texts
  import opened Deltas

  /** One entry of an undo or redo stack; the source keeps the id on the group's first delta. */
  datatype Group = Group(id: nat, deltas: seq<Delta>)

  /** lastOpen: lastDeltas is set, that is, the top group of the undo stack still accepts deltas. */
  datatype Stacks = Stacks(undo: seq<Group>, redo: seq<Group>, rev: nat, maxRev: nat, redoBaseRev: nat, lastOpen: bool)

  datatype State = State(doc: Text, stacks: Stacks)

  const FRESH := Stacks([], [], 0, 0, 0, false)

  function TopId(undo: seq<Group>): nat {
    if undo == [] then 0 else undo[|undo| - 1].id
  }

  /** $syncRev */
  function SyncRev(h: Stacks): Stacks {
    h.(rev := TopId(h.undo), redoBaseRev := TopId(h.undo))
  }

  /** add: merge into the open group, or push a new one under the next revision number. */
  function AddDelta(h: Stacks, x: Delta, allowMerge: bool): Stacks
    requires h.lastOpen ==> h.undo != []
  {
    if allowMerge && h.lastOpen then
      var top := |h.undo| - 1;
      h.(undo := h.undo[top := Group(h.undo[top].id, h.undo[top].deltas + [x])])
    else
      h.(undo := h.undo + [Group(h.maxRev + 1, [x])], rev := h.maxRev + 1, maxRev := h.maxRev + 1, lastOpen := true)
  }

  /** undo: an unusable redo stack is dropped. */
  function UndoTop(h: Stacks): Stacks {
    var h0 := h.(lastOpen := false);
    if h.undo == [] then h0
    else
      var redo := if h.redoBaseRev != h.rev && h.redo != [] then [] else h.redo;
      var top := |h.undo| - 1;
      SyncRev(h0.(undo := h.undo[..top], redo := redo + [h.undo[top]]))
  }

  /** redo, where no edit has diverged from the redo stack. */
  function RedoTop(h: Stacks): Stacks {
    var h0 := h.(lastOpen := false, redoBaseRev := h.rev);
    if h.redo == [] then h0
    else
      var top := |h.redo| - 1;
      SyncRev(h0.(undo := h.undo + [h.redo[top]], redo := h.redo[..top]))
  }

  datatype Step = Edit(x: Delta, allowMerge: bool) | Undo | Redo | NewGroup

  /** Undo reads the first delta of the top group, and redo is not to follow a diverging edit. */
  predicate Enabled(s: State, step: Step) {
    match step
    case Edit(x, _) => Valid(s.doc, x) && Proper(x) && (s.stacks.lastOpen ==> s.stacks.undo != [])
    case Undo =>
      s.stacks.undo != [] ==>
        var deltas := s.stacks.undo[|s.stacks.undo| - 1].deltas;
        deltas != [] && ValidRun(s.doc, Inverses(deltas))
    case Redo =>
      && (s.stacks.redoBaseRev == s.stacks.rev || s.stacks.redo == [])
      && (s.stacks.redo != [] ==> ValidRun(s.doc, s.stacks.redo[|s.stacks.redo| - 1].deltas))
    case NewGroup => true
  }

  function Next(s: State, step: Step): State
    requires Enabled(s, step)
  {
    var h := s.stacks;
    match step
    case Edit(x, merge) => State(Apply(s.doc, x), AddDelta(h, x, merge))
    case Undo => State(if h.undo == [] then s.doc else Run(s.doc, Inverses(h.undo[|h.undo| - 1].deltas)), UndoTop(h))
    case Redo => State(if h.redo == [] then s.doc else Run(s.doc, h.redo[|h.redo| - 1].deltas), RedoTop(h))
    case NewGroup => s.(stacks := h.(lastOpen := false))
  }

  // ---------- the invariant ----------

  function Flatten(gs: seq<Group>): seq<Delta> {
    if gs == [] then [] else gs[0].deltas + Flatten(gs[1..])
  }

  lemma {:induction false} FlattenAppend(a: seq<Group>, b: seq<Group>)
    ensures Flatten(a + b) == Flatten(a) + Flatten(b)
  {
    if a == [] {
      assert a + b == b;
    } else {
      assert (a + b)[1..] == a[1..] + b;
      FlattenAppend(a[1..], b);
    }
  }

  function Reversed(gs: seq<Group>): (r: seq<Group>)
    ensures |r| == |gs| && forall i :: 0 <= i < |gs| ==> r[i] == gs[|gs| - 1 - i]
  {
    if gs == [] then [] else Reversed(gs[1..]) + [gs[0]]
  }

  /** The redo stack continues the undo stack. */
  predicate RedoIsFresh(h: Stacks) {
    h.redoBaseRev == h.rev
  }

  /** The edits of the session in order: those undone, as far as they can be redone, come last. */
  function Timeline(h: Stacks): seq<Group> {
    if RedoIsFresh(h) then h.undo + Reversed(h.redo) else h.undo
  }

  predicate Increasing(gs: seq<Group>) {
    forall i, j :: 0 <= i < j < |gs| ==> gs[i].id < gs[j].id
  }

  predicate GroupsOk(gs: seq<Group>, maxRev: nat) {
    forall i :: 0 <= i < |gs| ==> 0 < gs[i].id <= maxRev && gs[i].deltas != []
  }

  predicate StacksOk(h: Stacks) {
    && h.rev == TopId(h.undo) && h.redoBaseRev <= h.maxRev && h.rev <= h.maxRev
    && (h.lastOpen ==> h.undo != [] && !RedoIsFresh(h))
    && GroupsOk(h.undo, h.maxRev) && GroupsOk(h.redo, h.maxRev)
    && Increasing(Timeline(h))
  }

  /** Replaying the undo stack from the base document gives the current one, and the redo stack can
      be replayed from there. */
  ghost predicate Replays(base: Text, s: State) {
    && ValidRun(base, Flatten(Timeline(s.stacks)))
    && ValidRun(base, Flatten(s.stacks.undo)) && Run(base, Flatten(s.stacks.undo)) == s.doc
  }

  ghost predicate Inv(base: Text, s: State) {
    StacksOk(s.stacks) && Replays(base, s)
  }

  lemma InitialInv(base: Text)
    ensures Inv(base, State(base, FRESH))
  {
  }

  lemma ReversedAppend(gs: seq<Group>, g: Group)
    ensures Reversed(gs + [g]) == [g] + Reversed(gs)
  {
    var r := Reversed(gs + [g]);
    forall i | 0 <= i < |r|
      ensures r[i] == ([g] + Reversed(gs))[i]
    {
    }
  }

  /** Taking the top group of the undo stack back leads to the state before it. */
  lemma UndoneTop(base: Text, s: State)
    requires Inv(base, s) && s.stacks.undo != []
    ensures var top := |s.stacks.undo| - 1;
            var rest, g := s.stacks.undo[..top], s.stacks.undo[top];
            && Flatten(s.stacks.undo) == Flatten(rest) + g.deltas
            && ValidRun(base, Flatten(rest)) && ValidRun(s.doc, Inverses(g.deltas))
            && Run(s.doc, Inverses(g.deltas)) == Run(base, Flatten(rest))
  {
    var top := |s.stacks.undo| - 1;
    var rest, g := s.stacks.undo[..top], s.stacks.undo[top];
    assert s.stacks.undo == rest + [g] && [g][1..] == [];
    FlattenAppend(rest, [g]);
    assert Flatten([g]) == g.deltas + [] == g.deltas;
    RunPrefix(base, Flatten(rest), g.deltas);
    RunAppend(base, Flatten(rest), g.deltas);
    InversesUndo(Run(base, Flatten(rest)), g.deltas);
  }

  /** Moving the top group of one stack to the other leaves the timeline alone. */
  lemma TimelineOfUndo(h: Stacks)
    requires h.undo != []
    ensures RedoIsFresh(UndoTop(h)) && Timeline(UndoTop(h)) == Timeline(h)
  {
    var top := |h.undo| - 1;
    var g, redo := h.undo[top], if RedoIsFresh(h) then h.redo else [];
    assert UndoTop(h).redo == redo + [g];
    ReversedAppend(redo, g);
    assert h.undo == h.undo[..top] + [g];
    assert h.undo[..top] + ([g] + Reversed(redo)) == h.undo + Reversed(redo);
    if !RedoIsFresh(h) { assert h.undo + Reversed(redo) == h.undo; }
  }

  lemma TimelineOfRedo(h: Stacks)
    requires h.redo != [] && RedoIsFresh(h)
    ensures RedoIsFresh(RedoTop(h)) && Timeline(RedoTop(h)) == Timeline(h)
  {
    var top := |h.redo| - 1;
    assert h.redo == h.redo[..top] + [h.redo[top]];
    ReversedAppend(h.redo[..top], h.redo[top]);
    assert (h.undo + [h.redo[top]]) + Reversed(h.redo[..top]) == h.undo + ([h.redo[top]] + Reversed(h.redo[..top]));
  }

  lemma FlattenOne(gs: seq<Group>, g: Group)
    ensures Flatten(gs + [g]) == Flatten(gs) + g.deltas
  {
    FlattenAppend(gs, [g]);
    assert [g][1..] == [] && g.deltas + [] == g.deltas;
  }

  lemma TimelineSplits(h: Stacks) returns (rest: seq<Group>)
    requires h.redo != [] && RedoIsFresh(h)
    ensures Timeline(h) == (h.undo + [h.redo[|h.redo| - 1]]) + rest
  {
    var top := |h.redo| - 1;
    rest := Reversed(h.redo[..top]);
    assert h.redo == h.redo[..top] + [h.redo[top]];
    ReversedAppend(h.redo[..top], h.redo[top]);
  }

  /** Redoing is replaying the next group of the timeline. */
  lemma RedoneTop(base: Text, s: State)
    requires Inv(base, s) && s.stacks.redo != [] && RedoIsFresh(s.stacks)
    ensures var g := s.stacks.redo[|s.stacks.redo| - 1];
            && Flatten(s.stacks.undo + [g]) == Flatten(s.stacks.undo) + g.deltas
            && ValidRun(s.doc, g.deltas) && ValidRun(base, Flatten(s.stacks.undo) + g.deltas)
            && Run(s.doc, g.deltas) == Run(base, Flatten(s.stacks.undo) + g.deltas)
  {
    hide Flatten, Timeline, ValidRun, Run, StacksOk;
    var h := s.stacks;
    var g := h.redo[|h.redo| - 1];
    var rest := TimelineSplits(h);
    FlattenAppend(h.undo + [g], rest);
    FlattenOne(h.undo, g);
    RunPrefix(base, Flatten(h.undo) + g.deltas, Flatten(rest));
    RunAppend(base, Flatten(h.undo), g.deltas);
  }

  lemma EditKeepsStacksOk(h: Stacks, x: Delta, allowMerge: bool)
    requires StacksOk(h)
    ensures StacksOk(AddDelta(h, x, allowMerge))
            && Timeline(AddDelta(h, x, allowMerge)) == AddDelta(h, x, allowMerge).undo
  {
    var h' := AddDelta(h, x, allowMerge);
    assert forall i :: 0 <= i < |h.undo| ==> h.undo[i] == Timeline(h)[i];
    assert forall i :: 0 <= i < |h.undo| ==> h'.undo[i].id == h.undo[i].id;
  }

  lemma FlattenAdded(h: Stacks, x: Delta, allowMerge: bool)
    requires h.lastOpen ==> h.undo != []
    ensures Flatten(AddDelta(h, x, allowMerge).undo) == Flatten(h.undo) + [x]
  {
    if allowMerge && h.lastOpen {
      var top := |h.undo| - 1;
      var rest, g, g' := h.undo[..top], h.undo[top], Group(h.undo[top].id, h.undo[top].deltas + [x]);
      assert h.undo == rest + [g] && AddDelta(h, x, allowMerge).undo == rest + [g'];
      FlattenAppend(rest, [g]);
      FlattenAppend(rest, [g']);
      assert [g][1..] == [] == [g'][1..] && g.deltas + [] == g.deltas && g'.deltas + [] == g'.deltas;
      assert Flatten(rest) + (g.deltas + [x]) == (Flatten(rest) + g.deltas) + [x];
    } else {
      var g := Group(h.maxRev + 1, [x]);
      assert [g][1..] == [] && [x] + [] == [x];
      FlattenAppend(h.undo, [g]);
    }
  }

  lemma EditKeepsInv(base: Text, s: State, x: Delta, allowMerge: bool)
    requires Inv(base, s) && Valid(s.doc, x)
    ensures Inv(base, State(Apply(s.doc, x), AddDelta(s.stacks, x, allowMerge)))
    ensures Timeline(AddDelta(s.stacks, x, allowMerge)) == AddDelta(s.stacks, x, allowMerge).undo
  {
    EditKeepsStacksOk(s.stacks, x, allowMerge);
    FlattenAdded(s.stacks, x, allowMerge);
    RunAppend(base, Flatten(s.stacks.undo), [x]);
    assert Run(Apply(s.doc, x), []) == Apply(s.doc, x);
  }

  lemma GroupsMoved(gs: seq<Group>, hs: seq<Group>, maxRev: nat)
    requires GroupsOk(gs, maxRev) && GroupsOk(hs, maxRev) && gs != []
    ensures var top := |gs| - 1;
            GroupsOk(gs[..top], maxRev) && gs[top].deltas != [] && GroupsOk(hs + [gs[top]], maxRev)
            && TopId(gs[..top]) <= maxRev && TopId(hs + [gs[top]]) <= maxRev
  {
  }

  lemma UndoneStacks(h: Stacks)
    requires h.undo != []
    ensures var h' := UndoTop(h); var top := |h.undo| - 1;
            && h'.undo == h.undo[..top] && h'.redo == (if RedoIsFresh(h) then h.redo else []) + [h.undo[top]]
            && h'.rev == TopId(h'.undo) && h'.redoBaseRev == TopId(h'.undo) && h'.maxRev == h.maxRev && !h'.lastOpen
  {
  }

  lemma UndoKeepsStacksOk(h: Stacks)
    requires StacksOk(h)
    ensures StacksOk(UndoTop(h))
  {
    if h.undo != [] {
      hide Timeline, Increasing, GroupsOk, TopId, UndoTop;
      GroupsMoved(h.undo, h.redo, h.maxRev);
      GroupsMoved(h.undo, [], h.maxRev) by { NoGroupsOk(h.maxRev); }
      UndoneStacks(h);
      TimelineOfUndo(h);
    }
  }

  lemma NoGroupsOk(maxRev: nat)
    ensures GroupsOk([], maxRev)
  {
  }

  lemma UndoKeepsInv(base: Text, s: State)
    requires Inv(base, s)
    ensures Enabled(s, Undo) && Inv(base, Next(s, Undo))
  {
    UndoKeepsStacksOk(s.stacks);
    if s.stacks.undo != [] {
      hide Timeline, Flatten, Run, ValidRun, Inverses;
      TopIsProper(s.stacks);
      UndoneTop(base, s);
      UndoneStacks(s.stacks);
      TimelineOfUndo(s.stacks);
      hide StacksOk, UndoTop;
    }
  }

  lemma TopIsProper(h: Stacks)
    requires StacksOk(h) && h.undo != []
    ensures h.undo[|h.undo| - 1].deltas != []
  {
  }

  lemma RedoKeepsStacksOk(base: Text, s: State)
    requires Inv(base, s) && (RedoIsFresh(s.stacks) || s.stacks.redo == [])
    ensures StacksOk(RedoTop(s.stacks)) && Timeline(RedoTop(s.stacks)) == Timeline(s.stacks)
  {
    var h, h' := s.stacks, RedoTop(s.stacks);
    if h.redo == [] {
      assert Timeline(h') == h.undo + [] == h.undo == Timeline(h);
    } else {
      TimelineOfRedo(s.stacks);
      assert forall i :: 0 <= i < |h'.redo| ==> h'.redo[i] == h.redo[i];
    }
  }

  lemma RedoneStacks(h: Stacks)
    ensures h.redo == [] ==> RedoTop(h).undo == h.undo && RedoTop(h).redo == []
    ensures h.redo != [] ==>
      var top := |h.redo| - 1;
      RedoTop(h).undo == h.undo + [h.redo[top]] && RedoTop(h).redo == h.redo[..top]
  {
  }

  lemma RedoReplays(base: Text, s: State)
    requires Inv(base, s) && (RedoIsFresh(s.stacks) || s.stacks.redo == [])
    ensures Enabled(s, Redo) && Replays(base, Next(s, Redo))
  {
    hide Flatten, Timeline, ValidRun, Run, StacksOk, RedoTop;
    RedoKeepsStacksOk(base, s);
    RedoneStacks(s.stacks);
    if s.stacks.redo != [] { RedoneTop(base, s); }
  }

  lemma RedoKeepsInv(base: Text, s: State)
    requires Inv(base, s)
    ensures Enabled(s, Redo) <==> RedoIsFresh(s.stacks) || s.stacks.redo == []
    ensures Enabled(s, Redo) ==> Inv(base, Next(s, Redo))
  {
    hide Replays, StacksOk, RedoTop, ValidRun, Run;
    if RedoIsFresh(s.stacks) || s.stacks.redo == [] {
      RedoKeepsStacksOk(base, s);
      RedoReplays(base, s);
    }
  }

  // ---------- whole sessions ----------

  predicate AllEnabled(s: State, steps: seq<Step>)
    decreases |steps|
  {
    steps == [] || (Enabled(s, steps[0]) && AllEnabled(Next(s, steps[0]), steps[1..]))
  }

  function Exec(s: State, steps: seq<Step>): State
    requires AllEnabled(s, steps)
    decreases |steps|
  {
    if steps == [] then s else Exec(Next(s, steps[0]), steps[1..])
  }

  /** In every session of edits, undos, redos and new groups, from any document: replaying the undo
      stack gives the current document, and revision numbers only grow along the timeline. */
  lemma {:induction false} SessionKeepsInv(base: Text, s: State, steps: seq<Step>)
    requires Inv(base, s) && AllEnabled(s, steps)
    ensures Inv(base, Exec(s, steps))
    decreases |steps|
  {
    if steps != [] {
      match steps[0] {
        case Edit(x, merge) => EditKeepsInv(base, s, x, merge);
        case Undo => UndoKeepsInv(base, s);
        case Redo => RedoKeepsInv(base, s);
        case NewGroup =>
      }
      SessionKeepsInv(base, Next(s, steps[0]), steps[1..]);
    }
  }

  function Times(step: Step, k: nat): (steps: seq<Step>)
    ensures |steps| == k
  {
    if k == 0 then [] else [step] + Times(step, k - 1)
  }

  lemma ExecTimes(s: State, step: Step, k: nat)
    requires 0 < k
    ensures AllEnabled(s, Times(step, k)) <==> Enabled(s, step) && AllEnabled(Next(s, step), Times(step, k - 1))
    ensures AllEnabled(s, Times(step, k)) ==> Exec(s, Times(step, k)) == Exec(Next(s, step), Times(step, k - 1))
  {
    assert Times(step, k)[1..] == Times(step, k - 1);
  }

  /** The state t is reached from s by k undos ... */
  ghost predicate Undone(base: Text, s: State, t: State, k: nat) {
    && k <= |s.stacks.undo| && Inv(base, t)
    && t.stacks.undo == s.stacks.undo[..|s.stacks.undo| - k] && Timeline(t.stacks) == Timeline(s.stacks)
    && (0 < k ==> RedoIsFresh(t.stacks)
                  && |t.stacks.redo| == k + (if RedoIsFresh(s.stacks) then |s.stacks.redo| else 0))
  }

  /** ... or by k redos. */
  ghost predicate Redone(base: Text, s: State, t: State, k: nat) {
    && k <= |s.stacks.redo| && Inv(base, t) && RedoIsFresh(t.stacks)
    && |t.stacks.undo| == |s.stacks.undo| + k && |t.stacks.redo| == |s.stacks.redo| - k
    && Timeline(t.stacks) == Timeline(s.stacks)
  }

  lemma UndoOnce(base: Text, s: State)
    requires Inv(base, s) && s.stacks.undo != []
    ensures Enabled(s, Undo) && Undone(base, s, Next(s, Undo), 1)
  {
    TopIsProper(s.stacks);
    UndoKeepsInv(base, s);
    TimelineOfUndo(s.stacks);
    UndoneStacks(s.stacks);
    hide Inv, Timeline, UndoTop;
  }

  lemma RedoOnce(base: Text, s: State)
    requires Inv(base, s) && RedoIsFresh(s.stacks) && s.stacks.redo != []
    ensures Enabled(s, Redo) && Redone(base, s, Next(s, Redo), 1)
  {
    RedoKeepsInv(base, s);
    TimelineOfRedo(s.stacks);
    hide Inv, Timeline;
  }

  /** k undos shorten the undo stack by k groups, the document becoming what the rest replays to. */
  lemma {:induction false} UndoMany(base: Text, s: State, k: nat)
    requires Inv(base, s) && k <= |s.stacks.undo|
    ensures AllEnabled(s, Times(Undo, k)) && Undone(base, s, Exec(s, Times(Undo, k)), k)
    decreases k
  {
    hide Next, Enabled, Inv, Exec, AllEnabled, Timeline, Times;
    if k == 0 {
      NothingDone(base, s, Undo);
    } else {
      UndoOnce(base, s);
      var n := Next(s, Undo);
      UndoMany(base, n, k - 1);
      ExecTimes(s, Undo, k);
      UndoneMore(base, s, n, Exec(n, Times(Undo, k - 1)), k);
    }
  }

  lemma UndoneMore(base: Text, s: State, n: State, t: State, k: nat)
    requires 0 < k <= |s.stacks.undo| && Undone(base, s, n, 1) && Undone(base, n, t, k - 1)
    ensures Undone(base, s, t, k)
  {
  }

  lemma NothingDone(base: Text, s: State, step: Step)
    requires Inv(base, s)
    ensures AllEnabled(s, Times(step, 0)) && Exec(s, Times(step, 0)) == s && Undone(base, s, s, 0)
    ensures RedoIsFresh(s.stacks) ==> Redone(base, s, s, 0)
  {
  }

  lemma {:induction false} RedoMany(base: Text, s: State, k: nat)
    requires Inv(base, s) && RedoIsFresh(s.stacks) && k <= |s.stacks.redo|
    ensures AllEnabled(s, Times(Redo, k)) && Redone(base, s, Exec(s, Times(Redo, k)), k)
    decreases k
  {
    hide Next, Enabled, Inv, Exec, AllEnabled, Timeline, Times;
    if k == 0 {
      NothingDone(base, s, Redo);
    } else {
      RedoOnce(base, s);
      var n := Next(s, Redo);
      RedoMany(base, n, k - 1);
      ExecTimes(s, Redo, k);
      RedoneMore(base, s, n, Exec(n, Times(Redo, k - 1)), k);
    }
  }

  lemma RedoneMore(base: Text, s: State, n: State, t: State, k: nat)
    requires 0 < k <= |s.stacks.redo| && Redone(base, s, n, 1) && Redone(base, n, t, k - 1)
    ensures Redone(base, s, t, k)
  {
  }

  /** k undos followed by k redos restore the document and both stacks; a redo stack that a new edit
      had made unusable is gone. */
  lemma UndoRedoRoundTrip(base: Text, s: State, k: nat)
    requires Inv(base, s) && 0 < k <= |s.stacks.undo|
    ensures AllEnabled(s, Times(Undo, k)) && AllEnabled(Exec(s, Times(Undo, k)), Times(Redo, k))
    ensures var s' := Exec(Exec(s, Times(Undo, k)), Times(Redo, k));
            && s'.doc == s.doc && s'.stacks.undo == s.stacks.undo && s'.stacks.rev == s.stacks.rev
            && s'.stacks.redo == (if RedoIsFresh(s.stacks) then s.stacks.redo else [])
  {
    UndoMany(base, s, k);
    var mid := Exec(s, Times(Undo, k));
    RedoMany(base, mid, k);
    var end := Exec(mid, Times(Redo, k));
    var n := |s.stacks.undo|;
    assert |end.stacks.undo| == n;
    assert end.stacks.undo == Timeline(s.stacks)[..n] == s.stacks.undo;
    var a, b := end.stacks.redo, if RedoIsFresh(s.stacks) then s.stacks.redo else [];
    assert Reversed(a) == Timeline(s.stacks)[n..] == Reversed(b);
    ReversedInjective(a, b);
  }

  lemma ReversedInjective(a: seq<Group>, b: seq<Group>)
    requires Reversed(a) == Reversed(b)
    ensures a == b
  {
    assert |a| == |b|;
    forall i | 0 <= i < |a|
      ensures a[i] == b[i]
    {
      assert Reversed(a)[|a| - 1 - i] == a[i];
    }
  }

  // ---------- several events at once ----------

  /** The change events of one edit, the first merging if allowed, the others always. */
  function AddAll(h: Stacks, events: seq<Delta>, allowMerge: bool): (r: Stacks)
    requires h.lastOpen ==> h.undo != []
    ensures r.lastOpen ==> r.undo != []
    decreases |events|
  {
    if events == [] then h else AddAll(AddDelta(h, events[0], allowMerge), events[1..], true)
  }

  lemma AddNothing(h: Stacks, allowMerge: bool)
    requires h.lastOpen ==> h.undo != []
    ensures AddAll(h, [], allowMerge) == h
  {
  }

  lemma {:induction false} AddAllLast(h: Stacks, events: seq<Delta>, x: Delta, allowMerge: bool)
    requires h.lastOpen ==> h.undo != []
    ensures AddAll(h, events + [x], allowMerge)
            == AddDelta(AddAll(h, events, allowMerge), x, if events == [] then allowMerge else true)
    decreases |events|
  {
    if events == [] {
      assert events + [x] == [x] && [x][1..] == [];
    } else {
      assert (events + [x])[1..] == events[1..] + [x];
      AddAllLast(AddDelta(h, events[0], allowMerge), events[1..], x, true);
    }
  }

  function EditSteps(events: seq<Delta>, allowMerge: bool): seq<Step>
    decreases |events|
  {
    if events == [] then [] else [Edit(events[0], allowMerge)] + EditSteps(events[1..], true)
  }

  lemma {:induction false} ExecEditSteps(s: State, events: seq<Delta>, allowMerge: bool)
    requires s.stacks.lastOpen ==> s.stacks.undo != []
    requires ValidRun(s.doc, events) && forall i :: 0 <= i < |events| ==> Proper(events[i])
    ensures AllEnabled(s, EditSteps(events, allowMerge))
    ensures Exec(s, EditSteps(events, allowMerge)) == State(Run(s.doc, events), AddAll(s.stacks, events, allowMerge))
    decreases |events|
  {
    if events != [] {
      var step := Edit(events[0], allowMerge);
      ExecEditSteps(Next(s, step), events[1..], true);
      assert EditSteps(events, allowMerge)[1..] == EditSteps(events[1..], true);
    }
  }

  // ---------- what one undo takes back ----------

  /** All events in one group: the open one, where merging is allowed and there is one, or else a new
      one, whose revision follows all others. */
  function InOneGroup(h: Stacks, events: seq<Delta>, allowMerge: bool): (r: Stacks)
    requires h.lastOpen ==> h.undo != []
    ensures r.undo != []
  {
    if allowMerge && h.lastOpen then
      var top := |h.undo| - 1;
      h.(undo := h.undo[..top] + [Group(h.undo[top].id, h.undo[top].deltas + events)])
    else
      h.(undo := h.undo + [Group(h.maxRev + 1, events)], rev := h.maxRev + 1, maxRev := h.maxRev + 1, lastOpen := true)
  }

  lemma AddDeltaGroups(h: Stacks, x: Delta, allowMerge: bool)
    requires h.lastOpen ==> h.undo != []
    ensures AddDelta(h, x, allowMerge) == InOneGroup(h, [x], allowMerge) && AddDelta(h, x, allowMerge).lastOpen
  {
    if allowMerge && h.lastOpen {
      var top := |h.undo| - 1;
      var g := Group(h.undo[top].id, h.undo[top].deltas + [x]);
      assert h.undo[top := g] == h.undo[..top] + [g];
    }
  }

  lemma MergedIntoGroup(h: Stacks, x: Delta, rest: seq<Delta>, allowMerge: bool)
    requires h.lastOpen ==> h.undo != []
    ensures var h1 := InOneGroup(h, [x], allowMerge);
            h1.lastOpen ==> InOneGroup(h1, rest, true) == InOneGroup(h, [x] + rest, allowMerge)
  {
    var h1 := InOneGroup(h, [x], allowMerge);
    var top := |h1.undo| - 1;
    if allowMerge && h.lastOpen {
      assert h1.undo[..top] == h.undo[..top];
      assert h.undo[top].deltas + [x] + rest == h.undo[top].deltas + ([x] + rest);
    } else {
      assert h1.undo[..top] == h.undo;
    }
  }

  lemma {:induction false} EventsFormOneGroup(h: Stacks, events: seq<Delta>, allowMerge: bool)
    requires (h.lastOpen ==> h.undo != []) && events != []
    ensures AddAll(h, events, allowMerge) == InOneGroup(h, events, allowMerge)
    decreases |events|
  {
    hide AddDelta, InOneGroup;
    var x, rest := events[0], events[1..];
    assert events == [x] + rest;
    AddDeltaGroups(h, x, allowMerge);
    var h1 := AddDelta(h, x, allowMerge);
    if rest == [] {
      AddNothing(h1, true);
      assert events == [x];
    } else {
      EventsFormOneGroup(h1, rest, true);
      MergedIntoGroup(h, x, rest, allowMerge);
    }
  }

  /** The document in which the group began that the next mergeable edit goes to. */
  ghost function GroupBegin(base: Text, s: State, allowMerge: bool): Text
    requires Inv(base, s)
  {
    if allowMerge && s.stacks.lastOpen then
      UndoneTop(base, s);
      Run(base, Flatten(s.stacks.undo[..|s.stacks.undo| - 1]))
    else s.doc
  }

  /** One undo takes back one edit with all its events, and everything else of the group it went to:
      the document is again the one in which that group began. */
  lemma OneUndoTakesBackGroup(base: Text, s: State, events: seq<Delta>, allowMerge: bool)
    requires Inv(base, s) && events != []
    requires ValidRun(s.doc, events) && forall i :: 0 <= i < |events| ==> Proper(events[i])
    ensures AllEnabled(s, EditSteps(events, allowMerge))
    ensures var t := Exec(s, EditSteps(events, allowMerge));
            && Enabled(t, Undo) && Next(t, Undo).doc == GroupBegin(base, s, allowMerge)
            && Next(t, Undo).stacks.undo
               == if allowMerge && s.stacks.lastOpen then s.stacks.undo[..|s.stacks.undo| - 1] else s.stacks.undo
  {
    hide AllEnabled, Exec, EditSteps, AddAll, ValidRun, Run, Flatten, InOneGroup, UndoTop, Inv, GroupBegin;
    OpenHasTop(base, s);
    ExecEditSteps(s, events, allowMerge);
    var steps := EditSteps(events, allowMerge);
    SessionKeepsInv(base, s, steps);
    EventsFormOneGroup(s.stacks, events, allowMerge);
    GroupTakenBack(base, s, Exec(s, steps), events, allowMerge);
  }

  lemma GroupTakenBack(base: Text, s: State, t: State, events: seq<Delta>, allowMerge: bool)
    requires Inv(base, s) && Inv(base, t) && (s.stacks.lastOpen ==> s.stacks.undo != [])
    requires t.stacks == InOneGroup(s.stacks, events, allowMerge)
    ensures Enabled(t, Undo) && Next(t, Undo).doc == GroupBegin(base, s, allowMerge)
    ensures Next(t, Undo).stacks.undo
            == if allowMerge && s.stacks.lastOpen then s.stacks.undo[..|s.stacks.undo| - 1] else s.stacks.undo
  {
    hide ValidRun, Run, Flatten, StacksOk, Timeline, Inverses;
    UndoKeepsInv(base, t);
    UndoneTop(base, t);
    if allowMerge && s.stacks.lastOpen { UndoneTop(base, s); }
    var rest := if allowMerge && s.stacks.lastOpen then s.stacks.undo[..|s.stacks.undo| - 1] else s.stacks.undo;
    assert t.stacks.undo[..|t.stacks.undo| - 1] == rest;
  }

  lemma OpenHasTop(base: Text, s: State)
    requires Inv(base, s)
    ensures s.stacks.lastOpen ==> s.stacks.undo != []
  {
  }
}
