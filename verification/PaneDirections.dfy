/** Rows in columns in rows: which edits of `src/paneTree.ts` keep the
    directions of nested splits alternating, and exactly when one does not. */
module PaneDirections {
  import opened Options
  import opened PaneTree
  import opened PaneEdit
  import opened PaneRuns

  /** No split lies directly in a split that runs the same way. */
  predicate Alternating(t: PaneNode)
    decreases t
  {
    match t
    case Leaf(_, _, _, _, _) => true
    case Split(_, way, _, children) => AlternatingIn(children, way)
  }

  predicate AlternatingIn(ts: seq<PaneNode>, way: bool)
    decreases ts
  {
    ts == [] || ((ts[0].Split? ==> ts[0].vertical != way) && Alternating(ts[0]) && AlternatingIn(ts[1..], way))
  }

  lemma TwoAlternate(a: PaneNode, c: PaneNode, way: bool)
    requires Alternating(a) && (a.Split? ==> a.vertical != way)
    requires Alternating(c) && (c.Split? ==> c.vertical != way)
    ensures AlternatingIn([a, c], way)
  {
    assert [a, c][1..] == [c] && [c][1..] == [];
    assert AlternatingIn([c], way);
  }

  lemma {:induction false} AlternatingConcat(a: seq<PaneNode>, c: seq<PaneNode>, way: bool)
    ensures AlternatingIn(a + c, way) <==> AlternatingIn(a, way) && AlternatingIn(c, way)
  {
    if a == [] {
      assert a + c == c;
    } else {
      AlternatingConcat(a[1..], c, way);
      assert (a + c)[1..] == a[1..] + c;
    }
  }

  lemma {:induction false} InsertAlternates(t: PaneNode, target: PaneId, vertical: bool, pane: PaneNode)
    requires Alternating(t) && pane.Leaf?
    ensures var r := Insert(t, target, vertical, pane);
            r.Some? ==> Alternating(r.value) && r.value.Split? && t.Split? && r.value.vertical == t.vertical
    decreases t
  {
    if t.Split? {
      var at := LeafIndex(t.children, target);
      if at.Some? && t.vertical == vertical {
        var before, tail := t.children[..at.value + 1], t.children[at.value + 1..];
        assert t.children == before + tail;
        AlternatingConcat(before, tail, t.vertical);
        AlternatingConcat(before + [pane], tail, t.vertical);
        AlternatingConcat(before, [pane], t.vertical);
        assert [pane][1..] == [];
      } else {
        InsertInAlternates(t.children, t.vertical, target, vertical, pane);
      }
    }
  }

  lemma {:induction false} InsertInAlternates(ts: seq<PaneNode>, way: bool, target: PaneId, vertical: bool, pane: PaneNode)
    requires AlternatingIn(ts, way) && pane.Leaf?
    ensures var r := InsertIn(ts, target, vertical, pane);
            r.Some? ==> AlternatingIn(r.value, way)
    decreases ts
  {
    if ts != [] {
      InsertAlternates(ts[0], target, vertical, pane);
      InsertInAlternates(ts[1..], way, target, vertical, pane);
      var r := Insert(ts[0], target, vertical, pane);
      if r.Some? {
        assert ([r.value] + ts[1..])[1..] == ts[1..];
      } else {
        var rest := InsertIn(ts[1..], target, vertical, pane);
        if rest.Some? {
          assert ([ts[0]] + rest.value)[1..] == rest.value;
        }
      }
    }
  }

  lemma {:induction false} WrapAlternates(t: PaneNode, target: PaneId, wrapper: PaneNode, pane: PaneNode)
    requires Alternating(t) && Alternating(wrapper) && wrapper.Split?
    requires Insert(t, target, wrapper.vertical, pane) == None
    ensures Alternating(ReplaceLeaf(t, target, wrapper))
    decreases t
  {
    if t.Split? {
      WrapInAlternates(t.children, t.vertical, target, wrapper, pane);
    }
  }

  lemma {:induction false} WrapInAlternates(ts: seq<PaneNode>, way: bool, target: PaneId, wrapper: PaneNode, pane: PaneNode)
    requires AlternatingIn(ts, way) && Alternating(wrapper) && wrapper.Split?
    requires InsertIn(ts, target, wrapper.vertical, pane) == None
    requires LeafIndex(ts, target) == None || wrapper.vertical != way
    ensures AlternatingIn(ReplaceLeafIn(ts, target, wrapper), way)
    decreases ts
  {
    if ts != [] {
      WrapAlternates(ts[0], target, wrapper, pane);
      WrapInAlternates(ts[1..], way, target, wrapper, pane);
      var head, tail := ReplaceLeaf(ts[0], target, wrapper), ReplaceLeafIn(ts[1..], target, wrapper);
      assert ([head] + tail)[1..] == tail;
      if LeafIndex(ts, target) == None {
        assert !IsLeafOf(ts[0], target);
      }
    }
  }

  /** `splitPane` never puts a row directly into a row, nor a column into a column. */
  lemma SplitAlternates(t: PaneNode, target: PaneId, vertical: bool, newId: PaneId, newCwd: Option<string>)
    requires Alternating(t)
    ensures Alternating(SplitPane(t, target, vertical, newId, newCwd))
  {
    var pane := FreshLeaf(newId, newCwd);
    FindLeafFinds(t, target);
    InsertAlternates(t, target, vertical, pane);
    if target in Leaves(t) && Insert(t, target, vertical, pane) == None {
      var found := FindLeaf(t, target).value;
      var wrapper := Wrapper(found, vertical, pane);
      TwoAlternate(found, pane, vertical);
      WrapAlternates(t, target, wrapper, pane);
    }
  }

  /** Closing the leaf lifts a split out of a two-child split below the root. */
  predicate LiftsSplit(t: PaneNode, id: PaneId)
    decreases t
  {
    t.Split? && LiftsSplitIn(t.children, id)
  }

  predicate LiftsSplitIn(ts: seq<PaneNode>, id: PaneId)
    decreases ts
  {
    ts != [] && (CollapsesToSplit(ts[0], id) || LiftsSplit(ts[0], id) || LiftsSplitIn(ts[1..], id))
  }

  predicate CollapsesToSplit(t: PaneNode, id: PaneId) {
    t.Split? && |t.children| == 2 &&
    var at := LeafIndex(t.children, id);
    at.Some? && t.children[1 - at.value].Split?
  }

  lemma {:induction false} AlternatingAt(ts: seq<PaneNode>, way: bool, i: nat)
    requires AlternatingIn(ts, way) && i < |ts|
    ensures Alternating(ts[i]) && (ts[i].Split? ==> ts[i].vertical != way)
  {
    if i > 0 {
      AlternatingAt(ts[1..], way, i - 1);
    }
  }

  /** No leaf, no lift. */
  lemma {:induction false} LiftNeedsLeaf(t: PaneNode, id: PaneId)
    requires id !in Leaves(t)
    ensures !LiftsSplit(t, id) && !CollapsesToSplit(t, id)
    decreases t
  {
    if t.Split? {
      LiftInNeedsLeaf(t.children, id);
      NoLeafChild(t.children, id);
    }
  }

  lemma {:induction false} LiftInNeedsLeaf(ts: seq<PaneNode>, id: PaneId)
    requires id !in LeavesOf(ts)
    ensures !LiftsSplitIn(ts, id)
    decreases ts
  {
    if ts != [] {
      LiftNeedsLeaf(ts[0], id);
      LiftInNeedsLeaf(ts[1..], id);
    }
  }

  lemma NoLiftBesideLeaf(ts: seq<PaneNode>, id: PaneId, at: nat)
    requires at < |ts| && IsLeafOf(ts[at], id) && NodeIdsOf(ts)[id] <= 1
    ensures !LiftsSplitIn(ts, id)
  {
    hide LeavesOf, NodeIdsOf;
    CutAtLeaf(ts, id, at);
    assert ts == ts[..at] + ([ts[at]] + ts[at + 1..]);
    LiftInNeedsLeaf(ts[..at], id);
    LiftInNeedsLeaf(ts[at + 1..], id);
    LiftConcat(ts[..at], [ts[at]] + ts[at + 1..], id);
    LiftConcat([ts[at]], ts[at + 1..], id);
    assert [ts[at]][1..] == [];
  }

  lemma {:induction false} LiftConcat(a: seq<PaneNode>, c: seq<PaneNode>, id: PaneId)
    ensures LiftsSplitIn(a + c, id) <==> LiftsSplitIn(a, id) || LiftsSplitIn(c, id)
  {
    if a == [] {
      assert a + c == c;
    } else {
      LiftConcat(a[1..], c, id);
      assert (a + c)[1..] == a[1..] + c;
    }
  }

  lemma {:induction false} PruneAlternates(t: PaneNode, id: PaneId)
    requires t.Split? && Branching(t) && Alternating(t) && NodeIds(t)[id] <= 1 && id in Leaves(t)
    ensures Alternating(Prune(t, id)) <==> !LiftsSplit(t, id)
    ensures Prune(t, id).Split? && Prune(t, id).vertical != t.vertical ==> CollapsesToSplit(t, id)
    ensures CollapsesToSplit(t, id) ==> Prune(t, id).Split? && Prune(t, id).vertical != t.vertical && !LiftsSplit(t, id)
    decreases t
  {
    var at := LeafIndex(t.children, id);
    if at.Some? {
      NoLiftBesideLeaf(t.children, id, at.value);
      var before, tail := t.children[..at.value], t.children[at.value + 1..];
      assert t.children == before + [t.children[at.value]] + tail;
      AlternatingConcat(before + [t.children[at.value]], tail, t.vertical);
      AlternatingConcat(before, [t.children[at.value]], t.vertical);
      AlternatingConcat(before, tail, t.vertical);
      if |t.children| == 2 {
        AlternatingAt(t.children, t.vertical, 1 - at.value);
      }
    } else {
      PruneInAlternates(t.children, t.vertical, id);
    }
  }

  lemma {:induction false} PruneInAlternates(ts: seq<PaneNode>, way: bool, id: PaneId)
    requires BranchingAll(ts) && AlternatingIn(ts, way) && NodeIdsOf(ts)[id] <= 1 && id in LeavesOf(ts)
    requires forall i :: 0 <= i < |ts| ==> !IsLeafOf(ts[i], id)
    ensures AlternatingIn(PruneIn(ts, id), way) <==> !LiftsSplitIn(ts, id)
    decreases ts
  {
    OnceInHead(ts, id);
    FindLeafFinds(ts[0], id);
    if id in Leaves(ts[0]) {
      PruneAlternates(ts[0], id);
      LiftInNeedsLeaf(ts[1..], id);
      assert ([Prune(ts[0], id)] + ts[1..])[1..] == ts[1..];
    } else {
      LiftNeedsLeaf(ts[0], id);
      PruneInAlternates(ts[1..], way, id);
      assert ([ts[0]] + PruneIn(ts[1..], id))[1..] == PruneIn(ts[1..], id);
    }
  }

  /** `removePane` keeps directions alternating exactly when it does not
      collapse a nested two-child split whose other child is a split. */
  lemma RemoveAlternatesIff(t: PaneNode, id: PaneId)
    requires Branching(t) && Distinct(t) && Alternating(t) && id in Leaves(t)
    ensures Alternating(RemovePane(t, id)) <==> !LiftsSplit(t, id)
  {
    FindLeafFinds(t, id);
    if t.Split? {
      assert NodeIds(t)[id] <= 1;
      PruneAlternates(t, id);
    }
  }

  /** A row of A and a column; in the column B above a row of C and D. */
  function Nested(): PaneNode {
    Split("row", false, [0.5, 0.5], [FreshLeaf("A", None), NestedColumn()])
  }

  function NestedColumn(): PaneNode {
    Split("column", true, [0.5, 0.5], [FreshLeaf("B", None), NestedRow()])
  }

  function NestedRow(): PaneNode {
    Split("inner row", false, [0.5, 0.5], [FreshLeaf("C", None), FreshLeaf("D", None)])
  }

  /** A leaf and a tree in one split. */
  lemma LeafAndTree(a: PaneNode, t: PaneNode, id: PaneId, vertical: bool)
    requires a.Leaf? && Proper(t) && Alternating(t) && (t.Split? ==> t.vertical != vertical)
    ensures var s := Split(id, vertical, [0.5, 0.5], [a, t]);
            && Proper(s) && Alternating(s) && Leaves(s) == [a.id] + Leaves(t)
            && NodeIds(s) == multiset{id, a.id} + NodeIds(t)
  {
    LeafAndTreeShape(a, t, vertical);
    LeafAndTreeIds(a, t);
    hide LeavesOf, NodeIdsOf, ProperAll, AlternatingIn, Sum;
  }

  lemma LeafAndTreeShape(a: PaneNode, t: PaneNode, vertical: bool)
    requires a.Leaf? && Proper(t) && Alternating(t) && (t.Split? ==> t.vertical != vertical)
    ensures ProperAll([a, t]) && AlternatingIn([a, t], vertical) && Distribution([0.5, 0.5])
  {
    SumConst([0.5, 0.5], 0.5);
    TwoAlternate(a, t, vertical);
    OneTree(a);
    OneTree(t);
    ProperAllConcat([a], [t]);
    assert [a] + [t] == [a, t];
  }

  lemma LeafAndTreeIds(a: PaneNode, t: PaneNode)
    requires a.Leaf?
    ensures LeavesOf([a, t]) == [a.id] + Leaves(t) && NodeIdsOf([a, t]) == multiset{a.id} + NodeIds(t)
  {
    OneTree(a);
    OneTree(t);
    LeavesOfConcat([a], [t]);
    NodeIdsOfConcat([a], [t]);
    assert [a] + [t] == [a, t];
  }

  lemma NestedFacts()
    ensures Proper(Nested()) && Alternating(Nested())
    ensures NodeIds(Nested()) == multiset{"row", "A", "column", "B", "inner row", "C", "D"}
    ensures "B" in Leaves(Nested())
  {
    hide NodeIdsOf, LeavesOf, ProperAll, AlternatingIn;
    LeafAndTree(FreshLeaf("C", None), FreshLeaf("D", None), "inner row", false);
    LeafAndTree(FreshLeaf("B", None), NestedRow(), "column", true);
    LeafAndTree(FreshLeaf("A", None), NestedColumn(), "row", false);
  }

  lemma SevenNames(names: multiset<PaneId>)
    requires names == multiset{"row", "A", "column", "B", "inner row", "C", "D"}
    ensures forall id :: names[id] <= 1
  {
  }

  lemma NestedLifts()
    ensures LiftsSplit(Nested(), "B")
  {
    assert LeafIndex(NestedColumn().children, "B") == Some(0);
    assert CollapsesToSplit(NestedColumn(), "B");
    assert Nested().children[1..] == [NestedColumn()];
  }

  /** Closing B leaves the row of C and D directly inside the outer row. */
  lemma RemoveCanNestRows()
    ensures Proper(Nested()) && Distinct(Nested()) && Alternating(Nested())
    ensures !Alternating(RemovePane(Nested(), "B"))
  {
    NestedFacts();
    SevenNames(NodeIds(Nested()));
    NestedLifts();
    ProperIsBranching(Nested());
    hide NodeIds, Leaves, Proper, Branching, Alternating, RemovePane, LiftsSplit, Nested;
    RemoveAlternatesIff(Nested(), "B");
  }
}
