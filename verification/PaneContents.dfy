/** What the panes hold while the tree around them changes: the working directory,
    profile and terminal of every leaf through `splitPane` and `removePane` of
    `src/paneTree.ts`. */
module PaneContents {
  import opened Options
  import opened PaneTree
  import opened PaneEdit
  import opened PaneResize

  lemma {:induction false} HoldsInConcat(a: seq<PaneNode>, c: seq<PaneNode>, x: PaneNode)
    ensures HoldsIn(a + c, x) <==> HoldsIn(a, x) || HoldsIn(c, x)
  {
    if a == [] {
      assert a + c == c;
    } else {
      HoldsInConcat(a[1..], c, x);
      assert (a + c)[1..] == a[1..] + c;
    }
  }

  lemma HoldsInOne(t: PaneNode, x: PaneNode)
    ensures HoldsIn([t], x) <==> Holds(t, x)
  {
    assert [t][1..] == [];
  }

  // ------------------------------------------------------------------ split

  lemma {:induction false} InsertHolds(t: PaneNode, target: PaneId, vertical: bool, pane: PaneNode, x: PaneNode)
    requires x.Leaf? && pane.Leaf?
    ensures var r := Insert(t, target, vertical, pane); r.Some? ==> (Holds(r.value, x) <==> Holds(t, x) || x == pane)
    decreases t
  {
    if t.Split? {
      var at := LeafIndex(t.children, target);
      if at.Some? && t.vertical == vertical {
        var before, tail := t.children[..at.value + 1], t.children[at.value + 1..];
        assert t.children == before + tail;
        HoldsInConcat(before, tail, x);
        HoldsInConcat(before + [pane], tail, x);
        HoldsInConcat(before, [pane], x);
        HoldsInOne(pane, x);
      } else {
        InsertInHolds(t.children, target, vertical, pane, x);
      }
    }
  }

  lemma {:induction false} InsertInHolds(ts: seq<PaneNode>, target: PaneId, vertical: bool, pane: PaneNode, x: PaneNode)
    requires x.Leaf? && pane.Leaf?
    ensures var r := InsertIn(ts, target, vertical, pane); r.Some? ==> (HoldsIn(r.value, x) <==> HoldsIn(ts, x) || x == pane)
    decreases ts
  {
    if ts != [] {
      InsertHolds(ts[0], target, vertical, pane, x);
      InsertInHolds(ts[1..], target, vertical, pane, x);
      var r, rest := Insert(ts[0], target, vertical, pane), InsertIn(ts[1..], target, vertical, pane);
      if r.Some? {
        assert ([r.value] + ts[1..])[1..] == ts[1..];
      } else if rest.Some? {
        assert ([ts[0]] + rest.value)[1..] == rest.value;
      }
    }
  }

  lemma {:induction false} ReplaceLeafHolds(t: PaneNode, target: PaneId, next: PaneNode, x: PaneNode)
    requires x.Leaf?
    ensures Holds(ReplaceLeaf(t, target, next), x) <==> (Holds(t, x) && x.id != target) || (target in Leaves(t) && Holds(next, x))
    decreases t
  {
    if t.Split? {
      ReplaceLeafInHolds(t.children, target, next, x);
    }
  }

  lemma {:induction false} ReplaceLeafInHolds(ts: seq<PaneNode>, target: PaneId, next: PaneNode, x: PaneNode)
    requires x.Leaf?
    ensures HoldsIn(ReplaceLeafIn(ts, target, next), x)
       <==> (HoldsIn(ts, x) && x.id != target) || (target in LeavesOf(ts) && Holds(next, x))
    decreases ts
  {
    if ts != [] {
      ReplaceLeafHolds(ts[0], target, next, x);
      ReplaceLeafInHolds(ts[1..], target, next, x);
      var head, tail := ReplaceLeaf(ts[0], target, next), ReplaceLeafIn(ts[1..], target, next);
      assert ([head] + tail)[1..] == tail;
    }
  }

  /** The leaf found under an id is the one leaf of that id. */
  lemma {:induction false} OnlyLeaf(t: PaneNode, x: PaneNode)
    requires x.Leaf? && Holds(t, x) && NodeIds(t)[x.id] <= 1
    ensures FindLeaf(t, x.id) == Some(x)
    decreases t
  {
    if t.Split? {
      OnlyLeafIn(t.children, x);
    }
  }

  lemma {:induction false} OnlyLeafIn(ts: seq<PaneNode>, x: PaneNode)
    requires x.Leaf? && HoldsIn(ts, x) && NodeIdsOf(ts)[x.id] <= 1
    ensures FindLeafIn(ts, x.id) == Some(x)
    decreases ts
  {
    if Holds(ts[0], x) {
      OnlyLeaf(ts[0], x);
    } else {
      HeldIsNodeIn(ts[1..], x);
      LeavesAreNodes(ts[0]);
      FindLeafFinds(ts[0], x.id);
      assert multiset(Leaves(ts[0]))[x.id] == 0;
      OnlyLeafIn(ts[1..], x);
    }
  }

  lemma {:induction false} FoundIsHeld(t: PaneNode, id: PaneId)
    ensures FindLeaf(t, id).Some? ==> Holds(t, FindLeaf(t, id).value)
    decreases t
  {
    if t.Split? {
      FoundInIsHeld(t.children, id);
    }
  }

  lemma {:induction false} FoundInIsHeld(ts: seq<PaneNode>, id: PaneId)
    ensures FindLeafIn(ts, id).Some? ==> HoldsIn(ts, FindLeafIn(ts, id).value)
    decreases ts
  {
    if ts != [] {
      FoundIsHeld(ts[0], id);
      FoundInIsHeld(ts[1..], id);
    }
  }

  lemma WrapperHolds(found: PaneNode, vertical: bool, pane: PaneNode, x: PaneNode)
    requires x.Leaf? && found.Leaf? && pane.Leaf?
    ensures Holds(Wrapper(found, vertical, pane), x) <==> x == found || x == pane
  {
    assert [found, pane] == [found] + [pane];
    HoldsInConcat([found], [pane], x);
    HoldsInOne(found, x);
    HoldsInOne(pane, x);
    hide HoldsIn;
  }

  /** A split leaves every pane as it was; the new one has the directory it is given,
      and neither a terminal nor a profile nor a command yet. */
  lemma SplitKeepsContents(t: PaneNode, target: PaneId, vertical: bool, newId: PaneId, newCwd: Option<string>, x: PaneNode)
    requires Distinct(t) && x.Leaf?
    ensures Holds(SplitPane(t, target, vertical, newId, newCwd), x)
       <==> Holds(t, x) || (target in Leaves(t) && x == Leaf(newId, None, newCwd, None, None))
  {
    var pane := FreshLeaf(newId, newCwd);
    FindLeafFinds(t, target);
    var found := FindLeaf(t, target);
    if found.Some? {
      InsertHolds(t, target, vertical, pane, x);
      ReplaceLeafHolds(t, target, Wrapper(found.value, vertical, pane), x);
      WrapperHolds(found.value, vertical, pane, x);
      FoundIsHeld(t, target);
      assert NodeIds(t)[target] <= 1;
      if Holds(t, x) && x.id == target {
        OnlyLeaf(t, x);
      }
    }
    hide Insert, ReplaceLeaf, Holds, FindLeaf, Wrapper, Leaves;
  }

  // ----------------------------------------------------------------- remove

  lemma {:induction false} PruneHolds(t: PaneNode, id: PaneId, x: PaneNode)
    requires x.Leaf? && t.Split? && Branching(t) && NodeIds(t)[id] <= 1 && id in Leaves(t)
    ensures Holds(Prune(t, id), x) <==> Holds(t, x) && x.id != id
    decreases t
  {
    var at := LeafIndex(t.children, id);
    if at.Some? {
      PruneHereHolds(t, id, at.value, x);
    } else {
      PruneInHolds(t.children, id, x);
    }
  }

  lemma PruneHereHolds(t: PaneNode, id: PaneId, at: nat, x: PaneNode)
    requires x.Leaf? && t.Split? && Branching(t) && NodeIds(t)[id] <= 1 && LeafIndex(t.children, id) == Some(at)
    ensures Holds(Prune(t, id), x) <==> Holds(t, x) && x.id != id
  {
    var before, tail := t.children[..at], t.children[at + 1..];
    var kept := before + tail;
    assert DropAt(t.children, at) == kept && t.children == before + [t.children[at]] + tail;
    HoldsInConcat(before + [t.children[at]], tail, x);
    HoldsInConcat(before, [t.children[at]], x);
    HoldsInConcat(before, tail, x);
    HoldsInOne(t.children[at], x);
    NotAmong(t.children, before, at, tail, x);
    if |kept| == 1 {
      assert kept == [kept[0]];
      HoldsInOne(kept[0], x);
    }
  }

  lemma NotAmong(ts: seq<PaneNode>, before: seq<PaneNode>, at: nat, tail: seq<PaneNode>, x: PaneNode)
    requires at < |ts| && ts[at].Leaf? && before == ts[..at] && tail == ts[at + 1..] && NodeIdsOf(ts)[ts[at].id] <= 1
    ensures x.id == ts[at].id ==> !HoldsIn(before, x) && !HoldsIn(tail, x)
  {
    CutAtLeaf(ts, ts[at].id, at);
    if x.id == ts[at].id && HoldsIn(before, x) {
      HeldIsNodeIn(before, x);
    }
    if x.id == ts[at].id && HoldsIn(tail, x) {
      HeldIsNodeIn(tail, x);
    }
  }

  lemma {:induction false} PruneInHolds(ts: seq<PaneNode>, id: PaneId, x: PaneNode)
    requires x.Leaf? && BranchingAll(ts) && NodeIdsOf(ts)[id] <= 1 && id in LeavesOf(ts)
    requires forall i :: 0 <= i < |ts| ==> !IsLeafOf(ts[i], id)
    ensures HoldsIn(PruneIn(ts, id), x) <==> HoldsIn(ts, x) && x.id != id
    decreases ts
  {
    OnceInHead(ts, id);
    FindLeafFinds(ts[0], id);
    if id in Leaves(ts[0]) {
      PruneHolds(ts[0], id, x);
      assert ([Prune(ts[0], id)] + ts[1..])[1..] == ts[1..];
      LeavesAreNodes(ts[0]);
      assert multiset(Leaves(ts[0]))[id] >= 1;
      if HoldsIn(ts[1..], x) && x.id == id {
        HeldIsNodeIn(ts[1..], x);
      }
    } else {
      PruneInHolds(ts[1..], id, x);
      assert ([ts[0]] + PruneIn(ts[1..], id))[1..] == PruneIn(ts[1..], id);
      LeavesOfAreNodes(ts[1..]);
      assert multiset(LeavesOf(ts[1..]))[id] >= 1;
      if Holds(ts[0], x) && x.id == id {
        HeldIsNode(ts[0], x);
      }
    }
  }

  /** Closing a pane leaves every other as it was. */
  lemma RemoveKeepsContents(t: PaneNode, id: PaneId, x: PaneNode)
    requires Branching(t) && Distinct(t) && x.Leaf?
    ensures Holds(RemovePane(t, id), x) <==> Holds(t, x) && (id in Leaves(t) && t.Split? ==> x.id != id)
  {
    FindLeafFinds(t, id);
    if id in Leaves(t) && t.Split? {
      assert NodeIds(t)[id] <= 1;
      PruneHolds(t, id, x);
    }
  }
}
