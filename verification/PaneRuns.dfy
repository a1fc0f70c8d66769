/** What whole sequences of splits and closes of `src/paneTree.ts` do. */
module PaneRuns {
  import opened Options
  import opened PaneTree
  import opened PaneEdit

  // ------------------------------------------------- closing what was opened

  /** The tree with the split that runs `vertical` and directly holds the leaf
      `target` evened out; nothing else is touched. */
  function Reevened(t: PaneNode, target: PaneId, vertical: bool): PaneNode
    decreases t
  {
    match t
    case Leaf(_, _, _, _, _) => t
    case Split(_, way, _, children) =>
      if way == vertical && LeafIndex(children, target).Some? then t.(ratios := EvenRatios(|children|))
      else t.(children := ReevenedIn(children, target, vertical))
  }

  function ReevenedIn(ts: seq<PaneNode>, target: PaneId, vertical: bool): (out: seq<PaneNode>)
    ensures |out| == |ts|
    decreases ts
  {
    if ts == [] then [] else [Reevened(ts[0], target, vertical)] + ReevenedIn(ts[1..], target, vertical)
  }

  lemma {:induction false} NothingToReeven(t: PaneNode, target: PaneId, vertical: bool)
    requires target !in Leaves(t)
    ensures Reevened(t, target, vertical) == t
    decreases t
  {
    if t.Split? {
      NothingToReevenIn(t.children, target, vertical);
      NoLeafChild(t.children, target);
    }
  }

  lemma {:induction false} NothingToReevenIn(ts: seq<PaneNode>, target: PaneId, vertical: bool)
    requires target !in LeavesOf(ts)
    ensures ReevenedIn(ts, target, vertical) == ts
    decreases ts
  {
    if ts != [] {
      NothingToReeven(ts[0], target, vertical);
      NothingToReevenIn(ts[1..], target, vertical);
    }
  }

  lemma {:induction false} NoLeafChild(ts: seq<PaneNode>, id: PaneId)
    ensures LeafIndex(ts, id).Some? ==> id in LeavesOf(ts)
  {
    if ts != [] {
      NoLeafChild(ts[1..], id);
    }
  }

  lemma {:induction false} LeafIndexAppend(a: seq<PaneNode>, x: PaneNode, c: seq<PaneNode>)
    requires x.Leaf? && x.id !in LeavesOf(a)
    ensures LeafIndex(a + [x] + c, x.id) == Some(|a|)
  {
    var all := a + [x] + c;
    assert all[|a|] == x;
    var at := LeafIndex(all, x.id);
    if at.Some? && at.value < |a| {
      assert IsLeafOf(a[at.value], x.id);
      LeafChildIsLeaf(a, at.value);
    }
  }

  lemma {:induction false} LeafChildIsLeaf(ts: seq<PaneNode>, i: nat)
    requires i < |ts| && ts[i].Leaf?
    ensures ts[i].id in LeavesOf(ts)
  {
    if i > 0 {
      LeafChildIsLeaf(ts[1..], i - 1);
    }
  }

  lemma EvenShare(n: nat, r: real, total: real)
    requires n > 0 && r > 0.0 && total == (n as real) * r
    ensures total > 0.0 && r / total == 1.0 / (n as real)
  {
    assert total / r == n as real;
  }

  lemma NormalizeConst(rs: seq<real>, r: real)
    requires rs != [] && r > 0.0 && forall i :: 0 <= i < |rs| ==> rs[i] == r
    ensures Normalize(rs, |rs|) == EvenRatios(|rs|)
  {
    SumConst(rs, r);
    EvenShare(|rs|, r, Sum(rs));
  }

  lemma DropEven(n: nat, at: nat)
    requires n > 0 && at <= n
    ensures Normalize(DropAt(EvenRatios(n + 1), at), n) == EvenRatios(n)
  {
    NormalizeConst(DropAt(EvenRatios(n + 1), at), EvenRatios(n + 1)[0]);
  }

  lemma DropMiddle<T>(before: seq<T>, x: T, tail: seq<T>)
    ensures DropAt(before + [x] + tail, |before|) == before + tail
  {
  }

  lemma PruneAtIndex(t: PaneNode, id: PaneId, at: nat)
    requires t.Split? && |t.children| >= 3 && LeafIndex(t.children, id) == Some(at)
    ensures Prune(t, id) == t.(children := DropAt(t.children, at), ratios := Normalize(DropAt(t.ratios, at), |t.children| - 1))
  {
    hide LeafIndex, Normalize;
  }

  lemma DropJoined(before: seq<PaneNode>, pane: PaneNode, tail: seq<PaneNode>)
    requires pane.Leaf? && pane.id !in LeavesOf(before + tail)
    ensures LeafIndex(before + [pane] + tail, pane.id) == Some(|before|)
    ensures DropAt(before + [pane] + tail, |before|) == before + tail
  {
    LeavesOfConcat(before, tail);
    hide LeavesOf, LeafIndex, DropAt;
    LeafIndexAppend(before, pane, tail);
    DropMiddle(before, pane, tail);
  }

  /** Closing a pane that joined a split brings its neighbours back, evened. */
  lemma PruneJoined(t: PaneNode, pane: PaneNode, at: nat)
    requires t.Split? && |t.children| >= 2 && at < |t.children| && pane.Leaf? && pane.id !in LeavesOf(t.children)
    ensures var more := t.children[..at + 1] + [pane] + t.children[at + 1..];
            Prune(t.(children := more, ratios := EvenRatios(|more|)), pane.id) == t.(ratios := EvenRatios(|t.children|))
  {
    hide LeavesOf, Normalize, DropAt, Prune, LeafIndex, EvenRatios;
    var before, tail := t.children[..at + 1], t.children[at + 1..];
    assert before + tail == t.children;
    DropJoined(before, pane, tail);
    var more := before + [pane] + tail;
    PruneAtIndex(t.(children := more, ratios := EvenRatios(|more|)), pane.id, |before|);
    DropEven(|t.children|, |before|);
  }

  lemma InsertJoins(t: PaneNode, target: PaneId, vertical: bool, pane: PaneNode, at: nat)
    requires t.Split? && t.vertical == vertical && LeafIndex(t.children, target) == Some(at)
    ensures var more := t.children[..at + 1] + [pane] + t.children[at + 1..];
            Insert(t, target, vertical, pane) == Some(t.(children := more, ratios := EvenRatios(|more|)))
    ensures Reevened(t, target, vertical) == t.(ratios := EvenRatios(|t.children|))
  {
    hide EvenRatios;
  }

  lemma PassedOn(t: PaneNode, target: PaneId, vertical: bool, pane: PaneNode)
    requires t.Split? && (LeafIndex(t.children, target) == None || t.vertical != vertical)
    requires var r := InsertIn(t.children, target, vertical, pane);
             r.Some? ==> PruneIn(r.value, pane.id) == ReevenedIn(t.children, target, vertical) && LeafIndex(r.value, pane.id) == None
    ensures var r := Insert(t, target, vertical, pane);
            r.Some? ==> r.value.Split? && Prune(r.value, pane.id) == Reevened(t, target, vertical)
  {
    hide LeafIndex, InsertIn, PruneIn, ReevenedIn, EvenRatios, Normalize, DropAt;
  }

  lemma {:induction false} PruneInserted(t: PaneNode, target: PaneId, vertical: bool, pane: PaneNode)
    requires Branching(t) && pane.Leaf? && pane.id !in Leaves(t) && NodeIds(t)[target] <= 1
    ensures var r := Insert(t, target, vertical, pane);
            r.Some? ==> r.value.Split? && Prune(r.value, pane.id) == Reevened(t, target, vertical)
    decreases t
  {
    if t.Split? {
      var at := LeafIndex(t.children, target);
      if at.Some? && t.vertical == vertical {
        InsertJoins(t, target, vertical, pane, at.value);
        hide Insert, Reevened, Prune, LeafIndex, EvenRatios, LeavesOf, Branching, NodeIds;
        assert pane.id !in LeavesOf(t.children);
        PruneJoined(t, pane, at.value);
      } else {
        PruneInsertedIn(t.children, target, vertical, pane);
        PassedOn(t, target, vertical, pane);
      }
    }
  }

  lemma {:induction false} PruneInsertedIn(ts: seq<PaneNode>, target: PaneId, vertical: bool, pane: PaneNode)
    requires BranchingAll(ts) && pane.Leaf? && pane.id !in LeavesOf(ts) && NodeIdsOf(ts)[target] <= 1
    ensures var r := InsertIn(ts, target, vertical, pane);
            r.Some? ==> PruneIn(r.value, pane.id) == ReevenedIn(ts, target, vertical) && LeafIndex(r.value, pane.id) == None
    decreases ts
  {
    if ts != [] {
      OnceInHead(ts, target);
      PruneInserted(ts[0], target, vertical, pane);
      PruneInsertedIn(ts[1..], target, vertical, pane);
      InsertFacts(ts[0], target, vertical, pane);
      InsertInFacts(ts[1..], target, vertical, pane);
      var r := Insert(ts[0], target, vertical, pane);
      if r.Some? {
        FindLeafFinds(r.value, pane.id);
        InsertedIsLeaf(Leaves(ts[0]), target, pane.id);
        NothingToReevenIn(ts[1..], target, vertical);
        NoLeafChild(ts[1..], pane.id);
        assert ([r.value] + ts[1..])[1..] == ts[1..];
      } else {
        var rest := InsertIn(ts[1..], target, vertical, pane);
        if rest.Some? {
          FindLeafFinds(ts[0], pane.id);
          HeadIsNotReevened(ts, target, vertical);
          assert ([ts[0]] + rest.value)[1..] == rest.value;
        }
      }
    }
  }

  lemma HeadIsNotReevened(ts: seq<PaneNode>, target: PaneId, vertical: bool)
    requires ts != [] && NodeIdsOf(ts)[target] <= 1 && target in LeavesOf(ts[1..])
    ensures Reevened(ts[0], target, vertical) == ts[0]
  {
    OnceInHead(ts, target);
    NothingToReeven(ts[0], target, vertical);
  }

  lemma {:induction false} InsertedIsLeaf(xs: seq<PaneId>, a: PaneId, b: PaneId)
    requires a in xs
    ensures b in InsertAfter(xs, a, b)
  {
    if xs[0] != a {
      InsertedIsLeaf(xs[1..], a, b);
    }
  }

  lemma {:induction false} PruneWrapped(t: PaneNode, target: PaneId, found: PaneNode, wrapper: PaneNode, pane: PaneNode)
    requires t.Split? && Branching(t) && pane.Leaf? && pane.id !in Leaves(t) && NodeIds(t)[target] <= 1
    requires FindLeaf(t, target) == Some(found)
    requires wrapper.Split? && wrapper.children == [found, pane] && |wrapper.ratios| == 2
    ensures var r := ReplaceLeaf(t, target, wrapper); r.Split? && Prune(r, pane.id) == t
    decreases t
  {
    PruneWrappedIn(t.children, target, found, wrapper, pane);
  }

  lemma {:induction false} PruneWrappedIn(ts: seq<PaneNode>, target: PaneId, found: PaneNode, wrapper: PaneNode, pane: PaneNode)
    requires BranchingAll(ts) && pane.Leaf? && pane.id !in LeavesOf(ts) && NodeIdsOf(ts)[target] <= 1
    requires FindLeafIn(ts, target) == Some(found)
    requires wrapper.Split? && wrapper.children == [found, pane] && |wrapper.ratios| == 2
    ensures var r := ReplaceLeafIn(ts, target, wrapper);
            PruneIn(r, pane.id) == ts && LeafIndex(r, pane.id) == None
    decreases ts
  {
    OnceInHead(ts, target);
    FindLeafFinds(ts[0], target);
    FindLeafInFinds(ts[1..], target);
    TwoLeaves(found, pane);
    BranchingParts(ts);
    hide Prune, Branching, BranchingAll, Leaves, FindLeaf, ReplaceLeaf, NodeIds;
    var head, tail := ReplaceLeaf(ts[0], target, wrapper), ReplaceLeafIn(ts[1..], target, wrapper);
    assert ts == [ts[0]] + ts[1..];
    if target in Leaves(ts[0]) {
      ReplaceNothingIn(ts[1..], target, wrapper);
      NoLeafChild(ts[1..], pane.id);
      if ts[0].Leaf? {
        WrapsLeaf(ts[0], target, wrapper);
        PruneWrapper(found, wrapper, pane);
      } else {
        PruneWrapped(ts[0], target, found, wrapper, pane);
        HoldsPane(ts[0], target, wrapper, pane.id);
      }
      FindLeafFinds(head, pane.id);
      hide LeavesOf, NodeIdsOf, FindLeafIn, ReplaceLeafIn;
      PruneInCons(head, tail, pane.id);
    } else {
      ReplaceNothing(ts[0], target, wrapper);
      FindLeafFinds(ts[0], pane.id);
      PruneWrappedIn(ts[1..], target, found, wrapper, pane);
      hide LeavesOf, NodeIdsOf, FindLeafIn, ReplaceLeafIn;
      PruneInCons(head, tail, pane.id);
    }
  }

  lemma PruneInCons(head: PaneNode, tail: seq<PaneNode>, id: PaneId)
    ensures PruneIn([head] + tail, id)
         == if head.Leaf? || FindLeaf(head, id) == None then [head] + PruneIn(tail, id) else [Prune(head, id)] + tail
    ensures LeafIndex([head] + tail, id) == None <==> !IsLeafOf(head, id) && LeafIndex(tail, id) == None
  {
    assert ([head] + tail)[1..] == tail;
  }

  lemma BranchingParts(ts: seq<PaneNode>)
    requires BranchingAll(ts) && ts != []
    ensures Branching(ts[0]) && BranchingAll(ts[1..])
  {
  }

  lemma WrapsLeaf(leaf: PaneNode, target: PaneId, wrapper: PaneNode)
    requires leaf.Leaf? && target in Leaves(leaf)
    ensures ReplaceLeaf(leaf, target, wrapper) == wrapper && FindLeaf(leaf, target) == Some(leaf)
  {
  }

  lemma PruneWrapper(found: PaneNode, wrapper: PaneNode, pane: PaneNode)
    requires found.Leaf? && pane.Leaf? && pane.id != found.id
    requires wrapper.Split? && wrapper.children == [found, pane] && |wrapper.ratios| == 2
    ensures Prune(wrapper, pane.id) == found && pane.id in Leaves(wrapper)
  {
    assert LeafIndex([found, pane], pane.id) == Some(1);
    assert DropAt([found, pane], 1) == [found];
    TwoLeaves(found, pane);
  }

  lemma {:induction false} HoldsPane(t: PaneNode, target: PaneId, wrapper: PaneNode, pane: PaneId)
    requires target in Leaves(t) && pane in Leaves(wrapper)
    ensures pane in Leaves(ReplaceLeaf(t, target, wrapper))
    decreases t
  {
    if t.Split? {
      HoldsPaneIn(t.children, target, wrapper, pane);
    }
  }

  lemma {:induction false} HoldsPaneIn(ts: seq<PaneNode>, target: PaneId, wrapper: PaneNode, pane: PaneId)
    requires target in LeavesOf(ts) && pane in Leaves(wrapper)
    ensures pane in LeavesOf(ReplaceLeafIn(ts, target, wrapper))
    decreases ts
  {
    if target in Leaves(ts[0]) {
      HoldsPane(ts[0], target, wrapper, pane);
    } else {
      HoldsPaneIn(ts[1..], target, wrapper, pane);
    }
  }

  /** Closing the pane a split just opened restores the tree, except that a
      split it joined is left with even shares. */
  lemma RemoveUndoesSplit(t: PaneNode, target: PaneId, vertical: bool, newId: PaneId, newCwd: Option<string>)
    requires Branching(t) && Distinct(t) && newId !in Leaves(t) && target in Leaves(t)
    ensures RemovePane(SplitPane(t, target, vertical, newId, newCwd), newId)
         == if Insert(t, target, vertical, FreshLeaf(newId, newCwd)).Some? then Reevened(t, target, vertical) else t
  {
    var pane := FreshLeaf(newId, newCwd);
    var r := SplitPane(t, target, vertical, newId, newCwd);
    FindLeafFinds(t, target);
    SplitInserts(t, target, vertical, newId, newCwd);
    InsertedIsLeaf(Leaves(t), target, newId);
    FindLeafFinds(r, newId);
    if Insert(t, target, vertical, pane).Some? {
      PruneInserted(t, target, vertical, pane);
    } else {
      var found := FindLeaf(t, target).value;
      var wrapper := Wrapper(found, vertical, pane);
      if t.Leaf? {
        PruneWrapper(found, wrapper, pane);
      } else {
        PruneWrapped(t, target, found, wrapper, pane);
      }
    }
  }

  // -------------------------------------------- same-way splits stay one row

  /** One split of `n` leaves sharing evenly. */
  predicate EvenRow(t: PaneNode, vertical: bool, n: nat) {
    && t.Split? && t.vertical == vertical
    && |t.children| == n && t.ratios == EvenRatios(n)
    && forall i :: 0 <= i < n ==> t.children[i].Leaf?
  }

  lemma {:induction false} LeafChildrenAreLeaves(ts: seq<PaneNode>, id: PaneId)
    requires forall i :: 0 <= i < |ts| ==> ts[i].Leaf?
    ensures id in LeavesOf(ts) <==> LeafIndex(ts, id).Some?
  {
    if ts != [] {
      LeafChildrenAreLeaves(ts[1..], id);
    }
  }

  lemma EvenRowGrows(t: PaneNode, vertical: bool, n: nat, target: PaneId, newId: PaneId)
    requires EvenRow(t, vertical, n) && target in Leaves(t)
    ensures EvenRow(SplitPane(t, target, vertical, newId, None), vertical, n + 1)
  {
    LeafChildrenAreLeaves(t.children, target);
    FindLeafFinds(t, target);
  }

  /** Splitting pane after pane the same way, each time some pane there is. */
  function SplitAll(t: PaneNode, vertical: bool, panes: seq<(PaneId, PaneId)>): PaneNode
    decreases |panes|
  {
    if panes == [] then t
    else SplitAll(SplitPane(t, panes[0].0, vertical, panes[0].1, None), vertical, panes[1..])
  }

  predicate TargetsExist(t: PaneNode, vertical: bool, panes: seq<(PaneId, PaneId)>)
    decreases |panes|
  {
    panes == [] ||
    (panes[0].0 in Leaves(t) && TargetsExist(SplitPane(t, panes[0].0, vertical, panes[0].1, None), vertical, panes[1..]))
  }

  lemma {:induction false} SameWaySplitsStayFlat(t: PaneNode, vertical: bool, n: nat, panes: seq<(PaneId, PaneId)>)
    requires EvenRow(t, vertical, n) && TargetsExist(t, vertical, panes)
    ensures EvenRow(SplitAll(t, vertical, panes), vertical, n + |panes|)
    decreases |panes|
  {
    if panes != [] {
      EvenRowGrows(t, vertical, n, panes[0].0, panes[0].1);
      SameWaySplitsStayFlat(SplitPane(t, panes[0].0, vertical, panes[0].1, None), vertical, n + 1, panes[1..]);
    }
  }

  /** Any `k` same-direction splits of a single terminal give one split of
      `k + 1` equal shares, however they pick their targets. */
  lemma SameWaySplitsAreEven(first: PaneNode, vertical: bool, panes: seq<(PaneId, PaneId)>)
    requires first.Leaf? && panes != [] && TargetsExist(first, vertical, panes)
    ensures EvenRow(SplitAll(first, vertical, panes), vertical, |panes| + 1)
  {
    var row := SplitPane(first, panes[0].0, vertical, panes[0].1, None);
    assert EvenRatios(2) == [0.5, 0.5];
    SameWaySplitsStayFlat(row, vertical, 2, panes[1..]);
  }
}
