/** Splitting a pane and closing one: `splitPane` and `removePane` of
    `src/paneTree.ts`. */
module PaneEdit {
  import opened Options
  import opened PaneTree

  function FindLeaf(t: PaneNode, id: PaneId): Option<PaneNode>
    decreases t
  {
    match t
    case Leaf(own, _, _, _, _) => if own == id then Some(t) else None
    case Split(_, _, _, children) => FindLeafIn(children, id)
  }

  function FindLeafIn(ts: seq<PaneNode>, id: PaneId): Option<PaneNode>
    decreases ts
  {
    if ts == [] then None
    else
      var hit := FindLeaf(ts[0], id);
      if hit.Some? then hit else FindLeafIn(ts[1..], id)
  }

  /** The tree with every leaf of that id replaced. */
  function ReplaceLeaf(t: PaneNode, id: PaneId, next: PaneNode): PaneNode
    decreases t
  {
    match t
    case Leaf(own, _, _, _, _) => if own == id then next else t
    case Split(_, _, _, children) => t.(children := ReplaceLeafIn(children, id, next))
  }

  function ReplaceLeafIn(ts: seq<PaneNode>, id: PaneId, next: PaneNode): (out: seq<PaneNode>)
    ensures |out| == |ts|
    decreases ts
  {
    if ts == [] then [] else [ReplaceLeaf(ts[0], id, next)] + ReplaceLeafIn(ts[1..], id, next)
  }

  predicate IsLeafOf(t: PaneNode, id: PaneId) { t.Leaf? && t.id == id }

  /** The first child that is the leaf itself. */
  function LeafIndex(ts: seq<PaneNode>, id: PaneId): (at: Option<nat>)
    ensures at.Some? ==> at.value < |ts| && IsLeafOf(ts[at.value], id)
    ensures at.Some? ==> forall i :: 0 <= i < at.value ==> !IsLeafOf(ts[i], id)
    ensures at == None ==> forall i :: 0 <= i < |ts| ==> !IsLeafOf(ts[i], id)
  {
    if ts == [] then None
    else if IsLeafOf(ts[0], id) then Some(0)
    else match LeafIndex(ts[1..], id) { case None => None case Some(i) => Some(i + 1) }
  }

  // ------------------------------------------------------------------ split

  /** The new pane put beside its target in the split that already runs that
      way, or None when no split of `t` both runs that way and holds the target. */
  function Insert(t: PaneNode, target: PaneId, vertical: bool, pane: PaneNode): Option<PaneNode>
    decreases t
  {
    match t
    case Leaf(_, _, _, _, _) => None
    case Split(_, way, _, children) =>
      var at := LeafIndex(children, target);
      if at.Some? && way == vertical then
        var more := children[..at.value + 1] + [pane] + children[at.value + 1..];
        Some(t.(children := more, ratios := EvenRatios(|more|)))
      else
        match InsertIn(children, target, vertical, pane)
        case None => None
        case Some(changed) => Some(t.(children := changed))
  }

  /** The first child that takes the pane is changed, the others are kept. */
  function InsertIn(ts: seq<PaneNode>, target: PaneId, vertical: bool, pane: PaneNode): (out: Option<seq<PaneNode>>)
    ensures out.Some? ==> |out.value| == |ts|
    decreases ts
  {
    if ts == [] then None
    else
      match Insert(ts[0], target, vertical, pane)
      case Some(done) => Some([done] + ts[1..])
      case None =>
        match InsertIn(ts[1..], target, vertical, pane)
        case None => None
        case Some(rest) => Some([ts[0]] + rest)
  }

  /** The id of the split that wraps a leaf and its new neighbour. */
  function WrapperId(target: PaneId, pane: PaneId): PaneId { target + "/" + pane }

  function Wrapper(target: PaneNode, vertical: bool, pane: PaneNode): PaneNode {
    Split(WrapperId(target.id, pane.id), vertical, [0.5, 0.5], [target, pane])
  }

  function SplitPane(t: PaneNode, target: PaneId, vertical: bool, newId: PaneId, newCwd: Option<string>): PaneNode {
    var found, pane := FindLeaf(t, target), FreshLeaf(newId, newCwd);
    if found == None then t
    else
      match Insert(t, target, vertical, pane)
      case Some(joined) => joined
      case None => ReplaceLeaf(t, target, Wrapper(found.value, vertical, pane))
  }

  // ----------------------------------------------------------------- remove

  function DropAt<T>(xs: seq<T>, at: nat): seq<T> {
    if at < |xs| then xs[..at] + xs[at + 1..] else xs
  }

  function Prune(t: PaneNode, id: PaneId): PaneNode
    requires t.Split?
    decreases t
  {
    var at := LeafIndex(t.children, id);
    if at.Some? then
      var children, kept := DropAt(t.children, at.value), DropAt(t.ratios, at.value);
      if |children| == 1 then children[0]
      else t.(children := children, ratios := Normalize(kept, |children|))
    else t.(children := PruneIn(t.children, id))
  }

  /** Only the first child split that holds the leaf is pruned. */
  function PruneIn(ts: seq<PaneNode>, id: PaneId): (out: seq<PaneNode>)
    ensures |out| == |ts|
    decreases ts
  {
    if ts == [] then []
    else if ts[0].Leaf? || FindLeaf(ts[0], id) == None then [ts[0]] + PruneIn(ts[1..], id)
    else [Prune(ts[0], id)] + ts[1..]
  }

  function RemovePane(t: PaneNode, id: PaneId): PaneNode {
    if FindLeaf(t, id) == None || t.Leaf? then t else Prune(t, id)
  }

  // --------------------------------------------------------- leaves and ids

  lemma {:induction false} FindLeafFinds(t: PaneNode, id: PaneId)
    ensures FindLeaf(t, id).Some? <==> id in Leaves(t)
    ensures FindLeaf(t, id).Some? ==> IsLeafOf(FindLeaf(t, id).value, id)
    decreases t
  {
    if t.Split? {
      FindLeafInFinds(t.children, id);
    }
  }

  lemma {:induction false} FindLeafInFinds(ts: seq<PaneNode>, id: PaneId)
    ensures FindLeafIn(ts, id).Some? <==> id in LeavesOf(ts)
    ensures FindLeafIn(ts, id).Some? ==> IsLeafOf(FindLeafIn(ts, id).value, id)
    decreases ts
  {
    if ts != [] {
      FindLeafFinds(ts[0], id);
      FindLeafInFinds(ts[1..], id);
    }
  }

  lemma {:induction false} LeavesOfConcat(a: seq<PaneNode>, c: seq<PaneNode>)
    ensures LeavesOf(a + c) == LeavesOf(a) + LeavesOf(c)
  {
    if a == [] {
      assert a + c == c;
    } else {
      LeavesOfConcat(a[1..], c);
      assert (a + c)[1..] == a[1..] + c;
      assert LeavesOf(a + c) == Leaves(a[0]) + (LeavesOf(a[1..]) + LeavesOf(c));
    }
  }

  lemma Regroup(a: multiset<PaneId>, b: multiset<PaneId>, c: multiset<PaneId>)
    ensures a + (b + c) == a + b + c
  {
  }

  lemma {:induction false} NodeIdsOfConcat(a: seq<PaneNode>, c: seq<PaneNode>)
    ensures NodeIdsOf(a + c) == NodeIdsOf(a) + NodeIdsOf(c)
  {
    if a == [] {
      assert a + c == c;
    } else {
      hide NodeIds;
      NodeIdsOfConcat(a[1..], c);
      assert (a + c)[1..] == a[1..] + c && (a + c)[0] == a[0];
      Regroup(NodeIds(a[0]), NodeIdsOf(a[1..]), NodeIdsOf(c));
    }
  }

  lemma {:induction false} ProperAllConcat(a: seq<PaneNode>, c: seq<PaneNode>)
    ensures ProperAll(a + c) <==> ProperAll(a) && ProperAll(c)
  {
    if a == [] {
      assert a + c == c;
    } else {
      ProperAllConcat(a[1..], c);
      assert (a + c)[1..] == a[1..] + c;
    }
  }

  /** Three stretches of children, the middle one a few leaves. */
  lemma Stretches(before: seq<PaneNode>, mid: seq<PaneNode>, tail: seq<PaneNode>)
    ensures LeavesOf(before + mid + tail) == LeavesOf(before) + LeavesOf(mid) + LeavesOf(tail)
    ensures NodeIdsOf(before + mid + tail) == NodeIdsOf(before) + NodeIdsOf(mid) + NodeIdsOf(tail)
    ensures ProperAll(before + mid + tail) <==> ProperAll(before) && ProperAll(mid) && ProperAll(tail)
  {
    hide LeavesOf, NodeIdsOf, ProperAll;
    LeavesOfConcat(before + mid, tail);
    LeavesOfConcat(before, mid);
    NodeIdsOfConcat(before + mid, tail);
    NodeIdsOfConcat(before, mid);
    ProperAllConcat(before + mid, tail);
    ProperAllConcat(before, mid);
  }

  lemma OneTree(t: PaneNode)
    ensures LeavesOf([t]) == Leaves(t) && NodeIdsOf([t]) == NodeIds(t) && (ProperAll([t]) <==> Proper(t))
  {
    assert [t][1..] == [];
  }

  lemma OneLeaf(a: PaneNode)
    requires a.Leaf?
    ensures LeavesOf([a]) == [a.id] && NodeIdsOf([a]) == multiset{a.id} && ProperAll([a])
  {
    assert [a][1..] == [];
  }

  lemma TwoLeaves(a: PaneNode, c: PaneNode)
    requires a.Leaf? && c.Leaf?
    ensures LeavesOf([a, c]) == [a.id, c.id] && NodeIdsOf([a, c]) == multiset{a.id, c.id} && ProperAll([a, c])
  {
    OneLeaf(c);
    assert [a, c][1..] == [c];
    assert LeavesOf([a, c]) == [a.id] + [c.id];
  }

  /** `xs` with `b` put right after the first `a`. */
  function InsertAfter(xs: seq<PaneId>, a: PaneId, b: PaneId): seq<PaneId> {
    if xs == [] then [] else if xs[0] == a then [a, b] + xs[1..] else [xs[0]] + InsertAfter(xs[1..], a, b)
  }

  /** `xs` without its first `a`. */
  function Without(xs: seq<PaneId>, a: PaneId): seq<PaneId> {
    if xs == [] then [] else if xs[0] == a then xs[1..] else [xs[0]] + Without(xs[1..], a)
  }

  lemma {:induction false} InsertAfterConcat(xs: seq<PaneId>, ys: seq<PaneId>, a: PaneId, b: PaneId)
    ensures a in xs ==> InsertAfter(xs + ys, a, b) == InsertAfter(xs, a, b) + ys
    ensures a !in xs ==> InsertAfter(xs + ys, a, b) == xs + InsertAfter(ys, a, b)
  {
    if xs == [] {
      assert xs + ys == ys;
    } else {
      InsertAfterConcat(xs[1..], ys, a, b);
      assert (xs + ys)[1..] == xs[1..] + ys;
    }
  }

  lemma {:induction false} InsertNowhere(xs: seq<PaneId>, a: PaneId, b: PaneId)
    requires a !in xs
    ensures InsertAfter(xs, a, b) == xs
  {
    if xs != [] {
      InsertNowhere(xs[1..], a, b);
    }
  }

  lemma {:induction false} WithoutConcat(xs: seq<PaneId>, ys: seq<PaneId>, a: PaneId)
    ensures a in xs ==> Without(xs + ys, a) == Without(xs, a) + ys
    ensures a !in xs ==> Without(xs + ys, a) == xs + Without(ys, a)
  {
    if xs == [] {
      assert xs + ys == ys;
    } else {
      WithoutConcat(xs[1..], ys, a);
      assert (xs + ys)[1..] == xs[1..] + ys;
    }
  }

  /** An id used once in a list of trees lies in the head or in the tail. */
  lemma OnceInHead(ts: seq<PaneNode>, id: PaneId)
    requires ts != [] && NodeIdsOf(ts)[id] <= 1
    ensures NodeIds(ts[0])[id] <= 1 && NodeIdsOf(ts[1..])[id] <= 1
    ensures id in Leaves(ts[0]) ==> id !in LeavesOf(ts[1..])
  {
    LeavesAreNodes(ts[0]);
    LeavesOfAreNodes(ts[1..]);
    if id in Leaves(ts[0]) {
      assert multiset(Leaves(ts[0]))[id] >= 1;
      assert NodeIdsOf(ts[1..])[id] == 0;
      assert multiset(LeavesOf(ts[1..]))[id] == 0;
    }
  }

  /** Cutting a list of trees at a leaf child. */
  lemma CutAtLeaf(ts: seq<PaneNode>, id: PaneId, at: nat)
    requires at < |ts| && IsLeafOf(ts[at], id) && NodeIdsOf(ts)[id] <= 1
    ensures LeavesOf(ts) == LeavesOf(ts[..at]) + [id] + LeavesOf(ts[at + 1..])
    ensures NodeIdsOf(ts) == NodeIdsOf(ts[..at]) + multiset{id} + NodeIdsOf(ts[at + 1..])
    ensures ProperAll(ts) <==> ProperAll(ts[..at]) && ProperAll(ts[at + 1..])
    ensures id !in LeavesOf(ts[..at]) && id !in LeavesOf(ts[at + 1..])
  {
    hide LeavesOf, NodeIdsOf, ProperAll, InsertAfter, Without, Sum;
    var before, tail := ts[..at], ts[at + 1..];
    assert ts == before + [ts[at]] + tail;
    Stretches(before, [ts[at]], tail);
    OneLeaf(ts[at]);
    LeavesOfAreNodes(before);
    LeavesOfAreNodes(tail);
    assert multiset(LeavesOf(before))[id] == 0 && multiset(LeavesOf(tail))[id] == 0;
  }

  // -------------------------------------------------------- what split does

  lemma JoinedHere(ts: seq<PaneNode>, at: nat, target: PaneId, pane: PaneNode)
    requires at < |ts| && IsLeafOf(ts[at], target) && pane.Leaf? && NodeIdsOf(ts)[target] <= 1
    ensures var more := ts[..at + 1] + [pane] + ts[at + 1..];
            && LeavesOf(more) == InsertAfter(LeavesOf(ts), target, pane.id)
            && NodeIdsOf(more) == NodeIdsOf(ts) + multiset{pane.id}
            && (ProperAll(ts) ==> ProperAll(more))
  {
    hide LeavesOf, NodeIdsOf, ProperAll, InsertAfter, Without, Sum;
    var more := ts[..at + 1] + [pane] + ts[at + 1..];
    var before, tail := ts[..at], ts[at + 1..];
    CutAtLeaf(ts, target, at);
    assert more == before + [ts[at], pane] + tail;
    Stretches(before, [ts[at], pane], tail);
    TwoLeaves(ts[at], pane);
    InsertBetween(LeavesOf(before), LeavesOf(tail), target, pane.id);
  }

  lemma InsertBetween(xs: seq<PaneId>, ys: seq<PaneId>, a: PaneId, b: PaneId)
    requires a !in xs
    ensures InsertAfter(xs + [a] + ys, a, b) == xs + [a, b] + ys
    ensures Without(xs + [a] + ys, a) == xs + ys
  {
    assert xs + [a] + ys == xs + ([a] + ys);
    assert ([a] + ys)[1..] == ys;
    InsertAfterConcat(xs, [a] + ys, a, b);
    WithoutConcat(xs, [a] + ys, a);
    assert xs + [a, b] + ys == xs + ([a, b] + ys);
  }

  lemma JoinFacts(t: PaneNode, target: PaneId, pane: PaneNode, at: nat)
    requires t.Split? && pane.Leaf? && NodeIds(t)[target] <= 1
    requires at < |t.children| && IsLeafOf(t.children[at], target)
    ensures var more := t.children[..at + 1] + [pane] + t.children[at + 1..];
            var r := t.(children := more, ratios := EvenRatios(|more|));
            && target in Leaves(t)
            && Leaves(r) == InsertAfter(Leaves(t), target, pane.id)
            && NodeIds(r) == NodeIds(t) + multiset{pane.id}
            && (Proper(t) ==> Proper(r))
  {
    hide LeavesOf, NodeIdsOf, ProperAll, InsertAfter, Without, Sum;
    JoinedHere(t.children, at, target, pane);
    CutAtLeaf(t.children, target, at);
    EvenIsDistribution(|t.children| + 1);
  }

  lemma {:induction false} InsertFacts(t: PaneNode, target: PaneId, vertical: bool, pane: PaneNode)
    requires pane.Leaf? && NodeIds(t)[target] <= 1
    ensures var r := Insert(t, target, vertical, pane);
            r.Some? ==>
              && target in Leaves(t) && r.value.Split?
              && Leaves(r.value) == InsertAfter(Leaves(t), target, pane.id)
              && NodeIds(r.value) == NodeIds(t) + multiset{pane.id}
              && (Proper(t) ==> Proper(r.value))
    decreases t
  {
    if t.Split? {
      var at := LeafIndex(t.children, target);
      if at.Some? && t.vertical == vertical {
        JoinFacts(t, target, pane, at.value);
        hide Leaves, NodeIds, Proper, InsertAfter, LeafIndex, EvenRatios;
      } else {
        InsertInFacts(t.children, target, vertical, pane);
      }
    }
  }

  lemma {:induction false} InsertInFacts(ts: seq<PaneNode>, target: PaneId, vertical: bool, pane: PaneNode)
    requires pane.Leaf? && NodeIdsOf(ts)[target] <= 1
    ensures var r := InsertIn(ts, target, vertical, pane);
            r.Some? ==>
              && target in LeavesOf(ts)
              && LeavesOf(r.value) == InsertAfter(LeavesOf(ts), target, pane.id)
              && NodeIdsOf(r.value) == NodeIdsOf(ts) + multiset{pane.id}
              && (ProperAll(ts) ==> ProperAll(r.value))
    decreases ts
  {
    if ts != [] {
      OnceInHead(ts, target);
      InsertFacts(ts[0], target, vertical, pane);
      InsertInFacts(ts[1..], target, vertical, pane);
      InsertAfterConcat(Leaves(ts[0]), LeavesOf(ts[1..]), target, pane.id);
      var r := Insert(ts[0], target, vertical, pane);
      if r.Some? {
        assert ([r.value] + ts[1..])[1..] == ts[1..];
      } else {
        var rest := InsertIn(ts[1..], target, vertical, pane);
        if rest.Some? {
          assert ([ts[0]] + rest.value)[1..] == rest.value;
        }
      }
    }
  }

  lemma {:induction false} ReplaceNothing(t: PaneNode, id: PaneId, next: PaneNode)
    requires id !in Leaves(t)
    ensures ReplaceLeaf(t, id, next) == t
    decreases t
  {
    if t.Split? {
      ReplaceNothingIn(t.children, id, next);
    }
  }

  lemma {:induction false} ReplaceNothingIn(ts: seq<PaneNode>, id: PaneId, next: PaneNode)
    requires id !in LeavesOf(ts)
    ensures ReplaceLeafIn(ts, id, next) == ts
    decreases ts
  {
    if ts != [] {
      ReplaceNothing(ts[0], id, next);
      ReplaceNothingIn(ts[1..], id, next);
    }
  }

  lemma {:induction false} WrapFacts(t: PaneNode, target: PaneId, wrapper: PaneNode, pane: PaneId)
    requires wrapper.Split? && Proper(wrapper) && Leaves(wrapper) == [target, pane]
    requires NodeIds(wrapper) == multiset{wrapper.id, target, pane}
    requires NodeIds(t)[target] <= 1 && target in Leaves(t)
    ensures Leaves(ReplaceLeaf(t, target, wrapper)) == InsertAfter(Leaves(t), target, pane)
    ensures NodeIds(ReplaceLeaf(t, target, wrapper)) == NodeIds(t) + multiset{wrapper.id, pane}
    ensures Proper(t) ==> Proper(ReplaceLeaf(t, target, wrapper))
    decreases t
  {
    if t.Split? {
      WrapInFacts(t.children, target, wrapper, pane);
    } else {
      assert InsertAfter([target], target, pane) == [target, pane];
    }
  }

  lemma {:induction false} WrapInFacts(ts: seq<PaneNode>, target: PaneId, wrapper: PaneNode, pane: PaneId)
    requires wrapper.Split? && Proper(wrapper) && Leaves(wrapper) == [target, pane]
    requires NodeIds(wrapper) == multiset{wrapper.id, target, pane}
    requires NodeIdsOf(ts)[target] <= 1 && target in LeavesOf(ts)
    ensures LeavesOf(ReplaceLeafIn(ts, target, wrapper)) == InsertAfter(LeavesOf(ts), target, pane)
    ensures NodeIdsOf(ReplaceLeafIn(ts, target, wrapper)) == NodeIdsOf(ts) + multiset{wrapper.id, pane}
    ensures ProperAll(ts) ==> ProperAll(ReplaceLeafIn(ts, target, wrapper))
    decreases ts
  {
    OnceInHead(ts, target);
    InsertAfterConcat(Leaves(ts[0]), LeavesOf(ts[1..]), target, pane);
    var head, tail := ReplaceLeaf(ts[0], target, wrapper), ReplaceLeafIn(ts[1..], target, wrapper);
    assert ([head] + tail)[1..] == tail;
    if target in Leaves(ts[0]) {
      WrapFacts(ts[0], target, wrapper, pane);
      ReplaceNothingIn(ts[1..], target, wrapper);
    } else {
      ReplaceNothing(ts[0], target, wrapper);
      WrapInFacts(ts[1..], target, wrapper, pane);
    }
  }

  lemma WrapperFacts(target: PaneNode, vertical: bool, pane: PaneNode)
    requires target.Leaf? && pane.Leaf?
    ensures var w := Wrapper(target, vertical, pane);
            w.Split? && w.id == WrapperId(target.id, pane.id) && Proper(w) && Leaves(w) == [target.id, pane.id] && NodeIds(w) == multiset{w.id, target.id, pane.id}
  {
    TwoLeaves(target, pane);
    SumConst([0.5, 0.5], 0.5);
  }

  lemma {:induction false} InsertBranches(t: PaneNode, target: PaneId, vertical: bool, pane: PaneNode)
    requires Branching(t) && pane.Leaf?
    ensures Insert(t, target, vertical, pane).Some? ==> Branching(Insert(t, target, vertical, pane).value)
    decreases t
  {
    if t.Split? {
      var at := LeafIndex(t.children, target);
      if at.Some? && t.vertical == vertical {
        var before, tail := t.children[..at.value + 1], t.children[at.value + 1..];
        assert t.children == before + tail;
        BranchingAllConcat(before, tail);
        BranchingAllConcat(before, [pane]);
        BranchingAllConcat(before + [pane], tail);
        OneBranching(pane);
      } else {
        InsertInBranches(t.children, target, vertical, pane);
      }
    }
  }

  lemma {:induction false} InsertInBranches(ts: seq<PaneNode>, target: PaneId, vertical: bool, pane: PaneNode)
    requires BranchingAll(ts) && pane.Leaf?
    ensures InsertIn(ts, target, vertical, pane).Some? ==> BranchingAll(InsertIn(ts, target, vertical, pane).value)
    decreases ts
  {
    if ts != [] {
      InsertBranches(ts[0], target, vertical, pane);
      InsertInBranches(ts[1..], target, vertical, pane);
      var r, rest := Insert(ts[0], target, vertical, pane), InsertIn(ts[1..], target, vertical, pane);
      if r.Some? {
        assert ([r.value] + ts[1..])[1..] == ts[1..];
      } else if rest.Some? {
        assert ([ts[0]] + rest.value)[1..] == rest.value;
      }
    }
  }

  lemma {:induction false} WrapBranches(t: PaneNode, target: PaneId, wrapper: PaneNode)
    requires Branching(t) && Branching(wrapper)
    ensures Branching(ReplaceLeaf(t, target, wrapper))
    decreases t
  {
    if t.Split? {
      WrapInBranches(t.children, target, wrapper);
    }
  }

  lemma {:induction false} WrapInBranches(ts: seq<PaneNode>, target: PaneId, wrapper: PaneNode)
    requires BranchingAll(ts) && Branching(wrapper)
    ensures BranchingAll(ReplaceLeafIn(ts, target, wrapper))
    decreases ts
  {
    if ts != [] {
      WrapBranches(ts[0], target, wrapper);
      WrapInBranches(ts[1..], target, wrapper);
      var head, tail := ReplaceLeaf(ts[0], target, wrapper), ReplaceLeafIn(ts[1..], target, wrapper);
      assert ([head] + tail)[1..] == tail;
    }
  }

  lemma OneBranching(t: PaneNode)
    ensures BranchingAll([t]) <==> Branching(t)
  {
    assert [t][1..] == [];
  }

  /** Splitting leaves no split with fewer than two children, whatever the ratios. */
  lemma SplitBranches(t: PaneNode, target: PaneId, vertical: bool, newId: PaneId, newCwd: Option<string>)
    requires Branching(t)
    ensures Branching(SplitPane(t, target, vertical, newId, newCwd))
  {
    hide Insert, ReplaceLeaf;
    var pane := FreshLeaf(newId, newCwd);
    InsertBranches(t, target, vertical, pane);
    var found := FindLeaf(t, target);
    FindLeafFinds(t, target);
    if found.Some? {
      var wrapper := Wrapper(found.value, vertical, pane);
      WrapperFacts(found.value, vertical, pane);
      ProperIsBranching(wrapper);
      WrapBranches(t, target, wrapper);
    }
  }

  /** `splitPane` puts the new pane right after its target in reading order,
      keeps every id it had and adds the new one and at most a wrapper's. */
  lemma SplitInserts(t: PaneNode, target: PaneId, vertical: bool, newId: PaneId, newCwd: Option<string>)
    requires Distinct(t)
    ensures var r := SplitPane(t, target, vertical, newId, newCwd);
            && Leaves(r) == InsertAfter(Leaves(t), target, newId)
            && (target !in Leaves(t) ==> r == t)
            && (target in Leaves(t) ==>
                  NodeIds(r) == NodeIds(t) + multiset{newId}
                  || NodeIds(r) == NodeIds(t) + multiset{WrapperId(target, newId), newId})
            && (Proper(t) ==> Proper(r))
  {
    hide Insert, ReplaceLeaf, FindLeaf, Wrapper, WrapperId, NodeIds, Leaves, Proper, InsertAfter;
    var pane := FreshLeaf(newId, newCwd);
    FindLeafFinds(t, target);
    if target in Leaves(t) {
      InsertFacts(t, target, vertical, pane);
      if Insert(t, target, vertical, pane) == None {
        var found := FindLeaf(t, target).value;
        WrapperFacts(found, vertical, pane);
        WrapFacts(t, target, Wrapper(found, vertical, pane), newId);
      }
    } else {
      InsertNowhere(Leaves(t), target, newId);
    }
  }

  // ------------------------------------------------------- what remove does

  lemma {:induction false} PruneFacts(t: PaneNode, id: PaneId)
    requires t.Split? && Branching(t) && NodeIds(t)[id] <= 1 && id in Leaves(t)
    ensures Leaves(Prune(t, id)) == Without(Leaves(t), id)
    ensures NodeIds(Prune(t, id)) <= NodeIds(t)
    ensures Branching(Prune(t, id)) && (Proper(t) ==> Proper(Prune(t, id)))
    decreases t
  {
    var at := LeafIndex(t.children, id);
    if at.Some? {
      PruneHere(t, id, at.value);
      PruneHereKeeps(t, id, at.value);
    } else {
      PruneInFacts(t.children, id);
    }
  }

  lemma PruneHere(t: PaneNode, id: PaneId, at: nat)
    requires t.Split? && Branching(t) && NodeIds(t)[id] <= 1
    requires LeafIndex(t.children, id) == Some(at)
    ensures Leaves(Prune(t, id)) == Without(Leaves(t), id)
    ensures NodeIds(Prune(t, id)) <= NodeIds(t)
  {
    hide LeavesOf, NodeIdsOf, ProperAll, BranchingAll, InsertAfter, Without, Sum;
    var before, tail := t.children[..at], t.children[at + 1..];
    var kept := before + tail;
    assert DropAt(t.children, at) == kept;
    CutAtLeaf(t.children, id, at);
    LeavesOfConcat(before, tail);
    NodeIdsOfConcat(before, tail);
    InsertBetween(LeavesOf(before), LeavesOf(tail), id, id);
    if |kept| == 1 {
      assert kept == [kept[0]];
      OneTree(kept[0]);
    }
  }

  lemma PruneHereKeeps(t: PaneNode, id: PaneId, at: nat)
    requires t.Split? && Branching(t) && LeafIndex(t.children, id) == Some(at)
    ensures Branching(Prune(t, id)) && (Proper(t) ==> Proper(Prune(t, id)))
  {
    hide LeavesOf, NodeIdsOf, ProperAll, BranchingAll, LeafIndex, Sum;
    var before, tail := t.children[..at], t.children[at + 1..];
    var kept := before + tail;
    assert DropAt(t.children, at) == kept && t.children == before + [t.children[at]] + tail;
    ProperAllConcat(before + [t.children[at]], tail);
    ProperAllConcat(before, [t.children[at]]);
    ProperAllConcat(before, tail);
    BranchingAllConcat(before + [t.children[at]], tail);
    BranchingAllConcat(before, [t.children[at]]);
    BranchingAllConcat(before, tail);
    if |kept| == 1 {
      assert kept == [kept[0]];
      OneTree(kept[0]);
      OneBranching(kept[0]);
    }
  }

  lemma {:induction false} PruneInFacts(ts: seq<PaneNode>, id: PaneId)
    requires BranchingAll(ts) && NodeIdsOf(ts)[id] <= 1 && id in LeavesOf(ts)
    requires forall i :: 0 <= i < |ts| ==> !IsLeafOf(ts[i], id)
    ensures LeavesOf(PruneIn(ts, id)) == Without(LeavesOf(ts), id)
    ensures NodeIdsOf(PruneIn(ts, id)) <= NodeIdsOf(ts)
    ensures BranchingAll(PruneIn(ts, id)) && (ProperAll(ts) ==> ProperAll(PruneIn(ts, id)))
    decreases ts
  {
    OnceInHead(ts, id);
    FindLeafFinds(ts[0], id);
    WithoutConcat(Leaves(ts[0]), LeavesOf(ts[1..]), id);
    if id in Leaves(ts[0]) {
      PruneFacts(ts[0], id);
      assert ([Prune(ts[0], id)] + ts[1..])[1..] == ts[1..];
    } else {
      PruneInFacts(ts[1..], id);
      assert ([ts[0]] + PruneIn(ts[1..], id))[1..] == PruneIn(ts[1..], id);
    }
  }

  /** `removePane` drops exactly the one leaf and adds no id, whatever the ratios;
      the last pane and an unknown one are left alone. */
  lemma RemoveDrops(t: PaneNode, id: PaneId)
    requires Branching(t) && Distinct(t)
    ensures var r := RemovePane(t, id);
            && (id !in Leaves(t) || t.Leaf? ==> r == t)
            && (id in Leaves(t) && t.Split? ==> Leaves(r) == Without(Leaves(t), id) && id !in Leaves(r))
            && NodeIds(r) <= NodeIds(t) && Distinct(r) && Branching(r) && (Proper(t) ==> Proper(r))
  {
    FindLeafFinds(t, id);
    if id in Leaves(t) && t.Split? {
      PruneFacts(t, id);
      LeavesAreNodes(t);
      assert NodeIds(t)[id] <= 1;
      WithoutDrops(Leaves(t), id);
    }
  }

  lemma {:induction false} WithoutDrops(xs: seq<PaneId>, a: PaneId)
    requires multiset(xs)[a] <= 1
    ensures a !in Without(xs, a)
  {
    if xs != [] {
      assert xs == [xs[0]] + xs[1..];
      if xs[0] == a {
        assert multiset(xs[1..])[a] == 0;
      } else {
        WithoutDrops(xs[1..], a);
      }
    }
  }
}
