/** Every split and every close changes one node of the tree where it stands, and
    nothing outside that node's rectangle: `splitPane` and `removePane` of
    `src/paneTree.ts` on the screen. */
module PaneInPlace {
  import opened Options
  import opened PaneTree
  import opened PaneLayout
  import opened PaneEdit
  import opened PaneResize
  import opened PaneContents

  // ------------------------------------------------------------ replacements

  /** Replacing a node puts the new one's rectangles where the old one's were, in the
      same box, and leaves all before and after them alone. */
  ghost predicate InPlace(was: seq<PaneRect>, now: seq<PaneRect>, node: PaneNode, next: PaneNode, front: seq<PaneRect>, tail: seq<PaneRect>, box: Box) {
    was == front + Rects(node, box) + tail && now == front + Rects(next, box) + tail
  }

  lemma InPlaceLonger(was: seq<PaneRect>, now: seq<PaneRect>, node: PaneNode, next: PaneNode,
                      front: seq<PaneRect>, tail: seq<PaneRect>, box: Box, a: seq<PaneRect>, c: seq<PaneRect>)
    requires InPlace(was, now, node, next, front, tail, box)
    ensures InPlace(a + was + c, a + now + c, node, next, a + front, tail + c, box)
  {
    hide Rects;
    assert a + (front + Rects(node, box) + tail) + c == (a + front) + Rects(node, box) + (tail + c);
    assert a + (front + Rects(next, box) + tail) + c == (a + front) + Rects(next, box) + (tail + c);
  }

  lemma {:induction false} ReplaceInPlace(t: PaneNode, b: Box, node: PaneNode, next: PaneNode)
    returns (front: seq<PaneRect>, tail: seq<PaneRect>, box: Box)
    requires Holds(t, node) && NodeIds(t)[node.id] <= 1
    ensures InPlace(Rects(t, b), Rects(ReplaceNode(t, node.id, next), b), node, next, front, tail, box)
    ensures Solid(t) && Real(b) ==> Real(box)
    decreases t
  {
    if t.id == node.id {
      HeldAtRoot(t, node);
      front, tail, box := [], [], b;
      assert [] + Rects(t, b) + [] == Rects(t, b) && [] + Rects(next, b) + [] == Rects(next, b);
    } else {
      front, tail, box := ReplaceInPlaceIn(t.children, Normalize(t.ratios, |t.children|), t.vertical, b, 0.0, node, next);
    }
  }

  lemma {:induction false} ReplaceInPlaceIn(ts: seq<PaneNode>, s: seq<real>, vertical: bool, b: Box, along: real, node: PaneNode, next: PaneNode)
    returns (front: seq<PaneRect>, tail: seq<PaneRect>, box: Box)
    requires |ts| == |s| && HoldsIn(ts, node) && NodeIdsOf(ts)[node.id] <= 1 && forall i :: 0 <= i < |s| ==> s[i] > 0.0
    ensures InPlace(RectsOf(ts, s, vertical, b, along), RectsOf(ReplaceNodeIn(ts, node.id, next), s, vertical, b, along), node, next, front, tail, box)
    ensures SolidAll(ts) && Real(b) ==> Real(box)
    decreases ts
  {
    var child := ChildBox(b, vertical, along, s[0]);
    var head, rest := ReplaceNode(ts[0], node.id, next), ReplaceNodeIn(ts[1..], node.id, next);
    var was := RectsOf(ts[1..], s[1..], vertical, b, along + s[0]);
    assert ([head] + rest)[1..] == rest;
    if Real(b) {
      ChildIsReal(b, vertical, along, s[0]);
    }
    if Holds(ts[0], node) {
      HeldIsNode(ts[0], node);
      ReplaceAbsentIn(ts[1..], node.id, next);
      front, tail, box := ReplaceInPlace(ts[0], child, node, next);
      InPlaceLonger(Rects(ts[0], child), Rects(head, child), node, next, front, tail, box, [], was);
      assert [] + Rects(ts[0], child) == Rects(ts[0], child) && [] + Rects(head, child) == Rects(head, child) && [] + front == front;
      tail := tail + was;
    } else {
      HeldIsNodeIn(ts[1..], node);
      ReplaceAbsent(ts[0], node.id, next);
      front, tail, box := ReplaceInPlaceIn(ts[1..], s[1..], vertical, b, along + s[0], node, next);
      var now := RectsOf(rest, s[1..], vertical, b, along + s[0]);
      InPlaceLonger(was, now, node, next, front, tail, box, Rects(ts[0], child), []);
      assert Rects(ts[0], child) + was + [] == Rects(ts[0], child) + was && Rects(ts[0], child) + now + [] == Rects(ts[0], child) + now;
      assert tail + [] == tail;
      front := Rects(ts[0], child) + front;
    }
  }

  // ------------------------------------------------------------------- joins

  /** The pane joined the split right after its target, and all share evenly. */
  ghost predicate Joins(t: PaneNode, r: PaneNode, target: PaneId, vertical: bool, pane: PaneNode, node: PaneNode, at: nat) {
    && Holds(t, node) && node.Split? && node.vertical == vertical && at < |node.children| && IsLeafOf(node.children[at], target)
    && var more := node.children[..at + 1] + [pane] + node.children[at + 1..];
       r == ReplaceNode(t, node.id, node.(children := more, ratios := EvenRatios(|node.children| + 1)))
  }

  lemma {:induction false} InsertJoins(t: PaneNode, target: PaneId, vertical: bool, pane: PaneNode) returns (node: PaneNode, at: nat)
    requires Distinct(t) && Insert(t, target, vertical, pane).Some?
    ensures Joins(t, Insert(t, target, vertical, pane).value, target, vertical, pane, node, at)
    decreases t
  {
    var here := LeafIndex(t.children, target);
    if here.Some? && t.vertical == vertical {
      node, at := t, here.value;
    } else {
      var next;
      DistinctBelow(t);
      node, at, next := InsertInJoins(t.children, target, vertical, pane);
      HeldIsNodeIn(t.children, node);
      assert NodeIds(t)[t.id] <= 1;
      assert t.id != node.id;
    }
  }

  ghost predicate DistinctAll(ts: seq<PaneNode>) { forall id :: NodeIdsOf(ts)[id] <= 1 }

  lemma DistinctBelow(t: PaneNode)
    requires Distinct(t) && t.Split?
    ensures DistinctAll(t.children)
  {
    forall id
      ensures NodeIdsOf(t.children)[id] <= 1
    {
      assert NodeIds(t)[id] <= 1;
    }
  }

  lemma DistinctParts(ts: seq<PaneNode>)
    requires DistinctAll(ts) && ts != []
    ensures Distinct(ts[0]) && DistinctAll(ts[1..])
  {
    forall id
      ensures NodeIds(ts[0])[id] <= 1 && NodeIdsOf(ts[1..])[id] <= 1
    {
      assert NodeIdsOf(ts)[id] <= 1;
    }
  }

  lemma {:induction false} InsertInJoins(ts: seq<PaneNode>, target: PaneId, vertical: bool, pane: PaneNode)
    returns (node: PaneNode, at: nat, next: PaneNode)
    requires DistinctAll(ts) && InsertIn(ts, target, vertical, pane).Some?
    ensures HoldsIn(ts, node) && node.Split? && node.vertical == vertical && at < |node.children| && IsLeafOf(node.children[at], target)
    ensures next == node.(children := node.children[..at + 1] + [pane] + node.children[at + 1..], ratios := EvenRatios(|node.children| + 1))
    ensures InsertIn(ts, target, vertical, pane).value == ReplaceNodeIn(ts, node.id, next)
    decreases ts
  {
    DistinctParts(ts);
    if Insert(ts[0], target, vertical, pane).Some? {
      node, at := InsertJoins(ts[0], target, vertical, pane);
      next := node.(children := node.children[..at + 1] + [pane] + node.children[at + 1..], ratios := EvenRatios(|node.children| + 1));
      HeldIsNode(ts[0], node);
      assert NodeIdsOf(ts)[node.id] <= 1;
      ReplaceAbsentIn(ts[1..], node.id, next);
    } else {
      node, at, next := InsertInJoins(ts[1..], target, vertical, pane);
      HeldIsNodeIn(ts[1..], node);
      assert NodeIdsOf(ts)[node.id] <= 1;
      ReplaceAbsent(ts[0], node.id, next);
    }
  }

  /** No split that runs that way has the target for a child. */
  lemma {:induction false} NoneToJoin(t: PaneNode, target: PaneId, vertical: bool, pane: PaneNode, node: PaneNode)
    requires Insert(t, target, vertical, pane) == None && Holds(t, node) && node.Split? && node.vertical == vertical
    ensures LeafIndex(node.children, target) == None
    decreases t
  {
    if t.Split? && HoldsIn(t.children, node) {
      NoneToJoinIn(t.children, target, vertical, pane, node);
    }
  }

  lemma {:induction false} NoneToJoinIn(ts: seq<PaneNode>, target: PaneId, vertical: bool, pane: PaneNode, node: PaneNode)
    requires InsertIn(ts, target, vertical, pane) == None && HoldsIn(ts, node) && node.Split? && node.vertical == vertical
    ensures LeafIndex(node.children, target) == None
    decreases ts
  {
    if Holds(ts[0], node) {
      NoneToJoin(ts[0], target, vertical, pane, node);
    } else {
      NoneToJoinIn(ts[1..], target, vertical, pane, node);
    }
  }

  // ------------------------------------------------------------------- wraps

  lemma {:induction false} LeafIsNode(t: PaneNode, target: PaneId, next: PaneNode)
    requires NodeIds(t)[target] <= 1 && target in Leaves(t)
    ensures ReplaceLeaf(t, target, next) == ReplaceNode(t, target, next)
    decreases t
  {
    if t.Split? {
      LeavesOfAreNodes(t.children);
      assert multiset(LeavesOf(t.children))[target] >= 1;
      LeafInIsNode(t.children, target, next);
    }
  }

  lemma {:induction false} LeafInIsNode(ts: seq<PaneNode>, target: PaneId, next: PaneNode)
    requires NodeIdsOf(ts)[target] <= 1 && target in LeavesOf(ts)
    ensures ReplaceLeafIn(ts, target, next) == ReplaceNodeIn(ts, target, next)
    decreases ts
  {
    OnceInHead(ts, target);
    LeavesAreNodes(ts[0]);
    LeavesOfAreNodes(ts[1..]);
    if target in Leaves(ts[0]) {
      assert multiset(Leaves(ts[0]))[target] >= 1;
      LeafIsNode(ts[0], target, next);
      ReplaceNothingIn(ts[1..], target, next);
      ReplaceAbsentIn(ts[1..], target, next);
    } else {
      assert multiset(LeavesOf(ts[1..]))[target] >= 1;
      ReplaceNothing(ts[0], target, next);
      ReplaceAbsent(ts[0], target, next);
      LeafInIsNode(ts[1..], target, next);
    }
  }

  /** The two halves of a rectangle, the first one's pane first. */
  function Halves(first: PaneId, second: PaneId, vertical: bool, b: Box): seq<PaneRect> {
    if vertical then
      [PaneRect(first, Box(b.x, b.y, b.w, 0.5 * b.h)), PaneRect(second, Box(b.x, b.y + 0.5 * b.h, b.w, 0.5 * b.h))]
    else
      [PaneRect(first, Box(b.x, b.y, 0.5 * b.w, b.h)), PaneRect(second, Box(b.x + 0.5 * b.w, b.y, 0.5 * b.w, b.h))]
  }

  lemma WrapperRects(found: PaneNode, vertical: bool, pane: PaneNode, b: Box)
    requires found.Leaf? && pane.Leaf?
    ensures Rects(Wrapper(found, vertical, pane), b) == Halves(found.id, pane.id, vertical, b)
  {
    var s := [0.5, 0.5];
    SumConst(s, 0.5);
    NormalizeKeeps(s);
    var ts := [found, pane];
    assert ts[1..] == [pane] && s[1..] == [0.5] && [pane][1..] == [] && [0.5][1..] == [];
    assert RectsOf([], [], vertical, b, 1.0) == [];
    assert RectsOf([pane], [0.5], vertical, b, 0.5) == [PaneRect(pane.id, ChildBox(b, vertical, 0.5, 0.5))];
    assert RectsOf(ts, s, vertical, b, 0.0)
        == [PaneRect(found.id, ChildBox(b, vertical, 0.0, 0.5))] + RectsOf([pane], [0.5], vertical, b, 0.0 + 0.5);
  }

  /** The target's rectangle is halved where it stands. */
  ghost predicate Halved(was: seq<PaneRect>, now: seq<PaneRect>, target: PaneId, newId: PaneId, vertical: bool,
                         front: seq<PaneRect>, tail: seq<PaneRect>, box: Box) {
    was == front + [PaneRect(target, box)] + tail && now == front + Halves(target, newId, vertical, box) + tail
  }

  lemma WrapHalves(t: PaneNode, target: PaneId, vertical: bool, pane: PaneNode)
    returns (front: seq<PaneRect>, tail: seq<PaneRect>, box: Box)
    requires Distinct(t) && target in Leaves(t) && pane.Leaf? && FindLeaf(t, target).Some?
    ensures Halved(Layout(t), Layout(ReplaceLeaf(t, target, Wrapper(FindLeaf(t, target).value, vertical, pane))),
                   target, pane.id, vertical, front, tail, box)
  {
    var found := FindLeaf(t, target).value;
    var wrapper := Wrapper(found, vertical, pane);
    FindLeafFinds(t, target);
    FoundIsHeld(t, target);
    assert NodeIds(t)[target] <= 1;
    hide Wrapper, Rects, Holds, ReplaceNode, ReplaceLeaf, FindLeaf;
    LeafIsNode(t, target, wrapper);
    front, tail, box := ReplaceInPlace(t, WINDOW, found, wrapper);
    WrapperRects(found, vertical, pane, box);
    LeafRect(found, box);
  }

  lemma LeafRect(leaf: PaneNode, b: Box)
    requires leaf.Leaf?
    ensures Rects(leaf, b) == [PaneRect(leaf.id, b)]
  {
  }

  /** A split either joins the pane to the one split around its target that already
      runs that way, where all then share evenly, or, when there is none, halves the
      target's own rectangle and moves no other pane. */
  lemma SplitInPlace(t: PaneNode, target: PaneId, vertical: bool, newId: PaneId, newCwd: Option<string>)
    requires Distinct(t) && target in Leaves(t)
    ensures var r := SplitPane(t, target, vertical, newId, newCwd);
            if exists node :: Holds(t, node) && node.Split? && node.vertical == vertical && LeafIndex(node.children, target).Some? then
              exists node, at: nat :: Joins(t, r, target, vertical, FreshLeaf(newId, newCwd), node, at)
            else exists front, tail, box :: Halved(Layout(t), Layout(r), target, newId, vertical, front, tail, box)
  {
    var pane, r := FreshLeaf(newId, newCwd), SplitPane(t, target, vertical, newId, newCwd);
    FindLeafFinds(t, target);
    assert r == match Insert(t, target, vertical, pane)
                case Some(joined) => joined
                case None => ReplaceLeaf(t, target, Wrapper(FindLeaf(t, target).value, vertical, pane));
    hide SplitPane, Leaves, Layout, Distinct, Insert, ReplaceLeaf, FindLeaf, Wrapper, LeafIndex;
    if Insert(t, target, vertical, pane).Some? {
      var node, at := InsertJoins(t, target, vertical, pane);
      AtIsFound(node.children, target, at);
      assert Joins(t, r, target, vertical, pane, node, at);
    } else {
      var front, tail, box := WrapHalves(t, target, vertical, pane);
      assert Halved(Layout(t), Layout(r), target, newId, vertical, front, tail, box);
      forall node | Holds(t, node) && node.Split? && node.vertical == vertical
        ensures LeafIndex(node.children, target) == None
      {
        NoneToJoin(t, target, vertical, pane, node);
      }
    }
  }

  lemma AtIsFound(ts: seq<PaneNode>, id: PaneId, at: nat)
    requires at < |ts| && IsLeafOf(ts[at], id)
    ensures LeafIndex(ts, id).Some?
  {
  }

  // ------------------------------------------------------------------ closes

  /** What is left of a split without its child `at`: the other child of two, or the
      others with what they had, scaled up to fill the split. */
  ghost predicate Closes(node: PaneNode, at: nat, next: PaneNode) {
    && node.Split? && at < |node.children|
    && var others := node.children[..at] + node.children[at + 1..];
       if |others| == 1 then next == others[0]
       else next.Split? && next == node.(children := others, ratios := next.ratios) && |next.ratios| == |others|
            && (|node.ratios| == |node.children| && (forall k :: 0 <= k < |node.ratios| ==> node.ratios[k] > 0.0) ==>
                  forall k :: 0 <= k < |others| ==>
                    next.ratios[k] * (Sum(node.ratios) - node.ratios[at]) == node.ratios[if k < at then k else k + 1])
  }

  lemma ClosesHere(t: PaneNode, id: PaneId, at: nat)
    requires t.Split? && |t.children| >= 2 && LeafIndex(t.children, id) == Some(at)
    ensures Closes(t, at, Prune(t, id))
  {
    hide LeafIndex, Sum, Distribution, Scaled, EvenRatios;
    var others := t.children[..at] + t.children[at + 1..];
    assert DropAt(t.children, at) == others;
    if |others| != 1 && |t.ratios| == |t.children| && forall k :: 0 <= k < |t.ratios| ==> t.ratios[k] > 0.0 {
      var kept := t.ratios[..at] + t.ratios[at + 1..];
      assert DropAt(t.ratios, at) == kept;
      assert forall k :: 0 <= k < |kept| ==> kept[k] == t.ratios[if k < at then k else k + 1];
      SumWithout(t.ratios, at);
      assert Usable(kept, |others|);
      Unscaled(kept, Normalize(kept, |others|));
    }
  }

  lemma Unscaled(kept: seq<real>, shares: seq<real>)
    requires Sum(kept) > 0.0 && shares == Scaled(kept, Sum(kept))
    ensures forall k :: 0 <= k < |kept| ==> shares[k] * Sum(kept) == kept[k]
  {
    hide Sum;
  }

  lemma SumWithout(rs: seq<real>, at: nat)
    requires at < |rs|
    ensures Sum(rs[..at] + rs[at + 1..]) == Sum(rs) - rs[at]
  {
    assert rs == rs[..at] + ([rs[at]] + rs[at + 1..]);
    SumConcat(rs[..at], [rs[at]] + rs[at + 1..]);
    SumConcat(rs[..at], rs[at + 1..]);
    assert ([rs[at]] + rs[at + 1..])[1..] == rs[at + 1..];
  }

  lemma {:induction false} PruneInPlace(t: PaneNode, id: PaneId) returns (node: PaneNode, at: nat, next: PaneNode)
    requires t.Split? && Branching(t) && Distinct(t) && id in Leaves(t)
    ensures Holds(t, node) && Closes(node, at, next) && IsLeafOf(node.children[at], id)
    ensures Prune(t, id) == ReplaceNode(t, node.id, next)
    decreases t
  {
    var here := LeafIndex(t.children, id);
    if here.Some? {
      ClosesHere(t, id, here.value);
      node, at, next := t, here.value, Prune(t, id);
    } else {
      DistinctBelow(t);
      node, at, next := PruneInInPlace(t.children, id);
      HeldIsNodeIn(t.children, node);
      assert NodeIds(t)[t.id] <= 1;
      assert t.id != node.id;
    }
  }

  lemma {:induction false} PruneInInPlace(ts: seq<PaneNode>, id: PaneId) returns (node: PaneNode, at: nat, next: PaneNode)
    requires BranchingAll(ts) && DistinctAll(ts) && id in LeavesOf(ts)
    requires forall i :: 0 <= i < |ts| ==> !IsLeafOf(ts[i], id)
    ensures HoldsIn(ts, node) && Closes(node, at, next) && IsLeafOf(node.children[at], id)
    ensures PruneIn(ts, id) == ReplaceNodeIn(ts, node.id, next)
    decreases ts
  {
    DistinctParts(ts);
    FindLeafFinds(ts[0], id);
    if id in Leaves(ts[0]) {
      node, at, next := PruneInPlace(ts[0], id);
      HeldIsNode(ts[0], node);
      assert NodeIdsOf(ts)[node.id] <= 1;
      ReplaceAbsentIn(ts[1..], node.id, next);
    } else {
      node, at, next := PruneInInPlace(ts[1..], id);
      HeldIsNodeIn(ts[1..], node);
      assert NodeIdsOf(ts)[node.id] <= 1;
      ReplaceAbsent(ts[0], node.id, next);
    }
  }

  /** A close changes the one split around its pane: the others there share what it
      had in proportion to their own, and no pane outside that split moves. */
  lemma RemoveInPlace(t: PaneNode, id: PaneId)
    returns (node: PaneNode, at: nat, next: PaneNode, front: seq<PaneRect>, tail: seq<PaneRect>, box: Box)
    requires t.Split? && Branching(t) && Distinct(t) && id in Leaves(t)
    ensures Holds(t, node) && Closes(node, at, next) && IsLeafOf(node.children[at], id)
    ensures InPlace(Layout(t), Layout(RemovePane(t, id)), node, next, front, tail, box)
  {
    FindLeafFinds(t, id);
    node, at, next := PruneInPlace(t, id);
    assert NodeIds(t)[node.id] <= 1;
    hide Prune, Rects, Holds, Closes, ReplaceNode, FindLeaf;
    front, tail, box := ReplaceInPlace(t, WINDOW, node, next);
  }

  /** The same of a split that joins: no pane outside the split around it moves. */
  lemma JoinInPlace(t: PaneNode, r: PaneNode, target: PaneId, vertical: bool, pane: PaneNode, node: PaneNode, at: nat)
    returns (next: PaneNode, front: seq<PaneRect>, tail: seq<PaneRect>, box: Box)
    requires Distinct(t) && Joins(t, r, target, vertical, pane, node, at)
    ensures next.Split? && next.vertical == vertical && next.ratios == EvenRatios(|node.children| + 1)
    ensures next.children == node.children[..at + 1] + [pane] + node.children[at + 1..]
    ensures InPlace(Layout(t), Layout(r), node, next, front, tail, box)
  {
    next := node.(children := node.children[..at + 1] + [pane] + node.children[at + 1..], ratios := EvenRatios(|node.children| + 1));
    assert NodeIds(t)[node.id] <= 1;
    hide Rects, Holds, ReplaceNode;
    front, tail, box := ReplaceInPlace(t, WINDOW, node, next);
  }
}
