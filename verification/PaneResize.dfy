/** Moving a boundary: `resizePane` and `setPaneBoundary` of `src/paneTree.ts`. */
module PaneResize {
  import opened PaneTree
  import opened PaneLayout
  import opened PaneNeighbor

  // ------------------------------------------------------------- the shares

  /** Where a side of the pair may end up: both held at the least share. */
  function Held(pair: real, wanted: real): real {
    Min(pair - PANE_MIN_SHARE, Max(PANE_MIN_SHARE, wanted))
  }

  /** Child `i` gets `share` and child `j` the rest of what the two had. */
  function Moved(shares: seq<real>, i: nat, j: nat, share: real): seq<real>
    requires i < |shares| && j < |shares|
  {
    shares[i := share][j := shares[i] + shares[j] - share]
  }

  lemma {:induction false} SumUpdate(rs: seq<real>, i: nat, r: real)
    requires i < |rs|
    ensures Sum(rs[i := r]) == Sum(rs) - rs[i] + r
  {
    if i == 0 {
      assert rs[0 := r][1..] == rs[1..];
    } else {
      SumUpdate(rs[1..], i - 1, r);
      assert rs[i := r][1..] == rs[1..][i - 1 := r];
    }
  }

  /** In the ratios it stores, a moved boundary conserves the pair's combined share
      and every other one. They are a distribution, and so laid out as stored,
      exactly when the pair has more than the least share; both sides are stored
      with the least share exactly when the pair has twice that. The first gets what
      was wanted for it where both keep the least share, and stops there otherwise. */
  lemma MovedShares(shares: seq<real>, i: nat, j: nat, wanted: real)
    requires Distribution(shares) && i < |shares| && j < |shares| && i != j
    ensures var pair := shares[i] + shares[j];
            var moved := Moved(shares, i, j, Held(pair, wanted));
            && |moved| == |shares| && Sum(moved) == 1.0
            && moved[i] + moved[j] == pair
            && (forall k :: 0 <= k < |shares| && k != i && k != j ==> moved[k] == shares[k])
            && (Distribution(moved) <==> pair > PANE_MIN_SHARE)
            && (moved[i] >= PANE_MIN_SHARE && moved[j] >= PANE_MIN_SHARE <==> pair >= 2.0 * PANE_MIN_SHARE)
            && (PANE_MIN_SHARE <= wanted <= pair - PANE_MIN_SHARE ==> moved[i] == wanted)
            && (wanted > pair - PANE_MIN_SHARE || pair < 2.0 * PANE_MIN_SHARE ==> moved[i] == pair - PANE_MIN_SHARE)
            && (wanted < PANE_MIN_SHARE && pair >= 2.0 * PANE_MIN_SHARE ==> moved[i] == PANE_MIN_SHARE)
  {
    var pair := shares[i] + shares[j];
    var share := Held(pair, wanted);
    var moved := Moved(shares, i, j, share);
    SumUpdate(shares, i, share);
    SumUpdate(shares[i := share], j, pair - share);
    if pair > PANE_MIN_SHARE {
      assert share > 0.0 && pair - share > 0.0;
    } else {
      assert moved[i] <= 0.0;
    }
  }

  /** Giving a child more of its pair never takes share from it as laid out
      exactly when the other side had the least share to start with. A pair at or
      under the least share makes the layout fall back to even shares, so there the
      child loses exactly when it had more than an even one. */
  lemma GrowNeverShrinksIff(shares: seq<real>, i: nat, j: nat, step: real)
    requires Distribution(shares) && i < |shares| && j < |shares| && i != j && step >= 0.0
    ensures var pair := shares[i] + shares[j];
            var laidOut := Normalize(Moved(shares, i, j, Held(pair, shares[i] + step)), |shares|);
            laidOut[i] >= shares[i]
            <==> if pair > PANE_MIN_SHARE then shares[j] >= PANE_MIN_SHARE
                 else shares[i] <= 1.0 / (|shares| as real)
  {
    var pair := shares[i] + shares[j];
    var moved := Moved(shares, i, j, Held(pair, shares[i] + step));
    MovedShares(shares, i, j, shares[i] + step);
    if pair > PANE_MIN_SHARE {
      NormalizeKeeps(moved);
    } else {
      assert !Usable(moved, |shares|);
    }
  }

  /** A pair too small to hold makes the layout fall back to even shares: the
      other children then keep theirs exactly when they were even already. */
  lemma SmallPairFallsBack(shares: seq<real>, i: nat, j: nat, wanted: real)
    requires Distribution(shares) && i < |shares| && j < |shares| && i != j
    ensures var pair := shares[i] + shares[j];
            var laidOut := Normalize(Moved(shares, i, j, Held(pair, wanted)), |shares|);
            (forall k :: 0 <= k < |shares| && k != i && k != j ==> laidOut[k] == shares[k])
            <==> pair > PANE_MIN_SHARE
                 || forall k :: 0 <= k < |shares| && k != i && k != j ==> shares[k] == 1.0 / (|shares| as real)
  {
    var n := |shares|;
    var pair := shares[i] + shares[j];
    var moved := Moved(shares, i, j, Held(pair, wanted));
    MovedShares(shares, i, j, wanted);
    if pair > PANE_MIN_SHARE {
      NormalizeKeeps(moved);
    } else {
      assert moved[i] <= 0.0;
      assert !Usable(moved, n);
      assert Normalize(moved, n) == EvenRatios(n);
    }
  }

  /** Three panes of 5, 5 and 90 percent: dragging the first boundary anywhere
      gives the third pane a third of the space. */
  lemma SmallPairMovesOthers(wanted: real)
    ensures var shares := [0.05, 0.05, 0.9];
            Distribution(shares) && Normalize(Moved(shares, 0, 1, Held(0.1, wanted)), 3)[2] == 1.0 / 3.0
  {
    var shares := [0.05, 0.05, 0.9];
    assert shares[1..] == [0.05, 0.9] && [0.05, 0.9][1..] == [0.9] && [0.9][1..] == [];
    assert Sum([0.9]) == 0.9 && Sum([0.05, 0.9]) == 0.95;
    MovedShares(shares, 0, 1, wanted);
    assert !Usable(Moved(shares, 0, 1, Held(0.1, wanted)), 3);
  }

  // -------------------------------------------------------------- the trees

  /** The tree with the node of that id replaced. */
  function ReplaceNode(t: PaneNode, id: PaneId, next: PaneNode): PaneNode
    decreases t
  {
    if t.id == id then next
    else match t
      case Leaf(_, _, _, _, _) => t
      case Split(_, _, _, children) => t.(children := ReplaceNodeIn(children, id, next))
  }

  function ReplaceNodeIn(ts: seq<PaneNode>, id: PaneId, next: PaneNode): (out: seq<PaneNode>)
    ensures |out| == |ts|
    decreases ts
  {
    if ts == [] then [] else [ReplaceNode(ts[0], id, next)] + ReplaceNodeIn(ts[1..], id, next)
  }

  /** `node` is `t` or lies below it. */
  predicate Holds(t: PaneNode, node: PaneNode)
    decreases t
  {
    t == node || (t.Split? && HoldsIn(t.children, node))
  }

  predicate HoldsIn(ts: seq<PaneNode>, node: PaneNode)
    decreases ts
  {
    ts != [] && (Holds(ts[0], node) || HoldsIn(ts[1..], node))
  }

  lemma {:induction false} HeldIsNode(t: PaneNode, node: PaneNode)
    requires Holds(t, node)
    ensures NodeIds(t)[node.id] >= 1
    decreases t
  {
    if t.Split? && HoldsIn(t.children, node) {
      HeldIsNodeIn(t.children, node);
    }
  }

  lemma {:induction false} HeldIsNodeIn(ts: seq<PaneNode>, node: PaneNode)
    requires HoldsIn(ts, node)
    ensures NodeIdsOf(ts)[node.id] >= 1
    decreases ts
  {
    if Holds(ts[0], node) {
      HeldIsNode(ts[0], node);
    } else {
      HeldIsNodeIn(ts[1..], node);
    }
  }

  lemma HeldAtRoot(t: PaneNode, node: PaneNode)
    requires Holds(t, node) && NodeIds(t)[node.id] <= 1 && t.id == node.id
    ensures t == node
  {
    if t.Split? && HoldsIn(t.children, node) {
      HeldIsNodeIn(t.children, node);
    }
  }

  lemma {:induction false} ReplaceAbsent(t: PaneNode, id: PaneId, next: PaneNode)
    requires NodeIds(t)[id] == 0
    ensures ReplaceNode(t, id, next) == t
    decreases t
  {
    if t.Split? {
      ReplaceAbsentIn(t.children, id, next);
    }
  }

  lemma {:induction false} ReplaceAbsentIn(ts: seq<PaneNode>, id: PaneId, next: PaneNode)
    requires NodeIdsOf(ts)[id] == 0
    ensures ReplaceNodeIn(ts, id, next) == ts
    decreases ts
  {
    if ts != [] {
      ReplaceAbsent(ts[0], id, next);
      ReplaceAbsentIn(ts[1..], id, next);
    }
  }

  /** Same panes in the same order, and only those of `ids` may have moved. */
  ghost predicate OnlyMoves(was: seq<PaneRect>, now: seq<PaneRect>, ids: seq<PaneId>) {
    && |was| == |now|
    && forall k :: 0 <= k < |was| ==> now[k].id == was[k].id && (was[k].id !in ids ==> now[k] == was[k])
  }

  lemma OnlyMovesConcat(a: seq<PaneRect>, a2: seq<PaneRect>, c: seq<PaneRect>, c2: seq<PaneRect>, ids: seq<PaneId>)
    requires OnlyMoves(a, a2, ids) && OnlyMoves(c, c2, ids)
    ensures OnlyMoves(a + c, a2 + c2, ids)
  {
  }

  lemma OnlyMovesOwn(t: PaneNode, b: Box, b2: Box, ids: seq<PaneId>)
    requires forall id :: id in Leaves(t) ==> id in ids
    ensures OnlyMoves(Rects(t, b), Rects(t, b2), ids)
  {
    IdsAreLeaves(t, b);
    IdsAreLeaves(t, b2);
    var was, now := Rects(t, b), Rects(t, b2);
    assert |was| == |Ids(was)| && |now| == |Ids(now)|;
    forall k | 0 <= k < |was|
      ensures now[k].id == was[k].id && was[k].id in ids
    {
      assert Ids(was)[k] == Leaves(t)[k] && Ids(now)[k] == Leaves(t)[k];
    }
  }

  /** Redistributing the shares of two adjacent children moves no other child. */
  lemma {:induction false} PairMoves(ts: seq<PaneNode>, s: seq<real>, s2: seq<real>, i: nat, vertical: bool, b: Box, along: real, ids: seq<PaneId>)
    requires |ts| == |s| == |s2| && i + 1 < |ts|
    requires s[i] + s[i + 1] == s2[i] + s2[i + 1]
    requires forall k :: 0 <= k < |s| && k != i && k != i + 1 ==> s2[k] == s[k]
    requires ids == Leaves(ts[i]) + Leaves(ts[i + 1])
    ensures OnlyMoves(RectsOf(ts, s, vertical, b, along), RectsOf(ts, s2, vertical, b, along), ids)
    decreases i
  {
    hide ChildBox, Rects, Leaves;
    if i > 0 {
      PairMoves(ts[1..], s[1..], s2[1..], i - 1, vertical, b, along + s[0], ids);
      var head := Rects(ts[0], ChildBox(b, vertical, along, s[0]));
      OnlyMovesConcat(head, head, RectsOf(ts[1..], s[1..], vertical, b, along + s[0]), RectsOf(ts[1..], s2[1..], vertical, b, along + s[0]), ids);
    } else {
      var end := along + s[0] + s[1];
      TwoHeads(ts, s, vertical, b, along, end);
      TwoHeads(ts, s2, vertical, b, along, end);
      assert s[2..] == s2[2..];
      OnlyMovesOwn(ts[0], ChildBox(b, vertical, along, s[0]), ChildBox(b, vertical, along, s2[0]), ids);
      OnlyMovesOwn(ts[1], ChildBox(b, vertical, along + s[0], s[1]), ChildBox(b, vertical, along + s2[0], s2[1]), ids);
      var tail := RectsOf(ts[2..], s[2..], vertical, b, end);
      OnlyMovesConcat(Rects(ts[1], ChildBox(b, vertical, along + s[0], s[1])), Rects(ts[1], ChildBox(b, vertical, along + s2[0], s2[1])), tail, tail, ids);
      OnlyMovesConcat(Rects(ts[0], ChildBox(b, vertical, along, s[0])), Rects(ts[0], ChildBox(b, vertical, along, s2[0])),
                      Rects(ts[1], ChildBox(b, vertical, along + s[0], s[1])) + tail,
                      Rects(ts[1], ChildBox(b, vertical, along + s2[0], s2[1])) + tail, ids);
    }
  }

  lemma TwoHeads(ts: seq<PaneNode>, s: seq<real>, vertical: bool, b: Box, along: real, end: real)
    requires |ts| == |s| && |ts| >= 2 && end == along + s[0] + s[1]
    ensures RectsOf(ts, s, vertical, b, along)
         == Rects(ts[0], ChildBox(b, vertical, along, s[0]))
            + (Rects(ts[1], ChildBox(b, vertical, along + s[0], s[1])) + RectsOf(ts[2..], s[2..], vertical, b, end))
  {
    hide ChildBox, Rects;
    assert ts[1..][1..] == ts[2..] && s[1..][1..] == s[2..];
  }

  /** New shares for a split in which only children `i` and `i + 1` trade. */
  ghost predicate Trades(node: PaneNode, shares: seq<real>, i: nat) {
    && node.Split? && i + 1 < |node.children| && |shares| == |node.children| && Distribution(shares)
    && (forall k :: 0 <= k < |shares| && k != i && k != i + 1 ==> shares[k] == Normalize(node.ratios, |shares|)[k])
    && shares[i] + shares[i + 1] == Normalize(node.ratios, |shares|)[i] + Normalize(node.ratios, |shares|)[i + 1]
  }

  lemma {:induction false} ReplaceMovesPair(t: PaneNode, b: Box, node: PaneNode, shares: seq<real>, i: nat, ids: seq<PaneId>)
    requires Holds(t, node) && NodeIds(t)[node.id] <= 1 && Trades(node, shares, i)
    requires ids == Leaves(node.children[i]) + Leaves(node.children[i + 1])
    ensures OnlyMoves(Rects(t, b), Rects(ReplaceNode(t, node.id, node.(ratios := shares)), b), ids)
    decreases t
  {
    if t.id == node.id {
      HeldAtRoot(t, node);
      NormalizeKeeps(shares);
      PairMoves(t.children, Normalize(t.ratios, |t.children|), shares, i, t.vertical, b, 0.0, ids);
    } else {
      ReplaceMovesPairIn(t.children, Normalize(t.ratios, |t.children|), t.vertical, b, 0.0, node, shares, i, ids);
    }
  }

  lemma {:induction false} ReplaceMovesPairIn(ts: seq<PaneNode>, s: seq<real>, vertical: bool, b: Box, along: real,
                                              node: PaneNode, shares: seq<real>, i: nat, ids: seq<PaneId>)
    requires |ts| == |s| && HoldsIn(ts, node) && NodeIdsOf(ts)[node.id] <= 1
    requires Trades(node, shares, i) && ids == Leaves(node.children[i]) + Leaves(node.children[i + 1])
    ensures OnlyMoves(RectsOf(ts, s, vertical, b, along),
                      RectsOf(ReplaceNodeIn(ts, node.id, node.(ratios := shares)), s, vertical, b, along), ids)
    decreases ts
  {
    var next := node.(ratios := shares);
    var box := ChildBox(b, vertical, along, s[0]);
    var head, tail := ReplaceNode(ts[0], node.id, next), ReplaceNodeIn(ts[1..], node.id, next);
    assert ([head] + tail)[1..] == tail;
    if Holds(ts[0], node) {
      HeldIsNode(ts[0], node);
      ReplaceAbsentIn(ts[1..], node.id, next);
      ReplaceMovesPair(ts[0], box, node, shares, i, ids);
    } else {
      HeldIsNodeIn(ts[1..], node);
      ReplaceAbsent(ts[0], node.id, next);
      ReplaceMovesPairIn(ts[1..], s[1..], vertical, b, along + s[0], node, shares, i, ids);
    }
    OnlyMovesConcat(Rects(ts[0], box), Rects(head, box),
                    RectsOf(ts[1..], s[1..], vertical, b, along + s[0]), RectsOf(tail, s[1..], vertical, b, along + s[0]), ids);
  }

  /** Other ratios for one split change neither the panes nor any id. */
  lemma {:induction false} ReplaceKeepsShape(t: PaneNode, node: PaneNode, shares: seq<real>)
    requires Holds(t, node) && node.Split? && NodeIds(t)[node.id] <= 1
    ensures var r := ReplaceNode(t, node.id, node.(ratios := shares));
            Leaves(r) == Leaves(t) && NodeIds(r) == NodeIds(t) && (Branching(r) <==> Branching(t)) && (Solid(r) <==> Solid(t))
    decreases t
  {
    if t.id == node.id {
      HeldAtRoot(t, node);
    } else {
      ReplaceKeepsShapeIn(t.children, node, shares);
    }
  }

  lemma {:induction false} ReplaceKeepsShapeIn(ts: seq<PaneNode>, node: PaneNode, shares: seq<real>)
    requires HoldsIn(ts, node) && node.Split? && NodeIdsOf(ts)[node.id] <= 1
    ensures var rs := ReplaceNodeIn(ts, node.id, node.(ratios := shares));
            && LeavesOf(rs) == LeavesOf(ts) && NodeIdsOf(rs) == NodeIdsOf(ts)
            && (BranchingAll(rs) <==> BranchingAll(ts)) && (SolidAll(rs) <==> SolidAll(ts))
    decreases ts
  {
    var next := node.(ratios := shares);
    var head, tail := ReplaceNode(ts[0], node.id, next), ReplaceNodeIn(ts[1..], node.id, next);
    assert ([head] + tail)[1..] == tail;
    if Holds(ts[0], node) {
      HeldIsNode(ts[0], node);
      ReplaceAbsentIn(ts[1..], node.id, next);
      ReplaceKeepsShape(ts[0], node, shares);
    } else {
      HeldIsNodeIn(ts[1..], node);
      ReplaceAbsent(ts[0], node.id, next);
      ReplaceKeepsShapeIn(ts[1..], node, shares);
    }
  }
}
