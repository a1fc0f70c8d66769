/** Which boundary a resize moves, and what moving it does: the path walk of
    `resizePane` and the drag of `setPaneBoundary` in `src/paneTree.ts`. */
module PaneSeams {
  import opened Options
  import opened PaneTree
  import opened PaneLayout
  import opened PaneNeighbor
  import opened PaneResize

  /** One step from the root toward a leaf. */
  datatype Step = Step(node: PaneNode, index: nat)

  function PathTo(t: PaneNode, id: PaneId): Option<seq<Step>>
    decreases t
  {
    match t
    case Leaf(own, _, _, _, _) => if own == id then Some([]) else None
    case Split(_, _, _, children) => PathFrom(t, children, 0, id)
  }

  /** The same among the children from index `i` on. */
  function PathFrom(node: PaneNode, ts: seq<PaneNode>, i: nat, id: PaneId): Option<seq<Step>>
    decreases ts
  {
    if ts == [] then None
    else
      match PathTo(ts[0], id)
      case Some(below) => Some([Step(node, i)] + below)
      case None => PathFrom(node, ts[1..], i + 1, id)
  }

  /** Each step takes a child of its split, and that child is the next split. */
  ghost predicate IsPath(t: PaneNode, path: seq<Step>, id: PaneId)
    decreases |path|
  {
    if path == [] then t.Leaf? && t.id == id
    else
      && path[0].node == t && t.Split? && path[0].index < |t.children|
      && IsPath(t.children[path[0].index], path[1..], id)
  }

  lemma {:induction false} PathToIsPath(t: PaneNode, id: PaneId)
    ensures PathTo(t, id).Some? ==> IsPath(t, PathTo(t, id).value, id)
    ensures PathTo(t, id).Some? <==> id in Leaves(t)
    decreases t
  {
    if t.Split? {
      PathFromIsPath(t, t.children, 0, id);
    }
  }

  lemma {:induction false} PathFromIsPath(node: PaneNode, ts: seq<PaneNode>, i: nat, id: PaneId)
    requires node.Split? && i + |ts| == |node.children| && ts == node.children[i..]
    ensures PathFrom(node, ts, i, id).Some? ==> IsPath(node, PathFrom(node, ts, i, id).value, id)
    ensures PathFrom(node, ts, i, id).Some? <==> id in LeavesOf(ts)
    decreases ts
  {
    if ts != [] {
      PathToIsPath(ts[0], id);
      if PathTo(ts[0], id).Some? {
        assert ([Step(node, i)] + PathTo(ts[0], id).value)[1..] == PathTo(ts[0], id).value;
      } else {
        PathFromIsPath(node, ts[1..], i + 1, id);
      }
    }
  }

  /** The box the path's last step leads to. */
  function BoxAt(b: Box, path: seq<Step>): Box
    decreases |path|
  {
    if path == [] then b
    else if path[0].node.Leaf? || path[0].index >= |path[0].node.children| then b
    else
      var shares := Normalize(path[0].node.ratios, |path[0].node.children|);
      BoxAt(ChildBox(b, path[0].node.vertical, Sum(shares[..path[0].index]), shares[path[0].index]), path[1..])
  }

  lemma {:induction false} RectsOfChild(ts: seq<PaneNode>, shares: seq<real>, vertical: bool, b: Box, along: real, i: nat, r: PaneRect)
    requires |ts| == |shares| && i < |ts|
    requires r in Rects(ts[i], ChildBox(b, vertical, along + Sum(shares[..i]), shares[i]))
    ensures r in RectsOf(ts, shares, vertical, b, along)
  {
    hide ChildBox;
    if i > 0 {
      assert shares[..i][1..] == shares[1..][..i - 1];
      RectsOfChild(ts[1..], shares[1..], vertical, b, along + shares[0], i - 1, r);
    }
  }

  /** Following the path from the window gives the pane's own rectangle. */
  lemma {:induction false} BoxAtIsRect(t: PaneNode, b: Box, path: seq<Step>, id: PaneId)
    requires IsPath(t, path, id)
    ensures PaneRect(id, BoxAt(b, path)) in Rects(t, b)
    decreases |path|
  {
    hide ChildBox, Sum, Normalize, RectsOf, Leaves;
    if path != [] {
      var shares, i := Normalize(t.ratios, |t.children|), path[0].index;
      var child := ChildBox(b, t.vertical, Sum(shares[..i]), shares[i]);
      assert BoxAt(b, path) == BoxAt(child, path[1..]) && 0.0 + Sum(shares[..i]) == Sum(shares[..i]);
      hide BoxAt;
      BoxAtIsRect(t.children[i], child, path[1..], id);
      RectsOfChild(t.children, shares, t.vertical, b, 0.0, i, PaneRect(id, BoxAt(b, path)));
    }
  }

  // ------------------------------------------------------------- the seams

  /** The step's split runs the wanted way and has a child on the wanted side. */
  predicate HasSeam(s: Step, vertical: bool, forward: bool) {
    && s.node.Split? && s.node.vertical == vertical
    && if forward then s.index + 1 < |s.node.children| else 0 < s.index < |s.node.children|
  }

  /** The deepest step with a seam. */
  function SeamDepth(path: seq<Step>, vertical: bool, forward: bool): (d: Option<nat>)
    ensures d.Some? ==> d.value < |path| && HasSeam(path[d.value], vertical, forward)
    ensures d.Some? ==> forall k :: d.value < k < |path| ==> !HasSeam(path[k], vertical, forward)
    ensures d == None ==> forall k :: 0 <= k < |path| ==> !HasSeam(path[k], vertical, forward)
  {
    if path == [] then None
    else
      var last := |path| - 1;
      if HasSeam(path[last], vertical, forward) then Some(last) else SeamDepth(path[..last], vertical, forward)
  }

  /** One step down: the child's edge on that side is its parent's, unless the
      step has a seam there, in which case it lies strictly inside. */
  lemma StepEdge(b: Box, s: Step, vertical: bool, forward: bool)
    requires Real(b) && s.node.Split? && s.index < |s.node.children|
    ensures var child := BoxAt(b, [s]);
            && Real(child)
            && Lo(b, vertical) <= Lo(child, vertical) && Hi(child, vertical) <= Hi(b, vertical)
            && (HasSeam(s, vertical, forward) ==> Lo(b, vertical) < Edge(child, vertical, forward) < Hi(b, vertical))
            && (!HasSeam(s, vertical, forward) ==> Edge(child, vertical, forward) == Edge(b, vertical, forward))
  {
    hide ChildBox, Sum;
    var shares := Normalize(s.node.ratios, |s.node.children|);
    SharesAround(shares, s.index);
    assert BoxAt(b, [s]) == ChildBox(b, s.node.vertical, Sum(shares[..s.index]), shares[s.index]);
    ChildEdges(b, s.node.vertical, Sum(shares[..s.index]), shares[s.index], Sum(shares[s.index + 1..]));
  }

  lemma SharesAround(shares: seq<real>, i: nat)
    requires Distribution(shares) && i < |shares|
    ensures Sum(shares[..i]) + shares[i] + Sum(shares[i + 1..]) == 1.0
    ensures Sum(shares[..i]) >= 0.0 && (Sum(shares[..i]) == 0.0 <==> i == 0)
    ensures Sum(shares[i + 1..]) >= 0.0 && (Sum(shares[i + 1..]) == 0.0 <==> i + 1 == |shares|)
  {
    var tail := shares[i + 1..];
    assert shares == shares[..i] + ([shares[i]] + tail);
    SumConcat(shares[..i], [shares[i]] + tail);
    assert ([shares[i]] + tail)[1..] == tail;
    SumPositive(shares[..i]);
    SumPositive(tail);
  }

  lemma ChildEdges(b: Box, vertical: bool, before: real, share: real, tail: real)
    requires Real(b) && before >= 0.0 && share > 0.0 && tail >= 0.0 && before + share + tail == 1.0
    ensures var child := ChildBox(b, vertical, before, share);
            && Real(child)
            && Lo(child, !vertical) == Lo(b, !vertical) && Hi(child, !vertical) == Hi(b, !vertical)
            && Lo(b, vertical) <= Lo(child, vertical) < Hi(child, vertical) <= Hi(b, vertical)
            && (before == 0.0 <==> Lo(child, vertical) == Lo(b, vertical))
            && (tail == 0.0 <==> Hi(child, vertical) == Hi(b, vertical))
  {
    var len := Len(b, vertical);
    assert before * len + share * len + tail * len == len;
    assert share * len > 0.0;
    assert before * len >= 0.0 && (before == 0.0 <==> before * len == 0.0);
    assert tail * len >= 0.0 && (tail == 0.0 <==> tail * len == 0.0);
  }

  lemma DeeperSeam(path: seq<Step>, vertical: bool, forward: bool)
    requires path != []
    ensures SeamDepth(path, vertical, forward) == match SeamDepth(path[1..], vertical, forward)
              case Some(below) => Some(below + 1)
              case None => if HasSeam(path[0], vertical, forward) then Some(0) else None
  {
    hide HasSeam;
    var below, d := SeamDepth(path[1..], vertical, forward), SeamDepth(path, vertical, forward);
    if below.Some? {
      assert path[below.value + 1] == path[1..][below.value];
    }
    if d.Some? && d.value > 0 {
      assert path[d.value] == path[1..][d.value - 1];
    }
  }

  /** Down the whole path: without a seam on that side the pane reaches its
      ancestor's edge; with one, its edge lies inside and on the deepest seam. */
  ghost predicate EdgeOnSeam(b: Box, path: seq<Step>, vertical: bool, forward: bool) {
    var pane := BoxAt(b, path);
    && Lo(b, vertical) <= Lo(pane, vertical) && Hi(pane, vertical) <= Hi(b, vertical)
    && match SeamDepth(path, vertical, forward)
       case None => Edge(pane, vertical, forward) == Edge(b, vertical, forward)
       case Some(d) =>
         && Lo(b, vertical) < Edge(pane, vertical, forward) < Hi(b, vertical)
         && Edge(pane, vertical, forward) == Edge(BoxAt(b, path[..d + 1]), vertical, forward)
  }

  lemma OneStep(b: Box, path: seq<Step>)
    requires path != [] && path[0].node.Split? && path[0].index < |path[0].node.children|
    ensures BoxAt(b, path) == BoxAt(BoxAt(b, [path[0]]), path[1..])
    ensures BoxAt(b, path[..1]) == BoxAt(b, [path[0]])
  {
    hide ChildBox;
    assert [path[0]][1..] == [] && path[..1] == [path[0]];
  }

  lemma {:induction false} PathEdge(t: PaneNode, b: Box, path: seq<Step>, id: PaneId, vertical: bool, forward: bool)
    requires IsPath(t, path, id) && Real(b)
    ensures EdgeOnSeam(b, path, vertical, forward)
    decreases |path|
  {
    hide HasSeam, BoxAt, Edge, Lo, Hi, SeamDepth;
    if path == [] {
      NoSteps(b, vertical, forward);
    } else {
      var child := BoxAt(b, [path[0]]);
      StepEdge(b, path[0], vertical, forward);
      OneStep(b, path);
      PathEdge(t.children[path[0].index], child, path[1..], id, vertical, forward);
      DeeperSeam(path, vertical, forward);
      var below := SeamDepth(path[1..], vertical, forward);
      if below.Some? {
        var upTo := path[..below.value + 2];
        assert upTo[0] == path[0] && upTo[1..] == path[1..][..below.value + 1];
        OneStep(b, upTo);
      }
    }
  }

  lemma NoSteps(b: Box, vertical: bool, forward: bool)
    ensures EdgeOnSeam(b, [], vertical, forward)
  {
  }

  lemma SeamOrWindow(path: seq<Step>, vertical: bool, forward: bool)
    requires EdgeOnSeam(WINDOW, path, vertical, forward)
    ensures SeamDepth(path, vertical, forward) == None <==> AtWindowEdge(BoxAt(WINDOW, path), vertical, forward)
  {
    hide SeamDepth, BoxAt;
  }

  lemma SeamIsEdge(t: PaneNode, id: PaneId, path: seq<Step>, vertical: bool, forward: bool) returns (at: nat)
    requires Solid(t) && PathTo(t, id) == Some(path)
    ensures at < |Layout(t)| && Layout(t)[at] == PaneRect(id, BoxAt(WINDOW, path))
    ensures SeamDepth(path, vertical, forward) == None <==> AtWindowEdge(BoxAt(WINDOW, path), vertical, forward)
  {
    hide SeamDepth, BoxAt, PathTo, IsPath, EdgeOnSeam, Rects, HasSeam, Solid;
    PathToIsPath(t, id);
    PathEdge(t, WINDOW, path, id, vertical, forward);
    SeamOrWindow(path, vertical, forward);
    BoxAtIsRect(t, WINDOW, path, id);
    at :| 0 <= at < |Layout(t)| && Layout(t)[at] == PaneRect(id, BoxAt(WINDOW, path));
  }

  /** A pane has a divider to move toward a side exactly when that side is not the
      window's edge, which is exactly when it has a neighbour there. */
  lemma SeamUnlessAtWindowEdge(t: PaneNode, id: PaneId, path: seq<Step>, vertical: bool, forward: bool)
    requires Solid(t) && Distinct(t)
    requires PathTo(t, id) == Some(path)
    ensures PaneRect(id, BoxAt(WINDOW, path)) in Layout(t)
    ensures SeamDepth(path, vertical, forward) == None <==> AtWindowEdge(BoxAt(WINDOW, path), vertical, forward)
    ensures forall k :: 0 <= k < |Layout(t)| && Layout(t)[k].id == id ==>
              (SeamDepth(path, vertical, forward) == None
               <==> forall j :: 0 <= j < |Layout(t)| ==> !Candidate(Layout(t)[k], Layout(t)[j], vertical, forward, 0.0))
  {
    var at := SeamIsEdge(t, id, path, vertical, forward);
    ExactIsWideEnough(t);
    hide SeamDepth, BoxAt, PathTo, AtWindowEdge, Candidate, Layout, Solid, Distinct, Wider;
    forall k | 0 <= k < |Layout(t)| && Layout(t)[k].id == id
      ensures SeamDepth(path, vertical, forward) == None
         <==> forall j :: 0 <= j < |Layout(t)| ==> !Candidate(Layout(t)[k], Layout(t)[j], vertical, forward, 0.0)
    {
      SameIdSamePane(t, k, at);
      CandidateExists(t, k, vertical, forward, 0.0);
    }
  }

  // ------------------------------------------------------------ resizePane

  /** The split with its pair redistributed. */
  function Redistributed(node: PaneNode, i: nat, j: nat, wanted: real): (next: PaneNode)
    requires node.Split? && i < |node.children| && j < |node.children|
    ensures next.Split? && |next.ratios| == |node.children|
  {
    var shares := Normalize(node.ratios, |node.children|);
    node.(ratios := Moved(shares, i, j, Held(shares[i] + shares[j], wanted)))
  }

  function Other(index: nat, forward: bool): int { if forward then index + 1 else index - 1 }

  /** What `resizePane` answers, given the seam it settles on. */
  function ResizedAt(t: PaneNode, s: Step, forward: bool, step: real, eps: real): PaneNode
    requires HasSeam(s, s.node.Split? && s.node.vertical, forward)
  {
    var shares := Normalize(s.node.ratios, |s.node.children|);
    var j := Other(s.index, forward);
    var grown := Held(shares[s.index] + shares[j], shares[s.index] + step);
    if Abs(grown - shares[s.index]) <= eps then t
    else ReplaceNode(t, s.node.id, Redistributed(s.node, s.index, j, shares[s.index] + step))
  }

  function Resized(t: PaneNode, leafId: PaneId, vertical: bool, forward: bool, step: real, eps: real): PaneNode {
    match PathTo(t, leafId)
    case None => t
    case Some(path) =>
      match SeamDepth(path, vertical, forward)
      case None => t
      case Some(d) => ResizedAt(t, path[d], forward, step, eps)
  }

  lemma ResizedInSteps(t: PaneNode, s: Step, forward: bool, step: real, eps: real)
    requires HasSeam(s, s.node.Split? && s.node.vertical, forward)
    ensures var ratios := Normalize(s.node.ratios, |s.node.children|);
            var other := Other(s.index, forward);
            var grown := Held(ratios[s.index] + ratios[other], ratios[s.index] + step);
            ResizedAt(t, s, forward, step, eps)
            == if Abs(grown - ratios[s.index]) <= eps then t
               else ReplaceNode(t, s.node.id, s.node.(ratios := ratios[s.index := grown][other := ratios[s.index] + ratios[other] - grown]))
  {
    hide Held, ReplaceNode, Normalize, Abs;
  }

  /** Both sides of the axis in one: the walk up the path, deepest step first. */
  method ResizeToward(t: PaneNode, path: seq<Step>, wantVertical: bool, forward: bool, step: real, eps: real) returns (r: PaneNode)
    ensures r == match SeamDepth(path, wantVertical, forward)
                 case None => t
                 case Some(d) => ResizedAt(t, path[d], forward, step, eps)
  {
    hide Held, ReplaceNode, Normalize, Abs, SeamDepth, ResizedAt, Redistributed;
    var d := |path|;
    while d > 0
      invariant 0 <= d <= |path|
      invariant forall k :: d <= k < |path| ==> !HasSeam(path[k], wantVertical, forward)
    {
      d := d - 1;
      var node, index := path[d].node, path[d].index;
      if node.Leaf? || index >= |node.children| || node.vertical != wantVertical {
        continue;
      }
      var other := if forward then index + 1 else index - 1;
      if other < 0 || other >= |node.children| {
        continue;
      }
      DeepestSeam(path, wantVertical, forward, d);
      ResizedInSteps(t, path[d], forward, step, eps);
      hide HasSeam;
      var ratios := Normalize(node.ratios, |node.children|);
      var pairSum := ratios[index] + ratios[other];
      var grown := Held(pairSum, ratios[index] + step);
      if Abs(grown - ratios[index]) <= eps {
        return t;
      }
      ratios := ratios[index := grown];
      ratios := ratios[other := pairSum - grown];
      return ReplaceNode(t, node.id, node.(ratios := ratios));
    }
    return t;
  }

  lemma DeepestSeam(path: seq<Step>, vertical: bool, forward: bool, d: nat)
    requires d < |path| && HasSeam(path[d], vertical, forward)
    requires forall k :: d < k < |path| ==> !HasSeam(path[k], vertical, forward)
    ensures SeamDepth(path, vertical, forward) == Some(d)
  {
    hide HasSeam;
  }

  method ResizePane(t: PaneNode, leafId: PaneId, dir: PaneDir, step: real, eps: real) returns (r: PaneNode)
    ensures r == Resized(t, leafId, dir.Vertical(), dir.Forward(), step, eps)
  {
    var found := PathTo(t, leafId);
    if found == None {
      return t;
    }
    r := ResizeToward(t, found.value, dir.Vertical(), dir.Forward(), step, eps);
  }

  // ------------------------------------------------------- setPaneBoundary

  /** The first split of that id, in the order `splitRects` lists them. */
  function FindSplit(t: PaneNode, id: PaneId): Option<PaneNode>
    decreases t
  {
    match t
    case Leaf(_, _, _, _, _) => None
    case Split(own, _, _, children) => if own == id then Some(t) else FindSplitIn(children, id)
  }

  function FindSplitIn(ts: seq<PaneNode>, id: PaneId): Option<PaneNode>
    decreases ts
  {
    if ts == [] then None
    else
      var hit := FindSplit(ts[0], id);
      if hit.Some? then hit else FindSplitIn(ts[1..], id)
  }

  function SetPaneBoundary(t: PaneNode, splitId: PaneId, index: int, position: real): PaneNode {
    match FindSplit(t, splitId)
    case None => t
    case Some(node) =>
      if node.Leaf? || index < 0 || index >= |node.children| - 1 then t
      else
        var shares := Normalize(node.ratios, |node.children|);
        ReplaceNode(t, node.id, Redistributed(node, index, index + 1, position - Sum(shares[..index])))
  }

  lemma {:induction false} FindSplitHolds(t: PaneNode, id: PaneId)
    ensures FindSplit(t, id).Some? ==>
              FindSplit(t, id).value.Split? && FindSplit(t, id).value.id == id && Holds(t, FindSplit(t, id).value)
    decreases t
  {
    if t.Split? {
      FindSplitInHolds(t.children, id);
    }
  }

  lemma {:induction false} FindSplitInHolds(ts: seq<PaneNode>, id: PaneId)
    ensures FindSplitIn(ts, id).Some? ==>
              FindSplitIn(ts, id).value.Split? && FindSplitIn(ts, id).value.id == id && HoldsIn(ts, FindSplitIn(ts, id).value)
    decreases ts
  {
    if ts != [] {
      FindSplitHolds(ts[0], id);
      FindSplitInHolds(ts[1..], id);
    }
  }

  lemma {:induction false} PathHolds(t: PaneNode, path: seq<Step>, id: PaneId, d: nat)
    requires IsPath(t, path, id) && d < |path|
    ensures Holds(t, path[d].node) && path[d].node.Split? && path[d].index < |path[d].node.children|
    decreases |path|
  {
    if d > 0 {
      PathHolds(t.children[path[0].index], path[1..], id, d - 1);
      HoldsChild(t.children, path[0].index, path[d].node);
    }
  }

  lemma {:induction false} HoldsChild(ts: seq<PaneNode>, i: nat, node: PaneNode)
    requires i < |ts| && Holds(ts[i], node)
    ensures HoldsIn(ts, node)
  {
    if i > 0 {
      HoldsChild(ts[1..], i - 1, node);
    }
  }

  // ------------------------------------------------------------ the promise

  /** Two neighbouring children, what they share, and the panes below them. */
  predicate Pair(node: PaneNode, i: nat, j: nat) {
    node.Split? && i < |node.children| && j < |node.children| && (j == i + 1 || i == j + 1)
  }

  function PairShare(node: PaneNode, i: nat, j: nat): real
    requires Pair(node, i, j)
  {
    Normalize(node.ratios, |node.children|)[i] + Normalize(node.ratios, |node.children|)[j]
  }

  function PairLeaves(node: PaneNode, i: nat, j: nat): seq<PaneId>
    requires Pair(node, i, j)
  {
    Leaves(node.children[Least(i, j)]) + Leaves(node.children[Least(i, j) + 1])
  }

  lemma RedistributedTrades(node: PaneNode, i: nat, j: nat, wanted: real)
    requires Pair(node, i, j) && PairShare(node, i, j) > PANE_MIN_SHARE
    ensures var next := Redistributed(node, i, j, wanted);
            && next == node.(ratios := next.ratios)
            && Trades(node, next.ratios, Least(i, j))
            && Distribution(next.ratios) && next.ratios[i] + next.ratios[j] == PairShare(node, i, j)
            && (PairShare(node, i, j) >= 2.0 * PANE_MIN_SHARE ==>
                  next.ratios[i] >= PANE_MIN_SHARE && next.ratios[j] >= PANE_MIN_SHARE)
  {
    hide Held, Moved, Normalize, Distribution, Sum;
    MovedShares(Normalize(node.ratios, |node.children|), i, j, wanted);
  }

  /** Redistributing a pair that has room to share: the pair keeps its combined
      share, both sides stay positive and at least at the least share when the
      pair has twice that, and no rectangle outside the two subtrees moves. */
  lemma RedistributingIsLocal(t: PaneNode, node: PaneNode, i: nat, j: nat, wanted: real)
    requires Distinct(t) && Holds(t, node) && Pair(node, i, j) && PairShare(node, i, j) > PANE_MIN_SHARE
    ensures var next := Redistributed(node, i, j, wanted);
            && Distribution(next.ratios) && next.ratios[i] + next.ratios[j] == PairShare(node, i, j)
            && (PairShare(node, i, j) >= 2.0 * PANE_MIN_SHARE ==>
                  next.ratios[i] >= PANE_MIN_SHARE && next.ratios[j] >= PANE_MIN_SHARE)
            && OnlyMoves(Layout(t), Layout(ReplaceNode(t, node.id, next)), PairLeaves(node, i, j))
            && (Proper(t) ==> Proper(ReplaceNode(t, node.id, next)))
  {
    var next := Redistributed(node, i, j, wanted);
    RedistributedTrades(node, i, j, wanted);
    assert NodeIds(t)[node.id] <= 1;
    hide Held, Moved, Redistributed, Trades, Distribution, PairShare, Proper, NodeIds, OnlyMoves, Holds, ReplaceNode;
    ReplaceMovesPair(t, WINDOW, node, next.ratios, Least(i, j), PairLeaves(node, i, j));
    if Proper(t) {
      ReplaceProperIff(t, node, next.ratios);
    }
  }

  function Least(i: nat, j: nat): nat { if j < i then j else i }

  /** A proper tree given other ratios for one split stays proper exactly when
      those are a distribution. */
  lemma {:induction false} ReplaceProperIff(t: PaneNode, node: PaneNode, shares: seq<real>)
    requires Proper(t) && Holds(t, node) && node.Split? && NodeIds(t)[node.id] <= 1
    requires |shares| == |node.children|
    ensures Proper(ReplaceNode(t, node.id, node.(ratios := shares))) <==> Distribution(shares)
    decreases t
  {
    if t.id == node.id {
      HeldAtRoot(t, node);
    } else {
      ReplaceProperIffIn(t.children, node, shares);
    }
  }

  lemma {:induction false} ReplaceProperIffIn(ts: seq<PaneNode>, node: PaneNode, shares: seq<real>)
    requires ProperAll(ts) && HoldsIn(ts, node) && node.Split? && NodeIdsOf(ts)[node.id] <= 1
    requires |shares| == |node.children|
    ensures ProperAll(ReplaceNodeIn(ts, node.id, node.(ratios := shares))) <==> Distribution(shares)
    decreases ts
  {
    var next := node.(ratios := shares);
    var head, tail := ReplaceNode(ts[0], node.id, next), ReplaceNodeIn(ts[1..], node.id, next);
    assert ([head] + tail)[1..] == tail;
    if Holds(ts[0], node) {
      HeldIsNode(ts[0], node);
      ReplaceAbsentIn(ts[1..], node.id, next);
      ReplaceProperIff(ts[0], node, shares);
    } else {
      HeldIsNodeIn(ts[1..], node);
      ReplaceAbsent(ts[0], node.id, next);
      ReplaceProperIffIn(ts[1..], node, shares);
    }
  }

  /** Dragging a divider of a pair with room to share moves only that pair. */
  lemma DragIsLocal(t: PaneNode, splitId: PaneId, node: PaneNode, index: nat, position: real)
    requires Distinct(t) && FindSplit(t, splitId) == Some(node)
    requires Pair(node, index, index + 1) && PairShare(node, index, index + 1) > PANE_MIN_SHARE
    ensures OnlyMoves(Layout(t), Layout(SetPaneBoundary(t, splitId, index, position)), PairLeaves(node, index, index + 1))
    ensures Proper(t) ==> Proper(SetPaneBoundary(t, splitId, index, position))
  {
    hide Redistributed, Layout, Proper, ReplaceNode, FindSplit;
    FindSplitHolds(t, splitId);
    RedistributingIsLocal(t, node, index, index + 1, position - Sum(Normalize(node.ratios, |node.children|)[..index]));
  }

  lemma LastShare(s: seq<real>, ratios: seq<real>, index: nat)
    requires |ratios| == |s| && index < |s| && forall k :: 0 <= k < index ==> ratios[k] == s[k]
    ensures Sum(ratios[..index + 1]) == Sum(s[..index]) + ratios[index]
  {
    assert ratios[..index + 1] == s[..index] + [ratios[index]];
    SumConcat(s[..index], [ratios[index]]);
    assert [ratios[index]][1..] == [];
  }

  /** The split put back is the one found under its id. */
  lemma {:induction false} ReplacedIsFound(t: PaneNode, node: PaneNode, next: PaneNode)
    requires FindSplit(t, node.id) == Some(node) && NodeIds(t)[node.id] <= 1 && next.Split? && next.id == node.id
    ensures FindSplit(ReplaceNode(t, node.id, next), node.id) == Some(next)
    decreases t
  {
    if t.id != node.id {
      ReplacedIsFoundIn(t.children, node, next);
    }
  }

  lemma {:induction false} ReplacedIsFoundIn(ts: seq<PaneNode>, node: PaneNode, next: PaneNode)
    requires FindSplitIn(ts, node.id) == Some(node) && NodeIdsOf(ts)[node.id] <= 1 && next.Split? && next.id == node.id
    ensures FindSplitIn(ReplaceNodeIn(ts, node.id, next), node.id) == Some(next)
    decreases ts
  {
    var head, tail := ReplaceNode(ts[0], node.id, next), ReplaceNodeIn(ts[1..], node.id, next);
    assert ([head] + tail)[1..] == tail;
    FindSplitHolds(ts[0], node.id);
    if FindSplit(ts[0], node.id).Some? {
      ReplacedIsFound(ts[0], node, next);
    } else {
      FindSplitInHolds(ts[1..], node.id);
      HeldIsNodeIn(ts[1..], node);
      ReplaceAbsent(ts[0], node.id, next);
      ReplacedIsFoundIn(ts[1..], node, next);
    }
  }

  /** Where a drag leaves the divider: at the position it was dropped at, as a share
      of its split, or as near to it as leaves both sides the least share; a pair
      without room for that puts it the least share before its end. */
  lemma DragLands(t: PaneNode, splitId: PaneId, node: PaneNode, index: nat, position: real)
    requires Distinct(t) && FindSplit(t, splitId) == Some(node) && Pair(node, index, index + 1)
    ensures var before := Sum(Normalize(node.ratios, |node.children|)[..index]);
            var end := before + PairShare(node, index, index + 1) - PANE_MIN_SHARE;
            var found := FindSplit(SetPaneBoundary(t, splitId, index, position), splitId);
            && found.Some? && found.value.Split? && |found.value.ratios| == |node.children| && found.value.children == node.children
            && Sum(found.value.ratios[..index + 1])
               == if position > end || end < before + PANE_MIN_SHARE then end
                  else if position < before + PANE_MIN_SHARE then before + PANE_MIN_SHARE
                  else position
  {
    hide Held, Sum, Normalize, Distribution;
    var s := Normalize(node.ratios, |node.children|);
    var before := Sum(s[..index]);
    var next := Redistributed(node, index, index + 1, position - before);
    MovedShares(s, index, index + 1, position - before);
    LastShare(s, next.ratios, index);
    FindSplitHolds(t, splitId);
    assert NodeIds(t)[node.id] <= 1;
    assert SetPaneBoundary(t, splitId, index, position) == ReplaceNode(t, node.id, next);
    hide ReplaceNode, FindSplit, Redistributed;
    ReplacedIsFound(t, node, next);
  }

  /** Pressing the resize key moves only the two subtrees at the pane's seam. */
  lemma ResizeIsLocal(t: PaneNode, leafId: PaneId, path: seq<Step>, d: nat, vertical: bool, forward: bool, step: real, eps: real)
    requires Distinct(t) && PathTo(t, leafId) == Some(path) && SeamDepth(path, vertical, forward) == Some(d)
    requires PairShare(path[d].node, path[d].index, Other(path[d].index, forward)) > PANE_MIN_SHARE
    ensures OnlyMoves(Layout(t), Layout(Resized(t, leafId, vertical, forward, step, eps)),
                      PairLeaves(path[d].node, path[d].index, Other(path[d].index, forward)))
    ensures Proper(t) ==> Proper(Resized(t, leafId, vertical, forward, step, eps))
  {
    SeamPair(t, leafId, path, d, vertical, forward);
    var s := path[d];
    var wanted := Normalize(s.node.ratios, |s.node.children|)[s.index] + step;
    assert Resized(t, leafId, vertical, forward, step, eps) in
      {t, ReplaceNode(t, s.node.id, Redistributed(s.node, s.index, Other(s.index, forward), wanted))};
    hide *;
    RedistributingIsLocal(t, s.node, s.index, Other(s.index, forward), wanted);
    OnlyMovesSelf(Layout(t), PairLeaves(s.node, s.index, Other(s.index, forward)));
  }

  lemma OnlyMovesSelf(rs: seq<PaneRect>, ids: seq<PaneId>)
    ensures OnlyMoves(rs, rs, ids)
  {
  }

  lemma SeamPair(t: PaneNode, leafId: PaneId, path: seq<Step>, d: nat, vertical: bool, forward: bool)
    requires PathTo(t, leafId) == Some(path) && SeamDepth(path, vertical, forward) == Some(d)
    ensures Holds(t, path[d].node) && Other(path[d].index, forward) >= 0
    ensures Pair(path[d].node, path[d].index, Other(path[d].index, forward))
  {
    PathToIsPath(t, leafId);
    PathHolds(t, path, leafId, d);
  }
}
