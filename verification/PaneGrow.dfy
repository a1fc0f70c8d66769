/** When the grow key of `resizePane` in `src/paneTree.ts` takes space from the
    very pane it is pressed in, read off the rectangles before and after. */
module PaneGrow {
  import opened Options
  import opened PaneTree
  import opened PaneLayout
  import opened PaneNeighbor
  import opened PaneResize
  import opened PaneSeams
  import opened PaneRuns

  // ------------------------------------------- a pane's extent along an axis

  predicate Sound(s: Step) { s.node.Split? && s.index < |s.node.children| }

  /** The part of its split's extent along an axis that a step keeps. */
  function StepLen(s: Step, vertical: bool): (len: real)
    requires Sound(s)
    ensures len > 0.0
  {
    if s.node.vertical == vertical then Normalize(s.node.ratios, |s.node.children|)[s.index] else 1.0
  }

  predicate AllSound(path: seq<Step>) { forall k :: 0 <= k < |path| ==> Sound(path[k]) }

  function PathLen(path: seq<Step>, vertical: bool): (len: real)
    requires AllSound(path)
    ensures len > 0.0
  {
    if path == [] then 1.0 else Times(StepLen(path[0], vertical), PathLen(path[1..], vertical))
  }

  function Times(a: real, b: real): (r: real)
    ensures a > 0.0 && b > 0.0 ==> r > 0.0
  {
    a * b
  }

  lemma TimesOrder(a: real, b: real, c: real)
    requires a > 0.0 && b > 0.0 && c > 0.0
    ensures (Times(a, c) >= Times(b, c) <==> a >= b) && (Times(c, a) >= Times(c, b) <==> a >= b)
  {
    assert (a - b) * c == a * c - b * c;
    if a >= b {
      assert (a - b) * c >= 0.0;
    } else {
      assert (b - a) * c > 0.0;
    }
  }

  lemma ChildLen(b: Box, way: bool, along: real, share: real, vertical: bool)
    ensures Len(ChildBox(b, way, along, share), vertical) == Times(if way == vertical then share else 1.0, Len(b, vertical))
  {
  }

  /** The pane's extent is the window's times what every step along the axis keeps. */
  lemma {:induction false} PathLenIsLen(b: Box, path: seq<Step>, vertical: bool)
    requires AllSound(path)
    ensures Len(BoxAt(b, path), vertical) == Times(PathLen(path, vertical), Len(b, vertical))
    decreases |path|
  {
    if path != [] {
      var child := FirstBox(b, path, vertical);
      hide *;
      PathLenIsLen(child, path[1..], vertical);
      Regrouped(StepLen(path[0], vertical), PathLen(path[1..], vertical), Len(b, vertical));
      UnfoldPathLen(path, vertical);
    }
  }

  lemma FirstBox(b: Box, path: seq<Step>, vertical: bool) returns (child: Box)
    requires AllSound(path) && path != []
    ensures AllSound(path[1..]) && BoxAt(b, path) == BoxAt(child, path[1..])
    ensures Len(child, vertical) == Times(StepLen(path[0], vertical), Len(b, vertical))
  {
    hide ChildBox, Sum, Len, Usable, Distribution, Normalize, Times;
    var s := path[0];
    var shares := Normalize(s.node.ratios, |s.node.children|);
    child := ChildBox(b, s.node.vertical, Sum(shares[..s.index]), shares[s.index]);
    ChildLen(b, s.node.vertical, Sum(shares[..s.index]), shares[s.index], vertical);
  }

  lemma Regrouped(a: real, p: real, len: real)
    ensures Times(p, Times(a, len)) == Times(Times(a, p), len)
  {
  }

  lemma UnfoldPathLen(path: seq<Step>, vertical: bool)
    requires AllSound(path) && path != []
    ensures PathLen(path, vertical) == Times(StepLen(path[0], vertical), PathLen(path[1..], vertical))
  {
  }

  /** Two paths that keep the same at every step but one compare as that step does. */
  lemma {:induction false} OneStepDecides(was: seq<Step>, now: seq<Step>, d: nat, vertical: bool)
    requires |was| == |now| && d < |was| && AllSound(was) && AllSound(now)
    requires forall k :: 0 <= k < |was| && k != d ==> StepLen(now[k], vertical) == StepLen(was[k], vertical)
    ensures PathLen(now, vertical) >= PathLen(was, vertical) <==> StepLen(now[d], vertical) >= StepLen(was[d], vertical)
  {
    hide StepLen, Times, Sound;
    if d == 0 {
      SameLen(was[1..], now[1..], vertical);
      TimesOrder(StepLen(now[0], vertical), StepLen(was[0], vertical), PathLen(was[1..], vertical));
    } else {
      OneStepDecides(was[1..], now[1..], d - 1, vertical);
      TimesOrder(PathLen(now[1..], vertical), PathLen(was[1..], vertical), StepLen(was[0], vertical));
    }
  }

  lemma {:induction false} SameLen(was: seq<Step>, now: seq<Step>, vertical: bool)
    requires |was| == |now| && AllSound(was) && AllSound(now)
    requires forall k :: 0 <= k < |was| ==> StepLen(now[k], vertical) == StepLen(was[k], vertical)
    ensures PathLen(now, vertical) == PathLen(was, vertical)
  {
    hide StepLen, Times, Sound;
    if was != [] {
      SameLen(was[1..], now[1..], vertical);
    }
  }

  // ------------------------------------------- the path after a replacement

  /** The path through the tree with the split at step `d` replaced. */
  function Along(path: seq<Step>, d: nat, next: PaneNode): (now: seq<Step>)
    requires d < |path|
    ensures |now| == |path| && now[d] == Step(next, path[d].index)
    decreases d
  {
    if d == 0 then [Step(next, path[0].index)] + path[1..]
    else [Step(ReplaceNode(path[0].node, path[d].node.id, next), path[0].index)] + Along(path[1..], d - 1, next)
  }

  lemma {:induction false} ReplaceNodeInAt(ts: seq<PaneNode>, id: PaneId, next: PaneNode, i: nat)
    requires i < |ts|
    ensures ReplaceNodeIn(ts, id, next)[i] == ReplaceNode(ts[i], id, next)
  {
    if i > 0 {
      ReplaceNodeInAt(ts[1..], id, next, i - 1);
    }
  }

  lemma {:induction false} NodeIdsAt(ts: seq<PaneNode>, i: nat, id: PaneId)
    requires i < |ts|
    ensures NodeIds(ts[i])[id] <= NodeIdsOf(ts)[id]
  {
    if i > 0 {
      NodeIdsAt(ts[1..], i - 1, id);
    }
  }

  lemma {:induction false} PathIsSound(t: PaneNode, path: seq<Step>, id: PaneId)
    requires IsPath(t, path, id)
    ensures AllSound(path)
    decreases |path|
  {
    if path != [] {
      PathIsSound(t.children[path[0].index], path[1..], id);
      forall k | 0 <= k < |path|
        ensures Sound(path[k])
      {
        assert k > 0 ==> path[k] == path[1..][k - 1];
      }
    }
  }

  /** The pane is found along the replaced path. */
  lemma {:induction false} AlongIsPath(t: PaneNode, path: seq<Step>, id: PaneId, d: nat, next: PaneNode)
    requires IsPath(t, path, id) && d < |path| && NodeIds(t)[path[d].node.id] <= 1
    requires next.Split? && path[d].node.Split? && next.children == path[d].node.children
    ensures IsPath(ReplaceNode(t, path[d].node.id, next), Along(path, d, next), id)
    ensures forall k :: 0 <= k < d ==> path[k].node.id != path[d].node.id
    decreases d
  {
    hide Holds, HoldsIn;
    var node := path[d].node;
    if d == 0 {
      assert Along(path, d, next)[1..] == path[1..];
    } else {
      AlongDown(t, path, id, d);
      var i := path[0].index;
      AlongIsPath(t.children[i], path[1..], id, d - 1, next);
      ReplaceNodeInAt(t.children, node.id, next, i);
      hide NodeIds, ReplaceNodeIn;
      assert Along(path, d, next)[1..] == Along(path[1..], d - 1, next);
      forall k | 0 <= k < d
        ensures path[k].node.id != node.id
      {
        assert k > 0 ==> path[k] == path[1..][k - 1];
      }
    }
  }

  lemma AlongDown(t: PaneNode, path: seq<Step>, id: PaneId, d: nat)
    requires IsPath(t, path, id) && 0 < d < |path| && NodeIds(t)[path[d].node.id] <= 1
    ensures t.Split? && path[0].index < |t.children| && t.id != path[d].node.id
    ensures NodeIds(t.children[path[0].index])[path[d].node.id] <= 1
  {
    var i := path[0].index;
    PathHolds(t.children[i], path[1..], id, d - 1);
    HoldsChild(t.children, i, path[d].node);
    HeldIsNodeIn(t.children, path[d].node);
    NodeIdsAt(t.children, i, path[d].node.id);
  }

  /** Every step but the one replaced keeps what it kept. */
  lemma {:induction false} AlongKeeps(path: seq<Step>, d: nat, shares: seq<real>, vertical: bool)
    requires d < |path| && AllSound(path) && forall k :: 0 <= k < d ==> path[k].node.id != path[d].node.id
    ensures var now := Along(path, d, path[d].node.(ratios := shares));
            AllSound(now) && forall k :: 0 <= k < |path| && k != d ==> StepLen(now[k], vertical) == StepLen(path[k], vertical)
    decreases d
  {
    hide Normalize;
    var now := Along(path, d, path[d].node.(ratios := shares));
    if d > 0 {
      AlongKeeps(path[1..], d - 1, shares, vertical);
    }
    forall k | 0 <= k < |path|
      ensures Sound(now[k]) && (k != d ==> StepLen(now[k], vertical) == StepLen(path[k], vertical))
    {
      if k > 0 {
        assert path[k] == path[1..][k - 1] && now[k] == now[1..][k - 1];
      }
    }
  }

  // ------------------------------------------------------------ the grow key

  /** The key leaves the tree as it is, or the other side of the seam has the least
      share, or, for a pair at or under the least share, an even share is no loss. */
  predicate HoldsGround(s: Step, forward: bool, step: real, eps: real)
    requires HasSeam(s, s.node.Split? && s.node.vertical, forward)
  {
    var shares := Normalize(s.node.ratios, |s.node.children|);
    var mine, theirs := shares[s.index], shares[Other(s.index, forward)];
    || Abs(Held(mine + theirs, mine + step) - mine) <= eps
    || if mine + theirs > PANE_MIN_SHARE then theirs >= PANE_MIN_SHARE else mine <= 1.0 / (|shares| as real)
  }

  lemma OnePaneEach(t: PaneNode, t2: PaneNode, id: PaneId, b: Box, b2: Box, k: nat)
    requires Distinct(t) && Distinct(t2) && Leaves(t2) == Leaves(t)
    requires PaneRect(id, b) in Layout(t) && PaneRect(id, b2) in Layout(t2)
    requires k < |Layout(t)| && Layout(t)[k].id == id
    ensures |Layout(t2)| == |Layout(t)| && Layout(t)[k].box == b && Layout(t2)[k].box == b2
  {
    IdsAreLeaves(t, WINDOW);
    IdsAreLeaves(t2, WINDOW);
    assert |Ids(Layout(t))| == |Layout(t)| && |Ids(Layout(t2))| == |Layout(t2)|;
    assert Ids(Layout(t2))[k] == Ids(Layout(t))[k];
    var at :| 0 <= at < |Layout(t)| && Layout(t)[at] == PaneRect(id, b);
    var at2 :| 0 <= at2 < |Layout(t2)| && Layout(t2)[at2] == PaneRect(id, b2);
    SameIdSamePane(t, k, at);
    SameIdSamePane(t2, k, at2);
  }

  lemma StoredAsMoved(t: PaneNode, s: Step, forward: bool, step: real, eps: real)
    requires HasSeam(s, s.node.Split? && s.node.vertical, forward) && step >= 0.0
    ensures var shares := Normalize(s.node.ratios, |s.node.children|);
            var j := Other(s.index, forward);
            var next := Redistributed(s.node, s.index, j, shares[s.index] + step);
            if Abs(Held(shares[s.index] + shares[j], shares[s.index] + step) - shares[s.index]) <= eps then
              ResizedAt(t, s, forward, step, eps) == t && HoldsGround(s, forward, step, eps)
            else
              && ResizedAt(t, s, forward, step, eps) == ReplaceNode(t, s.node.id, next)
              && next == s.node.(ratios := next.ratios)
              && (Normalize(next.ratios, |s.node.children|)[s.index] >= shares[s.index] <==> HoldsGround(s, forward, step, eps))
  {
    hide Held, ReplaceNode, Normalize, Distribution, Abs;
    GrowNeverShrinksIff(Normalize(s.node.ratios, |s.node.children|), s.index, Other(s.index, forward), step);
  }

  /** The grow key never takes space from the pane it is pressed in exactly when the
      pane holds its ground at the seam: its rectangle is as long as before or longer. */
  lemma GrowKeepsLengthIff(t: PaneNode, id: PaneId, path: seq<Step>, d: nat, vertical: bool, forward: bool,
                           step: real, eps: real, k: nat)
    requires Distinct(t) && PathTo(t, id) == Some(path) && SeamDepth(path, vertical, forward) == Some(d) && step >= 0.0
    requires k < |Layout(t)| && Layout(t)[k].id == id
    ensures var after := Layout(Resized(t, id, vertical, forward, step, eps));
            && |after| == |Layout(t)| && after[k].id == id
            && (Len(after[k].box, vertical) >= Len(Layout(t)[k].box, vertical) <==> HoldsGround(path[d], forward, step, eps))
  {
    hide Layout, Distinct, PathTo, SeamDepth, Held, Normalize, Resized, ResizedAt, Abs, ReplaceNode, IsPath, HoldsGround, Redistributed;
    var s := path[d];
    var shares := Normalize(s.node.ratios, |s.node.children|);
    var j := Other(s.index, forward);
    ResizedAtSeam(t, id, path, d, vertical, forward, step, eps);
    StoredAsMoved(t, s, forward, step, eps);
    if Abs(Held(shares[s.index] + shares[j], shares[s.index] + step) - shares[s.index]) > eps {
      var next := Redistributed(s.node, s.index, j, shares[s.index] + step);
      hide *;
      LongerAsStepIs(t, id, path, d, next.ratios, vertical, k);
    }
  }

  lemma ResizedAtSeam(t: PaneNode, id: PaneId, path: seq<Step>, d: nat, vertical: bool, forward: bool, step: real, eps: real)
    requires PathTo(t, id) == Some(path) && SeamDepth(path, vertical, forward) == Some(d)
    ensures IsPath(t, path, id) && Holds(t, path[d].node) && Sound(path[d])
    ensures path[d].node.vertical == vertical && HasSeam(path[d], vertical, forward)
    ensures Resized(t, id, vertical, forward, step, eps) == ResizedAt(t, path[d], forward, step, eps)
  {
    hide ResizedAt, SeamDepth, PathTo, IsPath, Holds;
    SeamPair(t, id, path, d, vertical, forward);
    PathToIsPath(t, id);
  }

  /** New ratios for the split at step `d` change the pane's extent as they change
      what that step keeps. */
  lemma LongerAsStepIs(t: PaneNode, id: PaneId, path: seq<Step>, d: nat, ratios: seq<real>, vertical: bool, k: nat)
    requires Distinct(t) && IsPath(t, path, id) && d < |path| && path[d].node.Split?
    requires Holds(t, path[d].node) && k < |Layout(t)| && Layout(t)[k].id == id
    requires Sound(path[d]) && path[d].node.vertical == vertical
    ensures var node := path[d].node;
            var after := Layout(ReplaceNode(t, node.id, node.(ratios := ratios)));
            && |after| == |Layout(t)| && after[k].id == id
            && (Len(after[k].box, vertical) >= Len(Layout(t)[k].box, vertical)
                <==> Normalize(ratios, |node.children|)[path[d].index] >= Normalize(node.ratios, |node.children|)[path[d].index])
  {
    var node := path[d].node;
    var next := node.(ratios := ratios);
    var t2 := ReplaceNode(t, node.id, next);
    var now := Along(path, d, next);
    assert NodeIds(t)[node.id] <= 1;
    AlongIsPath(t, path, id, d, next);
    PathIsSound(t, path, id);
    AlongKeeps(path, d, ratios, vertical);
    ReplaceKeepsShape(t, node, ratios);
    BoxAtIsRect(t, WINDOW, path, id);
    BoxAtIsRect(t2, WINDOW, now, id);
    assert Distinct(t2) && Len(WINDOW, vertical) == 1.0;
    assert StepLen(now[d], vertical) == Normalize(ratios, |node.children|)[path[d].index];
    assert StepLen(path[d], vertical) == Normalize(node.ratios, |node.children|)[path[d].index];
    hide *;
    OnePaneEach(t, t2, id, BoxAt(WINDOW, path), BoxAt(WINDOW, now), k);
    PathLenIsLen(WINDOW, path, vertical);
    PathLenIsLen(WINDOW, now, vertical);
    OneStepDecides(path, now, d, vertical);
    SameIndex(t, t2, k);
  }

  lemma SameIndex(t: PaneNode, t2: PaneNode, k: nat)
    requires Leaves(t2) == Leaves(t) && k < |Layout(t)|
    ensures |Layout(t2)| == |Layout(t)| && Layout(t2)[k].id == Layout(t)[k].id
  {
    IdsAreLeaves(t, WINDOW);
    IdsAreLeaves(t2, WINDOW);
    assert |Ids(Layout(t))| == |Layout(t)| && |Ids(Layout(t2))| == |Layout(t2)|;
    assert Ids(Layout(t2))[k] == Ids(Layout(t))[k];
  }

  // ---------------------------------------------------------- rows of panes

  lemma {:induction false} LeavesOfLeaves(ts: seq<PaneNode>)
    requires forall i :: 0 <= i < |ts| ==> ts[i].Leaf?
    ensures |LeavesOf(ts)| == |ts| && forall i :: 0 <= i < |ts| ==> LeavesOf(ts)[i] == ts[i].id
  {
    if ts != [] {
      LeavesOfLeaves(ts[1..]);
    }
  }

  lemma RowPath(t: PaneNode, vertical: bool, n: nat, k: nat)
    requires EvenRow(t, vertical, n) && Distinct(t) && k + 1 < n
    ensures PathTo(t, t.children[k].id) == Some([Step(t, k)])
    ensures SeamDepth([Step(t, k)], vertical, true) == Some(0)
    ensures |Layout(t)| == n && Layout(t)[k].id == t.children[k].id
  {
    hide Rects, PathTo, SeamDepth, Distinct;
    var id := t.children[k].id;
    LeavesOfLeaves(t.children);
    IdsAreLeaves(t, WINDOW);
    assert |Ids(Layout(t))| == |Layout(t)| && Ids(Layout(t))[k] == id;
    PathToIsPath(t, id);
    assert Leaves(t)[k] == id;
    var path := PathTo(t, id).value;
    var i := path[0].index;
    assert Leaves(t)[i] == id && path[1..] == [];
    if i < k {
      LeafPositionsDiffer(t, i, k);
    } else if k < i {
      LeafPositionsDiffer(t, k, i);
    }
    assert path == [Step(t, k)];
  }

  lemma EvenShare(n: nat)
    requires n > 0
    ensures 1.0 / (n as real) < 0.1 <==> n > 10
    ensures 2.0 * (1.0 / (n as real)) > 0.1 <==> n < 20
    ensures 10 < n < 20 ==> 0.1 - 1.0 / (n as real) > 0.005
  {
    var x := 1.0 / (n as real);
    assert x * (n as real) == 1.0;
    assert n > 10 ==> n as real >= 11.0 && x * 11.0 <= x * (n as real);
    assert n <= 10 ==> n as real <= 10.0 && x * 10.0 >= x * (n as real);
    assert n >= 20 ==> n as real >= 20.0 && x * 20.0 <= x * (n as real);
    assert n < 20 ==> n as real <= 19.0 && x * 19.0 >= x * (n as real);
  }

  /** In an even row the grow key makes its own pane smaller exactly when there are
      eleven to nineteen panes, in whichever pane but the last it is pressed. */
  lemma GrowShrinksEvenRowIff(t: PaneNode, vertical: bool, n: nat, k: nat, step: real, eps: real)
    requires EvenRow(t, vertical, n) && Distinct(t) && k + 1 < n && step >= 0.0 && 0.0 <= eps <= 0.005
    ensures var after := Layout(Resized(t, t.children[k].id, vertical, true, step, eps));
            && |after| == |Layout(t)| == n
            && (Len(after[k].box, vertical) < Len(Layout(t)[k].box, vertical) <==> 11 <= n <= 19)
  {
    RowPath(t, vertical, n, k);
    EvenShare(n);
    EvenIsDistribution(n);
    NormalizeKeeps(t.ratios);
    assert HoldsGround(Step(t, k), true, step, eps) <==> !(11 <= n <= 19) by {
      hide Normalize, EvenRow, Distinct;
      var x := 1.0 / (n as real);
      assert Normalize(t.ratios, n) == EvenRatios(n) && EvenRatios(n)[k] == x && EvenRatios(n)[k + 1] == x;
    }
    hide *;
    GrowKeepsLengthIff(t, t.children[k].id, [Step(t, k)], 0, vertical, true, step, eps, k);
  }
}
