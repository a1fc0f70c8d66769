/** Which edge of a pane a resize key moves, and how far, in the coordinates of the
    screen: `resizePane` of `src/paneTree.ts`. */
module PaneEdges {
  import opened Options
  import opened PaneTree
  import opened PaneLayout
  import opened PaneNeighbor
  import opened PaneResize
  import opened PaneSeams
  import opened PaneGrow

  /** The same steps meet the same dividers. */
  lemma {:induction false} SameSeams(was: seq<Step>, now: seq<Step>, vertical: bool, forward: bool)
    requires |was| == |now|
    requires forall k :: 0 <= k < |was| ==> (HasSeam(now[k], vertical, forward) <==> HasSeam(was[k], vertical, forward))
    ensures SeamDepth(now, vertical, forward) == SeamDepth(was, vertical, forward)
  {
    hide HasSeam;
    if was != [] {
      SameSeams(was[..|was| - 1], now[..|now| - 1], vertical, forward);
    }
  }

  /** The replaced path: same indices and dividers, and the same boxes down to step `d`. */
  lemma {:induction false} AlongBoxes(b: Box, path: seq<Step>, d: nat, shares: seq<real>, vertical: bool, forward: bool)
    requires d < |path| && AllSound(path) && forall k :: 0 <= k < d ==> path[k].node.id != path[d].node.id
    ensures var now := Along(path, d, path[d].node.(ratios := shares));
            && BoxAt(b, now[..d]) == BoxAt(b, path[..d])
            && forall k :: 0 <= k < |path| ==> (HasSeam(now[k], vertical, forward) <==> HasSeam(path[k], vertical, forward))
    decreases d
  {
    hide ChildBox, Sum, Normalize;
    var next := path[d].node.(ratios := shares);
    var now := Along(path, d, next);
    if d > 0 {
      var s := path[0];
      var ratios := Normalize(s.node.ratios, |s.node.children|);
      var child := ChildBox(b, s.node.vertical, Sum(ratios[..s.index]), ratios[s.index]);
      AlongBoxes(child, path[1..], d - 1, shares, vertical, forward);
      assert now[..d][1..] == now[1..][..d - 1] && path[..d][1..] == path[1..][..d - 1];
    }
    forall k | 0 <= k < |path|
      ensures HasSeam(now[k], vertical, forward) <==> HasSeam(path[k], vertical, forward)
    {
      if k > 0 {
        assert path[k] == path[1..][k - 1] && now[k] == now[1..][k - 1];
      }
    }
  }

  /** The box one step further down. */
  lemma {:induction false} LastBox(b: Box, path: seq<Step>, s: Step)
    requires AllSound(path) && Sound(s)
    ensures var shares := Normalize(s.node.ratios, |s.node.children|);
            BoxAt(b, path + [s]) == ChildBox(BoxAt(b, path), s.node.vertical, Sum(shares[..s.index]), shares[s.index])
    decreases |path|
  {
    hide ChildBox, Sum, Normalize;
    if path == [] {
      assert [s][1..] == [] && [] + [s] == [s];
    } else {
      var q := path[0];
      var ratios := Normalize(q.node.ratios, |q.node.children|);
      LastBox(ChildBox(b, q.node.vertical, Sum(ratios[..q.index]), ratios[q.index]), path[1..], s);
      assert (path + [s])[1..] == path[1..] + [s];
    }
  }

  /** A child's edge, when what stands before it and its own share change. */
  lemma ChildEdgeMoves(b: Box, vertical: bool, before: real, share: real, before2: real, share2: real, forward: bool)
    ensures Edge(ChildBox(b, vertical, before2, share2), vertical, forward) - Edge(ChildBox(b, vertical, before, share), vertical, forward)
         == Times(if forward then before2 + share2 - before - share else before2 - before, Len(b, vertical))
  {
    ChildEdge(b, vertical, before, share, forward);
    ChildEdge(b, vertical, before2, share2, forward);
    TimesLess(if forward then before2 + share2 else before2, if forward then before + share else before, Len(b, vertical));
    hide *;
  }

  lemma ChildEdge(b: Box, vertical: bool, before: real, share: real, forward: bool)
    ensures Edge(ChildBox(b, vertical, before, share), vertical, forward)
         == Lo(b, vertical) + Times(if forward then before + share else before, Len(b, vertical))
  {
    assert (before + share) * Len(b, vertical) == before * Len(b, vertical) + share * Len(b, vertical);
  }

  lemma TimesLess(a: real, b: real, len: real)
    ensures Times(a, len) - Times(b, len) == Times(a - b, len)
  {
    assert (a - b) * len == a * len - b * len;
  }

  /** What stands before a child whose pair trades. */
  lemma BeforeMoves(shares: seq<real>, moved: seq<real>, i: nat, forward: bool)
    requires |moved| == |shares| && i < |shares| && (if forward then i + 1 < |shares| else 0 < i)
    requires forall k :: 0 <= k < |shares| && k != i && k != Other(i, forward) ==> moved[k] == shares[k]
    requires moved[i] + moved[Other(i, forward)] == shares[i] + shares[Other(i, forward)]
    ensures Sum(moved[..i]) - Sum(shares[..i]) == if forward then 0.0 else shares[i] - moved[i]
  {
    if forward {
      assert moved[..i] == shares[..i];
    } else {
      LastShare(shares, moved, i - 1);
      LastShare(shares, shares, i - 1);
    }
  }

  /** The shares of a split where only the pair at the divider trades. */
  predicate TradesAt(s: Step, moved: seq<real>, forward: bool)
    requires HasSeam(s, s.node.Split? && s.node.vertical, forward)
  {
    var shares, i, j := Normalize(s.node.ratios, |s.node.children|), s.index, Other(s.index, forward);
    && |moved| == |shares| && Distribution(moved) && moved[i] + moved[j] == shares[i] + shares[j]
    && forall n :: 0 <= n < |moved| && n != i && n != j ==> moved[n] == shares[n]
  }

  function Gained(s: Step, moved: seq<real>): real
    requires Sound(s) && |moved| == |s.node.children|
  {
    moved[s.index] - Normalize(s.node.ratios, |s.node.children|)[s.index]
  }

  function Outward(forward: bool, gain: real): real { if forward then gain else -gain }

  /** What stands before the child and what it has, after and before. */
  lemma SeamShares(s: Step, moved: seq<real>, forward: bool)
    requires HasSeam(s, s.node.Split? && s.node.vertical, forward) && TradesAt(s, moved, forward)
    ensures Sound(s) && |moved| == |s.node.children| && Normalize(moved, |s.node.children|) == moved
    ensures var shares := Normalize(s.node.ratios, |s.node.children|);
            Sum(moved[..s.index]) == Sum(shares[..s.index]) - if forward then 0.0 else Gained(s, moved)
  {
    hide Normalize, Distribution, Sum;
    NormalizeKeeps(moved);
    BeforeMoves(Normalize(s.node.ratios, |s.node.children|), moved, s.index, forward);
  }

  lemma SeamIsSound(s: Step, vertical: bool, forward: bool)
    requires HasSeam(s, vertical, forward)
    ensures Sound(s) && s.node.vertical == vertical && HasSeam(s, s.node.Split? && s.node.vertical, forward)
  {
  }

  lemma SoundAt(path: seq<Step>, d: nat)
    requires AllSound(path) && d < |path|
    ensures Sound(path[d]) && AllSound(path[..d])
  {
  }

  /** The edge of the child at the divider. */
  lemma ChildAtSeam(b: Box, path: seq<Step>, d: nat, moved: seq<real>, forward: bool)
    requires d < |path| && AllSound(path) && forall k :: 0 <= k < d ==> path[k].node.id != path[d].node.id
    requires path[d].node.Split? && HasSeam(path[d], path[d].node.Split? && path[d].node.vertical, forward)
    requires TradesAt(path[d], moved, forward) && Sound(path[d]) && |moved| == |path[d].node.children|
    ensures var now, vertical := Along(path, d, path[d].node.(ratios := moved)), path[d].node.vertical;
            Edge(BoxAt(b, now[..d + 1]), vertical, forward)
            == Edge(BoxAt(b, path[..d + 1]), vertical, forward) + Times(Outward(forward, Gained(path[d], moved)), Len(BoxAt(b, path[..d]), vertical))
  {
    hide *;
    var node, i := path[d].node, path[d].index;
    var shares := Normalize(node.ratios, |node.children|);
    var next := node.(ratios := moved);
    var now := Along(path, d, next);
    AlongBoxes(b, path, d, moved, node.vertical, forward);
    AlongKeeps(path, d, moved, node.vertical);
    SeamShares(path[d], moved, forward);
    SoundAt(path, d);
    SoundAt(now, d);
    assert path[..d + 1] == path[..d] + [path[d]] && now[..d + 1] == now[..d] + [now[d]];
    LastBox(b, path[..d], path[d]);
    LastBox(b, now[..d], now[d]);
    var box := BoxAt(b, path[..d]);
    ChildEdgeMoves(box, node.vertical, Sum(shares[..i]), shares[i], Sum(moved[..i]), moved[i], forward);
    EdgeGain(path[d], moved, forward, Sum(shares[..i]), Sum(moved[..i]));
  }

  lemma EdgeGain(s: Step, moved: seq<real>, forward: bool, before: real, before2: real)
    requires Sound(s) && |moved| == |s.node.children|
    requires before2 == before - if forward then 0.0 else Gained(s, moved)
    ensures Outward(forward, Gained(s, moved))
         == if forward then before2 + moved[s.index] - before - Normalize(s.node.ratios, |s.node.children|)[s.index] else before2 - before
  {
    hide Normalize;
  }

  /** A pane's edge is that of the child at the divider its path meets last. */
  lemma PaneEdge(t: PaneNode, id: PaneId, path: seq<Step>, d: nat, vertical: bool, forward: bool)
    requires IsPath(t, path, id) && SeamDepth(path, vertical, forward) == Some(d)
    ensures PaneRect(id, BoxAt(WINDOW, path)) in Layout(t)
    ensures Edge(BoxAt(WINDOW, path), vertical, forward) == Edge(BoxAt(WINDOW, path[..d + 1]), vertical, forward)
  {
    hide IsPath, BoxAt, SeamDepth, Edge, Rects;
    assert Real(WINDOW);
    PathEdge(t, WINDOW, path, id, vertical, forward);
    BoxAtIsRect(t, WINDOW, path, id);
  }

  lemma DistinctAt(t: PaneNode, id: PaneId)
    requires Distinct(t)
    ensures NodeIds(t)[id] <= 1
  {
  }

  lemma SameIdsDistinct(t: PaneNode, t2: PaneNode)
    requires Distinct(t) && NodeIds(t2) == NodeIds(t)
    ensures Distinct(t2)
  {
  }

  /** New shares that trade only at the divider move the pane's edge on that side by
      what the child gains or loses, times the extent of the split. */
  lemma EdgeMoves(t: PaneNode, id: PaneId, path: seq<Step>, d: nat, moved: seq<real>, vertical: bool, forward: bool, k: nat)
    requires Distinct(t) && IsPath(t, path, id) && SeamDepth(path, vertical, forward) == Some(d)
    requires Holds(t, path[d].node) && Sound(path[d]) && |moved| == |path[d].node.children|
    requires HasSeam(path[d], path[d].node.Split? && path[d].node.vertical, forward) && TradesAt(path[d], moved, forward)
    requires k < |Layout(t)| && Layout(t)[k].id == id
    ensures var node := path[d].node;
            var after := Layout(ReplaceNode(t, node.id, node.(ratios := moved)));
            && |after| == |Layout(t)| && after[k].id == id
            && Edge(after[k].box, vertical, forward) == Edge(Layout(t)[k].box, vertical, forward)
               + Times(Outward(forward, Gained(path[d], moved)), Len(BoxAt(WINDOW, path[..d]), vertical))
  {
    var node := path[d].node;
    assert node.Split?;
    hide *;
    var next := node.(ratios := moved);
    var t2 := ReplaceNode(t, node.id, next);
    var now := Along(path, d, next);
    DistinctAt(t, node.id);
    PathIsSound(t, path, id);
    AlongIsPath(t, path, id, d, next);
    AlongBoxes(WINDOW, path, d, moved, vertical, forward);
    ReplaceKeepsShape(t, node, moved);
    SameIdsDistinct(t, t2);
    SameSeams(path, now, vertical, forward);
    SeamIsSound(path[d], vertical, forward);
    PaneEdge(t, id, path, d, vertical, forward);
    PaneEdge(t2, id, now, d, vertical, forward);
    ChildAtSeam(WINDOW, path, d, moved, forward);
    OnePaneEach(t, t2, id, BoxAt(WINDOW, path), BoxAt(WINDOW, now), k);
    SameIndex(t, t2, k);
  }

  /** What the key leaves the child at the divider with: what was wanted for it where
      both sides keep the least share, and no more than that allows; a move within the
      tolerance is none. */
  predicate KeptAtKey(mine: real, theirs: real, step: real, eps: real, kept: real) {
    var end := mine + theirs - 0.1;
    var wanted := if mine + step > end || end < 0.1 then end else if mine + step < 0.1 then 0.1 else mine + step;
    kept == if -eps <= wanted - mine <= eps then mine else wanted
  }

  lemma {:induction false} LeafBelow(t: PaneNode, path: seq<Step>, id: PaneId, d: nat)
    requires IsPath(t, path, id) && d < |path| && Sound(path[d])
    ensures id in Leaves(path[d].node.children[path[d].index])
    decreases d
  {
    if d == 0 {
      IsPathLeaf(t.children[path[0].index], path[1..], id);
    } else {
      LeafBelow(t.children[path[0].index], path[1..], id, d - 1);
    }
  }

  lemma {:induction false} IsPathLeaf(t: PaneNode, path: seq<Step>, id: PaneId)
    requires IsPath(t, path, id)
    ensures id in Leaves(t)
    decreases |path|
  {
    if path != [] {
      var i := path[0].index;
      IsPathLeaf(t.children[i], path[1..], id);
      LeavesOfChild(t.children, i, id);
    }
  }

  lemma {:induction false} LeavesOfChild(ts: seq<PaneNode>, i: nat, id: PaneId)
    requires i < |ts| && id in Leaves(ts[i])
    ensures id in LeavesOf(ts)
  {
    if i > 0 {
      LeavesOfChild(ts[1..], i - 1, id);
    }
  }

  /** What the code stores is what is kept. */
  lemma KeepsAtKey(s: Step, forward: bool, step: real, eps: real) returns (kept: real, moved: seq<real>)
    requires HasSeam(s, s.node.Split? && s.node.vertical, forward) && eps >= 0.0
    ensures var shares, j := Normalize(s.node.ratios, |s.node.children|), Other(s.index, forward);
            var mine, theirs := shares[s.index], shares[j];
            && KeptAtKey(mine, theirs, step, eps, kept) && Sound(s) && |moved| == |s.node.children|
            && moved == Redistributed(s.node, s.index, j, mine + step).ratios
            && (Abs(Held(mine + theirs, mine + step) - mine) <= eps ==> kept == mine)
            && (Abs(Held(mine + theirs, mine + step) - mine) > eps ==> kept == mine + Gained(s, moved))
            && (mine + theirs > 0.1 ==> TradesAt(s, moved, forward))
  {
    hide Normalize, Distribution, Sum;
    var shares, j := Normalize(s.node.ratios, |s.node.children|), Other(s.index, forward);
    var mine, theirs := shares[s.index], shares[j];
    MovedShares(shares, s.index, j, mine + step);
    moved := Redistributed(s.node, s.index, j, mine + step).ratios;
    kept := if Abs(Held(mine + theirs, mine + step) - mine) <= eps then mine else Held(mine + theirs, mine + step);
  }

  /** What a resize key does to the pane's edge at the divider it moves. */
  lemma KeyAtSeam(t: PaneNode, id: PaneId, path: seq<Step>, d: nat, vertical: bool, forward: bool, step: real, eps: real, k: nat)
    returns (kept: real)
    requires Distinct(t) && PathTo(t, id) == Some(path) && SeamDepth(path, vertical, forward) == Some(d) && eps >= 0.0
    requires k < |Layout(t)| && Layout(t)[k].id == id
    ensures Sound(path[d]) && HasSeam(path[d], vertical, forward)
    ensures var s, r := path[d], Resized(t, id, vertical, forward, step, eps);
            var shares := Normalize(s.node.ratios, |s.node.children|);
            var mine, theirs := shares[s.index], shares[Other(s.index, forward)];
            && KeptAtKey(mine, theirs, step, eps, kept)
            && (mine + theirs > 0.1 ==>
                  && |Layout(r)| == |Layout(t)|
                  && Edge(Layout(r)[k].box, vertical, forward) == Edge(Layout(t)[k].box, vertical, forward)
                     + Times(Outward(forward, kept - mine), Len(BoxAt(WINDOW, path[..d]), vertical)))
  {
    hide *;
    var s := path[d];
    ResizedAtSeam(t, id, path, d, vertical, forward, step, eps);
    SeamIsSound(s, vertical, forward);
    var moved;
    kept, moved := KeepsAtKey(s, forward, step, eps);
    AnswersAsStored(t, s, forward, step, eps, moved);
    OtherOfSeam(s, forward);
    var mine := Normalize(s.node.ratios, |s.node.children|)[s.index];
    var theirs := Normalize(s.node.ratios, |s.node.children|)[Other(s.index, forward)];
    if Abs(Held(mine + theirs, mine + step) - mine) <= eps {
      NoGain(forward, Len(BoxAt(WINDOW, path[..d]), vertical));
    } else if mine + theirs > 0.1 {
      EdgeMoves(t, id, path, d, moved, vertical, forward, k);
    }
  }

  lemma OtherOfSeam(s: Step, forward: bool)
    requires HasSeam(s, s.node.Split? && s.node.vertical, forward)
    ensures s.node.Split? && s.index < |s.node.children| && 0 <= Other(s.index, forward) < |s.node.children|
  {
  }

  lemma NoGain(forward: bool, len: real)
    ensures Times(Outward(forward, 0.0), len) == 0.0
  {
  }

  lemma AnswersAsStored(t: PaneNode, s: Step, forward: bool, step: real, eps: real, moved: seq<real>)
    requires HasSeam(s, s.node.Split? && s.node.vertical, forward)
    requires var mine := Normalize(s.node.ratios, |s.node.children|)[s.index];
             moved == Redistributed(s.node, s.index, Other(s.index, forward), mine + step).ratios
    ensures var shares := Normalize(s.node.ratios, |s.node.children|);
            var mine, theirs := shares[s.index], shares[Other(s.index, forward)];
            ResizedAt(t, s, forward, step, eps)
            == if Abs(Held(mine + theirs, mine + step) - mine) <= eps then t else ReplaceNode(t, s.node.id, s.node.(ratios := moved))
  {
    hide Held, ReplaceNode, Normalize, Abs, Moved;
  }

  /** The pane's rectangle and what stops it on a side. */
  lemma PaneOnItsPath(t: PaneNode, id: PaneId, vertical: bool, forward: bool, k: nat) returns (path: seq<Step>)
    requires Distinct(t) && Solid(t) && k < |Layout(t)| && Layout(t)[k].id == id
    ensures PathTo(t, id) == Some(path) && IsPath(t, path, id) && Layout(t)[k].box == BoxAt(WINDOW, path)
    ensures SeamDepth(path, vertical, forward) == None <==> AtWindowEdge(Layout(t)[k].box, vertical, forward)
  {
    LayoutBasics(t);
    assert id == Leaves(t)[k];
    hide *;
    PathToIsPath(t, id);
    path := PathTo(t, id).value;
    SeamUnlessAtWindowEdge(t, id, path, vertical, forward);
    OnePaneEach(t, t, id, BoxAt(WINDOW, path), BoxAt(WINDOW, path), k);
  }

  /** The edge on that side lies further out by `gain`. */
  predicate MovedOut(b: Box, c: Box, dir: PaneDir, gain: real) {
    match dir
    case Right => c.x + c.w == b.x + b.w + gain
    case Left => c.x == b.x - gain
    case Down => c.y + c.h == b.y + b.h + gain
    case Up => c.y == b.y - gain
  }

  lemma OutwardOnTheScreen(b: Box, c: Box, dir: PaneDir, gain: real, extent: real)
    requires Edge(c, dir.Vertical(), dir.Forward()) == Edge(b, dir.Vertical(), dir.Forward()) + Times(Outward(dir.Forward(), gain), extent)
    ensures MovedOut(b, c, dir, Times(gain, extent))
  {
    EdgesAre(b);
    EdgesAre(c);
    hide Edge;
    match dir
    case Right =>
    case Left =>
    case Down =>
    case Up =>
  }

  lemma ExtentIsPositive(path: seq<Step>, d: nat, vertical: bool)
    requires AllSound(path) && d < |path|
    ensures Len(BoxAt(WINDOW, path[..d]), vertical) > 0.0
  {
    SoundAt(path, d);
    hide BoxAt;
    PathLenIsLen(WINDOW, path[..d], vertical);
  }

  /** The split `node` and its child `i` are those a key meets, and `kept` and `extent`
      what it does there to a pane `b` that becomes `c`. */
  ghost predicate KeyEffect(t: PaneNode, id: PaneId, dir: PaneDir, step: real, eps: real, b: Box, c: Box,
                            node: PaneNode, i: nat, extent: real, kept: real) {
    var j := if dir.Right? || dir.Down? then i + 1 else i - 1;
    && Holds(t, node) && node.Split? && i < |node.children| && 0 <= j < |node.children|
    && id in Leaves(node.children[i]) && node.vertical == (dir.Up? || dir.Down?) && extent > 0.0
    && var mine, theirs := Normalize(node.ratios, |node.children|)[i], Normalize(node.ratios, |node.children|)[j];
       KeptAtKey(mine, theirs, step, eps, kept) && (mine + theirs > 0.1 ==> MovedOut(b, c, dir, Times(kept - mine, extent)))
  }

  lemma KeyEffectAtSeam(t: PaneNode, id: PaneId, path: seq<Step>, d: nat, dir: PaneDir, step: real, eps: real, k: nat)
    returns (extent: real, kept: real)
    requires Distinct(t) && PathTo(t, id) == Some(path) && SeamDepth(path, dir.Vertical(), dir.Forward()) == Some(d)
    requires eps >= 0.0 && k < |Layout(t)| && Layout(t)[k].id == id
    ensures var r := Resized(t, id, dir.Vertical(), dir.Forward(), step, eps);
            && |Layout(r)| == |Layout(t)|
            && KeyEffect(t, id, dir, step, eps, Layout(t)[k].box, Layout(r)[k].box, path[d].node, path[d].index, extent, kept)
  {
    hide *;
    var vertical, forward := dir.Vertical(), dir.Forward();
    var r, s := Resized(t, id, vertical, forward, step, eps), path[d];
    ResizedAtSeam(t, id, path, d, vertical, forward, step, eps);
    SameLayoutLength(t, id, path, d, vertical, forward, step, eps);
    SeamIsSound(s, vertical, forward);
    kept := KeyAtSeam(t, id, path, d, vertical, forward, step, eps, k);
    LeafBelow(t, path, id, d);
    PathIsSound(t, path, id);
    ExtentIsPositive(path, d, vertical);
    extent := Len(BoxAt(WINDOW, path[..d]), vertical);
    var b, c := Layout(t)[k].box, Layout(r)[k].box;
    OtherSide(s, dir);
    var mine, theirs := Normalize(s.node.ratios, |s.node.children|)[s.index], Normalize(s.node.ratios, |s.node.children|)[Other(s.index, forward)];
    if mine + theirs > 0.1 {
      OutwardOnTheScreen(b, c, dir, kept - mine, extent);
    }
    EffectOf(t, id, dir, step, eps, b, c, s, extent, kept);
  }

  lemma OtherSide(s: Step, dir: PaneDir)
    requires HasSeam(s, dir.Vertical(), dir.Forward())
    ensures s.node.Split? && s.index < |s.node.children| && 0 <= Other(s.index, dir.Forward()) < |s.node.children|
  {
  }

  lemma EffectOf(t: PaneNode, id: PaneId, dir: PaneDir, step: real, eps: real, b: Box, c: Box, s: Step, extent: real, kept: real)
    requires HasSeam(s, dir.Vertical(), dir.Forward()) && Sound(s) && Holds(t, s.node) && id in Leaves(s.node.children[s.index])
    requires extent > 0.0
    requires var mine, theirs := Normalize(s.node.ratios, |s.node.children|)[s.index],
                                 Normalize(s.node.ratios, |s.node.children|)[Other(s.index, dir.Forward())];
             KeptAtKey(mine, theirs, step, eps, kept) && (mine + theirs > 0.1 ==> MovedOut(b, c, dir, Times(kept - mine, extent)))
    ensures KeyEffect(t, id, dir, step, eps, b, c, s.node, s.index, extent, kept)
  {
    hide Holds, Leaves, Normalize, KeptAtKey, MovedOut;
  }

  lemma SameLayoutLength(t: PaneNode, id: PaneId, path: seq<Step>, d: nat, vertical: bool, forward: bool, step: real, eps: real)
    requires Distinct(t) && PathTo(t, id) == Some(path) && SeamDepth(path, vertical, forward) == Some(d)
    ensures |Layout(Resized(t, id, vertical, forward, step, eps))| == |Layout(t)|
  {
    var r, s := Resized(t, id, vertical, forward, step, eps), path[d];
    ResizedAtSeam(t, id, path, d, vertical, forward, step, eps);
    SeamIsSound(s, vertical, forward);
    var mine := Normalize(s.node.ratios, |s.node.children|)[s.index];
    var moved := Redistributed(s.node, s.index, Other(s.index, forward), mine + step).ratios;
    AnswersAsStored(t, s, forward, step, eps, moved);
    DistinctAt(t, s.node.id);
    hide *;
    ReplaceKeepsShape(t, s.node, moved);
    LayoutBasics(t);
    LayoutBasics(r);
  }

  lemma NothingToMove(t: PaneNode, id: PaneId, path: seq<Step>, vertical: bool, forward: bool, step: real, eps: real)
    requires PathTo(t, id) == Some(path) && SeamDepth(path, vertical, forward) == None
    ensures Resized(t, id, vertical, forward, step, eps) == t
  {
    hide PathTo, SeamDepth, ResizedAt;
  }

  /** On the screen, x running right and y down: a resize key does nothing where the
      pane reaches the window's edge. Elsewhere it moves the pane's edge on that side
      outward by what the child holding the pane gains, times the extent of the split;
      `node` is that split, laid along the key's axis, and `i` the child. */
  lemma KeyMovesTheEdge(t: PaneNode, id: PaneId, dir: PaneDir, step: real, eps: real, k: nat)
    requires Distinct(t) && Solid(t) && eps >= 0.0 && k < |Layout(t)| && Layout(t)[k].id == id
    ensures var r, b := Resized(t, id, dir.Vertical(), dir.Forward(), step, eps), Layout(t)[k].box;
            if Outermost(b, dir) then r == t
            else |Layout(r)| == |Layout(t)| && exists node, i, extent, kept ::
                   KeyEffect(t, id, dir, step, eps, b, Layout(r)[k].box, node, i, extent, kept)
  {
    var vertical, forward := dir.Vertical(), dir.Forward();
    var b := Layout(t)[k].box;
    var path := PaneOnItsPath(t, id, vertical, forward, k);
    if SeamDepth(path, vertical, forward) == None {
      NothingToMove(t, id, path, vertical, forward, step, eps);
    }
    hide *;
    OnTheScreen(b, b, dir);
    if !Outermost(b, dir) {
      var d := SeamDepth(path, vertical, forward).value;
      var extent, kept := KeyEffectAtSeam(t, id, path, d, dir, step, eps, k);
    }
  }
}
