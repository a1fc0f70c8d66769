/** Which pane lies on one side of another: `neighbor` of `src/paneTree.ts`.

    `eps` stands for the source's `EPS`. The geometry here is exact, so the
    claims hold for any `eps` below half a pane's side, 0 included. */
module PaneNeighbor {
  import opened Options
  import opened PaneTree
  import opened PaneLayout

  datatype PaneDir = Left | Right | Up | Down {
    predicate Vertical() { Up? || Down? }
    predicate Forward() { Right? || Down? }
  }

  function Min(a: real, b: real): real { if b < a then b else a }
  function Max(a: real, b: real): real { if a < b then b else a }
  function Abs(a: real): real { if a < 0.0 then -a else a }

  function Lo(b: Box, vertical: bool): real { if vertical then b.y else b.x }
  function Len(b: Box, vertical: bool): real { if vertical then b.h else b.w }
  function Hi(b: Box, vertical: bool): real { Lo(b, vertical) + Len(b, vertical) }

  /** The coordinate of a box's edge on side `dir`, and of the edge that would
      face it from beyond. */
  function Edge(b: Box, vertical: bool, forward: bool): real {
    if forward then Hi(b, vertical) else Lo(b, vertical)
  }

  function Facing(b: Box, vertical: bool, forward: bool): real {
    if forward then Lo(b, vertical) else Hi(b, vertical)
  }

  /** How much of the shared edge two boxes have in common. */
  function Overlap(from: Box, r: Box, vertical: bool): real {
    Min(Hi(from, !vertical), Hi(r, !vertical)) - Max(Lo(from, !vertical), Lo(r, !vertical))
  }

  predicate AtWindowEdge(b: Box, vertical: bool, forward: bool) { Edge(b, vertical, forward) == Edge(WINDOW, vertical, forward) }

  /** `r` lies against the `dir` edge of `from`. */
  predicate LiesAgainst(from: Box, r: Box, vertical: bool, forward: bool) {
    Facing(r, vertical, forward) == Edge(from, vertical, forward) && Overlap(from, r, vertical) > 0.0
  }

  predicate Wider(rs: seq<PaneRect>, least: real) {
    forall i :: 0 <= i < |rs| ==> rs[i].box.w > least && rs[i].box.h > least
  }

  /** In exact geometry no pane is too thin for the search. */
  lemma ExactIsWideEnough(t: PaneNode)
    requires Solid(t)
    ensures Wider(Layout(t), 2.0 * 0.0)
  {
    LayoutBasics(t);
  }

  lemma WiderAt(rs: seq<PaneRect>, i: nat, least: real)
    requires i < |rs| && Wider(rs, least)
    ensures rs[i].box.w > least && rs[i].box.h > least
  {
  }

  /** What the loop of `neighbor` lets through. */
  predicate Candidate(from: PaneRect, r: PaneRect, vertical: bool, forward: bool, eps: real) {
    r.id != from.id && Touches(from.box, r.box, vertical, forward, eps) && Overlap(from.box, r.box, vertical) > eps
  }

  predicate Touches(from: Box, r: Box, vertical: bool, forward: bool, eps: real) {
    Abs(Facing(r, vertical, forward) - Edge(from, vertical, forward)) <= eps
  }

  /** Index `k` holds the winner among the first `n` rectangles: no candidate
      beats it by more than `eps`, and none before it comes up to it. */
  ghost predicate Winner(rs: seq<PaneRect>, n: nat, from: PaneRect, vertical: bool, forward: bool, eps: real, k: nat) {
    && k < n <= |rs|
    && Candidate(from, rs[k], vertical, forward, eps)
    && (forall j :: 0 <= j < n && Candidate(from, rs[j], vertical, forward, eps) ==>
          Overlap(from.box, rs[j].box, vertical) <= Overlap(from.box, rs[k].box, vertical) + eps)
    && (forall j :: 0 <= j < k && Candidate(from, rs[j], vertical, forward, eps) ==>
          Overlap(from.box, rs[j].box, vertical) < Overlap(from.box, rs[k].box, vertical))
  }

  // --------------------------------------------------------------- geometry

  /** A point given along the axis of `vertical` and across it. */
  function At(along: real, across: real, vertical: bool, upper: bool): Probe {
    if vertical then Probe(across, along, false, upper) else Probe(along, across, upper, false)
  }

  /** What the tiling says about two panes: sharing a point makes them one. */
  lemma SamePane(t: PaneNode, i: nat, j: nat, along: real, across: real, vertical: bool, upper: bool)
    requires Solid(t) && i < |Layout(t)| && j < |Layout(t)|
    requires In(Layout(t)[i].box, At(along, across, vertical, upper))
    requires In(Layout(t)[j].box, At(along, across, vertical, upper))
    ensures i == j
  {
    PanesApart(t, At(along, across, vertical, upper), i, j);
  }

  predicate Inside(b: Box) {
    Real(b) && 0.0 <= b.x && b.x + b.w <= 1.0 && 0.0 <= b.y && b.y + b.h <= 1.0
  }

  lemma InsideWindow(t: PaneNode, i: nat)
    requires Solid(t) && i < |Layout(t)|
    ensures Inside(Layout(t)[i].box)
  {
    hide Layout;
    var b := Layout(t)[i].box;
    LayoutBasics(t);
    PanesApart(t, Probe(b.x, b.y, false, false), i, i);
    PanesApart(t, Probe(b.x + b.w, b.y + b.h, true, true), i, i);
  }

  /** Beyond an edge that is not the window's there is a pane starting exactly
      there, across any given point of the edge. */
  lemma PaneBeyond(t: PaneNode, k: nat, vertical: bool, forward: bool, across: real) returns (j: nat)
    requires Solid(t) && k < |Layout(t)|
    requires !AtWindowEdge(Layout(t)[k].box, vertical, forward)
    requires Covers(Lo(Layout(t)[k].box, !vertical), Len(Layout(t)[k].box, !vertical), across, false)
    ensures j < |Layout(t)| && j != k
    ensures Facing(Layout(t)[j].box, vertical, forward) == Edge(Layout(t)[k].box, vertical, forward)
    ensures Covers(Lo(Layout(t)[j].box, !vertical), Len(Layout(t)[j].box, !vertical), across, false)
  {
    hide Layout;
    var rs, upper := Layout(t), !forward;
    var b := rs[k].box;
    InsideWindow(t, k);
    var q := At(Edge(b, vertical, forward), across, vertical, upper);
    j := PaneAt(t, q);
    InsideWindow(t, j);
    var c := rs[j].box;
    if Facing(c, vertical, forward) != Edge(b, vertical, forward) {
      // then the pane found reaches back into the one we came from
      var near := if forward then Max(Lo(b, vertical), Lo(c, vertical)) else Min(Hi(b, vertical), Hi(c, vertical));
      SamePane(t, j, k, near, across, vertical, upper);
    }
  }

  /** The tolerance lets nothing through that does not truly lie against the edge. */
  lemma CandidateLiesAgainst(t: PaneNode, k: nat, j: nat, vertical: bool, forward: bool, eps: real)
    requires Solid(t) && k < |Layout(t)| && j < |Layout(t)|
    requires eps >= 0.0 && Wider(Layout(t), 2.0 * eps)
    requires Candidate(Layout(t)[k], Layout(t)[j], vertical, forward, eps)
    ensures LiesAgainst(Layout(t)[k].box, Layout(t)[j].box, vertical, forward)
  {
    hide Layout;
    var rs, upper := Layout(t), !forward;
    var b, c := rs[k].box, rs[j].box;
    InsideWindow(t, k);
    InsideWindow(t, j);
    var across := Max(Lo(b, !vertical), Lo(c, !vertical));
    var gap := if forward then Facing(c, vertical, forward) - Edge(b, vertical, forward) else Edge(b, vertical, forward) - Facing(c, vertical, forward);
    if gap < 0.0 {
      SamePane(t, k, j, Facing(c, vertical, forward), across, vertical, upper);
    } else if gap > 0.0 {
      var m := PaneBeyond(t, k, vertical, forward, across);
      SamePane(t, m, j, Facing(c, vertical, forward), across, vertical, upper);
    }
  }

  lemma LiesAgainstIsOther(t: PaneNode, k: nat, j: nat, vertical: bool, forward: bool)
    requires Solid(t) && Distinct(t) && k < |Layout(t)| && j < |Layout(t)|
    requires LiesAgainst(Layout(t)[k].box, Layout(t)[j].box, vertical, forward)
    ensures Layout(t)[j].id != Layout(t)[k].id
  {
    hide Layout;
    InsideWindow(t, k);
    SameIdSamePane(t, k, j);
  }

  lemma SameIdSamePane(t: PaneNode, i: nat, j: nat)
    requires Distinct(t) && i < |Layout(t)| && j < |Layout(t)|
    ensures Layout(t)[i].id == Layout(t)[j].id ==> i == j
  {
    hide Layout;
    LayoutBasics(t);
    if i < j {
      LeafPositionsDiffer(t, i, j);
    } else if j < i {
      LeafPositionsDiffer(t, j, i);
    }
  }

  lemma NothingBeyondTheWindow(from: Box, r: Box, vertical: bool, forward: bool, eps: real)
    requires Inside(from) && Inside(r) && eps >= 0.0
    requires r.w > 2.0 * eps && r.h > 2.0 * eps
    requires AtWindowEdge(from, vertical, forward)
    ensures !Touches(from, r, vertical, forward, eps)
  {
  }

  lemma HoldingTheMiddle(b: Box, c: Box, vertical: bool, eps: real)
    requires eps >= 0.0 && Len(b, !vertical) > 2.0 * eps && Len(c, !vertical) > 2.0 * eps
    requires Covers(Lo(c, !vertical), Len(c, !vertical), Middle(b, vertical), false)
    ensures Overlap(b, c, vertical) > eps
  {
  }

  lemma MiddleIsCovered(b: Box, vertical: bool)
    requires Real(b)
    ensures Covers(Lo(b, !vertical), Len(b, !vertical), Middle(b, vertical), false)
  {
  }

  /** Half way along the edge on side `dir`. */
  function Middle(b: Box, vertical: bool): real { Lo(b, !vertical) + 0.5 * Len(b, !vertical) }

  /** Facing the middle of the edge, a pane overlaps by at least half a side. */
  lemma SomeoneBeyond(t: PaneNode, k: nat, vertical: bool, forward: bool, eps: real) returns (j: nat)
    requires Solid(t) && Distinct(t) && k < |Layout(t)|
    requires eps >= 0.0 && Wider(Layout(t), 2.0 * eps)
    requires !AtWindowEdge(Layout(t)[k].box, vertical, forward)
    ensures j < |Layout(t)| && Candidate(Layout(t)[k], Layout(t)[j], vertical, forward, eps)
  {
    hide Layout, Overlap, Covers;
    var b := Layout(t)[k].box;
    InsideWindow(t, k);
    MiddleIsCovered(b, vertical);
    j := PaneBeyond(t, k, vertical, forward, Middle(b, vertical));
    HoldingTheMiddle(b, Layout(t)[j].box, vertical, eps);
    SameIdSamePane(t, k, j);
  }

  /** Some candidate exists exactly when the edge is not the window's. */
  lemma CandidateExists(t: PaneNode, k: nat, vertical: bool, forward: bool, eps: real)
    requires Solid(t) && Distinct(t) && k < |Layout(t)|
    requires eps >= 0.0 && Wider(Layout(t), 2.0 * eps)
    ensures (exists j :: 0 <= j < |Layout(t)| && Candidate(Layout(t)[k], Layout(t)[j], vertical, forward, eps))
       <==> !AtWindowEdge(Layout(t)[k].box, vertical, forward)
  {
    hide Layout, Touches, Overlap, Edge, Distinct, Solid;
    if AtWindowEdge(Layout(t)[k].box, vertical, forward) {
      forall j | 0 <= j < |Layout(t)|
        ensures !Candidate(Layout(t)[k], Layout(t)[j], vertical, forward, eps)
      {
        InsideWindow(t, k);
        InsideWindow(t, j);
        WiderAt(Layout(t), j, 2.0 * eps);
        NothingBeyondTheWindow(Layout(t)[k].box, Layout(t)[j].box, vertical, forward, eps);
      }
    } else {
      var j := SomeoneBeyond(t, k, vertical, forward, eps);
    }
  }

  // ----------------------------------------------------------------- search

  method FindRect(rs: seq<PaneRect>, id: PaneId) returns (at: Option<nat>)
    ensures at == None ==> forall i :: 0 <= i < |rs| ==> rs[i].id != id
    ensures at.Some? ==> at.value < |rs| && rs[at.value].id == id
    ensures at.Some? ==> forall i :: 0 <= i < at.value ==> rs[i].id != id
  {
    for i := 0 to |rs|
      invariant forall j :: 0 <= j < i ==> rs[j].id != id
    {
      if rs[i].id == id {
        return Some(i);
      }
    }
    return None;
  }

  /** The loop over the rectangles. */
  method BestNeighbor(rs: seq<PaneRect>, from: PaneRect, vertical: bool, forward: bool, eps: real) returns (best: Option<nat>)
    requires eps >= 0.0
    ensures best == None <==> forall j :: 0 <= j < |rs| ==> !Candidate(from, rs[j], vertical, forward, eps)
    ensures best.Some? ==> Winner(rs, |rs|, from, vertical, forward, eps, best.value)
  {
    best := None;
    var bestOverlap := 0.0;
    for i := 0 to |rs|
      invariant best == None <==> forall j :: 0 <= j < i ==> !Candidate(from, rs[j], vertical, forward, eps)
      invariant best.Some? ==>
        Winner(rs, i, from, vertical, forward, eps, best.value) && bestOverlap == Overlap(from.box, rs[best.value].box, vertical)
    {
      var r := rs[i];
      if r.id == from.id || !Touches(from.box, r.box, vertical, forward, eps) {
        continue;
      }
      var share := Overlap(from.box, r.box, vertical);
      if share <= eps {
        continue;
      }
      if best == None || share > bestOverlap + eps {
        bestOverlap := share;
        best := Some(i);
      }
    }
  }

  /** The answer names a pane that truly lies against the edge and overlaps it
      most, up to `eps`; among equals it is the first in reading order. */
  ghost predicate BestAgainst(rs: seq<PaneRect>, k: nat, vertical: bool, forward: bool, eps: real, j: nat) {
    && k < |rs| && j < |rs|
    && LiesAgainst(rs[k].box, rs[j].box, vertical, forward)
    && (forall i :: 0 <= i < |rs| && LiesAgainst(rs[k].box, rs[i].box, vertical, forward) ==>
          Overlap(rs[k].box, rs[i].box, vertical) <= Overlap(rs[k].box, rs[j].box, vertical) + eps)
    && (forall i :: 0 <= i < j && LiesAgainst(rs[k].box, rs[i].box, vertical, forward) ==>
          Overlap(rs[k].box, rs[i].box, vertical) <= eps || Overlap(rs[k].box, rs[i].box, vertical) < Overlap(rs[k].box, rs[j].box, vertical))
  }

  lemma WinnerIsBest(t: PaneNode, k: nat, vertical: bool, forward: bool, eps: real, j: nat)
    requires Solid(t) && Distinct(t) && k < |Layout(t)|
    requires eps >= 0.0 && Wider(Layout(t), 2.0 * eps)
    requires Winner(Layout(t), |Layout(t)|, Layout(t)[k], vertical, forward, eps, j)
    ensures BestAgainst(Layout(t), k, vertical, forward, eps, j)
  {
    hide Layout, Overlap, Facing, Edge, Wider;
    var rs := Layout(t);
    CandidateLiesAgainst(t, k, j, vertical, forward, eps);
    forall i | 0 <= i < |rs| && LiesAgainst(rs[k].box, rs[i].box, vertical, forward)
      ensures Candidate(rs[k], rs[i], vertical, forward, eps) || Overlap(rs[k].box, rs[i].box, vertical) <= eps
    {
      LiesAgainstIsOther(t, k, i, vertical, forward);
    }
  }

  lemma Answers(t: PaneNode, k: nat, vertical: bool, forward: bool, eps: real, found: Option<nat>)
    requires Solid(t) && Distinct(t) && k < |Layout(t)|
    requires eps >= 0.0 && Wider(Layout(t), 2.0 * eps)
    requires found == None <==> forall j :: 0 <= j < |Layout(t)| ==> !Candidate(Layout(t)[k], Layout(t)[j], vertical, forward, eps)
    requires found.Some? ==> Winner(Layout(t), |Layout(t)|, Layout(t)[k], vertical, forward, eps, found.value)
    ensures found == None <==> AtWindowEdge(Layout(t)[k].box, vertical, forward)
    ensures found.Some? ==> found.value < |Layout(t)| && BestAgainst(Layout(t), k, vertical, forward, eps, found.value)
  {
    hide Layout, Candidate, Edge, Distinct, Solid;
    CandidateExists(t, k, vertical, forward, eps);
    if found.Some? {
      WinnerIsBest(t, k, vertical, forward, eps, found.value);
    }
  }

  // ------------------------------------------------- directions on the screen

  /** A pane reaches the window's edge on that side; x runs right and y runs down. */
  predicate Outermost(b: Box, dir: PaneDir) {
    match dir
    case Right => b.x + b.w == 1.0
    case Left => b.x == 0.0
    case Down => b.y + b.h == 1.0
    case Up => b.y == 0.0
  }

  /** What two boxes have in common; without it, width or height is not positive. */
  function Common(b: Box, c: Box): Box {
    var x, y := Max(b.x, c.x), Max(b.y, c.y);
    Box(x, y, Min(b.x + b.w, c.x + c.w) - x, Min(b.y + b.h, c.y + c.h) - y)
  }

  /** A point is in what two boxes have in common exactly when it is in both. */
  lemma CommonIsBoth(b: Box, c: Box, q: Probe)
    ensures In(Common(b, c), q) <==> In(b, q) && In(c, q)
  {
  }

  /** The length of the edge that two boxes side by side, or one above the other, share. */
  function Shared(b: Box, c: Box, dir: PaneDir): real {
    match dir
    case Right => Common(b, c).h
    case Left => Common(b, c).h
    case Down => Common(b, c).w
    case Up => Common(b, c).w
  }

  /** `c` lies against `b` on that side, over more than a point. */
  predicate Borders(b: Box, c: Box, dir: PaneDir) {
    && Shared(b, c, dir) > 0.0
    && match dir
       case Right => c.x == b.x + b.w
       case Left => c.x + c.w == b.x
       case Down => c.y == b.y + b.h
       case Up => c.y + c.h == b.y
  }

  /** Pane `j` borders pane `k` on that side and, up to `eps`, shares the most of its
      edge; no pane before it in reading order shares as much. */
  ghost predicate BestBeside(rs: seq<PaneRect>, k: nat, dir: PaneDir, eps: real, j: nat) {
    && k < |rs| && j < |rs| && Borders(rs[k].box, rs[j].box, dir)
    && (forall i :: 0 <= i < |rs| && Borders(rs[k].box, rs[i].box, dir) ==>
          Shared(rs[k].box, rs[i].box, dir) <= Shared(rs[k].box, rs[j].box, dir) + eps)
    && (forall i :: 0 <= i < j && Borders(rs[k].box, rs[i].box, dir) ==>
          Shared(rs[k].box, rs[i].box, dir) <= eps || Shared(rs[k].box, rs[i].box, dir) < Shared(rs[k].box, rs[j].box, dir))
  }

  lemma OverlapIsCommon(b: Box, c: Box)
    ensures Overlap(b, c, true) == Common(b, c).w && Overlap(b, c, false) == Common(b, c).h
  {
  }

  lemma EdgesAre(b: Box)
    ensures Edge(b, false, true) == b.x + b.w && Edge(b, false, false) == b.x
    ensures Edge(b, true, true) == b.y + b.h && Edge(b, true, false) == b.y
    ensures Facing(b, false, true) == b.x && Facing(b, false, false) == b.x + b.w
    ensures Facing(b, true, true) == b.y && Facing(b, true, false) == b.y + b.h
  {
  }

  lemma OnTheScreen(b: Box, c: Box, dir: PaneDir)
    ensures AtWindowEdge(b, dir.Vertical(), dir.Forward()) <==> Outermost(b, dir)
    ensures Overlap(b, c, dir.Vertical()) == Shared(b, c, dir)
    ensures LiesAgainst(b, c, dir.Vertical(), dir.Forward()) <==> Borders(b, c, dir)
  {
    OverlapIsCommon(b, c);
    EdgesAre(b);
    EdgesAre(c);
    EdgesAre(WINDOW);
    hide Overlap, Common, Edge, Facing;
    match dir
    case Right =>
    case Left =>
    case Down =>
    case Up =>
  }

  lemma BestOnTheScreen(rs: seq<PaneRect>, k: nat, dir: PaneDir, eps: real, j: nat)
    requires BestAgainst(rs, k, dir.Vertical(), dir.Forward(), eps, j)
    ensures BestBeside(rs, k, dir, eps, j)
  {
    hide Overlap, LiesAgainst, Shared, Borders, AtWindowEdge, Outermost;
    forall i | 0 <= i < |rs|
      ensures Overlap(rs[k].box, rs[i].box, dir.Vertical()) == Shared(rs[k].box, rs[i].box, dir)
      ensures LiesAgainst(rs[k].box, rs[i].box, dir.Vertical(), dir.Forward()) <==> Borders(rs[k].box, rs[i].box, dir)
    {
      OnTheScreen(rs[k].box, rs[i].box, dir);
    }
    hide PaneDir.Vertical, PaneDir.Forward;
  }

  method Neighbor(t: PaneNode, fromLeafId: PaneId, dir: PaneDir, eps: real) returns (best: Option<PaneId>)
    requires eps >= 0.0
    ensures fromLeafId !in Leaves(t) ==> best == None
    ensures Solid(t) && Distinct(t) && Wider(Layout(t), 2.0 * eps) ==>
              forall k :: 0 <= k < |Layout(t)| && Layout(t)[k].id == fromLeafId ==>
                && (best == None <==> Outermost(Layout(t)[k].box, dir))
                && (best.Some? ==> exists j ::
                      0 <= j < |Layout(t)| && Layout(t)[j].id == best.value && BestBeside(Layout(t), k, dir, eps, j))
  {
    hide *;
    var rs := LayoutOf(t);
    LayoutBasics(t);
    var at := FindRect(rs, fromLeafId);
    if at == None {
      return None;
    }
    var found := BestNeighbor(rs, rs[at.value], dir.Vertical(), dir.Forward(), eps);
    best := if found == None then None else Some(rs[found.value].id);
    if Solid(t) && Distinct(t) && Wider(Layout(t), 2.0 * eps) {
      forall k | 0 <= k < |rs| && rs[k].id == fromLeafId
        ensures k == at.value
      {
        SameIdSamePane(t, k, at.value);
      }
      Answers(t, at.value, dir.Vertical(), dir.Forward(), eps, found);
      OnTheScreen(rs[at.value].box, rs[at.value].box, dir);
      if found.Some? {
        BestOnTheScreen(rs, at.value, dir, eps, found.value);
      }
    }
  }
}
