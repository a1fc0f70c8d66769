/** Who takes the space of a closed pane: `paneTakingOver` of `src/paneTree.ts`. */
module PaneTakeover {
  import opened Options
  import opened PaneTree
  import opened PaneLayout
  import opened PaneNeighbor
  import opened PaneEdit

  /** The pane covers a part of the vacated rectangle. */
  predicate Takes(leafId: PaneId, gone: Box, r: PaneRect, eps: real) {
    r.id != leafId && Common(gone, r.box).w > eps && Common(gone, r.box).h > eps
  }

  function Taken(gone: Box, r: PaneRect): real { BoxArea(Common(gone, r.box)) }

  /** Index `k` holds the heir among the first `n` rectangles: no other takes
      more than `eps` more of the space, and none before it as much. */
  ghost predicate Heir(rs: seq<PaneRect>, n: nat, leafId: PaneId, gone: Box, eps: real, k: nat) {
    && k < n <= |rs| && Takes(leafId, gone, rs[k], eps)
    && (forall j :: 0 <= j < n && Takes(leafId, gone, rs[j], eps) ==> Taken(gone, rs[j]) <= Taken(gone, rs[k]) + eps)
    && (forall j :: 0 <= j < k && Takes(leafId, gone, rs[j], eps) ==> Taken(gone, rs[j]) < Taken(gone, rs[k]))
  }

  method BestHeir(rs: seq<PaneRect>, leafId: PaneId, gone: Box, eps: real) returns (best: Option<nat>)
    requires eps >= 0.0
    ensures best == None <==> forall j :: 0 <= j < |rs| ==> !Takes(leafId, gone, rs[j], eps)
    ensures best.Some? ==> Heir(rs, |rs|, leafId, gone, eps, best.value)
  {
    hide BoxArea, Min, Max;
    best := None;
    var bestArea := 0.0;
    for i := 0 to |rs|
      invariant best == None <==> forall j :: 0 <= j < i ==> !Takes(leafId, gone, rs[j], eps)
      invariant best.Some? ==>
        Heir(rs, i, leafId, gone, eps, best.value) && bestArea == Taken(gone, rs[best.value])
    {
      var r := rs[i];
      if r.id == leafId {
        continue;
      }
      var w := Min(gone.x + gone.w, r.box.x + r.box.w) - Max(gone.x, r.box.x);
      var h := Min(gone.y + gone.h, r.box.y + r.box.h) - Max(gone.y, r.box.y);
      AreaTaken(gone, r, w, h);
      hide Common;
      if w <= eps || h <= eps {
        continue;
      }
      var area := w * h;
      if best == None || area > bestArea + eps {
        bestArea := area;
        best := Some(i);
      }
    }
  }

  lemma AreaTaken(gone: Box, r: PaneRect, w: real, h: real)
    requires w == Common(gone, r.box).w && h == Common(gone, r.box).h
    ensures Taken(gone, r) == w * h
  {
  }

  /** The pane that covers the middle of the vacated rectangle takes some of it. */
  lemma SomeoneTakes(before: PaneNode, after: PaneNode, k: nat, leafId: PaneId, eps: real) returns (j: nat)
    requires Solid(before) && Solid(after) && k < |Layout(before)|
    requires eps >= 0.0 && Wider(Layout(before), 2.0 * eps) && Wider(Layout(after), 2.0 * eps)
    requires leafId !in Leaves(after)
    ensures j < |Layout(after)| && Takes(leafId, Layout(before)[k].box, Layout(after)[j], eps)
  {
    hide Layout, Overlap, Leaves;
    var b := Layout(before)[k].box;
    InsideWindow(before, k);
    var q := Probe(Middle(b, true), Middle(b, false), false, false);
    j := PaneAt(after, q);
    var c := Layout(after)[j].box;
    HoldingTheMiddle(b, c, true, eps);
    HoldingTheMiddle(b, c, false, eps);
    OverlapIsCommon(b, c);
    hide Common;
    LayoutBasics(after);
  }

  /** Closing any pane of a tree with two or more always has a successor, and
      it is a pane that takes the most of the vacated rectangle. */
  lemma ClosingHasAnHeir(before: PaneNode, leafId: PaneId, k: nat, eps: real)
    requires Branching(before) && Distinct(before) && before.Split?
    requires k < |Layout(before)| && Layout(before)[k].id == leafId
    requires eps >= 0.0 && Wider(Layout(before), 2.0 * eps) && Wider(Layout(RemovePane(before, leafId)), 2.0 * eps)
    ensures exists j :: 0 <= j < |Layout(RemovePane(before, leafId))|
                     && Takes(leafId, Layout(before)[k].box, Layout(RemovePane(before, leafId))[j], eps)
  {
    hide Layout, Takes, RemovePane;
    LayoutBasics(before);
    RemoveDrops(before, leafId);
    BranchingIsSolid(before);
    BranchingIsSolid(RemovePane(before, leafId));
    var j := SomeoneTakes(before, RemovePane(before, leafId), k, leafId, eps);
  }

  method PaneTakingOver(before: PaneNode, after: PaneNode, leafId: PaneId, eps: real) returns (best: Option<PaneId>)
    requires eps >= 0.0
    ensures leafId !in Leaves(before) ==> best == None
    ensures best.Some? ==> exists k, j ::
              && 0 <= k < |Layout(before)| && Layout(before)[k].id == leafId
              && 0 <= j < |Layout(after)| && Layout(after)[j].id == best.value
              && Heir(Layout(after), |Layout(after)|, leafId, Layout(before)[k].box, eps, j)
    ensures && Branching(before) && Distinct(before) && before.Split? && leafId in Leaves(before)
            && after == RemovePane(before, leafId)
            && Wider(Layout(before), 2.0 * eps) && Wider(Layout(after), 2.0 * eps)
            ==> best.Some?
  {
    hide Layout, Takes, RemovePane;
    LayoutBasics(before);
    var old_ := LayoutOf(before);
    var at := FindRect(old_, leafId);
    if at == None {
      return None;
    }
    var rs := LayoutOf(after);
    var found := BestHeir(rs, leafId, old_[at.value].box, eps);
    best := if found == None then None else Some(rs[found.value].id);
    if && Branching(before) && Distinct(before) && before.Split? && after == RemovePane(before, leafId)
       && Wider(Layout(before), 2.0 * eps) && Wider(Layout(after), 2.0 * eps) {
      ClosingHasAnHeir(before, leafId, at.value, eps);
    }
  }
}
