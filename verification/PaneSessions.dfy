/** A pane tree under every edit there is, over whole runs: panes opened and closed,
    boundaries moved by key and dragged (`src/paneTree.ts`). */
module PaneSessions {
  import opened Options
  import opened PaneTree
  import opened PaneNeighbor
  import opened PaneEdit
  import opened PaneResize
  import opened PaneSeams

  datatype Edit =
    | OpenPane(target: PaneId, vertical: bool, newId: PaneId, cwd: Option<string>)
    | ClosePane(id: PaneId)
    | ResizeKey(leafId: PaneId, vertical: bool, forward: bool, step: real)
    | DragDivider(splitId: PaneId, index: int, position: real)

  function Apply(t: PaneNode, e: Edit, eps: real): PaneNode {
    match e
    case OpenPane(target, vertical, newId, cwd) => SplitPane(t, target, vertical, newId, cwd)
    case ClosePane(id) => RemovePane(t, id)
    case ResizeKey(leafId, vertical, forward, step) => Resized(t, leafId, vertical, forward, step, eps)
    case DragDivider(splitId, index, position) => SetPaneBoundary(t, splitId, index, position)
  }

  function Run(t: PaneNode, edits: seq<Edit>, eps: real): PaneNode
    decreases |edits|
  {
    if edits == [] then t else Run(Apply(t, edits[0], eps), edits[1..], eps)
  }

  // ------------------------------------------------------ what an edit moves

  /** The edit moves the boundary of a pair that has no more than the least share. */
  predicate Squeezes(t: PaneNode, e: Edit, eps: real) {
    match e
    case OpenPane(_, _, _, _) => false
    case ClosePane(_) => false
    case ResizeKey(leafId, vertical, forward, step) => KeySqueezes(t, leafId, vertical, forward, step, eps)
    case DragDivider(splitId, index, _) =>
      match FindSplit(t, splitId)
      case None => false
      case Some(node) =>
        node.Split? && 0 <= index < |node.children| - 1 && PairShare(node, index, index + 1) <= PANE_MIN_SHARE
  }

  predicate KeySqueezes(t: PaneNode, leafId: PaneId, vertical: bool, forward: bool, step: real, eps: real) {
    match PathTo(t, leafId)
    case None => false
    case Some(path) =>
      match SeamDepth(path, vertical, forward)
      case None => false
      case Some(d) =>
        var shares := Normalize(path[d].node.ratios, |path[d].node.children|);
        var mine, theirs := shares[path[d].index], shares[Other(path[d].index, forward)];
        mine + theirs <= PANE_MIN_SHARE && Abs(Held(mine + theirs, mine + step) - mine) > eps
  }

  /** `r` is `t` with other ratios for one split, a distribution exactly when `fine`. */
  ghost predicate Reshared(t: PaneNode, node: PaneNode, shares: seq<real>, r: PaneNode, fine: bool) {
    && Holds(t, node) && node.Split? && |shares| == |node.children|
    && r == ReplaceNode(t, node.id, node.(ratios := shares)) && (Distribution(shares) <==> fine)
  }

  lemma RedistributedReshares(t: PaneNode, node: PaneNode, i: nat, j: nat, wanted: real)
    requires Holds(t, node) && Pair(node, i, j)
    ensures var next := Redistributed(node, i, j, wanted);
            Reshared(t, node, next.ratios, ReplaceNode(t, node.id, next), PairShare(node, i, j) > PANE_MIN_SHARE)
  {
    hide Holds, ReplaceNode, Held, Distribution, Normalize, Sum;
    MovedShares(Normalize(node.ratios, |node.children|), i, j, wanted);
  }

  lemma KeyReshares(t: PaneNode, leafId: PaneId, vertical: bool, forward: bool, step: real, eps: real)
    returns (moved: bool, node: PaneNode, shares: seq<real>)
    ensures var r := Resized(t, leafId, vertical, forward, step, eps);
            var fine := !KeySqueezes(t, leafId, vertical, forward, step, eps);
            if moved then Reshared(t, node, shares, r, fine) else r == t && fine
  {
    hide PathTo, SeamDepth, ReplaceNode, Held, Normalize, Distribution, Reshared, Abs, Redistributed;
    var found := PathTo(t, leafId);
    moved, node, shares := false, t, [];
    if found.Some? && SeamDepth(found.value, vertical, forward).Some? {
      var d := SeamDepth(found.value, vertical, forward).value;
      var s := found.value[d];
      SeamPair(t, leafId, found.value, d, vertical, forward);
      hide Holds;
      var j := Other(s.index, forward);
      var mine := Normalize(s.node.ratios, |s.node.children|)[s.index];
      RedistributedReshares(t, s.node, s.index, j, mine + step);
      moved := Abs(Held(PairShare(s.node, s.index, j), mine + step) - mine) > eps;
      node, shares := s.node, Redistributed(s.node, s.index, j, mine + step).ratios;
    }
  }

  lemma DragReshares(t: PaneNode, splitId: PaneId, index: int, position: real, eps: real)
    returns (moved: bool, node: PaneNode, shares: seq<real>)
    ensures var r := SetPaneBoundary(t, splitId, index, position);
            var fine := !Squeezes(t, DragDivider(splitId, index, position), eps);
            if moved then Reshared(t, node, shares, r, fine) else r == t && fine
  {
    hide FindSplit, Holds, ReplaceNode, Normalize, Sum, Reshared, Redistributed;
    FindSplitHolds(t, splitId);
    var found := FindSplit(t, splitId);
    moved, node, shares := false, t, [];
    if found.Some? && 0 <= index < |found.value.children| - 1 {
      moved, node := true, found.value;
      var wanted := position - Sum(Normalize(node.ratios, |node.children|)[..index]);
      RedistributedReshares(t, node, index, index + 1, wanted);
      shares := Redistributed(node, index, index + 1, wanted).ratios;
    }
  }

  /** Moving a boundary keeps the panes, the ids and the branching; the ratios of a
      proper tree stay distributions exactly when the pair is not squeezed. */
  lemma MovingABoundary(t: PaneNode, e: Edit, eps: real)
    requires Distinct(t) && (e.ResizeKey? || e.DragDivider?)
    ensures var r := Apply(t, e, eps);
            && Leaves(r) == Leaves(t) && NodeIds(r) == NodeIds(t) && Distinct(r)
            && (Branching(r) <==> Branching(t))
            && (Proper(t) ==> (Proper(r) <==> !Squeezes(t, e, eps)))
  {
    hide Resized, SetPaneBoundary, KeySqueezes, Leaves, NodeIds, Branching, Proper, ReplaceNode, Holds;
    var moved, node, shares;
    match e {
      case ResizeKey(leafId, vertical, forward, step) =>
        moved, node, shares := KeyReshares(t, leafId, vertical, forward, step, eps);
      case DragDivider(splitId, index, position) =>
        moved, node, shares := DragReshares(t, splitId, index, position, eps);
    }
    hide Squeezes, Apply;
    if moved {
      assert NodeIds(t)[node.id] <= 1;
      ReplaceKeepsShape(t, node, shares);
      if Proper(t) {
        ReplaceProperIff(t, node, shares);
      }
    }
  }

  // -------------------------------------------------------------- fresh ids

  /** Pane names carry no slash; the ids of wrapping splits are made with one. */
  predicate Plain(id: PaneId) { '/' !in id }

  /** Every opened pane is given a plain name not used before. */
  predicate FreshNames(edits: seq<Edit>, used: set<PaneId>) {
    if edits == [] then true
    else if edits[0].OpenPane? then
      Plain(edits[0].newId) && edits[0].newId !in used && FreshNames(edits[1..], used + {edits[0].newId})
    else FreshNames(edits[1..], used)
  }

  /** An id a run can have produced: a name, or a wrapper made of two. */
  ghost predicate Made(id: PaneId, used: set<PaneId>) {
    || (Plain(id) && id in used)
    || exists a, b :: a in used && b in used && Plain(a) && Plain(b) && id == WrapperId(a, b)
  }

  ghost predicate WellMade(t: PaneNode, used: set<PaneId>) {
    && Branching(t) && Distinct(t)
    && (forall id :: id in NodeIds(t) ==> Made(id, used))
    && (forall id :: id in Leaves(t) ==> Plain(id) && id in used)
  }

  lemma FirstSlash(a: string, b: string)
    requires Plain(a)
    ensures var s := WrapperId(a, b);
            !Plain(s) && s[|a|] == '/' && s[..|a|] == a && s[|a| + 1..] == b && forall i :: 0 <= i < |a| ==> s[i] != '/'
  {
    var s := WrapperId(a, b);
    assert s[|a|] == '/' && '/' in s;
    assert forall i :: 0 <= i < |a| ==> s[i] == a[i];
  }

  lemma SlashParts(a: string, b: string, c: string, d: string)
    requires Plain(a) && Plain(c) && WrapperId(a, b) == WrapperId(c, d)
    ensures a == c && b == d
  {
    FirstSlash(a, b);
    FirstSlash(c, d);
    assert |a| == |c|;
  }

  lemma NewIdsAreNew(t: PaneNode, used: set<PaneId>, target: PaneId, newId: PaneId)
    requires WellMade(t, used) && target in Leaves(t) && Plain(newId) && newId !in used
    ensures newId !in NodeIds(t) && WrapperId(target, newId) !in NodeIds(t) && WrapperId(target, newId) != newId
    ensures Made(newId, used + {newId}) && Made(WrapperId(target, newId), used + {newId})
  {
    var w := WrapperId(target, newId);
    FirstSlash(target, newId);
    forall a, b | Plain(a)
      ensures newId != WrapperId(a, b) && (w == WrapperId(a, b) ==> b == newId)
    {
      FirstSlash(a, b);
      if w == WrapperId(a, b) {
        SlashParts(target, newId, a, b);
      }
    }
    assert !Made(newId, used) && !Made(w, used);
  }

  lemma OpenKeepsWellMade(t: PaneNode, used: set<PaneId>, target: PaneId, vertical: bool, newId: PaneId, cwd: Option<string>)
    requires WellMade(t, used) && Plain(newId) && newId !in used
    ensures WellMade(SplitPane(t, target, vertical, newId, cwd), used + {newId})
  {
    SplitInserts(t, target, vertical, newId, cwd);
    SplitBranches(t, target, vertical, newId, cwd);
    forall id | id in NodeIds(t)
      ensures Made(id, used + {newId})
    {
    }
    if target in Leaves(t) {
      NewIdsAreNew(t, used, target, newId);
      InsertedLeaves(Leaves(t), target, newId);
    }
  }

  lemma {:induction false} InsertedLeaves(xs: seq<PaneId>, a: PaneId, b: PaneId)
    ensures forall id :: id in InsertAfter(xs, a, b) ==> id in xs || id == b
  {
    if xs != [] && xs[0] != a {
      InsertedLeaves(xs[1..], a, b);
    }
  }

  lemma CloseKeepsWellMade(t: PaneNode, used: set<PaneId>, id: PaneId)
    requires WellMade(t, used)
    ensures WellMade(RemovePane(t, id), used)
  {
    RemoveDrops(t, id);
    WithoutLeaves(Leaves(t), id);
  }

  lemma {:induction false} WithoutLeaves(xs: seq<PaneId>, a: PaneId)
    ensures forall id :: id in Without(xs, a) ==> id in xs
  {
    if xs != [] && xs[0] != a {
      WithoutLeaves(xs[1..], a);
    }
  }

  function Used(e: Edit): set<PaneId> { if e.OpenPane? then {e.newId} else {} }

  lemma MoveKeepsWellMade(t: PaneNode, e: Edit, eps: real, used: set<PaneId>)
    requires WellMade(t, used) && (e.ResizeKey? || e.DragDivider?)
    ensures WellMade(Apply(t, e, eps), used)
  {
    hide Apply, Squeezes, Made, Distinct, Proper, Branching, Leaves, NodeIds, Plain;
    MovingABoundary(t, e, eps);
  }

  lemma ApplyKeepsWellMade(t: PaneNode, e: Edit, eps: real, used: set<PaneId>)
    requires WellMade(t, used) && (e.OpenPane? ==> Plain(e.newId) && e.newId !in used)
    ensures WellMade(Apply(t, e, eps), used + Used(e))
  {
    hide WellMade, Resized, SetPaneBoundary, SplitPane, RemovePane;
    assert e.OpenPane? || used + Used(e) == used;
    match e {
      case OpenPane(target, vertical, newId, cwd) => OpenKeepsWellMade(t, used, target, vertical, newId, cwd);
      case ClosePane(id) => CloseKeepsWellMade(t, used, id);
      case ResizeKey(_, _, _, _) => MoveKeepsWellMade(t, e, eps, used);
      case DragDivider(_, _, _) => MoveKeepsWellMade(t, e, eps, used);
    }
  }

  /** A proper tree stays proper under an edit exactly when it squeezes no pair. */
  lemma ApplyKeepsProperIff(t: PaneNode, e: Edit, eps: real)
    requires Proper(t) && Distinct(t)
    ensures Proper(Apply(t, e, eps)) <==> !Squeezes(t, e, eps)
  {
    hide Proper, Distinct;
    match e {
      case OpenPane(target, vertical, newId, cwd) => SplitInserts(t, target, vertical, newId, cwd);
      case ClosePane(id) =>
        ProperIsBranching(t);
        RemoveDrops(t, id);
      case ResizeKey(_, _, _, _) => MovingABoundary(t, e, eps);
      case DragDivider(_, _, _) => MovingABoundary(t, e, eps);
    }
  }

  // --------------------------------------------------------------- any run

  /** Every tree of the run is proper. */
  predicate ProperThroughout(t: PaneNode, edits: seq<Edit>, eps: real)
    decreases |edits|
  {
    Proper(t) && (edits == [] || ProperThroughout(Apply(t, edits[0], eps), edits[1..], eps))
  }

  predicate NeverSqueezes(t: PaneNode, edits: seq<Edit>, eps: real)
    decreases |edits|
  {
    edits == [] || (!Squeezes(t, edits[0], eps) && NeverSqueezes(Apply(t, edits[0], eps), edits[1..], eps))
  }

  lemma {:induction false} RunKeepsWellMade(t: PaneNode, edits: seq<Edit>, eps: real, used: set<PaneId>)
    requires WellMade(t, used) && FreshNames(edits, used)
    ensures Branching(Run(t, edits, eps)) && Distinct(Run(t, edits, eps))
    ensures Proper(t) ==> (ProperThroughout(t, edits, eps) <==> NeverSqueezes(t, edits, eps))
    decreases |edits|
  {
    hide Apply, Squeezes, Made, Proper, Branching, Distinct, Plain;
    if edits != [] {
      ApplyKeepsWellMade(t, edits[0], eps, used);
      if Proper(t) {
        ApplyKeepsProperIff(t, edits[0], eps);
      }
      assert edits[0].OpenPane? || used + Used(edits[0]) == used;
      RunKeepsWellMade(Apply(t, edits[0], eps), edits[1..], eps, used + Used(edits[0]));
      if Proper(t) && Squeezes(t, edits[0], eps) {
        NotProperAtOnce(Apply(t, edits[0], eps), edits[1..], eps);
      }
    }
  }

  lemma NotProperAtOnce(t: PaneNode, edits: seq<Edit>, eps: real)
    requires !Proper(t)
    ensures !ProperThroughout(t, edits, eps)
  {
  }

  /** Over any run of opened, closed, resized and dragged panes from a single one,
      whatever the edits aim at: no two nodes ever share an id and no split falls
      below two children. All ratios stay distributions, at every point of the run,
      exactly when no edit moves a pair that has no more than the least share. */
  lemma AnyRunKeepsShape(first: PaneNode, edits: seq<Edit>, eps: real)
    requires first.Leaf? && Plain(first.id) && FreshNames(edits, {first.id})
    ensures Branching(Run(first, edits, eps)) && Distinct(Run(first, edits, eps))
    ensures ProperThroughout(first, edits, eps) <==> NeverSqueezes(first, edits, eps)
  {
    assert Made(first.id, {first.id});
    RunKeepsWellMade(first, edits, eps, {first.id});
  }
}
