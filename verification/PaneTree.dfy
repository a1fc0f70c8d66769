/** The pane tree of a split terminal: `src/paneTree.ts`, shape and shares. */
module PaneTree {
  import opened Options

  type PaneId = string

  datatype PaneNode =
    | Leaf(id: PaneId, termId: Option<string>, cwd: Option<string>, profile: Option<string>, runOnStart: Option<string>)
    | Split(id: PaneId, vertical: bool, ratios: seq<real>, children: seq<PaneNode>)

  const PANE_MIN_SHARE: real := 0.1

  function FreshLeaf(id: PaneId, cwd: Option<string>): PaneNode {
    Leaf(id, None, cwd, None, None)
  }

  // --------------------------------------------------------------- shares

  function Sum(rs: seq<real>): real {
    if rs == [] then 0.0 else rs[0] + Sum(rs[1..])
  }

  function EvenRatios(n: nat): (rs: seq<real>)
    ensures |rs| == n
    ensures forall i :: 0 <= i < n ==> rs[i] == 1.0 / (n as real) > 0.0
  {
    if n == 0 then [] else seq(n, _ => 1.0 / (n as real))
  }

  /** Ratios the tree can lay out as they are. */
  predicate Usable(ratios: seq<real>, n: nat) {
    |ratios| == n && forall i :: 0 <= i < n ==> ratios[i] > 0.0
  }

  /** All positive and summing to 1. */
  predicate Distribution(shares: seq<real>) {
    (forall i :: 0 <= i < |shares| ==> shares[i] > 0.0) && Sum(shares) == 1.0
  }

  function Scaled(rs: seq<real>, total: real): (shares: seq<real>)
    requires total > 0.0
    ensures |shares| == |rs|
    ensures forall i :: 0 <= i < |rs| ==> shares[i] == rs[i] / total
  {
    seq(|rs|, i requires 0 <= i < |rs| => rs[i] / total)
  }

  lemma {:induction false} SumPositive(rs: seq<real>)
    requires forall i :: 0 <= i < |rs| ==> rs[i] > 0.0
    ensures Sum(rs) >= 0.0 && (rs != [] ==> Sum(rs) >= rs[0])
  {
    if rs != [] {
      SumPositive(rs[1..]);
    }
  }

  lemma {:induction false} SumScaled(rs: seq<real>, total: real)
    requires total > 0.0
    ensures Sum(Scaled(rs, total)) == Sum(rs) / total
  {
    if rs != [] {
      SumScaled(rs[1..], total);
      assert Scaled(rs, total)[1..] == Scaled(rs[1..], total);
    }
  }

  lemma {:induction false} SumConst(rs: seq<real>, r: real)
    requires forall i :: 0 <= i < |rs| ==> rs[i] == r
    ensures Sum(rs) == |rs| as real * r
  {
    if rs != [] {
      SumConst(rs[1..], r);
    }
  }

  lemma {:induction false} SumConcat(a: seq<real>, b: seq<real>)
    ensures Sum(a + b) == Sum(a) + Sum(b)
  {
    if a == [] {
      assert a + b == b;
    } else {
      SumConcat(a[1..], b);
      assert (a + b)[1..] == a[1..] + b;
    }
  }

  lemma EvenIsDistribution(n: nat)
    requires n > 0
    ensures Distribution(EvenRatios(n))
  {
    SumConst(EvenRatios(n), 1.0 / (n as real));
  }

  lemma ShareOf(r: real, total: real)
    requires r > 0.0 && total > 0.0
    ensures r / total > 0.0 && total / total == 1.0
  {
  }

  lemma ScaledIsDistribution(raw: seq<real>)
    requires raw != [] && forall i :: 0 <= i < |raw| ==> raw[i] > 0.0
    ensures Sum(raw) > 0.0 && Distribution(Scaled(raw, Sum(raw)))
  {
    SumPositive(raw);
    SumScaled(raw, Sum(raw));
    ShareOf(raw[0], Sum(raw));
    forall i | 0 <= i < |raw|
      ensures Scaled(raw, Sum(raw))[i] > 0.0
    {
      ShareOf(raw[i], Sum(raw));
    }
  }

  /** Ratios coerced to a distribution of length `n`: the ones given, scaled to
      sum to 1, or even shares when any of them is missing or not positive. */
  function Normalize(ratios: seq<real>, n: nat): (shares: seq<real>)
    ensures |shares| == n
    ensures n > 0 ==> Distribution(shares)
    ensures n > 0 && Usable(ratios, n) ==> Sum(ratios) > 0.0 && shares == Scaled(ratios, Sum(ratios))
    ensures n > 0 && !Usable(ratios, n) ==> shares == EvenRatios(n)
  {
    if n == 0 then []
    else
      var raw := if Usable(ratios, n) then ratios else EvenRatios(n);
      ScaledIsDistribution(raw);
      EvenIsDistribution(n);
      assert Usable(ratios, n) || Scaled(raw, Sum(raw)) == EvenRatios(n);
      Scaled(raw, Sum(raw))
  }

  lemma NormalizeKeeps(shares: seq<real>)
    requires Distribution(shares) && shares != []
    ensures Normalize(shares, |shares|) == shares
  {
    assert Scaled(shares, 1.0) == shares;
  }

  // ---------------------------------------------------------------- leaves

  /** Every leaf id in reading order. */
  function Leaves(t: PaneNode): (ids: seq<PaneId>)
    decreases t
  {
    match t
    case Leaf(id, _, _, _, _) => [id]
    case Split(_, _, _, children) => LeavesOf(children)
  }

  function LeavesOf(ts: seq<PaneNode>): (ids: seq<PaneId>)
    decreases ts
  {
    if ts == [] then [] else Leaves(ts[0]) + LeavesOf(ts[1..])
  }

  /** Every node id, leaves and splits, with multiplicity. */
  ghost function NodeIds(t: PaneNode): multiset<PaneId>
    decreases t
  {
    match t
    case Leaf(id, _, _, _, _) => multiset{id}
    case Split(id, _, _, children) => multiset{id} + NodeIdsOf(children)
  }

  ghost function NodeIdsOf(ts: seq<PaneNode>): multiset<PaneId>
    decreases ts
  {
    if ts == [] then multiset{} else NodeIds(ts[0]) + NodeIdsOf(ts[1..])
  }

  /** No two nodes share an id. */
  ghost predicate Distinct(t: PaneNode) {
    forall id :: NodeIds(t)[id] <= 1
  }

  /** No split is empty. */
  predicate Solid(t: PaneNode)
    decreases t
  {
    match t
    case Leaf(_, _, _, _, _) => true
    case Split(_, _, _, children) => children != [] && SolidAll(children)
  }

  predicate SolidAll(ts: seq<PaneNode>)
    decreases ts
  {
    ts == [] || (Solid(ts[0]) && SolidAll(ts[1..]))
  }

  /** No split has fewer than two children, and every split's ratios are a
      distribution running parallel to its children. */
  predicate Proper(t: PaneNode)
    decreases t
  {
    match t
    case Leaf(_, _, _, _, _) => true
    case Split(_, _, ratios, children) =>
      |children| >= 2 && |ratios| == |children| && Distribution(ratios) && ProperAll(children)
  }

  predicate ProperAll(ts: seq<PaneNode>)
    decreases ts
  {
    ts == [] || (Proper(ts[0]) && ProperAll(ts[1..]))
  }

  /** No split has fewer than two children, whatever its ratios: a drag of a small
      pair stores ratios that are no distribution. */
  predicate Branching(t: PaneNode)
    decreases t
  {
    match t
    case Leaf(_, _, _, _, _) => true
    case Split(_, _, _, children) => |children| >= 2 && BranchingAll(children)
  }

  predicate BranchingAll(ts: seq<PaneNode>)
    decreases ts
  {
    ts == [] || (Branching(ts[0]) && BranchingAll(ts[1..]))
  }

  lemma {:induction false} ProperIsBranching(t: PaneNode)
    requires Proper(t)
    ensures Branching(t)
    decreases t
  {
    if t.Split? {
      ProperAllIsBranching(t.children);
    }
  }

  lemma {:induction false} ProperAllIsBranching(ts: seq<PaneNode>)
    requires ProperAll(ts)
    ensures BranchingAll(ts)
    decreases ts
  {
    if ts != [] {
      ProperIsBranching(ts[0]);
      ProperAllIsBranching(ts[1..]);
    }
  }

  lemma {:induction false} BranchingIsSolid(t: PaneNode)
    requires Branching(t)
    ensures Solid(t)
    decreases t
  {
    if t.Split? {
      BranchingAllIsSolid(t.children);
    }
  }

  lemma {:induction false} BranchingAllIsSolid(ts: seq<PaneNode>)
    requires BranchingAll(ts)
    ensures SolidAll(ts)
    decreases ts
  {
    if ts != [] {
      BranchingIsSolid(ts[0]);
      BranchingAllIsSolid(ts[1..]);
    }
  }

  lemma {:induction false} BranchingAllConcat(a: seq<PaneNode>, c: seq<PaneNode>)
    ensures BranchingAll(a + c) <==> BranchingAll(a) && BranchingAll(c)
  {
    if a == [] {
      assert a + c == c;
    } else {
      BranchingAllConcat(a[1..], c);
      assert (a + c)[1..] == a[1..] + c;
    }
  }

  lemma {:induction false} ProperIsSolid(t: PaneNode)
    requires Proper(t)
    ensures Solid(t)
    decreases t
  {
    if t.Split? {
      ProperAllIsSolid(t.children);
    }
  }

  lemma {:induction false} ProperAllIsSolid(ts: seq<PaneNode>)
    requires ProperAll(ts)
    ensures SolidAll(ts)
    decreases ts
  {
    if ts != [] {
      ProperIsSolid(ts[0]);
      ProperAllIsSolid(ts[1..]);
    }
  }

  /** A leaf's id is a node's id. */
  lemma {:induction false} LeavesAreNodes(t: PaneNode)
    ensures multiset(Leaves(t)) <= NodeIds(t)
    decreases t
  {
    if t.Split? {
      LeavesOfAreNodes(t.children);
    }
  }

  lemma {:induction false} LeavesOfAreNodes(ts: seq<PaneNode>)
    ensures multiset(LeavesOf(ts)) <= NodeIdsOf(ts)
    decreases ts
  {
    if ts != [] {
      LeavesAreNodes(ts[0]);
      LeavesOfAreNodes(ts[1..]);
    }
  }

  /** A leaf id names one position in reading order. */
  lemma LeafPositionsDiffer(t: PaneNode, i: nat, j: nat)
    requires Distinct(t) && i < j < |Leaves(t)|
    ensures Leaves(t)[i] != Leaves(t)[j]
  {
    LeavesAreNodes(t);
    var ids := Leaves(t);
    assert ids == ids[..j] + [ids[j]] + ids[j + 1..];
    assert multiset(ids) == multiset(ids[..j]) + multiset{ids[j]} + multiset(ids[j + 1..]);
    assert NodeIds(t)[ids[j]] <= 1;
    assert multiset(ids[..j])[ids[j]] == 0;
    assert ids[..j][i] == ids[i] && ids[i] in ids[..j];
  }

  lemma {:induction false} SomeLeaf(t: PaneNode)
    requires Solid(t)
    ensures Leaves(t) != []
    decreases t
  {
    if t.Split? {
      SomeLeaf(t.children[0]);
    }
  }

  lemma {:induction false} SolidAt(ts: seq<PaneNode>, i: nat)
    requires SolidAll(ts) && i < |ts|
    ensures Solid(ts[i])
  {
    if i > 0 {
      SolidAt(ts[1..], i - 1);
    }
  }

  lemma {:induction false} ProperAt(ts: seq<PaneNode>, i: nat)
    requires ProperAll(ts) && i < |ts|
    ensures Proper(ts[i])
  {
    if i > 0 {
      ProperAt(ts[1..], i - 1);
    }
  }
}
