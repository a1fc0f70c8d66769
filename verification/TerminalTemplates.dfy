/** Saved terminal layouts: `src/terminalTemplates.ts`. */
module TerminalTemplates {
  import opened Options
  import opened PaneTree
  import PaneResize

  datatype TemplateNode =
    | TemplateLeaf(profile: Option<string>, cwd: Option<string>, runOnStart: Option<string>)
    | TemplateSplit(vertical: bool, ratios: Option<seq<real>>, children: seq<TemplateNode>)

  datatype Fallback = Fallback(profile: Option<string>, cwd: Option<string>)

  // ---------------------------------------------------------------- shares

  /** The declared ratios scaled to sum to 1, or even shares when they are
      missing, too few or too many, or not all positive. */
  function RatiosFor(ratios: Option<seq<real>>, n: nat): (shares: seq<real>)
    ensures |shares| == n
    ensures n > 0 ==> Distribution(shares)
  {
    if ratios == None || !Usable(ratios.value, n) then
      (if n > 0 then EvenIsDistribution(n); EvenRatios(n) else [])
    else if n == 0 then []
    else
      ScaledIsDistribution(ratios.value);
      Scaled(ratios.value, Sum(ratios.value))
  }

  /** A share as a template writes it: ten-thousandths, at least one. */
  function Stored(share: real): int {
    var rounded := (share * 10000.0 + 0.5).Floor;
    if rounded < 1 then 1 else rounded
  }

  function StoredAll(shares: seq<real>): (stored: seq<real>)
    ensures |stored| == |shares|
    ensures forall i :: 0 <= i < |shares| ==> stored[i] == Stored(shares[i]) as real >= 1.0
  {
    seq(|shares|, i requires 0 <= i < |shares| => Stored(shares[i]) as real)
  }

  /** The nearest whole number, a half rounded up, and never none at all. */
  lemma StoredIsNear(share: real)
    requires share > 0.0
    ensures -1.0 <= Stored(share) as real - 10000.0 * share <= 1.0
    ensures if 10000.0 * share >= 0.5 then -0.5 < Stored(share) as real - 10000.0 * share <= 0.5 else Stored(share) == 1
  {
  }

  lemma {:induction false} StoredSum(shares: seq<real>)
    requires forall i :: 0 <= i < |shares| ==> shares[i] > 0.0
    ensures -(|shares| as real) <= Sum(StoredAll(shares)) - 10000.0 * Sum(shares) <= |shares| as real
  {
    if shares != [] {
      StoredSum(shares[1..]);
      StoredIsNear(shares[0]);
      assert StoredAll(shares)[1..] == StoredAll(shares[1..]);
    }
  }

  function Abs(a: real): real { if a < 0.0 then -a else a }

  /** `kept` is `share` up to (n + 1) / (10000 - n). */
  predicate Near(kept: real, share: real, n: nat) {
    Abs(kept - share) * (10000.0 - n as real) <= n as real + 1.0
  }

  lemma UnitTimes(share: real, d: real, m: real)
    requires 0.0 < share <= 1.0 && -m <= d <= m
    ensures -m <= share * d <= m
  {
    if d >= 0.0 {
      assert share * d <= 1.0 * d;
    } else {
      assert share * -d <= 1.0 * -d;
    }
  }

  lemma ScaleDown(drift: real, total: real, room: real, most: real)
    requires total >= room && -most <= drift * total <= most
    ensures Abs(drift) * room <= most
  {
    assert Abs(drift) * room <= Abs(drift) * total;
  }

  lemma Drift(share: real, stored: real, total: real, kept: real)
    requires total > 0.0 && kept == stored / total
    ensures (kept - share) * total == (stored - 10000.0 * share) - share * (total - 10000.0)
  {
    assert kept * total == stored;
  }

  lemma DriftBound(share: real, stored: real, total: real, n: nat)
    requires 0.0 < share <= 1.0 && -1.0 <= stored - 10000.0 * share <= 1.0
    requires total > 0.0 && -(n as real) <= total - 10000.0 <= n as real
    ensures Near(stored / total, share, n)
  {
    var m := n as real;
    var kept := stored / total;
    Drift(share, stored, total, kept);
    UnitTimes(share, total - 10000.0, m);
    ScaleDown(kept - share, total, 10000.0 - m, m + 1.0);
  }

  lemma {:induction false} ShareAtMostAll(shares: seq<real>, i: nat)
    requires i < |shares| && forall k :: 0 <= k < |shares| ==> shares[k] > 0.0
    ensures shares[i] <= Sum(shares)
  {
    SumPositive(shares);
    if i > 0 {
      ShareAtMostAll(shares[1..], i - 1);
    }
  }

  /** Writing shares down and scaling them up again moves each by little. */
  lemma SharesSurvive(shares: seq<real>)
    requires shares != [] && Distribution(shares)
    ensures var kept := RatiosFor(Some(StoredAll(shares)), |shares|);
            Distribution(kept) && forall i :: 0 <= i < |shares| ==> Near(kept[i], shares[i], |shares|)
  {
    var stored := StoredAll(shares);
    assert Usable(stored, |shares|);
    SumPositive(stored);
    StoredSum(shares);
    forall i | 0 <= i < |shares|
      ensures Near(stored[i] / Sum(stored), shares[i], |shares|)
    {
      ShareAtMostAll(shares, i);
      StoredIsNear(shares[i]);
      DriftBound(shares[i], stored[i], Sum(stored), |shares|);
    }
  }

  // ----------------------------------------------------- capture and build

  function OrElse(own: Option<string>, fallback: Option<string>): Option<string> {
    if own.Some? then own else fallback
  }

  /** A live tree as a template: shape, shares and where each pane stands. */
  function Capture(t: PaneNode, fallback: Fallback): TemplateNode
    decreases t
  {
    match t
    case Leaf(_, _, cwd, profile, _) => TemplateLeaf(OrElse(profile, fallback.profile), OrElse(cwd, fallback.cwd), None)
    case Split(_, vertical, ratios, children) =>
      TemplateSplit(vertical, Some(StoredAll(ratios)), CaptureAll(children, fallback))
  }

  function CaptureAll(ts: seq<PaneNode>, fallback: Fallback): (out: seq<TemplateNode>)
    ensures |out| == |ts|
    decreases ts
  {
    if ts == [] then [] else [Capture(ts[0], fallback)] + CaptureAll(ts[1..], fallback)
  }

  /** Whether the first leaf is still to come, and how many ids were made. */
  datatype Making = Making(first: bool, made: nat)

  /** The tree built from a template, and where that leaves the making of ids. */
  function Built(node: TemplateNode, tabId: PaneId, makeId: nat -> PaneId, m: Making): (PaneNode, Making)
    decreases node
  {
    match node
    case TemplateLeaf(profile, cwd, runOnStart) =>
      var id := if m.first then tabId else makeId(m.made);
      (Leaf(id, None, cwd, profile, runOnStart), Making(false, if m.first then m.made else m.made + 1))
    case TemplateSplit(vertical, ratios, children) =>
      var (built, after) := BuiltAll(children, tabId, makeId, m);
      (Split(makeId(after.made), vertical, RatiosFor(ratios, |children|), built), Making(after.first, after.made + 1))
  }

  function BuiltAll(nodes: seq<TemplateNode>, tabId: PaneId, makeId: nat -> PaneId, m: Making): (out: (seq<PaneNode>, Making))
    ensures |out.0| == |nodes|
    decreases nodes
  {
    if nodes == [] then ([], m)
    else
      var (head, mid) := Built(nodes[0], tabId, makeId, m);
      var (tail, end) := BuiltAll(nodes[1..], tabId, makeId, mid);
      ([head] + tail, end)
  }

  /** The closure of `instantiateTemplate`: the flag it flips and the ids it draws. */
  class Instantiator {
    const tabId: PaneId
    const makeId: nat -> PaneId
    var first: bool
    var made: nat

    constructor (tabId: PaneId, makeId: nat -> PaneId)
      ensures this.tabId == tabId && this.makeId == makeId && first && made == 0
    {
      this.tabId, this.makeId, first, made := tabId, makeId, true, 0;
    }

    method MakeId() returns (id: PaneId)
      modifies this`made
      ensures id == makeId(old(made)) && made == old(made) + 1
    {
      id := makeId(made);
      made := made + 1;
    }

    method Build(node: TemplateNode) returns (t: PaneNode)
      modifies this
      ensures (t, Making(first, made)) == Built(node, tabId, makeId, old(Making(first, made)))
      decreases node
    {
      match node
      case TemplateLeaf(profile, cwd, runOnStart) =>
        var id := tabId;
        if !first {
          id := MakeId();
        }
        first := false;
        t := Leaf(id, None, cwd, profile, runOnStart);
      case TemplateSplit(vertical, ratios, children) =>
        var built := [];
        assert children[0..] == children;
        ghost var all := BuiltAll(children, tabId, makeId, Making(first, made)).0;
        assert built + all == all;
        for i := 0 to |children|
          invariant |built| == i
          invariant var (tail, end) := BuiltAll(children[i..], tabId, makeId, Making(first, made));
                    (built + tail, end) == BuiltAll(children, tabId, makeId, old(Making(first, made)))
        {
          assert children[i..][1..] == children[i + 1..];
          ghost var was := built;
          var child := Build(children[i]);
          built := built + [child];
          ghost var tail := BuiltAll(children[i + 1..], tabId, makeId, Making(first, made)).0;
          assert was + ([child] + tail) == built + tail;
        }
        assert children[|children|..] == [] && built + [] == built;
        var id := MakeId();
        t := Split(id, vertical, RatiosFor(ratios, |children|), built);
    }
  }

  method InstantiateTemplate(node: TemplateNode, tabId: PaneId, makeId: nat -> PaneId) returns (t: PaneNode)
    ensures t == Instantiated(node, tabId, makeId)
  {
    var instantiator := new Instantiator(tabId, makeId);
    t := instantiator.Build(node);
  }

  function Instantiated(node: TemplateNode, tabId: PaneId, makeId: nat -> PaneId): PaneNode {
    Built(node, tabId, makeId, Making(true, 0)).0
  }

  // ------------------------------------------------------------ round trip

  ghost predicate Fresh(makeId: nat -> PaneId, tabId: PaneId) {
    && (forall i, j :: 0 <= i < j ==> makeId(i) != makeId(j))
    && forall i: nat :: makeId(i) != tabId
  }

  /** An id drawn between two states of the making. */
  ghost predicate Drawn(id: PaneId, tabId: PaneId, makeId: nat -> PaneId, m: Making, end: Making) {
    (m.first && !end.first && id == tabId) || exists j: nat :: m.made <= j < end.made && id == makeId(j)
  }

  ghost predicate FreshlyDrawn(ids: multiset<PaneId>, tabId: PaneId, makeId: nat -> PaneId, m: Making, end: Making) {
    && m.made <= end.made && (end.first ==> m.first)
    && forall id :: ids[id] <= 1 && (ids[id] == 1 ==> Drawn(id, tabId, makeId, m, end))
  }

  lemma {:induction false} BuiltIsFresh(node: TemplateNode, tabId: PaneId, makeId: nat -> PaneId, m: Making)
    requires Fresh(makeId, tabId)
    ensures var (t, end) := Built(node, tabId, makeId, m); FreshlyDrawn(NodeIds(t), tabId, makeId, m, end)
    decreases node
  {
    match node
    case TemplateLeaf(_, _, _) =>
      var (t, end) := Built(node, tabId, makeId, m);
      assert Drawn(t.id, tabId, makeId, m, end);
    case TemplateSplit(_, _, children) =>
      BuiltAllIsFresh(children, tabId, makeId, m);
      var (built, after) := BuiltAll(children, tabId, makeId, m);
      var end := Making(after.first, after.made + 1);
      var id := makeId(after.made);
      assert Drawn(id, tabId, makeId, m, end);
      DrawnApart(NodeIdsOf(built), multiset{id}, tabId, makeId, m, after, end);
  }

  lemma DrawnOnce(id: PaneId, tabId: PaneId, makeId: nat -> PaneId, m: Making, mid: Making, end: Making)
    requires Fresh(makeId, tabId) && (mid.first ==> m.first) && m.made <= mid.made <= end.made && (end.first ==> mid.first)
    ensures !(Drawn(id, tabId, makeId, m, mid) && Drawn(id, tabId, makeId, mid, end))
    ensures Drawn(id, tabId, makeId, m, mid) || Drawn(id, tabId, makeId, mid, end) ==> Drawn(id, tabId, makeId, m, end)
  {
  }

  /** Ids drawn one after the other never meet. */
  lemma DrawnApart(a: multiset<PaneId>, c: multiset<PaneId>, tabId: PaneId, makeId: nat -> PaneId, m: Making, mid: Making, end: Making)
    requires Fresh(makeId, tabId)
    requires FreshlyDrawn(a, tabId, makeId, m, mid) && FreshlyDrawn(c, tabId, makeId, mid, end)
    ensures FreshlyDrawn(c + a, tabId, makeId, m, end) && FreshlyDrawn(a + c, tabId, makeId, m, end)
  {
    forall id
      ensures a[id] + c[id] <= 1 && (a[id] + c[id] == 1 ==> Drawn(id, tabId, makeId, m, end))
    {
      DrawnOnce(id, tabId, makeId, m, mid, end);
    }
    assert c + a == a + c;
  }

  lemma {:induction false} BuiltAllIsFresh(nodes: seq<TemplateNode>, tabId: PaneId, makeId: nat -> PaneId, m: Making)
    requires Fresh(makeId, tabId)
    ensures var (ts, end) := BuiltAll(nodes, tabId, makeId, m); FreshlyDrawn(NodeIdsOf(ts), tabId, makeId, m, end)
    decreases nodes
  {
    if nodes != [] {
      var (head, mid) := Built(nodes[0], tabId, makeId, m);
      var (tail, end) := BuiltAll(nodes[1..], tabId, makeId, mid);
      BuiltIsFresh(nodes[0], tabId, makeId, m);
      BuiltAllIsFresh(nodes[1..], tabId, makeId, mid);
      DrawnApart(NodeIds(head), NodeIdsOf(tail), tabId, makeId, m, mid, end);
      assert ([head] + tail)[1..] == tail;
    }
  }

  /** A tree built from a template: leaf for leaf what the template says a terminal is
      to be started with, split for split its direction and, scaled, its shares. */
  ghost predicate Mirrors(node: TemplateNode, t: PaneNode)
    decreases node
  {
    match node
    case TemplateLeaf(profile, cwd, runOnStart) =>
      t.Leaf? && t.profile == profile && t.cwd == cwd && t.runOnStart == runOnStart && t.termId == None
    case TemplateSplit(vertical, ratios, children) =>
      && t.Split? && t.vertical == vertical && |t.ratios| == |children| && MirrorsAll(children, t.children)
      && if ratios.Some? && Usable(ratios.value, |children|)
         then forall i :: 0 <= i < |children| ==> t.ratios[i] * Sum(ratios.value) == ratios.value[i]
         else t.ratios == EvenRatios(|children|)
  }

  ghost predicate MirrorsAll(nodes: seq<TemplateNode>, ts: seq<PaneNode>)
    decreases nodes
  {
    |nodes| == |ts| && (nodes == [] || (Mirrors(nodes[0], ts[0]) && MirrorsAll(nodes[1..], ts[1..])))
  }

  lemma RatiosAreScaled(ratios: Option<seq<real>>, n: nat)
    ensures var shares := RatiosFor(ratios, n);
            if ratios.Some? && Usable(ratios.value, n)
            then forall i :: 0 <= i < n ==> shares[i] * Sum(ratios.value) == ratios.value[i]
            else shares == EvenRatios(n)
  {
    hide Sum;
    if n > 0 && ratios.Some? && Usable(ratios.value, n) {
      ScaledIsDistribution(ratios.value);
    }
  }

  /** Instantiating gives a tree with the template's directions, shares and leaves. */
  lemma {:induction false} BuiltMirrors(node: TemplateNode, tabId: PaneId, makeId: nat -> PaneId, m: Making)
    ensures Mirrors(node, Built(node, tabId, makeId, m).0)
    decreases node
  {
    if node.TemplateSplit? {
      BuiltAllMirrors(node.children, tabId, makeId, m);
      RatiosAreScaled(node.ratios, |node.children|);
      hide RatiosFor, Usable, Sum;
    }
  }

  lemma {:induction false} BuiltAllMirrors(nodes: seq<TemplateNode>, tabId: PaneId, makeId: nat -> PaneId, m: Making)
    ensures MirrorsAll(nodes, BuiltAll(nodes, tabId, makeId, m).0)
    decreases nodes
  {
    if nodes != [] {
      var (head, mid) := Built(nodes[0], tabId, makeId, m);
      var (tail, end) := BuiltAll(nodes[1..], tabId, makeId, mid);
      BuiltMirrors(nodes[0], tabId, makeId, m);
      BuiltAllMirrors(nodes[1..], tabId, makeId, mid);
      assert ([head] + tail)[1..] == tail;
    }
  }

  /** The same layout: directions and child counts agree all the way down, each
      pane stands where it stood, and shares that are a distribution are nearly kept. */
  ghost predicate Like(t: PaneNode, r: PaneNode, fallback: Fallback)
    decreases t
  {
    match t
    case Leaf(_, _, cwd, profile, _) =>
      && r.Leaf?
      && r.cwd == (if cwd.Some? then cwd else fallback.cwd) && r.profile == (if profile.Some? then profile else fallback.profile)
      && r.termId == None && r.runOnStart == None
    case Split(_, vertical, ratios, children) =>
      && r.Split? && r.vertical == vertical && |r.children| == |children| && |r.ratios| == |children|
      && (|ratios| == |children| && Distribution(ratios) ==>
            forall i :: 0 <= i < |ratios| ==> Near(r.ratios[i], ratios[i], |ratios|))
      && LikeAll(children, r.children, fallback)
  }

  ghost predicate LikeAll(ts: seq<PaneNode>, rs: seq<PaneNode>, fallback: Fallback)
    decreases ts
  {
    |ts| == |rs| && (ts == [] || (Like(ts[0], rs[0], fallback) && LikeAll(ts[1..], rs[1..], fallback)))
  }

  lemma {:induction false} BuiltIsLike(t: PaneNode, fallback: Fallback, tabId: PaneId, makeId: nat -> PaneId, m: Making)
    requires Branching(t)
    ensures var (r, end) := Built(Capture(t, fallback), tabId, makeId, m);
            && Like(t, r, fallback) && Proper(r) && |Leaves(r)| == |Leaves(t)| && Leaves(r) != [] && !end.first
            && (m.first ==> Leaves(r)[0] == tabId)
    decreases t
  {
    if t.Split? {
      BuiltAllIsLike(t.children, fallback, tabId, makeId, m);
      if |t.ratios| == |t.children| && Distribution(t.ratios) {
        SharesSurvive(t.ratios);
      }
    }
  }

  lemma {:induction false} BuiltAllIsLike(ts: seq<PaneNode>, fallback: Fallback, tabId: PaneId, makeId: nat -> PaneId, m: Making)
    requires BranchingAll(ts)
    ensures var (rs, end) := BuiltAll(CaptureAll(ts, fallback), tabId, makeId, m);
            && LikeAll(ts, rs, fallback) && ProperAll(rs) && |LeavesOf(rs)| == |LeavesOf(ts)|
            && (ts != [] ==> LeavesOf(rs) != [] && !end.first && (m.first ==> LeavesOf(rs)[0] == tabId))
    decreases ts
  {
    if ts != [] {
      BuiltIsLike(ts[0], fallback, tabId, makeId, m);
      var (head, mid) := Built(Capture(ts[0], fallback), tabId, makeId, m);
      BuiltAllIsLike(ts[1..], fallback, tabId, makeId, mid);
      assert CaptureAll(ts, fallback)[1..] == CaptureAll(ts[1..], fallback);
      var (tail, end) := BuiltAll(CaptureAll(ts[1..], fallback), tabId, makeId, mid);
      assert ([head] + tail)[1..] == tail;
    }
  }

  /** Capturing a live layout and opening it again gives the same layout: same
      shape, directions, leaf count and order, the tab's id on the first pane, no id
      twice, and every split whose ratios are a distribution keeps each share within
      (n + 1) / (10000 - n). */
  lemma CaptureThenInstantiate(t: PaneNode, fallback: Fallback, tabId: PaneId, makeId: nat -> PaneId)
    requires Branching(t) && Fresh(makeId, tabId)
    ensures var r := Instantiated(Capture(t, fallback), tabId, makeId);
            && Like(t, r, fallback) && Proper(r) && Distinct(r)
            && |Leaves(r)| == |Leaves(t)| && Leaves(r) != [] && Leaves(r)[0] == tabId
  {
    BuiltIsLike(t, fallback, tabId, makeId, Making(true, 0));
    BuiltIsFresh(Capture(t, fallback), tabId, makeId, Making(true, 0));
  }

  /** Dragging the first boundary of 5, 5 and 90 percent panes anywhere: on screen the
      first pane then has a third, in the template next to nothing. */
  lemma ASqueezedPaneIsLost(wanted: real)
    ensures var ratios := PaneResize.Moved([0.05, 0.05, 0.9], 0, 1, PaneResize.Held(0.1, wanted));
            && Normalize(ratios, 3)[0] == 1.0 / 3.0
            && RatiosFor(Some(StoredAll(ratios)), 3)[0] < 0.0001
  {
    var ratios := PaneResize.Moved([0.05, 0.05, 0.9], 0, 1, PaneResize.Held(0.1, wanted));
    assert ratios == [0.0, 0.1, 0.9] && ratios[0] <= 0.0;
    var stored := StoredAll(ratios);
    assert stored == [1.0, 1000.0, 9000.0];
    assert stored[1..] == [1000.0, 9000.0] && [1000.0, 9000.0][1..] == [9000.0] && [9000.0][1..] == [];
    assert Sum([9000.0]) == 9000.0 && Sum([1000.0, 9000.0]) == 10000.0;
  }
}
