/** Shape becomes geometry: `layout` of `src/paneTree.ts`, and the proof that
    the rectangles tile the tab's content area exactly. */
module PaneLayout {
  import opened PaneTree

  datatype Box = Box(x: real, y: real, w: real, h: real)
  datatype PaneRect = PaneRect(id: PaneId, box: Box)

  const WINDOW: Box := Box(0.0, 0.0, 1.0, 1.0)

  predicate Real(b: Box) { b.w > 0.0 && b.h > 0.0 }

  /** The part of `b` from `along` for `share`, both as shares of its extent. */
  function ChildBox(b: Box, vertical: bool, along: real, share: real): Box {
    if vertical then Box(b.x, b.y + along * b.h, b.w, share * b.h)
    else Box(b.x + along * b.w, b.y, share * b.w, b.h)
  }

  function Rects(t: PaneNode, b: Box): (rs: seq<PaneRect>)
    decreases t
  {
    match t
    case Leaf(id, _, _, _, _) => [PaneRect(id, b)]
    case Split(_, vertical, ratios, children) =>
      RectsOf(children, Normalize(ratios, |children|), vertical, b, 0.0)
  }

  function RectsOf(ts: seq<PaneNode>, shares: seq<real>, vertical: bool, b: Box, along: real): (rs: seq<PaneRect>)
    requires |ts| == |shares|
    decreases ts
  {
    if ts == [] then [] else
      Rects(ts[0], ChildBox(b, vertical, along, shares[0]))
      + RectsOf(ts[1..], shares[1..], vertical, b, along + shares[0])
  }

  function Layout(t: PaneNode): seq<PaneRect> { Rects(t, WINDOW) }

  /** The recursive walk of `layout`, pushing onto the list it closes over. */
  method Walk(node: PaneNode, b: Box, pushed: seq<PaneRect>) returns (out: seq<PaneRect>)
    ensures out == pushed + Rects(node, b)
    decreases node
  {
    if node.Leaf? {
      return pushed + [PaneRect(node.id, b)];
    }
    var ratios := Normalize(node.ratios, |node.children|);
    var along := 0.0;
    out := pushed;
    for i := 0 to |node.children|
      invariant out + RectsOf(node.children[i..], ratios[i..], node.vertical, b, along) == pushed + Rects(node, b)
    {
      var share := ratios[i];
      NextChild(node.children, ratios, node.vertical, b, along, i, out);
      out := Walk(node.children[i], ChildBox(b, node.vertical, along, share), out);
      along := along + share;
    }
    assert node.children[|node.children|..] == [];
  }

  lemma NextChild(ts: seq<PaneNode>, shares: seq<real>, vertical: bool, b: Box, along: real, i: nat, out: seq<PaneRect>)
    requires |ts| == |shares| && i < |ts|
    ensures out + RectsOf(ts[i..], shares[i..], vertical, b, along)
         == out + Rects(ts[i], ChildBox(b, vertical, along, shares[i]))
                + RectsOf(ts[i + 1..], shares[i + 1..], vertical, b, along + shares[i])
  {
    hide ChildBox;
    assert ts[i..][1..] == ts[i + 1..] && shares[i..][1..] == shares[i + 1..];
  }

  method LayoutOf(t: PaneNode) returns (out: seq<PaneRect>)
    ensures out == Layout(t)
  {
    out := Walk(t, WINDOW, []);
  }

  // -------------------------------------------------------------- read back

  function Ids(rs: seq<PaneRect>): seq<PaneId> {
    seq(|rs|, i requires 0 <= i < |rs| => rs[i].id)
  }

  /** Rectangles come in reading order, one for each leaf. */
  lemma {:induction false} IdsAreLeaves(t: PaneNode, b: Box)
    ensures Ids(Rects(t, b)) == Leaves(t)
    decreases t
  {
    if t.Split? {
      IdsAreLeavesOf(t.children, Normalize(t.ratios, |t.children|), t.vertical, b, 0.0);
    }
  }

  lemma {:induction false} IdsAreLeavesOf(ts: seq<PaneNode>, shares: seq<real>, vertical: bool, b: Box, along: real)
    requires |ts| == |shares|
    ensures Ids(RectsOf(ts, shares, vertical, b, along)) == LeavesOf(ts)
    decreases ts
  {
    if ts != [] {
      IdsAreLeaves(ts[0], ChildBox(b, vertical, along, shares[0]));
      IdsAreLeavesOf(ts[1..], shares[1..], vertical, b, along + shares[0]);
      var head := Rects(ts[0], ChildBox(b, vertical, along, shares[0]));
      var tail := RectsOf(ts[1..], shares[1..], vertical, b, along + shares[0]);
      assert Ids(head + tail) == Ids(head) + Ids(tail);
    }
  }

  // ----------------------------------------------------------------- points

  /** A point, and for each axis which end of an interval belongs to it. */
  datatype Probe = Probe(x: real, y: real, upperX: bool, upperY: bool)

  predicate Covers(lo: real, len: real, p: real, upper: bool) {
    if upper then lo < p <= lo + len else lo <= p < lo + len
  }

  predicate In(b: Box, q: Probe) {
    Covers(b.x, b.w, q.x, q.upperX) && Covers(b.y, b.h, q.y, q.upperY)
  }

  /** How many of the rectangles hold the point. */
  function Hits(rs: seq<PaneRect>, q: Probe): nat {
    if rs == [] then 0 else (if In(rs[0].box, q) then 1 else 0) + Hits(rs[1..], q)
  }

  lemma {:induction false} HitsConcat(a: seq<PaneRect>, c: seq<PaneRect>, q: Probe)
    ensures Hits(a + c, q) == Hits(a, q) + Hits(c, q)
  {
    if a == [] {
      assert a + c == c;
    } else {
      HitsConcat(a[1..], c, q);
      assert (a + c)[1..] == a[1..] + c;
    }
  }

  lemma CutInterval(lo: real, len: real, along: real, a: real, c: real, p: real, upper: bool)
    requires len > 0.0 && a > 0.0 && c >= 0.0
    ensures Covers(lo + along * len, (a + c) * len, p, upper)
       <==> Covers(lo + along * len, a * len, p, upper) || Covers(lo + (along + a) * len, c * len, p, upper)
    ensures !(Covers(lo + along * len, a * len, p, upper) && Covers(lo + (along + a) * len, c * len, p, upper))
  {
    var start, cut, rest := along * len, a * len, c * len;
    assert (along + a) * len == start + cut;
    assert (a + c) * len == cut + rest;
    assert cut > 0.0 && rest >= 0.0;
  }

  /** A strip cut in two: each point of it lies in exactly one half. */
  lemma CutStrip(b: Box, vertical: bool, along: real, a: real, c: real, q: Probe)
    requires Real(b) && a > 0.0 && c >= 0.0
    ensures In(ChildBox(b, vertical, along, a + c), q)
       <==> In(ChildBox(b, vertical, along, a), q) || In(ChildBox(b, vertical, along + a, c), q)
    ensures !(In(ChildBox(b, vertical, along, a), q) && In(ChildBox(b, vertical, along + a, c), q))
  {
    if vertical {
      CutInterval(b.y, b.h, along, a, c, q.y, q.upperY);
    } else {
      CutInterval(b.x, b.w, along, a, c, q.x, q.upperX);
    }
  }

  lemma ChildIsReal(b: Box, vertical: bool, along: real, share: real)
    requires Real(b) && share > 0.0
    ensures Real(ChildBox(b, vertical, along, share))
  {
    assert share * b.w > 0.0 && share * b.h > 0.0;
  }

  lemma WholeBox(b: Box, vertical: bool)
    ensures ChildBox(b, vertical, 0.0, 1.0) == b
  {
  }

  // ----------------------------------------------------------------- tiling

  /** The heart of the layout: a point of the box lies in one rectangle, a point
      outside it in none, whichever ends the intervals own. */
  lemma {:induction false} Tiles(t: PaneNode, b: Box, q: Probe)
    requires Solid(t) && Real(b)
    ensures Hits(Rects(t, b), q) == if In(b, q) then 1 else 0
    decreases t
  {
    if t.Leaf? {
      assert Hits([PaneRect(t.id, b)][1..], q) == 0;
    } else {
      var shares := Normalize(t.ratios, |t.children|);
      TilesStrip(t.children, shares, t.vertical, b, 0.0, q);
      WholeBox(b, t.vertical);
    }
  }

  lemma {:induction false} TilesStrip(ts: seq<PaneNode>, shares: seq<real>, vertical: bool, b: Box, along: real, q: Probe)
    requires SolidAll(ts) && Real(b) && |ts| == |shares|
    requires forall i :: 0 <= i < |shares| ==> shares[i] > 0.0
    ensures Hits(RectsOf(ts, shares, vertical, b, along), q)
         == if In(ChildBox(b, vertical, along, Sum(shares)), q) then 1 else 0
    decreases ts
  {
    hide ChildBox;
    if ts == [] {
      EmptyStrip(b, vertical, along, q);
    } else {
      var head := ChildBox(b, vertical, along, shares[0]);
      ChildIsReal(b, vertical, along, shares[0]);
      SumPositive(shares[1..]);
      CutStrip(b, vertical, along, shares[0], Sum(shares[1..]), q);
      var first, rest := Rects(ts[0], head), RectsOf(ts[1..], shares[1..], vertical, b, along + shares[0]);
      Tiles(ts[0], head, q);
      TilesStrip(ts[1..], shares[1..], vertical, b, along + shares[0], q);
      HitsConcat(first, rest, q);
    }
  }

  lemma EmptyStrip(b: Box, vertical: bool, along: real, q: Probe)
    ensures !In(ChildBox(b, vertical, along, 0.0), q)
  {
  }

  lemma {:induction false} HitsAt(rs: seq<PaneRect>, q: Probe, i: nat)
    requires i < |rs| && In(rs[i].box, q)
    ensures Hits(rs, q) >= 1
    ensures forall j :: 0 <= j < |rs| && j != i && In(rs[j].box, q) ==> Hits(rs, q) >= 2
  {
    if i == 0 {
      forall j | 0 < j < |rs| && In(rs[j].box, q)
        ensures Hits(rs, q) >= 2
      {
        HitsAt(rs[1..], q, j - 1);
      }
    } else {
      HitsAt(rs[1..], q, i - 1);
      assert forall j :: 0 < j < |rs| ==> rs[j] == rs[1..][j - 1];
    }
  }

  lemma {:induction false} SomeHit(rs: seq<PaneRect>, q: Probe) returns (i: nat)
    requires Hits(rs, q) >= 1
    ensures i < |rs| && In(rs[i].box, q)
  {
    if In(rs[0].box, q) {
      i := 0;
    } else {
      i := SomeHit(rs[1..], q);
      i := i + 1;
    }
  }

  /** Exactly one pane holds each point of the window. */
  lemma PaneAt(t: PaneNode, q: Probe) returns (i: nat)
    requires Solid(t) && In(WINDOW, q)
    ensures i < |Layout(t)| && In(Layout(t)[i].box, q)
    ensures forall j :: 0 <= j < |Layout(t)| && In(Layout(t)[j].box, q) ==> j == i
  {
    Tiles(t, WINDOW, q);
    i := SomeHit(Layout(t), q);
    HitsAt(Layout(t), q, i);
  }

  /** No two panes share a point, and none reaches outside the window. */
  lemma PanesApart(t: PaneNode, q: Probe, i: nat, j: nat)
    requires Solid(t) && i < |Layout(t)| && j < |Layout(t)|
    requires In(Layout(t)[i].box, q) && In(Layout(t)[j].box, q)
    ensures i == j && In(WINDOW, q)
  {
    Tiles(t, WINDOW, q);
    HitsAt(Layout(t), q, i);
  }

  /** Every rectangle has room, and the areas add up to the whole box. */
  function Area(rs: seq<PaneRect>): real {
    if rs == [] then 0.0 else BoxArea(rs[0].box) + Area(rs[1..])
  }

  function BoxArea(b: Box): real { b.w * b.h }

  function Part(share: real, area: real): real { share * area }

  ghost predicate AllReal(rs: seq<PaneRect>) {
    forall i :: 0 <= i < |rs| ==> Real(rs[i].box)
  }

  lemma {:induction false} AreaConcat(a: seq<PaneRect>, c: seq<PaneRect>)
    ensures Area(a + c) == Area(a) + Area(c)
  {
    if a == [] {
      assert a + c == c;
    } else {
      AreaConcat(a[1..], c);
      assert (a + c)[1..] == a[1..] + c;
    }
  }

  lemma {:induction false} AreasAddUp(t: PaneNode, b: Box)
    requires Solid(t) && Real(b)
    ensures Area(Rects(t, b)) == BoxArea(b)
    decreases t, 0
  {
    if t.Leaf? {
      assert Area([PaneRect(t.id, b)][1..]) == 0.0;
    } else {
      AreasOfStrip(t.children, Normalize(t.ratios, |t.children|), t.vertical, b, 0.0, BoxArea(b));
    }
  }

  lemma ChildArea(b: Box, vertical: bool, along: real, share: real, area: real)
    requires area == BoxArea(b)
    ensures BoxArea(ChildBox(b, vertical, along, share)) == Part(share, area)
  {
  }

  lemma AddShares(share: real, rest: real, all: real, area: real)
    requires all == share + rest
    ensures Part(all, area) == Part(share, area) + Part(rest, area)
  {
  }

  lemma NoShare(area: real)
    ensures Part(0.0, area) == 0.0
  {
  }

  lemma FirstArea(t: PaneNode, b: Box, vertical: bool, along: real, share: real, area: real)
    requires Solid(t) && Real(b) && share > 0.0 && area == BoxArea(b)
    ensures Area(Rects(t, ChildBox(b, vertical, along, share))) == Part(share, area)
    decreases t, 1
  {
    ChildIsReal(b, vertical, along, share);
    AreasAddUp(t, ChildBox(b, vertical, along, share));
    ChildArea(b, vertical, along, share, area);
  }

  lemma {:induction false} AreasOfStrip(ts: seq<PaneNode>, shares: seq<real>, vertical: bool, b: Box, along: real, area: real)
    requires SolidAll(ts) && Real(b) && |ts| == |shares| && area == BoxArea(b)
    requires forall i :: 0 <= i < |shares| ==> shares[i] > 0.0
    ensures Area(RectsOf(ts, shares, vertical, b, along)) == Part(Sum(shares), area)
    decreases ts
  {
    hide ChildBox, BoxArea, Part;
    if ts != [] {
      var first := Rects(ts[0], ChildBox(b, vertical, along, shares[0]));
      var rest := RectsOf(ts[1..], shares[1..], vertical, b, along + shares[0]);
      FirstArea(ts[0], b, vertical, along, shares[0], area);
      AreasOfStrip(ts[1..], shares[1..], vertical, b, along + shares[0], area);
      AreaConcat(first, rest);
      AddShares(shares[0], Sum(shares[1..]), Sum(shares), area);
    } else {
      NoShare(area);
    }
  }

  lemma {:induction false} RectsAreReal(t: PaneNode, b: Box)
    requires Solid(t) && Real(b)
    ensures AllReal(Rects(t, b))
    decreases t
  {
    if t.Split? {
      StripIsReal(t.children, Normalize(t.ratios, |t.children|), t.vertical, b, 0.0);
    }
  }

  lemma {:induction false} StripIsReal(ts: seq<PaneNode>, shares: seq<real>, vertical: bool, b: Box, along: real)
    requires SolidAll(ts) && Real(b) && |ts| == |shares|
    requires forall i :: 0 <= i < |shares| ==> shares[i] > 0.0
    ensures AllReal(RectsOf(ts, shares, vertical, b, along))
    decreases ts
  {
    if ts != [] {
      ChildIsReal(b, vertical, along, shares[0]);
      RectsAreReal(ts[0], ChildBox(b, vertical, along, shares[0]));
      StripIsReal(ts[1..], shares[1..], vertical, b, along + shares[0]);
    }
  }

  lemma LayoutBasics(t: PaneNode)
    ensures Ids(Layout(t)) == Leaves(t) && |Layout(t)| == |Leaves(t)|
    ensures forall i :: 0 <= i < |Layout(t)| ==> Layout(t)[i].id == Leaves(t)[i]
    ensures Solid(t) ==> AllReal(Layout(t))
  {
    IdsAreLeaves(t, WINDOW);
    assert |Ids(Layout(t))| == |Layout(t)|;
    assert forall i :: 0 <= i < |Layout(t)| ==> Layout(t)[i].id == Ids(Layout(t))[i];
    if Solid(t) {
      RectsAreReal(t, WINDOW);
    }
  }

  /** `layout` tiles the content area: reading order, positive sizes, total
      area 1, and each point of the half-open unit square in exactly one pane. */
  lemma LayoutTiles(t: PaneNode)
    requires Solid(t)
    ensures Ids(Layout(t)) == Leaves(t)
    ensures AllReal(Layout(t)) && Area(Layout(t)) == 1.0
    ensures forall x: real, y: real {:trigger Probe(x, y, false, false)} ::
              Hits(Layout(t), Probe(x, y, false, false)) == if 0.0 <= x < 1.0 && 0.0 <= y < 1.0 then 1 else 0
  {
    LayoutBasics(t);
    AreasAddUp(t, WINDOW);
    forall x: real, y: real
      ensures Hits(Layout(t), Probe(x, y, false, false)) == if 0.0 <= x < 1.0 && 0.0 <= y < 1.0 then 1 else 0
    {
      Tiles(t, WINDOW, Probe(x, y, false, false));
    }
  }
}
