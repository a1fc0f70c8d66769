/** A pane tree to and from the session file: `readPaneTree` and
    `paneTreeSnapshot` of `src/paneTree.ts`. */
module PaneStorage {
  import opened Options
  import opened PaneTree

  /** A parsed JSON value. An object is given by the six properties the reader
      looks at, `Undefined` standing for a missing one; `NotFinite` is a number
      literal too large for a double. */
  datatype Json =
    | Undefined | Null | Bool(b: bool) | Num(r: real) | NotFinite | Str(s: string)
    | Arr(items: seq<Json>)
    | Obj(id: Json, kind: Json, cwd: Json, vertical: Json, ratios: Json, children: Json)

  /** The ratios as stored; none when the value is not a list of finite numbers,
      which `normalize` treats like a list of the wrong length. */
  function ReadRatios(value: Json): seq<real> {
    if value.Arr? && forall i :: 0 <= i < |value.items| ==> value.items[i].Num? then
      seq(|value.items|, i requires 0 <= i < |value.items| && value.items[i].Num? => value.items[i].r)
    else []
  }

  function ReadLeaf(id: PaneId, cwd: Json): PaneNode {
    FreshLeaf(id, if cwd.Str? && cwd.s != "" then Some(cwd.s) else None)
  }

  /** What is left of a split once its children are read. */
  function ReadSplit(value: Json, id: PaneId, children: seq<PaneNode>): Option<PaneNode>
    requires value.Obj?
  {
    if children == [] then None
    else if |children| == 1 then Some(children[0])
    else Some(Split(id, value.vertical == Bool(true), Normalize(ReadRatios(value.ratios), |children|), children))
  }

  /** The node read from a value, and the ids seen by then. */
  function Reading(value: Json, seen: set<PaneId>): (Option<PaneNode>, set<PaneId>)
    decreases value
  {
    if !value.Obj? || !value.id.Str? || value.id.s == "" || value.id.s in seen then (None, seen)
    else
      var id := value.id.s;
      if value.kind == Str("leaf") then (Some(ReadLeaf(id, value.cwd)), seen + {id})
      else if value.kind != Str("split") || !value.children.Arr? then (None, seen + {id})
      else
        match ReadingAll(value.children.items, seen + {id})
        case (None, now) => (None, now)
        case (Some(children), now) => (ReadSplit(value, id, children), now)
  }

  function ReadingAll(items: seq<Json>, seen: set<PaneId>): (Option<seq<PaneNode>>, set<PaneId>)
    decreases items
  {
    if items == [] then (Some([]), seen)
    else
      match Reading(items[0], seen)
      case (None, now) => (None, now)
      case (Some(first), now) =>
        match ReadingAll(items[1..], now)
        case (None, end) => (None, end)
        case (Some(rest), end) => (Some([first] + rest), end)
  }

  /** The recursive reader and the set of ids it grows. */
  method Read(value: Json, known: set<PaneId>) returns (node: Option<PaneNode>, seen: set<PaneId>)
    ensures (node, seen) == Reading(value, known)
    decreases value
  {
    node, seen := None, known;
    if !value.Obj? || !value.id.Str? || value.id.s == "" {
      return;
    }
    var id := value.id.s;
    if id in seen {
      return;
    }
    seen := seen + {id};
    if value.kind == Str("leaf") {
      node := Some(ReadLeaf(id, value.cwd));
      return;
    }
    if value.kind != Str("split") || !value.children.Arr? {
      return;
    }
    var items := value.children.items;
    var children := [];
    assert items[0..] == items;
    assert ReadingAll(items, seen).0.Some? ==> children + ReadingAll(items, seen).0.value == ReadingAll(items, seen).0.value;
    for i := 0 to |items|
      invariant ReadingAll(items, known + {id})
             == match ReadingAll(items[i..], seen)
                case (None, end) => (None, end)
                case (Some(rest), end) => (Some(children + rest), end)
    {
      ReadNext(items, i, seen);
      var child, now := Read(items[i], seen);
      seen := now;
      if child == None {
        return;
      }
      ghost var tail := ReadingAll(items[i + 1..], seen);
      assert tail.0.Some? ==> children + ([child.value] + tail.0.value) == (children + [child.value]) + tail.0.value;
      children := children + [child.value];
    }
    assert items[|items|..] == [] && children + [] == children;
    node := ReadSplit(value, id, children);
  }

  lemma ReadNext(items: seq<Json>, i: nat, seen: set<PaneId>)
    requires i < |items|
    ensures ReadingAll(items[i..], seen) == match Reading(items[i], seen)
              case (None, now) => (None, now)
              case (Some(first), now) =>
                match ReadingAll(items[i + 1..], now)
                case (None, end) => (None, end)
                case (Some(rest), end) => (Some([first] + rest), end)
  {
    assert items[i..][1..] == items[i + 1..];
  }

  method ReadPaneTree(raw: Json) returns (t: Option<PaneNode>)
    ensures t == Reading(raw, {}).0
    ensures t.Some? ==> Proper(t.value) && Distinct(t.value) && Stored(t.value)
  {
    var seen;
    t, seen := Read(raw, {});
    ReadingIsWellFormed(raw, {});
  }

  /** A tree a file can hold: named nodes, no live session in a leaf, and a
      directory only where there is one. */
  predicate Stored(t: PaneNode)
    decreases t
  {
    t.id != "" &&
    match t
    case Leaf(_, termId, cwd, profile, runOnStart) =>
      termId == None && profile == None && runOnStart == None && cwd != Some("")
    case Split(_, _, _, children) => StoredAll(children)
  }

  predicate StoredAll(ts: seq<PaneNode>)
    decreases ts
  {
    ts == [] || (Stored(ts[0]) && StoredAll(ts[1..]))
  }

  /** The ids of a tree just read: each new, each seen now, none twice. */
  ghost predicate NewIds(ids: multiset<PaneId>, seen: set<PaneId>, now: set<PaneId>) {
    && seen <= now
    && forall id :: ids[id] <= 1 && (ids[id] == 1 ==> id !in seen && id in now)
  }

  lemma {:induction false} ReadingIsWellFormed(value: Json, seen: set<PaneId>)
    ensures var (node, now) := Reading(value, seen);
            seen <= now && (node.Some? ==> Proper(node.value) && Stored(node.value) && NewIds(NodeIds(node.value), seen, now))
    decreases value
  {
    if value.Obj? && value.id.Str? && value.id.s != "" && value.id.s !in seen
       && value.kind != Str("leaf") && value.kind == Str("split") && value.children.Arr? {
      var id := value.id.s;
      ReadingAllIsWellFormed(value.children.items, seen + {id});
      var (children, now) := ReadingAll(value.children.items, seen + {id});
      if children.Some? && |children.value| == 1 {
        assert children.value[1..] == [];
        assert NodeIdsOf(children.value) == NodeIds(children.value[0]);
      }
    }
  }

  lemma {:induction false} ReadingAllIsWellFormed(items: seq<Json>, seen: set<PaneId>)
    ensures var (nodes, now) := ReadingAll(items, seen);
            seen <= now && (nodes.Some? ==> ProperAll(nodes.value) && StoredAll(nodes.value) && NewIds(NodeIdsOf(nodes.value), seen, now))
    decreases items
  {
    if items != [] {
      ReadingIsWellFormed(items[0], seen);
      var (first, mid) := Reading(items[0], seen);
      if first.Some? {
        ReadingAllIsWellFormed(items[1..], mid);
        var (rest, now) := ReadingAll(items[1..], mid);
        if rest.Some? {
          assert ([first.value] + rest.value)[1..] == rest.value;
        }
      }
    }
  }

  // --------------------------------------------------------------- snapshot

  function Snapshot(t: PaneNode): PaneNode
    decreases t
  {
    match t
    case Leaf(id, _, cwd, _, _) => FreshLeaf(id, cwd)
    case Split(id, vertical, ratios, children) => Split(id, vertical, ratios, SnapshotAll(children))
  }

  function SnapshotAll(ts: seq<PaneNode>): (out: seq<PaneNode>)
    ensures |out| == |ts|
    decreases ts
  {
    if ts == [] then [] else [Snapshot(ts[0])] + SnapshotAll(ts[1..])
  }

  /** A snapshot as the file spells it; an absent directory is not written. */
  function ToJson(t: PaneNode): Json
    decreases t
  {
    match t
    case Leaf(id, _, cwd, _, _) =>
      Obj(Str(id), Str("leaf"), match cwd { case Some(dir) => Str(dir) case None => Undefined }, Undefined, Undefined, Undefined)
    case Split(id, vertical, ratios, children) =>
      Obj(Str(id), Str("split"), Undefined, Bool(vertical), NumbersToJson(ratios), Arr(ToJsonAll(children)))
  }

  function NumbersToJson(rs: seq<real>): Json {
    Arr(seq(|rs|, i requires 0 <= i < |rs| => Num(rs[i])))
  }

  function ToJsonAll(ts: seq<PaneNode>): (out: seq<Json>)
    ensures |out| == |ts|
    decreases ts
  {
    if ts == [] then [] else [ToJson(ts[0])] + ToJsonAll(ts[1..])
  }

  lemma {:induction false} SnapshotKeeps(t: PaneNode)
    ensures NodeIds(Snapshot(t)) == NodeIds(t) && Leaves(Snapshot(t)) == Leaves(t)
    ensures Proper(Snapshot(t)) <==> Proper(t)
    decreases t
  {
    if t.Split? {
      SnapshotAllKeeps(t.children);
    }
  }

  lemma {:induction false} SnapshotAllKeeps(ts: seq<PaneNode>)
    ensures NodeIdsOf(SnapshotAll(ts)) == NodeIdsOf(ts) && LeavesOf(SnapshotAll(ts)) == LeavesOf(ts)
    ensures ProperAll(SnapshotAll(ts)) <==> ProperAll(ts)
    decreases ts
  {
    if ts != [] {
      SnapshotKeeps(ts[0]);
      SnapshotAllKeeps(ts[1..]);
      assert ([Snapshot(ts[0])] + SnapshotAll(ts[1..]))[1..] == SnapshotAll(ts[1..]);
    }
  }

  /** No id twice, and none seen before. */
  ghost predicate Unseen(ids: multiset<PaneId>, seen: set<PaneId>) {
    forall id :: ids[id] <= 1 && (id in seen ==> ids[id] == 0)
  }

  lemma UnseenBelow(own: PaneId, below: multiset<PaneId>, seen: set<PaneId>)
    requires Unseen(multiset{own} + below, seen)
    ensures own !in seen && Unseen(below, seen + {own})
  {
    var ids := multiset{own} + below;
    assert ids[own] == 1 + below[own];
    forall id
      ensures below[id] <= 1 && (id in seen + {own} ==> below[id] == 0)
    {
      assert ids[id] == multiset{own}[id] + below[id];
    }
  }

  lemma UnseenParts(first: multiset<PaneId>, rest: multiset<PaneId>, seen: set<PaneId>)
    requires Unseen(first + rest, seen)
    ensures Unseen(first, seen) && Unseen(rest, seen)
  {
    forall id
      ensures first[id] + rest[id] <= 1 && (id in seen ==> first[id] + rest[id] == 0)
    {
      assert (first + rest)[id] == first[id] + rest[id];
    }
  }

  lemma UnseenAfter(first: multiset<PaneId>, rest: multiset<PaneId>, seen: set<PaneId>, now: set<PaneId>)
    requires Unseen(first + rest, seen) && forall id :: id in now <==> id in seen || id in first
    ensures Unseen(rest, now)
  {
    forall id
      ensures rest[id] <= 1 && (id in now ==> rest[id] == 0)
    {
      assert (first + rest)[id] == first[id] + rest[id];
    }
  }

  lemma {:induction false} ReadBack(t: PaneNode, seen: set<PaneId>)
    requires Proper(t) && Stored(t)
    requires Unseen(NodeIds(t), seen)
    ensures Reading(ToJson(t), seen).0 == Some(t)
    ensures forall id :: id in Reading(ToJson(t), seen).1 <==> id in seen || id in NodeIds(t)
    decreases t
  {
    if t.Split? {
      UnseenBelow(t.id, NodeIdsOf(t.children), seen);
      ReadAllBack(t.children, seen + {t.id});
      assert ReadRatios(NumbersToJson(t.ratios)) == t.ratios;
      NormalizeKeeps(t.ratios);
    }
  }

  lemma {:induction false} ReadAllBack(ts: seq<PaneNode>, seen: set<PaneId>)
    requires ProperAll(ts) && StoredAll(ts)
    requires Unseen(NodeIdsOf(ts), seen)
    ensures ReadingAll(ToJsonAll(ts), seen).0 == Some(ts)
    ensures forall id :: id in ReadingAll(ToJsonAll(ts), seen).1 <==> id in seen || id in NodeIdsOf(ts)
    decreases ts
  {
    if ts != [] {
      var first, rest := NodeIds(ts[0]), NodeIdsOf(ts[1..]);
      UnseenParts(first, rest, seen);
      ReadBack(ts[0], seen);
      var now := Reading(ToJson(ts[0]), seen).1;
      UnseenAfter(first, rest, seen, now);
      ReadAllBack(ts[1..], now);
      ReadBoth(ts, seen);
      hide *;
    }
  }

  lemma ReadBoth(ts: seq<PaneNode>, seen: set<PaneId>)
    requires ts != []
    requires Reading(ToJson(ts[0]), seen).0 == Some(ts[0])
    requires ReadingAll(ToJsonAll(ts[1..]), Reading(ToJson(ts[0]), seen).1).0 == Some(ts[1..])
    ensures ReadingAll(ToJsonAll(ts), seen) == (Some(ts), ReadingAll(ToJsonAll(ts[1..]), Reading(ToJson(ts[0]), seen).1).1)
    ensures NodeIdsOf(ts) == NodeIds(ts[0]) + NodeIdsOf(ts[1..])
  {
    hide Reading, ToJson, NodeIds;
    var items := ToJsonAll(ts);
    assert items[1..] == ToJsonAll(ts[1..]) && items[0] == ToJson(ts[0]);
    assert ts == [ts[0]] + ts[1..];
  }

  /** Reading a snapshot back gives that snapshot exactly when the tree is
      proper, its ids are distinct and not empty, and no pane's directory is
      the empty string. */
  lemma RoundTripIff(t: PaneNode)
    ensures Reading(ToJson(Snapshot(t)), {}).0 == Some(Snapshot(t))
       <==> Proper(t) && Distinct(t) && Stored(Snapshot(t))
  {
    SnapshotKeeps(t);
    ReadingIsWellFormed(ToJson(Snapshot(t)), {});
    if Proper(t) && Distinct(t) && Stored(Snapshot(t)) {
      ReadBack(Snapshot(t), {});
    }
  }
}
