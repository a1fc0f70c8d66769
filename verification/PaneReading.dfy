/** Exactly which stored values are pane trees, and which tree each of them is, told
    from the value alone: `readPaneTree` of `src/paneTree.ts`. */
module PaneReading {
  import opened Options
  import opened PaneTree
  import opened PaneStorage

  predicate IsLeaf(value: Json) { value.Obj? && value.id.Str? && value.id.s != "" && value.kind == Str("leaf") }

  predicate IsSplit(value: Json) {
    value.Obj? && value.id.Str? && value.id.s != "" && value.kind == Str("split") && value.children.Arr? && value.children.items != []
  }

  /** All the way down an object with a name, and either a leaf or a split with a list
      of at least one such object. */
  predicate Tagged(value: Json)
    decreases value
  {
    IsLeaf(value) || (IsSplit(value) && TaggedAll(value.children.items))
  }

  predicate TaggedAll(items: seq<Json>)
    decreases items
  {
    items == [] || (Tagged(items[0]) && TaggedAll(items[1..]))
  }

  /** Every name in it, those of splits with one child included. */
  ghost function Names(value: Json): multiset<PaneId>
    decreases value
  {
    if IsLeaf(value) then multiset{value.id.s}
    else if IsSplit(value) then multiset{value.id.s} + NamesOf(value.children.items)
    else multiset{}
  }

  ghost function NamesOf(items: seq<Json>): multiset<PaneId>
    decreases items
  {
    if items == [] then multiset{} else Names(items[0]) + NamesOf(items[1..])
  }

  /** No name twice, and none of those seen before. */
  ghost predicate Apart(names: multiset<PaneId>, seen: set<PaneId>) {
    forall id :: names[id] <= 1 && (names[id] == 1 ==> id !in seen)
  }

  /** The tree a value stands for: a leaf has the directory that is stored, if there is
      one; a split of one is its child; a split of more has its children in order, and
      the stored shares scaled to sum to 1 where they fit, even ones where not. */
  ghost predicate StandsFor(value: Json, t: PaneNode)
    decreases value
  {
    if IsLeaf(value) then
      t == Leaf(value.id.s, None, if value.cwd.Str? && value.cwd.s != "" then Some(value.cwd.s) else None, None, None)
    else if !IsSplit(value) then false
    else if |value.children.items| == 1 then StandsFor(value.children.items[0], t)
    else
      && t.Split? && t.id == value.id.s && t.vertical == (value.vertical == Bool(true))
      && |t.ratios| == |value.children.items| && SharesFrom(value.ratios, t.ratios) && StandForAll(value.children.items, t.children)
  }

  ghost predicate StandForAll(items: seq<Json>, ts: seq<PaneNode>)
    decreases items
  {
    |items| == |ts| && (items == [] || (StandsFor(items[0], ts[0]) && StandForAll(items[1..], ts[1..])))
  }

  /** A stored list of positive numbers of that length. */
  predicate Fits(stored: Json, n: nat) {
    stored.Arr? && |stored.items| == n && forall i :: 0 <= i < n ==> stored.items[i].Num? && stored.items[i].r > 0.0
  }

  function Numbers(stored: Json, n: nat): (rs: seq<real>)
    requires Fits(stored, n)
    ensures |rs| == n && forall i :: 0 <= i < n ==> rs[i] == stored.items[i].r
  {
    seq(n, i requires 0 <= i < n => stored.items[i].r)
  }

  ghost predicate SharesFrom(stored: Json, ratios: seq<real>) {
    var n := |ratios|;
    if Fits(stored, n) then forall i :: 0 <= i < n ==> ratios[i] * Sum(Numbers(stored, n)) == stored.items[i].r
    else ratios == EvenRatios(n)
  }

  lemma ReadShares(stored: Json, n: nat)
    requires n > 0
    ensures SharesFrom(stored, Normalize(ReadRatios(stored), n))
  {
    hide Sum, Distribution, Scaled, EvenRatios;
    var read := ReadRatios(stored);
    var shares := Normalize(read, n);
    if Fits(stored, n) {
      assert read == Numbers(stored, n);
      Unscaled(read, Sum(read));
    }
  }

  lemma Unscaled(rs: seq<real>, total: real)
    requires total > 0.0
    ensures forall i :: 0 <= i < |rs| ==> Scaled(rs, total)[i] * total == rs[i]
  {
  }

  lemma {:induction false} ReadsIff(value: Json, seen: set<PaneId>)
    ensures var (node, now) := Reading(value, seen);
            && (node.Some? <==> Tagged(value) && Apart(Names(value), seen))
            && (node.Some? ==> StandsFor(value, node.value) && forall id :: id in now <==> id in seen || id in Names(value))
    decreases value
  {
    if IsLeaf(value) {
      assert Names(value)[value.id.s] == 1;
    } else if IsSplit(value) {
      var id, items := value.id.s, value.children.items;
      ReadAllIff(items, seen + {id});
      SplitApart(id, NamesOf(items), seen);
      if id !in seen {
        SplitReads(value, seen);
      }
      hide ReadingAll, TaggedAll, NamesOf, StandForAll, SharesFrom, Apart, ReadSplit, StandsFor;
    }
  }

  lemma SplitApart(id: PaneId, names: multiset<PaneId>, seen: set<PaneId>)
    ensures Apart(multiset{id} + names, seen) <==> id !in seen && Apart(names, seen + {id})
  {
    if Apart(multiset{id} + names, seen) {
      assert (multiset{id} + names)[id] <= 1;
      forall other
        ensures names[other] <= 1 && (names[other] == 1 ==> other !in seen + {id})
      {
        assert (multiset{id} + names)[other] <= 1;
      }
    }
  }

  lemma SplitReads(value: Json, seen: set<PaneId>)
    requires IsSplit(value) && value.id.s !in seen
    requires var (nodes, now) := ReadingAll(value.children.items, seen + {value.id.s});
             nodes.Some? ==> StandForAll(value.children.items, nodes.value)
    ensures var (nodes, now) := ReadingAll(value.children.items, seen + {value.id.s});
            var (node, end) := Reading(value, seen);
            (node.Some? <==> nodes.Some?) && end == now && (node.Some? ==> StandsFor(value, node.value))
  {
    hide SharesFrom, Normalize;
    ReadShares(value.ratios, |value.children.items|);
  }

  lemma {:induction false} ReadAllIff(items: seq<Json>, seen: set<PaneId>)
    ensures var (nodes, now) := ReadingAll(items, seen);
            && (nodes.Some? <==> TaggedAll(items) && Apart(NamesOf(items), seen))
            && (nodes.Some? ==> StandForAll(items, nodes.value) && forall id :: id in now <==> id in seen || id in NamesOf(items))
    decreases items
  {
    if items != [] {
      ReadsIff(items[0], seen);
      var (first, mid) := Reading(items[0], seen);
      if first.Some? {
        ReadAllIff(items[1..], mid);
        var (rest, now) := ReadingAll(items[1..], mid);
        ApartInTurn(Names(items[0]), NamesOf(items[1..]), seen, mid);
        if rest.Some? {
          assert ([first.value] + rest.value)[1..] == rest.value;
        }
      } else if Tagged(items[0]) {
        NotApart(Names(items[0]), NamesOf(items[1..]), seen);
      }
    }
  }

  lemma ApartInTurn(first: multiset<PaneId>, rest: multiset<PaneId>, seen: set<PaneId>, mid: set<PaneId>)
    requires Apart(first, seen) && forall id :: id in mid <==> id in seen || id in first
    ensures Apart(first + rest, seen) <==> Apart(rest, mid)
  {
    if Apart(first + rest, seen) {
      forall id
        ensures rest[id] <= 1 && (rest[id] == 1 ==> id !in mid)
      {
        assert (first + rest)[id] <= 1;
      }
    }
    if Apart(rest, mid) {
      forall id
        ensures (first + rest)[id] <= 1 && ((first + rest)[id] == 1 ==> id !in seen)
      {
        assert first[id] <= 1 && rest[id] <= 1;
      }
    }
  }

  lemma NotApart(first: multiset<PaneId>, rest: multiset<PaneId>, seen: set<PaneId>)
    requires !Apart(first, seen)
    ensures !Apart(first + rest, seen)
  {
    var id :| !(first[id] <= 1 && (first[id] == 1 ==> id !in seen));
    assert (first + rest)[id] >= first[id] >= 1;
  }

  // ------------------------------------------------------------- there and back

  /** The same tree with the same directories, and nothing of the live sessions. */
  predicate Restored(t: PaneNode, r: PaneNode)
    decreases t
  {
    match t
    case Leaf(id, _, cwd, _, _) => r == Leaf(id, None, cwd, None, None)
    case Split(id, vertical, ratios, children) =>
      r.Split? && r.id == id && r.vertical == vertical && r.ratios == ratios && RestoredAll(children, r.children)
  }

  predicate RestoredAll(ts: seq<PaneNode>, rs: seq<PaneNode>)
    decreases ts
  {
    |ts| == |rs| && (ts == [] || (Restored(ts[0], rs[0]) && RestoredAll(ts[1..], rs[1..])))
  }

  lemma {:induction false} SnapshotRestores(t: PaneNode)
    ensures Restored(t, Snapshot(t))
    decreases t
  {
    if t.Split? {
      SnapshotAllRestores(t.children);
    }
  }

  lemma {:induction false} SnapshotAllRestores(ts: seq<PaneNode>)
    ensures RestoredAll(ts, SnapshotAll(ts))
    decreases ts
  {
    if ts != [] {
      SnapshotRestores(ts[0]);
      SnapshotAllRestores(ts[1..]);
      assert SnapshotAll(ts)[1..] == SnapshotAll(ts[1..]);
    }
  }

  /** What is written of a proper tree with distinct, non-empty ids and no empty
      directory is read as the tree it was, without its live sessions. */
  lemma WrittenIsRestored(t: PaneNode)
    requires Proper(t) && Distinct(t) && Stored(Snapshot(t))
    ensures Reading(ToJson(Snapshot(t)), {}).0.Some? && Restored(t, Reading(ToJson(Snapshot(t)), {}).0.value)
  {
    RoundTripIff(t);
    SnapshotRestores(t);
  }
}
