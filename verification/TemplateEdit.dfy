/** Editing one leaf of a saved layout: `templateLeaves` and `updateTemplateLeaf`
    of `src/terminalTemplates.ts`. */
module TemplateEdit {
  import opened Options
  import opened TerminalTemplates

  type Path = seq<int>

  datatype LeafAt = LeafAt(path: Path, leaf: TemplateNode)

  /** The leaves in reading order, each with the child indexes leading to it. */
  function LeavesFrom(node: TemplateNode, path: Path): seq<LeafAt>
    decreases node, 0
  {
    match node
    case TemplateLeaf(_, _, _) => [LeafAt(path, node)]
    case TemplateSplit(_, _, children) => LeavesFromAll(children, path, 0)
  }

  /** The leaves of a split's children from the one at `first` on. */
  function LeavesFromAll(nodes: seq<TemplateNode>, path: Path, first: int): seq<LeafAt>
    decreases nodes
  {
    if nodes == [] then [] else LeavesFrom(nodes[0], path + [first]) + LeavesFromAll(nodes[1..], path, first + 1)
  }

  method Walk(node: TemplateNode, path: Path, before: seq<LeafAt>) returns (out: seq<LeafAt>)
    ensures out == before + LeavesFrom(node, path)
    decreases node
  {
    out := before;
    match node
    case TemplateLeaf(_, _, _) =>
      out := out + [LeafAt(path, node)];
    case TemplateSplit(_, _, children) =>
      assert children[0..] == children;
      for i := 0 to |children|
        invariant out + LeavesFromAll(children[i..], path, i) == before + LeavesFrom(node, path)
      {
        ghost var was, rest := out, LeavesFromAll(children[i + 1..], path, i + 1);
        assert children[i..][1..] == children[i + 1..];
        assert was + (LeavesFrom(children[i], path + [i]) + rest) == was + LeavesFrom(children[i], path + [i]) + rest;
        out := Walk(children[i], path + [i], out);
      }
      assert children[|children|..] == [] && out + [] == out;
  }

  method TemplateLeaves(tree: TemplateNode) returns (out: seq<LeafAt>)
    ensures out == LeavesFrom(tree, [])
  {
    out := Walk(tree, [], []);
  }

  /** A field that is given replaces the leaf's, be it by nothing. */
  datatype Patch = Patch(profile: Option<Option<string>>, cwd: Option<Option<string>>, runOnStart: Option<Option<string>>)

  function Given<T>(patch: Option<T>, own: T): T { if patch.Some? then patch.value else own }

  function PatchLeaf(leaf: TemplateNode, patch: Patch): TemplateNode
    requires leaf.TemplateLeaf?
  {
    TemplateLeaf(Given(patch.profile, leaf.profile), Given(patch.cwd, leaf.cwd), Given(patch.runOnStart, leaf.runOnStart))
  }

  function UpdateLeaf(tree: TemplateNode, path: Path, patch: Patch): TemplateNode
    decreases tree
  {
    if path == [] then if tree.TemplateLeaf? then PatchLeaf(tree, patch) else tree
    else if tree.TemplateLeaf? then tree
    else if !(0 <= path[0] < |tree.children|) then tree
    else tree.(children := UpdateAt(tree.children, path[0], path[1..], patch))
  }

  /** The child at `at` updated, the others kept. */
  function UpdateAt(nodes: seq<TemplateNode>, at: int, path: Path, patch: Patch): (out: seq<TemplateNode>)
    ensures |out| == |nodes|
    decreases nodes
  {
    if nodes == [] then []
    else [if at == 0 then UpdateLeaf(nodes[0], path, patch) else nodes[0]] + UpdateAt(nodes[1..], at - 1, path, patch)
  }

  // ------------------------------------------------------------ what changes

  /** The entry at the path has what the patch gives it and keeps the rest of its own. */
  function Patched(entry: LeafAt, path: Path, patch: Patch): LeafAt {
    if entry.path != path || entry.leaf.TemplateSplit? then entry
    else
      var leaf := entry.leaf;
      LeafAt(path, leaf.(profile := if patch.profile.Some? then patch.profile.value else leaf.profile,
                         cwd := if patch.cwd.Some? then patch.cwd.value else leaf.cwd,
                         runOnStart := if patch.runOnStart.Some? then patch.runOnStart.value else leaf.runOnStart))
  }

  function PatchedAll(entries: seq<LeafAt>, path: Path, patch: Patch): (out: seq<LeafAt>)
    ensures |out| == |entries| && forall i :: 0 <= i < |entries| ==> out[i] == Patched(entries[i], path, patch)
  {
    seq(|entries|, i requires 0 <= i < |entries| => Patched(entries[i], path, patch))
  }

  lemma {:induction false} PathsGoDown(node: TemplateNode, path: Path)
    ensures forall entry :: entry in LeavesFrom(node, path) ==> path <= entry.path && entry.leaf.TemplateLeaf?
    ensures node.TemplateSplit? ==> forall entry :: entry in LeavesFrom(node, path) ==> path < entry.path
    decreases node, 0
  {
    if node.TemplateSplit? {
      PathsGoDownAll(node.children, path, 0);
    }
  }

  lemma {:induction false} PathsGoDownAll(nodes: seq<TemplateNode>, path: Path, first: int)
    ensures forall entry :: entry in LeavesFromAll(nodes, path, first) ==>
              path < entry.path && entry.path[|path|] >= first && entry.leaf.TemplateLeaf?
    decreases nodes
  {
    if nodes != [] {
      PathsGoDown(nodes[0], path + [first]);
      PathsGoDownAll(nodes[1..], path, first + 1);
      forall entry | entry in LeavesFrom(nodes[0], path + [first])
        ensures path < entry.path && entry.path[|path|] == first
      {
        assert entry.path[..|path| + 1] == path + [first];
      }
    }
  }

  lemma NoneThere(entries: seq<LeafAt>, path: Path, patch: Patch)
    requires forall entry :: entry in entries ==> entry.path != path
    ensures PatchedAll(entries, path, patch) == entries
  {
    assert forall i :: 0 <= i < |entries| ==> entries[i] in entries;
  }

  lemma PatchedConcat(a: seq<LeafAt>, b: seq<LeafAt>, path: Path, patch: Patch)
    ensures PatchedAll(a + b, path, patch) == PatchedAll(a, path, patch) + PatchedAll(b, path, patch)
  {
  }

  lemma UpdateHead(nodes: seq<TemplateNode>, at: int, path: Path, patch: Patch)
    requires nodes != []
    ensures UpdateAt(nodes, at, path, patch)
         == [if at == 0 then UpdateLeaf(nodes[0], path, patch) else nodes[0]] + UpdateAt(nodes[1..], at - 1, path, patch)
  {
  }

  lemma LeavesFromHead(head: TemplateNode, tail: seq<TemplateNode>, path: Path, first: int)
    ensures LeavesFromAll([head] + tail, path, first) == LeavesFrom(head, path + [first]) + LeavesFromAll(tail, path, first + 1)
  {
    assert ([head] + tail)[1..] == tail;
  }

  /** An update changes the leaf at its path and no other, nor any leaf's place;
      where the path leads to no leaf nothing changes. */
  lemma {:induction false} UpdateChangesOneLeaf(tree: TemplateNode, path: Path, patch: Patch, prefix: Path)
    ensures LeavesFrom(UpdateLeaf(tree, path, patch), prefix) == PatchedAll(LeavesFrom(tree, prefix), prefix + path, patch)
    decreases tree, 0
  {
    PathsGoDown(tree, prefix);
    if path == [] || tree.TemplateLeaf? {
      assert prefix + [] == prefix;
      if tree.TemplateSplit? || path != [] {
        NoneThere(LeavesFrom(tree, prefix), prefix + path, patch);
      }
    } else {
      assert prefix + path == prefix + [path[0]] + path[1..];
      UpdateAtChangesOne(tree.children, path[0], path[1..], patch, prefix, 0);
      if !(0 <= path[0] < |tree.children|) {
        NoChildThere(tree.children, path[0], path[1..], patch);
      }
    }
  }

  lemma {:induction false} NoChildThere(nodes: seq<TemplateNode>, at: int, path: Path, patch: Patch)
    requires !(0 <= at < |nodes|)
    ensures UpdateAt(nodes, at, path, patch) == nodes
  {
    if nodes != [] {
      NoChildThere(nodes[1..], at - 1, path, patch);
      assert nodes == [nodes[0]] + nodes[1..];
    }
  }

  lemma {:induction false} UpdateAtChangesOne(nodes: seq<TemplateNode>, at: int, path: Path, patch: Patch, prefix: Path, first: int)
    ensures LeavesFromAll(UpdateAt(nodes, at, path, patch), prefix, first)
         == PatchedAll(LeavesFromAll(nodes, prefix, first), prefix + [first + at] + path, patch)
    decreases nodes
  {
    if nodes != [] {
      var whole, below := prefix + [first + at] + path, prefix + [first];
      var head := LeavesFrom(nodes[0], below);
      var changed := if at == 0 then UpdateLeaf(nodes[0], path, patch) else nodes[0];
      UpdateAtChangesOne(nodes[1..], at - 1, path, patch, prefix, first + 1);
      UpdateHead(nodes, at, path, patch);
      LeavesFromHead(changed, UpdateAt(nodes[1..], at - 1, path, patch), prefix, first);
      LeavesFromHead(nodes[0], nodes[1..], prefix, first);
      PatchedConcat(head, LeavesFromAll(nodes[1..], prefix, first + 1), whole, patch);
      assert nodes == [nodes[0]] + nodes[1..];
      hide UpdateAt, UpdateLeaf, LeavesFrom, LeavesFromAll, PatchedAll;
      if at == 0 {
        UpdateChangesOneLeaf(nodes[0], path, patch, below);
      } else {
        PathsGoDown(nodes[0], below);
        assert whole[|prefix|] != first;
        NoneThere(head, whole, patch);
      }
    }
  }

  /** A path names one leaf. */
  lemma {:induction false} PathsDiffer(node: TemplateNode, path: Path, i: nat, j: nat)
    requires i < j < |LeavesFrom(node, path)|
    ensures LeavesFrom(node, path)[i].path != LeavesFrom(node, path)[j].path
    decreases node, 0
  {
    PathsDifferAll(node.children, path, 0, i, j);
  }

  lemma {:induction false} PathsDifferAll(nodes: seq<TemplateNode>, path: Path, first: int, i: nat, j: nat)
    requires i < j < |LeavesFromAll(nodes, path, first)|
    ensures LeavesFromAll(nodes, path, first)[i].path != LeavesFromAll(nodes, path, first)[j].path
    decreases nodes
  {
    var head, tail := LeavesFrom(nodes[0], path + [first]), LeavesFromAll(nodes[1..], path, first + 1);
    if j < |head| {
      PathsDiffer(nodes[0], path + [first], i, j);
    } else if i >= |head| {
      PathsDifferAll(nodes[1..], path, first + 1, i - |head|, j - |head|);
    } else {
      PathsGoDown(nodes[0], path + [first]);
      PathsGoDownAll(nodes[1..], path, first + 1);
      assert head[i] in head && tail[j - |head|] in tail;
      assert head[i].path[..|path| + 1] == path + [first];
    }
  }

  // --------------------------------------------------------- places and layout

  /** What stands at a path of child indexes. */
  function At(tree: TemplateNode, path: Path): Option<TemplateNode>
    decreases |path|
  {
    if path == [] then Some(tree)
    else if tree.TemplateLeaf? || !(0 <= path[0] < |tree.children|) then None
    else At(tree.children[path[0]], path[1..])
  }

  /** The walk lists a leaf under a path exactly when it stands there. */
  lemma {:induction false} ListedIffThere(tree: TemplateNode, prefix: Path, path: Path, leaf: TemplateNode)
    ensures LeafAt(prefix + path, leaf) in LeavesFrom(tree, prefix) <==> leaf.TemplateLeaf? && At(tree, path) == Some(leaf)
    decreases tree, 0
  {
    PathsGoDown(tree, prefix);
    if tree.TemplateSplit? {
      if path == [] {
        assert prefix + path == prefix;
      } else {
        ListedIffBelow(tree.children, prefix, 0, path, leaf);
      }
    } else {
      assert prefix + path == prefix <==> path == [];
    }
  }

  lemma {:induction false} ListedIffBelow(nodes: seq<TemplateNode>, prefix: Path, first: int, path: Path, leaf: TemplateNode)
    requires path != []
    ensures LeafAt(prefix + path, leaf) in LeavesFromAll(nodes, prefix, first)
       <==> leaf.TemplateLeaf? && first <= path[0] < first + |nodes| && At(nodes[path[0] - first], path[1..]) == Some(leaf)
    decreases nodes
  {
    if nodes != [] {
      var entry := LeafAt(prefix + path, leaf);
      var head, tail := LeavesFrom(nodes[0], prefix + [first]), LeavesFromAll(nodes[1..], prefix, first + 1);
      assert entry in LeavesFromAll(nodes, prefix, first) <==> entry in head || entry in tail;
      hide LeavesFrom, LeavesFromAll, At;
      ListedIffBelow(nodes[1..], prefix, first + 1, path, leaf);
      if path[0] == first {
        assert prefix + path == prefix + [first] + path[1..];
        ListedIffThere(nodes[0], prefix + [first], path[1..], leaf);
      } else {
        NotBelow(nodes[0], prefix, first, path, leaf);
      }
    }
  }

  lemma NotBelow(node: TemplateNode, prefix: Path, first: int, path: Path, leaf: TemplateNode)
    requires path != [] && path[0] != first
    ensures LeafAt(prefix + path, leaf) !in LeavesFrom(node, prefix + [first])
  {
    PathsGoDown(node, prefix + [first]);
    assert (prefix + path)[|prefix|] != (prefix + [first])[|prefix|];
  }

  /** The same splits, directions and shares all the way down. */
  predicate SameLayout(a: TemplateNode, b: TemplateNode)
    decreases a
  {
    match a
    case TemplateLeaf(_, _, _) => b.TemplateLeaf?
    case TemplateSplit(vertical, ratios, children) =>
      b.TemplateSplit? && b.vertical == vertical && b.ratios == ratios && SameLayouts(children, b.children)
  }

  predicate SameLayouts(a: seq<TemplateNode>, b: seq<TemplateNode>)
    decreases a
  {
    |a| == |b| && (a == [] || (SameLayout(a[0], b[0]) && SameLayouts(a[1..], b[1..])))
  }

  /** An update changes nothing of the layout around its leaf. */
  lemma {:induction false} UpdateKeepsLayout(tree: TemplateNode, path: Path, patch: Patch)
    ensures SameLayout(tree, UpdateLeaf(tree, path, patch))
    decreases tree, 0
  {
    if tree.TemplateSplit? {
      if path == [] || !(0 <= path[0] < |tree.children|) {
        LayoutIsItself(tree);
      } else {
        UpdateAtKeepsLayouts(tree.children, path[0], path[1..], patch);
      }
    }
  }

  lemma {:induction false} UpdateAtKeepsLayouts(nodes: seq<TemplateNode>, at: int, path: Path, patch: Patch)
    ensures SameLayouts(nodes, UpdateAt(nodes, at, path, patch))
    decreases nodes
  {
    if nodes != [] {
      if at == 0 {
        UpdateKeepsLayout(nodes[0], path, patch);
      } else {
        LayoutIsItself(nodes[0]);
      }
      UpdateAtKeepsLayouts(nodes[1..], at - 1, path, patch);
      UpdateHead(nodes, at, path, patch);
      var tail := UpdateAt(nodes[1..], at - 1, path, patch);
      assert UpdateAt(nodes, at, path, patch)[1..] == tail;
    }
  }

  lemma {:induction false} LayoutIsItself(tree: TemplateNode)
    ensures SameLayout(tree, tree)
    decreases tree, 0
  {
    if tree.TemplateSplit? {
      LayoutsAreThemselves(tree.children);
    }
  }

  lemma {:induction false} LayoutsAreThemselves(nodes: seq<TemplateNode>)
    ensures SameLayouts(nodes, nodes)
    decreases nodes
  {
    if nodes != [] {
      LayoutIsItself(nodes[0]);
      LayoutsAreThemselves(nodes[1..]);
    }
  }
}
