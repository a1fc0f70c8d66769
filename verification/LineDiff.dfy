/** The userscript review diff: `src/userscriptDiff.ts`.

    `DiffLines` fills the flat table in place and walks it back. The table is
    proved against `Lcs`, and `Lcs` against common subsequences themselves. */
module LineDiff {
  import opened LineBreaks

  datatype Kind = Same | Del | Add
  datatype DiffLine = DiffLine(kind: Kind, text: string)

  const MAX_DIFF_CELLS: nat := 4_000_000

  /** A cell of the `Uint32Array`. */
  newtype Uint32 = x: int | 0 <= x < 0x1_0000_0000

  // ------------------------------------------------- what a diff stands for

  /** The texts of the lines whose mark is one of `kinds`. */
  function Select(d: seq<DiffLine>, kinds: set<Kind>): (texts: seq<string>)
    ensures |texts| <= |d|
  {
    if d == [] then []
    else if d[0].kind in kinds then [d[0].text] + Select(d[1..], kinds)
    else Select(d[1..], kinds)
  }

  /** The lines a diff says the old text had, the new text has, and both have. */
  function OldSide(d: seq<DiffLine>): seq<string> { Select(d, {Same, Del}) }
  function NewSide(d: seq<DiffLine>): seq<string> { Select(d, {Same, Add}) }
  function Kept(d: seq<DiffLine>): seq<string> { Select(d, {Same}) }

  /** How many lines a diff marks as removed or added. */
  function Changes(d: seq<DiffLine>): nat {
    if d == [] then 0 else (if d[0].kind == Same then 0 else 1) + Changes(d[1..])
  }

  /** Within each stretch without a kept line, removals stand before additions. */
  ghost predicate RemovedFirst(d: seq<DiffLine>) {
    forall i, j :: 0 <= i < j < |d| && d[i].kind == Add && d[j].kind == Del ==>
      exists k :: i < k < j && d[k].kind == Same
  }

  /** `at` picks the lines `c` out of `s`, left to right. */
  ghost predicate Picks(at: seq<nat>, c: seq<string>, s: seq<string>) {
    && |at| == |c|
    && (forall i :: 0 <= i < |at| ==> at[i] < |s| && s[at[i]] == c[i])
    && (forall i, j :: 0 <= i < j < |at| ==> at[i] < at[j])
  }

  ghost predicate Subsequence(c: seq<string>, s: seq<string>) {
    exists at :: Picks(at, c, s)
  }

  ghost predicate Common(c: seq<string>, s: seq<string>, t: seq<string>) {
    Subsequence(c, s) && Subsequence(c, t)
  }

  ghost predicate LongestCommon(c: seq<string>, s: seq<string>, t: seq<string>) {
    Common(c, s, t) && forall other :: Common(other, s, t) ==> |other| <= |c|
  }

  lemma SubsequenceGrows(c: seq<string>, s: seq<string>, x: string)
    requires Subsequence(c, s)
    ensures Subsequence([x] + c, [x] + s) && Subsequence(c, [x] + s)
  {
    var at :| Picks(at, c, s);
    var later := seq(|at|, i requires 0 <= i < |at| => at[i] + 1);
    assert Picks(later, c, [x] + s);
    assert Picks([0] + later, [x] + c, [x] + s);
  }

  lemma {:induction false} SelectIsSubsequence(d: seq<DiffLine>, few: set<Kind>, many: set<Kind>)
    requires few <= many
    ensures Subsequence(Select(d, few), Select(d, many))
  {
    if d == [] {
      assert Picks([], [], []);
    } else {
      SelectIsSubsequence(d[1..], few, many);
      SubsequenceGrows(Select(d[1..], few), Select(d[1..], many), d[0].text);
    }
  }

  lemma KeptIsCommon(d: seq<DiffLine>)
    ensures Common(Kept(d), OldSide(d), NewSide(d))
  {
    SelectIsSubsequence(d, {Same}, {Same, Del});
    SelectIsSubsequence(d, {Same}, {Same, Add});
  }

  lemma {:induction false} ChangesCount(d: seq<DiffLine>)
    ensures Changes(d) + 2 * |Kept(d)| == |OldSide(d)| + |NewSide(d)|
  {
    if d != [] {
      ChangesCount(d[1..]);
    }
  }

  /** A diff that keeps a longest common subsequence marks the fewest lines
      among all diffs between the same two texts. */
  lemma FewestChanges(best: seq<DiffLine>, other: seq<DiffLine>)
    requires OldSide(best) == OldSide(other) && NewSide(best) == NewSide(other)
    requires LongestCommon(Kept(best), OldSide(best), NewSide(best))
    ensures Changes(best) <= Changes(other)
  {
    KeptIsCommon(other);
    ChangesCount(best);
    ChangesCount(other);
  }

  // ------------------------------------------------------------- the table

  function Max(a: nat, b: nat): nat { if a < b then b else a }

  /** Longest common subsequence length of `s[a..]` and `t[b..]`. */
  function Lcs(s: seq<string>, t: seq<string>, a: nat, b: nat): (n: nat)
    requires a <= |s| && b <= |t|
    ensures n <= |s| - a && n <= |t| - b
    decreases |s| - a + |t| - b
  {
    if a == |s| || b == |t| then 0
    else if s[a] == t[b] then Lcs(s, t, a + 1, b + 1) + 1
    else Max(Lcs(s, t, a + 1, b), Lcs(s, t, a, b + 1))
  }

  /** Neighbouring cells: skipping a line on either side costs 0 or 1. */
  lemma {:induction false} Neighbours(s: seq<string>, t: seq<string>, a: nat, b: nat)
    requires a <= |s| && b <= |t|
    ensures a < |s| ==> Lcs(s, t, a + 1, b) <= Lcs(s, t, a, b) <= Lcs(s, t, a + 1, b) + 1
    ensures b < |t| ==> Lcs(s, t, a, b + 1) <= Lcs(s, t, a, b) <= Lcs(s, t, a, b + 1) + 1
    decreases |s| - a + |t| - b
  {
    if a < |s| && b < |t| {
      Neighbours(s, t, a + 1, b);
      Neighbours(s, t, a, b + 1);
      Neighbours(s, t, a + 1, b + 1);
    }
  }

  /** No common subsequence is longer than the table says. */
  lemma {:induction false} LcsBounds(s: seq<string>, t: seq<string>, a: nat, b: nat,
                                     c: seq<string>, at: seq<nat>, bt: seq<nat>)
    requires a <= |s| && b <= |t|
    requires Picks(at, c, s) && Picks(bt, c, t)
    requires c != [] ==> a <= at[0] && b <= bt[0]
    ensures |c| <= Lcs(s, t, a, b)
    decreases |s| - a + |t| - b
  {
    if c != [] {
      if s[a] == t[b] {
        LcsBounds(s, t, a + 1, b + 1, c[1..], at[1..], bt[1..]);
      } else if at[0] == a {
        LcsBounds(s, t, a, b + 1, c, at, bt);
      } else {
        LcsBounds(s, t, a + 1, b, c, at, bt);
      }
    }
  }

  lemma AsLongAsTheTableIsLongest(c: seq<string>, s: seq<string>, t: seq<string>)
    requires Common(c, s, t) && |c| == Lcs(s, t, 0, 0)
    ensures LongestCommon(c, s, t)
  {
    forall other | Common(other, s, t)
      ensures |other| <= |c|
    {
      var at :| Picks(at, other, s);
      var bt :| Picks(bt, other, t);
      LcsBounds(s, t, 0, 0, other, at, bt);
    }
  }

  /** Where row `a` starts in the flat array. */
  function Row(a: nat, width: nat): nat { if a == 0 then 0 else Row(a - 1, width) + width }

  function Cell(a: nat, b: nat, width: nat): nat { Row(a, width) + b }

  lemma {:induction false} RowIsProduct(a: nat, width: nat)
    ensures Row(a, width) == a * width
  {
    if a > 0 {
      RowIsProduct(a - 1, width);
      assert a * width == (a - 1) * width + width;
    }
  }

  lemma {:induction false} RowsApart(a: nat, i: nat, width: nat)
    requires a < i
    ensures Row(a, width) + width <= Row(i, width)
    decreases i
  {
    if a < i - 1 {
      RowsApart(a, i - 1, width);
    }
  }

  /** Rows from `a` on hold the lengths; in row `a` only columns from `b` on. */
  ghost predicate Filled(cells: seq<Uint32>, s: seq<string>, t: seq<string>, a: nat, b: nat) {
    var width := |t| + 1;
    && |cells| == (|s| + 1) * width
    && forall i, j {:trigger Cell(i, j, width)} ::
         0 <= i <= |s| && 0 <= j <= |t| && (i > a || (i == a && j >= b)) ==>
           Cell(i, j, width) < |cells| && cells[Cell(i, j, width)] as int == Lcs(s, t, i, j)
  }

  /** Cells of the last row and the last column are never written. */
  ghost predicate Margins(cells: seq<Uint32>, s: seq<string>, t: seq<string>, a: nat) {
    var width := |t| + 1;
    && |cells| == (|s| + 1) * width
    && forall i {:trigger Cell(i, |t|, width)} :: 0 <= i < a && i <= |s| ==>
         Cell(i, |t|, width) < |cells| && cells[Cell(i, |t|, width)] == 0
  }

  lemma AllCellsFit(s: seq<string>, t: seq<string>, length: nat)
    requires length == (|s| + 1) * (|t| + 1)
    ensures forall i, j {:trigger Cell(i, j, |t| + 1)} :: 0 <= i <= |s| && 0 <= j <= |t| ==> Cell(i, j, |t| + 1) < length
  {
    var width := |t| + 1;
    RowIsProduct(|s| + 1, width);
    forall i, j | 0 <= i <= |s| && 0 <= j <= |t|
      ensures Cell(i, j, width) < length
    {
      RowsApart(i, |s| + 1, width);
    }
  }

  lemma CellsDiffer(a: nat, b: nat, width: nat)
    requires b < width
    ensures forall i: nat, j: nat {:trigger Cell(i, j, width)} ::
              j < width && Cell(i, j, width) == Cell(a, b, width) ==> i == a && j == b
  {
    forall i: nat, j: nat | j < width && Cell(i, j, width) == Cell(a, b, width)
      ensures i == a && j == b
    {
      if a < i {
        RowsApart(a, i, width);
      } else if i < a {
        RowsApart(i, a, width);
      }
    }
  }

  /** Before the first assignment only the last row counts, and it is all zero. */
  lemma StartsFilled(cells: seq<Uint32>, s: seq<string>, t: seq<string>)
    requires |cells| == (|s| + 1) * (|t| + 1) && forall i :: 0 <= i < |cells| ==> cells[i] == 0
    ensures Filled(cells, s, t, |s|, 0) && Margins(cells, s, t, |s|)
  {
    AllCellsFit(s, t, |cells|);
  }

  /** The last column is zero already: the next row starts filled beyond it. */
  lemma NextRowStarts(cells: seq<Uint32>, s: seq<string>, t: seq<string>, a: nat)
    requires a < |s| && Filled(cells, s, t, a + 1, 0) && Margins(cells, s, t, a + 1)
    ensures Filled(cells, s, t, a, |t|) && Margins(cells, s, t, a)
  {
  }

  /** The doubly nested loop that fills the table from its far corner. */
  method FillTable(s: seq<string>, t: seq<string>) returns (lcs: array<Uint32>)
    requires s != [] ==> |t| <= MAX_DIFF_CELLS
    ensures fresh(lcs) && Filled(lcs[..], s, t, 0, 0)
  {
    var width := |t| + 1;
    lcs := new Uint32[(|s| + 1) * width](_ => 0);
    StartsFilled(lcs[..], s, t);
    hide Filled, Margins, Lcs;
    var a := |s|;
    while a > 0
      invariant 0 <= a <= |s|
      invariant Filled(lcs[..], s, t, a, 0)
      invariant Margins(lcs[..], s, t, a)
    {
      a := a - 1;
      NextRowStarts(lcs[..], s, t, a);
      var b := |t|;
      while b > 0
        invariant 0 <= b <= |t|
        invariant Filled(lcs[..], s, t, a, b)
        invariant Margins(lcs[..], s, t, a)
      {
        b := b - 1;
        ghost var was := lcs[..];
        ReadAhead(was, s, t, a, b);
        lcs[a * width + b] :=
          if s[a] == t[b] then lcs[(a + 1) * width + b + 1] + 1
          else if lcs[(a + 1) * width + b] < lcs[a * width + b + 1] then lcs[a * width + b + 1]
          else lcs[(a + 1) * width + b];
        assert lcs[..] == was[Cell(a, b, width) := lcs[Cell(a, b, width)]];
        StillFilled(was, lcs[..], s, t, a, b);
      }
    }
  }

  /** The three cells the assignment reads, and that it cannot overflow. */
  lemma ReadAhead(cells: seq<Uint32>, s: seq<string>, t: seq<string>, a: nat, b: nat)
    requires a < |s| && b < |t| <= MAX_DIFF_CELLS && Filled(cells, s, t, a, b + 1)
    ensures Cell(a, b, |t| + 1) == a * (|t| + 1) + b < |cells|
    ensures 0 <= (a + 1) * (|t| + 1) + b < |cells| - 1 && 0 <= a * (|t| + 1) + b < |cells| - 1
    ensures cells[(a + 1) * (|t| + 1) + b] as int == Lcs(s, t, a + 1, b)
    ensures cells[(a + 1) * (|t| + 1) + b + 1] as int == Lcs(s, t, a + 1, b + 1) <= MAX_DIFF_CELLS
    ensures cells[a * (|t| + 1) + b + 1] as int == Lcs(s, t, a, b + 1)
  {
    var width := |t| + 1;
    RowIsProduct(a, width);
    RowIsProduct(a + 1, width);
    assert Cell(a + 1, b, width) < |cells| && Cell(a + 1, b + 1, width) < |cells| && Cell(a, b + 1, width) < |cells|;
  }

  lemma StillFilled(was: seq<Uint32>, cells: seq<Uint32>, s: seq<string>, t: seq<string>, a: nat, b: nat)
    requires a < |s| && b < |t|
    requires Lcs(s, t, a, b) <= MAX_DIFF_CELLS + 1
    requires Filled(was, s, t, a, b + 1) && Margins(was, s, t, a)
    requires Cell(a, b, |t| + 1) < |was|
    requires cells == was[Cell(a, b, |t| + 1) := Lcs(s, t, a, b) as Uint32]
    ensures Filled(cells, s, t, a, b) && Margins(cells, s, t, a)
  {
    CellsDiffer(a, b, |t| + 1);
  }

  // -------------------------------------------------------------- the walk

  /** What one line adds to the selected texts. */
  function Picked(line: DiffLine, kinds: set<Kind>): seq<string> { if line.kind in kinds then [line.text] else [] }

  lemma SelectCons(line: DiffLine, rest: seq<DiffLine>, kinds: set<Kind>)
    ensures Select([line] + rest, kinds) == Picked(line, kinds) + Select(rest, kinds)
  {
    assert ([line] + rest)[1..] == rest;
  }

  lemma {:induction false} SelectConcat(d: seq<DiffLine>, e: seq<DiffLine>, kinds: set<Kind>)
    ensures Select(d + e, kinds) == Select(d, kinds) + Select(e, kinds)
  {
    if d == [] {
      assert d + e == e;
    } else {
      hide Select, Picked;
      var head, rest := d[0], d[1..];
      calc {
        Select(d + e, kinds);
      ==  { assert d + e == [head] + (rest + e); }
        Select([head] + (rest + e), kinds);
      ==  { SelectCons(head, rest + e, kinds); }
        Picked(head, kinds) + Select(rest + e, kinds);
      ==  { SelectConcat(rest, e, kinds); }
        Picked(head, kinds) + (Select(rest, kinds) + Select(e, kinds));
      ==
        (Picked(head, kinds) + Select(rest, kinds)) + Select(e, kinds);
      ==  { SelectCons(head, rest, kinds); assert d == [head] + rest; }
        Select(d, kinds) + Select(e, kinds);
      }
    }
  }

  lemma SelectPush(d: seq<DiffLine>, line: DiffLine, kinds: set<Kind>)
    ensures Select(d + [line], kinds) == if line.kind in kinds then Select(d, kinds) + [line.text] else Select(d, kinds)
  {
    SelectConcat(d, [line], kinds);
    assert Select([line], kinds) == if line.kind in kinds then [line.text] else [];
  }

  /** One line is put at the end of the diff. */
  lemma Pushed(d: seq<DiffLine>, line: DiffLine)
    ensures OldSide(d + [line]) == if line.kind == Add then OldSide(d) else OldSide(d) + [line.text]
    ensures NewSide(d + [line]) == if line.kind == Del then NewSide(d) else NewSide(d) + [line.text]
    ensures Kept(d + [line]) == if line.kind == Same then Kept(d) + [line.text] else Kept(d)
  {
    SelectPush(d, line, {Same, Del});
    SelectPush(d, line, {Same, Add});
    SelectPush(d, line, {Same});
  }

  /** Removals never directly follow an addition. */
  ghost predicate NoDelAfterAdd(d: seq<DiffLine>) {
    forall i :: 0 <= i < |d| - 1 && d[i].kind == Add ==> d[i + 1].kind != Del
  }

  predicate EndsInAdd(d: seq<DiffLine>) { d != [] && d[|d| - 1].kind == Add }

  lemma {:induction false} RemovedFirstFromNeighbours(d: seq<DiffLine>)
    requires NoDelAfterAdd(d)
    ensures RemovedFirst(d)
  {
    forall i, j | 0 <= i < j < |d| && d[i].kind == Add && d[j].kind == Del
      ensures exists k :: i < k < j && d[k].kind == Same
    {
      var k := i;
      while d[k].kind == Add
        invariant i <= k <= j
        invariant forall m :: i <= m < k ==> d[m].kind == Add
        decreases j - k
      {
        k := k + 1;
      }
      assert d[k - 1].kind == Add;
    }
  }

  /** What holds after the walk has reached line `a` of `s` and line `b` of `t`. */
  ghost predicate Walked(out: seq<DiffLine>, s: seq<string>, t: seq<string>, a: nat, b: nat) {
    && a <= |s| && b <= |t|
    && OldSide(out) == s[..a] && NewSide(out) == t[..b]
    && |Kept(out)| + Lcs(s, t, a, b) == Lcs(s, t, 0, 0)
    && NoDelAfterAdd(out)
    && (EndsInAdd(out) && a < |s| ==> Lcs(s, t, a + 1, b) < Lcs(s, t, a, b))
  }

  lemma OrderPushed(d: seq<DiffLine>, line: DiffLine)
    requires NoDelAfterAdd(d) && (EndsInAdd(d) ==> line.kind != Del)
    ensures NoDelAfterAdd(d + [line]) && (EndsInAdd(d + [line]) <==> line.kind == Add)
  {
  }

  lemma Cells(s: seq<string>, t: seq<string>, a: nat, b: nat)
    requires a < |s| && b < |t|
    ensures s[a] == t[b] ==> Lcs(s, t, a, b) == Lcs(s, t, a + 1, b + 1) + 1
    ensures s[a] != t[b] ==> Lcs(s, t, a, b) == Max(Lcs(s, t, a + 1, b), Lcs(s, t, a, b + 1))
  {
  }

  lemma KeepLine(out: seq<DiffLine>, s: seq<string>, t: seq<string>, a: nat, b: nat)
    requires Walked(out, s, t, a, b) && a < |s| && b < |t| && s[a] == t[b]
    ensures Walked(out + [DiffLine(Same, s[a])], s, t, a + 1, b + 1)
  {
    hide OldSide, NewSide, Kept, NoDelAfterAdd, EndsInAdd, Lcs;
    Pushed(out, DiffLine(Same, s[a]));
    OrderPushed(out, DiffLine(Same, s[a]));
    Cells(s, t, a, b);
    assert s[..a + 1] == s[..a] + [s[a]] && t[..b + 1] == t[..b] + [t[b]];
  }

  lemma DropLine(out: seq<DiffLine>, s: seq<string>, t: seq<string>, a: nat, b: nat)
    requires Walked(out, s, t, a, b) && a < |s| && b < |t| && s[a] != t[b]
    requires Lcs(s, t, a + 1, b) >= Lcs(s, t, a, b + 1)
    ensures Walked(out + [DiffLine(Del, s[a])], s, t, a + 1, b)
  {
    hide OldSide, NewSide, Kept, NoDelAfterAdd, EndsInAdd, Lcs;
    Cells(s, t, a, b);
    Pushed(out, DiffLine(Del, s[a]));
    OrderPushed(out, DiffLine(Del, s[a]));
    assert s[..a + 1] == s[..a] + [s[a]];
  }

  /** After an addition the next step cannot be a removal. */
  lemma AddLine(out: seq<DiffLine>, s: seq<string>, t: seq<string>, a: nat, b: nat)
    requires Walked(out, s, t, a, b) && a < |s| && b < |t| && s[a] != t[b]
    requires Lcs(s, t, a + 1, b) < Lcs(s, t, a, b + 1)
    ensures Walked(out + [DiffLine(Add, t[b])], s, t, a, b + 1)
  {
    hide OldSide, NewSide, Kept, NoDelAfterAdd, EndsInAdd, Lcs;
    Cells(s, t, a, b);
    Pushed(out, DiffLine(Add, t[b]));
    OrderPushed(out, DiffLine(Add, t[b]));
    assert t[..b + 1] == t[..b] + [t[b]];
    Neighbours(s, t, a + 1, b);
  }

  /** One line of a kind for each text. */
  function Marked(kind: Kind, texts: seq<string>): seq<DiffLine> {
    seq(|texts|, i requires 0 <= i < |texts| => DiffLine(kind, texts[i]))
  }

  lemma {:induction false} SelectMarked(kind: Kind, texts: seq<string>, kinds: set<Kind>)
    ensures Select(Marked(kind, texts), kinds) == if kind in kinds then texts else []
  {
    if texts != [] {
      SelectMarked(kind, texts[1..], kinds);
      assert Marked(kind, texts)[1..] == Marked(kind, texts[1..]);
      assert texts == [texts[0]] + texts[1..];
    }
  }

  lemma SelectTail(d: seq<DiffLine>, gone: seq<string>, come: seq<string>, kinds: set<Kind>)
    ensures Select(d + Marked(Del, gone) + Marked(Add, come), kinds)
         == Select(d, kinds) + (if Del in kinds then gone else []) + (if Add in kinds then come else [])
  {
    SelectConcat(d + Marked(Del, gone), Marked(Add, come), kinds);
    SelectConcat(d, Marked(Del, gone), kinds);
    SelectMarked(Del, gone, kinds);
    SelectMarked(Add, come, kinds);
  }

  /** Identical texts: every line is kept. */
  lemma AllKept(s: seq<string>)
    ensures OldSide(Marked(Same, s)) == s && NewSide(Marked(Same, s)) == s && Kept(Marked(Same, s)) == s
    ensures RemovedFirst(Marked(Same, s))
  {
    SelectMarked(Same, s, {Same, Del});
    SelectMarked(Same, s, {Same, Add});
    SelectMarked(Same, s, {Same});
  }

  /** Too many cells to compare: everything removed, everything added. */
  lemma AllReplaced(s: seq<string>, t: seq<string>, out: seq<DiffLine>)
    requires out == Marked(Del, s) + Marked(Add, t)
    ensures OldSide(out) == s && NewSide(out) == t && Kept(out) == []
    ensures RemovedFirst(out)
  {
    assert out == [] + Marked(Del, s) + Marked(Add, t);
    SelectTail([], s, t, {Same, Del});
    SelectTail([], s, t, {Same, Add});
    SelectTail([], s, t, {Same});
  }

  /** One side is used up: the rest of the other is removed or added. */
  lemma WalkEnds(walked: seq<DiffLine>, out: seq<DiffLine>, s: seq<string>, t: seq<string>, a: nat, b: nat)
    requires Walked(walked, s, t, a, b) && (a == |s| || b == |t|)
    requires out == walked + Marked(Del, s[a..]) + Marked(Add, t[b..])
    ensures OldSide(out) == s && NewSide(out) == t
    ensures LongestCommon(Kept(out), s, t)
    ensures RemovedFirst(out)
  {
    SelectTail(walked, s[a..], t[b..], {Same, Del});
    SelectTail(walked, s[a..], t[b..], {Same, Add});
    SelectTail(walked, s[a..], t[b..], {Same});
    assert OldSide(out) == s by { assert s == s[..a] + s[a..]; }
    assert NewSide(out) == t by { assert t == t[..b] + t[b..]; }
    KeptIsCommon(out);
    AsLongAsTheTableIsLongest(Kept(out), s, t);
    TailOrder(walked, out, s, t, a, b);
    RemovedFirstFromNeighbours(out);
  }

  lemma TailOrder(walked: seq<DiffLine>, out: seq<DiffLine>, s: seq<string>, t: seq<string>, a: nat, b: nat)
    requires Walked(walked, s, t, a, b) && (a == |s| || b == |t|)
    requires out == walked + Marked(Del, s[a..]) + Marked(Add, t[b..])
    ensures NoDelAfterAdd(out)
  {
  }

  method DiffLines(oldText: string, newText: string) returns (out: seq<DiffLine>)
    ensures OldSide(out) == ToLines(oldText)
    ensures NewSide(out) == ToLines(newText)
    ensures RemovedFirst(out)
    ensures oldText == newText ==> Kept(out) == ToLines(oldText)
    ensures oldText != newText && |ToLines(oldText)| * |ToLines(newText)| > 4_000_000 ==> Kept(out) == []
    ensures oldText != newText && |ToLines(oldText)| * |ToLines(newText)| <= 4_000_000 ==>
              LongestCommon(Kept(out), ToLines(oldText), ToLines(newText))
    ensures NoBreaks(OldSide(out)) && Joined(OldSide(out)) == LessOneBreak(Unix(oldText))
    ensures NoBreaks(NewSide(out)) && Joined(NewSide(out)) == LessOneBreak(Unix(newText))
  {
    LinesSpellTheText(oldText);
    LinesSpellTheText(newText);
    var s, t := ToLines(oldText), ToLines(newText);
    if oldText == newText {
      AllKept(s);
      out := Marked(Same, s);
    } else if |s| * |t| > MAX_DIFF_CELLS {
      out := Marked(Del, s) + Marked(Add, t);
      AllReplaced(s, t, out);
    } else {
      out := Walk(s, t);
    }
  }

  lemma OneRowFits(s: seq<string>, t: seq<string>)
    requires |s| * |t| <= MAX_DIFF_CELLS
    ensures s != [] ==> |t| <= MAX_DIFF_CELLS
  {
    if s != [] {
      assert 1 * |t| <= |s| * |t|;
    }
  }

  /** The walk back through the table, then what is left of either side. */
  method Walk(s: seq<string>, t: seq<string>) returns (out: seq<DiffLine>)
    requires |s| * |t| <= MAX_DIFF_CELLS
    ensures OldSide(out) == s && NewSide(out) == t
    ensures LongestCommon(Kept(out), s, t)
    ensures RemovedFirst(out)
  {
    OneRowFits(s, t);
    var a, b;
    out, a, b := WalkTable(s, t);
    ghost var walked, a0, b0 := out, a, b;
    while a < |s|
      invariant a0 <= a <= |s| && out == walked + Marked(Del, s[a0..a])
    {
      out := out + [DiffLine(Del, s[a])];
      a := a + 1;
    }
    assert s[a0..a] == s[a0..];
    ghost var dels := out;
    while b < |t|
      invariant b0 <= b <= |t| && out == dels + Marked(Add, t[b0..b])
    {
      out := out + [DiffLine(Add, t[b])];
      b := b + 1;
    }
    assert t[b0..b] == t[b0..];
    WalkEnds(walked, out, s, t, a0, b0);
  }

  method WalkTable(s: seq<string>, t: seq<string>) returns (out: seq<DiffLine>, a: nat, b: nat)
    requires s != [] ==> |t| <= MAX_DIFF_CELLS
    ensures Walked(out, s, t, a, b) && (a == |s| || b == |t|)
  {
    var lcs := FillTable(s, t);
    var width := |t| + 1;
    out, a, b := [], 0, 0;
    ghost var cells := lcs[..];
    while a < |s| && b < |t|
      invariant lcs[..] == cells
      invariant Walked(out, s, t, a, b)
      decreases |s| - a + |t| - b
    {
      ReadCells(cells, s, t, a, b);
      if s[a] == t[b] {
        KeepLine(out, s, t, a, b);
        out := out + [DiffLine(Same, s[a])];
        a, b := a + 1, b + 1;
      } else if lcs[(a + 1) * width + b] >= lcs[a * width + b + 1] {
        DropLine(out, s, t, a, b);
        out := out + [DiffLine(Del, s[a])];
        a := a + 1;
      } else {
        AddLine(out, s, t, a, b);
        out := out + [DiffLine(Add, t[b])];
        b := b + 1;
      }
    }
  }

  lemma ReadCells(cells: seq<Uint32>, s: seq<string>, t: seq<string>, a: nat, b: nat)
    requires Filled(cells, s, t, 0, 0) && a < |s| && b < |t|
    ensures 0 <= (a + 1) * (|t| + 1) + b < |cells| && 0 <= a * (|t| + 1) + b + 1 < |cells|
    ensures cells[(a + 1) * (|t| + 1) + b] as int == Lcs(s, t, a + 1, b)
    ensures cells[a * (|t| + 1) + b + 1] as int == Lcs(s, t, a, b + 1)
  {
    RowIsProduct(a, |t| + 1);
    RowIsProduct(a + 1, |t| + 1);
    assert Cell(a + 1, b, |t| + 1) < |cells| && Cell(a, b + 1, |t| + 1) < |cells|;
  }
}
