/** The shortcut table and its overlay, composed twice: the handler index of
    `src/shortcuts.ts` and `src/keys.ts`, where the first claim wins and aliases
    come second, and the page tables of `src-tauri/src/keys.rs`, where the last
    row wins and aliases are laid inline. */
module Keys {
  import opened Options
  import opened Shortcuts

  const FIND: string := "find"
  const PLUS_KEYS: seq<string> := ["=", "+"]

  datatype Row = Row(command: string, keys: Option<string>, local: bool)

  /** A row with the overlay's word for it: the empty string unbinds. */
  function Overlaid(row: Row, overrides: map<string, string>): Row {
    if row.command !in overrides then row
    else row.(keys := if overrides[row.command] == "" then None else Some(overrides[row.command]))
  }

  function Resolve(defaults: seq<Row>, overrides: map<string, string>): (list: seq<Row>)
    ensures |list| == |defaults|
    ensures forall i :: 0 <= i < |list| ==> list[i] == Overlaid(defaults[i], overrides)
  {
    seq(|defaults|, i requires 0 <= i < |defaults| => Overlaid(defaults[i], overrides))
  }

  /** What an overlay says of commands the table does not have changes nothing. */
  lemma UnknownCommandsChangeNothing(defaults: seq<Row>, overrides: map<string, string>, unknown: map<string, string>)
    requires forall row :: row in defaults ==> row.command !in unknown
    ensures Resolve(defaults, overrides + unknown) == Resolve(defaults, overrides)
    ensures Resolve(defaults, unknown) == defaults
  {
    forall i | 0 <= i < |defaults|
      ensures Overlaid(defaults[i], overrides + unknown) == Overlaid(defaults[i], overrides)
      ensures Overlaid(defaults[i], unknown) == defaults[i]
    {
      assert defaults[i] in defaults;
    }
  }

  /** A command bound to the empty string holds no chord. */
  lemma UnboundHoldsNothing(defaults: seq<Row>, overrides: map<string, string>, i: nat, id: string)
    requires i < |defaults| && defaults[i].command in overrides && overrides[defaults[i].command] == ""
    ensures forall row :: row in Claimants(Resolve(defaults, overrides), id) ==> row.command != defaults[i].command
  {
    hide Ids;
    var list := Resolve(defaults, overrides);
    forall row | row in list && row.command == defaults[i].command
      ensures Ids(row) == []
    {
      NoKeysNoIds(row);
    }
    ClaimantsOccupy(list, id);
  }

  lemma {:induction false} ClaimantsOccupy(list: seq<Row>, id: string)
    ensures forall row :: row in Claimants(list, id) ==> row in list && id in Ids(row)
  {
    hide Ids;
    if list != [] {
      ClaimantsOccupy(list[..|list| - 1], id);
      TimesCounts(Ids(list[|list| - 1]), id);
    }
  }

  /** Every chord a row occupies. */
  function Ids(row: Row): seq<string> { if row.keys.Some? then Occupied(row.keys.value) else [] }

  function RowChord(row: Row): Option<Chord> { if row.keys.Some? then ParseChord(row.keys.value) else None }

  lemma RowChordOccupies(row: Row)
    requires RowChord(row).Some?
    ensures Ids(row) == [ChordId(RowChord(row).value)] && IsKey(RowChord(row).value.key)
  {
    SingleOccupies(row.keys.value);
    ParsedIsKey(row.keys.value);
  }

  // ------------------------------------------------------------ first and last

  function First<T>(s: seq<T>, p: T -> bool): Option<T> {
    if s == [] then None
    else
      var front := First(s[..|s| - 1], p);
      if front.Some? then front else if p(s[|s| - 1]) then Some(s[|s| - 1]) else None
  }

  function Last<T>(s: seq<T>, p: T -> bool): Option<T> {
    if s == [] then None
    else if p(s[|s| - 1]) then Some(s[|s| - 1])
    else Last(s[..|s| - 1], p)
  }

  lemma {:induction false} FirstSame<T>(s: seq<T>, p: T -> bool, q: T -> bool)
    requires forall x :: x in s ==> p(x) == q(x)
    ensures First(s, p) == First(s, q)
  {
    if s != [] {
      FirstSame(s[..|s| - 1], p, q);
    }
  }

  lemma {:induction false} LastSame<T>(s: seq<T>, p: T -> bool, q: T -> bool)
    requires forall x :: x in s ==> p(x) == q(x)
    ensures Last(s, p) == Last(s, q)
  {
    if s != [] {
      LastSame(s[..|s| - 1], p, q);
    }
  }

  lemma {:induction false} FirstMeets<T>(s: seq<T>, p: T -> bool)
    ensures First(s, p).Some? ==> First(s, p).value in s && p(First(s, p).value)
    ensures First(s, p) == None ==> Last(s, p) == None
  {
    if s != [] {
      FirstMeets(s[..|s| - 1], p);
    }
  }

  /** The first of a larger family is the first of a smaller one it belongs to. */
  lemma {:induction false} FirstOfFewer<T>(s: seq<T>, p: T -> bool, q: T -> bool)
    requires forall x :: x in s && q(x) ==> p(x)
    requires First(s, p).Some? && q(First(s, p).value)
    ensures First(s, q) == First(s, p)
  {
    var front := s[..|s| - 1];
    if First(front, p).Some? {
      FirstOfFewer(front, p, q);
    } else {
      FirstMeets(front, q);
      NoneOfFewer(front, p, q);
    }
  }

  lemma {:induction false} NoneOfFewer<T>(s: seq<T>, p: T -> bool, q: T -> bool)
    requires forall x :: x in s && q(x) ==> p(x)
    requires First(s, p) == None
    ensures First(s, q) == None
  {
    if s != [] {
      NoneOfFewer(s[..|s| - 1], p, q);
    }
  }

  function Command(row: Option<Row>): Option<string> { if row.Some? then Some(row.value.command) else None }

  function Get<V>(m: map<string, V>, key: string): Option<V> { if key in m then Some(m[key]) else None }

  // ------------------------------------------------------------------ claims

  function Times(ids: seq<string>, id: string): nat {
    if ids == [] then 0 else Times(ids[..|ids| - 1], id) + (if ids[|ids| - 1] == id then 1 else 0)
  }

  function Copies(row: Row, n: nat): (rows: seq<Row>)
    ensures |rows| == n && forall i :: 0 <= i < n ==> rows[i] == row
  {
    seq(n, _ => row)
  }

  /** The rows on a chord in table order, one entry for each time a row names it. */
  function Claimants(list: seq<Row>, id: string): seq<Row> {
    if list == [] then []
    else Claimants(list[..|list| - 1], id) + Copies(list[|list| - 1], Times(Ids(list[|list| - 1]), id))
  }

  function Commands(rows: seq<Row>): (names: seq<string>)
    ensures |names| == |rows| && forall i :: 0 <= i < |rows| ==> names[i] == rows[i].command
  {
    seq(|rows|, i requires 0 <= i < |rows| => rows[i].command)
  }

  /** No chord is claimed twice: what `conflicts` being empty says. */
  ghost predicate ConflictFree(list: seq<Row>) {
    forall id :: |Claimants(list, id)| <= 1
  }

  function ClaimChord<T>(index: map<string, T>, id: string, holder: T): map<string, T> {
    if id in index then index else index[id := holder]
  }

  /** What the two maps hold once `rows` are the claims on `id`. */
  ghost predicate Holds(byChord: map<string, Row>, claims: map<string, seq<string>>, id: string, rows: seq<Row>) {
    && Get(byChord, id) == (if rows == [] then None else Some(rows[0]))
    && Get(claims, id) == (if rows == [] then None else Some(Commands(rows)))
  }

  lemma OneMoreClaim(byChord: map<string, Row>, claims: map<string, seq<string>>, id: string, rows: seq<Row>, row: Row)
    requires Holds(byChord, claims, id, rows)
    ensures Holds(ClaimChord(byChord, id, row), claims[id := Commands(rows + [row])], id, rows + [row])
  {
  }

  /** The claims on a chord by some rows and by the first of the next row's ids. */
  function Claimed(list: seq<Row>, row: Row, ids: seq<string>, id: string): seq<Row> {
    Claimants(list, id) + Copies(row, Times(ids, id))
  }

  lemma ClaimedBounds(list: seq<Row>, row: Row, id: string)
    ensures Claimed(list, row, [], id) == Claimants(list, id)
    ensures Claimed(list, row, Ids(row), id) == Claimants(list + [row], id)
    ensures row.keys == None ==> Claimants(list + [row], id) == Claimants(list, id)
  {
    assert (list + [row])[..|list|] == list;
  }

  lemma ClaimedStep(list: seq<Row>, row: Row, ids: seq<string>, next: string, id: string)
    ensures Claimed(list, row, ids + [next], id) == if id == next then Claimed(list, row, ids, id) + [row] else Claimed(list, row, ids, id)
  {
    assert (ids + [next])[..|ids|] == ids;
  }

  method ResolveBindings(list: seq<Row>) returns (byChord: map<string, Row>, claims: map<string, seq<string>>)
    ensures forall id :: Holds(byChord, claims, id, Claimants(list, id))
  {
    hide Ids, Holds, Claimed;
    byChord, claims := map[], map[];
    forall id
      ensures Holds(byChord, claims, id, Claimants([], id))
    {
      NothingClaimed(id);
    }
    for i := 0 to |list|
      invariant forall id :: Holds(byChord, claims, id, Claimants(list[..i], id))
    {
      ghost var done, row := list[..i], list[i];
      assert list[..i + 1] == done + [row];
      forall id {
        ClaimedBounds(done, row, id);
      }
      if list[i].keys == None {
        continue;
      }
      var ids := Ids(list[i]);
      for k := 0 to |ids|
        invariant forall id :: Holds(byChord, claims, id, Claimed(done, row, ids[..k], id))
      {
        ghost var was, said := byChord, claims;
        var id := ids[k];
        ghost var now := ids[..k] + [id];
        assert ids[..k + 1] == now;
        NamesGrow(byChord, claims, id, Claimed(done, row, ids[..k], id), row);
        claims := claims[id := if id in claims then claims[id] + [list[i].command] else [list[i].command]];
        byChord := ClaimChord(byChord, id, list[i]);
        OneMoreClaim(was, said, id, Claimed(done, row, ids[..k], id), row);
        forall other
          ensures Holds(byChord, claims, other, Claimed(done, row, now, other))
        {
          ClaimedStep(done, row, ids[..k], id, other);
          if other != id {
            OthersStay(was, said, id, row, claims[id], other, Claimed(done, row, ids[..k], other));
          }
        }
      }
      assert ids[..|ids|] == ids;
    }
    assert list[..|list|] == list;
  }

  lemma NothingClaimed(id: string)
    ensures Holds(map[], map[], id, [])
  {
  }

  lemma NamesGrow(byChord: map<string, Row>, claims: map<string, seq<string>>, id: string, rows: seq<Row>, row: Row)
    requires Holds(byChord, claims, id, rows)
    ensures (if id in claims then claims[id] + [row.command] else [row.command]) == Commands(rows + [row])
  {
  }

  lemma OthersStay(byChord: map<string, Row>, claims: map<string, seq<string>>, id: string, row: Row, names: seq<string>,
                   other: string, rows: seq<Row>)
    requires other != id && Holds(byChord, claims, other, rows)
    ensures Holds(ClaimChord(byChord, id, row), claims[id := names], other, rows)
  {
  }

  // ------------------------------------------------------- the handler index

  predicate IsHandler(row: Row) { !row.local && row.keys.Some? && row.command != FIND }

  function HandlerRows(list: seq<Row>): seq<Row> {
    if list == [] then []
    else
      var front := HandlerRows(list[..|list| - 1]);
      if IsHandler(list[|list| - 1]) then front + [list[|list| - 1]] else front
  }

  /** Both names of the plus key under both shift states. */
  function Aliases(c: Chord): seq<string> {
    if c.key !in PLUS_KEYS then []
    else [Alias(c, "=", false), Alias(c, "=", true), Alias(c, "+", false), Alias(c, "+", true)]
  }

  function Alias(c: Chord, key: string, shift: bool): string { ChordId(Chord(c.mods.(shift := shift), key)) }

  method PhysicalAliases(c: Chord) returns (out: seq<string>)
    ensures out == Aliases(c)
  {
    hide ChordId;
    out := [];
    if c.key !in PLUS_KEYS {
      return;
    }
    for i := 0 to |PLUS_KEYS|
      invariant out == Aliases(c)[..2 * i]
    {
      for j := 0 to 2
        invariant out == Aliases(c)[..2 * i + j]
      {
        out := out + [Alias(c, PLUS_KEYS[i], [false, true][j])];
      }
    }
  }

  /** A chord is an alias of another exactly when both are on the plus key, "=" or "+",
      with the same modifiers, shift aside. */
  lemma AliasIff(c: Chord, d: Chord)
    requires IsKey(d.key)
    ensures ChordId(d) in Aliases(c)
       <==> c.key in ["=", "+"] && d.key in ["=", "+"]
            && d.mods.cmd == c.mods.cmd && d.mods.ctrl == c.mods.ctrl && d.mods.alt == c.mods.alt
  {
    hide ChordId;
    if c.key in PLUS_KEYS {
      forall key, shift | key in PLUS_KEYS
        ensures ChordId(d) == Alias(c, key, shift) <==> d == Chord(c.mods.(shift := shift), key)
      {
        ChordIdIsUnique(d, Chord(c.mods.(shift := shift), key));
      }
      assert "=" in PLUS_KEYS && "+" in PLUS_KEYS;
    }
  }

  predicate HandlerOn(row: Row, id: string) {
    IsHandler(row) && RowChord(row).Some? && ChordId(RowChord(row).value) == id
  }

  predicate HandlerAlias(row: Row, id: string) {
    IsHandler(row) && RowChord(row).Some? && id in Aliases(RowChord(row).value)
  }

  function OnIndex(id: string): Row -> bool { row => HandlerOn(row, id) }
  function ByAlias(id: string): Row -> bool { row => HandlerAlias(row, id) }

  /** The command on a chord: the first row that writes it, or else the first
      row it is an alias of. */
  function IndexHolder(list: seq<Row>, id: string): Option<string> {
    var written := First(list, OnIndex(id));
    Command(if written.Some? then written else First(list, ByAlias(id)))
  }

  datatype Written = Written(chord: Chord, command: string)

  function WrittenRows(rows: seq<Row>): seq<Written> {
    if rows == [] then []
    else
      var front, row := WrittenRows(rows[..|rows| - 1]), rows[|rows| - 1];
      if RowChord(row).Some? then front + [Written(RowChord(row).value, row.command)] else front
  }

  function Named(w: Option<Written>): Option<string> { if w.Some? then Some(w.value.command) else None }

  function OnWritten(written: seq<Written>, id: string): Option<string> {
    Named(First(written, (w: Written) => ChordId(w.chord) == id))
  }

  function AliasWritten(written: seq<Written>, id: string): Option<string> {
    Named(First(written, (w: Written) => id in Aliases(w.chord)))
  }

  function Either(a: Option<string>, b: Option<string>): Option<string> { if a.Some? then a else b }

  lemma OneMoreWritten(written: seq<Written>, w: Written, id: string)
    ensures OnWritten(written + [w], id) == Either(OnWritten(written, id), if ChordId(w.chord) == id then Some(w.command) else None)
    ensures AliasWritten(written + [w], id)
         == Either(AliasWritten(written, id), if id in Aliases(w.chord) then Some(w.command) else None)
  {
    assert (written + [w])[..|written|] == written;
  }

  /** The two passes over the filtered rows see the rows the table has. */
  lemma {:induction false} WrittenIsIndex(list: seq<Row>, id: string)
    ensures Either(OnWritten(WrittenRows(HandlerRows(list)), id), AliasWritten(WrittenRows(HandlerRows(list)), id)) == IndexHolder(list, id)
    ensures OnWritten(WrittenRows(HandlerRows(list)), id) == Command(First(list, OnIndex(id)))
    ensures AliasWritten(WrittenRows(HandlerRows(list)), id) == Command(First(list, ByAlias(id)))
  {
    hide ChordId, Aliases, RowChord;
    if list != [] {
      var front, row := list[..|list| - 1], list[|list| - 1];
      WrittenIsIndex(front, id);
      if IsHandler(row) {
        var rows := HandlerRows(front);
        assert (rows + [row])[..|rows|] == rows;
        if RowChord(row).Some? {
          OneMoreWritten(WrittenRows(rows), Written(RowChord(row).value, row.command), id);
        }
      }
    }
  }

  /** Find is no handler row: the index never answers with it. */
  lemma FindIsNotIndexed(list: seq<Row>, id: string)
    ensures IndexHolder(list, id) != Some("find")
  {
    FirstMeets(list, OnIndex(id));
    FirstMeets(list, ByAlias(id));
  }

  method BuildHandlerIndex(list: seq<Row>) returns (out: map<string, string>)
    ensures forall id :: Get(out, id) == IndexHolder(list, id)
  {
    hide ChordId, Aliases, RowChord, OnWritten, AliasWritten, IndexHolder;
    out := map[];
    var written: seq<Written> := [];
    var rows := HandlerRows(list);
    forall id
      ensures OnWritten([], id) == None && AliasWritten([], id) == None
    {
      NothingWritten(id);
    }
    for i := 0 to |rows|
      invariant written == WrittenRows(rows[..i])
      invariant forall id :: Get(out, id) == OnWritten(written, id)
    {
      assert rows[..i + 1][..i] == rows[..i];
      var chord := RowChord(rows[i]);
      if chord == None {
        continue;
      }
      var w := Written(chord.value, rows[i].command);
      forall id {
        OneMoreWritten(written, w, id);
      }
      written := written + [w];
      out := ClaimChord(out, ChordId(chord.value), rows[i].command);
    }
    assert rows[..|rows|] == rows;
    for i := 0 to |written|
      invariant forall id :: Get(out, id) == Either(OnWritten(written, id), AliasWritten(written[..i], id))
    {
      ghost var before := out;
      assert written[..i + 1] == written[..i] + [written[i]];
      forall id {
        OneMoreWritten(written[..i], written[i], id);
      }
      var aliases := PhysicalAliases(written[i].chord);
      for k := 0 to |aliases|
        invariant forall id :: Get(out, id) == Either(Get(before, id), if id in aliases[..k] then Some(written[i].command) else None)
      {
        assert aliases[..k + 1] == aliases[..k] + [aliases[k]];
        out := ClaimChord(out, aliases[k], written[i].command);
      }
      assert aliases[..|aliases|] == aliases;
    }
    assert written[..|written|] == written;
    forall id {
      WrittenIsIndex(list, id);
    }
  }

  lemma NothingWritten(id: string)
    ensures OnWritten([], id) == None && AliasWritten([], id) == None
  {
  }

  // --------------------------------------------------------- the page tables

  /** The chords the page answers: ⌘ with or without ⇧, find's row included. */
  predicate PageRow(row: Row) {
    && !row.local
    && RowChord(row).Some?
    && var m := RowChord(row).value.mods; m.cmd && !m.ctrl && !m.alt
  }

  predicate PageOn(row: Row, shift: bool, key: string) {
    PageRow(row) && RowChord(row).value.mods.shift == shift && RowChord(row).value.key == key
  }

  predicate PageAlias(row: Row, key: string) {
    PageRow(row) && RowChord(row).value.key in PLUS_KEYS && key in PLUS_KEYS
  }

  function OnPage(shift: bool, key: string): Row -> bool { row => PageOn(row, shift, key) }
  function ByPageAlias(key: string): Row -> bool { row => PageAlias(row, key) }

  /** The command in a page table: the last row that writes the chord, or else
      the first row on the plus key. */
  function PageHolder(list: seq<Row>, shift: bool, key: string): Option<string> {
    var written := Last(list, OnPage(shift, key));
    Command(if written.Some? then written else First(list, ByPageAlias(key)))
  }

  function PlusAliases(key: string): seq<string> { if key in PLUS_KEYS then PLUS_KEYS else [] }

  lemma OneMorePageRow(list: seq<Row>, row: Row, shift: bool, key: string)
    ensures PageHolder(list + [row], shift, key)
         == if PageOn(row, shift, key) then Some(row.command)
            else Either(PageHolder(list, shift, key), if PageAlias(row, key) then Some(row.command) else None)
  {
    hide PageOn, PageAlias;
    assert (list + [row])[..|list|] == list;
  }

  method PageTables(list: seq<Row>) returns (plain: map<string, string>, shifted: map<string, string>)
    ensures forall key :: Get(plain, key) == PageHolder(list, false, key) && Get(shifted, key) == PageHolder(list, true, key)
  {
    hide RowChord, PageHolder;
    plain, shifted := map[], map[];
    forall shift, key
      ensures PageHolder([], shift, key) == None
    {
      NoPageRows(shift, key);
    }
    for i := 0 to |list|
      invariant forall key :: Get(plain, key) == PageHolder(list[..i], false, key)
      invariant forall key :: Get(shifted, key) == PageHolder(list[..i], true, key)
    {
      ghost var wasPlain, wasShifted := plain, shifted;
      assert list[..i + 1] == list[..i] + [list[i]];
      forall shift, key {
        OneMorePageRow(list[..i], list[i], shift, key);
      }
      if list[i].local {
        continue;
      }
      var chord := RowChord(list[i]);
      if chord == None {
        continue;
      }
      if !chord.value.mods.cmd || chord.value.mods.ctrl || chord.value.mods.alt {
        continue;
      }
      var key := chord.value.key;
      if chord.value.mods.shift {
        shifted := shifted[key := list[i].command];
      } else {
        plain := plain[key := list[i].command];
      }
      var aliases := PlusAliases(key);
      ghost var plainSet, shiftedSet := plain, shifted;
      for k := 0 to |aliases|
        invariant forall key :: Get(plain, key) == Either(Get(plainSet, key), if key in aliases[..k] then Some(list[i].command) else None)
        invariant forall key :: Get(shifted, key) == Either(Get(shiftedSet, key), if key in aliases[..k] then Some(list[i].command) else None)
      {
        assert aliases[..k + 1] == aliases[..k] + [aliases[k]];
        plain := ClaimChord(plain, aliases[k], list[i].command);
        shifted := ClaimChord(shifted, aliases[k], list[i].command);
      }
      assert aliases[..|aliases|] == aliases;
    }
    assert list[..|list|] == list;
  }

  lemma NoPageRows(shift: bool, key: string)
    ensures PageHolder([], shift, key) == None
  {
  }

  // --------------------------------------------------------------- agreement

  /** A chord the page tables have room for. */
  predicate PageChord(c: Chord) { c.mods.cmd && !c.mods.ctrl && !c.mods.alt && IsKey(c.key) }

  lemma SameWritten(row: Row, c: Chord)
    requires PageChord(c)
    ensures HandlerOn(row, ChordId(c)) <==> PageOn(row, c.mods.shift, c.key) && row.command != FIND
    ensures PageOn(row, c.mods.shift, c.key) ==> Ids(row) == [ChordId(c)]
  {
    hide RowChord, Ids, ChordId, IsKey;
    if row.keys == None {
      NoKeysNoChord(row);
    } else if RowChord(row).Some? {
      RowChordOccupies(row);
      ChordIdIsUnique(RowChord(row).value, c);
      assert RowChord(row).value.mods == c.mods && RowChord(row).value.key == c.key ==> RowChord(row).value == c;
    }
  }

  lemma NoKeysNoChord(row: Row)
    requires row.keys == None
    ensures RowChord(row) == None
  {
  }

  lemma AliasIs(d: Chord, key: string, shift: bool, c: Chord)
    requires IsKey(key) && IsKey(c.key)
    ensures Alias(d, key, shift) == ChordId(c) <==> c == Chord(d.mods.(shift := shift), key)
  {
    ChordIdIsUnique(Chord(d.mods.(shift := shift), key), c);
  }

  lemma SameAlias(row: Row, c: Chord)
    requires PageChord(c)
    ensures HandlerAlias(row, ChordId(c)) <==> PageAlias(row, c.key) && row.command != FIND
  {
    hide RowChord, ChordId, Alias;
    if row.keys == None {
      NoKeysNoChord(row);
    } else if RowChord(row).Some? {
      var d := RowChord(row).value;
      AliasIs(d, "=", false, c);
      AliasIs(d, "=", true, c);
      AliasIs(d, "+", false, c);
      AliasIs(d, "+", true, c);
    }
  }

  /** On a chord claimed once at most, the first row that writes it is the last. */
  lemma {:induction false} FirstIsLast(list: seq<Row>, c: Chord)
    requires PageChord(c) && |Claimants(list, ChordId(c))| <= 1
    ensures First(list, OnPage(c.mods.shift, c.key)) == Last(list, OnPage(c.mods.shift, c.key))
    ensures Claimants(list, ChordId(c)) == [] ==> Last(list, OnPage(c.mods.shift, c.key)) == None
  {
    hide ChordId, PageOn, Ids, HandlerOn;
    if list != [] {
      var front, row := list[..|list| - 1], list[|list| - 1];
      FirstIsLast(front, c);
      FirstMeets(front, OnPage(c.mods.shift, c.key));
      SameWritten(row, c);
      assert [ChordId(c)][..0] == [];
    }
  }

  /** The page answers with find: a row of find's writes the chord, or no row does
      and the first row on the plus key is find's. */
  ghost predicate FindOnPage(list: seq<Row>, c: Chord) {
    || (exists row :: row in list && row.command == FIND && PageOn(row, c.mods.shift, c.key))
    || ((forall row :: row in list ==> !PageOn(row, c.mods.shift, c.key))
        && Command(First(list, ByPageAlias(c.key))) == Some(FIND))
  }

  lemma {:induction false} LastIfAny<T>(s: seq<T>, p: T -> bool, x: T)
    requires x in s && p(x)
    ensures Last(s, p).Some?
  {
    if !p(s[|s| - 1]) {
      assert x in s[..|s| - 1];
      LastIfAny(s[..|s| - 1], p, x);
    }
  }

  /** A row claims its chord, so two rows that write one chord claim it twice. */
  lemma {:induction false} OneWriter(list: seq<Row>, c: Chord, row: Row)
    requires PageChord(c) && |Claimants(list, ChordId(c))| <= 1
    requires row in list && PageOn(row, c.mods.shift, c.key)
    ensures Last(list, OnPage(c.mods.shift, c.key)) == Some(row)
  {
    var front, last := list[..|list| - 1], list[|list| - 1];
    SameWritten(last, c);
    FirstIsLast(front, c);
    assert [ChordId(c)][..0] == [];
    hide ChordId, PageOn;
    if last != row {
      assert row in front;
      OneWriter(front, c, row);
    }
  }

  lemma PageNamesFindIff(list: seq<Row>, c: Chord)
    requires PageChord(c) && |Claimants(list, ChordId(c))| <= 1
    ensures PageHolder(list, c.mods.shift, c.key) == Some(FIND) <==> FindOnPage(list, c)
  {
    var on := OnPage(c.mods.shift, c.key);
    hide PageOn, PageAlias, ByPageAlias, First;
    if row :| row in list && PageOn(row, c.mods.shift, c.key) {
      OneWriter(list, c, row);
      forall other | other in list && PageOn(other, c.mods.shift, c.key)
        ensures other == row
      {
        OneWriter(list, c, other);
      }
    } else {
      LastMeets(list, on);
    }
  }

  /** On every command chord, shifted or not, with one claim at most the two
      compositions name the same command exactly when find does not come first on
      the page. */
  lemma PageAgreesWithIndex(list: seq<Row>, c: Chord)
    requires PageChord(c) && |Claimants(list, ChordId(c))| <= 1
    ensures PageHolder(list, c.mods.shift, c.key) == IndexHolder(list, ChordId(c)) <==> !FindOnPage(list, c)
  {
    PageNamesFindIff(list, c);
    AgreesUnlessFind(list, c);
    hide *;
  }

  lemma AgreesUnlessFind(list: seq<Row>, c: Chord)
    requires PageChord(c) && |Claimants(list, ChordId(c))| <= 1
    ensures PageHolder(list, c.mods.shift, c.key) == IndexHolder(list, ChordId(c))
       <==> PageHolder(list, c.mods.shift, c.key) != Some(FIND)
  {
    var on, also := OnPage(c.mods.shift, c.key), ByPageAlias(c.key);
    var written, alias := OnIndex(ChordId(c)), ByAlias(ChordId(c));
    FirstIsLast(list, c);
    forall row: Row
      ensures written(row) <==> on(row) && row.command != FIND
      ensures alias(row) <==> also(row) && row.command != FIND
    {
      SameWritten(row, c);
      SameAlias(row, c);
    }
    hide OnPage, ByPageAlias, OnIndex, ByAlias;
    KeptButFind(list, on, written);
    KeptButFind(list, also, alias);
  }

  /** Dropping find's rows from a family changes its first row exactly when that was find's. */
  lemma KeptButFind(list: seq<Row>, p: Row -> bool, q: Row -> bool)
    requires forall row :: q(row) <==> p(row) && row.command != FIND
    ensures Command(First(list, q)) != Some(FIND)
    ensures Command(First(list, p)) != Some(FIND) ==> First(list, q) == First(list, p)
  {
    FirstMeets(list, q);
    FirstMeets(list, p);
    if First(list, p) == None {
      NoneOfFewer(list, p, q);
    } else if First(list, p).value.command != FIND {
      FirstOfFewer(list, p, q);
    }
  }

  /** Find is answered apart: no row of it writes this chord or the plus key. */
  predicate FindElsewhere(list: seq<Row>, c: Chord) {
    forall row :: row in list && row.command == FIND && PageRow(row) ==> RowChord(row).value != c && RowChord(row).value.key !in PLUS_KEYS
  }

  lemma FindHoldsNothing(list: seq<Row>, c: Chord, row: Row)
    requires FindElsewhere(list, c) && row in list && row.command == FIND
    requires PageChord(c)
    ensures !PageOn(row, c.mods.shift, c.key) && !PageAlias(row, c.key)
  {
    if PageRow(row) {
      var d := RowChord(row).value;
      assert d.mods.shift == c.mods.shift && d.key == c.key ==> d == c;
    }
  }

  /** With find elsewhere, two rows on one chord split the page from the
      application exactly when the first and the last of them name different commands. */
  lemma ConflictSplitsThem(list: seq<Row>, c: Chord)
    requires PageChord(c) && FindElsewhere(list, c)
    ensures PageHolder(list, c.mods.shift, c.key) == IndexHolder(list, ChordId(c))
       <==> Command(First(list, OnPage(c.mods.shift, c.key))) == Command(Last(list, OnPage(c.mods.shift, c.key)))
  {
    var on, also := OnPage(c.mods.shift, c.key), ByPageAlias(c.key);
    var written, alias := OnIndex(ChordId(c)), ByAlias(ChordId(c));
    forall row | row in list
      ensures written(row) == on(row)
      ensures alias(row) == also(row)
    {
      SameWritten(row, c);
      SameAlias(row, c);
      if row.command == FIND {
        FindHoldsNothing(list, c, row);
      }
    }
    hide OnPage, ByPageAlias, OnIndex, ByAlias;
    FirstSame(list, written, on);
    FirstSame(list, alias, also);
    FirstMeets(list, on);
    LastMeets(list, on);
  }

  lemma {:induction false} LastMeets<T>(s: seq<T>, p: T -> bool)
    ensures Last(s, p).Some? ==> Last(s, p).value in s && p(Last(s, p).value)
    ensures Last(s, p) == None ==> First(s, p) == None
  {
    if s != [] {
      LastMeets(s[..|s| - 1], p);
    }
  }

  /** A table without conflicts that keeps find to itself is one answer in both languages. */
  lemma OneTableOneAnswer(list: seq<Row>, c: Chord)
    requires ConflictFree(list) && PageChord(c) && FindElsewhere(list, c)
    ensures PageHolder(list, c.mods.shift, c.key) == IndexHolder(list, ChordId(c))
  {
    FirstIsLast(list, c);
    ConflictSplitsThem(list, c);
  }

  function Occupies(id: string): Row -> bool { row => id in Ids(row) }

  lemma {:induction false} TimesCounts(ids: seq<string>, id: string)
    ensures Times(ids, id) > 0 <==> id in ids
  {
    if ids != [] {
      TimesCounts(ids[..|ids| - 1], id);
      assert ids == ids[..|ids| - 1] + [ids[|ids| - 1]];
    }
  }

  lemma {:induction false} FirstClaimant(list: seq<Row>, id: string)
    ensures First(list, Occupies(id)) == if Claimants(list, id) == [] then None else Some(Claimants(list, id)[0])
  {
    hide Ids, Times;
    if list != [] {
      FirstClaimant(list[..|list| - 1], id);
      TimesCounts(Ids(list[|list| - 1]), id);
    }
  }

  /** Wherever the holder of a chord is a plain row of the handler, the index runs
      that very row, whatever the overlay. */
  lemma IndexFollowsHolder(list: seq<Row>, id: string)
    requires Claimants(list, id) != []
    requires IsHandler(Claimants(list, id)[0]) && RowChord(Claimants(list, id)[0]).Some?
    ensures IndexHolder(list, id) == Some(Claimants(list, id)[0].command)
  {
    var holder := Claimants(list, id)[0];
    FirstClaimant(list, id);
    FirstMeets(list, Occupies(id));
    RowChordOccupies(holder);
    forall row | OnIndex(id)(row)
      ensures Occupies(id)(row)
    {
      RowChordOccupies(row);
    }
    FirstOfFewer(list, Occupies(id), OnIndex(id));
  }

  // ------------------------------------------------------- recording a binding

  datatype Claim = Claim(row: Row, chords: seq<string>)

  function Shared(ids: seq<string>, wanted: seq<string>): seq<string> {
    if ids == [] then []
    else
      var front := Shared(ids[..|ids| - 1], wanted);
      if ids[|ids| - 1] in wanted then front + [ids[|ids| - 1]] else front
  }

  /** The other rows that already answer a wanted chord. */
  function ClaimsAgainst(list: seq<Row>, command: string, wanted: seq<string>): seq<Claim> {
    if list == [] then []
    else
      var front, row := ClaimsAgainst(list[..|list| - 1], command, wanted), list[|list| - 1];
      if row.command == command || Shared(Ids(row), wanted) == [] then front else front + [Claim(row, Shared(Ids(row), wanted))]
  }

  datatype Platform = Mac | Other

  /** A key other machinery holds, on one platform or on all. */
  datatype Reserved = Reserved(keys: string, place: Option<Platform>)

  datatype ReservedClaim = ReservedClaim(reserved: Reserved, chords: seq<string>)

  /** The reserved keys of a platform that hold a wanted chord. */
  function ReservedAmong(table: seq<Reserved>, platform: Platform, wanted: seq<string>): seq<ReservedClaim> {
    if table == [] then []
    else
      var front, r := ReservedAmong(table[..|table| - 1], platform, wanted), table[|table| - 1];
      if (r.place == None || r.place == Some(platform)) && Shared(Occupied(r.keys), wanted) != [] then
        front + [ReservedClaim(r, Shared(Occupied(r.keys), wanted))]
      else front
  }

  method ReservedAt(keys: string, table: seq<Reserved>, platform: Platform) returns (out: seq<ReservedClaim>)
    ensures out == ReservedAmong(table, platform, Occupied(keys))
  {
    hide Occupied;
    var wanted := OccupiedChords(keys);
    out := [];
    for i := 0 to |table|
      invariant out == ReservedAmong(table[..i], platform, wanted)
    {
      assert table[..i + 1][..i] == table[..i];
      if table[i].place != None && table[i].place != Some(platform) {
        continue;
      }
      var shared := Shared(Occupied(table[i].keys), wanted);
      if shared != [] {
        out := out + [ReservedClaim(table[i], shared)];
      }
    }
    assert table[..|table|] == table;
  }

  datatype Verdict = Verdict(
    chords: seq<string>, taken: seq<Claim>, reserved: seq<ReservedClaim>, unreadable: bool, free: bool, blocked: bool)

  /** Some chord of the entry is another row's. */
  ghost predicate OthersAnswer(list: seq<Row>, command: string, wanted: seq<string>) {
    exists row, id :: row in list && row.command != command && id in Ids(row) && id in wanted
  }

  /** Some chord of the entry is reserved on this platform. */
  ghost predicate ReservedHere(table: seq<Reserved>, platform: Platform, wanted: seq<string>) {
    exists r, id :: r in table && (r.place == None || r.place == Some(platform)) && id in Occupied(r.keys) && id in wanted
  }

  ghost predicate Listed(claims: seq<Claim>, row: Row) { exists claim :: claim in claims && claim.row == row }

  ghost predicate Meets(ids: seq<string>, wanted: seq<string>) { exists id :: id in ids && id in wanted }

  lemma {:induction false} SharedIs(ids: seq<string>, wanted: seq<string>)
    ensures forall id :: id in Shared(ids, wanted) <==> id in ids && id in wanted
  {
    if ids != [] {
      SharedIs(ids[..|ids| - 1], wanted);
      assert ids == ids[..|ids| - 1] + [ids[|ids| - 1]];
    }
  }

  lemma {:induction false} ClaimsAre(list: seq<Row>, command: string, wanted: seq<string>)
    ensures forall row :: Listed(ClaimsAgainst(list, command, wanted), row)
                     <==> row in list && row.command != command && Meets(Ids(row), wanted)
    ensures forall claim :: claim in ClaimsAgainst(list, command, wanted) ==> claim.chords == Shared(Ids(claim.row), wanted)
  {
    hide Ids, Shared;
    if list != [] {
      var front, last := list[..|list| - 1], list[|list| - 1];
      var before, all := ClaimsAgainst(front, command, wanted), ClaimsAgainst(list, command, wanted);
      ClaimsAre(front, command, wanted);
      SharedIs(Ids(last), wanted);
      assert list == front + [last];
      assert Meets(Ids(last), wanted) <==> Shared(Ids(last), wanted) != [] by {
        if Shared(Ids(last), wanted) != [] {
          assert Shared(Ids(last), wanted)[0] in Shared(Ids(last), wanted);
        }
      }
      var taken := Claim(last, Shared(Ids(last), wanted));
      var joins := last.command != command && Meets(Ids(last), wanted);
      assert all == if joins then before + [taken] else before;
      forall row
        ensures Listed(all, row) <==> Listed(before, row) || (joins && row == last)
      {
        if claim :| claim in before && claim.row == row {
          assert claim in all;
        }
        assert joins ==> taken in all;
      }
      hide Listed;
    }
  }

  lemma {:induction false} ReservedAre(table: seq<Reserved>, platform: Platform, wanted: seq<string>)
    ensures forall claim :: claim in ReservedAmong(table, platform, wanted) ==> claim.chords == Shared(Occupied(claim.reserved.keys), wanted)
  {
    hide Occupied, Shared;
    if table != [] {
      ReservedAre(table[..|table| - 1], platform, wanted);
    }
  }

  /** The verdict on an entry: other rows and unreadable text block it, reserved
      keys only keep it from being free. */
  method InspectBinding(command: string, keys: string, list: seq<Row>, table: seq<Reserved>, platform: Platform) returns (v: Verdict)
    ensures v.chords == Occupied(keys) && v.taken == ClaimsAgainst(list, command, Occupied(keys))
    ensures v.reserved == ReservedAmong(table, platform, Occupied(keys))
    ensures v.unreadable <==> Occupied(keys) == []
    ensures v.blocked <==> Occupied(keys) == [] || OthersAnswer(list, command, Occupied(keys))
    ensures v.free <==> !v.blocked && !ReservedHere(table, platform, Occupied(keys))
    ensures forall row :: Listed(v.taken, row) <==> row in list && row.command != command && Meets(Ids(row), Occupied(keys))
    ensures forall claim, id :: claim in v.taken ==> (id in claim.chords <==> id in Ids(claim.row) && id in Occupied(keys))
    ensures forall claim, id :: claim in v.reserved ==>
              (id in claim.chords <==> id in Occupied(claim.reserved.keys) && id in Occupied(keys))
  {
    hide Ids, Occupied, Shared, OthersAnswer, ReservedHere;
    var chords := OccupiedChords(keys);
    var taken := [];
    for i := 0 to |list|
      invariant taken == ClaimsAgainst(list[..i], command, chords)
    {
      var row := list[i];
      assert list[..i + 1][..i] == list[..i];
      if row.command == command {
        continue;
      }
      if row.keys == None {
        NoKeysNoIds(row);
        NothingShared(chords);
        continue;
      }
      var shared := Shared(Ids(row), chords);
      if shared == [] {
        continue;
      }
      taken := taken + [Claim(row, shared)];
    }
    assert list[..|list|] == list;
    var reserved := ReservedAt(keys, table, platform);
    NothingAgainst(list, command, chords);
    NothingReserved(table, platform, chords);
    ClaimsAre(list, command, chords);
    ReservedAre(table, platform, chords);
    forall row {
      SharedIs(Ids(row), chords);
    }
    forall r: Reserved {
      SharedIs(Occupied(r.keys), chords);
    }
    var unreadable := chords == [];
    v := Verdict(chords, taken, reserved, unreadable, !unreadable && taken == [] && reserved == [], unreadable || taken != []);
  }

  lemma NothingShared(wanted: seq<string>)
    ensures Shared([], wanted) == []
  {
  }

  lemma {:induction false} SharedNone(ids: seq<string>, wanted: seq<string>)
    ensures Shared(ids, wanted) == [] <==> forall id :: id in ids ==> id !in wanted
  {
    if ids != [] {
      SharedNone(ids[..|ids| - 1], wanted);
      assert ids == ids[..|ids| - 1] + [ids[|ids| - 1]];
    }
  }

  lemma {:induction false} NothingAgainst(list: seq<Row>, command: string, wanted: seq<string>)
    ensures ClaimsAgainst(list, command, wanted) == [] <==> !OthersAnswer(list, command, wanted)
  {
    hide Ids, Shared;
    if list != [] {
      var front, row := list[..|list| - 1], list[|list| - 1];
      NothingAgainst(front, command, wanted);
      SharedNone(Ids(row), wanted);
      assert list == front + [row];
    }
  }

  lemma {:induction false} NothingReserved(table: seq<Reserved>, platform: Platform, wanted: seq<string>)
    ensures ReservedAmong(table, platform, wanted) == [] <==> !ReservedHere(table, platform, wanted)
  {
    hide Occupied, Shared;
    if table != [] {
      var front, r := table[..|table| - 1], table[|table| - 1];
      NothingReserved(front, platform, wanted);
      SharedNone(Occupied(r.keys), wanted);
      assert table == front + [r];
    }
  }

  lemma NoKeysNoIds(row: Row)
    requires row.keys == None
    ensures Ids(row) == []
  {
  }

  predicate UniqueCommands(list: seq<Row>) {
    forall i, j :: 0 <= i < j < |list| ==> list[i].command != list[j].command
  }

  ghost predicate NamesEachOnce(ids: seq<string>) { forall id :: Times(ids, id) <= 1 }

  lemma {:induction false} SharedIsCommon(ids: seq<string>, wanted: seq<string>)
    ensures Shared(ids, wanted) == [] <==> forall id :: id in wanted ==> Times(ids, id) == 0
  {
    if ids != [] {
      SharedIsCommon(ids[..|ids| - 1], wanted);
    }
  }

  /** Nothing is taken exactly when no other row claims a wanted chord. */
  lemma {:induction false} NothingTaken(list: seq<Row>, command: string, wanted: seq<string>)
    requires forall row :: row in list ==> row.command != command
    ensures ClaimsAgainst(list, command, wanted) == [] <==> forall id :: id in wanted ==> Claimants(list, id) == []
  {
    hide Ids, Times, Shared;
    if list != [] {
      NothingTaken(list[..|list| - 1], command, wanted);
      SharedIsCommon(Ids(list[|list| - 1]), wanted);
    }
  }

  lemma {:induction false} ClaimantsConcat(a: seq<Row>, b: seq<Row>, id: string)
    ensures Claimants(a + b, id) == Claimants(a, id) + Claimants(b, id)
  {
    hide Ids, Times;
    if b == [] {
      assert a + b == a;
    } else {
      var front, row := b[..|b| - 1], b[|b| - 1];
      ClaimantsConcat(a, front, id);
      assert (a + b)[..|a + b| - 1] == a + front;
    }
  }

  lemma {:induction false} AgainstConcat(a: seq<Row>, b: seq<Row>, command: string, wanted: seq<string>)
    ensures ClaimsAgainst(a + b, command, wanted) == ClaimsAgainst(a, command, wanted) + ClaimsAgainst(b, command, wanted)
  {
    hide Ids, Shared;
    if b == [] {
      assert a + b == a;
    } else {
      var front, row := b[..|b| - 1], b[|b| - 1];
      AgainstConcat(a, front, command, wanted);
      assert (a + b)[..|a + b| - 1] == a + front;
    }
  }

  /** The rows around one row, and the claims of the whole. */
  lemma AroundOneRow(a: seq<Row>, row: Row, b: seq<Row>, id: string)
    ensures |Claimants(a + [row] + b, id)| == |Claimants(a, id)| + Times(Ids(row), id) + |Claimants(b, id)|
  {
    ClaimantsConcat(a + [row], b, id);
    ClaimantsConcat(a, [row], id);
    assert [row][..0] == [];
    assert Claimants([row], id) == Claimants([], id) + Copies(row, Times(Ids(row), id));
  }

  lemma AgainstOneRow(a: seq<Row>, row: Row, b: seq<Row>, wanted: seq<string>)
    requires forall other :: other in a || other in b ==> other.command != row.command
    ensures ClaimsAgainst(a + [row] + b, row.command, wanted) == []
       <==> forall id :: id in wanted ==> Claimants(a, id) == [] && Claimants(b, id) == []
  {
    AgainstConcat(a + [row], b, row.command, wanted);
    AgainstConcat(a, [row], row.command, wanted);
    assert [row][..0] == [];
    NothingTaken(a, row.command, wanted);
    NothingTaken(b, row.command, wanted);
  }

  lemma SavedRows(defaults: seq<Row>, overrides: map<string, string>, p: nat, keys: string)
    requires UniqueCommands(defaults) && p < |defaults| && keys != ""
    ensures var list := Resolve(defaults, overrides);
            var saved := Resolve(defaults, overrides[defaults[p].command := keys]);
            && list == list[..p] + [list[p]] + list[p + 1..]
            && saved == list[..p] + [saved[p]] + list[p + 1..]
            && Ids(saved[p]) == Occupied(keys)
            && list[p].command == defaults[p].command
            && (forall other :: other in list[..p] || other in list[p + 1..] ==> other.command != list[p].command)
  {
    hide Occupied;
  }

  /** Saving a recorded key into a table without conflicts leaves it without
      conflicts exactly when nothing else is taken and the key does not name one
      chord twice, which the verdict does not look at. */
  lemma SavingKeepsTheTable(defaults: seq<Row>, overrides: map<string, string>, p: nat, keys: string)
    requires UniqueCommands(defaults) && p < |defaults| && keys != ""
    requires ConflictFree(Resolve(defaults, overrides))
    ensures ConflictFree(Resolve(defaults, overrides[defaults[p].command := keys]))
       <==> && ClaimsAgainst(Resolve(defaults, overrides), defaults[p].command, Occupied(keys)) == []
            && NamesEachOnce(Occupied(keys))
  {
    var list := Resolve(defaults, overrides);
    var saved := Resolve(defaults, overrides[defaults[p].command := keys]);
    var a, b, ids := list[..p], list[p + 1..], Occupied(keys);
    SavedRows(defaults, overrides, p, keys);
    AgainstOneRow(a, list[p], b, ids);
    hide Ids, Occupied, Resolve, Claimants, ClaimsAgainst, Times, UniqueCommands;
    forall id
      ensures |Claimants(list, id)| == |Claimants(a, id)| + Times(Ids(list[p]), id) + |Claimants(b, id)|
      ensures |Claimants(saved, id)| == |Claimants(a, id)| + Times(ids, id) + |Claimants(b, id)|
      ensures Times(ids, id) > 0 <==> id in ids
    {
      AroundOneRow(a, list[p], b, id);
      AroundOneRow(a, saved[p], b, id);
      TimesCounts(ids, id);
    }
    if ConflictFree(saved) {
      forall id | id in ids
        ensures Claimants(a, id) == [] && Claimants(b, id) == []
      {
        assert |Claimants(saved, id)| <= 1;
      }
      forall id
        ensures Times(ids, id) <= 1
      {
        assert |Claimants(saved, id)| <= 1;
      }
    } else {
      var id :| |Claimants(saved, id)| > 1;
      assert |Claimants(list, id)| <= 1;
    }
  }

  lemma CommandA(half: string)
    requires half == "\U{2318}a"
    ensures PartChords(half) == [half]
  {
    var chord := Chord(BARE.(cmd := true), "a");
    assert half[1..] == "a" && Taken("a", BARE.(cmd := true)) == (BARE.(cmd := true), "a");
    assert RANGE !in half && half == [CMD, 'a'] && Lower("a") == "a";
    assert Taken(half, BARE) == Taken(half[1..], BARE.(cmd := true));
    assert ParseChord(half) == Some(chord);
    assert ChordId(chord) == half;
  }

  lemma CommandATwice(keys: string, half: string)
    requires keys == "\U{2318}a / \U{2318}a" && half == "\U{2318}a"
    ensures Parts(keys) == [half, half]
  {
    assert keys[2..] == " / \U{2318}a" && keys[2..][3..] == half && keys[1..][1..] == keys[2..];
    assert Parts(half) == [half];
    assert keys[2..][..3] == COMPOUND && Parts(keys[2..]) == ["", half];
    assert keys[1..][..3][0] == 'a' && Parts(keys[1..]) == [['a'] + ""] + [half];
    var rest := Parts(keys[1..]);
    assert rest[0] == "a" && rest[1..] == [half];
    assert keys[..3][0] == CMD && Parts(keys) == [[CMD] + rest[0]] + rest[1..];
    assert [CMD] + rest[0] == half && [half] + [half] == [half, half];
  }

  /** A compound of one chord with itself is not blocked, and a conflict once saved.
      The settings view records single chords only, so such an entry can come from a
      hand-edited configuration file and nowhere else. */
  lemma ACompoundCanClashWithItself()
    ensures Occupied("\U{2318}a / \U{2318}a") == ["\U{2318}a", "\U{2318}a"]
    ensures !NamesEachOnce(Occupied("\U{2318}a / \U{2318}a"))
  {
    var half := "\U{2318}a";
    CommandA(half);
    CommandATwice("\U{2318}a / \U{2318}a", half);
    hide PartChords, Parts;
    var one := [half];
    assert [half, half][1..] == one && one[1..] == [];
    assert PartsChords(one) == one && PartsChords([half, half]) == one + one;
    assert Times([half, half], half) == 2 by {
      assert [half, half][..1] == [half];
    }
  }
}
