/** Chords and the entries of the shortcut table: `src/shortcuts.ts` and the
    same readers in `src-tauri/src/keys.rs`, which agree branch for branch on
    ASCII key names and the glyphs below. */
module Shortcuts {
  import opened Options

  const CMD: char := '\U{2318}'
  const SHIFT: char := '\U{21E7}'
  const CTRL: char := '\U{2303}'
  const ALT: char := '\U{2325}'
  const RANGE: char := '\U{2026}'
  const COMPOUND: string := " / "

  datatype Mods = Mods(cmd: bool, shift: bool, ctrl: bool, alt: bool)
  datatype Chord = Chord(mods: Mods, key: string)

  const BARE: Mods := Mods(false, false, false, false)

  predicate IsGlyph(c: char) { c == CMD || c == SHIFT || c == CTRL || c == ALT }

  function With(m: Mods, c: char): Mods {
    if c == CMD then m.(cmd := true)
    else if c == SHIFT then m.(shift := true)
    else if c == CTRL then m.(ctrl := true)
    else m.(alt := true)
  }

  function LowerChar(c: char): char { if 'A' <= c <= 'Z' then (c as int + 32) as char else c }
  function UpperChar(c: char): char { if 'a' <= c <= 'z' then (c as int - 32) as char else c }

  function Lower(s: string): (t: string)
    ensures |t| == |s|
    ensures forall i :: 0 <= i < |s| ==> t[i] == LowerChar(s[i])
  {
    seq(|s|, i requires 0 <= i < |s| => LowerChar(s[i]))
  }

  // -------------------------------------------------------------- the readers

  /** The modifiers in front of `keys` added to `m`, and what follows them. */
  function Taken(keys: string, m: Mods): (Mods, string) {
    if keys != "" && IsGlyph(keys[0]) then Taken(keys[1..], With(m, keys[0])) else (m, keys)
  }

  method TakeModifiers(keys: string) returns (m: Mods, rest: string)
    ensures (m, rest) == Taken(keys, BARE)
  {
    m := BARE;
    var i := 0;
    while i < |keys|
      invariant 0 <= i <= |keys|
      invariant Taken(keys[i..], m) == Taken(keys, BARE)
    {
      if !IsGlyph(keys[i]) {
        break;
      }
      assert keys[i..][1..] == keys[i + 1..];
      m := With(m, keys[i]);
      i := i + 1;
    }
    rest := keys[i..];
  }

  predicate HasCompound(s: string) {
    |s| >= 3 && (s[..3] == COMPOUND || HasCompound(s[1..]))
  }

  /** A range, a compound and an entry of modifiers alone have no single chord. */
  function ParseChord(keys: string): Option<Chord> {
    if HasCompound(keys) || RANGE in keys then None
    else
      var (m, rest) := Taken(keys, BARE);
      if rest == "" then None else Some(Chord(m, Lower(rest)))
  }

  function IndexOf(s: string, c: char): (at: Option<nat>)
    ensures at.Some? ==> at.value < |s| && s[at.value] == c && c !in s[..at.value]
    ensures at == None ==> c !in s
  {
    if s == "" then None
    else if s[0] == c then Some(0)
    else match IndexOf(s[1..], c) { case None => None case Some(i) => Some(i + 1) }
  }

  /** The modifiers and the two ends of a range entry. */
  function ParseRange(keys: string): Option<(Mods, char, char)> {
    match IndexOf(keys, RANGE)
    case None => None
    case Some(at) =>
      var (m, from) := Taken(keys[..at], BARE);
      var to := keys[at + 1..];
      if |from| != 1 || |to| != 1 then None else Some((m, from[0], to[0]))
  }

  function Glyph(on: bool, c: char): string { if on then [c] else "" }

  function Glyphs(m: Mods): string { Glyph(m.cmd, CMD) + Glyph(m.ctrl, CTRL) + Glyph(m.alt, ALT) + Glyph(m.shift, SHIFT) }

  function ChordId(c: Chord): string { Glyphs(c.mods) + c.key }

  function DisplayKey(key: string): string { if key == "" then "" else [UpperChar(key[0])] + key[1..] }

  /** The spelling of a chord in the table and in the configuration file. */
  function ChordKeys(c: Chord): string { Glyphs(c.mods) + DisplayKey(c.key) }

  // ---------------------------------------------------------------- chord ids

  /** A key name a chord can carry: not empty, not starting with a modifier. */
  predicate IsKey(key: string) { key != "" && !IsGlyph(key[0]) }

  lemma GlyphsAreTaken(m: Mods, key: string)
    requires key == "" || !IsGlyph(key[0])
    ensures Taken(Glyphs(m) + key, BARE) == (m, key)
  {
    var withShift := Glyph(m.shift, SHIFT) + key;
    var withAlt := Glyph(m.alt, ALT) + withShift;
    var withCtrl := Glyph(m.ctrl, CTRL) + withAlt;
    assert Glyphs(m) + key == Glyph(m.cmd, CMD) + withCtrl;
    TakeOne(m.cmd, CMD, withCtrl, BARE);
    TakeOne(m.ctrl, CTRL, withAlt, BARE.(cmd := m.cmd));
    TakeOne(m.alt, ALT, withShift, BARE.(cmd := m.cmd, ctrl := m.ctrl));
    TakeOne(m.shift, SHIFT, key, BARE.(cmd := m.cmd, ctrl := m.ctrl, alt := m.alt));
  }

  lemma TakeOne(on: bool, c: char, s: string, m: Mods)
    requires IsGlyph(c)
    ensures Taken(Glyph(on, c) + s, m) == Taken(s, if on then With(m, c) else m)
  {
    if on {
      assert ([c] + s)[1..] == s;
    } else {
      assert "" + s == s;
    }
  }

  /** Two chords with proper keys never share an id. */
  lemma ChordIdIsUnique(c: Chord, d: Chord)
    requires IsKey(c.key) && IsKey(d.key)
    ensures ChordId(c) == ChordId(d) <==> c == d
  {
    GlyphsAreTaken(c.mods, c.key);
    GlyphsAreTaken(d.mods, d.key);
  }

  lemma {:induction false} TakenIsKey(keys: string, m: Mods)
    ensures Taken(keys, m).1 == "" || !IsGlyph(Taken(keys, m).1[0])
    ensures |Taken(keys, m).1| <= |keys|
    ensures keys != "" && IsGlyph(keys[0]) ==> |Taken(keys, m).1| < |keys|
  {
    if keys != "" && IsGlyph(keys[0]) {
      TakenIsKey(keys[1..], With(m, keys[0]));
    }
  }

  lemma ParsedIsKey(keys: string)
    ensures ParseChord(keys).Some? ==> IsKey(ParseChord(keys).value.key)
  {
    TakenIsKey(keys, BARE);
  }

  lemma CompoundAfterGlyph(on: bool, c: char, s: string)
    requires c != ' '
    ensures HasCompound(Glyph(on, c) + s) == HasCompound(s)
    ensures RANGE in Glyph(on, c) + s <==> (on && c == RANGE) || RANGE in s
  {
    if on {
      assert ([c] + s)[1..] == s && ([c] + s)[0] == c;
      assert |s| >= 2 ==> ([c] + s)[..3][0] == c;
    } else {
      assert "" + s == s;
    }
  }

  lemma CompoundAfterGlyphs(m: Mods, s: string)
    ensures HasCompound(Glyphs(m) + s) == HasCompound(s)
    ensures RANGE in Glyphs(m) + s <==> RANGE in s
  {
    var withShift := Glyph(m.shift, SHIFT) + s;
    var withAlt := Glyph(m.alt, ALT) + withShift;
    var withCtrl := Glyph(m.ctrl, CTRL) + withAlt;
    assert Glyphs(m) + s == Glyph(m.cmd, CMD) + withCtrl;
    CompoundAfterGlyph(m.cmd, CMD, withCtrl);
    CompoundAfterGlyph(m.ctrl, CTRL, withAlt);
    CompoundAfterGlyph(m.alt, ALT, withShift);
    CompoundAfterGlyph(m.shift, SHIFT, s);
  }

  lemma CompoundHead(c: char, d: char, tail: string)
    requires c != ' ' && d != ' '
    ensures HasCompound([c] + tail) == HasCompound([d] + tail)
  {
    assert ([c] + tail)[1..] == tail == ([d] + tail)[1..];
    assert |tail| >= 2 ==> ([c] + tail)[..3][0] == c && ([d] + tail)[..3][0] == d;
  }

  lemma LowerOfCons(c: char, tail: string)
    ensures Lower([c] + tail) == [LowerChar(c)] + Lower(tail)
  {
  }

  /** Writing a key with a capital changes nothing the reader looks at. */
  lemma DisplayKeepsShape(key: string)
    ensures HasCompound(DisplayKey(key)) == HasCompound(key)
    ensures RANGE in DisplayKey(key) <==> RANGE in key
    ensures Lower(DisplayKey(key)) == Lower(key)
    ensures key != "" ==> (IsGlyph(DisplayKey(key)[0]) <==> IsGlyph(key[0]))
    ensures key != "" && 'a' <= key[0] <= 'z' ==> 'A' <= DisplayKey(key)[0] <= 'Z'
  {
    hide HasCompound, Lower;
    if key != "" {
      var c, tail := key[0], key[1..];
      assert key == [c] + tail;
      LowerOfCons(c, tail);
      LowerOfCons(UpperChar(c), tail);
      if 'a' <= c <= 'z' {
        CompoundHead(c, UpperChar(c), tail);
      }
    }
  }

  /** What the table spells is read back as the same chord exactly when the key
      is a lower-case name that is no modifier, no range and no compound. */
  lemma WrittenChordReadsBack(c: Chord)
    ensures ParseChord(ChordKeys(c)) == Some(c)
       <==> IsKey(c.key) && Lower(c.key) == c.key && RANGE !in c.key && !HasCompound(c.key)
  {
    var shown := DisplayKey(c.key);
    DisplayKeepsShape(c.key);
    CompoundAfterGlyphs(c.mods, shown);
    if c.key != "" && IsGlyph(c.key[0]) {
      TakenShorter(c.mods, shown);
    } else {
      GlyphsAreTaken(c.mods, shown);
    }
    LowerTwice(shown);
  }

  lemma LowerTwice(s: string)
    ensures Lower(Lower(s)) == Lower(s)
  {
  }

  /** A key that starts with a modifier loses it to the modifiers. */
  lemma TakenShorter(m: Mods, key: string)
    requires key != "" && IsGlyph(key[0])
    ensures |Taken(Glyphs(m) + key, BARE).1| < |key|
  {
    var withShift := Glyph(m.shift, SHIFT) + key;
    var withAlt := Glyph(m.alt, ALT) + withShift;
    var withCtrl := Glyph(m.ctrl, CTRL) + withAlt;
    assert Glyphs(m) + key == Glyph(m.cmd, CMD) + withCtrl;
    TakeOne(m.cmd, CMD, withCtrl, BARE);
    TakeOne(m.ctrl, CTRL, withAlt, BARE.(cmd := m.cmd));
    TakeOne(m.alt, ALT, withShift, BARE.(cmd := m.cmd, ctrl := m.ctrl));
    TakeOne(m.shift, SHIFT, key, BARE.(cmd := m.cmd, ctrl := m.ctrl, alt := m.alt));
    TakenIsKey(key, m);
  }

  // ---------------------------------------------------------------- occupancy

  /** An entry cut at each compound separator, leftmost first. */
  function Parts(s: string): (parts: seq<string>)
    ensures parts != []
  {
    if |s| < 3 then [s]
    else if s[..3] == COMPOUND then [""] + Parts(s[3..])
    else
      var rest := Parts(s[1..]);
      [[s[0]] + rest[0]] + rest[1..]
  }

  function Join(parts: seq<string>): string
    requires parts != []
  {
    if |parts| == 1 then parts[0] else parts[0] + COMPOUND + Join(parts[1..])
  }

  /** Cutting loses nothing. */
  lemma {:induction false} PartsJoinBack(s: string)
    ensures Join(Parts(s)) == s
  {
    if |s| >= 3 && s[..3] == COMPOUND {
      PartsJoinBack(s[3..]);
      assert Parts(s)[1..] == Parts(s[3..]) && s == COMPOUND + s[3..];
    } else if |s| >= 3 {
      var rest := Parts(s[1..]);
      PartsJoinBack(s[1..]);
      JoinAfter(s[0], rest);
      assert [s[0]] + s[1..] == s;
    }
  }

  lemma JoinAfter(c: char, parts: seq<string>)
    requires parts != []
    ensures Join([[c] + parts[0]] + parts[1..]) == [c] + Join(parts)
  {
    var whole := [[c] + parts[0]] + parts[1..];
    assert whole[1..] == parts[1..];
    if |parts| > 1 {
      assert [c] + (parts[0] + COMPOUND + Join(parts[1..])) == ([c] + parts[0]) + COMPOUND + Join(parts[1..]);
    }
  }

  /** No part is left with a separator in it. */
  lemma {:induction false} PartsAreSingle(s: string)
    ensures forall part :: part in Parts(s) ==> !HasCompound(part)
    ensures Parts(s)[0] <= s
  {
    if |s| >= 3 && s[..3] == COMPOUND {
      PartsAreSingle(s[3..]);
    } else if |s| >= 3 {
      var rest := Parts(s[1..]);
      PartsAreSingle(s[1..]);
      var first := [s[0]] + rest[0];
      assert first[1..] == rest[0] && first <= s;
      assert |first| >= 3 ==> first[..3] == s[..3];
      assert !HasCompound(first);
    }
  }

  function Next(c: char): char
    requires c < '\U{10FFFF}'
  {
    if c == '\U{D7FF}' then '\U{E000}' else (c as int + 1) as char
  }

  /** The characters from one end of a range to the other. */
  function RangeKeys(lo: char, hi: char): seq<char>
    decreases hi as int - lo as int
  {
    if lo > hi then [] else if lo == hi then [lo] else [lo] + RangeKeys(Next(lo), hi)
  }

  /** A range answers every key between its ends, once. */
  lemma {:induction false} RangeKeysAreBetween(lo: char, hi: char)
    ensures forall c :: c in RangeKeys(lo, hi) <==> lo <= c <= hi
    ensures forall i, j :: 0 <= i < j < |RangeKeys(lo, hi)| ==> RangeKeys(lo, hi)[i] < RangeKeys(lo, hi)[j]
    decreases hi as int - lo as int
  {
    if lo < hi {
      var rest := RangeKeys(Next(lo), hi);
      RangeKeysAreBetween(Next(lo), hi);
      forall i | 0 <= i < |rest|
        ensures lo < rest[i]
      {
        assert rest[i] in rest;
      }
      assert RangeKeys(lo, hi) == [lo] + rest;
    }
  }

  function RangeChords(m: Mods, keys: seq<char>): (ids: seq<string>)
    ensures |ids| == |keys|
    ensures forall i :: 0 <= i < |keys| ==> ids[i] == ChordId(Chord(m, [keys[i]]))
  {
    seq(|keys|, i requires 0 <= i < |keys| => ChordId(Chord(m, [keys[i]])))
  }

  function PartChords(part: string): seq<string> {
    match ParseChord(part)
    case Some(chord) => [ChordId(chord)]
    case None =>
      match ParseRange(part)
      case None => []
      case Some((m, from, to)) =>
        RangeChords(m, RangeKeys(from, to))
  }

  function PartsChords(parts: seq<string>): seq<string> {
    if parts == [] then [] else PartChords(parts[0]) + PartsChords(parts[1..])
  }

  /** The chord ids an entry takes up, in the order of its parts and, within a
      range, of its keys. */
  function Occupied(keys: string): seq<string> { PartsChords(Parts(keys)) }

  method OccupiedChords(keys: string) returns (out: seq<string>)
    ensures out == Occupied(keys)
  {
    hide ParseChord, ParseRange, ChordId, Parts, RangeKeys, PartChords;
    var parts := Parts(keys);
    out := [];
    for i := 0 to |parts|
      invariant out + PartsChords(parts[i..]) == PartsChords(parts)
    {
      ghost var before, rest := out, PartsChords(parts[i + 1..]);
      assert parts[i..][1..] == parts[i + 1..] && parts[i..][0] == parts[i];
      assert before + (PartChords(parts[i]) + rest) == (before + PartChords(parts[i])) + rest;
      var single := ParseChord(parts[i]);
      if single.Some? {
        ChordsOfSingle(parts[i]);
        out := out + [ChordId(single.value)];
        continue;
      }
      var range := ParseRange(parts[i]);
      if range == None {
        ChordsOfOther(parts[i]);
        assert before + [] == before;
        continue;
      }
      ChordsOfOther(parts[i]);
      var (m, from, to) := range.value;
      var keys := RangeKeys(from, to);
      for k := 0 to |keys|
        invariant out == before + RangeChords(m, keys[..k])
      {
        assert keys[..k + 1][..k] == keys[..k];
        out := out + [ChordId(Chord(m, [keys[k]]))];
      }
      assert keys[..|keys|] == keys;
    }
    assert out + [] == out;
  }

  lemma ChordsOfSingle(part: string)
    requires ParseChord(part).Some?
    ensures PartChords(part) == [ChordId(ParseChord(part).value)]
  {
  }

  lemma ChordsOfOther(part: string)
    requires ParseChord(part) == None
    ensures ParseRange(part) == None ==> PartChords(part) == []
    ensures ParseRange(part).Some? ==> var (m, from, to) := ParseRange(part).value; PartChords(part) == RangeChords(m, RangeKeys(from, to))
  {
  }

  lemma {:induction false} OnePart(s: string)
    requires !HasCompound(s)
    ensures Parts(s) == [s]
  {
    if |s| >= 3 {
      OnePart(s[1..]);
      assert [s[0]] + s[1..] == s;
    }
  }

  lemma ParsedIsWhole(keys: string)
    requires ParseChord(keys).Some?
    ensures !HasCompound(keys) && RANGE !in keys
  {
  }

  /** A single-chord entry occupies its own chord and nothing else. */
  lemma SingleOccupies(keys: string)
    requires ParseChord(keys).Some?
    ensures Occupied(keys) == [ChordId(ParseChord(keys).value)]
  {
    hide ParseChord, ChordId, Parts;
    assert !HasCompound(keys) by { ParsedIsWhole(keys); }
    OnePart(keys);
    ChordsOfSingle(keys);
    assert [keys][1..] == [];
    assert PartsChords([keys]) == PartChords(keys) + PartsChords([]);
  }
}
