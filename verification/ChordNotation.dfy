/** What the notation of the shortcut table means, said of the text itself: the glyphs
    in front, a range, and two entries written as one (`src/shortcuts.ts`). */
module ChordNotation {
  import opened Options
  import opened Shortcuts

  // ------------------------------------------------------------ the modifiers

  /** The text is modifier glyphs in front and `rest` behind, which does not start with
      one; each flag is up exactly when its own glyph is among those in front. */
  ghost predicate ReadsAs(keys: string, m: Mods, rest: string) {
    && |rest| <= |keys|
    && var front := keys[..|keys| - |rest|];
       && keys == front + rest
       && (forall i :: 0 <= i < |front| ==> front[i] in "\U{2318}\U{21E7}\U{2303}\U{2325}")
       && (rest != "" ==> rest[0] !in "\U{2318}\U{21E7}\U{2303}\U{2325}")
       && (m.cmd <==> '\U{2318}' in front) && (m.shift <==> '\U{21E7}' in front)
       && (m.ctrl <==> '\U{2303}' in front) && (m.alt <==> '\U{2325}' in front)
  }

  /** The flags of `m`, and those of the glyphs in front. */
  function Flags(m: Mods, front: string): Mods {
    Mods(m.cmd || CMD in front, m.shift || SHIFT in front, m.ctrl || CTRL in front, m.alt || ALT in front)
  }

  lemma OneMoreGlyph(m: Mods, c: char, more: string)
    requires IsGlyph(c)
    ensures Flags(With(m, c), more) == Flags(m, [c] + more)
  {
    assert CMD != SHIFT && CMD != CTRL && CMD != ALT && SHIFT != CTRL && SHIFT != ALT && CTRL != ALT;
  }

  lemma {:induction false} TakenFrom(keys: string, m: Mods) returns (front: string)
    ensures keys == front + Taken(keys, m).1 && forall i :: 0 <= i < |front| ==> IsGlyph(front[i])
    ensures Taken(keys, m).1 != "" ==> !IsGlyph(Taken(keys, m).1[0])
    ensures Taken(keys, m).0 == Flags(m, front)
  {
    front := "";
    if keys != "" && IsGlyph(keys[0]) {
      var more := TakenFrom(keys[1..], With(m, keys[0]));
      front := [keys[0]] + more;
      OneMoreGlyph(m, keys[0], more);
      hide Flags, With, IsGlyph;
      assert keys == [keys[0]] + keys[1..];
    }
  }

  /** Every text is read as its leading glyphs and the rest. */
  lemma ModifiersRead(keys: string)
    ensures ReadsAs(keys, Taken(keys, BARE).0, Taken(keys, BARE).1)
  {
    var front := TakenFrom(keys, BARE);
    hide Taken;
    assert keys[..|front|] == front;
  }

  /** Exactly the entries with neither a range nor a separator and with a key behind
      the glyphs have a single chord, and it is what the text reads as. */
  lemma ChordReads(keys: string, m: Mods, rest: string)
    requires ReadsAs(keys, m, rest)
    ensures ParseChord(keys) == if HasCompound(keys) || '\U{2026}' in keys || rest == "" then None else Some(Chord(m, Lower(rest)))
  {
    ModifiersRead(keys);
    ReadsOneWay(keys, m, rest, Taken(keys, BARE).0, Taken(keys, BARE).1);
  }

  lemma ReadsOneWay(keys: string, m: Mods, rest: string, n: Mods, other: string)
    requires ReadsAs(keys, m, rest) && ReadsAs(keys, n, other)
    ensures m == n && rest == other
  {
    var a, b := |keys| - |rest|, |keys| - |other|;
    assert keys[..a] + rest == keys && keys[..b] + other == keys;
    assert forall i :: 0 <= i < b ==> keys[..b][i] == keys[i];
    assert forall i :: 0 <= i < a ==> keys[..a][i] == keys[i];
    assert rest != "" ==> rest[0] == keys[a];
    assert other != "" ==> other[0] == keys[b];
  }

  // --------------------------------------------------------------- the ranges

  lemma IndexAfter(front: string, c: char, tail: string)
    requires c !in front
    ensures IndexOf(front + [c] + tail, c) == Some(|front|)
  {
    var s := front + [c] + tail;
    assert s[|front|] == c && s[..|front|] == front;
  }

  /** A range as the table writes one. */
  function RangeText(m: Mods, from: char, to: char): string { Glyphs(m) + [from] + "\U{2026}" + [to] }

  lemma NoRangeInGlyphs(m: Mods)
    ensures RANGE !in Glyphs(m)
  {
  }

  /** A written range reads back, ends in their places, exactly when its first end is
      neither a modifier nor the range glyph itself. */
  lemma WrittenRangeReadsBack(m: Mods, from: char, to: char)
    ensures ParseRange(RangeText(m, from, to)) == Some((m, from, to)) <==> !IsGlyph(from) && from != RANGE
  {
    var text, front := RangeText(m, from, to), Glyphs(m) + [from];
    NoRangeInGlyphs(m);
    if from == RANGE {
      assert text == Glyphs(m) + [RANGE] + ("\U{2026}" + [to]);
      IndexAfter(Glyphs(m), RANGE, "\U{2026}" + [to]);
      assert text[|Glyphs(m)| + 1..] == "\U{2026}" + [to];
    } else {
      assert text == front + [RANGE] + [to];
      IndexAfter(front, RANGE, [to]);
      assert text[..|front|] == front && text[|front| + 1..] == [to];
      if IsGlyph(from) {
        TakenShorter(m, [from]);
      } else {
        GlyphsAreTaken(m, [from]);
      }
    }
  }

  lemma {:induction false} NoSeparator(s: string)
    requires forall i :: 0 <= i && i + 2 < |s| ==> !(s[i] == ' ' && s[i + 1] == '/' && s[i + 2] == ' ')
    ensures !HasCompound(s)
  {
    if |s| >= 3 {
      NoSeparator(s[1..]);
      assert s[..3][0] == s[0] && s[..3][1] == s[1] && s[..3][2] == s[2];
    }
  }

  /** It occupies every key between its ends under its modifiers, in order. */
  lemma RangeOccupies(m: Mods, from: char, to: char)
    requires !IsGlyph(from) && from != RANGE
    ensures var keys := RangeKeys(from, to);
            && |Occupied(RangeText(m, from, to))| == |keys|
            && forall i :: 0 <= i < |keys| ==> Occupied(RangeText(m, from, to))[i] == ChordId(Chord(m, [keys[i]]))
  {
    var text := RangeText(m, from, to);
    WrittenRangeReadsBack(m, from, to);
    assert text == Glyphs(m) + ([from] + "\U{2026}" + [to]);
    CompoundAfterGlyphs(m, [from] + "\U{2026}" + [to]);
    NoSeparator([from] + "\U{2026}" + [to]);
    OnePart(text);
    assert ParseChord(text) == None;
    assert [text][1..] == [];
    hide ParseChord, ParseRange, ChordId, Parts, RangeKeys, Glyphs;
    assert PartsChords([text]) == PartChords(text) + PartsChords([]);
  }

  // ------------------------------------------------------------ the compounds

  lemma {:induction false} PartsAt(a: string, b: string)
    requires !HasCompound(a + " /")
    ensures Parts(a + " / " + b) == [a] + Parts(b)
  {
    var s := a + " / " + b;
    if a == "" {
      assert s[..3] == COMPOUND && s[3..] == b;
    } else {
      assert (a + " /")[1..] == a[1..] + " /";
      PartsAt(a[1..], b);
      assert s[1..] == a[1..] + " / " + b;
      assert s[..3] == (a + " /")[..3];
      assert [s[0]] + a[1..] == a;
    }
  }

  lemma {:induction false} PartsChordsConcat(p: seq<string>, q: seq<string>)
    ensures PartsChords(p + q) == PartsChords(p) + PartsChords(q)
  {
    hide PartChords;
    if p == [] {
      assert p + q == q;
    } else {
      PartsChordsConcat(p[1..], q);
      assert (p + q)[1..] == p[1..] + q && (p + q)[0] == p[0];
      assert PartChords(p[0]) + (PartsChords(p[1..]) + PartsChords(q)) == (PartChords(p[0]) + PartsChords(p[1..])) + PartsChords(q);
    }
  }

  /** Two entries written as one occupy what the first does and then what the second
      does, when the first separator is the one between them. */
  lemma CompoundOccupies(a: string, b: string)
    requires !HasCompound(a + " /")
    ensures Occupied(a + " / " + b) == Occupied(a) + Occupied(b)
  {
    PartsAt(a, b);
    NoneInFront(a);
    OnePart(a);
    hide PartChords, Parts, HasCompound;
    PartsChordsConcat([a], Parts(b));
  }

  lemma {:induction false} NoneInFront(a: string)
    requires !HasCompound(a + " /")
    ensures !HasCompound(a)
  {
    if a != "" {
      assert (a + " /")[1..] == a[1..] + " /";
      NoneInFront(a[1..]);
      assert |a| >= 3 ==> (a + " /")[..3] == a[..3];
    }
  }
}
