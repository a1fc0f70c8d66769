/** How a text is cut into lines: `toLines` of `src/userscriptDiff.ts`. */
module LineBreaks {

  /** One trailing line break, CRLF included, dropped. */
  function StripBreak(text: string): string {
    var n := |text|;
    if n == 0 || text[n - 1] != '\n' then text
    else if n >= 2 && text[n - 2] == '\r' then text[..n - 2]
    else text[..n - 1]
  }

  /** Split on every LF, taking the CR right before it along. */
  function SplitLines(body: string): (lines: seq<string>)
    ensures lines != []
  {
    if body == "" then [""]
    else if body[0] == '\n' then [""] + SplitLines(body[1..])
    else if body[0] == '\r' && |body| > 1 && body[1] == '\n' then [""] + SplitLines(body[2..])
    else
      var rest := SplitLines(body[1..]);
      [[body[0]] + rest[0]] + rest[1..]
  }

  function ToLines(text: string): seq<string> {
    var body := StripBreak(text);
    if body == "" then [] else SplitLines(body)
  }

  // ------------------------------------------------ what the lines stand for

  /** The text with every CR that stands right before an LF left out. */
  function Unix(text: string): string {
    if text == "" then ""
    else if text[0] == '\r' && |text| > 1 && text[1] == '\n' then Unix(text[1..])
    else [text[0]] + Unix(text[1..])
  }

  /** The lines one after the other, an LF between each and the next. */
  function Joined(lines: seq<string>): string {
    if lines == [] then "" else if |lines| == 1 then lines[0] else lines[0] + "\n" + Joined(lines[1..])
  }

  predicate NoBreaks(lines: seq<string>) { forall i :: 0 <= i < |lines| ==> '\n' !in lines[i] }

  /** The text without its last character, if that is an LF. */
  function LessOneBreak(text: string): string {
    if text != "" && text[|text| - 1] == '\n' then text[..|text| - 1] else text
  }

  lemma UnixStep(text: string)
    requires text != ""
    ensures text[0] != '\r' || |text| == 1 || text[1] != '\n' ==> Unix(text) == [text[0]] + Unix(text[1..])
    ensures text[0] == '\r' && |text| > 1 && text[1] == '\n' ==> Unix(text) == "\n" + Unix(text[2..])
  {
    if text[0] == '\r' && |text| > 1 && text[1] == '\n' {
      assert text[1..][0] == '\n' && text[1..][1..] == text[2..];
    }
  }

  lemma {:induction false} SplitSpellsTheBody(body: string)
    ensures NoBreaks(SplitLines(body)) && Joined(SplitLines(body)) == Unix(body)
  {
    if body != "" {
      UnixStep(body);
      hide Unix, Joined, NoBreaks;
      if body[0] == '\n' {
        SplitSpellsTheBody(body[1..]);
        EmptyFirst(SplitLines(body[1..]));
      } else if body[0] == '\r' && |body| > 1 && body[1] == '\n' {
        SplitSpellsTheBody(body[2..]);
        EmptyFirst(SplitLines(body[2..]));
      } else {
        SplitSpellsTheBody(body[1..]);
        LongerFirst(body[0], SplitLines(body[1..]));
      }
    }
  }

  lemma EmptyFirst(lines: seq<string>)
    requires lines != [] && NoBreaks(lines)
    ensures NoBreaks([""] + lines) && Joined([""] + lines) == "\n" + Joined(lines)
  {
    assert ([""] + lines)[1..] == lines;
    assert "" + "\n" + Joined(lines) == "\n" + Joined(lines);
  }

  lemma LongerFirst(c: char, lines: seq<string>)
    requires lines != [] && NoBreaks(lines) && c != '\n'
    ensures var longer := [[c] + lines[0]] + lines[1..]; NoBreaks(longer) && Joined(longer) == [c] + Joined(lines)
  {
    var longer := [[c] + lines[0]] + lines[1..];
    assert longer[1..] == lines[1..];
    if |lines| > 1 {
      assert ([c] + lines[0]) + "\n" + Joined(lines[1..]) == [c] + (lines[0] + "\n" + Joined(lines[1..]));
    }
  }

  lemma {:induction false} UnixOfFront(text: string, tail: string)
    requires (tail != "" && tail[0] != '\n') || text == "" || text[|text| - 1] != '\r'
    ensures Unix(text + tail) == Unix(text) + Unix(tail)
  {
    if text == "" {
      assert text + tail == tail;
    } else {
      UnixOfFront(text[1..], tail);
      assert (text + tail)[1..] == text[1..] + tail;
    }
  }

  /** One LF less at the end of the text read with plain breaks. */
  lemma StripIsOneBreakLess(text: string)
    ensures Unix(StripBreak(text)) == LessOneBreak(Unix(text))
  {
    var n := |text|;
    if n == 0 {
    } else if text[n - 1] != '\n' {
      LastStays(text);
    } else if n >= 2 && text[n - 2] == '\r' {
      BreakAtEnd(text[..n - 2], true);
      assert text == text[..n - 2] + "\r\n";
    } else {
      BreakAtEnd(text[..n - 1], false);
      assert text == text[..n - 1] + "\n";
    }
  }

  lemma {:induction false} LastStays(text: string)
    requires text != "" && text[|text| - 1] != '\n'
    ensures Unix(text) != "" && Unix(text)[|Unix(text)| - 1] == text[|text| - 1]
  {
    if |text| > 1 {
      LastStays(text[1..]);
    } else {
      assert text[1..] == "";
    }
  }

  lemma {:induction false} BreakAtEnd(front: string, crlf: bool)
    requires crlf || front == "" || front[|front| - 1] != '\r'
    ensures Unix(front + (if crlf then "\r\n" else "\n")) == Unix(front) + "\n"
  {
    var tail := if crlf then "\r\n" else "\n";
    if front == "" {
      assert front + tail == tail && tail[1..] == if crlf then "\n" else "";
      assert Unix("\n") == "\n" by {
        assert "\n"[1..] == "";
      }
    } else {
      BreakAtEnd(front[1..], crlf);
      assert (front + tail)[1..] == front[1..] + tail;
    }
  }

  /** No line holds a break, and the lines with an LF between each and the next are
      the text with plain breaks, less one at its end. No text has an empty line only. */
  lemma LinesSpellTheText(text: string)
    ensures NoBreaks(ToLines(text)) && Joined(ToLines(text)) == LessOneBreak(Unix(text))
    ensures ToLines(text) == [] <==> LessOneBreak(Unix(text)) == ""
  {
    SplitSpellsTheBody(StripBreak(text));
    StripIsOneBreakLess(text);
    if StripBreak(text) != "" {
      SomethingStays(StripBreak(text));
    }
  }

  lemma {:induction false} SomethingStays(text: string)
    requires text != ""
    ensures Unix(text) != ""
  {
    if text[0] == '\r' && |text| > 1 && text[1] == '\n' {
      SomethingStays(text[1..]);
    }
  }

  /** A joined text can be cut in one way only. */
  lemma {:induction false} CutOneWay(a: seq<string>, b: seq<string>)
    requires NoBreaks(a) && NoBreaks(b) && a != [] && b != [] && Joined(a) == Joined(b)
    ensures a == b
  {
    FirstCut(a);
    FirstCut(b);
    assert |a| == 1 <==> '\n' !in Joined(a);
    if |a| > 1 {
      var x, y := a[0] + "\n" + Joined(a[1..]), b[0] + "\n" + Joined(b[1..]);
      assert x[|a[0]|] == '\n' && y[|b[0]|] == '\n';
      assert forall i :: 0 <= i < |a[0]| ==> x[i] == a[0][i];
      assert forall i :: 0 <= i < |b[0]| ==> y[i] == b[0][i];
      assert |a[0]| == |b[0]|;
      assert a[0] == x[..|a[0]|] && b[0] == y[..|b[0]|];
      assert Joined(a[1..]) == x[|a[0]| + 1..] && Joined(b[1..]) == y[|b[0]| + 1..];
      CutOneWay(a[1..], b[1..]);
      assert a == [a[0]] + a[1..] && b == [b[0]] + b[1..];
    }
  }

  lemma FirstCut(a: seq<string>)
    requires NoBreaks(a) && a != []
    ensures |a| == 1 <==> '\n' !in Joined(a)
  {
    if |a| > 1 {
      var x := a[0] + "\n" + Joined(a[1..]);
      assert x[|a[0]|] == '\n';
    }
  }

  /** Two texts have the same lines exactly when they are the same text with plain
      breaks and at most one break at the end less: a CRLF spelling changes nothing. */
  lemma SameLinesIff(x: string, y: string)
    ensures ToLines(x) == ToLines(y) <==> LessOneBreak(Unix(x)) == LessOneBreak(Unix(y))
  {
    LinesSpellTheText(x);
    LinesSpellTheText(y);
    if LessOneBreak(Unix(x)) == LessOneBreak(Unix(y)) && ToLines(x) != [] {
      CutOneWay(ToLines(x), ToLines(y));
    }
  }

  /** The text with a CR put before every LF. */
  function Crlf(text: string): string {
    if text == "" then "" else (if text[0] == '\n' then "\r\n" else [text[0]]) + Crlf(text[1..])
  }

  lemma {:induction false} UnixOfCrlf(text: string)
    requires '\r' !in text
    ensures Unix(Crlf(text)) == text && Unix(text) == text
  {
    if text != "" {
      var rest := Crlf(text[1..]);
      var crlf := (if text[0] == '\n' then "\r\n" else [text[0]]) + rest;
      assert Crlf(text) == crlf && text == [text[0]] + text[1..];
      hide Unix, Crlf;
      UnixOfCrlf(text[1..]);
      UnixStep(text);
      UnixStep(crlf);
      if text[0] == '\n' {
        assert crlf[2..] == rest;
      } else {
        assert crlf[1..] == rest;
      }
    }
  }

  /** A text and its CRLF spelling read as the same lines. */
  lemma CrlfReadsTheSame(text: string)
    requires '\r' !in text
    ensures ToLines(Crlf(text)) == ToLines(text)
  {
    UnixOfCrlf(text);
    SameLinesIff(Crlf(text), text);
  }

  /** A source with and without its last line break read as the same lines,
      unless the text before that break already ends in a break character. */
  lemma TrailingBreakIsIgnored(text: string)
    ensures ToLines(text + "\n") == ToLines(text)
       <==> text == "" || (text[|text| - 1] != '\n' && text[|text| - 1] != '\r')
  {
    SameLinesIff(text + "\n", text);
    OneBreakLess(Unix(text));
    hide Unix, ToLines, LessOneBreak;
    if text == "" {
      BreakAtEnd(text, false);
      NothingIsNothing();
    } else if text[|text| - 1] == '\r' {
      ReturnAtEnd(text[..|text| - 1]);
      assert text == text[..|text| - 1] + "\r";
    } else {
      BreakAtEnd(text, false);
      if text[|text| - 1] != '\n' {
        LastStays(text);
      } else {
        UnixLastBreak(text);
      }
    }
  }

  lemma NothingIsNothing()
    ensures Unix("") == ""
  {
  }

  lemma OneBreakLess(u: string)
    ensures LessOneBreak(u + "\n") == u
    ensures LessOneBreak(u) == u <==> u == "" || u[|u| - 1] != '\n'
  {
  }

  /** "\r" before the break goes with it, so a final lone "\r" is lost. */
  lemma ReturnAtEnd(front: string)
    ensures LessOneBreak(Unix(front + "\r" + "\n")) == Unix(front)
    ensures LessOneBreak(Unix(front + "\r")) == Unix(front) + "\r"
  {
    assert front + "\r" + "\n" == front + "\r\n";
    BreakAtEnd(front, true);
    UnixOfFront(front, "\r");
    UnixStep("\r");
  }

  lemma {:induction false} UnixLastBreak(text: string)
    requires text != "" && text[|text| - 1] == '\n'
    ensures Unix(text) != "" && Unix(text)[|Unix(text)| - 1] == '\n'
  {
    if |text| > 1 {
      UnixLastBreak(text[1..]);
    } else {
      assert text[1..] == "";
    }
  }
}
