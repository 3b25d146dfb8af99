/**
 Dead-letter files as text (omnicraft/_native_post_delivery.py): reading one
 into entries and writing entries back. JSON printing and parsing are a codec
 of which only the round trip of values and the length of strings is known.
 */
module DeadLetterText {
  import opened Wrappers
  import opened JsonValues
  import opened PyText

  datatype Codec = Codec(print_: Json -> string, parse: string -> Option<Json>)

  /**
   A value prints on one line with nothing to strip, and parses back to
   itself; a string literal is longer than its content by its two quotes. Any
   JSON printer in ASCII on one line (every character but printable ASCII
   escaped, as `json.dumps` does by default) meets this with a parser that
   inverts it: an escape is never shorter than the character it stands for.
   */
  ghost predicate Lawful(codec: Codec) {
    && (forall v: Json :: OneLine(codec.print_(v)) && Strip(codec.print_(v)) == codec.print_(v)
                          && codec.parse(codec.print_(v)) == Some(v))
    && (forall s: string :: codec.parse(s).Some? && codec.parse(s).value.Str? ==> |codec.parse(s).value.s| + 2 <= |s|)
  }

  predicate OneLine(s: string) {
    s != "" && forall c | c in s :: !IsLineBreak(c)
  }

  // ----- lines -----

  function LineEnd(t: string): (n: nat)
    ensures n <= |t|
    ensures forall k | 0 <= k < n :: !IsLineBreak(t[k])
    ensures n < |t| ==> IsLineBreak(t[n])
  {
    if t == "" || IsLineBreak(t[0]) then 0 else 1 + LineEnd(t[1..])
  }

  /** `str.splitlines`, for text whose "\r\n" pairs are already "\n". */
  function SplitLines(t: string): seq<string>
    decreases |t|
  {
    if t == "" then []
    else
      var e := LineEnd(t);
      if e == |t| then [t] else [t[..e]] + SplitLines(t[e + 1..])
  }

  function WriteLines(lines: seq<string>): string {
    if lines == [] then "" else WriteLines(lines[..|lines| - 1]) + lines[|lines| - 1] + "\n"
  }

  lemma {:induction false} JoinIsWriteLines(lines: seq<string>)
    requires lines != []
    ensures Join(lines, "\n") + "\n" == WriteLines(lines)
  {
    if |lines| == 1 {
      assert lines[..0] == [];
    } else {
      JoinIsWriteLines(lines[1..]);
      WriteLinesConcat(lines[..1], lines[1..]);
      assert lines == lines[..1] + lines[1..];
      assert lines[..1][..0] == [];
    }
  }

  lemma {:induction false} WriteLinesConcat(a: seq<string>, b: seq<string>)
    ensures WriteLines(a + b) == WriteLines(a) + WriteLines(b)
  {
    if b == [] {
      assert a + b == a;
    } else {
      assert (a + b)[..|a + b| - 1] == a + b[..|b| - 1];
      WriteLinesConcat(a, b[..|b| - 1]);
    }
  }

  /** A line without breaks is split off at the break that ends it. */
  lemma SplitHead(line: string, c: char, rest: string)
    requires IsLineBreak(c) && forall k | 0 <= k < |line| :: !IsLineBreak(line[k])
    ensures SplitLines(line + [c] + rest) == [line] + SplitLines(rest)
  {
    var text := line + [c] + rest;
    assert text[|line|] == c;
    assert LineEnd(text) == |line| by {
      assert forall k | 0 <= k < |line| :: text[k] == line[k];
    }
    assert text[..|line|] == line;
    assert text[|line| + 1..] == rest;
  }

  /** Text that ends a line splits from whatever follows it. */
  lemma {:induction false} SplitAtBreak(a: string, b: string)
    ensures SplitLines(a + "\n" + b) == SplitLines(a + "\n") + SplitLines(b)
    decreases |a|
  {
    var e := LineEnd(a);
    if e == |a| {
      SplitLast(a, b);
    } else {
      var line, c, tail := a[..e], a[e], a[e + 1..];
      Regroup(line, c, tail, a, b);
      SplitHead(line, c, tail + "\n" + b);
      SplitHead(line, c, tail + "\n");
      SplitAtBreak(tail, b);
      Prepend(line, SplitLines(tail + "\n"), SplitLines(b));
    }
  }

  lemma SplitLast(a: string, b: string)
    requires LineEnd(a) == |a|
    ensures SplitLines(a + "\n" + b) == SplitLines(a + "\n") + SplitLines(b)
  {
    SplitHead(a, '\n', b);
    SplitHead(a, '\n', "");
    assert a + "\n" + "" == a + "\n";
    assert [a] + SplitLines("") == [a];
  }

  lemma Prepend(line: string, xs: seq<string>, ys: seq<string>)
    ensures [line] + (xs + ys) == ([line] + xs) + ys
  {
  }

  lemma Regroup(line: string, c: char, tail: string, a: string, b: string)
    requires a == line + [c] + tail
    ensures a + "\n" == line + [c] + (tail + "\n")
    ensures a + "\n" + b == line + [c] + (tail + "\n" + b)
  {
  }

  lemma {:induction false} LinesHaveNoBreaks(t: string)
    ensures forall line | line in SplitLines(t) :: forall c | c in line :: !IsLineBreak(c)
    decreases |t|
  {
    if t != "" && LineEnd(t) < |t| {
      LinesHaveNoBreaks(t[LineEnd(t) + 1..]);
    }
  }

  // ----- entries -----

  /** One line: skipped when blank, parsed when it parses, kept verbatim otherwise. */
  function ReadLine(codec: Codec, line: string): seq<Json> {
    if Blank(line) then []
    else
      match codec.parse(Strip(line))
      case Some(v) => [v]
      case None => [Str(line)]
  }

  function ReadLines(codec: Codec, lines: seq<string>): seq<Json> {
    if lines == [] then [] else ReadLines(codec, lines[..|lines| - 1]) + ReadLine(codec, lines[|lines| - 1])
  }

  function ReadText(codec: Codec, text: string): seq<Json> {
    ReadLines(codec, SplitLines(text))
  }

  /** A file's entries; a file that does not exist has none. */
  function ReadFile(codec: Codec, file: Option<string>): seq<Json> {
    if file.None? then [] else ReadText(codec, file.value)
  }

  /** A raw line is written as it is, any other value is printed. */
  function RenderEntry(codec: Codec, e: Json): string {
    if e.Str? then e.s else codec.print_(e)
  }

  function RenderAll(codec: Codec, entries: seq<Json>): seq<string> {
    seq(|entries|, i requires 0 <= i < |entries| => RenderEntry(codec, entries[i]))
  }

  function Rewritten(codec: Codec, entries: seq<Json>): Option<string> {
    if entries == [] then None else Some(WriteLines(RenderAll(codec, entries)))
  }

  method ReadDeadLetterEntries(codec: Codec, file: Option<string>) returns (entries: Option<seq<Json>>)
    ensures entries.None? <==> file.None?
    ensures entries.GetOr([]) == ReadFile(codec, file)
  {
    if file.None? {
      return None;
    }
    var found: seq<Json> := [];
    var lines := SplitLines(file.value);
    for i := 0 to |lines|
      invariant found == ReadLines(codec, lines[..i])
    {
      assert lines[..i + 1][..i] == lines[..i];
      var line := lines[i];
      var stripped := Strip(line);
      if stripped == "" {
        continue;
      }
      var parsed := codec.parse(stripped);
      if parsed.Some? {
        found := found + [parsed.value];
      } else {
        found := found + [Str(line)];
      }
    }
    assert lines[..|lines|] == lines;
    entries := Some(found);
  }

  method RewriteDeadLetterEntries(codec: Codec, entries: seq<Json>) returns (file: Option<string>)
    ensures file == Rewritten(codec, entries)
    ensures file.None? <==> entries == []
  {
    if entries == [] {
      return None;
    }
    var lines := RenderAll(codec, entries);
    JoinIsWriteLines(lines);
    file := Some(Join(lines, "\n") + "\n");
  }

  // ----- the round trip -----

  /** An entry that, written alone, reads back as itself. */
  predicate Stable(codec: Codec, e: Json) {
    ReadText(codec, RenderEntry(codec, e) + "\n") == [e]
  }

  lemma {:induction false} ReadLinesConcat(codec: Codec, a: seq<string>, b: seq<string>)
    ensures ReadLines(codec, a + b) == ReadLines(codec, a) + ReadLines(codec, b)
  {
    if b == [] {
      assert a + b == a;
    } else {
      assert (a + b)[..|a + b| - 1] == a + b[..|b| - 1];
      ReadLinesConcat(codec, a, b[..|b| - 1]);
    }
  }

  lemma ReadAcrossBreak(codec: Codec, head: string, text: string)
    ensures ReadText(codec, head + "\n" + text) == ReadText(codec, head + "\n") + ReadText(codec, text)
  {
    SplitAtBreak(head, text);
    ReadLinesConcat(codec, SplitLines(head + "\n"), SplitLines(text));
  }

  /** What is read of complete lines followed by more text is what is read of each. */
  lemma ReadWritten(codec: Codec, lines: seq<string>, text: string)
    ensures ReadText(codec, WriteLines(lines) + text) == ReadText(codec, WriteLines(lines)) + ReadText(codec, text)
  {
    var before := WriteLines(lines);
    if lines == [] {
      assert before + text == text;
    } else {
      var head := WriteLines(lines[..|lines| - 1]) + lines[|lines| - 1];
      assert before == head + "\n";
      ReadAcrossBreak(codec, head, text);
    }
  }

  /** Rewriting a file and reading it again gives the same entries when each of them is stable. */
  lemma {:induction false} RewriteRoundTrip(codec: Codec, entries: seq<Json>)
    requires forall e | e in entries :: Stable(codec, e)
    ensures ReadText(codec, WriteLines(RenderAll(codec, entries))) == entries
    ensures ReadFile(codec, Rewritten(codec, entries)) == entries
  {
    if entries != [] {
      var init, last := entries[..|entries| - 1], entries[|entries| - 1];
      RewriteRoundTrip(codec, init);
      ReadWritten(codec, RenderAll(codec, init), RenderEntry(codec, last) + "\n");
      RenderLast(codec, entries);
      assert Stable(codec, last);
      assert entries == init + [last];
    }
  }

  lemma RenderLast(codec: Codec, entries: seq<Json>)
    requires entries != []
    ensures WriteLines(RenderAll(codec, entries))
            == WriteLines(RenderAll(codec, entries[..|entries| - 1])) + (RenderEntry(codec, entries[|entries| - 1]) + "\n")
  {
    var lines := RenderAll(codec, entries);
    assert lines[..|lines| - 1] == RenderAll(codec, entries[..|entries| - 1]);
  }

  /** Every value but a bare string is stable. */
  lemma ValuesAreStable(codec: Codec, e: Json)
    requires Lawful(codec) && !e.Str?
    ensures Stable(codec, e)
  {
    var line := codec.print_(e);
    assert OneLine(line);
    LineAlone(codec, line);
    assert line[0] in line;
  }

  /** A line on its own reads as that line. */
  lemma LineAlone(codec: Codec, line: string)
    requires forall c | c in line :: !IsLineBreak(c)
    ensures ReadText(codec, line + "\n") == ReadLine(codec, line)
  {
    assert line + "\n" == line + ['\n'] + "";
    SplitHead(line, '\n', "");
    assert SplitLines(line + "\n") == [line];
    assert [line][..0] == [];
    assert ReadLines(codec, [line]) == ReadLines(codec, []) + ReadLine(codec, line);
  }

  /** No line of the file is a JSON string on its own. */
  ghost predicate NoBareStrings(codec: Codec, file: Option<string>) {
    file.Some? ==> forall line | line in SplitLines(file.value) ::
      codec.parse(Strip(line)).Some? ==> !codec.parse(Strip(line)).value.Str?
  }

  /** Everything read from the file survives being written back. */
  ghost predicate Survivable(codec: Codec, file: Option<string>) {
    forall e | e in ReadFile(codec, file) :: Survives(codec, e)
  }

  /** Without bare JSON strings everything does, raw lines included. */
  lemma NoBareStringsSurvive(codec: Codec, file: Option<string>)
    requires Lawful(codec) && NoBareStrings(codec, file)
    ensures Survivable(codec, file)
  {
    if file.Some? {
      var lines := SplitLines(file.value);
      LinesHaveNoBreaks(file.value);
      forall e | e in ReadFile(codec, file) && e.Str?
        ensures Survives(codec, e)
      {
        var line := ReadFrom(codec, lines, e);
      }
    }
  }

  lemma {:induction false} ReadFrom(codec: Codec, lines: seq<string>, e: Json) returns (line: string)
    requires e in ReadLines(codec, lines)
    ensures line in lines && ReadLine(codec, line) == [e]
  {
    if e in ReadLine(codec, lines[|lines| - 1]) {
      line := lines[|lines| - 1];
    } else {
      line := ReadFrom(codec, lines[..|lines| - 1], e);
    }
  }

  // ----- exactly which entries survive -----

  /** A string survives when it is one line that is not blank and, if it parses, parses to itself. */
  predicate Survives(codec: Codec, e: Json) {
    e.Str? ==>
      && (forall c | c in e.s :: !IsLineBreak(c))
      && !Blank(e.s)
      && (codec.parse(Strip(e.s)).Some? ==> codec.parse(Strip(e.s)).value == e)
  }

  /** The lines of text that ends in a break are that text less the break, or shorter. */
  lemma {:induction false} EndedLines(a: string)
    ensures forall line | line in SplitLines(a + "\n") :: line == a || |line| < |a|
    decreases |a|
  {
    var e := LineEnd(a);
    if e == |a| {
      SplitHead(a, '\n', "");
      assert a + "\n" + "" == a + "\n";
    } else {
      var line, c, tail := a[..e], a[e], a[e + 1..];
      Regroup(line, c, tail, a, "");
      SplitHead(line, c, tail + "\n");
      EndedLines(tail);
    }
  }

  /** Strings read from a written string are shorter, or are that string and it survives. */
  lemma StringsShrink(codec: Codec, s: string, v: string)
    requires Lawful(codec) && Str(v) in ReadText(codec, s + "\n")
    ensures |v| < |s| || (v == s && Survives(codec, Str(s)))
  {
    var lines := SplitLines(s + "\n");
    var line := ReadFrom(codec, lines, Str(v));
    EndedLines(s);
    LinesHaveNoBreaks(s + "\n");
    assert |Strip(line)| <= |line|;
  }

  /** An entry written alone reads back as itself exactly when it survives: no string with a line break does. */
  lemma StableExactly(codec: Codec, e: Json)
    requires Lawful(codec)
    ensures Stable(codec, e) <==> Survives(codec, e)
  {
    if !e.Str? {
      ValuesAreStable(codec, e);
    } else {
      if Stable(codec, e) {
        assert e in ReadText(codec, e.s + "\n");
        StringsShrink(codec, e.s, e.s);
      }
      if Survives(codec, e) {
        LineAlone(codec, e.s);
      }
    }
  }

  /** Whatever is read of a written list is read of one of its entries. */
  lemma {:induction false} ReadOfOne(codec: Codec, entries: seq<Json>, r: Json) returns (e: Json)
    requires r in ReadText(codec, WriteLines(RenderAll(codec, entries)))
    ensures e in entries && r in ReadText(codec, RenderEntry(codec, e) + "\n")
  {
    assert entries != [];
    var init, last := entries[..|entries| - 1], entries[|entries| - 1];
    ReadWritten(codec, RenderAll(codec, init), RenderEntry(codec, last) + "\n");
    RenderLast(codec, entries);
    if r in ReadText(codec, RenderEntry(codec, last) + "\n") {
      e := last;
    } else {
      e := ReadOfOne(codec, init, r);
    }
  }

  lemma {:induction false} LongestString(entries: seq<Json>) returns (longest: nat)
    ensures forall e | e in entries :: e.Str? ==> |e.s| <= longest
  {
    longest := 0;
    if entries != [] {
      longest := LongestString(entries[..|entries| - 1]);
      var last := entries[|entries| - 1];
      if last.Str? && |last.s| > longest {
        longest := |last.s|;
      }
      assert forall e | e in entries :: e in entries[..|entries| - 1] || e == last;
    }
  }

  /** In a list that reads back, a string can only come from itself: a longer one would have come from a longer still. */
  lemma {:induction false} ReadBackSurvives(codec: Codec, entries: seq<Json>, s: string, longest: nat)
    requires Lawful(codec) && ReadText(codec, WriteLines(RenderAll(codec, entries))) == entries
    requires Str(s) in entries && forall e | e in entries :: e.Str? ==> |e.s| <= longest
    ensures Survives(codec, Str(s))
    decreases longest - |s|
  {
    var e := ReadOfOne(codec, entries, Str(s));
    if !e.Str? {
      ValuesAreStable(codec, e);
      assert false;
    }
    StringsShrink(codec, e.s, s);
    if |s| < |e.s| {
      ReadBackSurvives(codec, entries, e.s, longest);
      StableExactly(codec, e);
    }
  }

  /** A list of entries is read back as it was written exactly when every entry survives. */
  lemma RewriteExactly(codec: Codec, entries: seq<Json>)
    requires Lawful(codec)
    ensures ReadFile(codec, Rewritten(codec, entries)) == entries <==> forall e | e in entries :: Survives(codec, e)
  {
    if forall e | e in entries :: Survives(codec, e) {
      forall e | e in entries ensures Stable(codec, e) {
        StableExactly(codec, e);
      }
      RewriteRoundTrip(codec, entries);
    }
    if ReadFile(codec, Rewritten(codec, entries)) == entries {
      var longest := LongestString(entries);
      forall e | e in entries ensures Survives(codec, e) {
        if e.Str? {
          ReadBackSurvives(codec, entries, e.s, longest);
        }
      }
    }
  }

  /** A bare empty JSON string is a forensic line that a rewrite loses. */
  lemma BareStringIsLost(codec: Codec, line: string)
    requires OneLine(line) && Strip(line) == line && codec.parse(line) == Some(Str(""))
    ensures ReadFile(codec, Some(line + "\n")) == [Str("")]
    ensures ReadFile(codec, Rewritten(codec, [Str("")])) == []
  {
    LineAlone(codec, line);
    LineAlone(codec, "");
    var rendered := RenderAll(codec, [Str("")]);
    assert rendered == [""] && rendered[..0] == [];
    assert WriteLines(rendered) == "" + "\n";
  }

  /** A bare JSON string that holds the text of a value turns into that value. */
  lemma BareStringComesAlive(codec: Codec, v: Json)
    requires Lawful(codec)
    ensures ReadFile(codec, Rewritten(codec, [Str(codec.print_(v))])) == [v]
  {
    var line := codec.print_(v);
    assert OneLine(line) && line[0] in line;
    LineAlone(codec, line);
    var rendered := RenderAll(codec, [Str(line)]);
    assert rendered == [line] && rendered[..0] == [];
    assert WriteLines(rendered) == line + "\n";
  }
}
