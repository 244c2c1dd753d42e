/** Parsing, printing what was seen in canonical form, and parsing again. */
module IniRoundTrip {
  import opened Common
  import opened CStrings
  import opened Ini

  // ----- Uniqueness ------------------------------------------------------------------------

  lemma {:induction false} RStrippedIs(s: string, n: nat)
    requires n <= |s| && (forall i :: n <= i < |s| ==> IsSpace(s[i])) && (n == 0 || !IsSpace(s[n - 1]))
    ensures RStripped(s) == s[..n]
  {
    if n < |s| {
      RStrippedIs(s[..|s| - 1], n);
      assert s[..|s| - 1][..n] == s[..n];
    } else {
      assert s[..n] == s;
    }
  }

  lemma {:induction false} LSkippedIs(s: string, n: nat)
    requires n <= |s| && (forall i :: 0 <= i < n ==> IsSpace(s[i])) && (n == |s| || !IsSpace(s[n]))
    ensures LSkipped(s) == s[n..]
  {
    if n > 0 {
      LSkippedIs(s[1..], n - 1);
      assert s[1..][n - 1..] == s[n..];
    } else {
      assert s[n..] == s;
    }
  }

  lemma StopIs(s: string, c: char, n: nat)
    requires n <= |s| && (n < |s| ==> StopsAt(s, c, n)) && forall j :: 0 <= j < n ==> !StopsAt(s, c, j)
    ensures Stop(s, c) == n
  {
  }

  lemma StopOfPrefix(s: string, c: char, n: nat)
    requires n <= Stop(s, c)
    ensures Stop(s[..n], c) == n
  {
    var t := s[..n];
    forall j | 0 <= j < n ensures !StopsAt(t, c, j) { assert !StopsAt(s, c, j); }
    StopIs(t, c, n);
  }

  /** There is nowhere to stop exactly when there is no c and no comment. */
  lemma NoStop(s: string, c: char)
    ensures Stop(s, c) == |s| <==> c !in s && Uncommented(s)
  {
    if c !in s && Uncommented(s) {
      StopIs(s, c, |s|);
    }
    if Stop(s, c) == |s| {
      forall i | 0 <= i < |s| ensures s[i] != c && !(i > 0 && IsSpace(s[i - 1]) && s[i] == ';') {
        assert !StopsAt(s, c, i);
      }
    }
  }

  // ----- What the parser sees is in canonical shape ----------------------------------------

  predicate Plain(s: string) {
    '\n' !in s && NUL !in s
  }

  predicate Trimmed(s: string) {
    s == [] || (!IsSpace(s[0]) && !IsSpace(s[|s| - 1]))
  }

  predicate NoComment(s: string) {
    s != [] ==> s[0] != ';' && s[0] != '#'
  }

  /** No semicolon comes after white space. */
  predicate Uncommented(s: string) {
    forall i :: 0 < i < |s| ==> !(IsSpace(s[i - 1]) && s[i] == ';')
  }

  predicate Canonical(e: Event, prev: string) {
    match e
    case Section(name) => Plain(name) && |name| < 50 && ']' !in name && Uncommented(name)
    case Pair(name, value) =>
      && Plain(name) && Plain(value) && Trimmed(name) && Trimmed(value)
      && NoComment(name) && (name != [] ==> name[0] != '[')
      && '=' !in name && Uncommented(name) && Uncommented(value)
      && |name| + 1 + |value| < 200
    case More(text) =>
      && Plain(text) && Trimmed(text) && NoComment(text) && text != [] && |text| + 1 < 200 && prev != []
  }

  /** What fgets leaves in its buffer: short, and with at most one line feed, at the end. */
  predicate IsChunk(line: string) {
    |line| < 200 && NUL !in line && forall i :: 0 <= i < |line| - 1 ==> line[i] != '\n'
  }

  lemma PlainPart(line: string, t: string)
    requires IsChunk(line) && t <= line && (t == [] || !IsSpace(t[|t| - 1]))
    ensures Plain(t)
  {
    forall i | 0 <= i < |t| ensures t[i] != '\n' && t[i] != NUL { assert t[i] == line[i]; }
  }

  lemma StripIsPlain(line: string)
    requires IsChunk(line)
    ensures var start := LSkipped(RStripped(line)); Plain(start) && Trimmed(start) && |start| <= |line|
  {
    hide RStripped, LSkipped, IsSpace, IsChunk;
    var t := RStripped(line);
    var start := LSkipped(t);
    PlainPart(line, t);
    if start != [] { assert start[|start| - 1] == t[|t| - 1]; }
  }

  lemma HeaderIsCanonical(start: string, prev: string)
    requires Plain(start) && start != []
    ensures HeaderLine(start).Seen? ==> Canonical(HeaderLine(start).e, prev)
  {
    var rest := start[1..];
    var end := Stop(rest, ']');
    var name := Short(rest[..end]);
    assert name == rest[..|name|];
    StopOfPrefix(rest, ']', |name|);
    NoStop(name, ']');
  }

  /** No '=' and no comment comes before the end of the name. */
  lemma NameEndsInTime(start: string)
    requires NameEnd(start) < |start| && (start[NameEnd(start)] == '=' || start[NameEnd(start)] == ':')
    ensures NameEnd(start) <= Stop(start, '=')
  {
    var e := Stop(start, '=');
    if e < |start| && start[e] != '=' {
      assert StopsAt(start, ':', e);
    }
  }

  /** A part of a plain string is plain. */
  lemma PartIsPlain(s: string, v: string, r: string)
    requires Plain(s) && |v| <= |s| && v == s[|s| - |v|..] && r <= v
    ensures Plain(r)
  {
    assert forall i: nat :: i < |r| ==> r[i] == s[|s| - |v| + i];
  }

  lemma ValueIsCanonical(s: string)
    requires Plain(s)
    ensures Plain(Value(s)) && Trimmed(Value(s)) && Uncommented(Value(s)) && |Value(s)| <= |s|
  {
    hide Stop, IsSpace, Plain, RStripped, LSkipped;
    var v := LSkipped(s);
    var k := Stop(v, NUL);
    var r := RStripped(v[..k]);
    assert r <= v && r == v[..|r|];
    PartIsPlain(s, v, r);
    StopOfPrefix(v, NUL, |r|);
    NoStop(r, NUL);
  }

  lemma NameIsCanonical(start: string, name: string)
    requires Plain(start) && Trimmed(start) && NoComment(start) && (start != [] ==> start[0] != '[')
    requires name <= start && |name| <= Stop(start, '=') && (name == [] || !IsSpace(name[|name| - 1]))
    ensures Plain(name) && Trimmed(name) && NoComment(name) && (name != [] ==> name[0] != '[')
    ensures '=' !in name && Uncommented(name)
  {
    hide Stop, IsSpace;
    assert name == start[..|name|];
    StopOfPrefix(start, '=', |name|);
    NoStop(name, '=');
  }

  lemma PairIsCanonical(start: string, prev: string)
    requires Plain(start) && Trimmed(start) && NoComment(start) && (start != [] ==> start[0] != '[')
    requires |start| < 200
    ensures PairLine(start).Seen? ==> Canonical(PairLine(start).e, prev)
  {
    hide NameEnd, Value, RStripped, Stop, IsSpace, Plain, Trimmed, NoComment, Uncommented;
    var end := NameEnd(start);
    if end < |start| && (start[end] == '=' || start[end] == ':') {
      var name := RStripped(start[..end]);
      assert name <= start;
      NameEndsInTime(start);
      NameIsCanonical(start, name);
      PlainTail(start, end + 1);
      ValueIsCanonical(start[end + 1..]);
    }
  }

  lemma PlainTail(s: string, n: nat)
    requires Plain(s) && n <= |s|
    ensures Plain(s[n..])
  {
  }

  lemma LineIsCanonical(line: string, prev: string)
    requires IsChunk(line)
    ensures Line(line, prev).Seen? ==> Canonical(Line(line, prev).e, prev)
  {
    hide RStripped, LSkipped, HeaderLine, PairLine;
    var t := RStripped(line);
    var start := LSkipped(t);
    StripIsPlain(line);
    if start != [] && NoComment(start) {
      if start[0] == '[' {
        HeaderIsCanonical(start, prev);
      } else {
        PairIsCanonical(start, prev);
      }
    }
  }

  // ----- Canonical lines mean what they were printed from ----------------------------------

  function Render(e: Event): string {
    match e
    case Section(name) => "[" + name + "]"
    case Pair(name, value) => name + "=" + value
    case More(text) => " " + text
  }

  lemma HeaderReads(name: string, prev: string)
    requires Canonical(Section(name), prev)
    ensures HeaderLine("[" + name + "]") == Seen(Section(name))
  {
    var rest := ("[" + name + "]")[1..];
    assert rest == name + "]";
    NoStop(name, ']');
    forall j | 0 <= j < |name| ensures !StopsAt(rest, ']', j) { assert !StopsAt(name, ']', j); }
    StopIs(rest, ']', |name|);
    assert rest[..|name|] == name && Short(name) == name;
  }

  lemma ValueReads(value: string)
    requires Trimmed(value) && NUL !in value && Uncommented(value)
    ensures Value(value) == value
  {
    NoStop(value, NUL);
    LSkippedIs(value, 0);
    assert value[0..] == value && value[..|value|] == value;
    RStrippedIs(value, |value|);
  }

  lemma NameEndsAtEquals(name: string, value: string)
    requires '=' !in name && Uncommented(name)
    ensures NameEnd(name + "=" + value) == |name|
  {
    NoStop(name, '=');
    var line := name + "=" + value;
    forall j | 0 <= j < |name| ensures !StopsAt(line, '=', j) { assert !StopsAt(name, '=', j); }
    assert line[|name|] == '=';
    StopIs(line, '=', |name|);
  }

  lemma PairReads(name: string, value: string, prev: string)
    requires Canonical(Pair(name, value), prev)
    ensures PairLine(name + "=" + value) == Seen(Pair(name, value))
  {
    hide NameEnd, Value, RStripped, Stop;
    var line := name + "=" + value;
    NameEndsAtEquals(name, value);
    assert line[..|name|] == name && line[|name| + 1..] == value && line[|name|] == '=';
    NameIsStripped(name);
    ValueReads(value);
  }

  lemma NameIsStripped(name: string)
    requires Trimmed(name)
    ensures RStripped(name) == name
  {
    RStrippedIs(name, |name|);
    assert name[..|name|] == name;
  }

  /** What is left after stripping decides the line. */
  lemma LineOf(line: string, prev: string, t: string, start: string)
    requires RStripped(line) == t && LSkipped(t) == start && start != [] && NoComment(start)
    ensures Line(line, prev) ==
            if prev != [] && |start| < |t| then Seen(More(start))
            else if start[0] == '[' then HeaderLine(start)
            else PairLine(start)
  {
  }

  lemma UnindentedReads(line: string, prev: string)
    requires line != [] && Trimmed(line) && NoComment(line)
    ensures var o := if line[0] == '[' then HeaderLine(line) else PairLine(line);
            Line(line, prev) == o && Line(line + "\n", prev) == o
  {
    LSkippedIs(line, 0);
    assert line[0..] == line;
    LineOf(line, prev, line, line);
    LineOf(line + "\n", prev, line, line);
  }

  lemma IndentedReads(text: string, prev: string)
    requires Canonical(More(text), prev)
    ensures Line(" " + text, prev) == Line(" " + text + "\n", prev) == Seen(More(text))
  {
    var line := " " + text;
    LSkippedIs(line, 1);
    assert line[1..] == text;
    LineOf(line, prev, line, text);
    LineOf(line + "\n", prev, line, text);
  }

  lemma CanonicalReads(e: Event, prev: string)
    requires Canonical(e, prev)
    ensures Line(Render(e), prev) == Line(Render(e) + "\n", prev) == Seen(e)
    ensures Plain(Render(e)) && 0 < |Render(e)| < 200
  {
    hide Line, HeaderLine, PairLine;
    match e
    case Section(name) =>
      HeaderReads(name, prev);
      UnindentedReads(Render(e), prev);
    case Pair(name, value) =>
      PairReads(name, value, prev);
      UnindentedReads(Render(e), prev);
    case More(text) =>
      IndentedReads(text, prev);
  }

  // ----- Whole files -----------------------------------------------------------------------

  function EventsOf(os: seq<Outcome>): seq<Event> {
    if os == [] then [] else (if os[0].Seen? then [os[0].e] else []) + EventsOf(os[1..])
  }

  function RenderAll(es: seq<Event>): string {
    if es == [] then "" else Render(es[0]) + "\n" + RenderAll(es[1..])
  }

  predicate AllCanonical(es: seq<Event>, prev: string) {
    es != [] ==> Canonical(es[0], prev) && AllCanonical(es[1..], NextPrev(prev, Seen(es[0])))
  }

  lemma {:induction false} LinesAreCanonical(chunks: seq<string>, prev: string)
    requires forall c :: c in chunks ==> IsChunk(c)
    ensures AllCanonical(EventsOf(Outcomes(chunks, prev)), prev)
  {
    hide Line, Canonical, IsChunk;
    if chunks == [] {
    } else {
      var o := Line(chunks[0], prev);
      LineIsCanonical(chunks[0], prev);
      LinesAreCanonical(chunks[1..], NextPrev(prev, o));
      var os := Outcomes(chunks, prev);
      assert os[0] == o && os[1..] == Outcomes(chunks[1..], NextPrev(prev, o));
      var es := EventsOf(os[1..]);
      if o.Seen? {
        assert EventsOf(os)[1..] == es;
      } else {
        assert EventsOf(os) == es;
      }
    }
  }

  lemma {:induction false} TakenStops(text: string, i: nat)
    requires i <= |text| && i < MAX_LINE
    ensures var n := Taken(text, i); forall j :: i <= j < n - 1 ==> text[j] != '\n'
    decreases MAX_LINE - i
  {
    if i < |text| && i < MAX_LINE - 1 && text[i] != '\n' { TakenStops(text, i + 1); }
  }

  lemma {:induction false} ChunksAreChunks(text: string)
    ensures forall c :: c in Chunks(text) ==> IsChunk(c)
  {
    if text == [] {
    } else {
      var n := Taken(text, 0);
      TakenStops(text, 0);
      ChunksAreChunks(text[n..]);
      var c := Until(text[..n], NUL);
      forall i | 0 <= i < |c| - 1 ensures c[i] != '\n' { assert c[i] == text[i]; }
    }
  }

  /** One fgets takes exactly the line and its line feed, or all 199 characters that fit. */
  lemma {:induction false} TakesLine(line: string, rest: string, i: nat)
    requires Plain(line) && i <= |line| < MAX_LINE
    ensures Taken(line + "\n" + rest, i) == if |line| < MAX_LINE - 1 then |line| + 1 else |line|
    decreases |line| - i
  {
    var text := line + "\n" + rest;
    if i < |line| {
      assert text[i] == line[i];
      TakesLine(line, rest, i + 1);
    } else {
      assert text[i] == '\n';
    }
  }

  lemma ChunkOff(first: string, rest: string)
    requires first != [] && NUL !in first && Taken(first + rest, 0) == |first|
    ensures Chunks(first + rest) == [first] + Chunks(rest)
  {
    hide Taken;
    var text := first + rest;
    assert text[..|first|] == first && text[|first|..] == rest;
    UntilIs(first, NUL, |first|);
    assert first[..|first|] == first;
  }

  lemma ChunksOfLine(line: string, rest: string)
    requires Plain(line) && |line| < 200
    ensures Chunks(line + "\n" + rest) ==
            if |line| < 199 then [line + "\n"] + Chunks(rest) else [line] + (["\n"] + Chunks(rest))
  {
    hide Taken, Chunks;
    TakesLine(line, rest, 0);
    if |line| < 199 {
      ChunkOff(line + "\n", rest);
    } else {
      TakesLine("", rest, 0);
      assert "" + "\n" == "\n";
      ChunkOff("\n", rest);
      assert line + "\n" + rest == line + ("\n" + rest);
      ChunkOff(line, "\n" + rest);
    }
  }

  lemma BlankIsNothing(prev: string)
    ensures Line("\n", prev) == Nothing
  {
    RStrippedIs("\n", 0);
  }

  /** Canonical events, printed and parsed, come back. */
  lemma {:induction false} Reparse(es: seq<Event>, prev: string)
    requires AllCanonical(es, prev)
    ensures var os := Outcomes(Chunks(RenderAll(es)), prev);
            EventsOf(os) == es && Malformed !in os
  {
    hide Line, Canonical, Render, Chunks, Plain, NextPrev;
    if es == [] {
      NoChunks();
    } else {
      var line, rest := Render(es[0]), RenderAll(es[1..]);
      var o := Seen(es[0]);
      var next := NextPrev(prev, o);
      CanonicalReads(es[0], prev);
      Reparse(es[1..], next);
      ChunksOfLine(line, rest);
      if |line| < 199 {
        OneMore(line + "\n", Chunks(rest), prev, o);
      } else {
        BlankIsNothing(next);
        NextOfNothing(next);
        OneMore("\n", Chunks(rest), next, Nothing);
        OneMore(line, ["\n"] + Chunks(rest), prev, o);
      }
    }
  }

  lemma NoChunks()
    ensures Chunks("") == []
  {
  }

  lemma NextOfNothing(prev: string)
    ensures NextPrev(prev, Nothing) == prev
  {
  }

  lemma OneMore(line: string, chunks: seq<string>, prev: string, o: Outcome)
    requires Line(line, prev) == o
    ensures Outcomes([line] + chunks, prev) == [o] + Outcomes(chunks, NextPrev(prev, o))
    ensures EventsOf(Outcomes([line] + chunks, prev)) ==
            (if o.Seen? then [o.e] else []) + EventsOf(Outcomes(chunks, NextPrev(prev, o)))
  {
    hide Line, NextPrev;
    assert ([line] + chunks)[1..] == chunks;
    var os := Outcomes(chunks, NextPrev(prev, o));
    assert ([o] + os)[1..] == os;
  }

  // ----- The call sequence -----------------------------------------------------------------

  /** Nothing but the events decides which calls the handler gets. */
  lemma {:induction false} EventsDecideState(os: seq<Outcome>)
    ensures var seen := seq(|EventsOf(os)|, i requires 0 <= i < |EventsOf(os)| => Seen(EventsOf(os)[i]));
            CallsOf(os) == CallsOf(seen) && SectionAfter(os) == SectionAfter(seen) && PrevAfter(os) == PrevAfter(seen)
  {
    hide CallOf, NextSection, NextPrev;
    var seen := seq(|EventsOf(os)|, i requires 0 <= i < |EventsOf(os)| => Seen(EventsOf(os)[i]));
    if os == [] {
    } else {
      var front, last := os[..|os| - 1], os[|os| - 1];
      EventsDecideState(front);
      EventsOfSnoc(os);
      var before := seq(|EventsOf(front)|, i requires 0 <= i < |EventsOf(front)| => Seen(EventsOf(front)[i]));
      if last.Seen? {
        assert seen[..|seen| - 1] == before && seen[|seen| - 1] == last;
      } else {
        assert seen == before;
        UnseenChangesNothing(SectionAfter(front), PrevAfter(front), last);
      }
    }
  }

  lemma UnseenChangesNothing(section: string, prev: string, o: Outcome)
    requires !o.Seen?
    ensures NextSection(section, o) == section && NextPrev(prev, o) == prev && CallOf(section, prev, o) == []
  {
  }

  lemma {:induction false} EventsOfBoth(a: seq<Outcome>, b: seq<Outcome>)
    ensures EventsOf(a + b) == EventsOf(a) + EventsOf(b)
  {
    if a == [] {
      assert a + b == b;
      assert EventsOf(a) == [];
    } else {
      hide EventsOf;
      var o, rest := a[0], a[1..];
      assert a == [o] + rest && a + b == [o] + (rest + b);
      EventsOfBoth(rest, b);
    }
  }

  lemma EventsOfSnoc(os: seq<Outcome>)
    requires os != []
    ensures var last := os[|os| - 1];
            EventsOf(os) == EventsOf(os[..|os| - 1]) + if last.Seen? then [last.e] else []
  {
    var front, last := os[..|os| - 1], os[|os| - 1];
    assert os == front + [last];
    EventsOfBoth(front, [last]);
    assert [last] + [] == [last] && EventsOf([]) == [];
  }

  /** Whatever the text, printing what was seen in it and parsing the print sees the same events
      again, makes the same calls, and reports no malformed line. */
  lemma RoundTrip(text: string)
    ensures var os := Outcomes(Chunks(text), "");
            var again := Outcomes(Chunks(RenderAll(EventsOf(os))), "");
            EventsOf(again) == EventsOf(os) && CallsOf(again) == CallsOf(os) && Malformed !in again
  {
    hide Chunks, Outcomes, RenderAll, CallsOf, SectionAfter, PrevAfter, AllCanonical, IsChunk, EventsOf;
    var chunks := Chunks(text);
    ChunksAreChunks(text);
    LinesAreCanonical(chunks, "");
    var os := Outcomes(chunks, "");
    Reparse(EventsOf(os), "");
    EventsDecideState(os);
    EventsDecideState(Outcomes(Chunks(RenderAll(EventsOf(os))), ""));
  }

  /** The section of a call is the name of the last well-formed header before it. */
  lemma {:induction false} SectionIsTheLatest(os: seq<Outcome>, i: int)
    requires -1 <= i < |os| && (i >= 0 ==> os[i].Seen? && os[i].e.Section?)
    requires forall j :: i < j < |os| && os[j].Seen? ==> !os[j].e.Section?
    ensures SectionAfter(os) == if i < 0 then "" else os[i].e.name
  {
    if i < |os| - 1 {
      SectionIsTheLatest(os[..|os| - 1], i);
    }
  }

  /** The name an indented line continues is that of the last pair since the last header. */
  lemma {:induction false} PrevIsTheLatest(os: seq<Outcome>, i: int)
    requires -1 <= i < |os| && (i >= 0 ==> os[i].Seen? && !os[i].e.More?)
    requires forall j :: i < j < |os| && os[j].Seen? ==> os[j].e.More?
    ensures PrevAfter(os) == if i < 0 || os[i].e.Section? then "" else Short(os[i].e.name)
  {
    if i < |os| - 1 {
      PrevIsTheLatest(os[..|os| - 1], i);
    }
  }

  /** The result is 0 when no chunk is bad, and else the number of the least bad one. */
  lemma {:induction false} FirstErrorIsLeast(os: seq<Outcome>, h: Handler)
    ensures var r := FirstError(os, h);
            && (r == 0 ==> forall i :: 0 <= i < |os| ==> !Bad(os, h, i))
            && (r > 0 ==> Bad(os, h, r - 1) && forall i :: 0 <= i < r - 1 ==> !Bad(os, h, i))
  {
    hide Bad, CallsOf;
    if os == [] {
    } else {
      var n := |os| - 1;
      var front := os[..n];
      FirstErrorIsLeast(front, h);
      forall i: nat | i < n ensures Bad(front, h, i) == Bad(os, h, i) { BadOfPrefix(os, h, n, i); }
    }
  }

  lemma BadOfPrefix(os: seq<Outcome>, h: Handler, n: nat, i: nat)
    requires i < n <= |os|
    ensures Bad(os[..n], h, i) == Bad(os, h, i)
  {
    assert os[..n][..i + 1] == os[..i + 1] && os[..n][..i] == os[..i];
  }
}
