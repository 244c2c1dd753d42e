/** The INI parser of inilib/ini.c: what each line of input means, and the call sequence and error
    number of a whole file. */
module Ini {
  import opened Common
  import opened CStrings

  const MAX_LINE := 200
  const MAX_NAME := 50  // and MAX_SECTION

  predicate IsSpace(c: char) {
    c == ' ' || c == '\t' || c == '\n' || c == '\r' || c == 11 as char || c == 12 as char
  }

  // ----- Trimming and finding --------------------------------------------------------------

  /** The string without the white space at its end: what is left ends in something else. */
  function RStripped(s: string): (r: string)
    ensures r <= s && (forall i :: |r| <= i < |s| ==> IsSpace(s[i]))
    ensures r == [] || !IsSpace(r[|r| - 1])
  {
    if s != [] && IsSpace(s[|s| - 1]) then RStripped(s[..|s| - 1]) else s
  }

  /** The string without the white space at its beginning. */
  function LSkipped(s: string): (r: string)
    ensures |r| <= |s| && r == s[|s| - |r|..] && (forall i :: 0 <= i < |s| - |r| ==> IsSpace(s[i]))
    ensures r == [] || !IsSpace(r[0])
  {
    if s != [] && IsSpace(s[0]) then LSkipped(s[1..]) else s
  }

  /** A semicolon after white space starts a comment; at the very start of s it does not. */
  predicate CommentAt(s: string, i: nat)
    requires i < |s|
  {
    i > 0 && IsSpace(s[i - 1]) && s[i] == ';'
  }

  predicate StopsAt(s: string, c: char, i: nat)
    requires i < |s|
  {
    s[i] == c || CommentAt(s, i)
  }

  /** The first c or comment at or after i, or the end. */
  function StopFrom(s: string, c: char, i: nat): (r: nat)
    requires i <= |s|
    ensures i <= r <= |s|
    ensures r < |s| ==> StopsAt(s, c, r)
    ensures forall j :: i <= j < r ==> !StopsAt(s, c, j)
    decreases |s| - i
  {
    if i == |s| || StopsAt(s, c, i) then i else StopFrom(s, c, i + 1)
  }

  function Stop(s: string, c: char): (r: nat)
    ensures r <= |s|
  {
    StopFrom(s, c, 0)
  }

  // ----- Lines -----------------------------------------------------------------------------

  datatype Event =
    | Section(name: string)
    | Pair(name: string, value: string)
    | More(text: string)

  datatype Outcome = Nothing | Malformed | Seen(e: Event)

  /** strncpy0 into a buffer of MAX_NAME characters. */
  function Short(s: string): string {
    s[..Min(|s|, MAX_NAME - 1)]
  }

  function HeaderLine(start: string): Outcome
    requires start != []
  {
    var rest := start[1..];
    var end := Stop(rest, ']');
    if end < |rest| && rest[end] == ']' then Seen(Section(Short(rest[..end]))) else Malformed
  }

  /** Where the name ends: at the first '=', or if there is none before a comment, the first ':'. */
  function NameEnd(start: string): (r: nat)
    ensures r <= |start|
  {
    var end := Stop(start, '=');
    if end < |start| && start[end] == '=' then end else Stop(start, ':')
  }

  function Value(s: string): string {
    var v := LSkipped(s);
    RStripped(v[..Stop(v, NUL)])
  }

  function PairLine(start: string): Outcome {
    var end := NameEnd(start);
    if end < |start| && (start[end] == '=' || start[end] == ':') then
      Seen(Pair(RStripped(start[..end]), Value(start[end + 1..])))
    else Malformed
  }

  /** One line, given the name an indented line would continue. */
  function Line(line: string, prev: string): Outcome {
    var t := RStripped(line);
    var start := LSkipped(t);
    if start == [] || start[0] == ';' || start[0] == '#' then Nothing
    else if prev != [] && |start| < |t| then Seen(More(start))
    else if start[0] == '[' then HeaderLine(start)
    else PairLine(start)
  }

  function NextPrev(prev: string, o: Outcome): string {
    match o
    case Seen(Section(_)) => ""
    case Seen(Pair(name, _)) => Short(name)
    case _ => prev
  }

  function NextSection(section: string, o: Outcome): string {
    match o
    case Seen(Section(name)) => name
    case _ => section
  }

  // ----- Files -----------------------------------------------------------------------------

  /** How many characters one fgets takes: through the end of line, or all that fits. */
  function Taken(text: string, i: nat): (r: nat)
    requires i <= |text| && i < MAX_LINE
    ensures i <= r <= |text| && r < MAX_LINE
    ensures text != [] && i == 0 ==> r > 0
    decreases MAX_LINE - i
  {
    if i == |text| || i == MAX_LINE - 1 then i
    else if text[i] == '\n' then i + 1
    else Taken(text, i + 1)
  }

  function Chunks(text: string): seq<string> {
    if text == [] then []
    else
      var n := Taken(text, 0);
      [Until(text[..n], NUL)] + Chunks(text[n..])
  }

  function Outcomes(chunks: seq<string>, prev: string): seq<Outcome> {
    if chunks == [] then []
    else
      var o := Line(chunks[0], prev);
      [o] + Outcomes(chunks[1..], NextPrev(prev, o))
  }

  datatype Call = Call(section: string, name: string, value: string)

  /** The handler's answer to its latest call may depend on everything it was called with. */
  type Handler = seq<Call> -> bool

  function CallOf(section: string, prev: string, o: Outcome): seq<Call> {
    match o
    case Seen(Pair(name, value)) => [Call(section, name, value)]
    case Seen(More(text)) => [Call(section, prev, text)]
    case _ => []
  }

  function SectionAfter(os: seq<Outcome>): string {
    if os == [] then "" else NextSection(SectionAfter(os[..|os| - 1]), os[|os| - 1])
  }

  function PrevAfter(os: seq<Outcome>): string {
    if os == [] then "" else NextPrev(PrevAfter(os[..|os| - 1]), os[|os| - 1])
  }

  function CallsOf(os: seq<Outcome>): seq<Call> {
    if os == [] then []
    else
      var front := os[..|os| - 1];
      CallsOf(front) + CallOf(SectionAfter(front), PrevAfter(front), os[|os| - 1])
  }

  /** The i-th chunk is malformed, or its call was rejected. */
  predicate Bad(os: seq<Outcome>, h: Handler, i: nat)
    requires i < |os|
  {
    os[i].Malformed? || (CallsOf(os[..i + 1]) != CallsOf(os[..i]) && !h(CallsOf(os[..i + 1])))
  }

  /** The number of the first bad chunk, or 0. */
  function FirstError(os: seq<Outcome>, h: Handler): (r: nat)
    ensures r <= |os|
  {
    if os == [] then 0
    else
      var n := |os| - 1;
      var r := FirstError(os[..n], h);
      if r != 0 then r else if Bad(os, h, n) then n + 1 else 0
  }
}
