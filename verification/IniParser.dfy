/** The in-place INI parser, proved against the meaning of a file given in Ini. Strings are read and
    cut inside the line buffer, as C does, by storing terminators. */
module IniParser {
  import opened Common
  import opened CStrings
  import opened Ini

  // ----- Scanning and trimming -------------------------------------------------------------

  method RStrip(a: array<char>, s: nat, ghost t: string)
    requires Holds(a, s, t)
    modifies a
    ensures Holds(a, s, RStripped(t))
    ensures forall k: nat :: k < a.Length && !(s + |RStripped(t)| <= k < s + |t|) ==> a[k] == old(a[k])
  {
    hide RStripped, IsSpace;
    var n := StrLen(a, s, t);
    assert t[..n] == t;
    while n > 0 && IsSpace(a[s + n - 1])
      invariant n <= |t| && RStripped(t[..n]) == RStripped(t)
      invariant forall k: nat :: k < a.Length && !(s + n <= k < s + |t|) ==> a[k] == old(a[k])
      invariant a[s + n] == NUL
      invariant forall k: nat :: k < n ==> a[s + k] == t[k] && t[k] != NUL
      invariant n > 0 ==> a[s + n - 1] == t[n - 1]
    {
      n := n - 1;
      a[s + n] := NUL;
    }
  }

  lemma SkipsOne(t: string, n: nat)
    requires n <= |t|
    ensures LSkipped(t[n..]) == if n < |t| && IsSpace(t[n]) then LSkipped(t[n + 1..]) else t[n..]
  {
    if n < |t| { assert t[n..][1..] == t[n + 1..]; }
  }

  lemma Tail(a: array<char>, s: nat, t: string, n: nat)
    requires Holds(a, s, t) && n <= |t|
    ensures Holds(a, s + n, t[n..])
  {
    var rest, from := t[n..], s + n;
    forall k: nat | k < |rest| ensures a[from + k] == rest[k] && rest[k] != NUL {
      assert a[s + (n + k)] == t[n + k];
    }
  }

  method LSkip(a: array<char>, s: nat, ghost t: string) returns (p: nat)
    requires Holds(a, s, t)
    ensures p == s + |t| - |LSkipped(t)| && Holds(a, p, LSkipped(t))
  {
    hide LSkipped, IsSpace, Holds;
    ghost var n: nat := 0;
    p := s;
    assert t[0..] == t;
    ReadAt(a, s, t, 0);
    while a[p] != NUL && IsSpace(a[p])
      invariant p == s + n && n <= |t| && LSkipped(t[n..]) == LSkipped(t)
      invariant p < a.Length && (a[p] == NUL <==> n == |t|) && (n < |t| ==> a[p] == t[n])
      decreases |t| - n
    {
      SkipsOne(t, n);
      n := n + 1;
      p := p + 1;
      ReadAt(a, s, t, n);
    }
    SkipsOne(t, n);
    Tail(a, s, t, n);
  }

  method FindCharOrComment(a: array<char>, s: nat, c: char, ghost t: string) returns (p: nat)
    requires Holds(a, s, t)
    ensures p == s + Stop(t, c)
    ensures a[p] == if Stop(t, c) < |t| then t[Stop(t, c)] else NUL
  {
    hide Holds;
    ghost var n: nat := 0;
    p := s;
    var wasWhitespace := false;
    ReadAt(a, s, t, 0);
    while a[p] != NUL && a[p] != c && !(wasWhitespace && a[p] == ';')
      invariant p == s + n && n <= |t| && Stop(t, c) == StopFrom(t, c, n)
      invariant p < a.Length && a[p] == if n < |t| then t[n] else NUL
      invariant a[p] == NUL <==> n == |t|
      invariant wasWhitespace == (n > 0 && IsSpace(t[n - 1]))
      decreases |t| - n
    {
      wasWhitespace := IsSpace(a[p]);
      n := n + 1;
      p := p + 1;
      ReadAt(a, s, t, n);
    }
  }

  /** strncpy, which copies what fits and fills up with terminators, and then one terminator more. */
  method StrNCpy0(dest: array<char>, a: array<char>, s: nat, ghost t: string)
    requires dest != a && dest.Length > 0 && Holds(a, s, t)
    modifies dest
    ensures Holds(dest, 0, t[..Min(|t|, dest.Length - 1)])
  {
    var i: nat := 0;
    ReadAt(a, s, t, 0);
    while i < dest.Length && a[s + i] != NUL
      invariant i <= dest.Length && i <= |t| && Holds(a, s, t)
      invariant a[s + i] == NUL <==> i == |t|
      invariant forall k: nat :: k < i ==> dest[k] == t[k]
      decreases dest.Length - i
    {
      dest[i] := a[s + i];
      i := i + 1;
      ReadAt(a, s, t, i);
    }
    ghost var n := i;
    while i < dest.Length
      invariant n <= i <= dest.Length
      invariant forall k: nat :: k < n ==> dest[k] == t[k]
      invariant forall k: nat :: n <= k < i ==> dest[k] == NUL
    {
      dest[i] := NUL;
      i := i + 1;
    }
    dest[dest.Length - 1] := NUL;
  }

  /** fgets: through the end of line or until the buffer is full, and a terminator. */
  method FGets(line: array<char>, text: string) returns (n: nat)
    requires line.Length == MAX_LINE && text != []
    modifies line
    ensures n == Taken(text, 0) && Holds(line, 0, Until(text[..n], NUL))
  {
    n := 0;
    var ended := false;
    while n < |text| && n < MAX_LINE - 1 && !ended
      invariant n <= |text| && n < MAX_LINE
      invariant if ended then Taken(text, 0) == n else Taken(text, 0) == Taken(text, n)
      invariant forall k: nat :: k < n ==> line[k] == text[k]
    {
      line[n] := text[n];
      ended := text[n] == '\n';
      n := n + 1;
    }
    line[n] := NUL;
  }

  // ----- One line --------------------------------------------------------------------------

  method ParseHeader(line: array<char>, start: nat, section: array<char>, prevName: array<char>, ghost t: string)
    returns (ok: bool)
    requires Holds(line, start, t) && t != [] && t[0] == '['
    requires line != section && line != prevName && section != prevName
    requires section.Length == prevName.Length == MAX_NAME
    modifies line, section, prevName
    ensures ok == HeaderLine(t).Seen? && ok == !HeaderLine(t).Malformed?
    ensures ok ==> Holds(section, 0, HeaderLine(t).e.name) && Holds(prevName, 0, "")
    ensures !ok ==> section[..] == old(section[..]) && prevName[..] == old(prevName[..])
  {
    hide Stop;
    ghost var rest := t[1..];
    assert Holds(line, start + 1, rest) by {
      assert forall k: nat :: k < |rest| ==> line[start + 1 + k] == line[start + (1 + k)] == t[1 + k] == rest[k];
    }
    var end := FindCharOrComment(line, start + 1, ']', rest);
    ok := line[end] == ']';
    if ok {
      line[end] := NUL;
      StrNCpy0(section, line, start + 1, rest[..Stop(rest, ']')]);
      prevName[0] := NUL;
    }
  }

  /** Finds the end of the name, if there is one. */
  method FindNameEnd(line: array<char>, start: nat, ghost t: string) returns (end: nat)
    requires Holds(line, start, t)
    ensures end == start + NameEnd(t)
    ensures line[end] == if NameEnd(t) < |t| then t[NameEnd(t)] else NUL
  {
    hide Stop;
    end := FindCharOrComment(line, start, '=', t);
    if line[end] != '=' {
      end := FindCharOrComment(line, start, ':', t);
    }
  }

  lemma CutsAtComment(v: string)
    ensures Stop(v, NUL) < |v| && NUL !in v ==> v[Stop(v, NUL)] == ';'
  {
  }

  /** Skips to the value, cuts its comment off, and strips what is left. */
  method TrimValue(line: array<char>, s: nat, ghost t: string) returns (value: nat)
    requires Holds(line, s, t)
    modifies line
    ensures value >= s && Holds(line, value, Value(t))
    ensures forall k: nat :: k < s ==> line[k] == old(line[k])
  {
    hide Stop, RStripped, LSkipped;
    value := LSkip(line, s, t);
    ghost var v := LSkipped(t);
    var end := FindCharOrComment(line, value, NUL, v);
    assert NUL !in v;
    CutsAtComment(v);
    if line[end] == ';' {
      line[end] := NUL;
    }
    assert Holds(line, value, v[..Stop(v, NUL)]);
    RStrip(line, value, v[..Stop(v, NUL)]);
  }

  method ParsePair(line: array<char>, start: nat, prevName: array<char>, ghost t: string)
    returns (ok: bool, value: nat)
    requires Holds(line, start, t) && line != prevName && prevName.Length == MAX_NAME
    modifies line, prevName
    ensures ok == PairLine(t).Seen? && ok == !PairLine(t).Malformed?
    ensures ok ==> Holds(line, start, PairLine(t).e.name) && Holds(line, value, PairLine(t).e.value)
    ensures ok ==> Holds(prevName, 0, Short(PairLine(t).e.name))
    ensures !ok ==> prevName[..] == old(prevName[..])
  {
    hide NameEnd, RStripped, Value;
    var end := FindNameEnd(line, start, t);
    ok, value := line[end] == '=' || line[end] == ':', start;
    if ok {
      ghost var n := NameEnd(t);
      line[end] := NUL;
      ghost var cut := line[..];
      RStrip(line, start, t[..n]);
      ghost var name := RStripped(t[..n]);
      value := TrimValue(line, end + 1, t[n + 1..]);
      assert Holds(line, start, name);
      StrNCpy0(prevName, line, start, name);
    }
  }

  /** What is left of a line after stripping, and whether it was indented. */
  method Strip(line: array<char>, ghost t: string) returns (start: nat)
    requires Holds(line, 0, t)
    modifies line
    ensures Holds(line, start, LSkipped(RStripped(t)))
    ensures start == |RStripped(t)| - |LSkipped(RStripped(t))|
  {
    hide RStripped, LSkipped;
    RStrip(line, 0, t);
    start := LSkip(line, 0, RStripped(t));
  }

  /** What the handler is shown: three C strings. */
  method Shown(section: array<char>, names: array<char>, name: nat, line: array<char>, value: nat,
               ghost s: string, ghost n: string, ghost v: string) returns (call: Call)
    requires Holds(section, 0, s) && Holds(names, name, n) && Holds(line, value, v)
    ensures call == Call(s, n, v)
  {
    var section' := Text(section, 0, s);
    var name' := Text(names, name, n);
    var value' := Text(line, value, v);
    call := Call(section', name', value');
  }

  predicate Apart(line: array<char>, section: array<char>, prevName: array<char>) {
    && line != section && line != prevName && section != prevName
    && section.Length == prevName.Length == MAX_NAME
  }

  lemma KindsOfLines(t: string)
    requires t != []
    ensures HeaderLine(t).Seen? ==> HeaderLine(t).e.Section?
    ensures PairLine(t).Seen? ==> PairLine(t).e.Pair?
  {
  }

  /** The lines that are neither blank, nor comments, nor continuations. */
  method ParseStart(line: array<char>, start: nat, section: array<char>, prevName: array<char>,
                    ghost t: string, ghost s: string, ghost p: string) returns (ok: bool, calls: seq<Call>)
    requires Apart(line, section, prevName)
    requires Holds(line, start, t) && t != [] && Holds(section, 0, s) && Holds(prevName, 0, p)
    modifies line, section, prevName
    ensures var o := if t[0] == '[' then HeaderLine(t) else PairLine(t);
            && ok == !o.Malformed? && calls == CallOf(s, p, o)
            && Holds(section, 0, NextSection(s, o)) && Holds(prevName, 0, NextPrev(p, o))
  {
    hide HeaderLine, PairLine;
    KindsOfLines(t);
    calls := [];
    if line[start] == '[' {
      ok := ParseHeader(line, start, section, prevName, t);
    } else {
      var value;
      ok, value := ParsePair(line, start, prevName, t);
      if ok {
        ghost var e := PairLine(t).e;
        var call := Shown(section, line, start, line, value, s, e.name, e.value);
        calls := [call];
      }
    }
  }

  method ParseLine(line: array<char>, section: array<char>, prevName: array<char>,
                   ghost t: string, ghost s: string, ghost p: string) returns (ok: bool, calls: seq<Call>)
    requires Apart(line, section, prevName)
    requires Holds(line, 0, t) && Holds(section, 0, s) && Holds(prevName, 0, p)
    modifies line, section, prevName
    ensures var o := Line(t, p);
            && ok == !o.Malformed? && calls == CallOf(s, p, o)
            && Holds(section, 0, NextSection(s, o)) && Holds(prevName, 0, NextPrev(p, o))
  {
    hide RStripped, LSkipped, HeaderLine, PairLine;
    var start := Strip(line, t);
    ghost var u := LSkipped(RStripped(t));
    ReadAt(line, start, u, 0);
    ReadAt(prevName, 0, p, 0);
    ok, calls := true, [];
    if line[start] == ';' || line[start] == '#' {
    } else if prevName[0] != NUL && line[start] != NUL && start > 0 {
      var call := Shown(section, prevName, 0, line, start, s, p, u);
      calls := [call];
    } else if line[start] != NUL {
      ok, calls := ParseStart(line, start, section, prevName, u, s, p);
    }
  }

  // ----- The whole file --------------------------------------------------------------------

  lemma OneMoreOutcome(os: seq<Outcome>, o: Outcome, h: Handler)
    ensures SectionAfter(os + [o]) == NextSection(SectionAfter(os), o)
    ensures PrevAfter(os + [o]) == NextPrev(PrevAfter(os), o)
    ensures CallsOf(os + [o]) == CallsOf(os) + CallOf(SectionAfter(os), PrevAfter(os), o)
    ensures FirstError(os + [o], h) ==
            if FirstError(os, h) != 0 then FirstError(os, h)
            else if o.Malformed? || (CallsOf(os + [o]) != CallsOf(os) && !h(CallsOf(os + [o]))) then |os| + 1
            else 0
  {
    hide CallOf, NextSection, NextPrev;
    var all := os + [o];
    assert all[..|os|] == os && all[..|os| + 1] == all;
  }

  lemma OneMoreChunk(text: string, os: seq<Outcome>, prev: string)
    requires text != []
    ensures var n := Taken(text, 0);
            var o := Line(Until(text[..n], NUL), prev);
            os + Outcomes(Chunks(text), prev) == os + [o] + Outcomes(Chunks(text[n..]), NextPrev(prev, o))
  {
    hide Line, Taken, NextPrev;
    var n := Taken(text, 0);
    var chunk := Until(text[..n], NUL);
    assert Chunks(text)[1..] == Chunks(text[n..]);
  }

  /** ini_parse_file: the calls made, and the number returned. */
  method ParseFile(text: string, h: Handler) returns (error: nat, calls: seq<Call>)
    ensures var os := Outcomes(Chunks(text), "");
            calls == CallsOf(os) && error == FirstError(os, h)
  {
    hide Line, CallOf, CallsOf, FirstError, NextPrev, NextSection, Chunks, Outcomes, Taken;
    var line := new char[MAX_LINE];
    var section := new char[MAX_NAME];
    var prevName := new char[MAX_NAME];
    section[0] := NUL;
    prevName[0] := NUL;
    var lineno := 0;
    error, calls := 0, [];
    var rest := text;
    ghost var os: seq<Outcome> := [];
    NothingYet(h);
    assert os + Outcomes(Chunks(text), "") == Outcomes(Chunks(text), "");
    while rest != []
      invariant lineno == |os| && os + Outcomes(Chunks(rest), PrevAfter(os)) == Outcomes(Chunks(text), "")
      invariant Holds(section, 0, SectionAfter(os)) && Holds(prevName, 0, PrevAfter(os))
      invariant calls == CallsOf(os) && error == FirstError(os, h)
      decreases |rest|
    {
      ghost var s, p := SectionAfter(os), PrevAfter(os);
      var n := FGets(line, rest);
      lineno := lineno + 1;
      ghost var t := Until(rest[..n], NUL);
      ghost var o := Line(t, p);
      OneMoreChunk(rest, os, p);
      OneMoreOutcome(os, o, h);
      var ok, made := ParseLine(line, section, prevName, t, s, p);
      calls := calls + made;
      if error == 0 && (!ok || (made != [] && !h(calls))) {
        error := lineno;
      }
      rest := rest[n..];
      os := os + [o];
    }
    Finished(os);
  }

  lemma NothingYet(h: Handler)
    ensures SectionAfter([]) == "" && PrevAfter([]) == "" && CallsOf([]) == [] && FirstError([], h) == 0
  {
  }

  lemma Finished(os: seq<Outcome>)
    ensures os + Outcomes(Chunks(""), PrevAfter(os)) == os
  {
  }
}
