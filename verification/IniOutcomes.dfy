/** What each kind of line means, told by its characters: pairs with space and comments around them,
    headers, continuations, blank and comment lines, and the lines that are errors. */
module IniOutcomes {
  import opened Common
  import opened CStrings
  import opened Ini
  import opened IniRoundTrip

  // ----- Characters ------------------------------------------------------------------------

  /** Space, tab, line feed, vertical tab, form feed or carriage return. */
  predicate White(c: char) {
    c as int == 32 || 9 <= c as int <= 13
  }

  predicate Blank(s: string) {
    forall i :: 0 <= i < |s| ==> White(s[i])
  }

  lemma SpaceIsWhite(c: char)
    ensures IsSpace(c) <==> White(c)
  {
  }

  /** Nothing, or a semicolon after white space, and whatever behind it. */
  predicate Comment(space: string, comment: string) {
    comment != "" ==> space != "" && comment[0] == ';'
  }

  // ----- Trimming --------------------------------------------------------------------------

  lemma RStrippedPart(x: string, y: string)
    requires y != "" && !White(y[|y| - 1])
    ensures RStripped(x + y) == x + y
  {
    SpaceIsWhite(y[|y| - 1]);
    RStrippedIs(x + y, |x + y|);
    assert (x + y)[..|x + y|] == x + y;
  }

  /** White space at the end goes, whatever was before it. */
  lemma {:induction false} RStrippedBlank(x: string, y: string)
    requires Blank(y)
    ensures RStripped(x + y) == RStripped(x)
  {
    if y == "" {
      assert x + y == x;
    } else {
      SpaceIsWhite(y[|y| - 1]);
      assert (x + y)[..|x + y| - 1] == x + y[..|y| - 1];
      RStrippedBlank(x, y[..|y| - 1]);
    }
  }

  /** A last part that is not blank shields what is before it. */
  lemma RStrippedLast(x: string, y: string)
    requires RStripped(y) != ""
    ensures RStripped(x + y) == x + RStripped(y)
  {
    var r := RStripped(y);
    assert y == r + y[|r|..];
    RStrippedPart(x, r);
    forall i | 0 <= i < |y[|r|..]| ensures White(y[|r|..][i]) { SpaceIsWhite(y[|r| + i]); }
    SpaceIsWhite(r[|r| - 1]);
    RStrippedBlank(x + r, y[|r|..]);
    assert (x + r) + y[|r|..] == x + y;
    hide RStripped;
  }

  lemma LSkippedBlank(x: string, y: string)
    requires Blank(x) && (y == "" || !White(y[0]))
    ensures LSkipped(x + y) == y
  {
    forall i | 0 <= i < |x| ensures IsSpace((x + y)[i]) { SpaceIsWhite(x[i]); }
    if y != "" { SpaceIsWhite(y[0]); }
    LSkippedIs(x + y, |x|);
    assert (x + y)[|x|..] == y;
  }

  // ----- Pairs -----------------------------------------------------------------------------

  /** What comes behind the separator: space, the value, space, and a comment if the value is not empty. */
  predicate Behind(p: string, value: string, q: string, comment: string) {
    && Blank(p) && Blank(q) && Trimmed(value) && Uncommented(value) && NUL !in value
    && Comment(q, comment) && (value == "" ==> comment == "")
  }

  lemma UncommentedBlank(x: string, q: string)
    requires Uncommented(x) && Blank(q)
    ensures Uncommented(x + q)
  {
    var s := x + q;
    forall i | 0 < i < |s| ensures !(IsSpace(s[i - 1]) && s[i] == ';') {
      if i < |x| { assert s[i] == x[i] && s[i - 1] == x[i - 1]; } else { assert White(q[i - |x|]); }
    }
  }

  /** The comment is where the search for the terminator stops. */
  lemma StopsAtComment(x: string, q: string, comment: string, c: char)
    requires Uncommented(x) && Blank(q) && c !in x + q && Comment(q, comment) && (comment != "" ==> c != ';')
    ensures Stop(x + q + comment, c) == |x + q|
  {
    var s := x + q + comment;
    UncommentedBlank(x, q);
    forall j | 0 <= j < |x + q| ensures !StopsAt(s, c, j) {
      assert s[j] == (x + q)[j] && (j > 0 ==> s[j - 1] == (x + q)[j - 1]);
    }
    if comment != "" {
      SpaceIsWhite(q[|q| - 1]);
      assert s[|x + q|] == ';' && s[|x + q| - 1] == q[|q| - 1];
    }
    StopIs(s, c, |x + q|);
  }

  lemma ValueOf(p: string, value: string, q: string, comment: string)
    requires Behind(p, value, q, comment)
    ensures Value(p + value + q + comment) == value
  {
    var v := value + q + comment;
    if value == "" {
      assert v == q && p + value + q + comment == (p + q) + "";
      LSkippedBlank(p + q, "");
    } else {
      SpaceIsWhite(value[0]);
      assert p + value + q + comment == p + v;
      LSkippedBlank(p, v);
      assert NUL !in value + q;
      StopsAtComment(value, q, comment, NUL);
      assert v[..|value + q|] == value + q;
      RStrippedBlank(value, q);
    }
    NameIsStripped(value);
  }

  /** In front of a colon there is no equals sign, and none behind it up to the comment. */
  predicate Separates(sep: char, x: string, p: string, value: string) {
    && '=' !in x && (sep == '=' || (sep == ':' && ':' !in x && '=' !in value))
  }

  /** Nothing is found behind a comment. */
  lemma NoneFound(s: string, c: char, n: nat)
    requires n <= |s| && c !in s[..n] && c != ';' && (n < |s| ==> n > 0 && IsSpace(s[n - 1]) && s[n] == ';')
    ensures var e := Stop(s, c); !(e < |s| && s[e] == c)
  {
    var e := Stop(s, c);
    if n < |s| { assert StopsAt(s, c, n); }
    if e < n { assert s[e] in s[..n]; }
  }

  lemma ColonFound(x: string, y: string)
    requires Uncommented(x) && ':' !in x
    ensures Stop(x + ":" + y, ':') == |x|
  {
    var s := x + ":" + y;
    NoStop(x, ':');
    forall j | 0 <= j < |x| ensures !StopsAt(s, ':', j) { assert !StopsAt(x, ':', j); }
    assert s[|x|] == ':';
    StopIs(s, ':', |x|);
  }

  lemma NameEndOf(x: string, sep: char, p: string, value: string, q: string, comment: string)
    requires Uncommented(x) && Behind(p, value, q, comment) && Separates(sep, x, p, value)
    ensures NameEnd(x + [sep] + (p + value + q + comment)) == |x|
  {
    var y := p + value + q + comment;
    if sep == '=' {
      NameEndsAtEquals(x, y);
    } else {
      var s, n := x + ":" + y, |x| + 1 + |p + value + q|;
      assert s[..n] == x + ":" + p + value + q;
      if comment != "" {
        assert s[n - 1] == q[|q| - 1] && s[n] == comment[0];
        SpaceIsWhite(q[|q| - 1]);
      }
      NoneFound(s, '=', n);
      ColonFound(x, y);
    }
  }

  lemma PairOf(name: string, p1: string, sep: char, p2: string, value: string, q: string, comment: string)
    requires Trimmed(name) && Uncommented(name) && Blank(p1)
    requires Behind(p2, value, q, comment) && Separates(sep, name, p2, value)
    ensures PairLine((name + p1) + [sep] + (p2 + value + q + comment)) == Seen(Pair(name, value))
  {
    var x, y := name + p1, p2 + value + q + comment;
    var s := x + [sep] + y;
    UncommentedBlank(name, p1);
    NameEndOf(x, sep, p2, value, q, comment);
    assert s[..|x|] == x && s[|x| + 1..] == y && s[|x|] == sep;
    RStrippedBlank(name, p1);
    NameIsStripped(name);
    ValueOf(p2, value, q, comment);
    hide NameEnd, Value, RStripped;
  }

  /** The white space at the end of the line belongs to what is behind the separator. */
  lemma StrippedPair(x: string, sep: char, p: string, value: string, q: string, comment: string)
    returns (p': string, q': string, comment': string)
    requires Behind(p, value, q, comment) && (sep == '=' || sep == ':')
    ensures Behind(p', value, q', comment')
    ensures RStripped(x + [sep] + (p + value + q + comment)) == x + [sep] + (p' + value + q' + comment')
  {
    var y := p + value + q + comment;
    if comment != "" {
      RStrippedComment(comment);
      p', q', comment' := p, q, RStripped(comment);
      var front := x + [sep] + (p + value + q);
      assert x + [sep] + y == front + comment;
      RStrippedLast(front, comment);
      assert front + comment' == x + [sep] + (p + value + q + comment');
    } else if value != "" {
      p', q', comment' := p, "", "";
      assert x + [sep] + y == (x + [sep] + p + value) + q;
      RStrippedBlank(x + [sep] + p + value, q);
      SpaceIsWhite(value[|value| - 1]);
      RStrippedPart(x + [sep] + p, value);
      assert x + [sep] + (p + value + "" + "") == x + [sep] + p + value;
    } else {
      p', q', comment' := "", "", "";
      assert x + [sep] + y == (x + [sep]) + (p + q);
      RStrippedBlank(x + [sep], p + q);
      RStrippedPart(x, [sep]);
      assert x + [sep] + ("" + value + "" + "") == x + [sep];
    }
  }

  lemma RStrippedComment(comment: string)
    requires comment != "" && comment[0] == ';'
    ensures var r := RStripped(comment); r != "" && r[0] == ';'
  {
    assert comment == ";" + comment[1..];
    if RStripped(comment[1..]) == "" {
      RStrippedBlankIs(comment[1..]);
      RStrippedBlank(";", comment[1..]);
      RStrippedPart("", ";");
    } else {
      RStrippedLast(";", comment[1..]);
    }
  }

  lemma RStrippedBlankIs(y: string)
    requires RStripped(y) == ""
    ensures Blank(y)
  {
    forall i | 0 <= i < |y| ensures White(y[i]) { SpaceIsWhite(y[i]); }
  }

  /** An indented line is read like one that is not, but for a continuation. */
  lemma IndentedLine(p0: string, body: string, b: string, prev: string)
    requires Blank(p0) && RStripped(body) == b && b != "" && !White(b[0]) && (p0 == "" || prev == "")
    requires b[0] != ';' && b[0] != '#'
    ensures Line(p0 + body, prev) == if b[0] == '[' then HeaderLine(b) else PairLine(b)
  {
    RStrippedLast(p0, body);
    LSkippedBlank(p0, b);
    hide RStripped, LSkipped, HeaderLine, PairLine;
    LineOf(p0 + body, prev, p0 + b, b);
  }

  /** A name fit for a pair: not taken for a comment or a header, and not ended early. */
  predicate FitName(name: string) {
    && Trimmed(name) && Uncommented(name)
    && (name != "" ==> name[0] != ';' && name[0] != '#' && name[0] != '[')
  }

  /** A pair, with white space before and after its parts and a comment behind its value.  The separator is
      the first equals sign, or, where there is none before the comment, the first colon.  A semicolon that
      does not follow white space is part of the name or value it is in, and so is one that would begin the
      value. */
  lemma PairIsRead(p0: string, name: string, p1: string, sep: char, p2: string, value: string,
                   q: string, comment: string, prev: string)
    requires Blank(p0) && FitName(name) && Blank(p1) && (name == "" ==> p1 == "") && (p0 == "" || prev == "")
    requires Behind(p2, value, q, comment) && Separates(sep, name, p2, value)
    ensures Line(p0 + ((name + p1) + [sep] + (p2 + value + q + comment)), prev) == Seen(Pair(name, value))
  {
    var p', q', comment' := StrippedPair(name + p1, sep, p2, value, q, comment);
    hide Line, PairLine, RStripped;
    var b := (name + p1) + [sep] + (p' + value + q' + comment');
    PairOf(name, p1, sep, p', value, q', comment');
    if name != "" {
      SpaceIsWhite(name[0]);
      assert b[0] == name[0];
    }
    IndentedLine(p0, (name + p1) + [sep] + (p2 + value + q + comment), b, prev);
  }

  /** The comment behind a value is cut off. */
  lemma CommentIsCutOff(name: string, value: string, rest: string, prev: string)
    requires FitName(name) && '=' !in name && value != "" && Trimmed(value) && Uncommented(value) && NUL !in value
    ensures Line(name + "=" + value + " ;" + rest, prev) == Seen(Pair(name, value))
  {
    hide Line;
    PairIsRead("", name, "", '=', "", value, " ", ";" + rest, prev);
    assert "" + ((name + "") + "=" + ("" + value + " " + (";" + rest))) == name + "=" + value + " ;" + rest;
  }

  /** There is no comment behind an empty value: the semicolon becomes its first character. */
  lemma EmptyValueTakesComment(name: string, rest: string, prev: string)
    requires FitName(name) && '=' !in name && Trimmed(";" + rest) && Uncommented(rest) && NUL !in rest
    requires rest != "" ==> rest[0] != ';'
    ensures Line(name + "=" + " ;" + rest, prev) == Seen(Pair(name, ";" + rest))
  {
    hide Line;
    var value := ";" + rest;
    forall i | 0 < i < |value| ensures !(IsSpace(value[i - 1]) && value[i] == ';') {
      if i > 1 { assert value[i - 1] == rest[i - 2] && value[i] == rest[i - 1]; }
    }
    PairIsRead("", name, "", '=', " ", value, "", "", prev);
    assert "" + ((name + "") + "=" + (" " + value + "" + "")) == name + "=" + " ;" + rest;
  }

  /** A colon separates where there is no equals sign. */
  lemma ColonSeparates(name: string, value: string, prev: string)
    requires FitName(name) && '=' !in name && ':' !in name
    requires Trimmed(value) && Uncommented(value) && NUL !in value && '=' !in value
    ensures Line(name + ": " + value, prev) == Seen(Pair(name, value))
  {
    hide Line;
    PairIsRead("", name, "", ':', " ", value, "", "", prev);
    assert "" + ((name + "") + ":" + (" " + value + "" + "")) == name + ": " + value;
  }

  // ----- Other lines -----------------------------------------------------------------------

  /** White space alone, and a line whose first other character is ';' or '#', mean nothing. */
  lemma BlankAndCommentLines(p0: string, rest: string, prev: string)
    requires Blank(p0) && (rest != "" ==> rest[0] == ';' || rest[0] == '#')
    ensures Line(p0 + rest, prev) == Nothing
  {
    if rest == "" {
      assert p0 + rest == "" + p0;
      RStrippedBlank("", p0);
    } else {
      var r := RStripped(rest);
      StrippedKeepsFirst(rest);
      RStrippedLast(p0, rest);
      LSkippedBlank(p0, r);
    }
  }

  lemma StrippedKeepsFirst(s: string)
    requires s != "" && !White(s[0])
    ensures var r := RStripped(s); r != "" && r[0] == s[0]
  {
    var r := RStripped(s);
    SpaceIsWhite(s[0]);
    assert !IsSpace(s[0]);
  }

  /** After a pair an indented line continues its value, whatever is in it. */
  lemma Continuation(p0: string, text: string, q: string, prev: string)
    requires p0 != "" && prev != "" && Blank(p0) && Blank(q) && Trimmed(text) && text != ""
    requires text[0] != ';' && text[0] != '#'
    ensures Line(p0 + (text + q), prev) == Seen(More(text))
  {
    RStrippedBlank(text, q);
    NameIsStripped(text);
    RStrippedLast(p0, text + q);
    SpaceIsWhite(text[0]);
    LSkippedBlank(p0, text);
    hide RStripped, LSkipped;
    LineOf(p0 + (text + q), prev, p0 + text, text);
  }

  /** A header is the text between the brackets, as far as 49 characters hold it. */
  lemma HeaderIsRead(p0: string, name: string, rest: string, prev: string)
    requires Blank(p0) && (p0 == "" || prev == "") && ']' !in name && Uncommented(name)
    ensures Line(p0 + ("[" + name + "]" + rest), prev) ==
            Seen(Section(if |name| <= 49 then name else name[..49]))
  {
    hide Line, RStripped, HeaderLine, Uncommented;
    var r := StrippedFront("[" + name, ']', rest);
    var b := "[" + name + "]" + r;
    assert b[0] == '[';
    IndentedLine(p0, "[" + name + "]" + rest, b, prev);
    BracketFound(name, r);
  }

  lemma StrippedFront(x: string, c: char, rest: string) returns (r: string)
    requires !White(c)
    ensures RStripped(x + [c] + rest) == x + [c] + r
  {
    r := RStripped(rest);
    if r == "" {
      RStrippedBlankIs(rest);
      RStrippedBlank(x + [c], rest);
      RStrippedPart(x, [c]);
    } else {
      RStrippedLast(x + [c], rest);
    }
  }

  lemma BracketFound(name: string, rest: string)
    requires ']' !in name && Uncommented(name)
    ensures HeaderLine("[" + name + "]" + rest) == Seen(Section(if |name| <= 49 then name else name[..49]))
  {
    var s := name + "]" + rest;
    assert ("[" + name + "]" + rest)[1..] == s;
    NoStop(name, ']');
    forall j | 0 <= j < |name| ensures !StopsAt(s, ']', j) { assert !StopsAt(name, ']', j); }
    assert s[|name|] == ']';
    StopIs(s, ']', |name|);
    assert s[..|name|] == name;
    assert Short(name) == if |name| <= 49 then name else name[..49];
  }

  // ----- Errors ----------------------------------------------------------------------------

  /** In any first part of a line, nothing is found before its comment. */
  lemma NothingFound(text: string, q: string, comment: string, part: string, c: char)
    requires c !in text && c != ';' && !White(c) && Blank(q) && Comment(q, comment)
    requires part <= text + q + comment
    ensures var e := Stop(part, c); !(e < |part| && part[e] == c)
  {
    var n := Min(|part|, |text + q|);
    forall i | 0 <= i < n ensures part[i] != c {
      if i < |text| { assert part[i] == text[i]; } else { assert part[i] == q[i - |text|]; }
    }
    if n < |part| {
      assert part[n] == comment[0] && part[n - 1] == q[|q| - 1];
      SpaceIsWhite(q[|q| - 1]);
    }
    NoneFound(part, c, n);
  }

  /** A bracket that is not closed, or only behind a comment, is an error. */
  lemma UnclosedHeader(text: string, q: string, comment: string, prev: string)
    requires ']' !in text && Blank(q) && Comment(q, comment)
    ensures Line("[" + (text + q + comment), prev) == Malformed
  {
    var rest := text + q + comment;
    hide Line, RStripped, Comment;
    var r := StrippedFront("", '[', rest);
    assert "" + "[" + rest == "[" + rest && "" + "[" + r == "[" + r;
    assert "" + ("[" + rest) == "[" + rest;
    IndentedLine("", "[" + rest, "[" + r, prev);
    assert ("[" + r)[1..] == r && ("[" + rest)[1..] == rest;
    assert RStripped("[" + rest) <= "[" + rest;
    PrefixBehind(r, rest);
    NothingFound(text, q, comment, r, ']');
  }

  lemma PrefixBehind(r: string, rest: string)
    requires "[" + r <= "[" + rest
    ensures r <= rest
  {
    assert forall i :: 0 <= i < |r| ==> r[i] == ("[" + r)[i + 1] == ("[" + rest)[i + 1] == rest[i];
  }

  lemma NotAPair(b: string)
    requires var e := Stop(b, '='); !(e < |b| && b[e] == '=')
    requires var e := Stop(b, ':'); !(e < |b| && b[e] == ':')
    ensures PairLine(b) == Malformed
  {
  }

  /** A line that is no header and has no separator, or only behind a comment, is an error. */
  lemma NoSeparator(text: string, q: string, comment: string, prev: string)
    requires text != "" && !White(text[0]) && text[0] != ';' && text[0] != '#' && text[0] != '['
    requires '=' !in text && ':' !in text && Blank(q) && Comment(q, comment)
    ensures Line(text + q + comment, prev) == Malformed
  {
    hide Line, RStripped, PairLine, HeaderLine, Stop, Comment, Blank;
    var line := text + q + comment;
    var b := RStripped(line);
    StrippedKeepsFirst(line);
    assert "" + line == line;
    NothingIsBlank();
    IndentedLine("", line, b, prev);
    NothingFound(text, q, comment, b, '=');
    NothingFound(text, q, comment, b, ':');
    NotAPair(b);
  }

  lemma NothingIsBlank()
    ensures Blank("")
  {
  }

  // ----- Calls -----------------------------------------------------------------------------

  /** A pair is reported with its section, a continuation with its section and the name it continues;
      nothing else is reported. */
  lemma CallsAreReported(os: seq<Outcome>, o: Outcome)
    ensures CallsOf(os + [o]) == CallsOf(os) +
            match o
            case Seen(Pair(name, value)) => [Call(SectionAfter(os), name, value)]
            case Seen(More(text)) => [Call(SectionAfter(os), PrevAfter(os), text)]
            case _ => []
  {
    assert (os + [o])[..|os|] == os;
  }

  /** The parser reports the number of the first line that is malformed or whose call was rejected. */
  lemma ErrorIsFirst(os: seq<Outcome>, h: Handler, i: nat)
    requires i < |os|
    requires os[i] == Malformed || ((os[i].Seen? && !os[i].e.Section?) && !h(CallsOf(os[..i + 1])))
    requires forall j :: 0 <= j < i ==>
               os[j] != Malformed && (os[j].Seen? && !os[j].e.Section? ==> h(CallsOf(os[..j + 1])))
    ensures FirstError(os, h) == i + 1
  {
    hide Bad, CallsOf, FirstError;
    FirstErrorIsLeast(os, h);
    forall j | 0 <= j <= i ensures Bad(os, h, j) <==> j == i { BadMeans(os, h, j); }
    var r := FirstError(os, h);
    assert Bad(os, h, i);
    assert r > 0 && !(i < r - 1) && Bad(os, h, r - 1);
  }

  lemma BadMeans(os: seq<Outcome>, h: Handler, i: nat)
    requires i < |os|
    ensures Bad(os, h, i) <==>
            os[i] == Malformed || ((os[i].Seen? && !os[i].e.Section?) && !h(CallsOf(os[..i + 1])))
  {
    assert os[..i + 1] == os[..i] + [os[i]];
    CallsAreReported(os[..i], os[i]);
    hide CallsOf;
  }

  /** Without such a line it reports 0. */
  lemma NoError(os: seq<Outcome>, h: Handler)
    requires forall j :: 0 <= j < |os| ==>
               os[j] != Malformed && (os[j].Seen? && !os[j].e.Section? ==> h(CallsOf(os[..j + 1])))
    ensures FirstError(os, h) == 0
  {
    hide Bad, CallsOf, FirstError;
    FirstErrorIsLeast(os, h);
    forall j: nat | j < |os| ensures !Bad(os, h, j) { BadMeans(os, h, j); }
  }

  /** fgets cuts a line that is too long after 199 characters. */
  lemma LongLineIsCut(text: string)
    requires |text| > 199 && Plain(text[..199])
    ensures Chunks(text) == [text[..199]] + Chunks(text[199..])
  {
    TakesAll(text, 0);
    hide Taken;
    UntilIs(text[..199], NUL, 199);
    assert text[..199][..199] == text[..199];
  }

  lemma {:induction false} TakesAll(text: string, i: nat)
    requires |text| > 199 && Plain(text[..199]) && i <= 199
    ensures Taken(text, i) == 199
    decreases 199 - i
  {
    if i < 199 {
      assert text[i] == text[..199][i];
      TakesAll(text, i + 1);
    }
  }
}
